/** The durable spool: the class whose methods read and write the spool directory. */
module Spools {
  import opened Orders
  import opened Decimal
  import opened Options
  import opened SpoolFiles

  datatype SpooledBatch = SpooledBatch(n: nat, path: string, payload: Payload)

  /** What recovery computes from the raw directory listing. */
  ghost predicate Recovers(dir: Directory, n: nat) {
    && CounterValue(dir) <= n
    && (forall name :: name in dir && HasSuffix(name) && ParseSeq(name).Some? ==> ParseSeq(name).value < n)
    && (n == CounterValue(dir)
        || exists name :: name in dir && HasSuffix(name) && ParseSeq(name) == Some((n - 1) as int))
  }

  /** One above the highest batch number among these names, or 0. */
  ghost predicate HighestOf(names: seq<string>, h: nat) {
    && (forall name :: name in names && HasSuffix(name) && ParseSeq(name).Some? ==> ParseSeq(name).value < h)
    && (h == 0 || exists name :: name in names && HasSuffix(name) && ParseSeq(name) == Some((h - 1) as int))
  }

  /** One pass of the recovery scan: entries without the suffix or a number are skipped. */
  function Above(h: nat, name: string): nat {
    if !HasSuffix(name) then h
    else match ParseSeq(name)
      case Some(n) => if h < n + 1 then n + 1 else h
      case None => h
  }

  lemma HighestStep(names: seq<string>, name: string, h: nat)
    requires HighestOf(names, h)
    ensures HighestOf(names + [name], Above(h, name))
  {
    var more := names + [name];
    assert more[|names|] == name && forall x :: x in more <==> x in names || x == name;
  }

  lemma HighestRecovers(dir: Directory, names: seq<string>, h: nat, n: nat)
    requires HighestOf(names, h) && forall name :: name in names <==> name in dir
    requires n == if CounterValue(dir) < h then h else CounterValue(dir)
    ensures Recovers(dir, n)
  {}

  lemma RecoversQueue(dir: Directory, n: nat)
    requires Clean(dir)
    ensures Recovers(dir, n) <==> ResumesAt(Queue(dir), n)
  {
    forall name | name in dir && HasSuffix(name) ensures ParseSeq(name).value in Batches(dir) {
      CleanEntry(dir, name);
    }
    forall s | s in Batches(dir) ensures BatchName(s) in dir && HasSuffix(BatchName(s)) && ParseSeq(BatchName(s)) == Some(s) {
      NameRoundTrip(s);
    }
  }

  /** The entries of a directory in the arbitrary order the file system lists them. */
  method ListDir(dir: Directory) returns (names: seq<string>)
    ensures forall name :: name in names <==> name in dir
    ensures forall i, j :: 0 <= i < j < |names| ==> names[i] != names[j]
  {
    names := [];
    var left := dir.Keys;
    while left != {}
      invariant left <= dir.Keys
      invariant forall name :: name in names <==> name in dir && name !in left
      invariant forall i, j :: 0 <= i < j < |names| ==> names[i] != names[j]
      decreases left
    {
      var name :| name in left;
      names := names + [name];
      left := left - {name};
    }
  }

  lemma DistinctPermutation(s: seq<string>, t: seq<string>)
    requires multiset(s) == multiset(t)
    requires forall i, j :: 0 <= i < j < |s| ==> s[i] != s[j]
    ensures forall i, j :: 0 <= i < j < |t| ==> t[i] != t[j]
    ensures forall x :: x in t <==> x in s
  {
    forall x ensures x in t <==> x in s { assert x in multiset(t) <==> x in multiset(s); }
    forall i, j | 0 <= i < j < |t| ensures t[i] != t[j] {
      if t[i] == t[j] {
        assert t == t[..i] + [t[i]] + t[i + 1..j] + [t[j]] + t[j + 1..];
        assert multiset(t)[t[i]] >= 2;
        OnceOnly(s, t[i]);
      }
    }
  }

  lemma {:induction false} OnceOnly(s: seq<string>, x: string)
    requires forall i, j :: 0 <= i < j < |s| ==> s[i] != s[j]
    ensures multiset(s)[x] <= 1
  {
    if s != [] {
      assert s == [s[0]] + s[1..];
      OnceOnly(s[1..], x);
      if s[0] == x { assert x !in s[1..]; }
    }
  }

  lemma EarlierNameIsLess(ordered: seq<string>, j: nat, k: nat)
    requires j < k < |ordered| && Ascending(NameLess, ordered)
    requires forall i, j :: 0 <= i < j < |ordered| ==> ordered[i] != ordered[j]
    ensures NameLess(ordered[j], ordered[k])
  {
    LessTotal(Codes(ordered[j]), Codes(ordered[k]));
    CodesInjective(ordered[j], ordered[k]);
  }

  /** sorted(os.listdir(dir)). */
  method SortedListing(dir: Directory) returns (ordered: seq<string>)
    ensures forall name :: name in ordered <==> name in dir
    ensures forall i, j :: 0 <= i < j < |ordered| ==> NameLess(ordered[i], ordered[j])
  {
    var names := ListDir(dir);
    ordered := Sort(NameLess, names);
    NameLessIsStrict();
    SortAscending(NameLess, names);
    DistinctPermutation(names, ordered);
    forall i, j | 0 <= i < j < |ordered| ensures NameLess(ordered[i], ordered[j]) {
      EarlierNameIsLess(ordered, i, j);
    }
  }

  ghost predicate ReadBack(dir: Directory, items: seq<SpooledBatch>) {
    forall i :: 0 <= i < |items| ==>
      && Readable(dir, items[i].path)
      && ParseSeq(items[i].path) == Some(items[i].n)
      && dir[items[i].path] == Batch(items[i].payload)
  }

  ghost predicate AscendingPaths(items: seq<SpooledBatch>) {
    forall i, j :: 0 <= i < j < |items| ==> NameLess(items[i].path, items[j].path)
  }

  ghost predicate HasPath(items: seq<SpooledBatch>, name: string) {
    exists i :: 0 <= i < |items| && items[i].path == name
  }

  lemma HasPathGrows(items: seq<SpooledBatch>, b: SpooledBatch)
    ensures forall name :: HasPath(items + [b], name) <==> HasPath(items, name) || name == b.path
  {
    var more := items + [b];
    assert more[|items|] == b;
    forall name | HasPath(items, name) ensures HasPath(more, name) {
      var i :| 0 <= i < |items| && items[i].path == name;
      assert more[i].path == name;
    }
  }

  /** The batches an ordered listing yields: every readable entry, in strictly ascending name order. */
  ghost predicate ListsPending(dir: Directory, items: seq<SpooledBatch>) {
    ReadBack(dir, items) && AscendingPaths(items) && forall name :: Readable(dir, name) ==> HasPath(items, name)
  }

  /** Resume above the persisted counter and above every batch file still there. */
  method RecoverNextSeq(dir: Directory) returns (n: nat)
    ensures Recovers(dir, n)
  {
    var persisted := CounterValue(dir);
    var highestPending := 0;
    var names := ListDir(dir);
    for k := 0 to |names|
      invariant HighestOf(names[..k], highestPending)
    {
      var entry := names[k];
      assert names[..k + 1] == names[..k] + [entry];
      HighestStep(names[..k], entry, highestPending);
      highestPending := Above(highestPending, entry);
    }
    assert names[..|names|] == names;
    n := if persisted < highestPending then highestPending else persisted;
    HighestRecovers(dir, names, highestPending, n);
  }

  class Spool {
    var dir: Directory
    var next: nat

    /** A process start over an existing directory. */
    constructor (existing: Directory)
      ensures dir == existing && Recovers(existing, next)
    {
      dir := existing;
      new;
      next := RecoverNextSeq(existing);
    }

    /** Reserve the next number: it is on disk before it is handed out. When the counter cannot be
        written, None stands for the OSError; the number is skipped. */
    method NextSeq(written: bool) returns (r: Option<nat>)
      modifies this
      ensures next == old(next) + 1
      ensures written ==> r == Some(old(next)) && dir == Persisted(old(dir), next)
      ensures written ==> Queue(dir) == Queue(old(dir)).(counter := next)
      ensures !written ==> r == None && Queue(dir) == Queue(old(dir))
      ensures Clean(old(dir)) ==> Clean(dir)
    {
      var n := next;
      next := n + 1;
      var tmp := SEQ_FILE + TMP;
      if !written {
        LeftoverIsIgnored(dir, 0, Plain(""));
        var begun: bool := *;
        if begun { dir := dir[tmp := Plain("")]; }
        return None;
      }
      dir := dir[tmp := Plain(Numeral(next))];
      dir := (dir - {tmp})[SEQ_FILE := dir[tmp]];
      assert dir == Persisted(old(dir), n + 1);
      PersistQueue(old(dir), n + 1);
      r := Some(n);
    }

    /** Write the temporary sibling, then rename it; None stands for the OSError of either. */
    method Append(n: nat, payload: Payload, written: bool) returns (path: Option<string>)
      modifies this`dir
      ensures written ==> path == Some(BatchName(n)) && dir == Appended(old(dir), n, payload)
      ensures written && n < SEQ_LIMIT ==> Queue(dir) == Queue(old(dir)).(batches := Queue(old(dir)).batches[n := payload])
      ensures !written ==> path == None && Queue(dir) == Queue(old(dir))
      ensures Clean(old(dir)) && (n < SEQ_LIMIT || !written) ==> Clean(dir)
    {
      var tmp := BatchName(n) + TMP;
      if !written {
        LeftoverIsIgnored(dir, n, Plain(""));
        var begun: bool := *;
        if begun { dir := dir[tmp := Plain("")]; }
        return None;
      }
      dir := dir[tmp := Batch(payload)];
      dir := (dir - {tmp})[BatchName(n) := dir[tmp]];
      assert dir == Appended(old(dir), n, payload);
      if n < SEQ_LIMIT {
        AppendQueue(old(dir), n, payload);
        if Clean(old(dir)) { AppendClean(old(dir), n, payload); }
      }
      path := Some(BatchName(n));
    }

    method Pending() returns (items: seq<SpooledBatch>)
      ensures ListsPending(dir, items)
    {
      hide ParseSeq, HasSuffix, NameLess, HasPath;
      var ordered := SortedListing(dir);
      items := [];
      for k := 0 to |ordered|
        invariant ReadBack(dir, items)
        invariant forall i :: 0 <= i < |items| ==> items[i].path in ordered[..k]
        invariant AscendingPaths(items)
        invariant forall name :: name in ordered[..k] && Readable(dir, name) ==> HasPath(items, name)
      {
        var entry := ordered[k];
        assert ordered[..k + 1] == ordered[..k] + [entry];
        if HasSuffix(entry) && ParseSeq(entry).Some? && dir[entry].Batch? {
          ghost var before := items;
          items := items + [SpooledBatch(ParseSeq(entry).value, entry, dir[entry].payload)];
          HasPathGrows(before, items[|before|]);
        }
      }
      assert ordered[..|ordered|] == ordered;
    }

    /** The oldest batch: the least number when the directory is clean. */
    method Peek() returns (r: Option<SpooledBatch>)
      ensures r.None? <==> forall name :: !Readable(dir, name)
      ensures r.Some? ==> Readable(dir, r.value.path) && dir[r.value.path] == Batch(r.value.payload)
      ensures Clean(dir) ==> (r.None? <==> Queue(dir).batches == map[])
      ensures Clean(dir) && r.Some? ==>
        && Oldest(Queue(dir), r.value.n, r.value.payload)
        && r.value.path == BatchName(r.value.n) && r.value.n < SEQ_LIMIT
    {
      var batches := Pending();
      r := if batches != [] then Some(batches[0]) else None;
      if Clean(dir) { FirstIsOldest(dir, batches); }
      if batches != [] { assert Readable(dir, batches[0].path); }
    }

    /** Remove the file of a batch; a file already gone is fine. */
    method Ack(batch: SpooledBatch)
      modifies this`dir
      ensures dir == old(dir) - {batch.path}
      ensures batch.path == BatchName(batch.n) ==>
        && Queue(dir) == Queue(old(dir)).(batches := Queue(old(dir)).batches - {batch.n})
        && (Clean(old(dir)) ==> Clean(dir))
    {
      dir := dir - {batch.path};
      RemoveQueue(old(dir), batch.n);
    }
  }

  /** The batch with the least number, and its payload. */
  ghost predicate Oldest(disk: Disk, n: nat, p: Payload) {
    && n in disk.batches && disk.batches[n] == p
    && forall s :: s in disk.batches ==> n <= s
  }

  lemma FirstIsOldest(dir: Directory, items: seq<SpooledBatch>)
    requires Clean(dir) && ListsPending(dir, items)
    ensures items == [] <==> Queue(dir).batches == map[]
    ensures items != [] ==>
      && Oldest(Queue(dir), items[0].n, items[0].payload)
      && items[0].path == BatchName(items[0].n) && items[0].n < SEQ_LIMIT
  {
    var b := Batches(dir);
    if items != [] { CleanEntry(dir, items[0].path); }
    forall s | s in b ensures items != [] && items[0].n <= s {
      NameRoundTrip(s);
      assert Readable(dir, BatchName(s));
      var i :| 0 <= i < |items| && items[i].path == BatchName(s);
      if i > 0 { NameOrder(items[0].n, s); }
    }
    if items != [] { assert items[0].n in b; }
  }
}
