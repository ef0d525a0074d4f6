/** The spool directory: file names, file contents, and the queue they stand for. */
module SpoolFiles {
  import opened Orders
  import opened Decimal
  import opened Json
  import opened Options

  const BATCH_SUFFIX := ".batch.json"
  const SEQ_FILE := ".next_seq"
  const TMP := ".tmp"

  datatype Payload = Payload(batchId: string, readings: seq<Json>, source: string)

  /** What a file holds: plain text, the JSON of one batch, or bytes that parse as neither. */
  datatype Content = Plain(text: string) | Batch(payload: Payload) | Torn

  type Directory = map<string, Content>

  function BatchName(n: nat): string { Padded(n) + BATCH_SUFFIX }

  predicate HasSuffix(name: string) {
    |name| >= |BATCH_SUFFIX| && name[|name| - |BATCH_SUFFIX|..] == BATCH_SUFFIX
  }

  /** int(entry[:12]), with ValueError as None. */
  function ParseSeq(name: string): (r: Option<nat>)
  {
    var prefix := if |name| <= SEQ_WIDTH then name else name[..SEQ_WIDTH];
    if prefix != [] && AllDigits(prefix) then Some(Value(prefix)) else None
  }

  /** The persisted counter; a missing or unreadable counter file counts as 0. */
  function CounterValue(dir: Directory): nat {
    if SEQ_FILE in dir && dir[SEQ_FILE].Plain? && AllDigits(dir[SEQ_FILE].text)
    then Value(dir[SEQ_FILE].text) else 0
  }

  /** An entry that pending() reads back. */
  predicate Readable(dir: Directory, name: string) {
    name in dir && HasSuffix(name) && ParseSeq(name).Some? && dir[name].Batch?
  }

  /** Every batch file was written by append for a number that fits the name. */
  predicate Clean(dir: Directory) {
    forall name :: name in dir && HasSuffix(name) ==>
      ParseSeq(name).Some? && name == BatchName(ParseSeq(name).value) && dir[name].Batch?
  }

  /** The queue a directory stands for: the counter and the batches filed under their numbers. */
  datatype Disk = Disk(counter: nat, batches: map<nat, Payload>)

  ghost function Batches(dir: Directory): map<nat, Payload> {
    map n: nat | n < SEQ_LIMIT && Pends(dir, n) :: dir[BatchName(n)].payload
  }

  predicate Pends(dir: Directory, n: nat) {
    BatchName(n) in dir && dir[BatchName(n)].Batch?
  }

  ghost function Queue(dir: Directory): Disk { Disk(CounterValue(dir), Batches(dir)) }

  /** The number a restart resumes at: the counter, or one above the highest pending batch. */
  ghost predicate ResumesAt(disk: Disk, n: nat) {
    && disk.counter <= n
    && (forall s :: s in disk.batches ==> s < n)
    && (n == disk.counter || n - 1 in disk.batches)
  }

  // ---- file names ------------------------------------------------------------------

  /** Reading a name back gives its number exactly when the number fits twelve digits. */
  lemma NameRoundTrip(n: nat)
    ensures HasSuffix(BatchName(n))
    ensures ParseSeq(BatchName(n)) == Some(n) <==> n < SEQ_LIMIT
  {
    PaddedPrefixRoundTrip(n);
    assert BatchName(n)[..SEQ_WIDTH] == Padded(n)[..SEQ_WIDTH];
  }

  /** Names sort like numbers, so the first name is the oldest batch. */
  lemma NameOrder(m: nat, n: nat)
    requires m < SEQ_LIMIT && n < SEQ_LIMIT
    ensures Less(Codes(BatchName(m)), Codes(BatchName(n))) <==> m < n
  {
    PaddedWidth(m);
    PaddedWidth(n);
    ValueOfPadded(m);
    ValueOfPadded(n);
    DigitsOrder(Padded(m), Padded(n));
    var a, b, x := Codes(Padded(m)), Codes(Padded(n)), Codes(BATCH_SUFFIX);
    assert Codes(BatchName(m)) == a + x && Codes(BatchName(n)) == b + x;
    if m == n {
      LessIrreflexive(a + x);
    } else {
      CodesInjective(Padded(m), Padded(n));
      LessIgnoresTail(a, b, x, x);
    }
  }

  lemma CodesInjective(s: string, t: string)
    ensures Codes(s) == Codes(t) ==> s == t
  {
    if Codes(s) == Codes(t) {
      forall i | 0 <= i < |s| ensures s[i] == t[i] { assert Codes(s)[i] == Codes(t)[i]; }
    }
  }

  predicate NameLess(a: string, b: string) { Less(Codes(a), Codes(b)) }

  lemma NameLessIsStrict()
    ensures StrictOrder(NameLess)
  {
    forall a: string, b: string ensures !(NameLess(a, b) && NameLess(b, a)) {
      if NameLess(a, b) && NameLess(b, a) { LessTransitive(Codes(a), Codes(b), Codes(a)); }
      LessIrreflexive(Codes(a));
    }
    forall a: string, b: string, c: string ensures NameLess(a, b) && NameLess(b, c) ==> NameLess(a, c) {
      if NameLess(a, b) && NameLess(b, c) { LessTransitive(Codes(a), Codes(b), Codes(c)); }
    }
    forall a: string, b: string, c: string ensures !NameLess(a, b) && !NameLess(b, c) ==> !NameLess(a, c) {
      if !NameLess(a, b) && NameLess(a, c) {
        LessTotal(Codes(a), Codes(b));
        if Less(Codes(b), Codes(a)) { LessTransitive(Codes(b), Codes(a), Codes(c)); }
      }
    }
  }

  lemma WrittenNamesLackSuffix(n: nat)
    ensures !HasSuffix(BatchName(n) + TMP) && !HasSuffix(SEQ_FILE) && !HasSuffix(SEQ_FILE + TMP)
    ensures SEQ_FILE != BatchName(n) + TMP && SEQ_FILE != BatchName(n)
  {
    EndsDifferently(BatchName(n) + TMP);
    EndsDifferently(SEQ_FILE + TMP);
    assert BatchName(n)[0] == Padded(n)[0];
  }

  lemma SuffixLast(name: string)
    requires HasSuffix(name)
    ensures name[|name| - 1] == 'n'
  {
    assert name[|name| - 1] == name[|name| - 11..][10];
  }

  lemma EndsDifferently(name: string)
    requires name != [] && name[|name| - 1] != 'n'
    ensures !HasSuffix(name)
  {
    if HasSuffix(name) { SuffixLast(name); }
  }

  lemma BatchNameInjective(m: nat, n: nat)
    requires BatchName(m) == BatchName(n)
    ensures m == n
  {
    var a, b := Padded(m), Padded(n);
    assert |a| == |b|;
    assert a == BatchName(m)[..|a|] && b == BatchName(n)[..|b|];
    PaddedInjective(m, n);
  }

  // ---- what each file operation does to the queue ------------------------------------

  function Persisted(dir: Directory, n: nat): Directory {
    (dir - {SEQ_FILE + TMP})[SEQ_FILE := Plain(Numeral(n))]
  }

  function Appended(dir: Directory, n: nat, p: Payload): Directory {
    (dir - {BatchName(n) + TMP})[BatchName(n) := Batch(p)]
  }

  /** A batch file that a clean directory holds has a number that fits. */
  lemma CleanEntry(dir: Directory, name: string)
    requires Clean(dir) && name in dir && HasSuffix(name)
    ensures ParseSeq(name).Some? && ParseSeq(name).value < SEQ_LIMIT
    ensures name == BatchName(ParseSeq(name).value) && Pends(dir, ParseSeq(name).value)
  {
    NameRoundTrip(ParseSeq(name).value);
  }

  lemma PendsAfterPersist(dir: Directory, n: nat, s: nat)
    ensures var after := Persisted(dir, n);
      && (Pends(after, s) <==> Pends(dir, s))
      && (Pends(after, s) ==> after[BatchName(s)] == dir[BatchName(s)])
  {
    WrittenNamesLackSuffix(s);
    NameRoundTrip(s);
  }

  lemma PersistBatches(dir: Directory, n: nat)
    ensures Batches(Persisted(dir, n)) == Batches(dir)
  {
    var b, c := Batches(dir), Batches(Persisted(dir, n));
    forall s: nat ensures (s in c <==> s in b) && (s in c ==> c[s] == b[s]) {
      PendsAfterPersist(dir, n, s);
    }
    assert c == b;
  }

  lemma PersistQueue(dir: Directory, n: nat)
    ensures Queue(Persisted(dir, n)) == Queue(dir).(counter := n)
    ensures Clean(dir) ==> Clean(Persisted(dir, n))
  {
    ValueOfNumeral(n);
    WrittenNamesLackSuffix(0);
    PersistBatches(dir, n);
  }

  lemma PendsAfterAppend(dir: Directory, n: nat, p: Payload, s: nat)
    ensures var after := Appended(dir, n, p);
      && (Pends(after, s) <==> s == n || Pends(dir, s))
      && (Pends(after, s) ==> after[BatchName(s)].payload == if s == n then p else dir[BatchName(s)].payload)
  {
    WrittenNamesLackSuffix(n);
    NameRoundTrip(s);
    if BatchName(s) == BatchName(n) { BatchNameInjective(s, n); }
  }

  lemma AppendBatches(dir: Directory, n: nat, p: Payload)
    requires n < SEQ_LIMIT
    ensures Batches(Appended(dir, n, p)) == Batches(dir)[n := p]
  {
    var b, c := Batches(dir), Batches(Appended(dir, n, p));
    forall s: nat ensures (s in c <==> s == n || s in b) && (s in c ==> c[s] == if s == n then p else b[s]) {
      PendsAfterAppend(dir, n, p, s);
    }
    assert c == b[n := p];
  }

  lemma AppendQueue(dir: Directory, n: nat, p: Payload)
    requires n < SEQ_LIMIT
    ensures Queue(Appended(dir, n, p)) == Queue(dir).(batches := Queue(dir).batches[n := p])
  {
    WrittenNamesLackSuffix(n);
    AppendBatches(dir, n, p);
  }

  lemma AppendClean(dir: Directory, n: nat, p: Payload)
    requires Clean(dir) && n < SEQ_LIMIT
    ensures Clean(Appended(dir, n, p))
  {
    NameRoundTrip(n);
  }

  /** What a write that failed before the rename leaves behind. */
  function Leftover(dir: Directory, name: string, content: Content): Directory { dir[name + TMP := content] }

  /** A leftover of the counter or of a batch file is never read again. */
  lemma LeftoverIsIgnored(dir: Directory, n: nat, content: Content)
    ensures var after := Leftover(dir, SEQ_FILE, content); Queue(after) == Queue(dir) && (Clean(dir) ==> Clean(after))
    ensures var after := Leftover(dir, BatchName(n), content); Queue(after) == Queue(dir) && (Clean(dir) ==> Clean(after))
  {
    WrittenNamesLackSuffix(n);
    UnsuffixedIsIgnored(dir, SEQ_FILE + TMP, content);
    UnsuffixedIsIgnored(dir, BatchName(n) + TMP, content);
  }

  lemma UnsuffixedIsIgnored(dir: Directory, name: string, content: Content)
    requires !HasSuffix(name)
    ensures Batches(dir[name := content]) == Batches(dir)
  {
    var b, c := Batches(dir), Batches(dir[name := content]);
    forall s: nat ensures (s in c <==> s in b) && (s in c ==> c[s] == b[s]) { NameRoundTrip(s); }
    assert c == b;
  }

  lemma PendsAfterRemove(dir: Directory, n: nat, s: nat)
    ensures Pends(dir - {BatchName(n)}, s) <==> s != n && Pends(dir, s)
  {
    if BatchName(s) == BatchName(n) { BatchNameInjective(s, n); }
  }

  lemma RemoveBatches(dir: Directory, n: nat)
    ensures Batches(dir - {BatchName(n)}) == Batches(dir) - {n}
  {
    var b, c := Batches(dir), Batches(dir - {BatchName(n)});
    forall s: nat ensures (s in c <==> s != n && s in b) && (s in c ==> c[s] == b[s]) {
      PendsAfterRemove(dir, n, s);
    }
    assert c == b - {n};
  }

  lemma RemoveQueue(dir: Directory, n: nat)
    ensures Queue(dir - {BatchName(n)}) == Queue(dir).(batches := Queue(dir).batches - {n})
    ensures Clean(dir) ==> Clean(dir - {BatchName(n)})
  {
    WrittenNamesLackSuffix(n);
    RemoveBatches(dir, n);
  }
}
