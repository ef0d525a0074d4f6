/** The encrypted store-and-forward buffer and the monotonic gateway clock. */
module Buffers {
  import opened Options

  /** Authenticated encryption: a token opens under the key that sealed it and under no other. */
  datatype Token<R> = Token(key: nat, record: R)

  function Decrypt<R>(key: nat, token: Token<R>): Option<R> {
    if token.key == key then Some(token.record) else None
  }

  datatype Row<R> = Row(id: nat, payload: Token<R>)

  predicate AscendingIds<R>(rows: seq<Row<R>>) { forall i, j :: 0 <= i < j < |rows| ==> rows[i].id < rows[j].id }

  function Without<R>(rows: seq<Row<R>>, ids: set<nat>): seq<Row<R>> {
    if rows == [] then [] else (if rows[0].id in ids then [] else [rows[0]]) + Without(rows[1..], ids)
  }

  function IdSet(ids: seq<nat>): set<nat> { set id | id in ids }

  /** Rows sealed for the records, numbered upwards from `next`. */
  function Sealed<R>(key: nat, records: seq<R>, next: nat): (r: seq<Row<R>>)
    ensures |r| == |records|
  {
    seq(|records|, i requires 0 <= i < |records| => Row(next + i, Token(key, records[i])))
  }

  /** The newest `max` rows; a limit of zero or less keeps everything. */
  function Trimmed<R>(rows: seq<Row<R>>, max: int): seq<Row<R>> {
    if max <= 0 || |rows| <= max then rows else rows[|rows| - max..]
  }

  lemma {:induction false} WithoutNothing<R>(rows: seq<Row<R>>, ids: set<nat>)
    requires forall i :: 0 <= i < |rows| ==> rows[i].id !in ids
    ensures Without(rows, ids) == rows
  {
    if rows != [] { WithoutNothing(rows[1..], ids); }
  }

  /** Deleting the first n rows by id leaves exactly the rest. */
  lemma {:induction false} WithoutPrefix<R>(rows: seq<Row<R>>, n: nat, ids: set<nat>)
    requires AscendingIds(rows) && n <= |rows|
    requires forall i :: 0 <= i < |rows| ==> (rows[i].id in ids <==> i < n)
    ensures Without(rows, ids) == rows[n..]
  {
    if n == 0 {
      WithoutNothing(rows, ids);
    } else {
      WithoutPrefix(rows[1..], n - 1, ids);
    }
  }

  /** Acknowledging what Pending returned removes exactly the oldest rows. */
  lemma AckRemovesPrefix<R>(rows: seq<Row<R>>, ids: seq<nat>)
    requires AscendingIds(rows) && |ids| <= |rows| && forall i :: 0 <= i < |ids| ==> ids[i] == rows[i].id
    ensures Without(rows, IdSet(ids)) == rows[|ids|..]
  {
    forall i | 0 <= i < |rows| ensures rows[i].id in IdSet(ids) <==> i < |ids| {
      if i < |ids| { assert ids[i] == rows[i].id; }
    }
    WithoutPrefix(rows, |ids|, IdSet(ids));
  }

  class EncryptedBuffer<R(==)> {
    const key: nat
    const maxRows: int
    var rows: seq<Row<R>>
    var nextId: nat

    /** Ids ascend in the table and AUTOINCREMENT never reuses one. */
    ghost predicate Valid()
      reads this
    {
      AscendingIds(rows) && forall i :: 0 <= i < |rows| ==> rows[i].id < nextId
    }

    /** Opening the database file: the rows of an earlier process are still there. */
    constructor (key: nat, maxRows: int, rows: seq<Row<R>>, nextId: nat)
      requires AscendingIds(rows) && forall i :: 0 <= i < |rows| ==> rows[i].id < nextId
      ensures Valid() && this.key == key && this.maxRows == maxRows && this.rows == rows && this.nextId == nextId
    {
      this.key, this.maxRows, this.rows, this.nextId := key, maxRows, rows, nextId;
    }

    method AppendMany(records: seq<R>) returns (ids: seq<nat>)
      requires Valid()
      modifies this
      ensures Valid() && nextId == old(nextId) + |records|
      ensures |ids| == |records| && forall i :: 0 <= i < |ids| ==> ids[i] == old(nextId) + i
      ensures rows == if records == [] then old(rows)
                      else Trimmed(old(rows) + Sealed(key, records, old(nextId)), maxRows)
    {
      ids := [];
      if records == [] { return; }
      for i := 0 to |records|
        invariant Valid() && nextId == old(nextId) + i
        invariant rows == old(rows) + Sealed(key, records, old(nextId))[..i]
        invariant |ids| == i && forall k :: 0 <= k < i ==> ids[k] == old(nextId) + k
      {
        rows := rows + [Row(nextId, Token(key, records[i]))];
        ids := ids + [nextId];
        nextId := nextId + 1;
      }
      assert Sealed(key, records, old(nextId))[..|records|] == Sealed(key, records, old(nextId));
      Trim();
    }

    method Trim()
      requires Valid()
      modifies this`rows
      ensures Valid() && rows == Trimmed(old(rows), maxRows)
    {
      if maxRows <= 0 { return; }
      if |rows| <= maxRows { return; }
      var overflow := |rows| - maxRows;
      rows := rows[overflow..];
    }

    method Ack(ids: seq<nat>) returns (removed: nat)
      requires Valid()
      modifies this`rows
      ensures Valid() && rows == Without(old(rows), IdSet(ids)) && removed == |old(rows)| - |rows|
    {
      WithoutKeepsOrder(rows, IdSet(ids));
      WithoutSelects(rows, IdSet(ids));
      assert forall i :: 0 <= i < |Without(rows, IdSet(ids))| ==> Without(rows, IdSet(ids))[i] in rows;
      if ids == [] {
        WithoutNothing(rows, IdSet(ids));
        return 0;
      }
      removed := |rows| - |Without(rows, IdSet(ids))|;
      rows := Without(rows, IdSet(ids));
    }

    /** Of the oldest rows, those that open are returned and those that do not are deleted. */
    method Pending(limit: nat) returns (r: seq<(nat, R)>)
      requires Valid()
      modifies this`rows
      ensures Valid()
      ensures var n := if limit < |old(rows)| then limit else |old(rows)|;
        && r == Pairs(Own(old(rows)[..n], key))
        && rows == Own(old(rows)[..n], key) + old(rows)[n..]
    {
      var n := if limit < |rows| then limit else |rows|;
      var fetched := rows[..n];
      r := [];
      var bad: seq<nat> := [];
      for i := 0 to n
        invariant Valid() && rows == old(rows)
        invariant r == Pairs(Own(fetched[..i], key))
        invariant forall k :: 0 <= k < |rows| ==> (rows[k].id in bad <==> k < i && rows[k].payload.key != key)
      {
        assert fetched[..i + 1] == fetched[..i] + [fetched[i]];
        OwnGrows(fetched[..i], fetched[i], key);
        match Decrypt(key, fetched[i].payload)
        case Some(record) => r := r + [(fetched[i].id, record)];
        case None => bad := bad + [fetched[i].id];
      }
      assert fetched[..n] == fetched;
      WithoutForeign(rows, n, key, IdSet(bad));
      if bad != [] {
        var _ := Ack(bad);
      } else {
        WithoutNothing(rows, IdSet(bad));
      }
    }
  }

  /** The rows sealed under this key, in order. */
  function Own<R>(rows: seq<Row<R>>, key: nat): seq<Row<R>> {
    if rows == [] then [] else (if rows[0].payload.key == key then [rows[0]] else []) + Own(rows[1..], key)
  }

  function Pairs<R>(rows: seq<Row<R>>): (r: seq<(nat, R)>)
    ensures |r| == |rows|
  {
    seq(|rows|, i requires 0 <= i < |rows| => (rows[i].id, rows[i].payload.record))
  }

  lemma {:induction false} OwnGrows<R>(rows: seq<Row<R>>, x: Row<R>, key: nat)
    ensures Own(rows + [x], key) == Own(rows, key) + if x.payload.key == key then [x] else []
  {
    if rows != [] {
      assert (rows + [x])[1..] == rows[1..] + [x];
      OwnGrows(rows[1..], x, key);
    }
  }

  /** Deleting by id the foreign ones among the first n rows keeps their own ones and all the rest. */
  lemma {:induction false} WithoutForeign<R>(rows: seq<Row<R>>, n: nat, key: nat, ids: set<nat>)
    requires n <= |rows|
    requires forall i :: 0 <= i < |rows| ==> (rows[i].id in ids <==> i < n && rows[i].payload.key != key)
    ensures Without(rows, ids) == Own(rows[..n], key) + rows[n..]
  {
    if n == 0 {
      WithoutNothing(rows, ids);
    } else {
      assert rows[..n][1..] == rows[1..][..n - 1];
      WithoutForeign(rows[1..], n - 1, key, ids);
    }
  }

  /** Where the foreign rows come first, they are the ones left behind. */
  lemma {:induction false} OwnIsSuffix<R>(rows: seq<Row<R>>, d: nat, key: nat)
    requires d <= |rows|
    requires forall i :: 0 <= i < |rows| ==> (rows[i].payload.key != key <==> i < d)
    ensures Own(rows, key) == rows[d..]
  {
    if rows != [] { OwnIsSuffix(rows[1..], if d == 0 then 0 else d - 1, key); }
  }

  lemma {:induction false} WithoutSelects<R>(rows: seq<Row<R>>, ids: set<nat>)
    ensures |Without(rows, ids)| <= |rows| && forall r :: r in Without(rows, ids) ==> r in rows
  {
    if rows != [] { WithoutSelects(rows[1..], ids); }
  }

  lemma {:induction false} WithoutKeepsOrder<R>(rows: seq<Row<R>>, ids: set<nat>)
    requires AscendingIds(rows)
    ensures AscendingIds(Without(rows, ids))
  {
    if rows != [] {
      WithoutKeepsOrder(rows[1..], ids);
      WithoutSelects(rows[1..], ids);
      FirstIsLeast(rows);
    }
  }

  lemma FirstIsLeast<R>(rows: seq<Row<R>>)
    requires AscendingIds(rows) && rows != []
    ensures forall r :: r in rows[1..] ==> rows[0].id < r.id
  {}

  // ---- the clock --------------------------------------------------------------------------------

  /** Timestamps in microseconds. Every stamp is later than the one before, whatever the wall clock does. */
  class MonotonicClock {
    var last: Option<int>
    var lastSkew: int

    constructor ()
      ensures last == None && lastSkew == 0
    {
      last, lastSkew := None, 0;
    }

    method Stamp(now: int, source: Option<int>) returns (stamp: int, skew: int)
      modifies this
      ensures last == Some(stamp) && lastSkew == skew
      ensures old(last).Some? ==> stamp > old(last).value
      ensures stamp >= now && (stamp > now ==> old(last).Some? && stamp == old(last).value + 1)
      ensures skew == if source.Some? then stamp - source.value else 0
    {
      stamp := now;
      if last.Some? && stamp <= last.value { stamp := last.value + 1; }
      last := Some(stamp);
      skew := if source.Some? then stamp - source.value else 0;
      lastSkew := skew;
    }
  }
}
