/** The collection loop: read, judge, stamp, buffer, and push outbound. */
module Collectors {
  import opened Options
  import opened Quality
  import opened Buffers

  datatype Reading = Reading(asset: string, metric: string, sample: Sample, timestamp: Option<int>, age: Option<real>)

  datatype Record = Record(asset: string, metric: string, sample: Sample, stamp: int, flag: Flag)

  /** What one outbound push did: it may arrive without its confirmation coming back. */
  datatype Push = Push(arrived: bool, ok: bool)

  predicate Plausible(p: Push) { p.ok ==> p.arrived }

  /** The two ingest paths of the API a push can be configured for. */
  datatype Path = DurablePath | CompanionPath

  /** The push carries no batch id, and the durable path requires one: it refuses every push with a 422,
      which stores nothing. The companion path takes any. */
  predicate Possible(path: Path, p: Push) { Plausible(p) && (path == DurablePath ==> !p.arrived) }

  /** Why a row left the buffer; an unreadable row is one sealed under another key. */
  datatype Fate = Acked | Trimmed | Unreadable

  /** Over all processes that used the buffer: everything appended, in order; the fate of the records
      that left it, oldest first; everything that reached the upstream; how many pushes arrived
      without being confirmed; and how many of the rows left, the oldest, are under another key. */
  datatype Ledger = Ledger(appended: seq<Record>, fates: seq<Fate>, received: seq<Record>, unconfirmed: nat, foreign: nat)

  class Collector {
    const buffer: EncryptedBuffer<Record>
    const quality: QualityMonitor
    const clock: MonotonicClock
    const batchSize: nat
    ghost var ledger: Ledger
    /** How much of the ledger earlier processes appended. */
    ghost const born: nat

    /** The buffer is exactly the newest part of what was ever appended; what is missing from it was
        acknowledged, trimmed or unreadable. Stamps ascend within this process. */
    ghost predicate Valid()
      reads this, buffer, quality, clock
    {
      && buffer.Valid() && quality.Valid()
      && Conserved(buffer.rows, buffer.key, ledger)
      && Balanced(ledger)
      && born <= |ledger.appended|
      && AscendingStamps(ledger.appended[born..])
      && LastStamp(ledger.appended[born..], clock.last)
    }

    /** A process start over a buffer that earlier processes, told by their ledger, may have used. */
    constructor (buffer: EncryptedBuffer<Record>, quality: QualityMonitor, clock: MonotonicClock, batchSize: nat, ghost earlier: Ledger)
      requires buffer.Valid() && quality.Valid() && clock.last == None
      requires Conserved(buffer.rows, buffer.key, earlier) && Balanced(earlier)
      ensures Valid() && ledger == earlier && born == |earlier.appended|
      ensures this.buffer == buffer && this.quality == quality && this.clock == clock
    {
      this.buffer, this.quality, this.clock, this.batchSize := buffer, quality, clock, batchSize;
      ledger, born := earlier, |earlier.appended|;
    }

    /** `first` and `second` are the two read attempts: None is a failed read. `now` gives the wall
        clock at each stamp, in any order. */
    method CollectOnce(first: Option<seq<Reading>>, second: Option<seq<Reading>>, now: nat -> int) returns (count: nat)
      requires Valid()
      modifies this`ledger, buffer, quality, clock
      ensures Valid()
      ensures count == if first.Some? then |first.value| else if second.Some? then |second.value| else 0
      ensures |ledger.appended| == |old(ledger).appended| + count && old(ledger).appended <= ledger.appended
      ensures var used := if first.Some? then first else second;
        used.Some? ==>
          && Carries(ledger.appended[|old(ledger).appended|..], used.value)
          && Judges(ledger.appended[|old(ledger).appended|..], used.value, quality.limits, old(quality.seen))
          && Stamped(ledger.appended[|old(ledger).appended|..], now, old(clock.last))
          && quality.seen == SeenAfter(old(quality.seen), used.value)
      ensures ledger == AfterAppend(old(ledger), |old(buffer.rows)|, ledger.appended[|old(ledger).appended|..], buffer.maxRows)
      ensures buffer.maxRows > 0 && (count > 0 || |old(buffer.rows)| <= buffer.maxRows) ==> |buffer.rows| <= buffer.maxRows
    {
      hide Conserved, Balanced, AscendingStamps, Repeat, AfterAppend, Buffers.Trimmed, Sealed, Carries, Judges, SeenAfter;
      var readings := first;
      if readings.None? { readings := second; }
      NoneAdded(ledger, |buffer.rows|, buffer.maxRows);
      if readings.None? { return 0; }
      ghost var stamped := ledger.appended[born..];
      var records := Prepare(readings.value, now, stamped);
      AppendConserves(buffer.rows, buffer.key, ledger, records, buffer.nextId, buffer.maxRows);
      AppendBalances(buffer.rows, buffer.key, ledger, records, buffer.maxRows);
      var _ := buffer.AppendMany(records);
      ledger := AfterAppend(ledger, |old(buffer.rows)|, records, buffer.maxRows);
      assert ledger.appended[|old(ledger).appended|..] == records;
      assert ledger.appended[born..] == stamped + records;
      return |records|;
    }

    /** Judge and stamp each reading; the stamps continue the ascending order of `earlier`. */
    method Prepare(readings: seq<Reading>, now: nat -> int, ghost earlier: seq<Record>) returns (records: seq<Record>)
      requires quality.Valid() && AscendingStamps(earlier) && LastStamp(earlier, clock.last)
      modifies quality, clock
      ensures quality.Valid() && |records| == |readings|
      ensures AscendingStamps(earlier + records) && LastStamp(earlier + records, clock.last)
      ensures Carries(records, readings) && Judges(records, readings, quality.limits, old(quality.seen))
      ensures Stamped(records, now, old(clock.last))
      ensures quality.seen == SeenAfter(old(quality.seen), readings)
    {
      hide AscendingStamps, LastStamp, Judged, HistoryOf, SeenAfter, FlagAt;
      SeenNothing(quality.seen);
      records := [];
      assert earlier + [] == earlier;
      for i := 0 to |readings|
        invariant |records| == i && quality.Valid()
        invariant AscendingStamps(earlier + records) && LastStamp(earlier + records, clock.last)
        invariant Carries(records, readings[..i])
        invariant quality.seen == SeenAfter(old(quality.seen), readings[..i])
        invariant Judges(records, readings, quality.limits, old(quality.seen))
        invariant Stamped(records, now, old(clock.last))
        invariant clock.last == if records == [] then old(clock.last) else Some(records[|records| - 1].stamp)
      {
        SeenOneMore(quality.limits, old(quality.seen), readings, i);
        var reading := readings[i];
        var result := quality.Evaluate(reading.asset, reading.metric, reading.sample, reading.age);
        ghost var last := clock.last;
        var stamp, skew := clock.Stamp(now(i), reading.timestamp);
        var record := Record(reading.asset, reading.metric, reading.sample, stamp, result.flag);
        StampsGrow(earlier + records, record, last);
        StampedGrows(records, record, now, old(clock.last));
        assert earlier + (records + [record]) == earlier + records + [record];
        records := records + [record];
      }
      assert readings[..|readings|] == readings;
    }

    /** Of the oldest rows, drop those that do not open and push the rest; only a confirmed push
        removes them. */
    method FlushOnce(push: Push) returns (ok: bool)
      requires Valid() && Plausible(push)
      modifies this`ledger, buffer
      ensures Valid() && ledger.appended == old(ledger).appended
      ensures var before := old(buffer.rows);
        var n := if batchSize < |before| then batchSize else |before|;
        var d := if old(ledger).foreign < n then old(ledger).foreign else n;
        && ok == (d == n || push.ok)
        && buffer.rows == (if push.ok then before[n..] else before[d..])
        && ledger == AfterPush(old(ledger), d, Records(before)[d..n], push)
    {
      hide Conserved, Balanced, AscendingStamps, LastStamp, QualityMonitor.Valid, Without, IdSet, Own, AfterPush;
      ghost var before := buffer.rows;
      ghost var n := if batchSize < |before| then batchSize else |before|;
      ghost var d := if ledger.foreign < n then ledger.foreign else n;
      ForeignFirst(before, buffer.key, ledger, n, d);
      var pending := buffer.Pending(batchSize);
      assert buffer.rows == before[d..] by { assert before[d..n] + before[n..] == before[d..]; }
      ghost var sent := Records(before)[d..n];
      PushConserves(before, buffer.key, ledger, d, n, push);
      PushBalances(before, buffer.key, ledger, d, n, push);
      ghost var after := AfterPush(ledger, d, sent, push);
      if pending == [] {
        assert d == n;
        ledger := after;
        return true;
      }
      var ids := seq(|pending|, i requires 0 <= i < |pending| => pending[i].0);
      if push.ok {
        AckRemovesPrefix(before[d..], ids);
        assert before[d..][n - d..] == before[n..];
        var _ := buffer.Ack(ids);
      }
      ledger := after;
      return push.ok;
    }
  }

  /** The records carry the readings they were made from, one for one. */
  predicate Carries(records: seq<Record>, readings: seq<Reading>) {
    && |records| == |readings|
    && forall i :: 0 <= i < |records| ==>
        records[i].asset == readings[i].asset && records[i].metric == readings[i].metric && records[i].sample == readings[i].sample
  }

  /** The wall clock's time, or just after the stamp before it where the clock has not moved on. */
  predicate StampedAt(records: seq<Record>, now: nat -> int, last: Option<int>, i: nat)
    requires i < |records|
  {
    var before := if i == 0 then last else Some(records[i - 1].stamp);
    records[i].stamp == if before.None? || now(i) > before.value then now(i) else before.value + 1
  }

  ghost predicate Stamped(records: seq<Record>, now: nat -> int, last: Option<int>) {
    forall i :: 0 <= i < |records| ==> StampedAt(records, now, last, i)
  }

  lemma StampedGrows(records: seq<Record>, r: Record, now: nat -> int, last: Option<int>)
    requires Stamped(records, now, last)
    requires var before := if records == [] then last else Some(records[|records| - 1].stamp);
      r.stamp == if before.None? || now(|records|) > before.value then now(|records|) else before.value + 1
    ensures Stamped(records + [r], now, last)
  {
    forall i | 0 <= i <= |records| ensures StampedAt(records + [r], now, last, i) {
      if i < |records| { assert StampedAt(records, now, last, i); }
    }
  }

  /** Every record bears the flag its signal's history calls for. */
  ghost predicate Judges(records: seq<Record>, readings: seq<Reading>, limits: Limits, seen: map<Signal, seq<real>>) {
    |records| <= |readings| && forall i :: 0 <= i < |records| ==> records[i].flag == FlagAt(limits, seen, readings, i)
  }

  /** The finite values of every signal after these readings. */
  ghost function SeenAfter(seen: map<Signal, seq<real>>, readings: seq<Reading>): map<Signal, seq<real>> {
    if readings == [] then seen else
      var before := SeenAfter(seen, readings[..|readings| - 1]);
      var r := readings[|readings| - 1];
      match r.sample
      case NonFinite => before
      case Finite(v) => before[(r.asset, r.metric) := HistoryOf(before, (r.asset, r.metric)) + [v]]
  }

  /** The flag the i-th reading deserves, given all that its signal showed before. */
  ghost function FlagAt(limits: Limits, seen: map<Signal, seq<real>>, readings: seq<Reading>, i: nat): Flag
    requires i < |readings|
  {
    var r := readings[i];
    Judged(limits, r.metric, r.age, HistoryOf(SeenAfter(seen, readings[..i]), (r.asset, r.metric)), r.sample).flag
  }

  lemma SeenNothing(seen: map<Signal, seq<real>>)
    ensures SeenAfter(seen, []) == seen
  {}

  lemma SeenOneMore(limits: Limits, seen: map<Signal, seq<real>>, readings: seq<Reading>, i: nat)
    requires i < |readings|
    ensures var r, before := readings[i], SeenAfter(seen, readings[..i]); var key := (r.asset, r.metric);
      && SeenAfter(seen, readings[..i + 1]) == (if r.sample.NonFinite? then before else before[key := HistoryOf(before, key) + [r.sample.value]])
      && FlagAt(limits, seen, readings, i) == Judged(limits, r.metric, r.age, HistoryOf(before, key), r.sample).flag
  {
    assert readings[..i + 1][..i] == readings[..i];
  }

  predicate AscendingStamps(records: seq<Record>) {
    forall i, j :: 0 <= i < j < |records| ==> records[i].stamp < records[j].stamp
  }

  /** The clock remembers the stamp of the newest record. */
  predicate LastStamp(records: seq<Record>, last: Option<int>) {
    records != [] ==> last == Some(records[|records| - 1].stamp)
  }

  lemma StampsGrow(records: seq<Record>, r: Record, last: Option<int>)
    requires AscendingStamps(records) && LastStamp(records, last) && (last.Some? ==> last.value < r.stamp)
    ensures AscendingStamps(records + [r]) && LastStamp(records + [r], Some(r.stamp))
  {}

  function Records(rows: seq<Row<Record>>): (r: seq<Record>)
    ensures |r| == |rows|
  {
    seq(|rows|, i requires 0 <= i < |rows| => rows[i].payload.record)
  }

  function Repeat(f: Fate, n: nat): (r: seq<Fate>)
    ensures |r| == n && forall i :: 0 <= i < n ==> r[i] == f
  {
    seq(n, _ => f)
  }

  /** How many rows a limit of `max` pushes out when `more` are added to `count`. */
  function Overflow(count: nat, more: nat, max: int): nat {
    if more > 0 && max > 0 && count + more > max then count + more - max else 0
  }

  /** The rows are the newest appended records, in order, those under another key first; every older
      record has a fate, and an acknowledged one has reached the upstream. */
  ghost predicate Conserved(rows: seq<Row<Record>>, key: nat, l: Ledger) {
    && |l.appended| == |l.fates| + |rows|
    && (forall i :: 0 <= i < |rows| ==> rows[i].payload.record == l.appended[|l.fates| + i])
    && l.foreign <= |rows|
    && (forall i :: 0 <= i < |rows| ==> (rows[i].payload.key != key <==> i < l.foreign))
    && (forall i :: 0 <= i < |l.fates| && l.fates[i] == Acked ==> l.appended[i] in l.received)
  }

  /** The acknowledged records among the first n with a fate, in order, each position once. */
  function AckedUpTo(l: Ledger, n: nat): (r: seq<Record>)
    requires n <= |l.fates| <= |l.appended|
  {
    if n == 0 then [] else AckedUpTo(l, n - 1) + if l.fates[n - 1] == Acked then [l.appended[n - 1]] else []
  }

  /** Every unconfirmed arrival is in excess of the acknowledged records. */
  ghost predicate Balanced(l: Ledger) {
    && |l.fates| <= |l.appended|
    && |l.received| >= |AckedUpTo(l, |l.fates|)| + l.unconfirmed
    && (l.unconfirmed == 0 ==> l.received == AckedUpTo(l, |l.fates|))
  }

  /** The upstream received exactly the acknowledged records, in order and once each, if and only if no
      push arrived without being confirmed. */
  lemma OnceEachExactly(l: Ledger)
    requires Balanced(l)
    ensures l.received == AckedUpTo(l, |l.fates|) <==> l.unconfirmed == 0
  {}

  /** Starting again over the same rows: under the same key nothing changes, under a key that sealed
      none of them all become unreadable. */
  lemma Reopened(rows: seq<Row<Record>>, key: nat, l: Ledger, newKey: nat)
    requires Conserved(rows, key, l) && Balanced(l)
    requires forall i :: 0 <= i < |rows| ==> rows[i].payload.key != newKey
    ensures Conserved(rows, newKey, l.(foreign := |rows|)) && Balanced(l.(foreign := |rows|))
  {
    SameAcked(l, l.(foreign := |rows|), |l.fates|);
  }

  lemma {:induction false} SameAcked(l: Ledger, m: Ledger, n: nat)
    requires n <= |l.fates| <= |l.appended| && n <= |m.fates| <= |m.appended|
    requires forall i :: 0 <= i < n ==> l.fates[i] == m.fates[i] && l.appended[i] == m.appended[i]
    ensures AckedUpTo(m, n) == AckedUpTo(l, n)
  {
    if n > 0 { SameAcked(l, m, n - 1); }
  }

  function Less(x: nat, y: nat): nat { if y < x then x - y else 0 }

  function AfterAppend(l: Ledger, before: nat, records: seq<Record>, max: int): (r: Ledger)
    ensures r.appended == l.appended + records
  {
    var n := Overflow(before, |records|, max);
    l.(appended := l.appended + records, fates := l.fates + Repeat(Fate.Trimmed, n), foreign := Less(l.foreign, n))
  }

  lemma NoneAdded(l: Ledger, before: nat, max: int)
    ensures AfterAppend(l, before, [], max) == l && l.appended[|l.appended|..] == []
  {}

  lemma GrowConserves(rows: seq<Row<Record>>, key: nat, l: Ledger, records: seq<Record>, next: nat)
    requires Conserved(rows, key, l)
    ensures Conserved(rows + Sealed(key, records, next), key, l.(appended := l.appended + records))
  {}

  lemma TrimConserves(rows: seq<Row<Record>>, key: nat, l: Ledger, n: nat)
    requires Conserved(rows, key, l) && n <= |rows|
    ensures Conserved(rows[n..], key, l.(fates := l.fates + Repeat(Fate.Trimmed, n), foreign := Less(l.foreign, n)))
  {}

  lemma AppendConserves(rows: seq<Row<Record>>, key: nat, l: Ledger, records: seq<Record>, next: nat, max: int)
    requires Conserved(rows, key, l)
    ensures var after := if records == [] then rows else Buffers.Trimmed(rows + Sealed(key, records, next), max);
      && Conserved(after, key, AfterAppend(l, |rows|, records, max))
      && (max > 0 && (records != [] || |rows| <= max) ==> |after| <= max)
  {
    hide Conserved, Sealed;
    var all := rows + Sealed(key, records, next);
    var n := Overflow(|rows|, |records|, max);
    GrowConserves(rows, key, l, records, next);
    TrimConserves(all, key, l.(appended := l.appended + records), n);
    if records == [] {
      assert all[n..] == rows;
    } else {
      assert all[n..] == Buffers.Trimmed(all, max);
    }
  }

  /** Fates other than acknowledgement leave the account as it is. */
  lemma {:induction false} OtherFates(l: Ledger, f: Fate, k: nat, n: nat, more: seq<Record>)
    requires Balanced(l) && f != Acked && k <= n && |l.fates| + n <= |l.appended + more|
    ensures AckedUpTo(l.(appended := l.appended + more, fates := l.fates + Repeat(f, n)), |l.fates| + k) == AckedUpTo(l, |l.fates|)
  {
    var m := l.(appended := l.appended + more, fates := l.fates + Repeat(f, n));
    if k == 0 { SameAcked(l, m, |l.fates|); } else { OtherFates(l, f, k - 1, n, more); }
  }

  lemma AppendBalances(rows: seq<Row<Record>>, key: nat, l: Ledger, records: seq<Record>, max: int)
    requires Conserved(rows, key, l) && Balanced(l)
    ensures Balanced(AfterAppend(l, |rows|, records, max))
  {
    var n := Overflow(|rows|, |records|, max);
    OtherFates(l, Fate.Trimmed, n, n, records);
    SameAcked(l.(appended := l.appended + records, fates := l.fates + Repeat(Fate.Trimmed, n)),
      AfterAppend(l, |rows|, records, max), |l.fates| + n);
  }

  /** d rows turn out to be unreadable, the records after them are sent. */
  function AfterPush(l: Ledger, d: nat, sent: seq<Record>, push: Push): (r: Ledger)
    ensures r.appended == l.appended
  {
    var dropped := Dropped(l, d);
    if sent == [] then dropped
    else dropped.(
      received := if push.arrived then l.received + sent else l.received,
      fates := if push.ok then dropped.fates + Repeat(Acked, |sent|) else dropped.fates,
      unconfirmed := if push.arrived && !push.ok then l.unconfirmed + 1 else l.unconfirmed)
  }

  function Dropped(l: Ledger, d: nat): Ledger {
    l.(fates := l.fates + Repeat(Unreadable, d), foreign := Less(l.foreign, d))
  }

  lemma PushCases(l: Ledger, d: nat, sent: seq<Record>, push: Push)
    requires Plausible(push)
    ensures var dropped := Dropped(l, d);
      AfterPush(l, d, sent, push) ==
        if sent == [] || !push.arrived then dropped
        else if !push.ok then dropped.(received := l.received + sent, unconfirmed := l.unconfirmed + 1)
        else dropped.(received := l.received + sent, fates := dropped.fates + Repeat(Acked, |sent|))
  {}

  /** The rows that open are those after the foreign ones. */
  lemma ForeignFirst(rows: seq<Row<Record>>, key: nat, l: Ledger, n: nat, d: nat)
    requires Conserved(rows, key, l) && n <= |rows| && d == (if l.foreign < n then l.foreign else n)
    ensures Own(rows[..n], key) == rows[d..n]
  {
    OwnIsSuffix(rows[..n], d, key);
    assert rows[..n][d..] == rows[d..n];
  }

  lemma DropConserves(rows: seq<Row<Record>>, key: nat, l: Ledger, d: nat)
    requires Conserved(rows, key, l) && d <= l.foreign
    ensures Conserved(rows[d..], key, Dropped(l, d))
    ensures Dropped(l, d).foreign == Less(l.foreign, d)
  {}

  lemma ReceiveConserves(rows: seq<Row<Record>>, key: nat, l: Ledger, sent: seq<Record>, unconfirmed: nat)
    requires Conserved(rows, key, l)
    ensures Conserved(rows, key, l.(received := l.received + sent, unconfirmed := unconfirmed))
  {}

  lemma AckConserves(rows: seq<Row<Record>>, key: nat, l: Ledger, n: nat)
    requires Conserved(rows, key, l) && n <= |rows| && l.foreign == 0
    requires forall i :: 0 <= i < n ==> rows[i].payload.record in l.received
    ensures Conserved(rows[n..], key, l.(fates := l.fates + Repeat(Acked, n)))
  {
    var m := l.(fates := l.fates + Repeat(Acked, n));
    forall i | 0 <= i < |m.fates| && m.fates[i] == Acked ensures m.appended[i] in m.received {
      if i >= |l.fates| { assert rows[i - |l.fates|].payload.record == l.appended[i]; }
    }
  }

  lemma PushConserves(rows: seq<Row<Record>>, key: nat, l: Ledger, d: nat, n: nat, push: Push)
    requires Conserved(rows, key, l) && n <= |rows| && Plausible(push)
    requires d == if l.foreign < n then l.foreign else n
    ensures Conserved(if push.ok then rows[n..] else rows[d..], key, AfterPush(l, d, Records(rows)[d..n], push))
  {
    hide Conserved, Records, Repeat, AfterPush;
    var sent, kept := Records(rows)[d..n], rows[d..];
    var dropped := Dropped(l, d);
    DropConserves(rows, key, l, d);
    PushCases(l, d, sent, push);
    if sent == [] {
      assert d == n;
    } else if push.arrived {
      ReceiveConserves(kept, key, dropped, sent, if push.ok then l.unconfirmed else l.unconfirmed + 1);
      if push.ok {
        SentArrived(rows, d, n, l.received);
        AckConserves(kept, key, dropped.(received := l.received + sent), n - d);
        assert kept[n - d..] == rows[n..];
      }
    }
  }

  lemma SentArrived(rows: seq<Row<Record>>, d: nat, n: nat, received: seq<Record>)
    requires d <= n <= |rows|
    ensures forall i :: 0 <= i < n - d ==> rows[d..][i].payload.record in received + Records(rows)[d..n]
  {
    forall i | 0 <= i < n - d ensures rows[d..][i].payload.record in received + Records(rows)[d..n] {
      assert Records(rows)[d..n][i] == rows[d..][i].payload.record;
    }
  }

  /** Acknowledging the next records adds exactly them. */
  lemma {:induction false} AckedGrows(l: Ledger, k: nat, n: nat)
    requires k <= n && |l.fates| + n <= |l.appended|
    ensures AckedUpTo(l.(fates := l.fates + Repeat(Acked, n)), |l.fates| + k) ==
      AckedUpTo(l, |l.fates|) + l.appended[|l.fates|..|l.fates| + k]
  {
    var m := l.(fates := l.fates + Repeat(Acked, n));
    if k == 0 { SameAcked(l, m, |l.fates|); } else { AckedGrows(l, k - 1, n); }
  }

  lemma DropBalances(l: Ledger, d: nat)
    requires Balanced(l) && |l.fates| + d <= |l.appended|
    ensures Balanced(Dropped(l, d))
  {
    var after := Dropped(l, d);
    OtherFates(l, Unreadable, d, d, []);
    assert l.appended + [] == l.appended;
    SameAcked(l.(fates := l.fates + Repeat(Unreadable, d)), after, |after.fates|);
  }

  lemma UnconfirmedBalances(l: Ledger, sent: seq<Record>)
    requires Balanced(l) && sent != []
    ensures Balanced(l.(received := l.received + sent, unconfirmed := l.unconfirmed + 1))
  {
    SameAcked(l, l.(received := l.received + sent, unconfirmed := l.unconfirmed + 1), |l.fates|);
  }

  lemma ConfirmedBalances(l: Ledger, n: nat)
    requires Balanced(l) && |l.fates| + n <= |l.appended|
    ensures Balanced(l.(received := l.received + l.appended[|l.fates|..|l.fates| + n], fates := l.fates + Repeat(Acked, n)))
  {
    var acked := l.(fates := l.fates + Repeat(Acked, n));
    AckedGrows(l, n, n);
    SameAcked(acked, acked.(received := l.received + l.appended[|l.fates|..|l.fates| + n]), |acked.fates|);
  }

  lemma SentIs(rows: seq<Row<Record>>, key: nat, l: Ledger, d: nat, n: nat)
    requires Conserved(rows, key, l) && d <= n <= |rows|
    ensures |l.appended| == |l.fates| + |rows|
    ensures Records(rows)[d..n] == l.appended[|l.fates| + d..|l.fates| + d + (n - d)]
  {
    var sent, part := Records(rows)[d..n], l.appended[|l.fates| + d..|l.fates| + n];
    assert forall i :: 0 <= i < |sent| ==> sent[i] == part[i];
  }

  lemma PushBalances(rows: seq<Row<Record>>, key: nat, l: Ledger, d: nat, n: nat, push: Push)
    requires Conserved(rows, key, l) && Balanced(l) && d <= n <= |rows| && Plausible(push)
    ensures Balanced(AfterPush(l, d, Records(rows)[d..n], push))
  {
    hide Balanced, Conserved, Records, Repeat, Less, AfterPush;
    var sent := Records(rows)[d..n];
    SentIs(rows, key, l, d, n);
    DropBalances(l, d);
    PushCases(l, d, sent, push);
    var dropped := Dropped(l, d);
    if sent != [] && push.ok {
      ConfirmedBalances(dropped, n - d);
    } else if sent != [] && push.arrived {
      UnconfirmedBalances(dropped, sent);
    }
  }

  // ---- the two paths --------------------------------------------------------------------------------

  /** One collect and one flush. */
  datatype Cycle = Cycle(first: Option<seq<Reading>>, second: Option<seq<Reading>>, now: nat -> int, push: Push)

  /** How many readings a cycle yields. */
  function Yield(cycle: Cycle): nat {
    if cycle.first.Some? then |cycle.first.value| else if cycle.second.Some? then |cycle.second.value| else 0
  }

  function Yields(cycles: seq<Cycle>): nat {
    if cycles == [] then 0 else Yields(cycles[..|cycles| - 1]) + Yield(cycles[|cycles| - 1])
  }

  /** What one cycle does to the ledger: the readings are appended, then the oldest rows pushed. */
  ghost predicate OneCycle(was: Ledger, now: Ledger, rows: nat, max: int, batch: nat, cycle: Cycle) {
    && was.appended <= now.appended && |now.appended| == |was.appended| + Yield(cycle)
    && var collected := AfterAppend(was, rows, now.appended[|was.appended|..], max);
       var held := |collected.appended| - |collected.fates|;
       var n := if batch < held then batch else held;
       var d := if collected.foreign < n then collected.foreign else n;
       && held >= 0
       && now == AfterPush(collected, d, collected.appended[|collected.fates| + d..|collected.fates| + n], cycle.push)
  }

  method RunOnce(c: Collector, cycle: Cycle) returns (ok: bool)
    requires c.Valid() && Plausible(cycle.push)
    modifies c`ledger, c.buffer, c.quality, c.clock
    ensures c.Valid() && OneCycle(old(c.ledger), c.ledger, |old(c.buffer.rows)|, c.buffer.maxRows, c.batchSize, cycle)
    ensures !cycle.push.arrived ==> OnlyOther(old(c.ledger), c.ledger)
  {
    hide Conserved, Balanced, AfterAppend, AfterPush, Carries, Judges, SeenAfter, QualityMonitor.Valid, EncryptedBuffer.Valid;
    ghost var was := c.ledger;
    ghost var before := |c.buffer.rows|;
    var _ := c.CollectOnce(cycle.first, cycle.second, cycle.now);
    ghost var collected := c.ledger;
    AppendFates(was, before, collected.appended[|was.appended|..], c.buffer.maxRows);
    ghost var rows := c.buffer.rows;
    ghost var n := if c.batchSize < |rows| then c.batchSize else |rows|;
    ghost var d := if collected.foreign < n then collected.foreign else n;
    SentIs(rows, c.buffer.key, collected, d, n);
    ok := c.FlushOnce(cycle.push);
    PushFates(collected, d, Records(rows)[d..n], cycle.push);
  }

  /** New fates other than acknowledgement. */
  ghost predicate OnlyOther(was: Ledger, now: Ledger) {
    && was.appended <= now.appended && was.fates <= now.fates && now.received == was.received
    && forall i :: |was.fates| <= i < |now.fates| ==> now.fates[i] != Acked
  }

  lemma AppendFates(l: Ledger, before: nat, records: seq<Record>, max: int)
    ensures OnlyOther(l, AfterAppend(l, before, records, max))
  {}

  lemma PushFates(l: Ledger, d: nat, sent: seq<Record>, push: Push)
    requires Plausible(push)
    ensures l.fates <= AfterPush(l, d, sent, push).fates
    ensures !push.arrived ==> OnlyOther(l, AfterPush(l, d, sent, push))
  {}

  /** Over the durable path no cycle ever delivers anything: what was collected stays, or is trimmed or
      dropped as unreadable. */
  method RunOverDurable(c: Collector, cycles: seq<Cycle>)
    requires c.Valid() && forall i :: 0 <= i < |cycles| ==> Possible(DurablePath, cycles[i].push)
    modifies c`ledger, c.buffer, c.quality, c.clock
    ensures c.Valid() && OnlyOther(old(c.ledger), c.ledger)
    ensures |c.ledger.appended| == |old(c.ledger).appended| + Yields(cycles)
  {
    for k := 0 to |cycles|
      invariant c.Valid() && OnlyOther(old(c.ledger), c.ledger)
      invariant |c.ledger.appended| == |old(c.ledger).appended| + Yields(cycles[..k])
    {
      assert cycles[..k + 1][..k] == cycles[..k];
      var _ := RunOnce(c, cycles[k]);
    }
    assert cycles[..|cycles|] == cycles;
  }

  /** Over the companion path a lost reply makes the upstream receive an acknowledged record twice: one
      reading is collected, its push arrives unconfirmed, and it is pushed again. */
  method LostReplyRepeats(c: Collector, reading: Reading, now: nat -> int)
    requires c.Valid() && c.ledger == Ledger([], [], [], 0, 0) && c.batchSize > 0
    modifies c`ledger, c.buffer, c.quality, c.clock
    ensures c.Valid() && |c.ledger.appended| == 1 && c.ledger.fates == [Acked]
    ensures Possible(CompanionPath, Push(true, false)) && c.ledger.received == c.ledger.appended + c.ledger.appended
  {
    hide Conserved, Balanced, AfterAppend, AfterPush, Carries, Judges, SeenAfter, QualityMonitor.Valid, EncryptedBuffer.Valid;
    NoRows(c.buffer.rows, c.buffer.key, c.ledger);
    var _ := c.CollectOnce(Some([reading]), None, now);
    ghost var r := c.ledger.appended;
    assert r[0..] == r;
    OneRecord(r, c.buffer.maxRows);
    Alone(c.buffer.rows, c.buffer.key, c.ledger);
    var _ := c.FlushOnce(Push(true, false));
    Alone(c.buffer.rows, c.buffer.key, c.ledger);
    var _ := c.FlushOnce(Push(true, true));
  }

  /** The ledger's way through those three calls. */
  lemma OneRecord(r: seq<Record>, max: int)
    requires |r| == 1
    ensures
      var held := Ledger(r, [], [], 0, 0);
      var unsure := Ledger(r, [], r, 1, 0);
      && AfterAppend(Ledger([], [], [], 0, 0), 0, r, max) == held
      && AfterPush(held, 0, r, Push(true, false)) == unsure
      && AfterPush(unsure, 0, r, Push(true, true)) == Ledger(r, [Acked], r + r, 1, 0)
  {
    assert Repeat(Acked, 1) == [Acked];
  }

  lemma NoRows(rows: seq<Row<Record>>, key: nat, l: Ledger)
    requires Conserved(rows, key, l) && l.appended == []
    ensures rows == []
  {}

  lemma Alone(rows: seq<Row<Record>>, key: nat, l: Ledger)
    requires Conserved(rows, key, l) && |l.appended| == 1 && l.fates == []
    ensures |rows| == 1 && Records(rows)[0..1] == l.appended
  {
    assert Records(rows)[0..1] == Records(rows);
  }

  /** What the companion path keeps: the newest reading of every signal, and one audit event a batch. */
  datatype Observed = Observed(latest: map<Signal, Record>, events: nat)

  function Latest(latest: map<Signal, Record>, records: seq<Record>): map<Signal, Record> {
    if records == [] then latest
    else
      var before, r := Latest(latest, records[..|records| - 1]), records[|records| - 1];
      if r.sample.NonFinite? then before else before[(r.asset, r.metric) := r]
  }

  function Observe(o: Observed, records: seq<Record>): Observed { Observed(Latest(o.latest, records), o.events + 1) }

  /** A signal shows the last finite record it had, and nothing if it had none. */
  lemma {:induction false} LatestIs(records: seq<Record>, key: Signal)
    ensures key in Latest(map[], records) <==> exists i :: FiniteOf(records, key, i)
    ensures key in Latest(map[], records) ==>
      exists i :: FiniteOf(records, key, i) && Latest(map[], records)[key] == records[i] && forall j :: FiniteOf(records, key, j) ==> j <= i
  {
    if records != [] {
      var n := |records| - 1;
      LatestIs(records[..n], key);
      assert forall i :: FiniteOf(records[..n], key, i) <==> i < n && FiniteOf(records, key, i);
      if !FiniteOf(records, key, n) {
        assert forall i :: FiniteOf(records, key, i) ==> i < n;
      }
    }
  }

  predicate FiniteOf(records: seq<Record>, key: Signal, i: int) {
    0 <= i < |records| && (records[i].asset, records[i].metric) == key && !records[i].sample.NonFinite?
  }

  lemma {:induction false} LatestUpdates(latest: map<Signal, Record>, records: seq<Record>)
    ensures Latest(latest, records) == latest + Latest(map[], records)
  {
    if records != [] { LatestUpdates(latest, records[..|records| - 1]); }
  }

  lemma {:induction false} LatestInParts(latest: map<Signal, Record>, a: seq<Record>, b: seq<Record>)
    ensures Latest(latest, a + b) == Latest(Latest(latest, a), b)
  {
    if b == [] {
      assert a + b == a;
    } else {
      LatestInParts(latest, a, b[..|b| - 1]);
      assert (a + b)[..|a + b| - 1] == a + b[..|b| - 1];
    }
  }

  /** Records sent once more, with newer ones behind them, leave no trace in the view; only the audit
      trail counts the batch twice. */
  lemma RepeatOnlyAudits(o: Observed, gone: seq<Record>, again: seq<Record>, more: seq<Record>)
    ensures Observe(Observe(o, gone + again), again + more) ==
      Observe(o, gone + again + more).(events := o.events + 2)
  {
    hide Latest;
    var seen, u := Latest(o.latest, gone), Latest(map[], again);
    var once := Latest(o.latest, gone + again);
    LatestInParts(o.latest, gone, again);
    LatestUpdates(seen, again);
    LatestUpdates(once, again);
    assert seen + u + u == seen + u;
    LatestInParts(once, again, more);
    LatestInParts(o.latest, gone + again, more);
  }
}
