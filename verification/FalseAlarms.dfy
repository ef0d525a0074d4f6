/** Online false-alarm accounting: a sliding window of alerts whose entries are shared with an index by id. */
module FalseAlarms {
  import opened Options
  import opened Reals

  /** None is pending, Some(true) a true event, Some(false) a false alarm. */
  type Disposition = Option<bool>

  // ---- what calls mean ------------------------------------------------------------------------

  datatype Call = Recorded(id: string, disposition: Disposition) | Resolved(id: string, trueEvent: bool)

  /** Every alert ever recorded, evicted ones included, with its disposition so far. */
  datatype Book = Book(ids: seq<string>, marks: seq<Disposition>)

  predicate WellFormed(b: Book) { |b.ids| == |b.marks| }

  /** The first alert still in the window. */
  function Start(ids: seq<string>, window: nat): nat { if |ids| <= window then 0 else |ids| - window }

  function Latest(ids: seq<string>, id: string): (p: int)
    ensures -1 <= p < |ids|
    ensures p >= 0 ==> ids[p] == id
    ensures forall q :: p < q < |ids| ==> ids[q] != id
  {
    if ids == [] then -1
    else if ids[|ids| - 1] == id then |ids| - 1
    else Latest(ids[..|ids| - 1], id)
  }

  /** An earlier alert with the same id was evicted while this one was in the window, and took the
      index entry along. */
  predicate Masked(ids: seq<string>, window: nat, p: nat)
    requires p < |ids|
  {
    exists q :: 0 <= q < Start(ids, window) && p - window < q < p && ids[q] == ids[p]
  }

  /** A resolution is meant for the latest alert in the window that carries the id. */
  predicate Live(ids: seq<string>, window: nat, id: string) { Latest(ids, id) >= Start(ids, window) }

  predicate Indexed(ids: seq<string>, window: nat, id: string) {
    Live(ids, window, id) && !Masked(ids, window, Latest(ids, id))
  }

  function Mark(b: Book, id: string, trueEvent: bool): (b': Book)
    requires WellFormed(b) && Latest(b.ids, id) >= 0
    ensures WellFormed(b') && b'.ids == b.ids
  {
    Book(b.ids, b.marks[Latest(b.ids, id) := Some(trueEvent)])
  }

  /** What the tracker does with a call. */
  function Step(b: Book, window: nat, call: Call): (b': Book)
    requires WellFormed(b)
    ensures WellFormed(b')
  {
    match call
    case Recorded(id, d) => Book(b.ids + [id], b.marks + [d])
    case Resolved(id, v) => if Indexed(b.ids, window, id) then Mark(b, id, v) else b
  }

  /** What the call is for. */
  function Meant(b: Book, window: nat, call: Call): (b': Book)
    requires WellFormed(b)
    ensures WellFormed(b')
  {
    match call
    case Recorded(id, d) => Book(b.ids + [id], b.marks + [d])
    case Resolved(id, v) => if Live(b.ids, window, id) then Mark(b, id, v) else b
  }

  function Run(window: nat, calls: seq<Call>): (b: Book)
    ensures WellFormed(b)
  {
    if calls == [] then Book([], []) else Step(Run(window, calls[..|calls| - 1]), window, calls[|calls| - 1])
  }

  function RunMeant(window: nat, calls: seq<Call>): (b: Book)
    ensures WellFormed(b)
  {
    if calls == [] then Book([], []) else Meant(RunMeant(window, calls[..|calls| - 1]), window, calls[|calls| - 1])
  }

  /** A resolution is lost exactly when its alert is in the window, masked, and not already so resolved. */
  lemma LostExactly(b: Book, window: nat, id: string, v: bool)
    requires WellFormed(b)
    ensures Step(b, window, Resolved(id, v)) != Meant(b, window, Resolved(id, v)) <==>
      && Live(b.ids, window, id)
      && Masked(b.ids, window, Latest(b.ids, id))
      && b.marks[Latest(b.ids, id)] != Some(v)
  {
    if Live(b.ids, window, id) {
      var p := Latest(b.ids, id);
      assert Mark(b, id, v).marks[p] == Some(v);
      if b.marks[p] == Some(v) { assert Mark(b, id, v).marks == b.marks; }
    }
  }

  /** Every alert's id differs from those of the window - 1 alerts before it. */
  predicate Spaced(ids: seq<string>, window: nat) {
    forall q, p :: 0 <= q < p < |ids| && ids[q] == ids[p] ==> p - q >= window
  }

  /** With spaced ids no resolution is ever lost, in any sequence of calls. */
  lemma {:induction false} SpacedLosesNothing(window: nat, calls: seq<Call>)
    requires Spaced(RunMeant(window, calls).ids, window)
    ensures Run(window, calls) == RunMeant(window, calls)
  {
    if calls != [] {
      var b := RunMeant(window, calls[..|calls| - 1]);
      var ids := RunMeant(window, calls).ids;
      assert b.ids == ids[..|b.ids|];
      SpacedLosesNothing(window, calls[..|calls| - 1]);
    }
  }

  /** The other direction: an alert repeats an id used less than window alerts before if and only if some
      run of other alerts leaves it in the window with its resolutions lost. */
  lemma RepeatsLose(ids: seq<string>, window: nat)
    requires ids != []
    ensures (exists q :: |ids| - 1 - window < q < |ids| - 1 && 0 <= q && ids[q] == ids[|ids| - 1]) <==>
      exists tail :: Loses(ids, tail, window)
  {
    var p := |ids| - 1;
    if q :| p - window < q < p && 0 <= q && ids[q] == ids[p] {
      var tail := seq(q + window - p, i => ids[p] + "'");
      assert Masked(ids + tail, window, p) by { assert (ids + tail)[q] == ids[q]; }
      assert Loses(ids, tail, window);
    }
    if tail: seq<string> :| Loses(ids, tail, window) {
      var q :| 0 <= q < Start(ids + tail, window) && p - window < q < p && (ids + tail)[q] == ids[p];
      assert ids[q] == ids[p];
    }
  }

  predicate Loses(ids: seq<string>, tail: seq<string>, window: nat)
    requires ids != []
  {
    var p := |ids| - 1;
    && ids[p] !in tail
    && p >= Start(ids + tail, window)
    && Masked(ids + tail, window, p)
  }

  function Count(marks: seq<Disposition>, d: Disposition): nat {
    if marks == [] then 0 else Count(marks[..|marks| - 1], d) + if marks[|marks| - 1] == d then 1 else 0
  }

  /** The dispositions of the alerts in the window. */
  function InWindow(b: Book, window: nat): seq<Disposition>
    requires WellFormed(b)
  {
    b.marks[Start(b.ids, window)..]
  }

  /** The three counts partition the window, which never holds more than it should. */
  lemma {:induction false} CountsPartition(marks: seq<Disposition>)
    ensures Count(marks, Some(true)) + Count(marks, Some(false)) + Count(marks, None) == |marks|
  {
    if marks != [] {
      CountsPartition(marks[..|marks| - 1]);
      var last := marks[|marks| - 1];
      match last
      case None =>
      case Some(v) => assert v == true || v == false;
    }
  }

  lemma CountNext(marks: seq<Disposition>, k: nat, d: Disposition)
    requires k < |marks|
    ensures Count(marks[..k + 1], d) == Count(marks[..k], d) + if marks[k] == d then 1 else 0
  {
    assert marks[..k + 1][..k] == marks[..k];
  }

  lemma NoneCounted(marks: seq<Disposition>)
    ensures forall d :: Count(marks[..0], d) == 0
  {}

  datatype Summary = Summary(alerts: nat, trueAlerts: nat, falseAlarms: nat, pending: nat, rate: real)

  // ---- the tracker ------------------------------------------------------------------------------

  class Entry {
    const id: string
    var disposition: Disposition

    constructor (id: string, disposition: Disposition)
      ensures this.id == id && this.disposition == disposition
    {
      this.id := id;
      this.disposition := disposition;
    }
  }

  ghost predicate Windowed(ids: seq<string>, window: nat, events: seq<Entry>) {
    && |events| == |ids| - Start(ids, window)
    && (forall k :: 0 <= k < |events| ==> events[k].id == ids[Start(ids, window) + k])
    && (forall j, k :: 0 <= j < k < |events| ==> events[j] != events[k])
  }

  /** The index shares the entry of the latest alert of each id it still knows. */
  ghost predicate Knows(ids: seq<string>, window: nat, events: seq<Entry>, index: map<string, Entry>, id: string)
    requires Windowed(ids, window, events)
  {
    && (id in index <==> Indexed(ids, window, id))
    && (id in index ==> index[id] == events[Latest(ids, id) - Start(ids, window)])
  }

  ghost predicate IndexOf(ids: seq<string>, window: nat, events: seq<Entry>, index: map<string, Entry>)
    requires Windowed(ids, window, events)
  {
    forall id :: Knows(ids, window, events, index, id)
  }

  class FalseAlarmTracker {
    const window: nat
    var events: seq<Entry>
    var index: map<string, Entry>
    /** Every alert ever recorded; the window holds the last of them. */
    ghost var book: Book

    ghost predicate Valid()
      reads this, events
    {
      && window > 0
      && WellFormed(book)
      && Windowed(book.ids, window, events)
      && IndexOf(book.ids, window, events, index)
      && (forall k :: 0 <= k < |events| ==> events[k].disposition == book.marks[Start(book.ids, window) + k])
    }

    constructor (window: nat)
      requires window > 0
      ensures Valid() && this.window == window && book == Run(window, [])
    {
      this.window := window;
      events, index, book := [], map[], Book([], []);
    }

    method Record(id: string, disposition: Disposition)
      requires Valid()
      modifies this
      ensures Valid() && book == Step(old(book), window, Recorded(id, disposition))
    {
      hide IndexOf;
      var entry := new Entry(id, disposition);
      NextIndex(book.ids, window, events, index, entry);
      if |events| == window {
        index := index - {events[0].id};
        events := events[1..];
      }
      events := events + [entry];
      index := index[id := entry];
      book := Step(book, window, Recorded(id, disposition));
    }

    method Resolve(id: string, trueEvent: bool)
      requires Valid()
      modifies events
      modifies this`book
      ensures Valid() && book == Step(old(book), window, Resolved(id, trueEvent))
    {
      hide Indexed, Latest;
      IndexedIsLive(book.ids, window, id);
      assert Knows(book.ids, window, events, index, id);
      if id in index {
        index[id].disposition := Some(trueEvent);
      }
      book := Step(book, window, Resolved(id, trueEvent));
    }

    method Summarise() returns (s: Summary)
      requires Valid()
      ensures s.alerts == |InWindow(book, window)| <= window
      ensures s.trueAlerts == Count(InWindow(book, window), Some(true))
      ensures s.falseAlarms == Count(InWindow(book, window), Some(false))
      ensures s.pending == Count(InWindow(book, window), None)
      ensures 0.0 <= s.rate <= 1.0
      ensures s.rate * (s.alerts - s.pending) as real == s.falseAlarms as real
      ensures s.alerts == s.pending ==> s.rate == 0.0
    {
      hide IndexOf, Count, Masked;
      var trueAlerts, falseAlarms, pending := 0, 0, 0;
      ghost var marks := InWindow(book, window);
      NoneCounted(marks);
      for k := 0 to |events|
        invariant Valid() && marks == InWindow(book, window)
        invariant trueAlerts == Count(marks[..k], Some(true))
        invariant falseAlarms == Count(marks[..k], Some(false))
        invariant pending == Count(marks[..k], None)
      {
        CountNext(marks, k, Some(true));
        CountNext(marks, k, Some(false));
        CountNext(marks, k, None);
        match events[k].disposition
        case None => pending := pending + 1;
        case Some(trueEvent) => if trueEvent { trueAlerts := trueAlerts + 1; } else { falseAlarms := falseAlarms + 1; }
      }
      assert marks[..|events|] == marks;
      CountsPartition(marks);
      var resolved := trueAlerts + falseAlarms;
      var rate := if resolved != 0 then falseAlarms as real / resolved as real else 0.0;
      if resolved != 0 { Proportion(falseAlarms, resolved); }
      s := Summary(|events|, trueAlerts, falseAlarms, pending, rate);
    }
  }

  lemma NextIndex(ids: seq<string>, window: nat, events: seq<Entry>, index: map<string, Entry>, entry: Entry)
    requires window > 0 && Windowed(ids, window, events) && IndexOf(ids, window, events, index) && entry !in events
    ensures
      var full := |events| == window;
      var events' := (if full then events[1..] else events) + [entry];
      var index' := (if full then index - {events[0].id} else index)[entry.id := entry];
      Windowed(ids + [entry.id], window, events') && IndexOf(ids + [entry.id], window, events', index')
  {
    hide Indexed, Latest;
    NextWindow(ids, window, events, entry);
    var full := |events| == window;
    var events' := (if full then events[1..] else events) + [entry];
    var index' := (if full then index - {events[0].id} else index)[entry.id := entry];
    forall id
      ensures Knows(ids + [entry.id], window, events', index', id)
    {
      assert Knows(ids, window, events, index, id);
      IndexedIsLive(ids, window, id);
      IndexedAfter(ids, window, entry.id, id);
    }
  }

  lemma NextWindow(ids: seq<string>, window: nat, events: seq<Entry>, entry: Entry)
    requires window > 0 && Windowed(ids, window, events) && entry !in events
    ensures Windowed(ids + [entry.id], window, (if |events| == window then events[1..] else events) + [entry])
  {}

  lemma IndexedIsLive(ids: seq<string>, window: nat, id: string)
    ensures Indexed(ids, window, id) ==> Start(ids, window) <= Latest(ids, id)
  {}

  /** Which ids the index holds after one more alert. */
  lemma IndexedAfter(ids: seq<string>, window: nat, id: string, other: string)
    requires window > 0
    ensures Indexed(ids + [id], window, other) <==>
      (other == id || (Indexed(ids, window, other) && !(|ids| >= window && ids[Start(ids, window)] == other)))
    ensures Latest(ids + [id], other) == if other == id then |ids| else Latest(ids, other)
  {
    var more := ids + [id];
    assert more[..|ids|] == ids;
    var p := Latest(more, other);
    if other != id && p >= 0 {
      if Masked(ids, window, p) {
        var q :| 0 <= q < Start(ids, window) && p - window < q < p && ids[q] == ids[p];
        assert more[q] == more[p];
        assert Masked(more, window, p);
      }
      if Masked(more, window, p) && !Masked(ids, window, p) {
        var q :| 0 <= q < Start(more, window) && p - window < q < p && more[q] == more[p];
        assert ids[q] == ids[p];
      }
      var s := Start(ids, window);
      if |ids| >= window && ids[s] == other && p > s {
        assert more[s] == more[p];
        assert Masked(more, window, p);
      }
    }
  }
}
