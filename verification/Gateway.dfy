/** The gateway class: its methods carry out the protocol, on the spool's files. */
module Gateways {
  import opened Options
  import opened Decimal
  import opened Json
  import opened SpoolFiles
  import opened Spools
  import opened Ingest
  import opened StoreForward
  import opened Delivery

  datatype ForwardResult = ForwardResult(ok: bool, duplicate: bool)

  datatype Stats = Stats(produced: nat, forwarded: nat, duplicates: nat, attempts: nat, failures: nat, reachable: bool)

  ghost function Last(ws: seq<World>): World
    requires ws != []
  {
    ws[|ws| - 1]
  }

  /** The network and the ingest endpoint behind it. The ghost history is the run so far. */
  class Uplink {
    const site: Site
    var upstream: Upstream
    var attempts: nat
    var sent: set<Request>
    var answered: set<nat>
    ghost var history: seq<World>

    /** The history is a run of the protocol and ends in the present state of the network. */
    ghost predicate Valid()
      reads this
    {
      && Run(site, history)
      && var w := Last(history);
         w.attempts == attempts && w.sent == sent && w.answered == answered && w.upstream == upstream
    }

    constructor (site: Site)
      ensures Valid() && this.site == site
      ensures Last(history) == FirstWorld()
    {
      this.site := site;
      upstream := Upstream({}, [], [], []);
      attempts, sent, answered := 0, {}, {};
      new;
      history := FirstStart(site);
    }

    /** http_forward: the request may be lost, the reply may be lost, and only a 200 counts as ok. A
        reply body that is not readable counts as not a duplicate. */
    method Post(payload: Payload, readable: bool, ghost n: nat) returns (result: ForwardResult)
      requires Valid() && AtRest(Last(history)) && Oldest(Last(history).disk, n, payload)
      modifies this
      ensures Valid() && old(history) <= history && attempts == old(attempts) + 1
      ensures var w, v := Last(old(history)), Last(history);
        && v == w.(process := Some(w.process.value.(forwarder := Waiting(n, payload, w.attempts))),
                   attempts := attempts, sent := sent, answered := answered, upstream := upstream)
      ensures upstream == old(upstream) || payload in upstream.log
      ensures result.ok ==> old(attempts) in answered && (result.duplicate <==> readable && upstream == old(upstream))
    {
      history := SendNext(site, history, Filed(n, payload));
      var r := Request(attempts, payload);
      attempts, sent := attempts + 1, sent + {r};
      result := ForwardResult(false, false);
      var delivered: bool, replied: bool := *, *;
      if delivered {
        var duplicate := payload.batchId in upstream.ledger;
        Arrive(r);
        if replied && Accepts(site.endpoint, payload) { result := ForwardResult(true, readable && duplicate); }
      }
    }

    /** A request arrives, now, late, or once more. */
    method Arrive(r: Request)
      requires Valid() && r in sent
      modifies this`upstream, this`answered, this`history
      ensures Valid() && old(history) <= history
      ensures Last(history) == Last(old(history)).(upstream := upstream, answered := answered)
      ensures Accepts(site.endpoint, r.payload) ==> r.attempt in answered
      ensures !Accepts(site.endpoint, r.payload) ==> answered == old(answered)
      ensures !Accepts(site.endpoint, r.payload) || r.payload.batchId in old(upstream.ledger) ==> upstream == old(upstream)
      ensures Accepts(site.endpoint, r.payload) && r.payload.batchId !in old(upstream.ledger) ==>
        upstream != old(upstream) && r.payload in upstream.log
    {
      var who: Entry := *;
      upstream := Ingested(site.endpoint, upstream, r.payload, who);
      if Accepts(site.endpoint, r.payload) { answered := answered + {r.attempt}; }
      history := DeliverSent(site, history, r, who);
    }
  }

  class Gateway {
    const site: Site
    const buildReadings: nat -> seq<Json>
    const uplink: Uplink
    var spool: Spool
    var tick: nat
    var stats: Stats

    /** The spool's files, the memory and the network agree with a run of the protocol. */
    ghost predicate Valid()
      reads this, spool, uplink
    {
      && uplink.site == site && uplink.Valid()
      && Clean(spool.dir)
      && Now().disk == Queue(spool.dir)
      && Now().process == Some(Process(spool.next, Idle, Ready))
    }

    ghost function Now(): World
      reads this, uplink
      requires uplink.history != []
    {
      Last(uplink.history)
    }

    /** A first start over an empty directory. */
    constructor (site: Site, buildReadings: nat -> seq<Json>)
      ensures Valid() && fresh(spool) && fresh(uplink) && this.site == site
      ensures Now().appended == [] && tick == 0 && stats == Stats(0, 0, 0, 0, 0, false)
    {
      this.site := site;
      this.buildReadings := buildReadings;
      uplink := new Uplink(site);
      spool := new Spool(map[]);
      tick := 0;
      stats := Stats(0, 0, 0, 0, 0, false);
      new;
      RecoversQueue(map[], spool.next);
      EmptyDirectory();
    }

    /** Synthesize one batch and append it to the spool. Either write may fail; None then stands for the
        exception that the producer loop logs, and the number is skipped. */
    method ProduceOnce(counterWritten: bool, batchWritten: bool) returns (batch: Option<SpooledBatch>)
      requires Valid()
      modifies this`tick, this`stats, spool, uplink`history
      ensures tick == old(tick) + 1 && spool.next == old(spool.next) + 1
      ensures batch.Some? <==> counterWritten && batchWritten
      ensures batch.Some? ==> var n, payload := old(spool.next), NewPayload(site, old(spool.next), buildReadings(tick));
        && batch.value == SpooledBatch(n, BatchName(n), payload)
        && stats == old(stats).(produced := old(stats).produced + 1)
        && (n < SEQ_LIMIT ==>
              && Valid() && old(uplink.history) <= uplink.history
              && Now().appended == Last(old(uplink.history)).appended + [Filed(n, payload)]
              && Now().acked == Last(old(uplink.history)).acked)
      ensures batch.None? ==>
        && stats == old(stats)
        && Valid() && old(uplink.history) <= uplink.history
        && Now().appended == Last(old(uplink.history)).appended
        && Now().acked == Last(old(uplink.history)).acked
    {
      hide Clean, Queue, Run, NewPayload, Appended, Persisted, BatchName, BatchId;
      ghost var before := uplink.history;
      tick := tick + 1;
      var reserved := spool.NextSeq(counterWritten);
      if reserved.None? {
        uplink.history := Skipped(site, before, false);
        return None;
      }
      var n := reserved.value;
      var payload := NewPayload(site, n, buildReadings(tick));
      var path := spool.Append(n, payload, batchWritten);
      if path.None? {
        uplink.history := Skipped(site, before, true);
        return None;
      }
      stats := stats.(produced := stats.produced + 1);
      batch := Some(SpooledBatch(n, path.value, payload));
      if n < SEQ_LIMIT { uplink.history := Produced(site, before, buildReadings(tick)); }
    }

    /** Try to forward the oldest batch; None when the spool is empty. */
    method ForwardOnce() returns (result: Option<ForwardResult>)
      requires Valid()
      modifies this`stats, spool`dir, uplink
      ensures Valid() && old(uplink.history) <= uplink.history
      ensures Now().appended == Last(old(uplink.history)).appended
      ensures result.None? <==> Last(old(uplink.history)).acked == |Last(old(uplink.history)).appended|
      ensures result.None? ==> stats == old(stats) && spool.dir == old(spool.dir) && Now().acked == Last(old(uplink.history)).acked
      ensures result.Some? ==> var r, k := result.value, Last(old(uplink.history)).acked;
        && k < |Now().appended|
        && Now().acked == (if r.ok then k + 1 else k)
        && (!r.ok ==> spool.dir == old(spool.dir))
        && stats == (if r.ok
                     then old(stats).(attempts := old(stats).attempts + 1, forwarded := old(stats).forwarded + 1, reachable := true,
                                      duplicates := old(stats).duplicates + (if r.duplicate then 1 else 0))
                     else old(stats).(attempts := old(stats).attempts + 1, failures := old(stats).failures + 1, reachable := false))
    {
      hide Clean, Queue, Run, Oldest, Readable, BatchName;
      ghost var before := uplink.history;
      SpoolEmptyMeansAcked(site, before);
      var batch := spool.Peek();
      if batch.None? { return None; }
      OldestIsNext(site, before, Filed(batch.value.n, batch.value.payload));
      var readable: bool := *;
      var r := uplink.Post(batch.value.payload, readable, batch.value.n);
      uplink.history := Settled(site, uplink.history, r.ok);
      stats := stats.(attempts := stats.attempts + 1);
      if r.ok {
        spool.Ack(batch.value);
        stats := stats.(forwarded := stats.forwarded + 1, reachable := true);
        if r.duplicate { stats := stats.(duplicates := stats.duplicates + 1); }
      } else {
        stats := stats.(failures := stats.failures + 1, reachable := false);
      }
      result := Some(r);
    }

    /** Forward until something fails, the spool is empty, or the gateway is stopped. */
    method Drain() returns (count: nat)
      requires Valid()
      modifies this`stats, spool`dir, uplink
      ensures Valid() && old(uplink.history) <= uplink.history
      ensures Now().appended == Last(old(uplink.history)).appended
      ensures Now().acked == Last(old(uplink.history)).acked + count <= |Now().appended|
      ensures stats.forwarded == old(stats).forwarded + count
      ensures forall i :: 0 <= i < Now().acked ==> Now().appended[i].payload in uplink.upstream.log
    {
      count := 0;
      ghost var before := Last(uplink.history);
      AcksBounded(site, uplink.history);
      var stopped: bool := *;
      while !stopped
        invariant Valid() && old(uplink.history) <= uplink.history && Now().appended == before.appended
        invariant Now().acked == before.acked + count <= |before.appended|
        invariant stats.forwarded == old(stats).forwarded + count
        decreases |before.appended| - Now().acked, !stopped
      {
        var result := ForwardOnce();
        if result.None? || !result.value.ok { break; }
        count := count + 1;
        stopped := *;
      }
      AllAckedLogged(site, uplink.history);
    }

    /** The process dies and a new one starts over the same directory. */
    method Restart()
      requires Valid()
      modifies this`spool, this`tick, this`stats, uplink`history
      ensures Valid() && fresh(spool) && spool.dir == old(spool.dir) && old(uplink.history) <= uplink.history
      ensures Now().appended == Last(old(uplink.history)).appended && Now().acked == Last(old(uplink.history)).acked
      ensures spool.next == Now().disk.counter <= old(spool.next) && tick == 0 && stats == Stats(0, 0, 0, 0, 0, false)
    {
      hide Run, Clean, Queue, Recovers;
      ghost var story := Rebooted(site, uplink.history);
      spool := new Spool(spool.dir);
      tick := 0;
      stats := Stats(0, 0, 0, 0, 0, false);
      RecoversQueue(spool.dir, spool.next);
      ResumesOnce(site, uplink.history, spool.next);
      uplink.history := story;
    }
  }

  // ---- the protocol steps behind each method ---------------------------------------------

  lemma EmptyDirectory()
    ensures Clean(map[]) && Queue(map[]) == Disk(0, map[])
  {}

  function FirstWorld(): World {
    World(Disk(0, map[]), Some(Process(0, Idle, Ready)), 0, {}, {}, Upstream({}, [], [], []), [], [], 0)
  }

  lemma FirstStart(site: Site) returns (ws: seq<World>)
    ensures Run(site, ws) && ws[|ws| - 1] == FirstWorld()
  {
    var w := FirstWorld().(process := None);
    assert Restart(w, FirstWorld(), 0);
    Extend(site, [w], FirstWorld());
    ws := [w] + [FirstWorld()];
  }

  lemma Produced(site: Site, ws: seq<World>, readings: seq<Json>) returns (vs: seq<World>)
    requires Run(site, ws) && ws[|ws| - 1].process.Some? && ws[|ws| - 1].process.value.producer.Idle?
    ensures Run(site, vs) && ws <= vs
    ensures var w := ws[|ws| - 1]; var p := w.process.value; var payload := NewPayload(site, p.next, readings);
      vs[|vs| - 1] == w.(disk := Disk(p.next + 1, w.disk.batches[p.next := payload]),
                         process := Some(p.(next := p.next + 1)),
                         issued := w.issued + [p.next], appended := w.appended + [Filed(p.next, payload)])
  {
    var w := ws[|ws| - 1];
    var p := w.process.value;
    var n := p.next;
    var w1 := w.(process := Some(p.(next := n + 1, producer := Reserved(n))));
    assert Reserve(w, w1);
    Extend(site, ws, w1);
    var w2 := w1.(disk := w.disk.(counter := n + 1), process := Some(p.(next := n + 1, producer := Numbered(n))),
                  issued := w.issued + [n]);
    assert Persist(w1, w2);
    Extend(site, ws + [w1], w2);
    var w3 := w2.(disk := Disk(n + 1, w.disk.batches[n := NewPayload(site, n, readings)]), process := Some(p.(next := n + 1)),
                  appended := w.appended + [Filed(n, NewPayload(site, n, readings))]);
    assert Append(site, w2, w3, readings);
    Extend(site, ws + [w1] + [w2], w3);
    vs := ws + [w1] + [w2] + [w3];
  }

  /** Reserve, perhaps persist, and then a failed write: no batch, and the number is gone. */
  lemma Skipped(site: Site, ws: seq<World>, persisted: bool) returns (vs: seq<World>)
    requires Run(site, ws) && ws[|ws| - 1].process.Some? && ws[|ws| - 1].process.value.producer.Idle?
    ensures Run(site, vs) && ws <= vs
    ensures var w := ws[|ws| - 1]; var n := w.process.value.next;
      var v := w.(process := Some(w.process.value.(next := n + 1)));
      vs[|vs| - 1] == if persisted then v.(disk := w.disk.(counter := n + 1), issued := w.issued + [n]) else v
  {
    var w := ws[|ws| - 1];
    var p := w.process.value;
    var n := p.next;
    var w1 := w.(process := Some(p.(next := n + 1, producer := Reserved(n))));
    assert Reserve(w, w1);
    Extend(site, ws, w1);
    vs := ws + [w1];
    var w2 := w1;
    if persisted {
      w2 := w1.(disk := w.disk.(counter := n + 1), process := Some(p.(next := n + 1, producer := Numbered(n))),
                issued := w.issued + [n]);
      assert Persist(w1, w2);
      Extend(site, vs, w2);
      vs := vs + [w2];
    }
    var w3 := w2.(process := Some(p.(next := n + 1)));
    assert WriteFails(w2, w3);
    Extend(site, vs, w3);
    vs := vs + [w3];
  }

  lemma ResumesOnce(site: Site, ws: seq<World>, n: nat)
    requires Run(site, ws) && ResumesAt(ws[|ws| - 1].disk, n)
    ensures n == ws[|ws| - 1].disk.counter
    ensures ws[|ws| - 1].process.Some? && ws[|ws| - 1].process.value.producer.Idle? ==> n <= ws[|ws| - 1].process.value.next
  {
    RunKeepsInv(site, ws);
    ResumesAtCounter(ws[|ws| - 1], n);
  }

  /** The reply: acknowledge on ok, otherwise leave the batch for the next attempt. */
  function AfterReply(w: World, ok: bool): World
    requires w.process.Some? && w.process.value.forwarder.Waiting?
  {
    if ok then AfterAck(w, w.process.value.forwarder.n)
    else w.(process := Some(w.process.value.(forwarder := Ready)))
  }

  lemma Settled(site: Site, ws: seq<World>, ok: bool) returns (vs: seq<World>)
    requires Run(site, ws) && ws[|ws| - 1].process.Some? && ws[|ws| - 1].process.value.forwarder.Waiting?
    requires ok ==> ws[|ws| - 1].process.value.forwarder.attempt in ws[|ws| - 1].answered
    ensures Run(site, vs) && ws <= vs && vs[|vs| - 1] == AfterReply(ws[|ws| - 1], ok)
  {
    if ok {
      vs := Confirm(site, ws);
    } else {
      var w := ws[|ws| - 1];
      assert ReceiveFailure(w, AfterReply(w, ok));
      Extend(site, ws, AfterReply(w, ok));
      vs := ws + [AfterReply(w, ok)];
    }
  }

  lemma Rebooted(site: Site, ws: seq<World>) returns (vs: seq<World>)
    requires Run(site, ws) && ws[|ws| - 1].process.Some?
    ensures Run(site, vs) && ws <= vs
    ensures vs[|vs| - 1] == ws[|ws| - 1].(process := Some(Process(ws[|ws| - 1].disk.counter, Idle, Ready)))
  {
    var w := ws[|ws| - 1];
    var w1 := w.(process := None);
    assert Crash(w, w1);
    Extend(site, ws, w1);
    ResumePoint(site, ws);
    var w2 := w.(process := Some(Process(w.disk.counter, Idle, Ready)));
    assert Restart(w1, w2, w.disk.counter);
    Extend(site, ws + [w1], w2);
    vs := ws + [w1] + [w2];
  }

  lemma AcksBounded(site: Site, ws: seq<World>)
    requires Run(site, ws)
    ensures ws[|ws| - 1].acked <= |ws[|ws| - 1].appended|
  {
    NextPending(site, ws);
  }

  lemma SpoolEmptyMeansAcked(site: Site, ws: seq<World>)
    requires Run(site, ws)
    ensures ws[|ws| - 1].disk.batches == map[] <==> ws[|ws| - 1].acked == |ws[|ws| - 1].appended|
  {
    NextPending(site, ws);
    if ws[|ws| - 1].acked == |ws[|ws| - 1].appended| { EverythingAcked(site, ws); }
  }

  lemma OldestIsNext(site: Site, ws: seq<World>, f: Filed)
    requires Run(site, ws) && Oldest(ws[|ws| - 1].disk, f.n, f.payload)
    ensures ws[|ws| - 1].acked < |ws[|ws| - 1].appended| && ws[|ws| - 1].appended[ws[|ws| - 1].acked] == f
  {
    RunKeepsInv(site, ws);
    var w := ws[|ws| - 1];
    PeekedIsNext(w.disk, w.appended, w.acked, f.n, f.payload);
  }

  lemma AllAckedLogged(site: Site, ws: seq<World>)
    requires Run(site, ws)
    ensures var w := ws[|ws| - 1];
      && w.acked <= |w.appended|
      && forall i :: 0 <= i < w.acked ==> w.appended[i].payload in w.upstream.log
  {
    NoLossNoDuplication(site, ws);
  }
}
