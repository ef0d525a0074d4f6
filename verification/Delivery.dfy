/** What the store-and-forward protocol guarantees over every run. */
module Delivery {
  import opened Options
  import opened Json
  import opened SpoolFiles
  import opened Spools
  import opened HashChain
  import opened AuditChain
  import opened Ingest
  import opened StoreForward

  function Payloads(appended: seq<Filed>): (r: seq<Payload>)
    ensures |r| == |appended|
  {
    seq(|appended|, i requires 0 <= i < |appended| => appended[i].payload)
  }

  /** The i-th appended batch waits in the spool. */
  predicate InSpool(w: World, i: nat)
    requires i < |w.appended|
  {
    w.appended[i].n in w.disk.batches && w.disk.batches[w.appended[i].n] == w.appended[i].payload
  }

  /** Over every run with crashes, restarts, lost replies and late or repeated deliveries: nothing is
      lost, nothing is counted twice, order is kept, acks are backed, and the audit trail verifies and tells of each accepted batch once. */
  lemma NoLossNoDuplication(site: Site, ws: seq<World>)
    requires Run(site, ws)
    ensures var w := ws[|ws| - 1]; var up := w.upstream;
      && w.acked <= |w.appended|
      && (forall i :: 0 <= i < |w.appended| ==> InSpool(w, i) || w.appended[i].payload in up.log)
      && (forall i :: 0 <= i < |w.appended| ==> (i < w.acked <==> w.appended[i].n !in w.disk.batches))
      && (forall i :: 0 <= i < w.acked ==> w.appended[i].payload in up.log)
      && up.log <= Payloads(w.appended)
      && (forall i, j :: 0 <= i < j < |up.log| ==> up.log[i].batchId != up.log[j].batchId)
      && up.telemetry == Readings(site.endpoint.schema, Payloads(w.appended)[..|up.log|])
      && Accepted(site.endpoint.digest, AsLinks(up.trail))
      && |BatchEvents(up.trail)| == |up.log|
      && (forall i :: 0 <= i < |up.log| ==> Tells(site.endpoint, BatchEvents(up.trail)[i], up.log[i]))
  {
    hide NumbersOk, QueueOk, LogOk, Consistent, InSpool;
    var w := ws[|ws| - 1];
    RunKeepsInv(site, ws);
    PendingExactly(w);
    LogIsPrefix(w);
    OnceEach(site, w);
  }

  lemma PendingExactly(w: World)
    requires NumbersOk(w.issued, w.appended, w.disk.counter) && QueueOk(w.disk.batches, w.appended, w.acked)
    ensures w.acked <= |w.appended|
    ensures forall i :: 0 <= i < |w.appended| ==> (i < w.acked <==> w.appended[i].n !in w.disk.batches)
    ensures forall i :: w.acked <= i < |w.appended| ==> InSpool(w, i)
  {
    forall i | 0 <= i < |w.appended| ensures i < w.acked <==> w.appended[i].n !in w.disk.batches {
      if w.appended[i].n in w.disk.batches {
        var j :| w.acked <= j < |w.appended| && w.appended[j].n == w.appended[i].n;
        assert i == j;
      }
    }
  }

  lemma LogIsPrefix(w: World)
    requires LogOk(w.upstream.log, w.appended, w.acked)
    ensures w.upstream.log <= Payloads(w.appended)
    ensures Payloads(w.appended)[..|w.upstream.log|] == w.upstream.log
    ensures forall i :: 0 <= i < w.acked ==> w.appended[i].payload in w.upstream.log
  {
    var log := w.upstream.log;
    assert log == Payloads(w.appended)[..|log|];
    forall i | 0 <= i < w.acked ensures w.appended[i].payload in log {
      assert log[i] == w.appended[i].payload;
    }
  }

  lemma OnceEach(site: Site, w: World)
    requires Consistent(site.endpoint, w.upstream)
    ensures forall i, j :: 0 <= i < j < |w.upstream.log| ==> w.upstream.log[i].batchId != w.upstream.log[j].batchId
    ensures w.upstream.telemetry == Readings(site.endpoint.schema, w.upstream.log)
    ensures Accepted(site.endpoint.digest, AsLinks(w.upstream.trail))
    ensures TrailTells(site.endpoint, w.upstream.trail, w.upstream.log)
  {}

  /** While the counter file survives, no number is handed out twice over any run, and the batch ids
      built from them differ. */
  lemma NumbersNeverRepeat(site: Site, ws: seq<World>)
    requires Run(site, ws)
    ensures var issued := ws[|ws| - 1].issued;
      && (forall i, j :: 0 <= i < j < |issued| ==> issued[i] < issued[j] && BatchId(site, issued[i]) != BatchId(site, issued[j]))
  {
    RunKeepsInv(site, ws);
    var issued := ws[|ws| - 1].issued;
    forall i, j | 0 <= i < j < |issued| ensures BatchId(site, issued[i]) != BatchId(site, issued[j]) {
      if BatchId(site, issued[i]) == BatchId(site, issued[j]) { BatchIdInjective(site, issued[i], issued[j]); }
    }
  }

  // ---- a lost counter file ---------------------------------------------------------------

  lemma HighestPending(issued: seq<nat>, appended: seq<Filed>, counter: nat, batches: map<nat, Payload>, acked: nat, n: nat)
    requires NumbersOk(issued, appended, counter) && QueueOk(batches, appended, acked)
    requires ResumesAt(Disk(0, batches), n) && issued != []
    ensures issued[|issued| - 1] < n <==> issued[|issued| - 1] in batches
  {
    if n != 0 {
      var i :| acked <= i < |appended| && appended[i].n == n - 1;
      assert appended[i].n in issued;
    }
  }

  lemma HighestIsLast(issued: seq<nat>, appended: seq<Filed>, counter: nat, n: nat)
    requires NumbersOk(issued, appended, counter)
    ensures (forall i :: 0 <= i < |issued| ==> issued[i] < n) <==> issued == [] || issued[|issued| - 1] < n
  {}

  /** When the counter file is lost, the next number still exceeds every pending batch; it is new
      exactly when nothing was ever handed out or the highest number handed out is still pending. */
  lemma LostCounter(site: Site, ws: seq<World>, n: nat)
    requires Run(site, ws) && ResumesAt(Disk(0, ws[|ws| - 1].disk.batches), n)
    ensures var w := ws[|ws| - 1];
      && (forall s :: s in w.disk.batches ==> s < n)
      && ((forall i :: 0 <= i < |w.issued| ==> w.issued[i] < n)
          <==> w.issued == [] || w.issued[|w.issued| - 1] in w.disk.batches)
  {
    var w := ws[|ws| - 1];
    assert NumbersOk(w.issued, w.appended, w.disk.counter) && QueueOk(w.disk.batches, w.appended, w.acked) by {
      RunKeepsInv(site, ws);
    }
    HighestIsLast(w.issued, w.appended, w.disk.counter, n);
    if w.issued != [] { HighestPending(w.issued, w.appended, w.disk.counter, w.disk.batches, w.acked, n); }
  }

  /** A batch filed under a reused number is dropped upstream, whatever it carries. */
  lemma ReusedNumberIsDropped(site: Site, ws: seq<World>, i: nat, readings: seq<Json>, who: Entry)
    requires Run(site, ws) && i < ws[|ws| - 1].acked
    ensures var w := ws[|ws| - 1];
      && i < |w.appended|
      && Ingested(site.endpoint, w.upstream, NewPayload(site, w.appended[i].n, readings), who) == w.upstream
  {
    RunKeepsInv(site, ws);
    var w := ws[|ws| - 1];
    assert w.upstream.log[i].batchId == BatchId(site, w.appended[i].n);
    assert HasId(w.upstream.log, w.upstream.log[i].batchId);
  }

  // ---- recovery always completes -----------------------------------------------------------

  predicate AllDelivered(w: World) {
    w.disk.batches == map[] && w.upstream.log == Payloads(w.appended)
  }

  lemma Extend(site: Site, ws: seq<World>, w: World)
    requires Run(site, ws) && Step(site, ws[|ws| - 1], w)
    ensures Run(site, ws + [w])
  {
    assert (ws + [w])[..|ws|] == ws;
    assert Continues(site, ws + [w]);
  }

  lemma NextIsOldest(disk: Disk, appended: seq<Filed>, acked: nat)
    requires QueueOk(disk.batches, appended, acked) && acked < |appended|
    requires forall i, j :: 0 <= i < j < |appended| ==> appended[i].n < appended[j].n
    ensures Oldest(disk, appended[acked].n, appended[acked].payload)
  {
    forall s | s in disk.batches ensures appended[acked].n <= s {
      var i :| acked <= i < |appended| && appended[i].n == s;
    }
  }

  /** The acks never run ahead, and the batch after them is the oldest one in the spool. */
  lemma NextPending(site: Site, ws: seq<World>)
    requires Run(site, ws)
    ensures var w := ws[|ws| - 1];
      && w.acked <= |w.appended|
      && (w.acked < |w.appended| ==> Oldest(w.disk, w.appended[w.acked].n, w.appended[w.acked].payload))
  {
    var w := ws[|ws| - 1];
    RunKeepsInv(site, ws);
    if w.acked < |w.appended| { NextIsOldest(w.disk, w.appended, w.acked); }
  }

  predicate AtRest(w: World) { w.process.Some? && w.process.value.forwarder.Ready? }

  /** The world after peeking and sending f. */
  function AfterSend(w: World, f: Filed): World
    requires AtRest(w)
  {
    w.(process := Some(w.process.value.(forwarder := Waiting(f.n, f.payload, w.attempts))),
       attempts := w.attempts + 1, sent := w.sent + {Request(w.attempts, f.payload)})
  }

  function AfterDelivery(site: Site, w: World, r: Request, who: Entry): World {
    w.(upstream := Ingested(site.endpoint, w.upstream, r.payload, who),
       answered := if Accepts(site.endpoint, r.payload) then w.answered + {r.attempt} else w.answered)
  }

  function AfterAck(w: World, n: nat): World
    requires w.process.Some?
  {
    w.(disk := w.disk.(batches := w.disk.batches - {n}),
       process := Some(w.process.value.(forwarder := Ready)), acked := w.acked + 1)
  }

  /** Peek and send. */
  lemma SendNext(site: Site, ws: seq<World>, f: Filed) returns (vs: seq<World>)
    requires Run(site, ws) && AtRest(ws[|ws| - 1])
    requires Oldest(ws[|ws| - 1].disk, f.n, f.payload)
    ensures Run(site, vs) && ws <= vs && vs[|vs| - 1] == AfterSend(ws[|ws| - 1], f)
  {
    var w := ws[|ws| - 1];
    var w1 := w.(process := Some(w.process.value.(forwarder := Holding(f.n, f.payload))));
    assert Peek(w, w1, f.n, f.payload);
    Extend(site, ws, w1);
    var w2 := AfterSend(w, f);
    assert Send(w1, w2);
    Extend(site, ws + [w1], w2);
    vs := ws + [w1] + [w2];
  }

  lemma DeliverSent(site: Site, ws: seq<World>, r: Request, who: Entry) returns (vs: seq<World>)
    requires Run(site, ws) && r in ws[|ws| - 1].sent
    ensures Run(site, vs) && ws <= vs && vs[|vs| - 1] == AfterDelivery(site, ws[|ws| - 1], r, who)
  {
    var w := ws[|ws| - 1];
    assert Deliver(site, w, AfterDelivery(site, w, r, who), r, who);
    Extend(site, ws, AfterDelivery(site, w, r, who));
    vs := ws + [AfterDelivery(site, w, r, who)];
  }

  /** Receive the 200 reply and acknowledge. */
  lemma Confirm(site: Site, ws: seq<World>) returns (vs: seq<World>)
    requires Run(site, ws) && ws[|ws| - 1].process.Some? && ws[|ws| - 1].process.value.forwarder.Waiting?
    requires ws[|ws| - 1].process.value.forwarder.attempt in ws[|ws| - 1].answered
    ensures Run(site, vs) && ws <= vs
    ensures vs[|vs| - 1] == AfterAck(ws[|ws| - 1], ws[|ws| - 1].process.value.forwarder.n)
  {
    var w := ws[|ws| - 1];
    var p := w.process.value;
    var w1 := w.(process := Some(p.(forwarder := Confirmed(p.forwarder.n))));
    assert ReceiveOk(w, w1);
    Extend(site, ws, w1);
    var w2 := AfterAck(w, p.forwarder.n);
    assert Ack(w1, w2);
    Extend(site, ws + [w1], w2);
    vs := ws + [w1] + [w2];
  }

  /** The endpoint would accept every batch that is not acknowledged yet. */
  predicate AllAcceptable(site: Site, w: World) {
    forall i :: w.acked <= i < |w.appended| ==> Accepts(site.endpoint, w.appended[i].payload)
  }

  lemma {:induction false} ForwardAll(site: Site, ws: seq<World>) returns (vs: seq<World>)
    requires Run(site, ws) && AtRest(ws[|ws| - 1]) && AllAcceptable(site, ws[|ws| - 1])
    ensures Run(site, vs) && ws <= vs
    ensures vs[|vs| - 1].appended == ws[|ws| - 1].appended
    ensures vs[|vs| - 1].acked == |vs[|vs| - 1].appended|
    decreases |ws[|ws| - 1].appended| - ws[|ws| - 1].acked
  {
    var w := ws[|ws| - 1];
    NextPending(site, ws);
    if w.acked < |w.appended| {
      var f := w.appended[w.acked];
      var us := SendNext(site, ws, f);
      var ts := DeliverSent(site, us, Request(w.attempts, f.payload), Entry(Null, Null, Null));
      var rs := Confirm(site, ts);
      vs := ForwardAll(site, rs);
    } else {
      vs := ws;
    }
  }

  /** The run goes on from `ws`, with no further batch produced, until everything is delivered. */
  ghost predicate Completes(site: Site, ws: seq<World>, vs: seq<World>)
    requires ws != []
  {
    Run(site, vs) && ws <= vs && vs[|vs| - 1].appended == ws[|ws| - 1].appended && AllDelivered(vs[|vs| - 1])
  }

  /** From every reachable state, even in mid-crash, some continuation delivers everything that was
      appended; this is so exactly when the endpoint accepts every pending batch. */
  lemma RecoveryCompletes(site: Site, ws: seq<World>)
    requires Run(site, ws)
    ensures var w := ws[|ws| - 1];
      AllAcceptable(site, w) <==> exists vs :: Completes(site, ws, vs)
  {
    var w := ws[|ws| - 1];
    if AllAcceptable(site, w) {
      var us := Restarted(site, ws);
      var vs := ForwardAll(site, us);
      EverythingAcked(site, vs);
      assert Completes(site, ws, vs);
    }
    if vs: seq<World> :| Completes(site, ws, vs) {
      OnlyAcceptedBatches(site, vs);
      var v := vs[|vs| - 1];
      forall i | w.acked <= i < |w.appended| ensures Accepts(site.endpoint, w.appended[i].payload) {
        assert v.upstream.log[i] == v.appended[i].payload;
      }
    }
  }

  lemma OnlyAcceptedBatches(site: Site, ws: seq<World>)
    requires Run(site, ws)
    ensures forall p :: p in ws[|ws| - 1].upstream.log ==> Accepts(site.endpoint, p)
  {
    RunKeepsInv(site, ws);
  }

  lemma ResumePoint(site: Site, ws: seq<World>)
    requires Run(site, ws)
    ensures ResumesAt(ws[|ws| - 1].disk, ws[|ws| - 1].disk.counter)
  {
    var w := ws[|ws| - 1];
    RunKeepsInv(site, ws);
    forall s | s in w.disk.batches ensures s < w.disk.counter {
      var i :| w.acked <= i < |w.appended| && w.appended[i].n == s;
      assert w.appended[i].n in w.issued;
    }
  }

  /** Crash if running, then start again: both threads are at the top of their loops. */
  lemma Restarted(site: Site, ws: seq<World>) returns (vs: seq<World>)
    requires Run(site, ws)
    ensures Run(site, vs) && ws <= vs && AtRest(vs[|vs| - 1])
    ensures vs[|vs| - 1].acked == ws[|ws| - 1].acked && vs[|vs| - 1].appended == ws[|ws| - 1].appended
  {
    var w := ws[|ws| - 1];
    vs := ws;
    if w.process.Some? {
      var w1 := w.(process := None);
      assert Crash(w, w1);
      Extend(site, ws, w1);
      vs := ws + [w1];
    }
    var w1 := vs[|vs| - 1];
    ResumePoint(site, vs);
    var w2 := w1.(process := Some(Process(w1.disk.counter, Idle, Ready)));
    assert Restart(w1, w2, w1.disk.counter);
    Extend(site, vs, w2);
    vs := vs + [w2];
  }

  lemma EverythingAcked(site: Site, ws: seq<World>)
    requires Run(site, ws) && ws[|ws| - 1].acked == |ws[|ws| - 1].appended|
    ensures AllDelivered(ws[|ws| - 1])
  {
    var v := ws[|ws| - 1];
    RunKeepsInv(site, ws);
    assert v.disk.batches.Keys == {};
    assert v.upstream.log == Payloads(v.appended);
  }
}
