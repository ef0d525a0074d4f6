/** The store-and-forward protocol as a step system: one producer thread, one forwarder thread, a
    lossy and duplicating network, crashes and restarts. */
module StoreForward {
  import opened Options
  import opened Decimal
  import opened Json
  import opened SpoolFiles
  import opened Spools
  import opened AuditChain
  import opened Ingest

  datatype Site = Site(gateway: string, endpoint: Endpoint)

  function BatchId(site: Site, n: nat): string { site.gateway + "-" + Padded(n) }

  function NewPayload(site: Site, n: nat, readings: seq<Json>): Payload {
    Payload(BatchId(site, n), readings, site.gateway)
  }

  /** Where the producer thread stands inside produce_once. */
  datatype Producer =
    | Idle
    | Reserved(n: nat)   // _next_seq advanced in memory, counter file not yet replaced
    | Numbered(n: nat)   // next_seq returned n, batch file not yet replaced

  /** Where the forwarder thread stands inside forward_once. */
  datatype Forwarder =
    | Ready
    | Holding(n: nat, payload: Payload)
    | Waiting(n: nat, payload: Payload, attempt: nat)
    | Confirmed(n: nat)

  datatype Process = Process(next: nat, producer: Producer, forwarder: Forwarder)

  datatype Request = Request(attempt: nat, payload: Payload)

  datatype Filed = Filed(n: nat, payload: Payload)

  /** `sent` never shrinks: any request may arrive late, repeatedly, or never. `answered` holds the
      attempts for which a 200 reply exists. `issued`, `appended` and `acked` record the history. */
  datatype World = World(
    disk: Disk, process: Option<Process>,
    attempts: nat, sent: set<Request>, answered: set<nat>, upstream: Upstream,
    issued: seq<nat>, appended: seq<Filed>, acked: nat)

  ghost predicate Init(w: World) {
    w == World(Disk(0, map[]), None, 0, {}, {}, Upstream({}, [], [], []), [], [], 0)
  }

  // ---- the steps -----------------------------------------------------------------------

  predicate Reserve(w: World, v: World) {
    && w.process.Some? && w.process.value.producer.Idle?
    && var p := w.process.value;
       v == w.(process := Some(p.(next := p.next + 1, producer := Reserved(p.next))))
  }

  predicate Persist(w: World, v: World) {
    && w.process.Some? && w.process.value.producer.Reserved?
    && var p := w.process.value;
       v == w.(disk := w.disk.(counter := p.next), process := Some(p.(producer := Numbered(p.producer.n))),
               issued := w.issued + [p.producer.n])
  }

  predicate Append(site: Site, w: World, v: World, readings: seq<Json>) {
    && w.process.Some? && w.process.value.producer.Numbered?
    && var p := w.process.value;
       var n := p.producer.n;
       var payload := NewPayload(site, n, readings);
       v == w.(disk := w.disk.(batches := w.disk.batches[n := payload]), process := Some(p.(producer := Idle)),
               appended := w.appended + [Filed(n, payload)])
  }

  /** A write fails: the producer loop logs it and goes on, and the number it held is skipped. */
  predicate WriteFails(w: World, v: World) {
    && w.process.Some? && !w.process.value.producer.Idle?
    && v == w.(process := Some(w.process.value.(producer := Idle)))
  }

  ghost predicate Peek(w: World, v: World, n: nat, payload: Payload) {
    && w.process.Some? && w.process.value.forwarder.Ready?
    && Oldest(w.disk, n, payload)
    && v == w.(process := Some(w.process.value.(forwarder := Holding(n, payload))))
  }

  predicate Send(w: World, v: World) {
    && w.process.Some? && w.process.value.forwarder.Holding?
    && var p := w.process.value;
       var h := p.forwarder;
       v == w.(process := Some(p.(forwarder := Waiting(h.n, h.payload, w.attempts))),
               attempts := w.attempts + 1, sent := w.sent + {Request(w.attempts, h.payload)})
  }

  /** A request arrives: the upstream ingests it and, unless it refused the batch, answers 200. */
  predicate Deliver(site: Site, w: World, v: World, r: Request, who: Entry) {
    && r in w.sent
    && v == w.(upstream := Ingested(site.endpoint, w.upstream, r.payload, who),
               answered := if Accepts(site.endpoint, r.payload) then w.answered + {r.attempt} else w.answered)
  }

  predicate ReceiveOk(w: World, v: World) {
    && w.process.Some? && w.process.value.forwarder.Waiting? && w.process.value.forwarder.attempt in w.answered
    && v == w.(process := Some(w.process.value.(forwarder := Confirmed(w.process.value.forwarder.n))))
  }

  /** A timeout, a lost reply or an error status. */
  predicate ReceiveFailure(w: World, v: World) {
    && w.process.Some? && w.process.value.forwarder.Waiting?
    && v == w.(process := Some(w.process.value.(forwarder := Ready)))
  }

  predicate Ack(w: World, v: World) {
    && w.process.Some? && w.process.value.forwarder.Confirmed?
    && v == w.(disk := w.disk.(batches := w.disk.batches - {w.process.value.forwarder.n}),
               process := Some(w.process.value.(forwarder := Ready)), acked := w.acked + 1)
  }

  predicate Crash(w: World, v: World) { w.process.Some? && v == w.(process := None) }

  ghost predicate Restart(w: World, v: World, n: nat) {
    w.process.None? && ResumesAt(w.disk, n) && v == w.(process := Some(Process(n, Idle, Ready)))
  }

  /** Anything else appends to the audit trail: no other event names a batch as this endpoint's do, not
      even those of the companion endpoint, which share their kind. */
  predicate Unrelated(site: Site, w: World, v: World, e: Event) {
    !NamesBatch(e) && v == w.(upstream := w.upstream.(trail := Audit(site.endpoint.digest, w.upstream.trail, e)))
  }

  ghost predicate Step(site: Site, w: World, v: World) {
    || Reserve(w, v) || Persist(w, v) || WriteFails(w, v)
    || (exists readings :: Append(site, w, v, readings))
    || (exists n: nat, payload :: Peek(w, v, n, payload))
    || Send(w, v)
    || (exists r, who :: Deliver(site, w, v, r, who))
    || ReceiveOk(w, v) || ReceiveFailure(w, v) || Ack(w, v)
    || Crash(w, v)
    || (exists n: nat :: Restart(w, v, n))
    || (exists e :: Unrelated(site, w, v, e))
  }

  /** A run starts in the initial world and goes on step by step. */
  ghost predicate Run(site: Site, ws: seq<World>)
    decreases |ws|, 1
  {
    ws != [] && if |ws| == 1 then Init(ws[0]) else Continues(site, ws)
  }

  /** The last world of the run follows from the one before it. */
  ghost predicate Continues(site: Site, ws: seq<World>)
    requires |ws| > 1
    decreases |ws|, 0
  {
    var k := |ws| - 1;
    Run(site, ws[..k]) && Step(site, ws[k - 1], ws[k])
  }

  // ---- the invariant -------------------------------------------------------------------

  /** Numbers are handed out, and batches filed, in ascending order, all below the counter. */
  ghost predicate NumbersOk(issued: seq<nat>, appended: seq<Filed>, counter: nat) {
    && (forall i, j :: 0 <= i < j < |issued| ==> issued[i] < issued[j])
    && (forall i :: 0 <= i < |issued| ==> issued[i] < counter)
    && (forall i, j :: 0 <= i < j < |appended| ==> appended[i].n < appended[j].n)
    && (forall i :: 0 <= i < |appended| ==> appended[i].n in issued)
  }

  ghost predicate IdsOk(site: Site, appended: seq<Filed>) {
    forall i :: 0 <= i < |appended| ==> appended[i].payload.batchId == BatchId(site, appended[i].n)
  }

  /** The number in memory is never behind the one on disk. */
  ghost predicate ProducerOk(next: nat, producer: Producer, counter: nat, issued: seq<nat>, appended: seq<Filed>) {
    match producer
    case Idle => counter <= next
    case Reserved(n) => counter <= n && next == n + 1
    case Numbered(n) => next == n + 1 == counter && n in issued && forall i :: 0 <= i < |appended| ==> appended[i].n < n
  }

  /** The directory holds exactly the appended batches that are not yet acknowledged. */
  ghost predicate QueueOk(batches: map<nat, Payload>, appended: seq<Filed>, acked: nat) {
    && acked <= |appended|
    && (forall i :: acked <= i < |appended| ==> appended[i].n in batches && batches[appended[i].n] == appended[i].payload)
    && (forall n :: n in batches ==> exists i :: acked <= i < |appended| && appended[i].n == n)
  }

  /** The upstream accepted a prefix of what was appended, at most one batch beyond the acks. */
  ghost predicate LogOk(log: seq<Payload>, appended: seq<Filed>, acked: nat) {
    && acked <= |log| <= acked + 1
    && |log| <= |appended|
    && forall i :: 0 <= i < |log| ==> log[i] == appended[i].payload
  }

  /** A payload on the wire is an accepted batch or the oldest pending one. */
  ghost predicate MayArrive(payload: Payload, appended: seq<Filed>, acked: nat) {
    exists i :: 0 <= i < |appended| && i <= acked && appended[i].payload == payload
  }

  ghost predicate WireOk(sent: set<Request>, attempts: nat, appended: seq<Filed>, acked: nat) {
    && (forall r :: r in sent ==> r.attempt < attempts && MayArrive(r.payload, appended, acked))
    && (forall r, s :: r in sent && s in sent && r.attempt == s.attempt ==> r == s)
  }

  ghost predicate Answered(a: nat, sent: set<Request>, ledger: set<string>) {
    exists r :: r in sent && r.attempt == a && r.payload.batchId in ledger
  }

  ghost predicate RepliesOk(answered: set<nat>, sent: set<Request>, ledger: set<string>) {
    forall a :: a in answered ==> Answered(a, sent, ledger)
  }

  /** What the forwarder thread holds is the oldest unacknowledged batch. */
  ghost predicate ForwarderOk(f: Forwarder, appended: seq<Filed>, acked: nat, sent: set<Request>, accepted: nat) {
    match f
    case Ready => true
    case Holding(n, payload) => acked < |appended| && appended[acked] == Filed(n, payload)
    case Waiting(n, payload, a) => acked < |appended| && appended[acked] == Filed(n, payload) && Request(a, payload) in sent
    case Confirmed(n) => acked < |appended| && appended[acked].n == n && acked < accepted
  }

  ghost predicate Inv(site: Site, w: World) {
    && NumbersOk(w.issued, w.appended, w.disk.counter)
    && IdsOk(site, w.appended)
    && QueueOk(w.disk.batches, w.appended, w.acked)
    && Consistent(site.endpoint, w.upstream)
    && LogOk(w.upstream.log, w.appended, w.acked)
    && WireOk(w.sent, w.attempts, w.appended, w.acked)
    && RepliesOk(w.answered, w.sent, w.upstream.ledger)
    && (w.process.Some? ==>
          && ProducerOk(w.process.value.next, w.process.value.producer, w.disk.counter, w.issued, w.appended)
          && ForwarderOk(w.process.value.forwarder, w.appended, w.acked, w.sent, |w.upstream.log|))
  }

  lemma BatchIdInjective(site: Site, m: nat, n: nat)
    requires BatchId(site, m) == BatchId(site, n)
    ensures m == n
  {
    GloballyUnique(site, site, m, n);
  }

  /** The last '-' splits a batch id: no two gateways and no two numbers share one. */
  lemma GloballyUnique(here: Site, there: Site, m: nat, n: nat)
    requires BatchId(here, m) == BatchId(there, n)
    ensures here.gateway == there.gateway && m == n
  {
    var g, h := |here.gateway|, |there.gateway|;
    assert BatchId(here, m)[g] == '-' && BatchId(there, n)[h] == '-';
    if g < h { DigitsAfter(here, m, h); }
    if h < g { DigitsAfter(there, n, g); }
    assert here.gateway == BatchId(here, m)[..g] && there.gateway == BatchId(there, n)[..h];
    assert Padded(m) == BatchId(here, m)[g + 1..] && Padded(n) == BatchId(there, n)[h + 1..];
    PaddedInjective(m, n);
  }

  lemma DigitsAfter(site: Site, n: nat, k: nat)
    requires |site.gateway| < k < |BatchId(site, n)|
    ensures BatchId(site, n)[k] != '-'
  {
    assert BatchId(site, n)[k] == Padded(n)[k - |site.gateway| - 1];
  }

  /** Batches filed at different positions have different ids. */
  lemma FiledIdsDistinct(site: Site, appended: seq<Filed>, i: nat, j: nat)
    requires IdsOk(site, appended) && i < |appended| && j < |appended|
    requires forall i, j :: 0 <= i < j < |appended| ==> appended[i].n < appended[j].n
    requires appended[i].payload.batchId == appended[j].payload.batchId
    ensures i == j
  {
    BatchIdInjective(site, appended[i].n, appended[j].n);
  }

  // ---- appending -------------------------------------------------------------------------

  lemma PersistKeepsNumbers(w: World, v: World)
    requires Persist(w, v) && NumbersOk(w.issued, w.appended, w.disk.counter)
    requires ProducerOk(w.process.value.next, w.process.value.producer, w.disk.counter, w.issued, w.appended)
    ensures NumbersOk(v.issued, v.appended, v.disk.counter)
    ensures ProducerOk(v.process.value.next, v.process.value.producer, v.disk.counter, v.issued, v.appended)
  {
    var n := w.process.value.producer.n;
    assert v.issued[|w.issued|] == n;
    forall i | 0 <= i < |v.appended| ensures v.appended[i].n in v.issued && v.appended[i].n < n {
      assert w.appended[i].n in w.issued;
    }
  }

  lemma AppendKeepsQueue(batches: map<nat, Payload>, appended: seq<Filed>, acked: nat, f: Filed)
    requires QueueOk(batches, appended, acked) && forall i :: 0 <= i < |appended| ==> appended[i].n < f.n
    ensures QueueOk(batches[f.n := f.payload], appended + [f], acked)
  {
    var more, b := appended + [f], batches[f.n := f.payload];
    assert more[|appended|] == f;
    forall n | n in b ensures exists i :: acked <= i < |more| && more[i].n == n {
      if n != f.n {
        var i :| acked <= i < |appended| && appended[i].n == n;
        assert more[i].n == n;
      }
    }
  }

  lemma AppendKeepsWire(sent: set<Request>, attempts: nat, appended: seq<Filed>, acked: nat, f: Filed)
    requires WireOk(sent, attempts, appended, acked)
    ensures WireOk(sent, attempts, appended + [f], acked)
  {
    forall r | r in sent ensures MayArrive(r.payload, appended + [f], acked) {
      var i :| 0 <= i < |appended| && i <= acked && appended[i].payload == r.payload;
      assert (appended + [f])[i].payload == r.payload;
    }
  }

  lemma AppendKeepsInv(site: Site, w: World, v: World, readings: seq<Json>)
    requires Inv(site, w) && Append(site, w, v, readings)
    ensures Inv(site, v)
  {
    hide QueueOk, WireOk, RepliesOk, Consistent, Oldest;
    var f := Filed(w.process.value.producer.n, NewPayload(site, w.process.value.producer.n, readings));
    AppendKeepsQueue(w.disk.batches, w.appended, w.acked, f);
    AppendKeepsWire(w.sent, w.attempts, w.appended, w.acked, f);
    assert forall i :: 0 <= i < |w.appended| ==> v.appended[i] == w.appended[i];
  }

  // ---- forwarding ------------------------------------------------------------------------

  /** The oldest pending batch is the one after the acknowledged ones. */
  lemma PeekedIsNext(disk: Disk, appended: seq<Filed>, acked: nat, n: nat, payload: Payload)
    requires forall i, j :: 0 <= i < j < |appended| ==> appended[i].n < appended[j].n
    requires QueueOk(disk.batches, appended, acked) && Oldest(disk, n, payload)
    ensures acked < |appended| && appended[acked] == Filed(n, payload)
  {
    var i :| acked <= i < |appended| && appended[i].n == n;
    assert appended[acked].n in disk.batches;
  }

  lemma SendKeepsWire(w: World, v: World)
    requires WireOk(w.sent, w.attempts, w.appended, w.acked) && Send(w, v)
    requires ForwarderOk(w.process.value.forwarder, w.appended, w.acked, w.sent, |w.upstream.log|)
    ensures WireOk(v.sent, v.attempts, v.appended, v.acked)
  {
    assert w.appended[w.acked].payload == w.process.value.forwarder.payload;
  }

  lemma RepliesGrow(answered: set<nat>, sent: set<Request>, ledger: set<string>, sent': set<Request>, ledger': set<string>)
    requires RepliesOk(answered, sent, ledger) && sent <= sent' && ledger <= ledger'
    ensures RepliesOk(answered, sent', ledger')
  {
    forall a | a in answered ensures Answered(a, sent', ledger') {
      var r :| r in sent && r.attempt == a && r.payload.batchId in ledger;
      assert r in sent' && r.payload.batchId in ledger';
    }
  }

  lemma SendKeepsInv(site: Site, w: World, v: World)
    requires Inv(site, w) && Send(w, v)
    ensures Inv(site, v)
  {
    SendKeepsWire(w, v);
    RepliesGrow(w.answered, w.sent, w.upstream.ledger, v.sent, v.upstream.ledger);
  }

  /** The upstream either knows the arriving batch or it is the next one to accept. */
  lemma ArrivalExtendsLog(log: seq<Payload>, appended: seq<Filed>, acked: nat, payload: Payload)
    requires LogOk(log, appended, acked) && MayArrive(payload, appended, acked)
    ensures HasId(log, payload.batchId) || LogOk(log + [payload], appended, acked)
  {
    var i :| 0 <= i < |appended| && i <= acked && appended[i].payload == payload;
    if i < |log| { assert log[i].batchId == payload.batchId; }
  }

  lemma DeliverKeepsInv(site: Site, w: World, v: World, r: Request, who: Entry)
    requires Inv(site, w) && Deliver(site, w, v, r, who)
    ensures Inv(site, v)
  {
    IngestConsistent(site.endpoint, w.upstream, r.payload, who);
    ArrivalExtendsLog(w.upstream.log, w.appended, w.acked, r.payload);
    RepliesGrow(w.answered, w.sent, w.upstream.ledger, v.sent, v.upstream.ledger);
    if Accepts(site.endpoint, r.payload) { assert Answered(r.attempt, v.sent, v.upstream.ledger); }
  }

  /** A 200 reply to the current attempt proves that the held batch is in the log. */
  lemma ReplyMeansAccepted(site: Site, w: World)
    requires Inv(site, w) && w.process.Some? && w.process.value.forwarder.Waiting?
    requires w.process.value.forwarder.attempt in w.answered
    ensures w.acked < |w.upstream.log|
  {
    hide TrailTells, QueueOk, ProducerOk, BatchId;
    var f := w.process.value.forwarder;
    assert Answered(f.attempt, w.sent, w.upstream.ledger);
    var r :| r in w.sent && r.attempt == f.attempt && r.payload.batchId in w.upstream.ledger;
    assert r == Request(f.attempt, f.payload);
    var j :| 0 <= j < |w.upstream.log| && w.upstream.log[j].batchId == r.payload.batchId;
    FiledIdsDistinct(site, w.appended, w.acked, j);
  }

  lemma AckKeepsQueue(batches: map<nat, Payload>, appended: seq<Filed>, acked: nat)
    requires QueueOk(batches, appended, acked) && acked < |appended|
    requires forall i, j :: 0 <= i < j < |appended| ==> appended[i].n < appended[j].n
    ensures QueueOk(batches - {appended[acked].n}, appended, acked + 1)
  {
    var b := batches - {appended[acked].n};
    forall n | n in b ensures exists i :: acked + 1 <= i < |appended| && appended[i].n == n {
      var i :| acked <= i < |appended| && appended[i].n == n;
    }
  }

  lemma AckKeepsWire(sent: set<Request>, attempts: nat, appended: seq<Filed>, acked: nat)
    requires WireOk(sent, attempts, appended, acked)
    ensures WireOk(sent, attempts, appended, acked + 1)
  {
    forall r | r in sent ensures MayArrive(r.payload, appended, acked + 1) {
      var i :| 0 <= i < |appended| && i <= acked && appended[i].payload == r.payload;
    }
  }

  lemma AckKeepsInv(site: Site, w: World, v: World)
    requires Inv(site, w) && Ack(w, v)
    ensures Inv(site, v)
  {
    AckKeepsQueue(w.disk.batches, w.appended, w.acked);
    AckKeepsWire(w.sent, w.attempts, w.appended, w.acked);
  }

  // ---- lifecycle -------------------------------------------------------------------------

  /** With the counter file intact a restart resumes at the counter itself. */
  lemma ResumesAtCounter(w: World, n: nat)
    requires NumbersOk(w.issued, w.appended, w.disk.counter) && QueueOk(w.disk.batches, w.appended, w.acked)
    requires ResumesAt(w.disk, n)
    ensures n == w.disk.counter
  {
    if n - 1 in w.disk.batches {
      var i :| w.acked <= i < |w.appended| && w.appended[i].n == n - 1;
      assert w.appended[i].n in w.issued;
    }
  }

  lemma PersistKeepsInv(site: Site, w: World, v: World)
    requires Inv(site, w) && Persist(w, v)
    ensures Inv(site, v)
  {
    PersistKeepsNumbers(w, v);
  }

  lemma PeekKeepsInv(site: Site, w: World, v: World, n: nat, payload: Payload)
    requires Inv(site, w) && Peek(w, v, n, payload)
    ensures Inv(site, v)
  {
    PeekedIsNext(w.disk, w.appended, w.acked, n, payload);
  }

  lemma RestartKeepsInv(site: Site, w: World, v: World, n: nat)
    requires Inv(site, w) && Restart(w, v, n)
    ensures Inv(site, v)
  {
    ResumesAtCounter(w, n);
  }

  lemma UnrelatedKeepsInv(site: Site, w: World, v: World, e: Event)
    requires Inv(site, w) && Unrelated(site, w, v, e)
    ensures Inv(site, v)
  {
    AuditKeepsTrail(site.endpoint.digest, w.upstream.trail, e);
    AuditAdds(site.endpoint, w.upstream.trail, e);
  }

  /** Every step keeps the invariant. */
  lemma StepKeepsInv(site: Site, w: World, v: World)
    requires Inv(site, w) && Step(site, w, v)
    ensures Inv(site, v)
  {
    if exists r, who :: Deliver(site, w, v, r, who) {
      var r, who :| Deliver(site, w, v, r, who);
      DeliverKeepsInv(site, w, v, r, who);
    } else if exists e :: Unrelated(site, w, v, e) {
      var e :| Unrelated(site, w, v, e);
      UnrelatedKeepsInv(site, w, v, e);
    } else if exists readings :: Append(site, w, v, readings) {
      var readings :| Append(site, w, v, readings);
      AppendKeepsInv(site, w, v, readings);
    } else if exists n: nat, payload :: Peek(w, v, n, payload) {
      var n: nat, payload :| Peek(w, v, n, payload);
      PeekKeepsInv(site, w, v, n, payload);
    } else if exists n: nat :: Restart(w, v, n) {
      var n: nat :| Restart(w, v, n);
      RestartKeepsInv(site, w, v, n);
    } else {
      if Persist(w, v) { PersistKeepsInv(site, w, v); }
      if Send(w, v) { SendKeepsInv(site, w, v); }
      if ReceiveOk(w, v) { ReplyMeansAccepted(site, w); }
      if Ack(w, v) { AckKeepsInv(site, w, v); }
    }
  }

  lemma {:induction false} RunKeepsInv(site: Site, ws: seq<World>)
    requires Run(site, ws)
    ensures Inv(site, ws[|ws| - 1])
  {
    if |ws| > 1 {
      var k := |ws| - 1;
      assert Continues(site, ws);
      RunKeepsInv(site, ws[..k]);
      StepKeepsInv(site, ws[k - 1], ws[k]);
    }
  }
}
