/** Where delivery ends: the batches the endpoint refuses and the numbers a lost counter repeats, each
    with a run that gets there. */
module DeliveryLimits {
  import opened Decimal
  import opened Json
  import opened SpoolFiles
  import opened Spools
  import opened Ingest
  import opened StoreForward
  import opened Delivery
  import opened Gateways

  // ---- refused batches -----------------------------------------------------------------------

  lemma StepGrows(site: Site, w: World, v: World)
    requires Step(site, w, v)
    ensures w.appended <= v.appended
  {
    hide Ingested, Oldest, ResumesAt, Audit;
  }

  lemma {:induction false} HistoryGrows(site: Site, ws: seq<World>, vs: seq<World>)
    requires ws != [] && ws <= vs && Run(site, vs)
    ensures ws[|ws| - 1].appended <= vs[|vs| - 1].appended
  {
    if |ws| < |vs| {
      var k := |vs| - 1;
      assert Continues(site, vs);
      HistoryGrows(site, ws, vs[..k]);
      StepGrows(site, vs[k - 1], vs[k]);
    }
  }

  /** A batch the endpoint refuses is never acknowledged, nor is any batch behind it, however the run
      goes on: the queue stands still for good. */
  lemma RefusedBlocksForGood(site: Site, ws: seq<World>, vs: seq<World>, i: nat)
    requires ws != [] && ws <= vs && Run(site, vs)
    requires i < |ws[|ws| - 1].appended| && !Accepts(site.endpoint, ws[|ws| - 1].appended[i].payload)
    ensures var v := vs[|vs| - 1]; v.acked <= i && |v.upstream.log| <= i
  {
    HistoryGrows(site, ws, vs);
    RunKeepsInv(site, vs);
    var v := vs[|vs| - 1];
    assert forall k :: 0 <= k < |v.upstream.log| ==> v.upstream.log[k] == v.appended[k].payload;
  }

  /** Number n of this gateway is accepted exactly when its id fits and its readings are well formed. */
  lemma AcceptedExactly(site: Site, n: nat, readings: seq<Json>)
    requires n < SEQ_LIMIT
    ensures Accepts(site.endpoint, NewPayload(site, n, readings)) <==>
      |site.gateway| + 1 + SEQ_WIDTH <= ID_LIMIT && WellFormed(site.endpoint.schema, readings)
  {
    PaddedWidth(n);
  }

  /** For readings such as the generator builds, recovery completes exactly when nothing is pending or
      the gateway id leaves room for the number. */
  lemma RecoveryOfWellFormed(site: Site, ws: seq<World>)
    requires Run(site, ws)
    requires var w := ws[|ws| - 1];
      forall i :: w.acked <= i < |w.appended| ==>
        w.appended[i].n < SEQ_LIMIT && WellFormed(site.endpoint.schema, w.appended[i].payload.readings)
    ensures var w := ws[|ws| - 1];
      (exists vs :: Completes(site, ws, vs)) <==> w.acked == |w.appended| || |site.gateway| + 1 + SEQ_WIDTH <= ID_LIMIT
  {
    var w := ws[|ws| - 1];
    RecoveryCompletes(site, ws);
    RunKeepsInv(site, ws);
    forall i | w.acked <= i < |w.appended|
      ensures Accepts(site.endpoint, w.appended[i].payload) <==> |site.gateway| + 1 + SEQ_WIDTH <= ID_LIMIT
    {
      AcceptedExactly(site, w.appended[i].n, w.appended[i].payload.readings);
      assert w.appended[i].payload.batchId == BatchId(site, w.appended[i].n);
    }
    assert w.acked < |w.appended| ==> (AllAcceptable(site, w) ==> Accepts(site.endpoint, w.appended[w.acked].payload));
  }

  /** Such runs exist: whatever the readings, a gateway id of 188 characters or more blocks the first
      batch, and no continuation delivers it. */
  lemma LongGatewayIdBlocks(site: Site, readings: seq<Json>) returns (ws: seq<World>)
    requires |site.gateway| + 1 + SEQ_WIDTH > ID_LIMIT
    ensures Run(site, ws) && ws[|ws| - 1].appended == [Filed(0, NewPayload(site, 0, readings))]
    ensures !exists vs :: Completes(site, ws, vs)
  {
    var start := FirstStart(site);
    ws := Produced(site, start, readings);
    AcceptedExactly(site, 0, readings);
    RecoveryCompletes(site, ws);
    assert ws[|ws| - 1].appended[0].payload == NewPayload(site, 0, readings);
  }

  // ---- repeated numbers ------------------------------------------------------------------------

  /** The upstream knows exactly the numbers of the batches it accepted. */
  lemma KnownNumbers(site: Site, ws: seq<World>, m: nat)
    requires Run(site, ws)
    ensures var w := ws[|ws| - 1];
      && |w.upstream.log| <= |w.appended|
      && (BatchId(site, m) in w.upstream.ledger <==> exists i :: 0 <= i < |w.upstream.log| && w.appended[i].n == m)
  {
    hide NumbersOk, QueueOk, WireOk, RepliesOk, ProducerOk, ForwarderOk, BatchId;
    RunKeepsInv(site, ws);
    LedgerNumbers(site, ws[|ws| - 1], m);
  }

  lemma LedgerNumbers(site: Site, w: World, m: nat)
    requires IdsOk(site, w.appended) && LogOk(w.upstream.log, w.appended, w.acked)
    requires BatchId(site, m) in w.upstream.ledger <==> HasId(w.upstream.log, BatchId(site, m))
    ensures BatchId(site, m) in w.upstream.ledger <==> exists i :: 0 <= i < |w.upstream.log| && w.appended[i].n == m
  {
    hide BatchId;
    if HasId(w.upstream.log, BatchId(site, m)) {
      var i :| 0 <= i < |w.upstream.log| && w.upstream.log[i].batchId == BatchId(site, m);
      BatchIdInjective(site, w.appended[i].n, m);
    }
    if i :| 0 <= i < |w.upstream.log| && w.appended[i].n == m {
      assert w.upstream.log[i].batchId == BatchId(site, m);
    }
  }

  /** When the counter file is lost and numbering resumes at n, a batch filed under n is dropped upstream
      exactly when nothing is pending, something was appended, and its first number was 0. */
  lemma LostCounterLoses(site: Site, ws: seq<World>, n: nat)
    requires Run(site, ws) && ResumesAt(Disk(0, ws[|ws| - 1].disk.batches), n)
    ensures var w := ws[|ws| - 1];
      BatchId(site, n) in w.upstream.ledger <==>
        w.acked == |w.appended| && w.appended != [] && w.appended[0].n == 0
  {
    var w := ws[|ws| - 1];
    KnownNumbers(site, ws, n);
    assert NumbersOk(w.issued, w.appended, w.disk.counter) && QueueOk(w.disk.batches, w.appended, w.acked)
      && LogOk(w.upstream.log, w.appended, w.acked) by {
      RunKeepsInv(site, ws);
    }
    if w.acked < |w.appended| {
      assert w.appended[|w.appended| - 1].n in w.disk.batches;
    } else {
      assert w.disk.batches.Keys == {};
      assert n == 0;
    }
  }

  /** A number can be repeated and its batch still be kept: number 1 was reserved, but its batch was
      never written. */
  lemma RepeatedButKept(site: Site, readings: seq<Json>) returns (ws: seq<World>)
    ensures Run(site, ws)
    ensures var w := ws[|ws| - 1];
      && w.issued == [0, 1] && ResumesAt(Disk(0, w.disk.batches), 1)
      && BatchId(site, 1) !in w.upstream.ledger
  {
    ws := FirstStart(site);
    ws := Produced(site, ws, readings);
    ws := Skipped(site, ws, true);
    assert ws[|ws| - 1].disk.batches == map[0 := NewPayload(site, 0, readings)];
    KnownNumbers(site, ws, 1);
  }

  /** A run after which a lost counter file makes the gateway hand out number 0 a second time; the
      batch filed under it then changes nothing upstream. */
  lemma LostCounterRepeats(site: Site, first: seq<Json>, second: seq<Json>, who: Entry) returns (ws: seq<World>)
    requires Accepts(site.endpoint, NewPayload(site, 0, first))
    ensures Run(site, ws)
    ensures var w := ws[|ws| - 1];
      && w.issued == [0] && w.acked == 1 && w.upstream.log == [NewPayload(site, 0, first)]
      && ResumesAt(Disk(0, w.disk.batches), 0)
      && Ingested(site.endpoint, w.upstream, NewPayload(site, 0, second), who) == w.upstream
  {
    var payload := NewPayload(site, 0, first);
    ws := FirstStart(site);
    ws := Produced(site, ws, first);
    assert ws[|ws| - 1].disk.batches == map[0 := payload];
    ws := SendNext(site, ws, Filed(0, payload));
    ws := DeliverSent(site, ws, Request(0, payload), who);
    ws := Confirm(site, ws);
    assert ws[|ws| - 1].disk.batches == map[];
    ReusedNumberIsDropped(site, ws, 0, second, who);
  }
}
