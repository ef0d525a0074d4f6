/** The upstream ingest path: idempotent on batch_id, one audit event per new batch. */
module Ingest {
  import opened Json
  import opened Options
  import opened HashChain
  import opened AuditChain
  import opened SpoolFiles

  /** The telemetry store, the idempotency ledger, the audit trail, and the order of acceptance. */
  datatype Upstream = Upstream(ledger: set<string>, telemetry: seq<Json>, trail: seq<Event>, log: seq<Payload>)

  /** Field(min_length=1, max_length=200) of the request. */
  const ID_LIMIT: nat := 200

  /** Parsing one reading: what is then stored, or None where validation refuses it. */
  type Schema = Json -> Option<Json>

  datatype Endpoint = Endpoint(digest: Digest, schema: Schema)

  predicate WellFormed(schema: Schema, readings: seq<Json>) {
    readings != [] && forall i :: 0 <= i < |readings| ==> schema(readings[i]).Some?
  }

  /** A batch that is not refused with a 422. */
  predicate Accepts(at: Endpoint, p: Payload) {
    1 <= |p.batchId| <= ID_LIMIT && WellFormed(at.schema, p.readings)
  }

  /** A batch is refused for an empty or overlong id, for having no readings, or for a malformed one. */
  lemma RefusedExactly(at: Endpoint, p: Payload)
    ensures !Accepts(at, p) <==>
      || p.batchId == "" || |p.batchId| > 200 || p.readings == []
      || exists i :: 0 <= i < |p.readings| && at.schema(p.readings[i]) == None
  {}

  /** The readings as parsed. */
  function Parsed(schema: Schema, readings: seq<Json>): seq<Json> {
    if readings == [] then [] else
      var n := |readings| - 1;
      Parsed(schema, readings[..n]) + match schema(readings[n]) { case Some(v) => [v] case None => [] }
  }

  function ToItems(s: seq<Json>): Items {
    if s == [] then Stop else Item(s[0], ToItems(s[1..]))
  }

  /** What an audit event is given: a fresh id, the time, and the authenticated identity. */
  datatype Entry = Entry(id: Json, ts: Json, actor: Json)

  function IngestEvent(at: Endpoint, p: Payload, who: Entry): Event {
    var readings := Parsed(at.schema, p.readings);
    var content := Dict(
      [Key("batch_id"), Key("reading_count"), Key("digest"), Key("source")],
      [Text(Key(p.batchId)), Int(|readings|), Text(Key(at.digest(Canonical(Arr(ToItems(readings)))))), Text(Key(p.source))]);
    Event(who.id, who.ts, Text(Key("telemetry.ingested")), who.actor, Text(Key(p.batchId)), Obj(content), None, None)
  }

  /** Store.audit: link the event to the chain head and append it. */
  function Audit(digest: Digest, trail: seq<Event>, e: Event): seq<Event> {
    var prev := Head(AsLinks(trail));
    trail + [e.(prevHash := Some(prev), hash := Some(ComputeHash(digest, prev, e)))]
  }

  /** A refused batch and a known batch_id change nothing. */
  function Ingested(at: Endpoint, up: Upstream, p: Payload, who: Entry): Upstream {
    if !Accepts(at, p) || p.batchId in up.ledger then up
    else Upstream(up.ledger + {p.batchId}, up.telemetry + Parsed(at.schema, p.readings),
                  Audit(at.digest, up.trail, IngestEvent(at, p, who)), up.log + [p])
  }

  lemma AuditKeepsTrail(digest: Digest, trail: seq<Event>, e: Event)
    requires Accepted(digest, AsLinks(trail))
    ensures Accepted(digest, AsLinks(Audit(digest, trail, e)))
  {
    AppendKeepsAccepted(digest, AsLinks(trail), HashedText(e));
    var prev := Head(AsLinks(trail));
    var linked := e.(prevHash := Some(prev), hash := Some(ComputeHash(digest, prev, e)));
    assert Core(linked) == Core(e);
    assert AsLinks(Audit(digest, trail, e)) == AsLinks(trail) + [Linked(digest, HashedText(e), prev)];
  }

  function Readings(schema: Schema, log: seq<Payload>): seq<Json> {
    if log == [] then [] else Readings(schema, log[..|log| - 1]) + Parsed(schema, log[|log| - 1].readings)
  }

  // ---- the trail tells of the log --------------------------------------------------------------

  /** An event of this endpoint: its payload names a batch. */
  predicate NamesBatch(e: Event) {
    && e.kind == Text(Key("telemetry.ingested"))
    && e.payload.Obj? && HasKey(e.payload.members, Key("batch_id"))
  }

  function BatchEvents(trail: seq<Event>): seq<Event> {
    if trail == [] then [] else
      var n := |trail| - 1;
      BatchEvents(trail[..n]) + if NamesBatch(trail[n]) then [trail[n]] else []
  }

  /** The event names the batch as its subject and carries its id, its number of readings, the digest of
      their canonical text, and its source, and nothing else. */
  predicate Tells(at: Endpoint, e: Event, p: Payload) {
    && e.kind == Text(Key("telemetry.ingested")) && e.subject == Text(Key(p.batchId))
    && Meaning(e.payload) == VObj(map[
         Key("batch_id") := VText(Key(p.batchId)),
         Key("reading_count") := VInt(|p.readings|),
         Key("digest") := VText(Key(at.digest(Canonical(Arr(ToItems(Parsed(at.schema, p.readings))))))),
         Key("source") := VText(Key(p.source))])
  }

  /** One event for every accepted batch, in the order of acceptance. */
  ghost predicate TrailTells(at: Endpoint, trail: seq<Event>, log: seq<Payload>) {
    && |BatchEvents(trail)| == |log|
    && forall i :: 0 <= i < |log| ==> Tells(at, BatchEvents(trail)[i], log[i])
  }

  lemma {:induction false} AllParsed(schema: Schema, readings: seq<Json>)
    requires forall i :: 0 <= i < |readings| ==> schema(readings[i]).Some?
    ensures |Parsed(schema, readings)| == |readings|
    ensures forall i :: 0 <= i < |readings| ==> Parsed(schema, readings)[i] == schema(readings[i]).value
  {
    if readings != [] { AllParsed(schema, readings[..|readings| - 1]); }
  }

  /** The array that is digested lists the readings, in order. */
  lemma {:induction false} ItemsMean(s: seq<Json>)
    ensures |ItemsMeaning(ToItems(s))| == |s| && forall i :: 0 <= i < |s| ==> ItemsMeaning(ToItems(s))[i] == Meaning(s[i])
  {
    if s != [] { ItemsMean(s[1..]); }
  }

  lemma FourNames()
    ensures Distinct([Key("batch_id"), Key("reading_count"), Key("digest"), Key("source")])
  {
    var k := [Key("batch_id"), Key("reading_count"), Key("digest"), Key("source")];
    assert k[0][0] == 98 && k[1][0] == 114 && k[2][0] == 100 && k[3][0] == 115;
  }

  lemma EventTells(at: Endpoint, p: Payload, who: Entry)
    requires Accepts(at, p)
    ensures NamesBatch(IngestEvent(at, p, who)) && Tells(at, IngestEvent(at, p, who), p)
  {
    hide Canonical;
    var e := IngestEvent(at, p, who);
    var readings := Parsed(at.schema, p.readings);
    AllParsed(at.schema, p.readings);
    FourNames();
    var keys := [Key("batch_id"), Key("reading_count"), Key("digest"), Key("source")];
    var values := [Text(Key(p.batchId)), Int(|readings|), Text(Key(at.digest(Canonical(Arr(ToItems(readings)))))), Text(Key(p.source))];
    assert e.payload == Obj(Dict(keys, values));
    DictKeys(keys, values);
    DictValue(keys, values, 0);
    DictValue(keys, values, 1);
    DictValue(keys, values, 2);
    DictValue(keys, values, 3);
    assert keys[0] in keys;
    var f := Fields(Dict(keys, values));
    assert f == map[keys[0] := f[keys[0]], keys[1] := f[keys[1]], keys[2] := f[keys[2]], keys[3] := f[keys[3]]];
  }

  /** Linking an event into the trail changes neither what it tells nor the events before it. */
  lemma AuditAdds(at: Endpoint, trail: seq<Event>, e: Event)
    ensures !NamesBatch(e) ==> BatchEvents(Audit(at.digest, trail, e)) == BatchEvents(trail)
    ensures NamesBatch(e) ==>
      var more := BatchEvents(Audit(at.digest, trail, e));
      && |more| == |BatchEvents(trail)| + 1 && more[..|more| - 1] == BatchEvents(trail)
      && forall p :: Tells(at, e, p) ==> Tells(at, more[|more| - 1], p)
  {
    var after := Audit(at.digest, trail, e);
    assert after[..|trail|] == trail;
  }

  /** What is appended is the event itself, with nothing changed but its two hashes. */
  lemma AuditKeepsEvent(digest: Digest, trail: seq<Event>, e: Event)
    ensures var after := Audit(digest, trail, e);
      && |after| == |trail| + 1 && after[..|trail|] == trail
      && after[|trail|].(prevHash := e.prevHash, hash := e.hash) == e
  {}

  /** The event bears the id, time and actor it was given. */
  lemma EventBears(at: Endpoint, p: Payload, who: Entry)
    ensures var e := IngestEvent(at, p, who); e.id == who.id && e.ts == who.ts && e.actor == who.actor
  {}

  ghost predicate HasId(log: seq<Payload>, id: string) {
    exists i :: 0 <= i < |log| && log[i].batchId == id
  }

  /** The ledger, the store and the trail all tell of exactly the logged batches. */
  ghost predicate Consistent(at: Endpoint, up: Upstream) {
    && (forall id :: id in up.ledger <==> HasId(up.log, id))
    && up.telemetry == Readings(at.schema, up.log)
    && Accepted(at.digest, AsLinks(up.trail))
    && TrailTells(at, up.trail, up.log)
    && (forall i, j :: 0 <= i < j < |up.log| ==> up.log[i].batchId != up.log[j].batchId)
    && (forall i :: 0 <= i < |up.log| ==> Accepts(at, up.log[i]))
  }

  lemma LedgerGrows(ledger: set<string>, log: seq<Payload>, p: Payload)
    requires (forall id :: id in ledger <==> HasId(log, id)) && p.batchId !in ledger
    ensures forall id :: id in ledger + {p.batchId} <==> HasId(log + [p], id)
    ensures forall i :: 0 <= i < |log| ==> log[i].batchId != p.batchId
  {
    var more := log + [p];
    forall x ensures x in ledger + {p.batchId} <==> HasId(more, x) {
      if HasId(log, x) {
        var i :| 0 <= i < |log| && log[i].batchId == x;
        assert more[i].batchId == x;
      }
      assert more[|log|].batchId == p.batchId;
    }
    forall i | 0 <= i < |log| ensures log[i].batchId != p.batchId { assert HasId(log, log[i].batchId); }
  }

  lemma TrailGrows(at: Endpoint, trail: seq<Event>, log: seq<Payload>, p: Payload, e: Event)
    requires TrailTells(at, trail, log) && NamesBatch(e) && Tells(at, e, p)
    ensures TrailTells(at, Audit(at.digest, trail, e), log + [p])
  {
    hide Tells, NamesBatch, Audit, BatchEvents;
    AuditAdds(at, trail, e);
    var before, after := BatchEvents(trail), BatchEvents(Audit(at.digest, trail, e));
    assert forall i :: 0 <= i < |log| ==> after[i] == before[i];
  }

  lemma IngestConsistent(at: Endpoint, up: Upstream, p: Payload, who: Entry)
    requires Consistent(at, up)
    ensures Consistent(at, Ingested(at, up, p, who))
  {
    hide HasId, TrailTells, Tells, NamesBatch, Accepts, AsLinks, IngestEvent, Audit;
    if Accepts(at, p) && p.batchId !in up.ledger {
      var e := IngestEvent(at, p, who);
      AuditKeepsTrail(at.digest, up.trail, e);
      EventTells(at, p, who);
      TrailGrows(at, up.trail, up.log, p, e);
      LedgerGrows(up.ledger, up.log, p);
      assert (up.log + [p])[..|up.log|] == up.log;
    }
  }
}
