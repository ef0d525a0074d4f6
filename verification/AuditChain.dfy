/** The tamper-evident audit trail: link_event and verify_chain over stored events. */
module AuditChain {
  import opened Json
  import opened JsonCanonical
  import opened JsonReader
  import opened HashChain
  import opened Options

  /** A stored event; a missing field reads as Null. */
  datatype Event = Event(id: Json, ts: Json, kind: Json, actor: Json, subject: Json, payload: Json,
                         prevHash: Option<string>, hash: Option<string>)

  function Key(s: string): (k: Str)
    ensures |k| == |s| && forall i :: 0 <= i < |s| ==> k[i] == s[i] as int
  {
    seq(|s|, i requires 0 <= i < |s| => s[i] as CodePoint)
  }

  const HASHED_FIELDS: seq<Str> :=
    [Key("id"), Key("ts"), Key("kind"), Key("actor"), Key("subject"), Key("payload")]

  function HashedValues(e: Event): (r: seq<Json>)
    ensures |r| == |HASHED_FIELDS|
  {
    [e.id, e.ts, e.kind, e.actor, e.subject, e.payload]
  }

  /** A dict with these keys and values, in this order. */
  function Dict(keys: seq<Str>, values: seq<Json>): Members
    requires |keys| == |values|
  {
    if keys == [] then End else Member(keys[0], values[0], Dict(keys[1..], values[1..]))
  }

  /** The dict of the hashed fields, in the order the code lists them. */
  function Core(e: Event): Json { Obj(Dict(HASHED_FIELDS, HashedValues(e))) }

  function HashedText(e: Event): string { Canonical(Core(e)) }

  function ComputeHash(digest: Digest, prev: string, e: Event): string { digest(prev + HashedText(e)) }

  function AsLink(e: Event): Link { Link(HashedText(e), e.prevHash, e.hash) }

  function AsLinks(events: seq<Event>): (r: seq<Link>)
    ensures |r| == |events|
  {
    seq(|events|, i requires 0 <= i < |events| => AsLink(events[i]))
  }

  /** link_event writes the two link fields into the stored event. */
  class StoredEvent {
    var event: Event

    constructor (e: Event)
      ensures event == e
    {
      event := e;
    }

    method LinkEvent(digest: Digest, prev: string)
      modifies this
      ensures AsLink(event) == Linked(digest, HashedText(old(event)), prev)
      ensures Core(event) == Core(old(event)) && event.id == old(event).id
    {
      event := event.(prevHash := Some(prev));
      event := event.(hash := Some(ComputeHash(digest, prev, event)));
    }
  }

  datatype Verdict =
    | Intact(count: nat, head: string)
    | Broken(brokenAt: Json, index: nat, count: nat, prevMismatch: bool)

  /** The anchor is 64 zeros. */
  lemma AnchorIsZeros()
    ensures |GENESIS| == 64 && forall i :: 0 <= i < 64 ==> GENESIS[i] == '0'
  {}

  /** Event i records the hash of the event before it, the anchor if it is the first, and the digest of
      that hash followed by its own text. */
  predicate EventHolds(digest: Digest, events: seq<Event>, i: nat)
    requires i < |events|
  {
    if i == 0 then
      && events[0].prevHash == Some(GENESIS)
      && events[0].hash == Some(digest(GENESIS + HashedText(events[0])))
    else
      && events[i - 1].hash.Some? && events[i].prevHash == events[i - 1].hash
      && events[i].hash == Some(digest(events[i - 1].hash.value + HashedText(events[i])))
  }

  lemma LinkMeans(digest: Digest, events: seq<Event>, i: nat)
    requires i < |events| && (i > 0 ==> events[i - 1].hash.Some?)
    ensures LinkHolds(digest, AsLinks(events), i) <==> EventHolds(digest, events, i)
  {
    hide HashedText, GENESIS;
    var links := AsLinks(events);
    assert links[i] == AsLink(events[i]);
    if i > 0 { assert links[..i][i - 1] == AsLink(events[i - 1]); }
  }

  /** An accepted chain is one whose every event holds. */
  lemma AcceptedMeans(digest: Digest, events: seq<Event>)
    ensures Accepted(digest, AsLinks(events)) <==> forall i :: 0 <= i < |events| ==> EventHolds(digest, events, i)
  {
    hide HashedText;
    var links := AsLinks(events);
    if Accepted(digest, links) {
      forall i | 0 <= i < |events| ensures EventHolds(digest, events, i) {
        LinkOf(digest, links, i);
        if i > 0 { LinkOf(digest, links, i - 1); }
        LinkMeans(digest, events, i);
      }
    }
    if forall i :: 0 <= i < |events| ==> EventHolds(digest, events, i) {
      forall i | 0 <= i < |events| ensures LinkHolds(digest, links, i) {
        assert EventHolds(digest, events, i);
        LinkMeans(digest, events, i);
      }
    }
  }

  /** verify_chain: accepts exactly the intact chains and otherwise names the first bad event. */
  method VerifyChain(digest: Digest, events: seq<Event>) returns (v: Verdict)
    ensures v.Intact? <==> forall i :: 0 <= i < |events| ==> EventHolds(digest, events, i)
    ensures v.Intact? <==> Accepted(digest, AsLinks(events))
    ensures v.Intact? ==> v.count == |events| && v.head == Head(AsLinks(events))
    ensures v.Broken? ==>
      && v.count == |events|
      && FirstBrokenAt(digest, AsLinks(events), v.index)
      && v.brokenAt == events[v.index].id
      && (v.prevMismatch <==> events[v.index].prevHash != Some(Head(AsLinks(events)[..v.index])))
  {
    ghost var links := AsLinks(events);
    var prev := GENESIS;
    AcceptedMeans(digest, events);
    hide EventHolds, HashedText;
    var index := 0;
    while index < |events|
      invariant index <= |events|
      invariant forall i :: 0 <= i < index ==> LinkHolds(digest, links, i)
      invariant prev == Head(links[..index])
    {
      var event := events[index];
      assert links[index] == AsLink(event);
      if event.prevHash != Some(prev) {
        assert !LinkHolds(digest, links, index);
        return Broken(event.id, index, |events|, true);
      }
      var recomputed := ComputeHash(digest, prev, event);
      if event.hash != Some(recomputed) {
        assert !LinkHolds(digest, links, index);
        return Broken(event.id, index, |events|, false);
      }
      prev := event.hash.value;
      assert links[..index + 1][index] == links[index];
      index := index + 1;
    }
    assert links[..index] == links;
    return Intact(|events|, prev);
  }

  // ---- what the chain protects --------------------------------------------------------

  /** The six hashed fields of two events mean the same. */
  predicate SameCore(d: Event, e: Event) {
    && Meaning(d.id) == Meaning(e.id) && Meaning(d.ts) == Meaning(e.ts)
    && Meaning(d.kind) == Meaning(e.kind) && Meaning(d.actor) == Meaning(e.actor)
    && Meaning(d.subject) == Meaning(e.subject) && Meaning(d.payload) == Meaning(e.payload)
  }

  /** Values Python can build, without split surrogate pairs. */
  predicate Clean(v: Json) { Valid(v) && JoinedText(v) }

  predicate CleanEvent(e: Event) {
    Clean(e.id) && Clean(e.ts) && Clean(e.kind) && Clean(e.actor) && Clean(e.subject) && Clean(e.payload)
  }

  predicate CleanChain(chain: seq<Event>) { forall i :: 0 <= i < |chain| ==> CleanEvent(chain[i]) }

  ghost predicate Distinct(keys: seq<Str>) { forall i, j :: 0 <= i < j < |keys| ==> keys[i] != keys[j] }

  lemma {:induction false} DictKeys(keys: seq<Str>, values: seq<Json>)
    requires |keys| == |values|
    ensures forall k: Str :: HasKey(Dict(keys, values), k) <==> k in keys
    ensures Fields(Dict(keys, values)).Keys == set k | k in keys
  {
    if keys != [] {
      DictKeys(keys[1..], values[1..]);
      assert keys == [keys[0]] + keys[1..];
    }
  }

  lemma TailDistinct(keys: seq<Str>)
    requires keys != [] && Distinct(keys)
    ensures Distinct(keys[1..]) && keys[0] !in keys[1..]
  {}

  lemma {:induction false} DictClean(keys: seq<Str>, values: seq<Json>)
    requires |keys| == |values| && Distinct(keys)
    requires forall i :: 0 <= i < |keys| ==> Joined(keys[i]) && Valid(values[i]) && JoinedText(values[i])
    ensures ValidMembers(Dict(keys, values)) && JoinedMembers(Dict(keys, values))
  {
    hide Valid, Joined, JoinedText, HasKey;
    if keys != [] {
      TailDistinct(keys);
      DictClean(keys[1..], values[1..]);
      DictKeys(keys[1..], values[1..]);
    }
  }

  lemma {:induction false} DictValue(keys: seq<Str>, values: seq<Json>, i: nat)
    requires |keys| == |values| && Distinct(keys) && i < |keys|
    ensures keys[i] in Fields(Dict(keys, values)) && Fields(Dict(keys, values))[keys[i]] == Meaning(values[i])
  {
    hide Meaning;
    if i > 0 {
      TailDistinct(keys);
      DictValue(keys[1..], values[1..], i - 1);
    }
  }

  lemma FieldNamesDistinct()
    ensures Distinct(HASHED_FIELDS) && forall i :: 0 <= i < |HASHED_FIELDS| ==> Joined(HASHED_FIELDS[i])
  {
    var k := HASHED_FIELDS;
    assert k[0][0] == 105 && k[1][0] == 116 && k[2][0] == 107 && k[3][0] == 97 && k[4][0] == 115 && k[5][0] == 112;
  }

  lemma CoreIsClean(e: Event)
    requires CleanEvent(e)
    ensures Valid(Core(e)) && JoinedText(Core(e))
  {
    FieldNamesDistinct();
    hide Joined, JoinedText, Valid, HASHED_FIELDS;
    forall i | 0 <= i < |HASHED_FIELDS| ensures Clean(HashedValues(e)[i]) {}
    DictClean(HASHED_FIELDS, HashedValues(e));
    DictIsObject(e);
  }

  lemma DictIsObject(e: Event)
    requires ValidMembers(Dict(HASHED_FIELDS, HashedValues(e))) && JoinedMembers(Dict(HASHED_FIELDS, HashedValues(e)))
    ensures Valid(Core(e)) && JoinedText(Core(e))
  {}

  /** What is hashed is the object of the six fields, each under its own name, and nothing else. */
  lemma CoreFields(e: Event)
    ensures Meaning(Core(e)) == VObj(map[
      Key("id") := Meaning(e.id), Key("ts") := Meaning(e.ts), Key("kind") := Meaning(e.kind),
      Key("actor") := Meaning(e.actor), Key("subject") := Meaning(e.subject), Key("payload") := Meaning(e.payload)])
  {
    hide Meaning;
    FieldNamesDistinct();
    var keys, values := HASHED_FIELDS, HashedValues(e);
    DictKeys(keys, values);
    DictValue(keys, values, 0);
    DictValue(keys, values, 1);
    DictValue(keys, values, 2);
    DictValue(keys, values, 3);
    DictValue(keys, values, 4);
    DictValue(keys, values, 5);
    ObjectMeaning(Dict(keys, values));
    var f := Fields(Dict(keys, values));
    assert f == map[keys[0] := f[keys[0]], keys[1] := f[keys[1]], keys[2] := f[keys[2]],
                    keys[3] := f[keys[3]], keys[4] := f[keys[4]], keys[5] := f[keys[5]]];
  }

  lemma ObjectMeaning(m: Members)
    ensures Meaning(Obj(m)) == VObj(Fields(m))
  {}

  /** Two events hash alike in meaning exactly when all six fields agree. */
  lemma CoreExact(d: Event, e: Event)
    ensures Meaning(Core(d)) == Meaning(Core(e)) <==> SameCore(d, e)
  {
    hide Meaning;
    CoreFields(d);
    CoreFields(e);
    FieldNamesDistinct();
    SixFields(Key("id"), Key("ts"), Key("kind"), Key("actor"), Key("subject"), Key("payload"),
      Meaning(d.id), Meaning(d.ts), Meaning(d.kind), Meaning(d.actor), Meaning(d.subject), Meaning(d.payload),
      Meaning(e.id), Meaning(e.ts), Meaning(e.kind), Meaning(e.actor), Meaning(e.subject), Meaning(e.payload));
  }

  lemma SixFields(k0: Str, k1: Str, k2: Str, k3: Str, k4: Str, k5: Str,
                  a0: Denotation, a1: Denotation, a2: Denotation, a3: Denotation, a4: Denotation, a5: Denotation,
                  b0: Denotation, b1: Denotation, b2: Denotation, b3: Denotation, b4: Denotation, b5: Denotation)
    requires Distinct([k0, k1, k2, k3, k4, k5])
    ensures map[k0 := a0, k1 := a1, k2 := a2, k3 := a3, k4 := a4, k5 := a5]
         == map[k0 := b0, k1 := b1, k2 := b2, k3 := b3, k4 := b4, k5 := b5]
       <==> a0 == b0 && a1 == b1 && a2 == b2 && a3 == b3 && a4 == b4 && a5 == b5
  {
    var ks := [k0, k1, k2, k3, k4, k5];
    var f, g := map[k0 := a0, k1 := a1, k2 := a2, k3 := a3, k4 := a4, k5 := a5], map[k0 := b0, k1 := b1, k2 := b2, k3 := b3, k4 := b4, k5 := b5];
    assert k0 == ks[0] && k1 == ks[1] && k2 == ks[2] && k3 == ks[3] && k4 == ks[4] && k5 == ks[5];
    assert f[k0] == a0 && f[k1] == a1 && f[k2] == a2 && f[k3] == a3 && f[k4] == a4 && f[k5] == a5;
    assert g[k0] == b0 && g[k1] == b1 && g[k2] == b2 && g[k3] == b3 && g[k4] == b4 && g[k5] == b5;
  }

  /** The text that is hashed is the JSON text of that object. */
  lemma HashedTextReads(e: Event)
    requires CleanEvent(e)
    ensures ReadText(HashedText(e)) == Some(VObj(map[
      Key("id") := Meaning(e.id), Key("ts") := Meaning(e.ts), Key("kind") := Meaning(e.kind),
      Key("actor") := Meaning(e.actor), Key("subject") := Meaning(e.subject), Key("payload") := Meaning(e.payload)]))
  {
    hide Meaning, ReadText, Canonical;
    CoreIsClean(e);
    CanonicalReadsBack(Core(e));
    CoreFields(e);
  }

  lemma ContentExact(d: Event, e: Event)
    requires CleanEvent(d) && CleanEvent(e)
    ensures HashedText(d) == HashedText(e) <==> SameCore(d, e)
  {
    CoreExact(d, e);
    CoreIsClean(d);
    CoreIsClean(e);
    CanonicalNamesTheValue(Core(d), Core(e));
  }

  /** Two intact trails with one head record the same events, unless SHA-256 broke on one of the
      texts hashed while verifying them. */
  lemma EqualHeadsEqualHistory(digest: Digest, xs: seq<Event>, ys: seq<Event>)
    requires IsDigest(digest) && CleanChain(xs) && CleanChain(ys)
    requires Accepted(digest, AsLinks(xs)) && Accepted(digest, AsLinks(ys))
    requires Head(AsLinks(xs)) == Head(AsLinks(ys))
    requires !DigestBroken(digest, Materials(AsLinks(xs)) + Materials(AsLinks(ys)))
    ensures |xs| == |ys| && forall i :: 0 <= i < |xs| ==> SameCore(xs[i], ys[i])
  {
    EqualHeadsEqualChains(digest, AsLinks(xs), AsLinks(ys));
    forall i | 0 <= i < |xs| ensures SameCore(xs[i], ys[i]) {
      assert AsLinks(xs)[i] == AsLinks(ys)[i];
      ContentExact(xs[i], ys[i]);
    }
  }

  /** Rewriting the fields of one stored event breaks verification at that event if and only if the
      hashed content changed in meaning. */
  lemma TamperingIsLocated(digest: Digest, events: seq<Event>, i: nat, e: Event)
    requires IsDigest(digest) && Accepted(digest, AsLinks(events)) && i < |events|
    requires CleanEvent(events[i]) && CleanEvent(e)
    requires e.prevHash == events[i].prevHash && e.hash == events[i].hash
    requires !DigestBroken(digest, {Head(AsLinks(events)[..i]) + HashedText(events[i]), Head(AsLinks(events)[..i]) + HashedText(e)})
    ensures FirstBrokenAt(digest, AsLinks(events[i := e]), i) <==> !SameCore(events[i], e)
    ensures Accepted(digest, AsLinks(events[i := e])) <==> SameCore(events[i], e)
  {
    hide HashedText, SameCore, CleanEvent, DigestBroken;
    var links := AsLinks(events);
    ContentExact(events[i], e);
    assert AsLinks(events[i := e]) == links[i := links[i].(text := HashedText(e))];
    if SameCore(events[i], e) {
      assert links[i := links[i].(text := HashedText(e))] == links;
    } else {
      AlterationIsLocated(digest, links, i, HashedText(e));
    }
  }
}
