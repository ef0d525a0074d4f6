/** Unique decodability: the printed text determines the printed value. */
module JsonUnique {
  import opened Decimal
  import opened Json

  /** The same value up to how a str splits one UTF-16 surrogate pair. */
  predicate SameWire(v: Json, w: Json) {
    match (v, w)
    case (Text(s), Text(t)) => Utf16(s) == Utf16(t)
    case (Arr(a), Arr(b)) => SameItems(a, b)
    case (Obj(a), Obj(b)) => SameMembers(a, b)
    case _ => v == w
  }

  predicate SameItems(a: Items, b: Items) {
    match (a, b)
    case (Item(v, s), Item(w, t)) => SameWire(v, w) && SameItems(s, t)
    case _ => a == b
  }

  predicate SameMembers(a: Members, b: Members) {
    match (a, b)
    case (Member(k, v, s), Member(l, w, t)) => Utf16(k) == Utf16(l) && SameWire(v, w) && SameMembers(s, t)
    case _ => a == b
  }

  // ---- tokens ------------------------------------------------------------------

  function HexValue(c: char): int { if c <= '9' then c as int - 48 else c as int - 87 }

  lemma HexRoundTrip(d: int)
    requires 0 <= d < 16
    ensures HexValue(Hex(d)) == d
  {
    assert d < 10 ==> Hex(d) as int == 48 + d;
    assert d >= 10 ==> Hex(d) as int == 87 + d;
  }

  function UnescapeUnit(s: string): int
    requires |s| == 1 || |s| == 2 || |s| == 6
  {
    if |s| == 1 then s[0] as int
    else if |s| == 6 then 0x1000 * HexValue(s[2]) + 0x100 * HexValue(s[3]) + 16 * HexValue(s[4]) + HexValue(s[5])
    else if s[1] == 'n' then 0x0A
    else if s[1] == 'r' then 0x0D
    else if s[1] == 't' then 0x09
    else if s[1] == 'f' then 0x0C
    else if s[1] == 'b' then 0x08
    else s[1] as int
  }

  /** The length of an escape is fixed by its first two characters. */
  lemma EscapeShape(u: nat, r: string)
    requires u < 0x10000
    ensures var t := EscapeUnit(u) + r;
      && EscapeUnit(u) == t[..|EscapeUnit(u)|]
      && r == t[|EscapeUnit(u)|..]
      && |EscapeUnit(u)| == (if t[0] != '\\' then 1 else if t[1] == 'u' then 6 else 2)
  {}

  /** The escape of a code unit can be read back. */
  lemma EscapeRoundTrip(u: nat)
    requires u < 0x10000
    ensures UnescapeUnit(EscapeUnit(u)) == u
  {
    if |EscapeUnit(u)| == 6 {
      var a, b, c, d := u / 0x1000, u / 0x100 % 16, u / 16 % 16, u % 16;
      HexDigits(u);
      HexRoundTrip(a);
      HexRoundTrip(b);
      HexRoundTrip(c);
      HexRoundTrip(d);
      assert EscapeUnit(u) == ['\\', 'u', Hex(a), Hex(b), Hex(c), Hex(d)];
    }
  }

  lemma HexDigits(u: nat)
    requires u < 0x10000
    ensures 0x1000 * (u / 0x1000) + 0x100 * (u / 0x100 % 16) + 16 * (u / 16 % 16) + u % 16 == u
  {
    assert u / 0x100 == u / 16 / 16;
    assert u / 0x1000 == u / 0x100 / 16;
  }

  /** The escapes of u, the closing quote, and what follows. */
  function PutUnits(u: seq<nat>, k: string): string
    requires forall i :: 0 <= i < |u| ==> u[i] < 0x10000
  {
    if u == [] then "\"" + k else EscapeUnit(u[0]) + PutUnits(u[1..], k)
  }

  lemma {:induction false} PutUnitsIsEscape(u: seq<nat>, k: string)
    requires forall i :: 0 <= i < |u| ==> u[i] < 0x10000
    ensures EscapeUnits(u) + "\"" + k == PutUnits(u, k)
  {
    if u == [] {
      assert EscapeUnits(u) + "\"" == "\"";
    } else {
      PutUnitsIsEscape(u[1..], k);
      assert EscapeUnits(u) + "\"" + k == EscapeUnit(u[0]) + (EscapeUnits(u[1..]) + "\"" + k);
    }
  }

  lemma {:induction false} EscapedTextUnique(a: seq<nat>, b: seq<nat>, r: string, q: string)
    requires forall i :: 0 <= i < |a| ==> a[i] < 0x10000
    requires forall i :: 0 <= i < |b| ==> b[i] < 0x10000
    requires PutUnits(a, r) == PutUnits(b, q)
    ensures a == b && r == q
  {
    var x, y := PutUnits(a, r), PutUnits(b, q);
    if a == [] || b == [] {
      assert a == [] && b == [] by { assert x[0] == y[0]; }
      SameStart("\"", r, q);
    } else {
      EscapeShape(a[0], PutUnits(a[1..], r));
      EscapeShape(b[0], PutUnits(b[1..], q));
      EscapeRoundTrip(a[0]);
      EscapeRoundTrip(b[0]);
      EscapedTextUnique(a[1..], b[1..], r, q);
      assert a == [a[0]] + a[1..] && b == [b[0]] + b[1..];
    }
  }

  lemma RegroupQuote(s: string, k: string)
    ensures "\"" + s + "\"" + k == "\"" + (s + "\"" + k)
  {}

  lemma QuoteUnique(s: Str, t: Str, r: string, q: string)
    requires Quote(s) + r == Quote(t) + q
    ensures Utf16(s) == Utf16(t) && r == q
  {
    PutUnitsIsEscape(Utf16(s), r);
    PutUnitsIsEscape(Utf16(t), q);
    var a, b := PutUnits(Utf16(s), r), PutUnits(Utf16(t), q);
    RegroupQuote(EscapeUnits(Utf16(s)), r);
    RegroupQuote(EscapeUnits(Utf16(t)), q);
    SameStart("\"", a, b);
    EscapedTextUnique(Utf16(s), Utf16(t), r, q);
  }

  /** What may follow a value: nothing, or a structural character. */
  predicate Follow(r: string) { r == "" || r[0] in ",]}" }

  predicate IsNumber(v: Json) { v.Int? || v.Float? }

  lemma NumberToken(v: Json)
    requires Valid(v) && IsNumber(v)
    ensures Print(v) != "" && (IsDigit(Print(v)[0]) || Print(v)[0] in "-IN")
    ensures forall i :: 0 <= i < |Print(v)| ==> IsNumberChar(Print(v)[i])
    ensures v.Float? <==> exists i :: 0 <= i < |Print(v)| && Print(v)[i] in ".eIN"
  {}

  lemma Overlap(a: string, b: string, r: string, q: string)
    requires |a| < |b| && a + r == b + q
    ensures r != "" && r[0] == b[|a|]
  {
    assert (a + r)[|a|] == b[|a|];
  }

  lemma {:induction false} NumberRunUnique(a: string, b: string, r: string, q: string)
    requires forall i :: 0 <= i < |a| ==> IsNumberChar(a[i])
    requires forall i :: 0 <= i < |b| ==> IsNumberChar(b[i])
    requires Follow(r) && Follow(q) && a + r == b + q
    ensures a == b && r == q
  {
    if |a| < |b| { Overlap(a, b, r, q); }
    if |b| < |a| { Overlap(b, a, q, r); }
    assert a == (a + r)[..|a|] && r == (a + r)[|a|..];
    assert b == (b + q)[..|b|] && q == (b + q)[|b|..];
  }

  lemma NumberUnique(v: Json, w: Json, r: string, q: string)
    requires Valid(v) && Valid(w) && IsNumber(v) && IsNumber(w)
    requires Follow(r) && Follow(q) && Print(v) + r == Print(w) + q
    ensures v == w && r == q
  {
    NumberToken(v);
    NumberToken(w);
    NumberRunUnique(Print(v), Print(w), r, q);
    if v.Int? {
      var m, n := if v.n < 0 then -v.n else v.n, if w.n < 0 then -w.n else w.n;
      assert Numeral(m)[0] != '-' && Numeral(n)[0] != '-';
      assert v.n < 0 <==> Print(v)[0] == '-';
      assert w.n < 0 <==> Print(w)[0] == '-';
      if v.n < 0 {
        assert Numeral(m) == Print(v)[1..] && Numeral(n) == Print(w)[1..];
      }
      NumeralInjective(m, n);
    }
  }

  // ---- structure -----------------------------------------------------------------

  /** The printer with the text that follows: Put(v, k) is Print(v) + k, without regrouping. */
  function Put(v: Json, k: string): string
    decreases v, 0
  {
    match v
    case Arr(Stop) => "[" + ("]" + k)
    case Arr(Item(head, tail)) => "[" + Put(head, PutItems(tail, k))
    case Obj(End) => "{" + ("}" + k)
    case Obj(Member(key, value, rest)) => "{" + PutPair(key, value, PutMembers(rest, k))
    case _ => Print(v) + k
  }

  function PutItems(items: Items, k: string): string
    decreases items, 0
  {
    match items
    case Stop => "]" + k
    case Item(head, tail) => "," + Put(head, PutItems(tail, k))
  }

  function PutPair(key: Str, value: Json, k: string): string
    decreases value, 1
  {
    Quote(key) + (":" + Put(value, k))
  }

  function PutMembers(members: Members, k: string): string
    decreases members, 0
  {
    match members
    case End => "}" + k
    case Member(key, value, rest) => "," + PutPair(key, value, PutMembers(rest, k))
  }

  lemma {:induction false} PutIsPrint(v: Json, k: string)
    ensures Put(v, k) == Print(v) + k
    decreases v
  {
    match v
    case Arr(a) =>
      if a.Item? {
        PutItemsIsPrint(a.tail, k);
        PutIsPrint(a.head, PutItems(a.tail, k));
        Regroup("[", Print(a.head), PrintItems(a.tail), k);
      }
    case Obj(a) =>
      if a.Member? {
        PutMembersIsPrint(a.rest, k);
        PutIsPrint(a.value, PutMembers(a.rest, k));
        RegroupPair("{", Quote(a.key), Print(a.value), PrintMembers(a.rest), k);
      }
    case _ =>
  }

  lemma Regroup(s: string, a: string, b: string, k: string)
    ensures s + a + b + k == s + (a + (b + k))
  {}

  lemma RegroupPair(s: string, a: string, b: string, c: string, k: string)
    ensures s + a + ":" + b + c + k == s + (a + (":" + (b + (c + k))))
  {}

  lemma {:induction false} PutItemsIsPrint(a: Items, k: string)
    ensures PutItems(a, k) == PrintItems(a) + k
    decreases a
  {
    if a.Item? {
      PutItemsIsPrint(a.tail, k);
      PutIsPrint(a.head, PutItems(a.tail, k));
      Regroup(",", Print(a.head), PrintItems(a.tail), k);
    }
  }

  lemma {:induction false} PutMembersIsPrint(a: Members, k: string)
    ensures PutMembers(a, k) == PrintMembers(a) + k
    decreases a
  {
    if a.Member? {
      PutMembersIsPrint(a.rest, k);
      PutIsPrint(a.value, PutMembers(a.rest, k));
      RegroupPair(",", Quote(a.key), Print(a.value), PrintMembers(a.rest), k);
    }
  }

  /** The first character names the kind of value. */
  function Kind(c: char): nat {
    if c == 'n' then 0 else if c in "tf" then 1 else if c == '\"' then 2
    else if c == '[' then 3 else if c == '{' then 4 else 5
  }

  function KindOf(v: Json): nat {
    match v
    case Null => 0 case Bool(_) => 1 case Text(_) => 2 case Arr(_) => 3 case Obj(_) => 4
    case Int(_) => 5 case Float(_) => 5
  }

  lemma FirstCharacter(v: Json, k: string)
    requires Valid(v)
    ensures Put(v, k) != "" && Kind(Put(v, k)[0]) == KindOf(v) && Put(v, k)[0] !in "]}"
  {
    if IsNumber(v) { NumberToken(v); }
  }

  lemma SameStart(s: string, r: string, q: string)
    requires s + r == s + q
    ensures r == q
  {
    assert r == (s + r)[|s|..] && q == (s + q)[|s|..];
  }

  /** Two texts that begin with printed values begin with the same value. */
  lemma {:induction false} PutUnique(v: Json, w: Json, r: string, q: string)
    requires Valid(v) && Valid(w) && Follow(r) && Follow(q)
    requires Put(v, r) == Put(w, q)
    ensures SameWire(v, w) && r == q
    decreases v, 0
  {
    FirstCharacter(v, r);
    FirstCharacter(w, q);
    match v
    case Null => SameStart("null", r, q);
    case Bool(b) => SameBool(b, w.b, r, q);
    case Int(_) => NumberUnique(v, w, r, q);
    case Float(_) => NumberUnique(v, w, r, q);
    case Text(s) => QuoteUnique(s, w.s, r, q);
    case Arr(a) =>
      var b := w.items;
      var x := if a.Stop? then "]" + r else Put(a.head, PutItems(a.tail, r));
      var y := if b.Stop? then "]" + q else Put(b.head, PutItems(b.tail, q));
      SameStart("[", x, y);
      if a.Item? { FirstCharacter(a.head, PutItems(a.tail, r)); }
      if b.Item? { FirstCharacter(b.head, PutItems(b.tail, q)); }
      if a.Item? {
        PutUnique(a.head, b.head, PutItems(a.tail, r), PutItems(b.tail, q));
        ItemsUnique(a.tail, b.tail, r, q);
      } else {
        SameStart("]", r, q);
      }
    case Obj(a) =>
      var b := w.members;
      var x := if a.End? then "}" + r else PutPair(a.key, a.value, PutMembers(a.rest, r));
      var y := if b.End? then "}" + q else PutPair(b.key, b.value, PutMembers(b.rest, q));
      SameStart("{", x, y);
      assert a.Member? <==> b.Member? by { assert x[0] == y[0]; }
      if a.Member? {
        PairUnique(a.key, a.value, b.key, b.value, PutMembers(a.rest, r), PutMembers(b.rest, q));
        MembersUnique(a.rest, b.rest, r, q);
      } else {
        SameStart("}", r, q);
      }
  }

  lemma SameBool(a: bool, b: bool, r: string, q: string)
    requires Print(Bool(a)) + r == Print(Bool(b)) + q
    ensures a == b && r == q
  {
    assert (Print(Bool(a)) + r)[0] == (Print(Bool(b)) + q)[0];
    SameStart(Print(Bool(a)), r, q);
  }

  lemma {:induction false} ItemsUnique(a: Items, b: Items, r: string, q: string)
    requires ValidItems(a) && ValidItems(b) && Follow(r) && Follow(q)
    requires PutItems(a, r) == PutItems(b, q)
    ensures SameItems(a, b) && r == q
    decreases a, 0
  {
    assert PutItems(a, r)[0] == PutItems(b, q)[0];
    if a.Item? {
      SameStart(",", Put(a.head, PutItems(a.tail, r)), Put(b.head, PutItems(b.tail, q)));
      PutUnique(a.head, b.head, PutItems(a.tail, r), PutItems(b.tail, q));
      ItemsUnique(a.tail, b.tail, r, q);
    } else {
      SameStart("]", r, q);
    }
  }

  /** One `"key":value` pair. */
  lemma {:induction false} PairUnique(k: Str, v: Json, l: Str, w: Json, r: string, q: string)
    requires Valid(v) && Valid(w) && Follow(r) && Follow(q)
    requires PutPair(k, v, r) == PutPair(l, w, q)
    ensures Utf16(k) == Utf16(l) && SameWire(v, w) && r == q
    decreases v, 1
  {
    QuoteUnique(k, l, ":" + Put(v, r), ":" + Put(w, q));
    SameStart(":", Put(v, r), Put(w, q));
    PutUnique(v, w, r, q);
  }

  lemma {:induction false} MembersUnique(a: Members, b: Members, r: string, q: string)
    requires ValidMembers(a) && ValidMembers(b) && Follow(r) && Follow(q)
    requires PutMembers(a, r) == PutMembers(b, q)
    ensures SameMembers(a, b) && r == q
    decreases a, 0
  {
    assert PutMembers(a, r)[0] == PutMembers(b, q)[0];
    if a.Member? {
      var x, y := PutMembers(a.rest, r), PutMembers(b.rest, q);
      SameStart(",", PutPair(a.key, a.value, x), PutPair(b.key, b.value, y));
      PairUnique(a.key, a.value, b.key, b.value, x, y);
      MembersUnique(a.rest, b.rest, r, q);
    } else {
      SameStart("}", r, q);
    }
  }

  /** The converse: values that differ only in surrogate splitting print alike. */
  lemma {:induction false} SameWirePrintsAlike(v: Json, w: Json)
    requires SameWire(v, w)
    ensures Print(v) == Print(w)
    decreases v
  {
    match v
    case Arr(a) => if a.Item? { SameWirePrintsAlike(a.head, w.items.head); SameItemsPrintAlike(a.tail, w.items.tail); }
    case Obj(a) => if a.Member? { SameWirePrintsAlike(a.value, w.members.value); SameMembersPrintAlike(a.rest, w.members.rest); }
    case _ =>
  }

  lemma {:induction false} SameItemsPrintAlike(a: Items, b: Items)
    requires SameItems(a, b)
    ensures PrintItems(a) == PrintItems(b)
    decreases a
  {
    if a.Item? { SameWirePrintsAlike(a.head, b.head); SameItemsPrintAlike(a.tail, b.tail); }
  }

  lemma {:induction false} SameMembersPrintAlike(a: Members, b: Members)
    requires SameMembers(a, b)
    ensures PrintMembers(a) == PrintMembers(b)
    decreases a
  {
    if a.Member? { SameWirePrintsAlike(a.value, b.value); SameMembersPrintAlike(a.rest, b.rest); }
  }

  /** Printed texts coincide exactly for values equal up to UTF-16 coding of their strings. */
  lemma PrintExact(v: Json, w: Json)
    requires Valid(v) && Valid(w)
    ensures Print(v) == Print(w) <==> SameWire(v, w)
  {
    if Print(v) == Print(w) {
      PutIsPrint(v, "");
      PutIsPrint(w, "");
      PutUnique(v, w, "", "");
    }
    if SameWire(v, w) { SameWirePrintsAlike(v, w); }
  }
}
