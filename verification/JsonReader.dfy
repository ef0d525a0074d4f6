/** A reader for the compact ASCII form of JSON, after sections 3 to 7 of RFC 8259. It knows nothing of the
    printer: no white space outside strings, keys read once, every character that has a short escape
    written with it, and \u escapes, in lower case, for what is not printable ASCII and for nothing else. */
module JsonReader {
  import opened Options
  import opened Decimal
  import opened Json
  import opened JsonUnique
  import opened JsonCanonical

  // ---- strings ---------------------------------------------------------------------------------

  function HexDigit(c: char): (d: Option<nat>)
    ensures d.Some? ==> d.value < 16
  {
    if '0' <= c <= '9' then Some(c as int - '0' as int)
    else if 'a' <= c <= 'f' then Some(10 + c as int - 'a' as int)
    else None
  }

  function FourHex(s: string): (u: Option<nat>)
    requires |s| == 4
    ensures u.Some? ==> u.value < 0x10000
  {
    match (HexDigit(s[0]), HexDigit(s[1]), HexDigit(s[2]), HexDigit(s[3]))
    case (Some(a), Some(b), Some(c), Some(d)) => Some(a * 4096 + b * 256 + c * 16 + d)
    case _ => None
  }

  /** The character after a backslash, where it is a short escape. */
  function ShortEscape(c: char): (u: Option<nat>)
    ensures u.Some? ==> u.value < 0x10000
  {
    match c
    case '\"' => Some(34)
    case '\\' => Some(92)
    case 'b' => Some(8)
    case 't' => Some(9)
    case 'n' => Some(10)
    case 'f' => Some(12)
    case 'r' => Some(13)
    case _ => None
  }

  predicate NeedsNoHex(u: nat) { 32 <= u <= 126 || u in {8, 9, 10, 12, 13} }

  /** One UTF-16 code unit of a string, and the text after it. */
  function ReadUnit(s: string): (r: Option<(nat, string)>)
    ensures r.Some? ==> r.value.0 < 0x10000 && |r.value.1| < |s|
  {
    if s == "" then None
    else if s[0] != '\\' then if ' ' <= s[0] <= '~' && s[0] != '\"' then Some((s[0] as int, s[1..])) else None
    else if |s| < 2 then None
    else if s[1] != 'u' then match ShortEscape(s[1]) { case Some(u) => Some((u, s[2..])) case None => None }
    else if |s| < 6 then None
    else match FourHex(s[2..6])
      case Some(u) => if NeedsNoHex(u) then None else Some((u, s[6..]))
      case None => None
  }

  /** The units up to the closing quote. */
  function ReadUnits(s: string): (r: Option<(seq<nat>, string)>)
    ensures r.Some? ==> |r.value.1| < |s| && forall i :: 0 <= i < |r.value.0| ==> r.value.0[i] < 0x10000
    decreases |s|
  {
    if s == "" then None
    else if s[0] == '\"' then Some(([], s[1..]))
    else match ReadUnit(s)
      case None => None
      case Some((u, rest)) =>
        match ReadUnits(rest)
        case None => None
        case Some((us, after)) => Some(([u] + us, after))
  }

  predicate HighSurrogate(u: nat) { 0xD800 <= u <= 0xDBFF }

  predicate LowSurrogate(u: nat) { 0xDC00 <= u <= 0xDFFF }

  /** Surrogate pairs joined. */
  function Join(u: seq<nat>): Str
    requires forall i :: 0 <= i < |u| ==> u[i] < 0x10000
  {
    if u == [] then []
    else if |u| >= 2 && HighSurrogate(u[0]) && LowSurrogate(u[1]) then
      [0x10000 + (u[0] - 0xD800) * 1024 + (u[1] - 0xDC00)] + Join(u[2..])
    else [u[0]] + Join(u[1..])
  }

  function ReadString(s: string): (r: Option<(Str, string)>)
    ensures r.Some? ==> |r.value.1| < |s|
  {
    if s == "" || s[0] != '\"' then None
    else match ReadUnits(s[1..])
      case None => None
      case Some((u, rest)) => Some((Join(u), rest))
  }

  // ---- numbers ---------------------------------------------------------------------------------

  /** How far number characters go. */
  function NumberRun(s: string): (n: nat)
    ensures n <= |s| && forall i :: 0 <= i < n ==> IsNumberChar(s[i])
    ensures n < |s| ==> !IsNumberChar(s[n])
  {
    if s == "" || !IsNumberChar(s[0]) then 0 else 1 + NumberRun(s[1..])
  }

  /** "0", or digits without a leading zero. */
  predicate IsNatural(t: string) { t != "" && AllDigits(t) && (t[0] == '0' ==> |t| == 1) }

  function ReadNumber(t: string): Option<Denotation> {
    if IsFloatLiteral(t) then Some(VFloat(t))
    else if IsNatural(t) then Some(VInt(Value(t)))
    else if t != "" && t[0] == '-' && IsNatural(t[1..]) && t[1..] != "0" then Some(VInt(0 - Value(t[1..])))
    else None
  }

  // ---- values -----------------------------------------------------------------------------------

  predicate Starts(s: string, t: string) { |t| <= |s| && s[..|t|] == t }

  function ReadValue(s: string): (r: Option<(Denotation, string)>)
    ensures r.Some? ==> |r.value.1| < |s|
    decreases |s|, 0
  {
    if Starts(s, "null") then Some((VNull, s[4..]))
    else if Starts(s, "true") then Some((VBool(true), s[4..]))
    else if Starts(s, "false") then Some((VBool(false), s[5..]))
    else if Starts(s, "\"") then match ReadString(s) { case Some((t, rest)) => Some((VText(t), rest)) case None => None }
    else if Starts(s, "[]") then Some((VArr([]), s[2..]))
    else if Starts(s, "{}") then Some((VObj(map[]), s[2..]))
    else if Starts(s, "[") then match ReadElements(s[1..]) { case Some((vs, rest)) => Some((VArr(vs), rest)) case None => None }
    else if Starts(s, "{") then match ReadPairs(s[1..]) { case Some((m, rest)) => Some((VObj(m), rest)) case None => None }
    else
      var n := NumberRun(s);
      if n == 0 then None
      else match ReadNumber(s[..n]) { case Some(d) => Some((d, s[n..])) case None => None }
  }

  /** The elements of an array up to its closing bracket, at least one. */
  function ReadElements(s: string): (r: Option<(seq<Denotation>, string)>)
    ensures r.Some? ==> |r.value.1| < |s|
    decreases |s|, 1
  {
    match ReadValue(s)
    case None => None
    case Some((v, rest)) =>
      if Starts(rest, "]") then Some(([v], rest[1..]))
      else if Starts(rest, ",") then
        match ReadElements(rest[1..]) { case Some((vs, after)) => Some(([v] + vs, after)) case None => None }
      else None
  }

  /** The members of an object up to its closing brace, at least one, no key twice. */
  function ReadPairs(s: string): (r: Option<(map<Str, Denotation>, string)>)
    ensures r.Some? ==> |r.value.1| < |s|
    decreases |s|, 1
  {
    match ReadString(s)
    case None => None
    case Some((k, colon)) =>
      if !Starts(colon, ":") then None
      else match ReadValue(colon[1..])
        case None => None
        case Some((v, rest)) =>
          if Starts(rest, "}") then Some((map[k := v], rest[1..]))
          else if Starts(rest, ",") then
            match ReadPairs(rest[1..]) { case Some((m, after)) => if k in m then None else Some((m[k := v], after)) case None => None }
          else None
  }

  /** A whole text. */
  function ReadText(s: string): Option<Denotation> {
    match ReadValue(s) { case Some((d, rest)) => if rest == "" then Some(d) else None case None => None }
  }

  // ---- the printer writes what the reader reads -----------------------------------------------------

  lemma HexReads(d: int)
    requires 0 <= d < 16
    ensures HexDigit(Hex(d)) == Some(d)
  {}

  lemma HexUnitReads(u: nat)
    requires u < 0x10000
    ensures FourHex([Hex(u / 0x1000), Hex(u / 0x100 % 16), Hex(u / 16 % 16), Hex(u % 16)]) == Some(u)
  {
    HexDigits(u);
    HexReads(u / 0x1000);
    HexReads(u / 0x100 % 16);
    HexReads(u / 16 % 16);
    HexReads(u % 16);
  }

  lemma ReadsUnit(u: nat, k: string)
    requires u < 0x10000
    ensures ReadUnit(EscapeUnit(u) + k) == Some((u, k))
  {
    hide Hex, HexDigit, FourHex;
    var s := EscapeUnit(u) + k;
    EscapeShape(u, k);
    if |EscapeUnit(u)| == 6 {
      HexUnitReads(u);
      assert s[2..6] == [Hex(u / 0x1000), Hex(u / 0x100 % 16), Hex(u / 16 % 16), Hex(u % 16)];
      assert s[6..] == k;
    } else if |EscapeUnit(u)| == 2 {
      assert s[2..] == k;
    }
  }

  lemma {:induction false} ReadsUnits(u: seq<nat>, k: string)
    requires forall i :: 0 <= i < |u| ==> u[i] < 0x10000
    ensures ReadUnits(PutUnits(u, k)) == Some((u, k))
  {
    hide ReadUnit, EscapeUnit;
    if u == [] {
      assert ("\"" + k)[1..] == k;
    } else {
      ReadsUnits(u[1..], k);
      ReadsUnit(u[0], PutUnits(u[1..], k));
      EscapeShape(u[0], PutUnits(u[1..], k));
      assert u == [u[0]] + u[1..];
    }
  }

  lemma FirstUnit(s: Str)
    requires s != []
    ensures Utf16(s) != [] && Utf16(s)[0] == Units(s[0])[0]
    ensures LowSurrogate(Utf16(s)[0]) ==> LowSurrogate(s[0])
  {}

  lemma {:induction false} JoinsUtf16(s: Str)
    requires Joined(s)
    ensures Join(Utf16(s)) == s
  {
    if s != [] {
      var u, rest := Utf16(s), Utf16(s[1..]);
      JoinsUtf16(s[1..]);
      assert s == [s[0]] + s[1..] && u == Units(s[0]) + rest;
      if s[0] >= 0x10000 {
        assert u[2..] == rest;
      } else {
        assert u[1..] == rest;
        if |s| >= 2 { FirstUnit(s[1..]); }
      }
    }
  }

  lemma ReadsString(s: Str, k: string)
    requires Joined(s)
    ensures ReadString(Quote(s) + k) == Some((s, k))
  {
    hide ReadUnits, Join;
    PutUnitsIsEscape(Utf16(s), k);
    RegroupQuote(EscapeUnits(Utf16(s)), k);
    assert (Quote(s) + k)[1..] == PutUnits(Utf16(s), k);
    ReadsUnits(Utf16(s), k);
    JoinsUtf16(s);
  }

  lemma {:induction false} RunIs(a: string, k: string)
    requires (forall i :: 0 <= i < |a| ==> IsNumberChar(a[i])) && Follow(k)
    ensures NumberRun(a + k) == |a|
  {
    if a == "" {
      assert a + k == k;
    } else {
      assert (a + k)[1..] == a[1..] + k;
      RunIs(a[1..], k);
    }
  }

  lemma {:induction false} NumeralIsNatural(n: nat)
    ensures IsNatural(Numeral(n)) && (Numeral(n)[0] == '0' <==> n == 0)
  {
    if n >= 10 { NumeralIsNatural(n / 10); }
  }

  lemma ReadsNumber(v: Json)
    requires Valid(v) && IsNumber(v)
    ensures ReadNumber(Print(v)) == Some(Meaning(v))
  {
    NumberToken(v);
    if v.Int? {
      var m := if v.n < 0 then -v.n else v.n;
      NumeralIsNatural(m);
      ValueOfNumeral(m);
      if v.n < 0 { assert Print(v)[1..] == Numeral(m); }
    }
  }

  /** A text that starts with another character is none of the words. */
  lemma OtherStart(s: string, c: char)
    requires s != "" && s[0] == c && c !in "ntf"
    ensures !Starts(s, "null") && !Starts(s, "true") && !Starts(s, "false")
    ensures c != '\"' ==> !Starts(s, "\"")
    ensures c != '[' ==> !Starts(s, "[") && !Starts(s, "[]")
    ensures c != '{' ==> !Starts(s, "{") && !Starts(s, "{}")
  {}

  lemma NumberStart(s: string, n: nat, d: Denotation)
    requires s != "" && (IsDigit(s[0]) || s[0] in "-IN")
    requires n == NumberRun(s) && n > 0 && ReadNumber(s[..n]) == Some(d)
    ensures ReadValue(s) == Some((d, s[n..]))
  {
    hide ReadNumber, ReadString, ReadElements, ReadPairs, NumberRun, Starts;
    OtherStart(s, s[0]);
  }

  lemma NumberValue(v: Json, k: string)
    requires Valid(v) && IsNumber(v) && Follow(k)
    ensures ReadValue(Print(v) + k) == Some((Meaning(v), k))
  {
    hide ReadNumber, ReadValue, NumberRun, Print, Meaning, IsNumberChar;
    var t := Print(v);
    var s := t + k;
    NumberToken(v);
    RunIs(t, k);
    ReadsNumber(v);
    assert s[..|t|] == t && s[|t|..] == k && s[0] == t[0];
    NumberStart(s, |t|, Meaning(v));
  }

  lemma TextValue(t: Str, k: string)
    requires Joined(t)
    ensures ReadValue(Quote(t) + k) == Some((VText(t), k))
  {
    hide ReadString, ReadElements, ReadPairs, EscapeUnits;
    ReadsString(t, k);
    assert (Quote(t) + k)[0] == '\"';
  }

  lemma WordValue(v: Json, k: string)
    requires v.Null? || v.Bool?
    ensures ReadValue(Print(v) + k) == Some((Meaning(v), k))
  {
    hide ReadString, ReadElements, ReadPairs;
    var t := Print(v);
    var s := t + k;
    assert s[..|t|] == t && s[|t|..] == k && s[0] == t[0];
    if v == Bool(false) { assert !Starts(s, "null") && !Starts(s, "true") && Starts(s, "false"); }
    if v == Bool(true) { assert !Starts(s, "null") && Starts(s, "true"); }
    if v == Null { assert Starts(s, "null"); }
  }

  lemma ArrayValue(s: string, vs: seq<Denotation>, k: string)
    requires s != "" && s[0] != ']' && ReadElements(s) == Some((vs, k))
    ensures ReadValue("[" + s) == Some((VArr(vs), k))
  {
    hide ReadString, ReadElements, ReadPairs;
    var t := "[" + s;
    OtherStart(t, '[');
    assert t[1..] == s && t[1] == s[0];
    assert Starts(t, "[") && !Starts(t, "[]");
    hide Starts;
  }

  lemma ObjectValue(s: string, m: map<Str, Denotation>, k: string)
    requires s != "" && s[0] != '}' && ReadPairs(s) == Some((m, k))
    ensures ReadValue("{" + s) == Some((VObj(m), k))
  {
    hide ReadString, ReadElements, ReadPairs;
    var t := "{" + s;
    OtherStart(t, '{');
    assert t[1..] == s && t[1] == s[0];
    assert Starts(t, "{") && !Starts(t, "{}");
    hide Starts;
  }

  lemma EmptyValues(k: string)
    ensures ReadValue("[" + ("]" + k)) == Some((VArr([]), k))
    ensures ReadValue("{" + ("}" + k)) == Some((VObj(map[]), k))
  {
    hide ReadString, ReadElements, ReadPairs;
    var a, o := "[" + ("]" + k), "{" + ("}" + k);
    OtherStart(a, '[');
    OtherStart(o, '{');
    assert a[..2] == "[]" && a[2..] == k && o[..2] == "{}" && o[2..] == k;
    assert Starts(a, "[]") && Starts(o, "{}");
    hide Starts;
  }

  lemma OneElement(s: string, v: Denotation, k: string)
    requires ReadValue(s) == Some((v, "]" + k))
    ensures ReadElements(s) == Some(([v], k))
  {
    hide ReadValue;
    assert ("]" + k)[1..] == k;
  }

  lemma MoreElements(s: string, v: Denotation, rest: string, vs: seq<Denotation>, k: string)
    requires ReadValue(s) == Some((v, "," + rest)) && ReadElements(rest) == Some((vs, k))
    ensures ReadElements(s) == Some(([v] + vs, k))
  {
    hide ReadValue;
    assert ("," + rest)[1..] == rest;
  }

  lemma OnePair(s: string, key: Str, t: string, v: Denotation, k: string)
    requires ReadString(s) == Some((key, ":" + t)) && ReadValue(t) == Some((v, "}" + k))
    ensures ReadPairs(s) == Some((map[key := v], k))
  {
    hide ReadValue, ReadString;
    assert (":" + t)[1..] == t && ("}" + k)[1..] == k;
  }

  lemma MorePairs(s: string, key: Str, t: string, v: Denotation, rest: string, m: map<Str, Denotation>, k: string)
    requires ReadString(s) == Some((key, ":" + t)) && ReadValue(t) == Some((v, "," + rest))
    requires ReadPairs(rest) == Some((m, k)) && key !in m
    ensures ReadPairs(s) == Some((m[key := v], k))
  {
    hide ReadValue, ReadString;
    assert (":" + t)[1..] == t && ("," + rest)[1..] == rest;
  }

  /** Whatever follows, the reader takes exactly the printed value from the front. */
  lemma {:induction false} ReadsValue(v: Json, k: string)
    requires Valid(v) && JoinedText(v) && Follow(k)
    ensures ReadValue(Put(v, k)) == Some((Meaning(v), k))
    decreases v, 0
  {
    hide ReadValue, ReadElements, ReadPairs;
    match v
    case Null => WordValue(v, k);
    case Bool(_) => WordValue(v, k);
    case Int(_) => NumberValue(v, k);
    case Float(_) => NumberValue(v, k);
    case Text(t) => TextValue(t, k);
    case Arr(a) =>
      if a.Item? {
        var s := Put(a.head, PutItems(a.tail, k));
        ReadsElements(a.head, a.tail, k);
        FirstCharacter(a.head, PutItems(a.tail, k));
        ArrayValue(s, ItemsMeaning(a), k);
      } else {
        EmptyValues(k);
      }
    case Obj(m) =>
      if m.Member? {
        ReadsPairs(m, k);
        ObjectValue(PutPair(m.key, m.value, PutMembers(m.rest, k)), Fields(m), k);
      } else {
        EmptyValues(k);
      }
  }

  lemma {:induction false} ReadsElements(head: Json, tail: Items, k: string)
    requires Valid(head) && JoinedText(head) && ValidItems(tail) && JoinedItems(tail) && Follow(k)
    ensures ReadElements(Put(head, PutItems(tail, k))) == Some(([Meaning(head)] + ItemsMeaning(tail), k))
    decreases Item(head, tail), 0
  {
    hide ReadValue, ReadElements, ReadPairs;
    ReadsValue(head, PutItems(tail, k));
    match tail
    case Stop =>
      OneElement(Put(head, PutItems(tail, k)), Meaning(head), k);
      assert [Meaning(head)] + ItemsMeaning(tail) == [Meaning(head)];
    case Item(next, more) =>
      ReadsElements(next, more, k);
      MoreElements(Put(head, PutItems(tail, k)), Meaning(head), Put(next, PutItems(more, k)), ItemsMeaning(tail), k);
  }

  lemma {:induction false} ReadsPairs(m: Members, k: string)
    requires m.Member? && ValidMembers(m) && JoinedMembers(m) && Follow(k)
    ensures ReadPairs(PutPair(m.key, m.value, PutMembers(m.rest, k))) == Some((Fields(m), k))
    decreases m, 0
  {
    hide ReadValue, ReadElements, ReadPairs, ReadString, Quote;
    var after := PutMembers(m.rest, k);
    var t := Put(m.value, after);
    ReadsString(m.key, ":" + t);
    ReadsValue(m.value, after);
    match m.rest
    case End => OnePair(PutPair(m.key, m.value, after), m.key, t, Meaning(m.value), k);
    case Member(key, value, rest) =>
      ReadsPairs(m.rest, k);
      KeysOfFields(m.rest);
      MorePairs(PutPair(m.key, m.value, after), m.key, t, Meaning(m.value), PutPair(key, value, PutMembers(rest, k)), Fields(m.rest), k);
  }

  /** The canonical text of every value without split surrogate pairs is the compact JSON text of exactly
      that value. */
  lemma CanonicalReadsBack(v: Json)
    requires Valid(v) && JoinedText(v)
    ensures ReadText(Canonical(v)) == Some(Meaning(v))
  {
    hide ReadValue;
    SortKeepsMeaning(v);
    PutIsPrint(SortKeys(v), "");
    assert Print(SortKeys(v)) + "" == Print(SortKeys(v));
    ReadsValue(SortKeys(v), "");
  }
}
