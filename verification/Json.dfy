/** The JSON values the platform hashes, and json.dumps with sort_keys and compact separators. */
module Json {
  import opened Orders
  import opened Decimal

  /** A Python str is a sequence of code points; lone surrogates are legal in it. */
  type CodePoint = c: int | 0 <= c < 0x110000
  type Str = seq<CodePoint>

  /** A value handed to the encoder. Dicts keep their insertion order; floats are named by the
      literal the encoder writes for them. */
  datatype Json =
    | Null
    | Bool(b: bool)
    | Int(n: int)
    | Float(literal: string)
    | Text(s: Str)
    | Arr(items: Items)
    | Obj(members: Members)

  datatype Items = Stop | Item(head: Json, tail: Items)

  datatype Members = End | Member(key: Str, value: Json, rest: Members)

  // ---- the encoder -------------------------------------------------------

  /** The UTF-16 code units the escaper writes for one code point. */
  function Units(c: CodePoint): (u: seq<nat>)
    ensures 1 <= |u| <= 2 && forall i :: 0 <= i < |u| ==> u[i] < 0x10000
  {
    if c < 0x10000 then [c]
    else [0xD800 + (c - 0x10000) / 0x400, 0xDC00 + (c - 0x10000) % 0x400]
  }

  function Utf16(s: Str): (u: seq<nat>)
    ensures forall i :: 0 <= i < |u| ==> u[i] < 0x10000
  {
    if s == [] then [] else Units(s[0]) + Utf16(s[1..])
  }

  function Hex(d: int): char
    requires 0 <= d < 16
  {
    "0123456789abcdef"[d]
  }

  function EscapeUnit(u: nat): (s: string)
    requires u < 0x10000
    ensures |s| >= 1 && s[0] != '\"'
  {
    if u == '\"' as int then "\\\""
    else if u == '\\' as int then "\\\\"
    else if u == 0x0A then "\\n"
    else if u == 0x0D then "\\r"
    else if u == 0x09 then "\\t"
    else if u == 0x0C then "\\f"
    else if u == 0x08 then "\\b"
    else if 0x20 <= u <= 0x7E then [u as char]
    else "\\u" + [Hex(u / 0x1000), Hex(u / 0x100 % 16), Hex(u / 16 % 16), Hex(u % 16)]
  }

  function EscapeUnits(u: seq<nat>): string
    requires forall i :: 0 <= i < |u| ==> u[i] < 0x10000
  {
    if u == [] then "" else EscapeUnit(u[0]) + EscapeUnits(u[1..])
  }

  function Quote(s: Str): string { "\"" + EscapeUnits(Utf16(s)) + "\"" }

  function Signed(n: int): string {
    if n < 0 then "-" + Numeral(-n) else Numeral(n)
  }

  function Print(v: Json): string {
    match v
    case Null => "null"
    case Bool(b) => if b then "true" else "false"
    case Int(n) => Signed(n)
    case Float(literal) => literal
    case Text(s) => Quote(s)
    case Arr(Stop) => "[]"
    case Arr(Item(head, tail)) => "[" + Print(head) + PrintItems(tail)
    case Obj(End) => "{}"
    case Obj(Member(k, value, rest)) => "{" + Quote(k) + ":" + Print(value) + PrintMembers(rest)
  }

  function PrintItems(items: Items): string {
    match items
    case Stop => "]"
    case Item(head, tail) => "," + Print(head) + PrintItems(tail)
  }

  function PrintMembers(members: Members): string {
    match members
    case End => "}"
    case Member(k, value, rest) => "," + Quote(k) + ":" + Print(value) + PrintMembers(rest)
  }

  // ---- key sorting ---------------------------------------------------------

  function InsertMember(k: Str, v: Json, m: Members): Members {
    match m
    case End => Member(k, v, End)
    case Member(k', v', rest) =>
      if Less(k, k') then Member(k, v, m) else Member(k', v', InsertMember(k, v, rest))
  }

  /** sort_keys=True at every level. */
  function SortKeys(v: Json): Json {
    match v
    case Arr(items) => Arr(SortItems(items))
    case Obj(members) => Obj(SortMembers(members))
    case _ => v
  }

  function SortItems(items: Items): Items {
    match items
    case Stop => Stop
    case Item(head, tail) => Item(SortKeys(head), SortItems(tail))
  }

  function SortMembers(m: Members): Members {
    match m
    case End => End
    case Member(k, v, rest) => InsertMember(k, SortKeys(v), SortMembers(rest))
  }

  function Canonical(v: Json): string { Print(SortKeys(v)) }

  // ---- what a value means ----------------------------------------------------

  /** The logical value: a dict is a finite map, so insertion order is gone. */
  datatype Denotation =
    | VNull
    | VBool(b: bool)
    | VInt(n: int)
    | VFloat(literal: string)
    | VText(s: Str)
    | VArr(items: seq<Denotation>)
    | VObj(fields: map<Str, Denotation>)

  function Meaning(v: Json): Denotation {
    match v
    case Null => VNull
    case Bool(b) => VBool(b)
    case Int(n) => VInt(n)
    case Float(literal) => VFloat(literal)
    case Text(s) => VText(s)
    case Arr(items) => VArr(ItemsMeaning(items))
    case Obj(members) => VObj(Fields(members))
  }

  function ItemsMeaning(items: Items): seq<Denotation> {
    match items
    case Stop => []
    case Item(head, tail) => [Meaning(head)] + ItemsMeaning(tail)
  }

  function Fields(m: Members): map<Str, Denotation> {
    match m
    case End => map[]
    case Member(k, v, rest) => Fields(rest)[k := Meaning(v)]
  }

  // ---- which values Python can build -----------------------------------------

  predicate IsNumberChar(c: char) { IsDigit(c) || c in "+-.eINafinty" }

  /** A float literal is a run of number characters and, unlike an int, holds '.', 'e', 'I' or 'N'. */
  predicate IsFloatLiteral(s: string) {
    && s != []
    && (IsDigit(s[0]) || s[0] in "-IN")
    && (forall i :: 0 <= i < |s| ==> IsNumberChar(s[i]))
    && (exists i :: 0 <= i < |s| && s[i] in ".eIN")
  }

  predicate HasKey(m: Members, k: Str) {
    m.Member? && (m.key == k || HasKey(m.rest, k))
  }

  /** Dict keys are distinct and floats print as float literals. */
  predicate Valid(v: Json) {
    match v
    case Float(literal) => IsFloatLiteral(literal)
    case Arr(items) => ValidItems(items)
    case Obj(members) => ValidMembers(members)
    case _ => true
  }

  predicate ValidItems(items: Items) {
    items.Item? ==> Valid(items.head) && ValidItems(items.tail)
  }

  predicate ValidMembers(m: Members) {
    m.Member? ==> !HasKey(m.rest, m.key) && Valid(m.value) && ValidMembers(m.rest)
  }

  /** No high surrogate directly followed by a low one: every UTF-8 encodable str is such. */
  predicate Joined(s: Str) {
    forall i :: 0 <= i < |s| - 1 ==> !(0xD800 <= s[i] < 0xDC00 && 0xDC00 <= s[i + 1] < 0xE000)
  }

  predicate JoinedText(v: Json) {
    match v
    case Text(s) => Joined(s)
    case Arr(items) => JoinedItems(items)
    case Obj(members) => JoinedMembers(members)
    case _ => true
  }

  predicate JoinedItems(items: Items) {
    items.Item? ==> JoinedText(items.head) && JoinedItems(items.tail)
  }

  predicate JoinedMembers(m: Members) {
    m.Member? ==> Joined(m.key) && JoinedText(m.value) && JoinedMembers(m.rest)
  }
}
