/** The canonical text: independent of insertion order, and a name for the logical value. */
module JsonCanonical {
  import opened Orders
  import opened Json
  import opened JsonUnique

  // ---- sorting keeps the value -------------------------------------------------

  lemma {:induction false} InsertMeaning(k: Str, v: Json, m: Members)
    requires !HasKey(m, k)
    ensures Fields(InsertMember(k, v, m)) == Fields(m)[k := Meaning(v)]
    ensures forall l: Str :: HasKey(InsertMember(k, v, m), l) <==> l == k || HasKey(m, l)
    ensures Valid(v) && ValidMembers(m) ==> ValidMembers(InsertMember(k, v, m))
    ensures Joined(k) && JoinedText(v) && JoinedMembers(m) ==> JoinedMembers(InsertMember(k, v, m))
  {
    if m.Member? && !Less(k, m.key) { InsertMeaning(k, v, m.rest); }
  }

  lemma {:induction false} SortKeepsMeaning(v: Json)
    requires Valid(v)
    ensures Meaning(SortKeys(v)) == Meaning(v) && Valid(SortKeys(v))
    ensures JoinedText(v) ==> JoinedText(SortKeys(v))
    decreases v
  {
    match v
    case Arr(a) => SortItemsKeepsMeaning(a);
    case Obj(m) => SortMembersKeepsMeaning(m);
    case _ =>
  }

  lemma {:induction false} SortItemsKeepsMeaning(a: Items)
    requires ValidItems(a)
    ensures ItemsMeaning(SortItems(a)) == ItemsMeaning(a) && ValidItems(SortItems(a))
    ensures JoinedItems(a) ==> JoinedItems(SortItems(a))
    decreases a
  {
    if a.Item? { SortKeepsMeaning(a.head); SortItemsKeepsMeaning(a.tail); }
  }

  lemma {:induction false} SortMembersKeepsMeaning(m: Members)
    requires ValidMembers(m)
    ensures Fields(SortMembers(m)) == Fields(m) && ValidMembers(SortMembers(m))
    ensures forall l: Str :: HasKey(SortMembers(m), l) <==> HasKey(m, l)
    ensures JoinedMembers(m) ==> JoinedMembers(SortMembers(m))
    decreases m
  {
    if m.Member? {
      SortKeepsMeaning(m.value);
      SortMembersKeepsMeaning(m.rest);
      InsertMeaning(m.key, SortKeys(m.value), SortMembers(m.rest));
    }
  }

  // ---- sorted values are determined by what they mean -----------------------------

  ghost predicate Above(k: Str, m: Members) {
    forall l: Str :: HasKey(m, l) ==> Less(k, l)
  }

  ghost predicate Sorted(v: Json) {
    match v
    case Arr(a) => SortedItems(a)
    case Obj(m) => SortedMembers(m)
    case _ => true
  }

  ghost predicate SortedItems(a: Items) { a.Item? ==> Sorted(a.head) && SortedItems(a.tail) }

  ghost predicate SortedMembers(m: Members) {
    m.Member? ==> Above(m.key, m.rest) && Sorted(m.value) && SortedMembers(m.rest)
  }

  lemma {:induction false} InsertSorted(k: Str, v: Json, m: Members)
    requires !HasKey(m, k) && Sorted(v) && SortedMembers(m)
    ensures SortedMembers(InsertMember(k, v, m))
  {
    if m.Member? {
      LessTotal(k, m.key);
      if Less(k, m.key) {
        forall l: Str | HasKey(m, l) ensures Less(k, l) {
          if l != m.key { LessTransitive(k, m.key, l); }
        }
      } else {
        InsertSorted(k, v, m.rest);
        InsertMeaning(k, v, m.rest);
        var r := InsertMember(k, v, m.rest);
        forall l: Str | HasKey(r, l) ensures Less(m.key, l) { assert l == k || HasKey(m.rest, l); }
      }
    }
  }

  lemma {:induction false} SortSorts(v: Json)
    requires Valid(v)
    ensures Sorted(SortKeys(v))
    decreases v
  {
    match v
    case Arr(a) => SortItemsSorts(a);
    case Obj(m) => SortMembersSorts(m);
    case _ =>
  }

  lemma {:induction false} SortItemsSorts(a: Items)
    requires ValidItems(a)
    ensures SortedItems(SortItems(a))
    decreases a
  {
    if a.Item? { SortSorts(a.head); SortItemsSorts(a.tail); }
  }

  lemma {:induction false} SortMembersSorts(m: Members)
    requires ValidMembers(m)
    ensures SortedMembers(SortMembers(m))
    decreases m
  {
    if m.Member? {
      SortSorts(m.value);
      SortMembersSorts(m.rest);
      SortMembersKeepsMeaning(m.rest);
      InsertSorted(m.key, SortKeys(m.value), SortMembers(m.rest));
    }
  }

  lemma {:induction false} KeysOfFields(m: Members)
    ensures forall k :: k in Fields(m) <==> HasKey(m, k)
  {
    if m.Member? { KeysOfFields(m.rest); }
  }

  lemma {:induction false} SortedUnique(v: Json, w: Json)
    requires Sorted(v) && Sorted(w) && Meaning(v) == Meaning(w)
    ensures v == w
    decreases v
  {
    match v
    case Arr(a) => SortedItemsUnique(a, w.items);
    case Obj(m) => SortedMembersUnique(m, w.members);
    case _ =>
  }

  lemma {:induction false} SortedItemsUnique(a: Items, b: Items)
    requires SortedItems(a) && SortedItems(b) && ItemsMeaning(a) == ItemsMeaning(b)
    ensures a == b
    decreases a
  {
    if a.Item? {
      assert ItemsMeaning(a)[0] == ItemsMeaning(b)[0] && ItemsMeaning(a)[1..] == ItemsMeaning(b)[1..];
      SortedUnique(a.head, b.head);
      SortedItemsUnique(a.tail, b.tail);
    }
  }

  /** The least key of a dict comes first, so equal dicts start with the same key. */
  lemma LeastKeyFirst(m: Members, n: Members)
    requires SortedMembers(m) && SortedMembers(n) && m.Member? && n.Member? && Fields(m) == Fields(n)
    ensures m.key == n.key && Meaning(m.value) == Meaning(n.value) && Fields(m.rest) == Fields(n.rest)
  {
    KeysOfFields(m);
    KeysOfFields(n);
    KeysOfFields(m.rest);
    KeysOfFields(n.rest);
    assert m.key in Fields(n) && n.key in Fields(m);
    if m.key != n.key { LessTransitive(m.key, n.key, m.key); }
    LessIrreflexive(m.key);
    LessIrreflexive(n.key);
    assert Meaning(m.value) == Fields(m)[m.key];
    assert Fields(m.rest) == Fields(m) - {m.key};
    assert Fields(n.rest) == Fields(n) - {n.key};
  }

  lemma {:induction false} SortedMembersUnique(m: Members, n: Members)
    requires SortedMembers(m) && SortedMembers(n) && Fields(m) == Fields(n)
    ensures m == n
    decreases m
  {
    KeysOfFields(m);
    KeysOfFields(n);
    assert n.Member? ==> HasKey(n, n.key) && n.key in Fields(m);
    if m.Member? {
      assert HasKey(m, m.key);
      LeastKeyFirst(m, n);
      SortedUnique(m.value, n.value);
      SortedMembersUnique(m.rest, n.rest);
    }
  }

  // ---- UTF-16 ---------------------------------------------------------------------

  lemma {:induction false} Utf16Injective(s: Str, t: Str)
    requires Joined(s) && Joined(t) && Utf16(s) == Utf16(t)
    ensures s == t
  {
    if s != [] && t != [] {
      var u, v := Utf16(s), Utf16(t);
      assert u == Units(s[0]) + Utf16(s[1..]) && v == Units(t[0]) + Utf16(t[1..]);
      assert Units(s[0])[0] == u[0] == v[0] == Units(t[0])[0];
      if s[0] >= 0x10000 { SplitPair(s, t); }
      if t[0] >= 0x10000 { SplitPair(t, s); }
      assert Utf16(s[1..]) == u[|Units(s[0])|..] && Utf16(t[1..]) == v[|Units(t[0])|..];
      assert Joined(s[1..]) && Joined(t[1..]);
      Utf16Injective(s[1..], t[1..]);
      assert s == [s[0]] + s[1..] && t == [t[0]] + t[1..];
    }
  }

  /** Only a split surrogate pair reads like an astral code point. */
  lemma SplitPair(s: Str, t: Str)
    requires s != [] && t != [] && Joined(t) && Utf16(s) == Utf16(t) && s[0] >= 0x10000
    ensures s[0] == t[0]
  {
    var u, v := Utf16(s), Utf16(t);
    assert u == Units(s[0]) + Utf16(s[1..]) && v == Units(t[0]) + Utf16(t[1..]);
    assert u[0] == Units(s[0])[0] && u[1] == Units(s[0])[1];
    assert u[0] == v[0] == Units(t[0])[0] && u[1] == v[1];
    if t[0] < 0x10000 { SecondUnit(t); } else { assert v[1] == Units(t[0])[1]; }
  }

  lemma SecondUnit(t: Str)
    requires t != [] && t[0] < 0x10000 && |Utf16(t)| >= 2
    ensures |t| >= 2 && Utf16(t)[1] == Units(t[1])[0]
  {
    assert Utf16(t) == [t[0]] + Utf16(t[1..]);
    assert Utf16(t[1..]) == Units(t[1]) + Utf16(t[1..][1..]);
  }

  lemma {:induction false} SameWireIsEqual(v: Json, w: Json)
    requires JoinedText(v) && JoinedText(w) && SameWire(v, w)
    ensures v == w
    decreases v
  {
    match v
    case Text(s) => Utf16Injective(s, w.s);
    case Arr(a) => SameItemsAreEqual(a, w.items);
    case Obj(m) => SameMembersAreEqual(m, w.members);
    case _ =>
  }

  lemma {:induction false} SameItemsAreEqual(a: Items, b: Items)
    requires JoinedItems(a) && JoinedItems(b) && SameItems(a, b)
    ensures a == b
    decreases a
  {
    if a.Item? { SameWireIsEqual(a.head, b.head); SameItemsAreEqual(a.tail, b.tail); }
  }

  lemma {:induction false} SameMembersAreEqual(a: Members, b: Members)
    requires JoinedMembers(a) && JoinedMembers(b) && SameMembers(a, b)
    ensures a == b
    decreases a
  {
    if a.Member? {
      Utf16Injective(a.key, b.key);
      SameWireIsEqual(a.value, b.value);
      SameMembersAreEqual(a.rest, b.rest);
    }
  }

  // ---- the theorems -----------------------------------------------------------------

  /** Two dict orderings of one logical value have one canonical text. */
  lemma CanonicalIgnoresInsertionOrder(v: Json, w: Json)
    requires Valid(v) && Valid(w) && Meaning(v) == Meaning(w)
    ensures Canonical(v) == Canonical(w)
  {
    SortKeepsMeaning(v);
    SortKeepsMeaning(w);
    SortSorts(v);
    SortSorts(w);
    SortedUnique(SortKeys(v), SortKeys(w));
  }

  /** For every pair of values: canonical texts coincide exactly when the sorted values agree up to
      the UTF-16 coding of their strings. */
  lemma CanonicalExact(v: Json, w: Json)
    requires Valid(v) && Valid(w)
    ensures Canonical(v) == Canonical(w) <==> SameWire(SortKeys(v), SortKeys(w))
  {
    SortKeepsMeaning(v);
    SortKeepsMeaning(w);
    PrintExact(SortKeys(v), SortKeys(w));
  }

  /** Without split surrogate pairs the canonical text names the logical value, exactly. */
  lemma CanonicalNamesTheValue(v: Json, w: Json)
    requires Valid(v) && Valid(w) && JoinedText(v) && JoinedText(w)
    ensures Canonical(v) == Canonical(w) <==> Meaning(v) == Meaning(w)
  {
    if Meaning(v) == Meaning(w) { CanonicalIgnoresInsertionOrder(v, w); }
    if Canonical(v) == Canonical(w) {
      CanonicalExact(v, w);
      SortKeepsMeaning(v);
      SortKeepsMeaning(w);
      SameWireIsEqual(SortKeys(v), SortKeys(w));
    }
  }

  /** The restriction is needed: a split pair and the joined character have one text. */
  lemma SplitSurrogatesCollide()
    ensures var v, w := Text([0xD83D, 0xDE00]), Text([0x1F600]);
      Valid(v) && Valid(w) && Meaning(v) != Meaning(w) && Canonical(v) == Canonical(w)
  {
    assert Utf16([0xD83D, 0xDE00]) == [0xD83D, 0xDE00] by {
      assert Utf16([0xDE00]) == [0xDE00] + Utf16([]);
      assert [0xD83D, 0xDE00][1..] == [0xDE00];
    }
    assert Utf16([0x1F600]) == [0xD83D, 0xDE00];
  }
}
