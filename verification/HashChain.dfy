/** A hash chain over plain texts: what linking, acceptance and a head hash determine. */
module HashChain {
  import opened Decimal
  import opened Options

  const DIGEST_SIZE: nat := 64
  const GENESIS: string := Zeros(DIGEST_SIZE)

  /** sha256(text).hexdigest(): any function from text to 64-character text. */
  type Digest = string -> string

  ghost predicate IsDigest(hash: Digest) { forall m :: |hash(m)| == DIGEST_SIZE }

  /** One link: the text it protects and the two hashes recorded with it. A recorded hash that is
      missing, or is not a str, equals no hash and is None. */
  datatype Link = Link(text: string, prevHash: Option<string>, hash: Option<string>)

  function Linked(hash: Digest, text: string, prev: string): Link {
    Link(text, Some(prev), Some(hash(prev + text)))
  }

  /** The hash the next link must record as its predecessor. */
  function Head(chain: seq<Link>): string {
    if chain == [] || chain[|chain| - 1].hash.None? then GENESIS else chain[|chain| - 1].hash.value
  }

  /** Link i records the head before it and the hash of its own text under that head. */
  predicate LinkHolds(hash: Digest, chain: seq<Link>, i: nat)
    requires i < |chain|
  {
    chain[i] == Linked(hash, chain[i].text, Head(chain[..i]))
  }

  ghost predicate Accepted(hash: Digest, chain: seq<Link>) {
    forall i :: 0 <= i < |chain| ==> LinkHolds(hash, chain, i)
  }

  /** The chain that linking these texts one after the other produces. */
  function Built(hash: Digest, texts: seq<string>): (r: seq<Link>)
    ensures |r| == |texts|
  {
    if texts == [] then [] else
      var n := |texts| - 1;
      var before := Built(hash, texts[..n]);
      before + [Linked(hash, texts[n], Head(before))]
  }

  function Texts(chain: seq<Link>): (r: seq<string>)
    ensures |r| == |chain|
  {
    seq(|chain|, i requires 0 <= i < |chain| => chain[i].text)
  }

  lemma LinkOf(hash: Digest, chain: seq<Link>, i: nat)
    requires Accepted(hash, chain) && i < |chain|
    ensures LinkHolds(hash, chain, i)
  {}

  lemma AcceptedPrefix(hash: Digest, chain: seq<Link>, n: nat)
    requires n <= |chain| && Accepted(hash, chain)
    ensures Accepted(hash, chain[..n])
  {
    forall i | 0 <= i < n ensures LinkHolds(hash, chain[..n], i) {
      LinkOf(hash, chain, i);
      assert chain[..n][..i] == chain[..i];
    }
  }

  /** Appending a text linked to the head keeps the chain accepted. */
  lemma AppendKeepsAccepted(hash: Digest, chain: seq<Link>, text: string)
    requires Accepted(hash, chain)
    ensures Accepted(hash, chain + [Linked(hash, text, Head(chain))])
  {
    var longer := chain + [Linked(hash, text, Head(chain))];
    forall i | 0 <= i < |longer| ensures LinkHolds(hash, longer, i) {
      if i < |chain| {
        LinkOf(hash, chain, i);
        assert longer[..i] == chain[..i];
      } else {
        assert longer[..i] == chain;
      }
    }
  }

  /** Accepted means built: the chain is what linking its own texts from the anchor gives. */
  lemma {:induction false} AcceptedIsBuilt(hash: Digest, chain: seq<Link>)
    ensures Accepted(hash, chain) <==> chain == Built(hash, Texts(chain))
  {
    if chain != [] {
      var n := |chain| - 1;
      AcceptedIsBuilt(hash, chain[..n]);
      assert Texts(chain)[..n] == Texts(chain[..n]);
      if Accepted(hash, chain) {
        AcceptedPrefix(hash, chain, n);
        LinkOf(hash, chain, n);
        assert chain == chain[..n] + [chain[n]];
      }
      if chain == Built(hash, Texts(chain)) {
        assert chain[..n] == Built(hash, Texts(chain[..n]));
        AppendKeepsAccepted(hash, chain[..n], chain[n].text);
      }
    }
  }

  /** The texts hashed while walking a chain. */
  ghost function Materials(chain: seq<Link>): set<string> {
    if chain == [] then {} else
      var n := |chain| - 1;
      Materials(chain[..n]) + {Head(chain[..n]) + chain[n].text}
  }

  /** The digest failed on these very texts: two of them collide, or one hits the anchor. */
  ghost predicate DigestBroken(hash: Digest, texts: set<string>) {
    || (exists m, n :: m in texts && n in texts && m != n && hash(m) == hash(n))
    || (exists m :: m in texts && hash(m) == GENESIS)
  }

  /** The hash material determines both of its parts. */
  lemma MaterialSplits(p: string, s: string, q: string, t: string)
    requires |p| == |q| && p + s == q + t
    ensures p == q && s == t
  {
    assert p == (p + s)[..|p|] && q == (q + t)[..|q|];
    assert s == (p + s)[|p|..] && t == (q + t)[|q|..];
  }

  lemma LastLink(hash: Digest, chain: seq<Link>)
    requires IsDigest(hash) && Accepted(hash, chain) && chain != []
    ensures var n := |chain| - 1; var m := Head(chain[..n]) + chain[n].text;
      && Accepted(hash, chain[..n]) && |Head(chain[..n])| == DIGEST_SIZE
      && Head(chain) == hash(m) && m in Materials(chain)
  {
    var n := |chain| - 1;
    AcceptedPrefix(hash, chain, n);
    LinkOf(hash, chain, n);
    if n > 0 { LinkOf(hash, chain[..n], n - 1); }
  }

  lemma {:induction false} MaterialsPrefix(chain: seq<Link>, n: nat)
    requires n <= |chain|
    ensures Materials(chain[..n]) <= Materials(chain)
  {
    if n < |chain| {
      assert chain[..|chain| - 1][..n] == chain[..n];
      MaterialsPrefix(chain[..|chain| - 1], n);
    } else {
      assert chain[..n] == chain;
    }
  }

  /** With equal heads the last links agree, and so do the heads before them. */
  lemma StepBack(hash: Digest, xs: seq<Link>, ys: seq<Link>)
    requires IsDigest(hash) && Accepted(hash, xs) && Accepted(hash, ys) && Head(xs) == Head(ys)
    requires xs != [] && ys != [] && !DigestBroken(hash, Materials(xs) + Materials(ys))
    ensures xs[|xs| - 1] == ys[|ys| - 1] && Head(xs[..|xs| - 1]) == Head(ys[..|ys| - 1])
  {
    var n, k := |xs| - 1, |ys| - 1;
    LastLink(hash, xs);
    LastLink(hash, ys);
    MaterialSplits(Head(xs[..n]), xs[n].text, Head(ys[..k]), ys[k].text);
    LinkOf(hash, xs, n);
    LinkOf(hash, ys, k);
  }

  lemma BrokenMonotone(hash: Digest, few: set<string>, many: set<string>)
    requires few <= many && DigestBroken(hash, few)
    ensures DigestBroken(hash, many)
  {}

  /** A non-empty accepted chain does not end at the anchor. */
  lemma HeadLeavesGenesis(hash: Digest, chain: seq<Link>)
    requires IsDigest(hash) && Accepted(hash, chain) && chain != [] && Head(chain) == GENESIS
    ensures DigestBroken(hash, Materials(chain))
  {
    LastLink(hash, chain);
  }

  /** Two accepted chains with one head are the same chain, unless the digest broke on one of the
      texts hashed while checking them. */
  lemma {:induction false} EqualHeadsEqualChains(hash: Digest, xs: seq<Link>, ys: seq<Link>)
    requires IsDigest(hash) && Accepted(hash, xs) && Accepted(hash, ys) && Head(xs) == Head(ys)
    ensures xs == ys || DigestBroken(hash, Materials(xs) + Materials(ys))
    decreases |xs|
  {
    hide Accepted, Head, Materials, DigestBroken;
    if xs == [] || ys == [] {
      OneIsEmpty(hash, xs, ys);
    } else if !DigestBroken(hash, Materials(xs) + Materials(ys)) {
      var p, q := xs[..|xs| - 1], ys[..|ys| - 1];
      StepBack(hash, xs, ys);
      AcceptedPrefix(hash, xs, |p|);
      AcceptedPrefix(hash, ys, |q|);
      EqualHeadsEqualChains(hash, p, q);
      if p != q {
        MaterialsPrefix(xs, |p|);
        MaterialsPrefix(ys, |q|);
        BrokenMonotone(hash, Materials(p) + Materials(q), Materials(xs) + Materials(ys));
      }
      assert xs == p + [xs[|p|]] && ys == q + [ys[|q|]];
    }
  }

  lemma OneIsEmpty(hash: Digest, xs: seq<Link>, ys: seq<Link>)
    requires IsDigest(hash) && Accepted(hash, xs) && Accepted(hash, ys) && Head(xs) == Head(ys)
    requires xs == [] || ys == []
    ensures xs == ys || DigestBroken(hash, Materials(xs) + Materials(ys))
  {
    hide DigestBroken, Accepted;
    if xs != [] {
      HeadLeavesGenesis(hash, xs);
      BrokenMonotone(hash, Materials(xs), Materials(xs) + Materials(ys));
    }
    if ys != [] {
      HeadLeavesGenesis(hash, ys);
      BrokenMonotone(hash, Materials(ys), Materials(xs) + Materials(ys));
    }
  }

  /** No two prefixes of an accepted chain share a head: no link can be skipped or replayed. */
  lemma HeadsDistinct(hash: Digest, chain: seq<Link>, i: nat, j: nat)
    requires IsDigest(hash) && Accepted(hash, chain) && i < j <= |chain|
    ensures Head(chain[..i]) != Head(chain[..j]) || DigestBroken(hash, Materials(chain))
  {
    if Head(chain[..i]) == Head(chain[..j]) {
      AcceptedPrefix(hash, chain, i);
      AcceptedPrefix(hash, chain, j);
      MaterialsPrefix(chain, i);
      MaterialsPrefix(chain, j);
      assert |chain[..i]| != |chain[..j]|;
      EqualHeadsEqualChains(hash, chain[..i], chain[..j]);
    }
  }

  ghost predicate FirstBrokenAt(hash: Digest, chain: seq<Link>, i: nat) {
    && i < |chain|
    && !LinkHolds(hash, chain, i)
    && forall j :: 0 <= j < i ==> LinkHolds(hash, chain, j)
  }

  /** Replacing one protected text is reported at that link. */
  lemma AlterationIsLocated(hash: Digest, chain: seq<Link>, i: nat, text: string)
    requires IsDigest(hash) && Accepted(hash, chain) && i < |chain| && text != chain[i].text
    ensures
      || FirstBrokenAt(hash, chain[i := chain[i].(text := text)], i)
      || DigestBroken(hash, {Head(chain[..i]) + chain[i].text, Head(chain[..i]) + text})
  {
    var altered := chain[i := chain[i].(text := text)];
    LinkOf(hash, chain, i);
    assert altered[..i] == chain[..i];
    if Head(chain[..i]) + chain[i].text == Head(chain[..i]) + text {
      MaterialSplits(Head(chain[..i]), chain[i].text, Head(chain[..i]), text);
    }
    forall j | 0 <= j < i ensures LinkHolds(hash, altered, j) {
      LinkOf(hash, chain, j);
      assert altered[..j] == chain[..j];
    }
  }

  /** Removing any link but the last is reported at the place of the removal. */
  lemma RemovalIsLocated(hash: Digest, chain: seq<Link>, i: nat)
    requires IsDigest(hash) && Accepted(hash, chain) && i + 1 < |chain|
    ensures FirstBrokenAt(hash, chain[..i] + chain[i + 1..], i) || DigestBroken(hash, Materials(chain))
  {
    hide DigestBroken, Materials, Accepted;
    var cut := chain[..i] + chain[i + 1..];
    HeadsDistinct(hash, chain, i, i + 1);
    LinkOf(hash, chain, i + 1);
    assert cut[..i] == chain[..i] && cut[i] == chain[i + 1];
    forall j | 0 <= j < i ensures LinkHolds(hash, cut, j) {
      LinkOf(hash, chain, j);
      assert cut[..j] == chain[..j];
    }
  }
}
