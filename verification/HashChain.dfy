/** The append-only HMAC chain shared by the audit log, the operation journal and the
    checkpoint log. The keyed HMAC is a function parameter `sign` over the canonical body
    (sequence number, payload, previous hash); it is assumed injective only where binding is
    claimed, which is what section 2 of RFC 2104 is used for here. */
module HashChain {

  type Hash = string

  const GENESIS_HASH: Hash := "0000000000000000000000000000000000000000000000000000000000000000"

  datatype Link<+B> = Link(sequence: nat, body: B, previousHash: Hash, eventHash: Hash)

  /** One line of a journal file. A crash in the middle of an append leaves `Torn`. */
  datatype Line<+B> = Whole(link: Link<B>) | Torn

  type Signer<!B> = (nat, B, Hash) -> Hash

  function Head<B>(links: seq<Link<B>>): Hash {
    if links == [] then GENESIS_HASH else links[|links| - 1].eventHash
  }

  function NextLink<B>(sign: Signer<B>, links: seq<Link<B>>, body: B): Link<B> {
    Link(|links| + 1, body, Head(links), sign(|links| + 1, body, Head(links)))
  }

  /** Link `k` carries its line number, the hash of the link before it and a valid signature. */
  predicate Sealed<B>(sign: Signer<B>, links: seq<Link<B>>, k: nat)
    requires k < |links|
  {
    && links[k].sequence == k + 1
    && links[k].previousHash == Head(links[..k])
    && links[k].eventHash == sign(links[k].sequence, links[k].body, links[k].previousHash)
  }

  predicate Chained<B>(sign: Signer<B>, links: seq<Link<B>>) {
    forall k :: 0 <= k < |links| ==> Sealed(sign, links, k)
  }

  predicate AllWhole<B>(lines: seq<Line<B>>) {
    forall k :: 0 <= k < |lines| ==> lines[k].Whole?
  }

  function Links<B>(lines: seq<Line<B>>): (links: seq<Link<B>>)
    requires AllWhole(lines)
    ensures |links| == |lines|
    ensures forall k :: 0 <= k < |lines| ==> links[k] == lines[k].link
  {
    if lines == [] then [] else Links(lines[..|lines| - 1]) + [lines[|lines| - 1].link]
  }

  ghost predicate Injective<B(!new)>(sign: Signer<B>) {
    forall n: nat, b, p, n': nat, b', p' {:trigger sign(n, b, p), sign(n', b', p')} ::
      sign(n, b, p) == sign(n', b', p') ==> n == n' && b == b' && p == p'
  }

  ghost predicate NeverGenesis<B(!new)>(sign: Signer<B>) {
    forall n: nat, b, p :: sign(n, b, p) != GENESIS_HASH
  }

  lemma PrefixChained<B>(sign: Signer<B>, links: seq<Link<B>>, k: nat)
    requires Chained(sign, links) && k <= |links|
    ensures Chained(sign, links[..k])
  {
    forall j | 0 <= j < k ensures Sealed(sign, links[..k], j) {
      assert Sealed(sign, links, j);
      assert links[..k][..j] == links[..j];
    }
  }

  /** What an append writes verifies on the next read, whatever the signature is. */
  lemma AppendChained<B>(sign: Signer<B>, links: seq<Link<B>>, body: B)
    requires Chained(sign, links)
    ensures Chained(sign, links + [NextLink(sign, links, body)])
  {
    var longer := links + [NextLink(sign, links, body)];
    forall k | 0 <= k < |longer| ensures Sealed(sign, longer, k) {
      assert longer[..k] == links[..k];
      if k < |links| {
        assert Sealed(sign, links, k);
      } else {
        assert links[..k] == links;
      }
    }
  }

  /** Only the writer's own link extends a verifying chain: the next line is fixed by its body. */
  lemma OnlyNextLinkExtends<B>(sign: Signer<B>, links: seq<Link<B>>, link: Link<B>)
    requires Chained(sign, links)
    ensures Chained(sign, links + [link]) <==> link == NextLink(sign, links, link.body)
  {
    var longer := links + [link];
    assert longer[..|links|] == links;
    if Chained(sign, longer) {
      assert Sealed(sign, longer, |links|);
    }
    if link == NextLink(sign, links, link.body) {
      AppendChained(sign, links, link.body);
    }
  }

  /** Two verifying journals with the same event count and head hash are equal. */
  lemma {:induction false} ChainBinding<B(!new)>(sign: Signer<B>, a: seq<Link<B>>, b: seq<Link<B>>)
    requires Injective(sign) && Chained(sign, a) && Chained(sign, b)
    requires |a| == |b| && Head(a) == Head(b)
    ensures a == b
  {
    var n := |a|;
    if n > 0 {
      assert Sealed(sign, a, n - 1) && Sealed(sign, b, n - 1);
      PrefixChained(sign, a, n - 1);
      PrefixChained(sign, b, n - 1);
      ChainBinding(sign, a[..n - 1], b[..n - 1]);
      assert a == a[..n - 1] + [a[n - 1]] && b == b[..n - 1] + [b[n - 1]];
    }
  }

  /** When no signature is the genesis value the head alone fixes the whole journal, count
      included: the sequence number is part of what is signed. */
  lemma HeadFixesChain<B(!new)>(sign: Signer<B>, a: seq<Link<B>>, b: seq<Link<B>>)
    requires Injective(sign) && NeverGenesis(sign) && Chained(sign, a) && Chained(sign, b)
    ensures Head(a) == Head(b) <==> a == b
  {
    if Head(a) == Head(b) {
      if a != [] {
        assert Sealed(sign, a, |a| - 1);
      }
      if b != [] {
        assert Sealed(sign, b, |b| - 1);
      }
      ChainBinding(sign, a, b);
    }
  }

  /** A verifying journal whose k-th event hash equals a recorded checkpoint head has exactly
      the k anchored events as its prefix, however much was appended later. */
  lemma AnchoredPrefix<B(!new)>(sign: Signer<B>, anchored: seq<Link<B>>, journal: seq<Link<B>>)
    requires Injective(sign) && Chained(sign, anchored) && Chained(sign, journal)
    requires |anchored| <= |journal| && Head(journal[..|anchored|]) == Head(anchored)
    ensures journal[..|anchored|] == anchored
  {
    PrefixChained(sign, journal, |anchored|);
    ChainBinding(sign, anchored, journal[..|anchored|]);
  }
}
