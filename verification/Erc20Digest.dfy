/** What a permit signs (`generate_permit`, `compute_domain_separator`; EIP-712, section
    "Specification of the eth_signTypedData JSON RPC"): the hash of two marker bytes, the hash
    of the domain and the hash of the permit, each laid out as the Contract ABI Specification
    has it. */
module Erc20Digest {
  import opened Words
  import opened AbiTypes
  import opened AbiSpecification

  /** The contract and chain a permit is for. */
  datatype Domain = Domain(name: seq<byte>, chainId: U256, contract: Address)

  datatype PermitData = PermitData(owner: Address, spender: Address, value: U256, nonce: U256, deadline: U256)

  /** The hash function, and the hashes of the two type descriptions. */
  datatype Hashing = Hashing(hash: seq<byte> -> Word, domainType: Word, permitType: Word)

  /** "1". */
  const VERSION: seq<byte> := [0x31]

  function DomainTokens(h: Hashing, d: Domain): seq<Token> {
    [FixedBytes(h.domainType), FixedBytes(h.hash(d.name)), FixedBytes(h.hash(VERSION)), Uint(d.chainId),
     Token.Address(d.contract)]
  }

  function PermitTokens(h: Hashing, p: PermitData): seq<Token> {
    [FixedBytes(h.permitType), Token.Address(p.owner), Token.Address(p.spender), Uint(p.value), Uint(p.nonce),
     Uint(p.deadline)]
  }

  function Content(ts: seq<Token>): seq<byte> {
    Flatten(EncBlock(ts))
  }

  function PreDigest(h: Hashing, d: Domain, p: PermitData): seq<byte> {
    [0x19, 0x01] + h.hash(Content(DomainTokens(h, d))) + h.hash(Content(PermitTokens(h, p)))
  }

  /** `generate_permit`. */
  function Digest(h: Hashing, d: Domain, p: PermitData): Word {
    h.hash(PreDigest(h, d, p))
  }

  // ---------- blocks of leaves ----------

  predicate AllLeaves(ts: seq<Token>) {
    forall t :: t in ts ==> Leaf(t)
  }

  lemma {:induction false} LeafHeads(ts: seq<Token>, p: nat)
    requires AllLeaves(ts)
    ensures |EncHeads(ts, p)| == |ts| && EncTails(ts) == []
    ensures forall i :: 0 <= i < |ts| ==> LeafWord(ts[i], EncHeads(ts, p)[i])
  {
    hide Enc, LeafWord;
    if ts == [] {
    } else {
      LeafEnc(ts[0]);
      LeafHeads(ts[1..], p);
    }
  }

  /** A block of leaves is one word for each. */
  lemma LeafBlock(ts: seq<Token>)
    requires AllLeaves(ts)
    ensures |EncBlock(ts)| == |ts| && |Content(ts)| == 32 * |ts|
    ensures forall i :: 0 <= i < |ts| ==> LeafWord(ts[i], EncBlock(ts)[i])
  {
    hide LeafWord, EncHeads, EncTails;
    LeafHeads(ts, HeadWords(ts));
  }

  lemma SameLeafWord(t: Token, u: Token, w: Word)
    requires Leaf(t) && LeafWord(t, w) && LeafWord(u, w)
    requires (t.Address? && u.Address?) || (t.Uint? && u.Uint?) || (t.FixedBytes? && u.FixedBytes? && |t.bytes| == |u.bytes|)
    ensures t == u
  {
    match t
    case Address(a) =>
      BigEndianOfNumber(a);
      BigEndianOfNumber(u.address);
    case FixedBytes(b) => assert w[..|b|] == b;
    case _ =>
  }

  /** Leaves of the same shape with the same content are the same. */
  lemma SameContent(ts: seq<Token>, us: seq<Token>)
    requires AllLeaves(ts) && AllLeaves(us) && |ts| == |us| && Content(ts) == Content(us)
    requires forall i :: 0 <= i < |ts| ==>
               || (ts[i].Address? && us[i].Address?) || (ts[i].Uint? && us[i].Uint?)
               || (ts[i].FixedBytes? && us[i].FixedBytes? && |ts[i].bytes| == |us[i].bytes|)
    ensures ts == us
  {
    hide EncBlock, LeafWord, Leaf;
    LeafBlock(ts);
    LeafBlock(us);
    ChunksOfFlatten(EncBlock(ts));
    ChunksOfFlatten(EncBlock(us));
    forall i | 0 <= i < |ts|
      ensures ts[i] == us[i]
    {
      assert ts[i] in ts && us[i] in us;
      SameLeafWord(ts[i], us[i], EncBlock(ts)[i]);
    }
  }

  // ---------- the digest ----------

  /** What is hashed for a domain: its type, name and version hashes, the chain and the contract. */
  lemma DomainContent(h: Hashing, d: Domain)
    ensures var ws := EncBlock(DomainTokens(h, d));
            && |Content(DomainTokens(h, d))| == 160 && |ws| == 5
            && ws[0] == h.domainType && ws[1] == h.hash(d.name) && ws[2] == h.hash([0x31])
            && FromBigEndian(ws[3]) == d.chainId && FromBigEndian(ws[4]) == FromBigEndian(d.contract)
  {
    hide EncBlock;
    var ts := DomainTokens(h, d);
    LeafBlock(ts);
    var ws := EncBlock(ts);
    assert LeafWord(ts[0], ws[0]) && LeafWord(ts[1], ws[1]) && LeafWord(ts[2], ws[2]);
    assert LeafWord(ts[3], ws[3]) && LeafWord(ts[4], ws[4]);
  }

  /** What is hashed for a permit: six words, of which each field is the number it is. */
  lemma PermitContent(h: Hashing, p: PermitData)
    ensures var ws := EncBlock(PermitTokens(h, p));
            && |Content(PermitTokens(h, p))| == 192 && |ws| == 6
            && ws[0] == h.permitType
            && FromBigEndian(ws[1]) == FromBigEndian(p.owner) && FromBigEndian(ws[2]) == FromBigEndian(p.spender)
            && FromBigEndian(ws[3]) == p.value && FromBigEndian(ws[4]) == p.nonce && FromBigEndian(ws[5]) == p.deadline
  {
    hide EncBlock;
    var ts := PermitTokens(h, p);
    LeafBlock(ts);
    var ws := EncBlock(ts);
    assert LeafWord(ts[0], ws[0]) && LeafWord(ts[1], ws[1]) && LeafWord(ts[2], ws[2]);
    assert LeafWord(ts[3], ws[3]) && LeafWord(ts[4], ws[4]) && LeafWord(ts[5], ws[5]);
  }

  predicate Collide(hash: seq<byte> -> Word, a: seq<byte>, b: seq<byte>) {
    a != b && hash(a) == hash(b)
  }

  /** The hashed text is two marker bytes and the two hashes. */
  lemma PreDigestParts(h: Hashing, d: Domain, p: PermitData)
    ensures var x := PreDigest(h, d, p);
            && |x| == 66 && x[0] == 0x19 && x[1] == 0x01
            && x[2..34] == h.hash(Content(DomainTokens(h, d))) && x[34..] == h.hash(Content(PermitTokens(h, p)))
  {
    hide Content;
    var a, b := h.hash(Content(DomainTokens(h, d))), h.hash(Content(PermitTokens(h, p)));
    assert ([0x19, 0x01] + a + b)[2..34] == a && ([0x19, 0x01] + a + b)[34..] == b;
  }

  /** The digest determines the contract, the chain and every field, unless the hash collides on
      what is hashed for them: so a permit signed for one contract, chain, owner, spender, value,
      nonce or deadline is none for another. */
  lemma DigestDetermines(h: Hashing, d: Domain, p: PermitData, d': Domain, p': PermitData)
    requires Digest(h, d, p) == Digest(h, d', p')
    ensures || (d == d' && p == p')
            || Collide(h.hash, PreDigest(h, d, p), PreDigest(h, d', p'))
            || Collide(h.hash, Content(DomainTokens(h, d)), Content(DomainTokens(h, d')))
            || Collide(h.hash, Content(PermitTokens(h, p)), Content(PermitTokens(h, p')))
            || Collide(h.hash, d.name, d'.name)
  {
    hide Content;
    var a, a' := h.hash(Content(DomainTokens(h, d))), h.hash(Content(DomainTokens(h, d')));
    var b, b' := h.hash(Content(PermitTokens(h, p))), h.hash(Content(PermitTokens(h, p')));
    var x, x' := PreDigest(h, d, p), PreDigest(h, d', p');
    PreDigestParts(h, d, p);
    PreDigestParts(h, d', p');
    assert a == x[2..34] && a' == x'[2..34] && b == x[34..] && b' == x'[34..];
    if Content(DomainTokens(h, d)) == Content(DomainTokens(h, d')) {
      SameDomain(h, d, d');
    }
    if Content(PermitTokens(h, p)) == Content(PermitTokens(h, p')) {
      SamePermit(h, p, p');
    }
  }

  lemma SameDomain(h: Hashing, d: Domain, d': Domain)
    requires Content(DomainTokens(h, d)) == Content(DomainTokens(h, d'))
    ensures h.hash(d.name) == h.hash(d'.name) && d.chainId == d'.chainId && d.contract == d'.contract
  {
    hide Content;
    var ts, us := DomainTokens(h, d), DomainTokens(h, d');
    SameContent(ts, us);
    assert ts[1] == us[1] && ts[3] == us[3] && ts[4] == us[4];
  }

  lemma SamePermit(h: Hashing, p: PermitData, p': PermitData)
    requires Content(PermitTokens(h, p)) == Content(PermitTokens(h, p'))
    ensures p == p'
  {
    hide Content;
    var ts, us := PermitTokens(h, p), PermitTokens(h, p');
    SameContent(ts, us);
    assert ts[1] == us[1] && ts[2] == us[2] && ts[3] == us[3] && ts[4] == us[4] && ts[5] == us[5];
  }
}
