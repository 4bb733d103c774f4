/** What the encoder's lengths and offsets say about the words it really emits. */
module AbiLayout {
  import opened Words
  import opened AbiTypes
  import opened AbiEncoder

  /** A `u32` byte count of words is blind to multiples of this many words. */
  const TWO_27: nat := 0x800_0000

  /** Words that `head_len` counts beyond those `head` emits. Only a static tuple can
      miscount: it counts components and emits all their words. */
  function HeadSkew(m: Mediate): int {
    match m
    case RawTuple(ms) => |ms| - |FlatHeads(ms)|
    case _ => 0
  }

  /** Words that `tail_len` counts beyond those `tail` emits. */
  function TailSkew(m: Mediate): int {
    match m
    case PrefixedArray(ms) => HeadsSkew(ms) + TailsSkew(ms)
    case PrefixedArrayWithLength(ms) => HeadsSkew(ms) + TailsSkew(ms)
    case PrefixedTuple(ms) => HeadsSkew(ms) + TailsSkew(ms)
    case _ => 0
  }

  function HeadsSkew(ms: seq<Mediate>): int {
    if ms == [] then 0 else HeadSkew(ms[0]) + HeadsSkew(ms[1..])
  }

  function TailsSkew(ms: seq<Mediate>): int {
    if ms == [] then 0 else TailSkew(ms[0]) + TailsSkew(ms[1..])
  }

  /** The skew of the offset written for entry `i` of a block. */
  function OffsetSkew(ms: seq<Mediate>, i: nat): int
    requires i <= |ms|
  {
    HeadsSkew(ms) + TailsSkew(ms[..i])
  }

  // ---------- sizes ----------

  /** The number of head words does not depend on the offsets written in them. */
  lemma {:induction false} HeadsSize(ms: seq<Mediate>, offset: u32)
    ensures |Heads(ms, offset)| == |FlatHeads(ms)|
  {
    if ms == [] {
    } else {
      HeadsSize(ms[1..], U32(offset + TailLen(ms[0])));
    }
  }

  lemma {:induction false} FlatHeadsSplit(ms: seq<Mediate>, i: nat)
    requires i <= |ms|
    ensures FlatHeads(ms) == FlatHeads(ms[..i]) + FlatHeads(ms[i..])
    ensures Tails(ms) == Tails(ms[..i]) + Tails(ms[i..])
  {
    if i > 0 {
      FlatHeadsSplit(ms[1..], i - 1);
      assert ms[..i][1..] == ms[1..][..i - 1] && ms[1..][i - 1..] == ms[i..];
    } else {
      assert ms[..i] == [] && ms[i..] == ms;
    }
  }

  lemma U32Sum(x: int, y: int)
    ensures U32(U32(32 * x) + U32(32 * y)) == U32(32 * (x + y))
  {
    U32Absorbs(32 * x, U32(32 * y));
    U32Absorbs(32 * y, 32 * x);
  }

  lemma U32OfZero()
    ensures U32(0) == 0
  {
  }

  lemma U32Times32(n: nat)
    ensures U32(32 * U32(n)) == U32(32 * n)
  {
    var q := n / TWO_32;
    assert 32 * n == 32 * U32(n) + (32 * q) * TWO_32;
    ModShift(32 * U32(n), 32 * q);
  }

  /** `head_len` is, modulo 2^32, 32 times the emitted words plus the skew. */
  lemma HeadLenCounts(m: Mediate)
    ensures HeadLen(m) == U32(32 * (|Head(m, 0)| + HeadSkew(m)))
  {
    match m
    case Raw(ws) => U32Times32(|ws|);
    case RawTuple(ms) => U32Times32(|ms|);
    case _ =>
  }

  lemma {:induction false} HeadsLenCounts(ms: seq<Mediate>)
    ensures HeadsLen(ms) == U32(32 * (|FlatHeads(ms)| + HeadsSkew(ms)))
  {
    if ms == [] {
    } else {
      HeadLenCounts(ms[0]);
      HeadsLenCounts(ms[1..]);
      U32Sum(|Head(ms[0], 0)| + HeadSkew(ms[0]), |FlatHeads(ms[1..])| + HeadsSkew(ms[1..]));
    }
  }

  /** `tail_len` is, modulo 2^32, 32 times the emitted words plus the skew. */
  lemma {:induction false} TailLenCounts(m: Mediate)
    ensures TailLen(m) == U32(32 * (|Tail(m)| + TailSkew(m)))
    decreases m, 1
  {
    hide HeadLen, HeadSkew, Heads, Tails, HeadsSkew, TailsSkew, BlockLen, EncodeHeadTail;
    match m
    case Raw(_) | RawTuple(_) =>
    case Prefixed(ws) => U32Times32(|ws|);
    case PrefixedArray(ms) => BlockLenCounts(ms);
    case PrefixedTuple(ms) => BlockLenCounts(ms);
    case PrefixedArrayWithLength(ms) =>
      BlockLenCounts(ms);
      U32Sum(1, |EncodeHeadTail(ms)| + HeadsSkew(ms) + TailsSkew(ms));
  }

  lemma {:induction false} BlockLenCounts(ms: seq<Mediate>)
    ensures BlockLen(ms) == U32(32 * (|EncodeHeadTail(ms)| + HeadsSkew(ms) + TailsSkew(ms)))
    decreases ms, 0
  {
    hide U32, HeadLen, TailLen, Head, Tail, HeadSkew, TailSkew;
    HeadsSize(ms, HeadsLen(ms));
    if ms != [] {
      var m, rest := ms[0], ms[1..];
      HeadLenCounts(m);
      TailLenCounts(m);
      BlockLenCounts(rest);
      HeadsSize(rest, HeadsLen(rest));
      var h, t := |Head(m, 0)| + HeadSkew(m), |Tail(m)| + TailSkew(m);
      var r := |EncodeHeadTail(rest)| + HeadsSkew(rest) + TailsSkew(rest);
      U32Sum(h, t);
      U32Sum(h + t, r);
      U32Absorbs(HeadLen(m) + TailLen(m), BlockLen(rest));
    } else {
      U32OfZero();
    }
  }

  lemma ExactWhenUnskewed(words: nat, skew: int)
    requires 32 * words < TWO_32
    ensures U32(32 * (words + skew)) == 32 * words <==> skew % TWO_27 == 0
  {
    var q, r := skew / TWO_27, skew % TWO_27;
    assert 32 * (words + skew) == 32 * words + 32 * r + q * TWO_32;
    ModShift(32 * words + 32 * r, q);
  }

  /** `head_len` and `tail_len` are 32 times the words really emitted exactly when the
      component counts of the static tuples add up to their word counts. */
  lemma LengthsExact(m: Mediate)
    requires 32 * |Head(m, 0)| < TWO_32 && 32 * |Tail(m)| < TWO_32
    ensures HeadLen(m) == 32 * |Head(m, 0)| <==> HeadSkew(m) % TWO_27 == 0
    ensures TailLen(m) == 32 * |Tail(m)| <==> TailSkew(m) % TWO_27 == 0
  {
    HeadLenCounts(m);
    TailLenCounts(m);
    ExactWhenUnskewed(|Head(m, 0)|, HeadSkew(m));
    ExactWhenUnskewed(|Tail(m)|, TailSkew(m));
  }

  // ---------- offsets ----------

  lemma PadU32Injective(a: u32, b: u32)
    requires PadU32(a) == PadU32(b)
    ensures a == b
  {
    Pow256Values();
    BigEndianRoundTrip(a, 4);
    BigEndianRoundTrip(b, 4);
    assert PadU32(a)[28..] == BigEndian(a, 4) && PadU32(b)[28..] == BigEndian(b, 4);
  }

  /** The offset in the head of entry `i`, when the running offset starts `s` words away
      from where the tails start. */
  lemma {:induction false} OffsetWord(ms: seq<Mediate>, offset: u32, p: int, s: int, i: nat)
    requires i < |ms| && ms[i].HasOffset() && offset == U32(32 * (p + s))
    ensures |FlatHeads(ms[..i])| < |Heads(ms, offset)|
    ensures Heads(ms, offset)[|FlatHeads(ms[..i])|]
         == PadU32(U32(32 * (p + |Tails(ms[..i])| + s + TailsSkew(ms[..i]))))
  {
    hide U32, TailLen, TailSkew, PadU32, Tail;
    if i > 0 {
      var next := U32(offset + TailLen(ms[0]));
      TailLenCounts(ms[0]);
      U32Sum(p + s, |Tail(ms[0])| + TailSkew(ms[0]));
      OffsetWord(ms[1..], next, p + |Tail(ms[0])|, s + TailSkew(ms[0]), i - 1);
      assert ms[..i][1..] == ms[1..][..i - 1];
      assert Heads(ms, offset) == Head(ms[0], offset) + Heads(ms[1..], next);
    } else {
      assert ms[..i] == [];
    }
  }

  /** The tail of entry `i` stands after all heads and the tails before it. */
  lemma TailPosition(ms: seq<Mediate>, i: nat)
    requires i < |ms|
    ensures var block, p := EncodeHeadTail(ms), |FlatHeads(ms)| + |Tails(ms[..i])|;
            p + |Tail(ms[i])| <= |block| && block[p..p + |Tail(ms[i])|] == Tail(ms[i])
  {
    hide Tail, Heads, FlatHeads;
    HeadsSize(ms, HeadsLen(ms));
    FlatHeadsSplit(ms, i);
    assert Tails(ms[i..]) == Tail(ms[i]) + Tails(ms[i..][1..]);
  }

  /** The offset word of entry `i`. */
  lemma OffsetWritten(ms: seq<Mediate>, i: nat)
    requires i < |ms| && ms[i].HasOffset()
    ensures var block, h, p := EncodeHeadTail(ms), |FlatHeads(ms[..i])|, |FlatHeads(ms)| + |Tails(ms[..i])|;
            h < |FlatHeads(ms)| <= |block| && block[h] == PadU32(U32(32 * (p + OffsetSkew(ms, i))))
  {
    hide Tail, Head, FlatHeads, Tails, PadU32, U32, HeadsSkew, TailsSkew;
    HeadsLenCounts(ms);
    HeadsSize(ms, HeadsLen(ms));
    OffsetWord(ms, HeadsLen(ms), |FlatHeads(ms)|, HeadsSkew(ms), i);
  }

  /** Layout of a block. The tail of entry `i` starts at word `p`, counted from the start
      of its own block, and the offset word in its head is the byte position of that tail
      exactly when the miscounts before it add up to nothing. */
  lemma OffsetIsTailPosition(ms: seq<Mediate>, i: nat)
    requires i < |ms| && ms[i].HasOffset()
    requires 32 * |EncodeHeadTail(ms)| < TWO_32
    ensures var block, h, p := EncodeHeadTail(ms), |FlatHeads(ms[..i])|, |FlatHeads(ms)| + |Tails(ms[..i])|;
            && h < |block| && p + |Tail(ms[i])| <= |block|
            && block[p..p + |Tail(ms[i])|] == Tail(ms[i])
            && (block[h] == PadU32(32 * p) <==> OffsetSkew(ms, i) % TWO_27 == 0)
  {
    hide EncodeHeadTail, OffsetSkew, FlatHeads, Tails, PadU32, U32;
    var p := |FlatHeads(ms)| + |Tails(ms[..i])|;
    TailPosition(ms, i);
    OffsetWritten(ms, i);
    ExactWhenUnskewed(p, OffsetSkew(ms, i));
    var written := U32(32 * (p + OffsetSkew(ms, i)));
    if PadU32(written) == PadU32(32 * p) {
      PadU32Injective(written, 32 * p);
    }
  }

  /** Every offset of a list of heads, starting with `offset` for a tail at word `p`, is the
      position of its tail, and so at every depth. */
  predicate OffsetsExact(ms: seq<Mediate>, offset: u32, p: nat)
    decreases ms
  {
    ms == [] ||
    ((ms[0].HasOffset() ==> offset == 32 * p && InnerExact(ms[0])) &&
     OffsetsExact(ms[1..], U32(offset + TailLen(ms[0])), p + |Tail(ms[0])|))
  }

  predicate InnerExact(m: Mediate) {
    match m
    case PrefixedArray(ms) => OffsetsExact(ms, HeadsLen(ms), |FlatHeads(ms)|)
    case PrefixedArrayWithLength(ms) => OffsetsExact(ms, HeadsLen(ms), |FlatHeads(ms)|)
    case PrefixedTuple(ms) => OffsetsExact(ms, HeadsLen(ms), |FlatHeads(ms)|)
    case _ => true
  }

  /** The miscounts before every offset add up to nothing, at every depth. A caller can
      compute this from the tokens. */
  predicate Balanced(ms: seq<Mediate>, skew: int) {
    ms == [] ||
    ((ms[0].HasOffset() ==> skew % TWO_27 == 0 && InnerBalanced(ms[0])) &&
     Balanced(ms[1..], skew + TailSkew(ms[0])))
  }

  predicate InnerBalanced(m: Mediate) {
    match m
    case PrefixedArray(ms) => Balanced(ms, HeadsSkew(ms))
    case PrefixedArrayWithLength(ms) => Balanced(ms, HeadsSkew(ms))
    case PrefixedTuple(ms) => Balanced(ms, HeadsSkew(ms))
    case _ => true
  }

  predicate BalancedBlock(ms: seq<Mediate>) {
    Balanced(ms, HeadsSkew(ms))
  }

  predicate ExactBlock(ms: seq<Mediate>) {
    OffsetsExact(ms, HeadsLen(ms), |FlatHeads(ms)|)
  }

  lemma {:induction false} ExactIffBalancedFrom(ms: seq<Mediate>, offset: u32, p: nat, s: int)
    requires offset == U32(32 * (p + s))
    requires 32 * (p + |Tails(ms)|) < TWO_32
    ensures OffsetsExact(ms, offset, p) <==> Balanced(ms, s)
    decreases ms, 0
  {
    if ms == [] {
    } else {
      var m := ms[0];
      TailLenCounts(m);
      U32Sum(p + s, |Tail(m)| + TailSkew(m));
      ExactIffBalancedFrom(ms[1..], U32(offset + TailLen(m)), p + |Tail(m)|, s + TailSkew(m));
      ExactWhenUnskewed(p, s);
      InnerExactIffBalanced(m);
    }
  }

  lemma {:induction false} InnerExactIffBalanced(m: Mediate)
    requires 32 * |Tail(m)| < TWO_32
    ensures InnerExact(m) <==> InnerBalanced(m)
    decreases m, 1
  {
    match m
    case PrefixedArray(ms) => ExactIffBalanced(ms);
    case PrefixedArrayWithLength(ms) => ExactIffBalanced(ms);
    case PrefixedTuple(ms) => ExactIffBalanced(ms);
    case _ =>
  }

  /** All offsets of an encoding, at every depth, point at their tails if and only if the
      component counts of its static tuples balance. */
  lemma {:induction false} ExactIffBalanced(ms: seq<Mediate>)
    requires 32 * |EncodeHeadTail(ms)| < TWO_32
    ensures ExactBlock(ms) <==> BalancedBlock(ms)
    decreases ms, 1
  {
    HeadsLenCounts(ms);
    HeadsSize(ms, HeadsLen(ms));
    ExactIffBalancedFrom(ms, HeadsLen(ms), |FlatHeads(ms)|, HeadsSkew(ms));
  }

  /** Every static tuple, at any depth, has components of one word each. */
  predicate OneWordTuples(ms: seq<Mediate>) {
    forall m :: m in ms ==> OneWordTuple(m)
  }

  predicate OneWordTuple(m: Mediate) {
    match m
    case RawTuple(ms) => forall c :: c in ms ==> |Head(c, 0)| == 1
    case PrefixedArray(ms) => forall c :: c in ms ==> OneWordTuple(c)
    case PrefixedArrayWithLength(ms) => forall c :: c in ms ==> OneWordTuple(c)
    case PrefixedTuple(ms) => forall c :: c in ms ==> OneWordTuple(c)
    case _ => true
  }

  lemma {:induction false} OneWordHeads(ms: seq<Mediate>)
    requires forall c :: c in ms ==> |Head(c, 0)| == 1
    ensures |FlatHeads(ms)| == |ms|
  {
    if ms == [] {
    } else {
      OneWordHeads(ms[1..]);
    }
  }

  lemma {:induction false} OneWordTuplesBalance(ms: seq<Mediate>)
    requires OneWordTuples(ms)
    ensures HeadsSkew(ms) == 0 && TailsSkew(ms) == 0 && Balanced(ms, 0)
    decreases ms, 0
  {
    if ms == [] {
    } else {
      OneWordTupleBalances(ms[0]);
      OneWordTuplesBalance(ms[1..]);
    }
  }

  lemma {:induction false} OneWordTupleBalances(m: Mediate)
    requires OneWordTuple(m)
    ensures HeadSkew(m) == 0 && TailSkew(m) == 0 && InnerBalanced(m)
    decreases m, 1
  {
    match m
    case RawTuple(ms) => OneWordHeads(ms);
    case PrefixedArray(ms) => OneWordTuplesBalance(ms);
    case PrefixedArrayWithLength(ms) => OneWordTuplesBalance(ms);
    case PrefixedTuple(ms) => OneWordTuplesBalance(ms);
    case _ =>
  }
}
