/** The encoding as the Contract ABI Specification defines it, in section "Formal Specification
    of the Encoding": every number, length and offset is a 256-bit number, and offsets are
    counted from the words that stand before the tail. The encoder of the source agrees with it
    exactly on the tokens whose static tuples balance. */
module AbiSpecification {
  import opened Words
  import opened AbiTypes
  import opened AbiEncoder
  import opened AbiLayout
  import opened AbiPlacement

  // ---------- the definition ----------

  /** A number as a word. */
  function Number(n: nat): Word {
    BigEndian(n, 32)
  }

  /** The fewest zeros that fill `n` bytes up to whole words. */
  function Padding(n: nat): (z: nat)
    ensures (n + z) % 32 == 0 && z < 32
  {
    (32 - n % 32) % 32
  }

  function PadRight(b: seq<byte>): seq<Word> {
    Chunks(b + Zeros(Padding(|b|)))
  }

  /** The encoding of one value. */
  function Enc(t: Token): seq<Word>
    decreases t, 2
  {
    match t
    case Address(a) => [Number(FromBigEndian(a))]
    case Int(v) => [Number(v)]
    case Uint(v) => [Number(v)]
    case Bool(b) => [Number(if b then 1 else 0)]
    case FixedBytes(b) => PadRight(b)
    case Bytes(b) => [Number(|b|)] + PadRight(b)
    case String(b) => [Number(|b|)] + PadRight(b)
    case Array(ts) => [Number(|ts|)] + EncBlock(ts)
    case FixedArray(ts) => EncBlock(ts)
    case Tuple(ts) => EncBlock(ts)
  }

  /** Values in sequence: the static ones in place and an offset for each dynamic one, then the
      dynamic ones. */
  function EncBlock(ts: seq<Token>): seq<Word>
    decreases ts, 1
  {
    EncHeads(ts, HeadWords(ts)) + EncTails(ts)
  }

  /** The words of all heads of a block. */
  function HeadWords(ts: seq<Token>): nat
    decreases ts, 0
  {
    if ts == [] then 0
    else (if ts[0].IsDynamic() then 1 else |Enc(ts[0])|) + HeadWords(ts[1..])
  }

  /** The heads of a block whose first tail stands at word `p`. */
  function EncHeads(ts: seq<Token>, p: nat): seq<Word>
    decreases ts, 0
  {
    if ts == [] then []
    else if ts[0].IsDynamic() then [Number(32 * p)] + EncHeads(ts[1..], p + |Enc(ts[0])|)
    else Enc(ts[0]) + EncHeads(ts[1..], p)
  }

  function EncTails(ts: seq<Token>): seq<Word>
    decreases ts, 0
  {
    if ts == [] then []
    else (if ts[0].IsDynamic() then Enc(ts[0]) else []) + EncTails(ts[1..])
  }

  // ---------- words as numbers ----------

  lemma {:induction false} BigEndianOfNumber(b: seq<byte>)
    ensures BigEndian(FromBigEndian(b), |b|) == b
  {
    if b == [] {
    } else {
      BigEndianOfNumber(b[..|b| - 1]);
    }
  }

  /** Writing a small number wider puts zeros in front. */
  lemma {:induction false} WiderIsZeros(v: nat, n: nat, k: nat)
    requires k <= n && v < Pow256(k)
    ensures BigEndian(v, n) == Zeros(n - k) + BigEndian(v, k)
  {
    if k == 0 {
      if n > 0 {
        WiderIsZeros(0, n - 1, 0);
      }
    } else {
      WiderIsZeros(v / 256, n - 1, k - 1);
    }
  }

  lemma ZerosInFront(b: seq<byte>)
    requires |b| <= 32
    ensures Zeros(32 - |b|) + b == Number(FromBigEndian(b))
  {
    BigEndianOfNumber(b);
    WiderIsZeros(FromBigEndian(b), 32, |b|);
  }

  lemma PadU32IsNumber(v: u32)
    ensures PadU32(v) == Number(v)
  {
    Pow256Values();
    WiderIsZeros(v, 32, 4);
  }

  lemma BoolIsNumber(b: bool)
    ensures Zeros(31) + [if b then 1 else 0] == Number(if b then 1 else 0)
  {
    var last: seq<byte> := [if b then 1 else 0];
    assert last[..0] == [] && FromBigEndian(last) == 256 * FromBigEndian(last[..0]) + last[0] as int;
    ZerosInFront(last);
  }

  lemma PaddingFacts(n: nat)
    ensures 0 < n <= 32 ==> Padding(n) == 32 - n
    ensures n >= 32 ==> Padding(n - 32) == Padding(n)
  {
  }

  lemma {:induction false} PadFixedBytesPadsRight(b: seq<byte>)
    ensures PadFixedBytes(b) == PadRight(b)
  {
    hide Padding;
    PaddingFacts(|b|);
    if b == [] {
      assert PadRight(b) == [] by {
        PaddingOfNone();
        assert b + Zeros(0) == [];
      }
    } else if |b| <= 32 {
      var padded := b + Zeros(32 - |b|);
      assert padded[..32] == padded && padded[32..] == [];
      assert Chunks(padded) == [padded];
    } else {
      PadFixedBytesPadsRight(b[32..]);
      var z := Zeros(Padding(|b|));
      assert (b + z)[..32] == b[..32] && (b + z)[32..] == b[32..] + z;
    }
  }

  lemma PaddingOfNone()
    ensures Padding(0) == 0
  {
  }

  // ---------- static values ----------

  /** A static value is encoded as the specification has it, whatever stands around it. */
  lemma {:induction false} StaticMeets(t: Token, offset: u32)
    requires !t.IsDynamic()
    ensures Head(EncodeToken(t), offset) == Enc(t) && Tail(EncodeToken(t)) == []
    decreases t, 1
  {
    match t
    case Address(a) => ZerosInFront(a);
    case Bool(b) => BoolIsNumber(b);
    case FixedBytes(b) => PadFixedBytesPadsRight(b);
    case FixedArray(ts) =>
      StaticsMeet(ts, HeadWords(ts));
      StaticBlock(ts, HeadsLen(EncodeTokens(ts)), 0);
    case Tuple(ts) => StaticsMeet(ts, HeadWords(ts));
    case _ =>
  }

  lemma {:induction false} StaticsMeet(ts: seq<Token>, p: nat)
    requires !AnyDynamic(ts)
    ensures FlatHeads(EncodeTokens(ts)) == EncHeads(ts, p) && EncTails(ts) == []
    decreases ts, 0
  {
    if ts == [] {
    } else {
      EncodeTokensCons(ts);
      StaticMeets(ts[0], 0);
      StaticsMeet(ts[1..], p);
    }
  }

  // ---------- sizes ----------

  /** Both emit the same number of words. */
  lemma {:induction false} SameTailSize(t: Token)
    requires t.IsDynamic()
    ensures |Tail(EncodeToken(t))| == |Enc(t)|
    decreases t, 1
  {
    match t
    case Bytes(b) => PadFixedBytesPadsRight(b);
    case String(b) => PadFixedBytesPadsRight(b);
    case Array(ts) => SameBlockSize(ts);
    case FixedArray(ts) => SameBlockSize(ts);
    case Tuple(ts) => SameBlockSize(ts);
    case _ =>
  }

  lemma {:induction false} SameBlockSize(ts: seq<Token>)
    ensures |EncodeHeadTail(EncodeTokens(ts))| == |EncBlock(ts)|
    decreases ts, 1
  {
    var ms := EncodeTokens(ts);
    SameSizes(ts, HeadWords(ts));
    HeadsSize(ms, HeadsLen(ms));
  }

  lemma {:induction false} SameSizes(ts: seq<Token>, p: nat)
    ensures |FlatHeads(EncodeTokens(ts))| == HeadWords(ts) == |EncHeads(ts, p)|
    ensures |Tails(EncodeTokens(ts))| == |EncTails(ts)|
    decreases ts, 0
  {
    hide Enc, EncodeToken;
    if ts == [] {
    } else {
      EncodeTokensCons(ts);
      DynamicHasOffset(ts[0]);
      if ts[0].IsDynamic() {
        SameTailSize(ts[0]);
        SameSizes(ts[1..], p + |Enc(ts[0])|);
      } else {
        StaticMeets(ts[0], 0);
        SameSizes(ts[1..], p);
      }
    }
  }

  // ---------- dynamic values ----------

  lemma SameLengthParts<T>(a: seq<T>, b: seq<T>, c: seq<T>, d: seq<T>)
    requires |a| == |c|
    ensures a + b == c + d <==> a == c && b == d
  {
    if a + b == c + d {
      assert a == (a + b)[..|a|] && c == (c + d)[..|c|];
      assert b == (a + b)[|a|..] && d == (c + d)[|c|..];
    }
  }

  lemma OffsetWordMeets(offset: u32, p: nat)
    requires 32 * p < TWO_32
    ensures PadU32(offset) == Number(32 * p) <==> offset == 32 * p
  {
    hide PadU32, Number;
    PadU32IsNumber(offset);
    PadU32IsNumber(32 * p);
    if PadU32(offset) == PadU32(32 * p) {
      PadU32Injective(offset, 32 * p);
    }
  }

  lemma BytesMeet(b: seq<byte>)
    requires 32 * |PadBytes(b)| < TWO_32
    ensures PadBytes(b) == [Number(|b|)] + PadRight(b)
  {
    hide PadU32, Number;
    PadFixedBytesPadsRight(b);
    PadU32IsNumber(|b|);
  }

  lemma {:induction false} TailMeetsIff(t: Token)
    requires t.IsDynamic() && LengthsFit(t) && 32 * |Tail(EncodeToken(t))| < TWO_32
    ensures Tail(EncodeToken(t)) == Enc(t) <==> InnerExact(EncodeToken(t))
    decreases t, 1
  {
    hide PadU32, Number, PadBytes, PadRight, EncodeHeadTail, EncBlock, OffsetsExact, HeadsLen, FlatHeads, U32;
    hide EncodeTokens, LengthsFitAll, AnyDynamic;
    match t
    case Bytes(b) => BytesMeet(b);
    case String(b) => BytesMeet(b);
    case Array(ts) =>
      BlockMeetsIff(ts);
      LengthMeets(ts);
      SameLengthParts([Number(|ts|)], EncodeHeadTail(EncodeTokens(ts)), [Number(|ts|)], EncBlock(ts));
    case FixedArray(ts) => BlockMeetsIff(ts);
    case Tuple(ts) => BlockMeetsIff(ts);
    case _ =>
  }

  lemma LengthMeets(ts: seq<Token>)
    requires |ts| < TWO_32
    ensures PadU32(U32(|EncodeTokens(ts)|)) == Number(|ts|)
  {
    hide PadU32, Number;
    PadU32IsNumber(|ts|);
  }

  lemma {:induction false} BlockMeetsIff(ts: seq<Token>)
    requires LengthsFitAll(ts) && 32 * |EncodeHeadTail(EncodeTokens(ts))| < TWO_32
    ensures EncodeHeadTail(EncodeTokens(ts)) == EncBlock(ts) <==> ExactBlock(EncodeTokens(ts))
    decreases ts, 1
  {
    hide OffsetsExact, Heads, Tails, EncHeads, EncTails, HeadWords, HeadsLen, FlatHeads;
    var ms := EncodeTokens(ts);
    var h := HeadWords(ts);
    SameSizes(ts, h);
    HeadsSize(ms, HeadsLen(ms));
    PartsMeetIff(ts, HeadsLen(ms), h);
    SameLengthParts(Heads(ms, HeadsLen(ms)), Tails(ms), EncHeads(ts, h), EncTails(ts));
  }

  /** Heads that start with `offset` for a tail at word `p`, and the tails, are as specified if
      and only if every offset in them is exact. */
  lemma {:induction false} PartsMeetIff(ts: seq<Token>, offset: u32, p: nat)
    requires LengthsFitAll(ts) && 32 * (p + |Tails(EncodeTokens(ts))|) < TWO_32
    ensures var ms := EncodeTokens(ts);
            Heads(ms, offset) == EncHeads(ts, p) && Tails(ms) == EncTails(ts) <==> OffsetsExact(ms, offset, p)
    decreases ts, 0
  {
    hide Enc, EncodeToken, Head, Tail, TailLen, InnerExact, LengthsFit, PadU32, Number, U32, Token.IsDynamic;
    if ts == [] {
    } else {
      var t, m := ts[0], EncodeToken(ts[0]);
      var ms, rest := EncodeTokens(ts[1..]), ts[1..];
      EncodeTokensCons(ts);
      DynamicHasOffset(t);
      var next := U32(offset + TailLen(m));
      if t.IsDynamic() {
        SameTailSize(t);
        TailMeetsIff(t);
        OffsetHead(t, offset);
        OffsetWordMeets(offset, p);
        PartsMeetIff(rest, next, p + |Enc(t)|);
        SameLengthParts([PadU32(offset)], Heads(ms, next), [Number(32 * p)], EncHeads(rest, p + |Enc(t)|));
        SameLengthParts(Tail(m), Tails(ms), Enc(t), EncTails(rest));
      } else {
        StaticMeets(t, offset);
        PartsMeetIff(rest, next, p);
        SameLengthParts(Enc(t), Heads(ms, next), Enc(t), EncHeads(rest, p));
        assert [] + Tails(ms) == Tails(ms) && [] + EncTails(rest) == EncTails(rest);
      }
    }
  }

  lemma OffsetHead(t: Token, offset: u32)
    requires t.IsDynamic()
    ensures Head(EncodeToken(t), offset) == [PadU32(offset)]
  {
  }

  /** The encoder agrees with the specification, byte for byte, if and only if the component
      counts of the static tuples balance. */
  lemma MeetsSpecificationIff(ts: seq<Token>)
    requires LengthsFitAll(ts) && |Encode(ts)| < TWO_32
    ensures Encode(ts) == Flatten(EncBlock(ts)) <==> BalancedBlock(EncodeTokens(ts))
  {
    hide EncodeHeadTail, EncBlock, ExactBlock, BalancedBlock, EncodeTokens, LengthsFitAll;
    ExactIffBalanced(EncodeTokens(ts));
    BlockMeetsIff(ts);
    if Encode(ts) == Flatten(EncBlock(ts)) {
      ChunksOfFlatten(EncodeWords(ts));
      ChunksOfFlatten(EncBlock(ts));
    }
  }

  // ---------- what stands where ----------

  /** In every block whatever, a static value stands at its head position as specified. */
  lemma {:induction false} StaticStandsAt(ts: seq<Token>, i: nat, offset: u32)
    requires i < |ts| && !ts[i].IsDynamic()
    ensures At(Heads(EncodeTokens(ts), offset), HeadWords(ts[..i]), Enc(ts[i]))
    decreases i
  {
    hide Enc, EncodeToken, Head, Tail, TailLen;
    var ms := EncodeTokens(ts[1..]);
    EncodeTokensCons(ts);
    var next := U32(offset + TailLen(EncodeToken(ts[0])));
    if i == 0 {
      StaticMeets(ts[0], offset);
      assert ts[..0] == [];
    } else {
      StaticStandsAt(ts[1..], i - 1, next);
      assert ts[..i][1..] == ts[1..][..i - 1];
      HeadSizeMeets(ts[0], offset);
      AtBehind(Head(EncodeToken(ts[0]), offset), Heads(ms, next), HeadWords(ts[1..][..i - 1]), Enc(ts[i]));
    }
  }

  lemma HeadSizeMeets(t: Token, offset: u32)
    ensures |Head(EncodeToken(t), offset)| == if t.IsDynamic() then 1 else |Enc(t)|
  {
    if t.IsDynamic() {
      OffsetHead(t, offset);
    } else {
      StaticMeets(t, offset);
    }
  }

  lemma AtBehind(a: seq<Word>, b: seq<Word>, i: nat, ws: seq<Word>)
    requires At(b, i, ws)
    ensures At(a + b, |a| + i, ws)
  {
    assert (a + b)[|a| + i..|a| + i + |ws|] == b[i..i + |ws|];
  }

  lemma StaticInBlock(ts: seq<Token>, i: nat)
    requires i < |ts| && !ts[i].IsDynamic()
    ensures At(EncodeWords(ts), HeadWords(ts[..i]), Enc(ts[i]))
  {
    hide Enc, HeadWords, Heads, HeadsLen, Tails, EncodeTokens;
    var ms := EncodeTokens(ts);
    StaticStandsAt(ts, i, HeadsLen(ms));
    var h, heads := HeadWords(ts[..i]), Heads(ms, HeadsLen(ms));
    assert (heads + Tails(ms))[h..h + |Enc(ts[i])|] == heads[h..h + |Enc(ts[i])|];
  }

  /** The value of a leaf as the number or the bytes that its word holds. */
  predicate LeafWord(t: Token, w: Word) {
    match t
    case Address(a) => FromBigEndian(w) == FromBigEndian(a)
    case Int(v) => FromBigEndian(w) == v
    case Uint(v) => FromBigEndian(w) == v
    case Bool(b) => FromBigEndian(w) == if b then 1 else 0
    case FixedBytes(b) => |b| <= 32 && w == b + Zeros(32 - |b|)
    case _ => false
  }

  predicate Leaf(t: Token) {
    t.Address? || t.Int? || t.Uint? || t.Bool? || (t.FixedBytes? && 1 <= |t.bytes| <= 32)
  }

  /** A leaf in any block stands at its head position as that one word. */
  lemma LeafInBlock(ts: seq<Token>, i: nat)
    requires i < |ts| && Leaf(ts[i])
    ensures HeadWords(ts[..i]) < |EncodeWords(ts)| && LeafWord(ts[i], EncodeWords(ts)[HeadWords(ts[..i])])
  {
    hide EncodeWords, HeadWords, FromBigEndian;
    var ws, h := EncodeWords(ts), HeadWords(ts[..i]);
    StaticInBlock(ts, i);
    LeafEnc(ts[i]);
    assert ws[h] == ws[h..h + 1][0];
  }

  lemma LeafEnc(t: Token)
    requires Leaf(t)
    ensures |Enc(t)| == 1 && LeafWord(t, Enc(t)[0])
  {
    hide Pow256, FromBigEndian, BigEndian, PadRight, EncBlock;
    match t
    case Address(a) =>
      Pow256Grows(20, 32);
      BigEndianRoundTrip(FromBigEndian(a), 32);
    case Int(v) => BigEndianRoundTrip(v, 32);
    case Uint(v) => BigEndianRoundTrip(v, 32);
    case Bool(b) =>
      Pow256Values();
      BigEndianRoundTrip(if b then 1 else 0, 32);
    case FixedBytes(b) =>
      PadFixedBytesPadsRight(b);
  }

  /** A leaf alone is one word of 32 bytes. */
  lemma LeafAlone(t: Token)
    requires Leaf(t)
    ensures |Encode([t])| == 32 && LeafWord(t, Encode([t]))
  {
    hide LeafWord;
    LeafInBlock([t], 0);
    LeafEnc(t);
    StaticMeets(t, 0);
    var ms := EncodeTokens([t]);
    assert [t][..0] == [] && [t][1..] == [] && ms == [EncodeToken(t)] && ms[1..] == [];
    StaticBlock([t], HeadsLen(ms), 0);
    var ws := EncodeWords([t]);
    assert |ws| == 1 && ws[1..] == [] && Flatten(ws) == ws[0];
  }
}
