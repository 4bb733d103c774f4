/** The round trip read off the kinds, and exactly where it ends. */
module AbiLimits {
  import opened Words
  import opened AbiTypes
  import opened AbiEncoder
  import opened AbiLayout
  import opened AbiDecoder
  import opened AbiSoundness
  import opened AbiPlacement
  import opened AbiRoundTrip

  /** How far `head_len` is off for a kind: components minus words of a static tuple. */
  function KindSkew(k: ParamKind): int {
    if k.TupleKind? && !k.IsDynamic() then |k.kinds| - KindsWords(k.kinds) else 0
  }

  function KindsSkew(ks: seq<ParamKind>): int {
    if ks == [] then 0 else KindSkew(ks[0]) + KindsSkew(ks[1..])
  }

  lemma HeadSkewByKind(t: Token, k: ParamKind)
    requires Exact(t, k) && SameDynamics(t, k)
    ensures HeadSkew(EncodeToken(t)) == KindSkew(k)
  {
    if t.Tuple? && !t.IsDynamic() {
      HeadSizesByKind(t.items, k.kinds);
    }
  }

  lemma {:induction false} HeadsSkewByKind(ts: seq<Token>, ks: seq<ParamKind>)
    requires ExactAll(ts, ks) && SameDynamicsAll(ts, ks)
    ensures HeadsSkew(EncodeTokens(ts)) == KindsSkew(ks)
  {
    if ts == [] {
    } else {
      EncodeTokensCons(ts);
      HeadSkewByKind(ts[0], ks[0]);
      HeadsSkewByKind(ts[1..], ks[1..]);
    }
  }

  // ---------- round trip by kind ----------

  /** Static tuples of this kind, at any depth where the layout depends on them, have
      components of one word each. */
  predicate OneWordKind(k: ParamKind) {
    match k
    case ArrayKind(e) => OneWordKind(e)
    case FixedArrayKind(e, _) => OneWordKind(e)
    case TupleKind(ks) =>
      if k.IsDynamic() then forall c :: c in ks ==> OneWordKind(c)
      else forall c :: c in ks ==> KindWords(c) == 1
    case _ => true
  }

  lemma {:induction false} OneWordByKind(t: Token, k: ParamKind)
    requires Exact(t, k) && SameDynamics(t, k) && OneWordKind(k)
    ensures OneWordTuple(EncodeToken(t))
    decreases t, 1
  {
    if t.Array? {
      OneWordsByKind(t.items, Repeat(k.elem, |t.items|));
    } else if t.FixedArray? && t.IsDynamic() {
      OneWordsByKind(t.items, Repeat(k.elem, k.len));
    } else if t.Tuple? {
      if t.IsDynamic() {
        OneWordsByKind(t.items, k.kinds);
      } else {
        OneWordParts(t.items, k.kinds);
      }
    }
  }

  lemma {:induction false} OneWordsByKind(ts: seq<Token>, ks: seq<ParamKind>)
    requires ExactAll(ts, ks) && SameDynamicsAll(ts, ks) && forall k :: k in ks ==> OneWordKind(k)
    ensures OneWordTuples(EncodeTokens(ts))
    decreases ts, 0
  {
    if ts == [] {
    } else {
      EncodeTokensCons(ts);
      OneWordByKind(ts[0], ks[0]);
      OneWordsByKind(ts[1..], ks[1..]);
    }
  }

  lemma {:induction false} OneWordParts(ts: seq<Token>, ks: seq<ParamKind>)
    requires ExactAll(ts, ks) && SameDynamicsAll(ts, ks) && forall k :: k in ks ==> KindWords(k) == 1
    ensures forall m :: m in EncodeTokens(ts) ==> |Head(m, 0)| == 1
  {
    if ts == [] {
    } else {
      EncodeTokensCons(ts);
      HeadSizeByKind(ts[0], ks[0]);
      OneWordParts(ts[1..], ks[1..]);
    }
  }

  /** Kinds whose static tuples have one-word components and that have no zero-length
      fixed array of a dynamic kind round trip every exactly typed list of tokens that
      fits `u32`. */
  lemma RoundTripByKind(ts: seq<Token>, ks: seq<ParamKind>)
    requires forall k :: k in ks ==> NoEmptyDynamicArray(k) && OneWordKind(k)
    requires ExactAll(ts, ks) && LengthsFitAll(ts) && |Encode(ts)| < TWO_32
    ensures SameDynamicsAll(ts, ks) && WithinLimits(ts)
    ensures RoundTrips(ts, ks) <==> Encode(ts) != [] || AllAllowEmpty(ks)
  {
    DynamicsAgreeAll(ts, ks);
    OneWordsByKind(ts, ks);
    OneWordTuplesBalance(EncodeTokens(ts));
    RoundTrip(ts, ks);
  }

  // ---------- static kinds ----------

  lemma {:induction false} StaticHasNoEmptyDynamic(k: ParamKind)
    requires !k.IsDynamic()
    ensures NoEmptyDynamicArray(k)
  {
    match k
    case FixedArrayKind(e, _) => StaticHasNoEmptyDynamic(e);
    case TupleKind(ks) => StaticsHaveNoEmptyDynamic(ks);
    case _ =>
  }

  lemma {:induction false} StaticsHaveNoEmptyDynamic(ks: seq<ParamKind>)
    requires !AnyDynamicKind(ks)
    ensures forall k :: k in ks ==> NoEmptyDynamicArray(k)
  {
    if ks == [] {
    } else {
      StaticHasNoEmptyDynamic(ks[0]);
      StaticsHaveNoEmptyDynamic(ks[1..]);
    }
  }

  lemma {:induction false} StaticLengthsFit(vs: seq<Token>)
    requires !AnyDynamic(vs)
    ensures LengthsFitAll(vs)
  {
    if vs == [] {
    } else {
      if vs[0].FixedArray? || vs[0].Tuple? {
        StaticLengthsFit(vs[0].items);
      }
      StaticLengthsFit(vs[1..]);
    }
  }

  /** A token of a static kind is static. */
  lemma StaticToken(t: Token, k: ParamKind)
    requires !k.IsDynamic() && Exact(t, k)
    ensures SameDynamics(t, k) && !t.IsDynamic() && LengthsFit(t)
  {
    StaticHasNoEmptyDynamic(k);
    DynamicsAgree(t, k);
    if t.FixedArray? || t.Tuple? {
      StaticLengthsFit(t.items);
    }
  }

  // ---------- flat kinds ----------

  /** A kind that is static, or `bytes` or `string`. */
  predicate Flat(k: ParamKind) {
    !k.IsDynamic() || k.BytesKind? || k.StringKind?
  }

  predicate FlatKinds(ks: seq<ParamKind>) {
    ks == [] || (Flat(ks[0]) && FlatKinds(ks[1..]))
  }

  lemma {:induction false} FlatRegular(ts: seq<Token>, ks: seq<ParamKind>)
    requires FlatKinds(ks) && ExactAll(ts, ks)
    ensures SameDynamicsAll(ts, ks) && LengthsFitAll(ts)
  {
    if ts == [] {
    } else {
      if !ks[0].IsDynamic() {
        StaticToken(ts[0], ks[0]);
      }
      FlatRegular(ts[1..], ks[1..]);
    }
  }

  lemma FlatNoTailSkew(t: Token, k: ParamKind)
    requires Flat(k) && Exact(t, k) && SameDynamics(t, k)
    ensures var m := EncodeToken(t);
            TailSkew(m) == 0 && InnerBalanced(m) && m.HasOffset() == k.IsDynamic()
  {
    DynamicHasOffset(t);
  }

  /** A flat list balances when it has no offsets, or when its heads are counted right. */
  lemma {:induction false} FlatBalanced(ts: seq<Token>, ks: seq<ParamKind>, skew: int)
    requires FlatKinds(ks) && ExactAll(ts, ks) && SameDynamicsAll(ts, ks)
    ensures Balanced(EncodeTokens(ts), skew) <==> !AnyDynamicKind(ks) || skew % TWO_27 == 0
  {
    hide Flat, EncodeToken, SameDynamics, Exact;
    if ts == [] {
    } else {
      EncodeTokensCons(ts);
      FlatNoTailSkew(ts[0], ks[0]);
      FlatBalanced(ts[1..], ks[1..], skew);
    }
  }

  ghost predicate RoundTripsIfFits(ts: seq<Token>, ks: seq<ParamKind>) {
    ExactAll(ts, ks) && |Encode(ts)| < TWO_32 && (Encode(ts) != [] || AllAllowEmpty(ks)) ==> RoundTrips(ts, ks)
  }

  lemma FlatRoundTrips(ts: seq<Token>, ks: seq<ParamKind>)
    requires FlatKinds(ks) && (!AnyDynamicKind(ks) || KindsSkew(ks) % TWO_27 == 0)
    ensures RoundTripsIfFits(ts, ks)
  {
    hide FlatKinds, AnyDynamicKind, KindsSkew, SameDynamicsAll, LengthsFitAll, Encode;
    if ExactAll(ts, ks) {
      FlatRegular(ts, ks);
      HeadsSkewByKind(ts, ks);
      FlatBalanced(ts, ks, KindsSkew(ks));
      RoundTrip(ts, ks);
    }
  }

  // ---------- a list that fails ----------

  /** The token of a static kind whose words are all zero. */
  function ZeroToken(k: ParamKind): Token
    requires !k.IsDynamic()
    decreases Depth(k), 0, 0
  {
    match k
    case AddressKind => Address(Zeros(20))
    case IntKind(_) => Int(0)
    case UintKind(_) => Uint(0)
    case BoolKind => Bool(false)
    case FixedBytesKind(len) => FixedBytes(Zeros(len))
    case FixedArrayKind(e, len) =>
      AnyDynamicRepeat(e, len);
      FixedArray(ZeroTokens(Repeat(e, len)))
    case TupleKind(ks) => Tuple(ZeroTokens(ks))
  }

  function ZeroTokens(ks: seq<ParamKind>): (ts: seq<Token>)
    requires !AnyDynamicKind(ks)
    ensures |ts| == |ks|
    decreases MaxDepth(ks), 1, |ks|
  {
    if ks == [] then [] else [ZeroToken(ks[0])] + ZeroTokens(ks[1..])
  }

  predicate AllZero(ws: seq<Word>) {
    forall w :: w in ws ==> w == Zeros(32)
  }

  lemma {:induction false} PaddedZeros(n: nat)
    ensures AllZero(PadFixedBytes(Zeros(n)))
  {
    if n > 32 {
      PaddedZeros(n - 32);
      assert Zeros(n)[32..] == Zeros(n - 32) && Zeros(n)[..32] == Zeros(32);
    } else if n > 0 {
      assert Zeros(n) + Zeros(32 - n) == Zeros(32);
    }
  }

  lemma {:induction false} ZeroNumber(n: nat)
    ensures BigEndian(0, n) == Zeros(n)
  {
    if n == 0 {
    } else {
      ZeroNumber(n - 1);
    }
  }

  lemma {:induction false} ZeroTokenIsZero(k: ParamKind)
    requires !k.IsDynamic()
    ensures Exact(ZeroToken(k), k) && !ZeroToken(k).IsDynamic() && AllZero(Head(EncodeToken(ZeroToken(k)), 0))
    decreases Depth(k), 0, 0
  {
    match k
    case FixedArrayKind(e, len) =>
      AnyDynamicRepeat(e, len);
      ZeroTokensAreZero(Repeat(e, len));
      var ts := ZeroTokens(Repeat(e, len));
      StaticBlock(ts, HeadsLen(EncodeTokens(ts)), 0);
    case TupleKind(ks) => ZeroTokensAreZero(ks);
    case FixedBytesKind(len) => PaddedZeros(len);
    case AddressKind => assert Zeros(12) + Zeros(20) == Zeros(32);
    case BoolKind => assert Zeros(31) + [0] == Zeros(32);
    case IntKind(_) => ZeroNumber(32);
    case UintKind(_) => ZeroNumber(32);
  }

  lemma {:induction false} ZeroTokensAreZero(ks: seq<ParamKind>)
    requires !AnyDynamicKind(ks)
    ensures ExactAll(ZeroTokens(ks), ks) && !AnyDynamic(ZeroTokens(ks))
    ensures AllZero(FlatHeads(EncodeTokens(ZeroTokens(ks))))
    decreases MaxDepth(ks), 1, |ks|
  {
    if ks == [] {
    } else {
      var ts := ZeroTokens(ks);
      assert ts[0] == ZeroToken(ks[0]) && ts[1..] == ZeroTokens(ks[1..]);
      EncodeTokensCons(ts);
      ZeroTokenIsZero(ks[0]);
      ZeroTokensAreZero(ks[1..]);
    }
  }

  /** Values of flat kinds that are all zero or empty, but for the byte 1 in the first `bytes`
      or `string` when it is to be marked. */
  function Values(ks: seq<ParamKind>, mark: bool): (ts: seq<Token>)
    requires FlatKinds(ks)
    ensures |ts| == |ks|
  {
    if ks == [] then []
    else if !ks[0].IsDynamic() then [ZeroToken(ks[0])] + Values(ks[1..], mark)
    else [ByteLeaf(ks[0], if mark then [1] else [])] + Values(ks[1..], false)
  }

  function ByteLeaf(k: ParamKind, b: seq<byte>): Token {
    if k.BytesKind? then Bytes(b) else String(b)
  }

  lemma {:induction false} ValuesExact(ks: seq<ParamKind>, mark: bool)
    requires FlatKinds(ks)
    ensures ExactAll(Values(ks, mark), ks)
  {
    if ks == [] {
    } else {
      if !ks[0].IsDynamic() {
        ZeroTokenIsZero(ks[0]);
        ValuesExact(ks[1..], mark);
      } else {
        ValuesExact(ks[1..], false);
      }
    }
  }

  /** A word that does not read as the number 1. */
  predicate Unmarked(w: Word) {
    AsU32(w) != Ok(1)
  }

  predicate AllUnmarked(ws: seq<Word>) {
    forall w :: w in ws ==> Unmarked(w)
  }

  lemma ZeroUnmarked()
    ensures Unmarked(Zeros(32)) && PadU32(0) == Zeros(32)
  {
    ZeroNumber(4);
    AsU32OfPadU32(0);
    assert PadU32(0) == Zeros(32);
  }

  lemma OffsetUnmarked(offset: u32)
    requires offset % 32 == 0
    ensures Unmarked(PadU32(offset))
  {
    AsU32OfPadU32(offset);
  }

  lemma MultipleOf32(n: int)
    ensures U32(32 * n) % 32 == 0
  {
    var q := (32 * n) / TWO_32;
    assert U32(32 * n) == 32 * (n - q * TWO_27);
  }

  lemma NextOffsetMultiple(offset: u32, m: Mediate)
    requires offset % 32 == 0
    ensures U32(offset + TailLen(m)) % 32 == 0
  {
    TailLenCounts(m);
    var n := |Tail(m)| + TailSkew(m);
    U32Absorbs(32 * n, offset);
    MultipleOf32(n + offset / 32);
  }

  lemma StaticHead(m: Mediate, offset: u32)
    requires !m.HasOffset()
    ensures Head(m, offset) == Head(m, 0) && Tail(m) == [] && U32(offset + TailLen(m)) == offset
  {
  }

  lemma ZeroHead(k: ParamKind, offset: u32)
    requires !k.IsDynamic()
    ensures var m := EncodeToken(ZeroToken(k));
            && !m.HasOffset() && AllUnmarked(Head(m, offset)) && Tail(m) == [] && U32(offset + TailLen(m)) == offset
            && |Head(m, offset)| == KindWords(k)
  {
    var t := ZeroToken(k);
    ZeroTokenIsZero(k);
    DynamicHasOffset(t);
    StaticHead(EncodeToken(t), offset);
    ZeroUnmarked();
    StaticToken(t, k);
    HeadSizeByKind(t, k);
  }

  lemma {:induction false} HeadsUnmarked(ks: seq<ParamKind>, mark: bool, offset: u32)
    requires FlatKinds(ks) && offset % 32 == 0
    ensures AllUnmarked(Heads(EncodeTokens(Values(ks, mark)), offset))
  {
    hide EncodeToken, Head, Tail, TailLen, Unmarked, PadU32, U32, ZeroToken;
    if ks == [] {
    } else {
      var ts := Values(ks, mark);
      EncodeTokensCons(ts);
      var m, rest := EncodeToken(ts[0]), ts[1..];
      NextOffsetMultiple(offset, m);
      if !ks[0].IsDynamic() {
        assert rest == Values(ks[1..], mark);
        ZeroHead(ks[0], offset);
        HeadsUnmarked(ks[1..], mark, offset);
      } else {
        assert rest == Values(ks[1..], false);
        LeafHead(ks[0], if mark then [1] else [], offset);
        OffsetUnmarked(offset);
        HeadsUnmarked(ks[1..], false, U32(offset + TailLen(m)));
      }
    }
  }

  lemma LeafHead(k: ParamKind, b: seq<byte>, offset: u32)
    ensures var m := EncodeToken(ByteLeaf(k, b));
            m.HasOffset() && Head(m, offset) == [PadU32(offset)] && Tail(m) == PadBytes(b)
  {
  }

  lemma MarkedBytes()
    ensures PadBytes([]) == [PadU32(0)]
    ensures |PadBytes([1])| == 2 && PadBytes([1])[0] == PadU32(1) && Unmarked(PadBytes([1])[1])
  {
    var data := PadFixedBytes([1])[0];
    assert data == [1] + Zeros(31);
    assert data[..28][0] == 1 && Zeros(28)[0] == 0;
  }

  /** Among the tails only the first word can be marked. */
  lemma {:induction false} TailsUnmarked(ks: seq<ParamKind>, mark: bool)
    requires FlatKinds(ks)
    ensures var tails := Tails(EncodeTokens(Values(ks, mark)));
            && |tails| <= |ks| + 1
            && (if mark && AnyDynamicKind(ks) then tails != [] && AllUnmarked(tails[1..]) else AllUnmarked(tails))
            && (!mark ==> |tails| <= |ks|)
  {
    hide EncodeToken, Head, Tail, Unmarked, PadU32, ZeroToken, PadBytes;
    if ks == [] {
    } else {
      var ts := Values(ks, mark);
      EncodeTokensCons(ts);
      var m, rest := EncodeToken(ts[0]), ts[1..];
      if !ks[0].IsDynamic() {
        assert rest == Values(ks[1..], mark);
        ZeroHead(ks[0], 0);
        TailsUnmarked(ks[1..], mark);
        assert Tails(EncodeTokens(ts)) == [] + Tails(EncodeTokens(rest)) == Tails(EncodeTokens(rest));
      } else {
        assert rest == Values(ks[1..], false);
        LeafHead(ks[0], if mark then [1] else [], 0);
        MarkedBytes();
        ZeroUnmarked();
        TailsUnmarked(ks[1..], false);
        var more := Tails(EncodeTokens(rest));
        if mark {
          assert (PadBytes([1]) + more)[1..] == [PadBytes([1])[1]] + more;
        }
      }
    }
  }

  /** Bytes read through an offset to an unmarked word are not one byte long. */
  lemma UnmarkedLength(slices: seq<Word>, o: nat, offset: u32)
    requires Peek(slices, o) == Ok(PadU32(offset))
    requires offset / 32 < |slices| ==> Unmarked(slices[offset / 32])
    ensures ReadBytes(slices, o).Ok? ==> |ReadBytes(slices, o).value| != 1
  {
    AsU32OfPadU32(offset);
  }

  /** If the first offset is not the position `m` of the marked word, the marked value does not
      come back. */
  lemma {:induction false} MarkMissed(ks: seq<ParamKind>, slices: seq<Word>, o: nat, offset: u32, m: nat)
    requires FlatKinds(ks) && AnyDynamicKind(ks) && At(slices, o, Heads(EncodeTokens(Values(ks, true)), offset))
    requires offset % 32 == 0 && offset != 32 * m
    requires forall q :: 0 <= q < |slices| && q != m ==> Unmarked(slices[q])
    ensures DecodeEach(ks, slices, o).Ok? ==> DecodeEach(ks, slices, o).value.0 != Values(ks, true)
  {
    hide EncodeToken, Head, Tail, TailLen, PadU32, U32, ZeroToken, Unmarked, At, ReadBytes;
    var ts := Values(ks, true);
    EncodeTokensCons(ts);
    if DecodeEach(ks, slices, o).Ok? {
      DecodeParamSound(ks[0], slices, o);
      if !ks[0].IsDynamic() {
        assert ts[1..] == Values(ks[1..], true);
        ZeroHead(ks[0], offset);
        AtSplit(slices, o, Head(EncodeToken(ts[0]), offset), Heads(EncodeTokens(ts[1..]), offset));
        MarkMissed(ks[1..], slices, o + KindWords(ks[0]), offset, m);
        var rest := DecodeEach(ks[1..], slices, o + KindWords(ks[0])).value.0;
        assert DecodeEach(ks, slices, o).value.0[1..] == rest;
      } else {
        LeafHead(ks[0], [1], offset);
        var next := U32(offset + TailLen(EncodeToken(ts[0])));
        AtSplit(slices, o, [PadU32(offset)], Heads(EncodeTokens(ts[1..]), next));
        OneWord(slices, o, PadU32(offset));
        UnmarkedLength(slices, o, offset);
        assert DecodeEach(ks, slices, o).value.0[0] == DecodeParam(ks[0], slices, o).value.0;
      }
    }
  }

  lemma MarkedWords(ks: seq<ParamKind>)
    requires FlatKinds(ks) && AnyDynamicKind(ks)
    ensures var ts, words := Values(ks, true), EncodeWords(Values(ks, true));
            && |words| <= KindsWords(ks) + |ks| + 1
            && HeadsLen(EncodeTokens(ts)) == U32(32 * (KindsWords(ks) + KindsSkew(ks)))
            && At(words, 0, Heads(EncodeTokens(ts), HeadsLen(EncodeTokens(ts))))
            && words != []
            && forall q :: 0 <= q < |words| && q != KindsWords(ks) ==> Unmarked(words[q])
  {
    hide Unmarked, U32, Values, FlatKinds, AnyDynamicKind, KindsWords, KindsSkew, EncodeTokens, Heads, Tails, FlatHeads;
    var ts := Values(ks, true);
    var ms := EncodeTokens(ts);
    ValuesExact(ks, true);
    FlatRegular(ts, ks);
    HeadSizesByKind(ts, ks);
    HeadsSkewByKind(ts, ks);
    HeadsLenCounts(ms);
    HeadsSize(ms, HeadsLen(ms));
    MultipleOf32(KindsWords(ks) + KindsSkew(ks));
    HeadsUnmarked(ks, true, HeadsLen(ms));
    TailsUnmarked(ks, true);
    var heads, tails := Heads(ms, HeadsLen(ms)), Tails(ms);
    forall q | 0 <= q < |heads + tails| && q != KindsWords(ks)
      ensures Unmarked((heads + tails)[q])
    {
      if q < |heads| {
        assert heads[q] in heads;
      } else {
        assert tails[1..][q - |heads| - 1] in tails[1..];
      }
    }
  }

  lemma MiscountFails(ks: seq<ParamKind>)
    requires FlatKinds(ks) && AnyDynamicKind(ks) && KindsSkew(ks) % TWO_27 != 0
    requires 32 * (KindsWords(ks) + |ks| + 1) < TWO_32
    ensures !RoundTripsIfFits(Values(ks, true), ks)
  {
    hide FlatKinds, AnyDynamicKind, KindsSkew, KindsWords, Values, EncodeWords, Heads, HeadsLen, EncodeTokens, U32, Unmarked, DecodeEach;
    var ts := Values(ks, true);
    ValuesExact(ks, true);
    MarkedWords(ks);
    ExactWhenUnskewed(KindsWords(ks), KindsSkew(ks));
    MultipleOf32(KindsWords(ks) + KindsSkew(ks));
    MarkMissed(ks, EncodeWords(ts), 0, HeadsLen(EncodeTokens(ts)), KindsWords(ks));
    ChunksOfFlatten(EncodeWords(ts));
  }

  /** Parameters that are static or `bytes` or `string`, in any number and order, round trip for
      all values if and only if there are no offsets among them or their static tuples count as
      many components as they have words. */
  lemma MiscountedTuples(ks: seq<ParamKind>)
    requires FlatKinds(ks) && 32 * (KindsWords(ks) + |ks| + 1) < TWO_32
    ensures (forall ts :: RoundTripsIfFits(ts, ks)) <==> !AnyDynamicKind(ks) || KindsSkew(ks) % TWO_27 == 0
  {
    hide FlatKinds, AnyDynamicKind, KindsSkew, RoundTripsIfFits;
    if !AnyDynamicKind(ks) || KindsSkew(ks) % TWO_27 == 0 {
      forall ts
        ensures RoundTripsIfFits(ts, ks)
      {
        FlatRoundTrips(ts, ks);
      }
    } else {
      MiscountFails(ks);
    }
  }

  /** A static tuple of one component, before `bytes`, round trips for all values if and only if
      the component is one word. */
  lemma SingleComponent(k: ParamKind)
    requires !k.IsDynamic() && 32 * (KindWords(k) + 4) < TWO_32
    ensures (forall ts :: RoundTripsIfFits(ts, [TupleKind([k]), BytesKind])) <==> KindWords(k) == 1
  {
    hide RoundTripsIfFits;
    var tuple := TupleKind([k]);
    var ks := [tuple, BytesKind];
    assert [k][1..] == [] && ks[1..] == [BytesKind] && [BytesKind][1..] == [];
    assert KindsWords([k]) == KindWords(k) && !AnyDynamicKind([k]);
    assert AnyDynamicKind([BytesKind]) && KindsSkew([BytesKind]) == 0;
    assert KindSkew(tuple) == 1 - KindWords(k) && KindsSkew(ks) == KindSkew(tuple) + KindsSkew([BytesKind]);
    assert KindsWords(ks) == KindWords(k) + KindsWords([BytesKind]) == KindWords(k) + 1;
    MiscountedTuples(ks);
  }

  /** The smallest case: with one fixed array of two words as the component, the offset
      written is one word short. */
  lemma TwoWordComponent()
    ensures exists ts :: !RoundTripsIfFits(ts, [TupleKind([FixedArrayKind(BoolKind, 2)]), BytesKind])
  {
    assert KindWords(FixedArrayKind(BoolKind, 2)) == 2 * KindWords(BoolKind);
    SingleComponent(FixedArrayKind(BoolKind, 2));
  }

  // ---------- zero-length fixed arrays ----------

  /** A zero-length fixed array of a dynamic kind. */
  predicate EmptyDynamic(k: ParamKind) {
    k.FixedArrayKind? && k.len == 0 && k.elem.IsDynamic()
  }

  predicate StaticOrEmpty(ks: seq<ParamKind>) {
    ks == [] || ((!ks[0].IsDynamic() || EmptyDynamic(ks[0])) && StaticOrEmpty(ks[1..]))
  }

  function EmptyCount(ks: seq<ParamKind>): nat {
    if ks == [] then 0 else (if EmptyDynamic(ks[0]) then 1 else 0) + EmptyCount(ks[1..])
  }

  /** Each of them takes a word from the decoder and none from the encoder. */
  lemma {:induction false} EmptyArraysEmitNothing(ts: seq<Token>, ks: seq<ParamKind>)
    requires StaticOrEmpty(ks) && ExactAll(ts, ks)
    ensures !AnyDynamic(ts) && |FlatHeads(EncodeTokens(ts))| + EmptyCount(ks) == KindsWords(ks)
    ensures AnyDynamicKind(ks) <==> EmptyCount(ks) > 0
  {
    hide KindWords;
    if ts == [] {
    } else {
      EncodeTokensCons(ts);
      EmptyArraysEmitNothing(ts[1..], ks[1..]);
      EmptyOrStatic(ts[0], ks[0]);
    }
  }

  lemma EmptyOrStatic(t: Token, k: ParamKind)
    requires (!k.IsDynamic() || EmptyDynamic(k)) && Exact(t, k)
    ensures !t.IsDynamic() && (EmptyDynamic(k) <==> k.IsDynamic())
    ensures |Head(EncodeToken(t), 0)| + (if EmptyDynamic(k) then 1 else 0) == KindWords(k)
  {
    if !k.IsDynamic() {
      StaticToken(t, k);
      HeadSizeByKind(t, k);
    } else {
      assert t.items == [] && EncodeToken(t) == Raw(EncodeHeadTail([]));
    }
  }

  /** Static parameters with zero-length fixed arrays of dynamic kinds among them: no value
      whatever round trips, because the decoder runs out of words; without them every value
      that fits does. */
  lemma EmptyFixedArrays(ts: seq<Token>, ks: seq<ParamKind>)
    requires StaticOrEmpty(ks) && ExactAll(ts, ks) && |Encode(ts)| < TWO_32
    ensures RoundTrips(ts, ks) <==> !AnyDynamicKind(ks) && (Encode(ts) != [] || AllAllowEmpty(ks))
  {
    hide StaticOrEmpty, KindsWords, EmptyCount, DecodeEach, ExactAll;
    var ms := EncodeTokens(ts);
    EmptyArraysEmitNothing(ts, ks);
    StaticBlock(ts, HeadsLen(ms), 0);
    if AnyDynamicKind(ks) {
      if RoundTrips(ts, ks) {
        ChunksOfFlatten(EncodeWords(ts));
        DecodeEachHeadsThere(ks, EncodeWords(ts), 0);
      }
    } else {
      StaticsAreFlat(ks);
      FlatRoundTrips(ts, ks);
      RoundTrip(ts, ks);
    }
  }

  lemma {:induction false} StaticsAreFlat(ks: seq<ParamKind>)
    requires !AnyDynamicKind(ks)
    ensures FlatKinds(ks)
  {
    if ks == [] {
    } else {
      StaticsAreFlat(ks[1..]);
    }
  }

  lemma EmptyEncoding()
    ensures Encode([FixedArray([])]) == []
  {
    var ts := [FixedArray([])];
    assert ts[1..] == [] && EncodeToken(ts[0]) == Raw([]);
    assert EncodeTokens(ts) == [Raw([])];
    assert Heads([Raw([])], 0) == [] && Tails([Raw([])]) == [];
  }

  /** The smallest case. */
  lemma EmptyFixedArray(e: ParamKind)
    ensures RoundTrips([FixedArray([])], [FixedArrayKind(e, 0)]) <==> !e.IsDynamic()
  {
    hide RoundTrips, Encode;
    var k := FixedArrayKind(e, 0);
    var ts, ks := [FixedArray([])], [k];
    assert ts[1..] == [] && ks[1..] == [] && Exact(ts[0], k);
    assert k.IsDynamic() == e.IsDynamic() && k.AllowsEmptyBytes();
    assert StaticOrEmpty(ks[1..]) && ks[0] == k;
    assert !AnyDynamicKind(ks[1..]) && AllAllowEmpty(ks);
    EmptyEncoding();
    EmptyFixedArrays(ts, ks);
  }
}
