/** The decoder reads whatever an encoder that follows the specification writes, also where the
    encoder of the source does not follow it. */
module AbiInterop {
  import opened Words
  import opened AbiTypes
  import opened AbiEncoder
  import opened AbiDecoder
  import opened AbiSoundness
  import opened AbiPlacement
  import opened AbiSpecification
  import opened AbiReading

  lemma NumberAt(slices: seq<Word>, o: nat, n: nat)
    requires At(slices, o, [Number(n)]) && n < Pow256(32)
    ensures Reads(slices, o, n)
  {
    OneWord(slices, o, Number(n));
    BigEndianRoundTrip(n, 32);
  }

  lemma OffsetAt(slices: seq<Word>, o: nat, p: nat)
    requires At(slices, o, [Number(32 * p)]) && 32 * p < TWO_32
    ensures Points(slices, o) && Target(slices, o) == p
  {
    Pow256Values();
    NumberAt(slices, o, 32 * p);
  }

  lemma PaddedAt(slices: seq<Word>, o: nat, b: seq<byte>)
    requires At(slices, o, PadRight(b))
    ensures BytesAt(slices, o, b)
  {
    hide PadRight, BytesAt, TakeBytes;
    PadFixedBytesPadsRight(b);
    TakeBytesOk(b, slices, o);
    TakeBytesReads(slices, o, b);
  }

  lemma BytesStand(b: seq<byte>, slices: seq<Word>, o: nat, p: nat)
    requires 32 * |slices| < TWO_32 && At(slices, o, [Number(32 * p)]) && At(slices, p, [Number(|b|)] + PadRight(b))
    ensures BytesBehind(slices, o, b)
  {
    hide PadRight, BytesAt, Number, At, Reads, Points;
    AtWithin(slices, p, [Number(|b|)] + PadRight(b));
    AtSplit(slices, p, [Number(|b|)], PadRight(b));
    OffsetAt(slices, o, p);
    PadFixedBytesPadsRight(b);
    Pow256Values();
    NumberAt(slices, p, |b|);
    PaddedAt(slices, p + 1, b);
  }

  lemma AtWithin(slices: seq<Word>, p: nat, ws: seq<Word>)
    requires At(slices, p, ws)
    ensures p + |ws| <= |slices|
  {
  }

  lemma LeafStands(t: Token, k: ParamKind, slices: seq<Word>, o: nat)
    requires Exact(t, k) && !t.IsDynamic() && !t.FixedArray? && !t.Tuple? && At(slices, o, Enc(t))
    ensures Stands(t, k, slices, o)
  {
    hide Pow256, FromBigEndian, BigEndian, PadRight, BytesAt, At, EncBlock, StandEach, StandInBlock, ExactAll, Repeat;
    Pow256Values();
    match t
    case FixedBytes(b) => PaddedAt(slices, o, b);
    case Address(a) =>
      Pow256Grows(20, 32);
      NumberAt(slices, o, FromBigEndian(a));
      SmallMod(FromBigEndian(a), Pow256(20));
    case Bool(b) => NumberAt(slices, o, if b then 1 else 0);
    case Int(v) => NumberAt(slices, o, v);
    case Uint(v) => NumberAt(slices, o, v);
  }

  /** The head of a value at `o`, and its tail at `p` when it has one. */
  ghost predicate Laid(t: Token, slices: seq<Word>, o: nat, p: nat) {
    if t.IsDynamic() then At(slices, o, [Number(32 * p)]) && At(slices, p, Enc(t)) else At(slices, o, Enc(t))
  }

  lemma {:induction false} SpecifiedStands(t: Token, k: ParamKind, slices: seq<Word>, o: nat, p: nat)
    requires Exact(t, k) && SameDynamics(t, k) && LengthsFit(t) && 32 * |slices| < TWO_32 && Laid(t, slices, o, p)
    ensures Stands(t, k, slices, o)
    decreases t, 2
  {
    hide At, ExactAll, SameDynamicsAll, StandEach, BytesBehind, PadRight, Number, LengthsFitAll, StandInBlock;
    if t.Array? {
      ArrayStands(t, k, slices, o, p);
    } else if t.FixedArray? || t.Tuple? {
      PartsStand(t, k, slices, o, p);
    } else if t.IsDynamic() {
      BytesStand(t.bytes, slices, o, p);
    } else {
      LeafStands(t, k, slices, o);
    }
  }

  lemma {:induction false} ArrayStands(t: Token, k: ParamKind, slices: seq<Word>, o: nat, p: nat)
    requires t.Array? && Exact(t, k) && SameDynamics(t, k) && LengthsFit(t) && 32 * |slices| < TWO_32
    requires Laid(t, slices, o, p)
    ensures Stands(t, k, slices, o)
    decreases t, 1
  {
    hide At, Number, Points, Reads, EncBlock, StandEach;
    var n := |t.items|;
    AtWithin(slices, p, Enc(t));
    AtSplit(slices, p, [Number(n)], EncBlock(t.items));
    OffsetAt(slices, o, p);
    Pow256Values();
    NumberAt(slices, p, n);
    BlockStands(t.items, Repeat(k.elem, n), slices, p + 1);
  }

  lemma StaticParts(ts: seq<Token>)
    requires !AnyDynamic(ts)
    ensures EncBlock(ts) == EncHeads(ts, 0) && EncTails(ts) == []
  {
    StaticsMeet(ts, HeadWords(ts));
    StaticsMeet(ts, 0);
    assert EncHeads(ts, 0) + [] == EncHeads(ts, 0);
  }

  lemma {:induction false} PartsStand(t: Token, k: ParamKind, slices: seq<Word>, o: nat, p: nat)
    requires (t.FixedArray? || t.Tuple?) && Exact(t, k) && SameDynamics(t, k) && LengthsFit(t)
    requires 32 * |slices| < TWO_32 && Laid(t, slices, o, p)
    ensures StandInBlock(t.items, PartKinds(k), t.IsDynamic(), slices, o)
    decreases t, 1
  {
    hide Number, Points, StandEach, EncBlock, EncHeads, EncTails, AnyDynamic;
    var ts := t.items;
    if t.IsDynamic() {
      AtWithin(slices, p, Enc(t));
      OffsetAt(slices, o, p);
      BlockStands(ts, PartKinds(k), slices, p);
    } else {
      StaticParts(ts);
      EachStands(ts, PartKinds(k), slices, o, 0);
    }
  }

  lemma {:induction false} BlockStands(ts: seq<Token>, ks: seq<ParamKind>, slices: seq<Word>, p: nat)
    requires ExactAll(ts, ks) && SameDynamicsAll(ts, ks) && LengthsFitAll(ts)
    requires 32 * |slices| < TWO_32 && At(slices, p, EncBlock(ts))
    ensures p <= |slices| && StandEach(ts, ks, slices[p..], 0)
    decreases ts, 1
  {
    hide ExactAll, SameDynamicsAll, LengthsFitAll, EncHeads, EncTails, HeadWords, StandEach;
    var h := HeadWords(ts);
    SameSizes(ts, h);
    AtSplit(slices, p, EncHeads(ts, h), EncTails(ts));
    AtSuffix(slices, 0, p, EncHeads(ts, h));
    AtSuffix(slices, h, p, EncTails(ts));
    EachStands(ts, ks, slices[p..], 0, h);
  }

  lemma {:induction false} EachStands(ts: seq<Token>, ks: seq<ParamKind>, slices: seq<Word>, o: nat, p: nat)
    requires ExactAll(ts, ks) && SameDynamicsAll(ts, ks) && LengthsFitAll(ts) && 32 * |slices| < TWO_32
    requires At(slices, o, EncHeads(ts, p)) && At(slices, p, EncTails(ts))
    ensures StandEach(ts, ks, slices, o)
    decreases ts, 0
  {
    hide Enc, At, Exact, SameDynamics, LengthsFit, Stands, Number;
    if ts == [] {
    } else {
      var t, rest := ts[0], ts[1..];
      HeadTakes(t, ks[0]);
      if t.IsDynamic() {
        AtSplit(slices, o, [Number(32 * p)], EncHeads(rest, p + |Enc(t)|));
        AtSplit(slices, p, Enc(t), EncTails(rest));
        SpecifiedStands(t, ks[0], slices, o, p);
        EachStands(rest, ks[1..], slices, o + 1, p + |Enc(t)|);
      } else {
        AtSplit(slices, o, Enc(t), EncHeads(rest, p));
        assert [] + EncTails(rest) == EncTails(rest);
        SpecifiedStands(t, ks[0], slices, o, p);
        EachStands(rest, ks[1..], slices, o + |Enc(t)|, p);
      }
    }
  }

  lemma HeadTakes(t: Token, k: ParamKind)
    requires Exact(t, k) && SameDynamics(t, k)
    ensures KindWords(k) == if t.IsDynamic() then 1 else |Enc(t)|
  {
    HeadSizeByKind(t, k);
    HeadSizeMeets(t, 0);
  }

  /** Whatever the tuples, every exactly typed list that fits `u32` is read back from its
      encoding as specified. */
  lemma ReadsSpecification(ts: seq<Token>, ks: seq<ParamKind>)
    requires ExactAll(ts, ks) && SameDynamicsAll(ts, ks) && LengthsFitAll(ts) && 32 * |EncBlock(ts)| < TWO_32
    ensures Decode(ks, Flatten(EncBlock(ts))) == Ok(ts) <==> EncBlock(ts) != [] || AllAllowEmpty(ks)
  {
    hide ExactAll, SameDynamicsAll, LengthsFitAll, EncBlock, StandEach, Decode;
    var ws := EncBlock(ts);
    assert ws[0..] == ws && At(ws, 0, ws);
    BlockStands(ts, ks, ws, 0);
    ChunksOfFlatten(ws);
    DecodeIff(ks, Flatten(ws), ts);
  }
}
