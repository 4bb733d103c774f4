/** Words at positions, and the sizes of heads by token and by kind. */
module AbiPlacement {
  import opened Words
  import opened AbiTypes
  import opened AbiEncoder
  import opened AbiLayout
  import opened AbiDecoder
  import opened AbiSoundness

  /** The words `ws` stand at position `i` of `slices`. */
  ghost predicate At(slices: seq<Word>, i: nat, ws: seq<Word>) {
    i + |ws| <= |slices| && slices[i..i + |ws|] == ws
  }

  lemma AtSplit(slices: seq<Word>, i: nat, a: seq<Word>, b: seq<Word>)
    requires At(slices, i, a + b)
    ensures At(slices, i, a) && At(slices, i + |a|, b)
  {
    var c := slices[i..i + |a + b|];
    assert slices[i..i + |a|] == c[..|a|] == (a + b)[..|a|];
    assert slices[i + |a|..i + |a| + |b|] == c[|a|..] == (a + b)[|a|..];
  }

  lemma AtSuffix(slices: seq<Word>, i: nat, j: nat, ws: seq<Word>)
    requires j <= |slices| && At(slices, j + i, ws)
    ensures At(slices[j..], i, ws)
  {
    assert slices[j..][i..i + |ws|] == slices[j + i..j + i + |ws|];
  }

  lemma OneWord(slices: seq<Word>, o: nat, w: Word)
    requires At(slices, o, [w])
    ensures Peek(slices, o) == Ok(w)
  {
    assert slices[o] == slices[o..o + 1][0];
  }

  /** Array lengths are written as `u32`. An array of items that take no words can be
      longer than that without being large. */
  predicate LengthsFit(t: Token) {
    match t
    case Array(ts) => |ts| < TWO_32 && LengthsFitAll(ts)
    case FixedArray(ts) => LengthsFitAll(ts)
    case Tuple(ts) => LengthsFitAll(ts)
    case _ => true
  }

  predicate LengthsFitAll(ts: seq<Token>) {
    ts == [] || (LengthsFit(ts[0]) && LengthsFitAll(ts[1..]))
  }

  lemma {:induction false} LengthsFitPointwise(ts: seq<Token>)
    requires forall t :: t in ts ==> LengthsFit(t)
    ensures LengthsFitAll(ts)
  {
    if ts == [] {
    } else {
      LengthsFitPointwise(ts[1..]);
    }
  }

  lemma DynamicHasOffset(t: Token)
    ensures EncodeToken(t).HasOffset() == t.IsDynamic()
  {
  }

  lemma EncodeTokensCons(ts: seq<Token>)
    requires ts != []
    ensures EncodeTokens(ts)[0] == EncodeToken(ts[0]) && EncodeTokens(ts)[1..] == EncodeTokens(ts[1..])
  {
  }

  /** A static list is all heads. */
  lemma {:induction false} StaticBlock(ts: seq<Token>, offset: u32, p: nat)
    requires !AnyDynamic(ts)
    ensures var ms := EncodeTokens(ts);
            && Tails(ms) == [] && Heads(ms, offset) == FlatHeads(ms)
            && OffsetsExact(ms, offset, p)
  {
    if ts == [] {
    } else {
      var ms := EncodeTokens(ts);
      DynamicHasOffset(ts[0]);
      assert ms[1..] == EncodeTokens(ts[1..]);
      StaticBlock(ts[1..], U32(offset + TailLen(ms[0])), p + |Tail(ms[0])|);
    }
  }

  lemma TakeBytesOk(b: seq<byte>, slices: seq<Word>, o: nat)
    requires At(slices, o, PadFixedBytes(b))
    ensures TakeBytes(slices, o, |b|) == Ok((b, o + |PadFixedBytes(b)|))
  {
    PaddingKeepsBytes(b);
  }

  function PartKinds(k: ParamKind): seq<ParamKind>
    requires k.TupleKind? || k.FixedArrayKind?
  {
    if k.TupleKind? then k.kinds else Repeat(k.elem, k.len)
  }

  /** The encoder emits as many head words as the decoder consumes. */
  lemma {:induction false} HeadSizeByKind(t: Token, k: ParamKind)
    requires Exact(t, k) && SameDynamics(t, k)
    ensures |Head(EncodeToken(t), 0)| == KindWords(k)
    decreases t, 1
  {
    if !t.IsDynamic() && (t.FixedArray? || t.Tuple?) {
      var ms := EncodeTokens(t.items);
      HeadSizesByKind(t.items, PartKinds(k));
      StaticBlock(t.items, HeadsLen(ms), 0);
      if t.FixedArray? {
        RepeatWords(k.elem, k.len);
      }
    }
  }

  lemma {:induction false} HeadSizesByKind(ts: seq<Token>, ks: seq<ParamKind>)
    requires ExactAll(ts, ks) && SameDynamicsAll(ts, ks)
    ensures |FlatHeads(EncodeTokens(ts))| == KindsWords(ks)
    decreases ts, 0
  {
    if ts == [] {
    } else {
      EncodeTokensCons(ts);
      HeadSizeByKind(ts[0], ks[0]);
      HeadSizesByKind(ts[1..], ks[1..]);
    }
  }
}
