/** What every successful decoding guarantees, whatever the bytes. */
module AbiSoundness {
  import opened Words
  import opened AbiTypes
  import opened AbiDecoder

  /** The words that a parameter takes in the heads of its block: one offset when it is
      dynamic, its structural size when it is static. */
  function KindWords(k: ParamKind): nat {
    if k.IsDynamic() then 1
    else
      match k
      case FixedBytesKind(len) => (len + 31) / 32
      case FixedArrayKind(e, len) => len * KindWords(e)
      case TupleKind(ks) => KindsWords(ks)
      case _ => 1
  }

  function KindsWords(ks: seq<ParamKind>): nat {
    if ks == [] then 0 else KindWords(ks[0]) + KindsWords(ks[1..])
  }

  lemma OneMore(n: nat, w: nat)
    ensures (n + 1) * w == w + n * w
  {
  }

  lemma {:induction false} RepeatWords(k: ParamKind, n: nat)
    ensures KindsWords(Repeat(k, n)) == n * KindWords(k)
  {
    if n == 0 {
    } else {
      RepeatWords(k, n - 1);
      assert Repeat(k, n)[1..] == Repeat(k, n - 1);
      OneMore(n - 1, KindWords(k));
    }
  }

  lemma {:induction false} DecodeParamSound(k: ParamKind, slices: seq<Word>, offset: nat)
    requires DecodeParam(k, slices, offset).Ok?
    ensures var (t, next) := DecodeParam(k, slices, offset).value;
            Exact(t, k) && next == offset + KindWords(k)
    decreases Depth(k), 0, 0
  {
    match k
    case ArrayKind(e) =>
      var (len, start) := ReadLength(slices, offset).value;
      DecodeEachSound(Repeat(e, len), slices[start..], 0);
    case FixedArrayKind(e, len) =>
      var (tail, start) := EnterBlock(k.IsDynamic(), slices, offset).value;
      DecodeEachSound(Repeat(e, len), tail, start);
      RepeatWords(e, len);
    case TupleKind(ks) =>
      var (tail, start) := EnterBlock(k.IsDynamic(), slices, offset).value;
      DecodeEachSound(ks, tail, start);
    case _ =>
  }

  /** Decoded tokens are exactly of their kinds, and the heads consumed are those the
      kinds prescribe. */
  lemma {:induction false} DecodeEachSound(ks: seq<ParamKind>, slices: seq<Word>, offset: nat)
    requires DecodeEach(ks, slices, offset).Ok?
    ensures var (ts, end) := DecodeEach(ks, slices, offset).value;
            ExactAll(ts, ks) && end == offset + KindsWords(ks)
    decreases MaxDepth(ks), 1, |ks|
  {
    if ks == [] {
    } else {
      DecodeParamSound(ks[0], slices, offset);
      var (t, next) := DecodeParam(ks[0], slices, offset).value;
      DecodeEachSound(ks[1..], slices, next);
      var (ts, end) := DecodeEach(ks[1..], slices, next).value;
      assert ([t] + ts)[1..] == ts;
    }
  }

  /** For every input, tokens that `decode` returns are exactly typed and pass `types_check`. */
  lemma DecodeSound(ks: seq<ParamKind>, data: seq<byte>)
    requires Decode(ks, data).Ok?
    ensures ExactAll(Decode(ks, data).value, ks)
    ensures TypesCheck(Decode(ks, data).value, ks) == Pass
  {
    DecodeEachSound(ks, SliceData(data).value, 0);
    ExactAllIffPassAndFull(Decode(ks, data).value, ks);
  }

  /** Every head word that a successful decoding consumed was there. */
  lemma {:induction false} DecodeParamHeadThere(k: ParamKind, slices: seq<Word>, offset: nat)
    requires DecodeParam(k, slices, offset).Ok? && KindWords(k) > 0
    ensures offset + KindWords(k) <= |slices|
    decreases Depth(k), 0, 0
  {
    DecodeParamSound(k, slices, offset);
    match k
    case FixedArrayKind(e, len) =>
      if !k.IsDynamic() {
        RepeatWords(e, len);
        DecodeEachHeadsThere(Repeat(e, len), slices, offset);
      }
    case TupleKind(ks) =>
      if !k.IsDynamic() {
        DecodeEachHeadsThere(ks, slices, offset);
      }
    case _ =>
  }

  lemma {:induction false} DecodeEachHeadsThere(ks: seq<ParamKind>, slices: seq<Word>, offset: nat)
    requires DecodeEach(ks, slices, offset).Ok? && KindsWords(ks) > 0
    ensures offset + KindsWords(ks) <= |slices|
    decreases MaxDepth(ks), 1, |ks|
  {
    DecodeParamSound(ks[0], slices, offset);
    if KindWords(ks[0]) > 0 {
      DecodeParamHeadThere(ks[0], slices, offset);
    }
    if KindsWords(ks[1..]) > 0 {
      DecodeEachHeadsThere(ks[1..], slices, offset + KindWords(ks[0]));
    }
  }

  // ---------- the width of a length ----------

  /** `take_bytes` where `usize` has 32 bits: the rounding up to words wraps. */
  function TakeBytesNarrow(slices: seq<Word>, position: nat, len: u32): Outcome<(seq<byte>, nat)> {
    var n := U32(len + 31) / 32;
    if n == 0 then Ok(([], position))
    else if position + n > |slices| then Err(InvalidData)
    else
      var bytes := Flatten(slices[position..position + n]);
      Ok((if len <= |bytes| then bytes[..len] else bytes, position + n))
  }

  /** On data that 32 bits can address, the two widths agree exactly on the lengths that do not
      wrap; on the others the narrow one succeeds with no bytes where the wide one fails. */
  lemma NarrowLengths(slices: seq<Word>, position: nat, len: u32)
    requires 32 * |slices| < TWO_32
    ensures TakeBytesNarrow(slices, position, len) == TakeBytes(slices, position, len) <==> len + 31 < TWO_32
    ensures len + 31 >= TWO_32 ==>
              && TakeBytesNarrow(slices, position, len) == Ok(([], position))
              && TakeBytes(slices, position, len) == Err(InvalidData)
  {
    if len + 31 >= TWO_32 {
      assert U32(len + 31) == len + 31 - TWO_32;
    }
  }

  // ---------- prefix stability ----------

  lemma ReadLengthStable(slices: seq<Word>, more: seq<Word>, offset: nat)
    requires ReadLength(slices, offset).Ok?
    ensures ReadLength(slices + more, offset) == ReadLength(slices, offset)
  {
  }

  lemma TakeBytesStable(slices: seq<Word>, more: seq<Word>, position: nat, len: nat)
    requires TakeBytes(slices, position, len).Ok?
    ensures TakeBytes(slices + more, position, len) == TakeBytes(slices, position, len)
  {
    var n := (len + 31) / 32;
    if n > 0 {
      assert (slices + more)[position..position + n] == slices[position..position + n];
    }
  }

  lemma {:induction false} DecodeParamStable(k: ParamKind, slices: seq<Word>, more: seq<Word>, offset: nat)
    requires DecodeParam(k, slices, offset).Ok?
    ensures DecodeParam(k, slices + more, offset) == DecodeParam(k, slices, offset)
    decreases Depth(k), 0, 0
  {
    match k
    case FixedBytesKind(len) => TakeBytesStable(slices, more, offset, len);
    case BytesKind =>
      ReadLengthStable(slices, more, offset);
      var (len, start) := ReadLength(slices, offset).value;
      TakeBytesStable(slices, more, start, len);
    case StringKind =>
      ReadLengthStable(slices, more, offset);
      var (len, start) := ReadLength(slices, offset).value;
      TakeBytesStable(slices, more, start, len);
    case ArrayKind(e) =>
      ReadLengthStable(slices, more, offset);
      var (len, start) := ReadLength(slices, offset).value;
      assert (slices + more)[start..] == slices[start..] + more;
      DecodeEachStable(Repeat(e, len), slices[start..], more, 0);
    case FixedArrayKind(e, len) =>
      var block := EnterBlockStable(k.IsDynamic(), slices, more, offset);
      DecodeEachStable(Repeat(e, len), block.0, more, block.1);
    case TupleKind(ks) =>
      var block := EnterBlockStable(k.IsDynamic(), slices, more, offset);
      DecodeEachStable(ks, block.0, more, block.1);
    case _ =>
  }

  lemma EnterBlockStable(dynamic: bool, slices: seq<Word>, more: seq<Word>, offset: nat) returns (r: (seq<Word>, nat))
    requires EnterBlock(dynamic, slices, offset).Ok?
    ensures EnterBlock(dynamic, slices, offset) == Ok(r)
    ensures EnterBlock(dynamic, slices + more, offset) == Ok((r.0 + more, r.1))
  {
    r := EnterBlock(dynamic, slices, offset).value;
    if dynamic {
      var start := FollowOffset(slices, offset).value;
      assert FollowOffset(slices + more, offset) == Ok(start);
      assert (slices + more)[start..] == slices[start..] + more;
    }
  }

  /** Appending words changes no successful decoding, at any nesting depth. */
  lemma {:induction false} DecodeEachStable(ks: seq<ParamKind>, slices: seq<Word>, more: seq<Word>, offset: nat)
    requires DecodeEach(ks, slices, offset).Ok?
    ensures DecodeEach(ks, slices + more, offset) == DecodeEach(ks, slices, offset)
    decreases MaxDepth(ks), 1, |ks|
  {
    if ks == [] {
    } else {
      DecodeParamStable(ks[0], slices, more, offset);
      var next := DecodeParam(ks[0], slices, offset).value.1;
      DecodeEachStable(ks[1..], slices, more, next);
    }
  }

  lemma {:induction false} ChunksConcat(a: seq<byte>, b: seq<byte>)
    requires |a| % 32 == 0 && |b| % 32 == 0
    ensures (|a| + |b|) % 32 == 0
    ensures Chunks(a + b) == Chunks(a) + Chunks(b)
  {
    if a == [] {
      assert a + b == b;
    } else {
      ChunksConcat(a[32..], b);
      assert (a + b)[..32] == a[..32] && (a + b)[32..] == a[32..] + b;
    }
  }

  /** If `decode` succeeds, it succeeds with the same tokens when whole words follow. */
  lemma DecodeStable(ks: seq<ParamKind>, data: seq<byte>, more: seq<byte>)
    requires Decode(ks, data).Ok? && |more| % 32 == 0
    ensures Decode(ks, data + more) == Decode(ks, data)
  {
    ChunksConcat(data, more);
    DecodeEachStable(ks, Chunks(data), Chunks(more), 0);
  }

  // ---------- out-of-range slices ----------

  /** Decoding this kind slices the words at an offset it does not check: the kind is, or is
      an array of, a dynamic fixed array or tuple. */
  predicate SlicesUnchecked(k: ParamKind) {
    match k
    case ArrayKind(e) => SlicesUnchecked(e)
    case FixedArrayKind(_, _) | TupleKind(_) => k.IsDynamic()
    case _ => false
  }

  lemma StaticIsChecked(k: ParamKind)
    requires !k.IsDynamic()
    ensures !SlicesUnchecked(k)
  {
  }

  lemma {:induction false} StaticPartsAreChecked(ks: seq<ParamKind>)
    requires !AnyDynamicKind(ks)
    ensures forall k :: k in ks ==> !SlicesUnchecked(k)
  {
    if ks == [] {
    } else {
      StaticIsChecked(ks[0]);
      StaticPartsAreChecked(ks[1..]);
    }
  }

  lemma {:induction false} DecodeParamInRange(k: ParamKind, slices: seq<Word>, offset: nat)
    requires !SlicesUnchecked(k)
    ensures !DecodeParam(k, slices, offset).Panic?
    decreases Depth(k), 0, 0
  {
    match k
    case ArrayKind(e) =>
      if ReadLength(slices, offset).Ok? {
        var (len, start) := ReadLength(slices, offset).value;
        DecodeEachInRange(Repeat(e, len), slices[start..], 0);
      }
    case FixedArrayKind(e, len) =>
      StaticIsChecked(e);
      DecodeEachInRange(Repeat(e, len), slices, offset);
    case TupleKind(ks) =>
      StaticPartsAreChecked(ks);
      DecodeEachInRange(ks, slices, offset);
    case _ =>
  }

  lemma {:induction false} DecodeEachInRange(ks: seq<ParamKind>, slices: seq<Word>, offset: nat)
    requires forall k :: k in ks ==> !SlicesUnchecked(k)
    ensures !DecodeEach(ks, slices, offset).Panic?
    decreases MaxDepth(ks), 1, |ks|
  {
    if ks == [] {
    } else {
      DecodeParamInRange(ks[0], slices, offset);
      if DecodeParam(ks[0], slices, offset).Ok? {
        DecodeEachInRange(ks[1..], slices, DecodeParam(ks[0], slices, offset).value.1);
      }
    }
  }

  /** An offset beyond the words, behind as many array headers as the kind nests. */
  function OffsetBeyond(k: ParamKind): seq<Word>
    requires SlicesUnchecked(k)
  {
    if k.ArrayKind? then [PadU32(32), PadU32(1)] + OffsetBeyond(k.elem) else [PadU32(TWO_32 - 1)]
  }

  lemma {:induction false} OffsetBeyondPanics(k: ParamKind)
    requires SlicesUnchecked(k)
    ensures DecodeParam(k, OffsetBeyond(k), 0).Panic?
  {
    var s := OffsetBeyond(k);
    if k.ArrayKind? {
      OffsetBeyondPanics(k.elem);
      AsU32OfPadU32(32);
      AsU32OfPadU32(1);
      assert ReadLength(s, 0) == Ok((1, 2)) && s[2..] == OffsetBeyond(k.elem);
      assert Repeat(k.elem, 1)[0] == k.elem;
    } else {
      AsU32OfPadU32(TWO_32 - 1);
      assert FollowOffset(s, 0) == Ok((TWO_32 - 1) / 32);
    }
  }

  /** A kind decodes without an out-of-range slice, whatever the words, if and only if it
      needs no unchecked slice. */
  lemma InRangeIff(k: ParamKind)
    ensures (forall slices, o :: !DecodeParam(k, slices, o).Panic?) <==> !SlicesUnchecked(k)
  {
    if SlicesUnchecked(k) {
      OffsetBeyondPanics(k);
    } else {
      forall slices, o
        ensures !DecodeParam(k, slices, o).Panic?
      {
        DecodeParamInRange(k, slices, o);
      }
    }
  }

  lemma DecodeInRange(ks: seq<ParamKind>, data: seq<byte>)
    requires forall k :: k in ks ==> !SlicesUnchecked(k)
    ensures !Decode(ks, data).Panic?
  {
    if |data| % 32 == 0 {
      DecodeEachInRange(ks, Chunks(data), 0);
    }
  }
}
