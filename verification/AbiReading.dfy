/** What the decoder reads, for every data whatever, with words read as numbers: the head of a
    parameter stands behind the head words of those before it, an offset is rounded down to
    whole words, and the leading twelve bytes of an address are not looked at. */
module AbiReading {
  import opened Words
  import opened AbiTypes
  import opened AbiDecoder
  import opened AbiSoundness
  import opened AbiSpecification

  // ---------- the definition ----------

  /** The word at `o` is the number `n`. */
  predicate Reads(slices: seq<Word>, o: nat, n: nat) {
    o < |slices| && FromBigEndian(slices[o]) == n
  }

  /** The word at `o` is an offset, below 2^32. */
  predicate Points(slices: seq<Word>, o: nat) {
    o < |slices| && FromBigEndian(slices[o]) < TWO_32
  }

  /** The word to which the offset at `o` leads. */
  function Target(slices: seq<Word>, o: nat): nat
    requires Points(slices, o)
  {
    FromBigEndian(slices[o]) / 32
  }

  /** The bytes `b` stand from word `o` on. */
  predicate BytesAt(slices: seq<Word>, o: nat, b: seq<byte>) {
    (b != [] ==> o + (|b| + 31) / 32 <= |slices|) &&
    forall i :: 0 <= i < |b| ==> b[i] == slices[o + i / 32][i % 32]
  }

  predicate BytesBehind(slices: seq<Word>, o: nat, b: seq<byte>) {
    && Points(slices, o) && |b| < TWO_32
    && Reads(slices, Target(slices, o), |b|) && BytesAt(slices, Target(slices, o) + 1, b)
  }

  /** The value `t` of kind `k` has its head at word `o`. */
  predicate Stands(t: Token, k: ParamKind, slices: seq<Word>, o: nat)
    decreases Depth(k), 0, 0
  {
    match k
    case AddressKind => t.Address? && o < |slices| && FromBigEndian(slices[o]) % Pow256(20) == FromBigEndian(t.address)
    case IntKind(_) => t.Int? && Reads(slices, o, t.value)
    case UintKind(_) => t.Uint? && Reads(slices, o, t.value)
    case BoolKind =>
      t.Bool? && o < |slices| && FromBigEndian(slices[o]) < 256 && (t.b <==> FromBigEndian(slices[o]) == 1)
    case FixedBytesKind(len) => t.FixedBytes? && |t.bytes| == len && BytesAt(slices, o, t.bytes)
    case BytesKind => t.Bytes? && BytesBehind(slices, o, t.bytes)
    case StringKind => t.String? && BytesBehind(slices, o, t.bytes)
    case ArrayKind(e) =>
      && t.Array? && Points(slices, o) && |t.items| < TWO_32 && Reads(slices, Target(slices, o), |t.items|)
      && StandEach(t.items, Repeat(e, |t.items|), slices[Target(slices, o) + 1..], 0)
    case FixedArrayKind(e, len) => t.FixedArray? && StandInBlock(t.items, Repeat(e, len), k.IsDynamic(), slices, o)
    case TupleKind(ks) => t.Tuple? && StandInBlock(t.items, ks, k.IsDynamic(), slices, o)
  }

  /** The parts of a fixed array or tuple: in place, or behind an offset. */
  predicate StandInBlock(ts: seq<Token>, ks: seq<ParamKind>, dynamic: bool, slices: seq<Word>, o: nat)
    decreases MaxDepth(ks), 2, |ks|
  {
    if dynamic then
      && Points(slices, o) && Target(slices, o) <= |slices|
      && StandEach(ts, ks, slices[Target(slices, o)..], 0)
    else StandEach(ts, ks, slices, o)
  }

  predicate StandEach(ts: seq<Token>, ks: seq<ParamKind>, slices: seq<Word>, o: nat)
    decreases MaxDepth(ks), 1, |ks|
  {
    |ts| == |ks| &&
    (ks == [] || (Stands(ts[0], ks[0], slices, o) && StandEach(ts[1..], ks[1..], slices, o + KindWords(ks[0]))))
  }

  // ---------- words as numbers ----------

  lemma LastByte(b: seq<byte>, c: byte)
    ensures FromBigEndian(b + [c]) == 256 * FromBigEndian(b) + c as int
    ensures Pow256(|b + [c]|) == 256 * Pow256(|b|)
  {
    assert (b + [c])[..|b|] == b;
  }

  lemma NoBytes(a: seq<byte>)
    ensures FromBigEndian([]) == 0 && Pow256(0) == 1 && a + [] == a
  {
  }

  lemma {:induction false} NumberOfParts(a: seq<byte>, b: seq<byte>)
    ensures FromBigEndian(a + b) == FromBigEndian(a) * Pow256(|b|) + FromBigEndian(b)
  {
    hide FromBigEndian, Pow256;
    if b == [] {
      NoBytes(a);
    } else {
      var init, c := b[..|b| - 1], b[|b| - 1];
      NumberOfParts(a, init);
      assert b == init + [c] && a + b == (a + init) + [c];
      LastByte(init, c);
      LastByte(a + init, c);
      OneByteMore(FromBigEndian(a), Pow256(|init|));
    }
  }

  lemma OneByteMore(x: nat, p: nat)
    ensures 256 * (x * p) == x * (256 * p)
  {
  }

  lemma ZeroIffZeros(b: seq<byte>)
    ensures FromBigEndian(b) == 0 <==> b == Zeros(|b|)
  {
    BigEndianOfNumber(b);
    WiderIsZeros(0, |b|, 0);
    assert Zeros(|b|) + [] == Zeros(|b|);
    BigEndianOfNumber(Zeros(|b|));
    Pow256Positive(|b|);
    BigEndianRoundTrip(0, |b|);
  }

  lemma Pow256Positive(n: nat)
    ensures 0 < Pow256(n)
  {
  }

  /** The last `n` bytes are the remainder, and the others are zero exactly when the number is
      that remainder. */
  lemma Remainder(w: Word, n: nat)
    requires n <= 32
    ensures FromBigEndian(w) % Pow256(n) == FromBigEndian(w[32 - n..])
    ensures w[..32 - n] == Zeros(32 - n) <==> FromBigEndian(w) < Pow256(n)
  {
    hide Pow256, FromBigEndian;
    var hi, lo := w[..32 - n], w[32 - n..];
    assert w == hi + lo;
    NumberOfParts(hi, lo);
    ZeroIffZeros(hi);
    QuotientZero(FromBigEndian(hi), Pow256(n), FromBigEndian(lo));
  }

  lemma QuotientZero(q: nat, p: nat, r: nat)
    requires r < p
    ensures (q * p + r) % p == r && (q == 0 <==> q * p + r < p)
  {
    if q > 0 {
      AtLeast(q, p);
    }
    var x := q * p + r;
    var d := q - x / p;
    assert x == x / p * p + x % p;
    Distribute(q, x / p, p);
    if d > 0 {
      AtLeast(d, p);
    } else if d < 0 {
      AtLeast(-d, p);
      Negate(d, p);
    }
  }

  lemma AtLeast(d: nat, p: nat)
    requires d > 0
    ensures d * p >= p
  {
  }

  lemma Negate(d: int, p: int)
    ensures (-d) * p == -(d * p)
  {
  }

  lemma Distribute(q: int, q': int, p: int)
    ensures (q - q') * p == q * p - q' * p
  {
  }

  lemma SmallMod(x: nat, p: nat)
    requires p > 0
    ensures x < p ==> x % p == x
  {
  }

  /** `as_u32` accepts exactly the words below 2^32 and gives their number. */
  lemma AsU32Reads(w: Word)
    ensures AsU32(w) == if FromBigEndian(w) < TWO_32 then Ok(FromBigEndian(w)) else Err(InvalidData)
  {
    hide FromBigEndian, Pow256, SumOfShifts;
    Pow256Values();
    Remainder(w, 4);
    SumOfShiftsIsBigEndian(w[28..]);
    SmallMod(FromBigEndian(w), Pow256(4));
  }

  /** `as_bool` accepts exactly the words below 256, and all of them but 1 are false. */
  lemma AsBoolReads(w: Word)
    ensures AsBool(w) == if FromBigEndian(w) < 256 then Ok(FromBigEndian(w) == 1) else Err(InvalidData)
  {
    Remainder(w, 1);
    assert Pow256(1) == 256;
    var last := w[31..];
    assert last[..0] == [] && FromBigEndian(last) == 256 * FromBigEndian(last[..0]) + last[0] as int;
  }

  lemma AddressReads(w: Word, a: Address)
    ensures w[12..] == a <==> FromBigEndian(w) % Pow256(20) == FromBigEndian(a)
  {
    hide FromBigEndian, Pow256;
    Remainder(w, 20);
    BigEndianOfNumber(w[12..]);
    BigEndianOfNumber(a);
  }

  // ---------- the decoder ----------

  lemma {:induction false} FlattenAt(ws: seq<Word>, i: nat)
    requires i < 32 * |ws|
    ensures Flatten(ws)[i] == ws[i / 32][i % 32]
  {
    if i < 32 {
    } else {
      FlattenAt(ws[1..], i - 32);
      assert (i - 32) / 32 == i / 32 - 1;
    }
  }

  lemma TakeBytesReads(slices: seq<Word>, o: nat, b: seq<byte>)
    ensures (TakeBytes(slices, o, |b|).Ok? && TakeBytes(slices, o, |b|).value.0 == b) <==> BytesAt(slices, o, b)
  {
    hide Flatten;
    var n := (|b| + 31) / 32;
    if b != [] && o + n <= |slices| {
      var ws := slices[o..o + n];
      forall i | 0 <= i < |b|
        ensures Flatten(ws)[i] == slices[o + i / 32][i % 32]
      {
        FlattenAt(ws, i);
      }
    }
  }

  lemma TakenLength(slices: seq<Word>, o: nat, len: nat)
    requires TakeBytes(slices, o, len).Ok?
    ensures |TakeBytes(slices, o, len).value.0| == len
  {
  }

  lemma FollowOffsetReads(slices: seq<Word>, o: nat)
    ensures FollowOffset(slices, o) == if Points(slices, o) then Ok(Target(slices, o)) else Err(InvalidData)
  {
    hide FromBigEndian, AsU32;
    if o < |slices| {
      AsU32Reads(slices[o]);
    }
  }

  lemma ReadLengthReads(slices: seq<Word>, o: nat)
    ensures var r := ReadLength(slices, o);
            if Points(slices, o) && Points(slices, Target(slices, o)) then
              r == Ok((FromBigEndian(slices[Target(slices, o)]), Target(slices, o) + 1))
            else r == Err(InvalidData)
  {
    hide FromBigEndian, AsU32;
    FollowOffsetReads(slices, o);
    if Points(slices, o) && Target(slices, o) < |slices| {
      AsU32Reads(slices[Target(slices, o)]);
    }
  }

  lemma ReadBytesReads(slices: seq<Word>, o: nat, b: seq<byte>)
    ensures ReadBytes(slices, o) == Ok(b) <==> BytesBehind(slices, o, b)
  {
    hide FromBigEndian, TakeBytes, BytesAt, FollowOffset;
    ReadLengthReads(slices, o);
    if ReadLength(slices, o).Ok? {
      var (len, start) := ReadLength(slices, o).value;
      TakeBytesReads(slices, start, b);
      if TakeBytes(slices, start, len).Ok? {
        TakenLength(slices, start, len);
      }
    }
  }

  ghost predicate Decodes(k: ParamKind, slices: seq<Word>, o: nat, t: Token) {
    DecodeParam(k, slices, o).Ok? && DecodeParam(k, slices, o).value.0 == t
  }

  ghost predicate DecodesEach(ks: seq<ParamKind>, slices: seq<Word>, o: nat, ts: seq<Token>) {
    DecodeEach(ks, slices, o).Ok? && DecodeEach(ks, slices, o).value.0 == ts
  }

  /** The decoder returns a value exactly when that value stands there. */
  lemma {:induction false} DecodesIff(k: ParamKind, slices: seq<Word>, o: nat, t: Token)
    ensures Decodes(k, slices, o, t) <==> Stands(t, k, slices, o)
    decreases Depth(k), 0, 0
  {
    hide FromBigEndian, TakeBytes, BytesAt, ReadBytes, BytesBehind, AsBool, ReadLength, EnterBlock, DecodeEach;
    hide StandInBlock, StandEach;
    match k
    case AddressKind =>
      if o < |slices| && t.Address? {
        AddressReads(slices[o], t.address);
      }
    case BoolKind =>
      if o < |slices| {
        AsBoolReads(slices[o]);
      }
    case FixedBytesKind(len) =>
      if TakeBytes(slices, o, len).Ok? {
        TakenLength(slices, o, len);
      }
      if t.FixedBytes? {
        TakeBytesReads(slices, o, t.bytes);
      }
    case BytesKind =>
      if t.Bytes? {
        ReadBytesReads(slices, o, t.bytes);
      }
    case StringKind =>
      if t.String? {
        ReadBytesReads(slices, o, t.bytes);
      }
    case ArrayKind(e) => ArrayIff(e, slices, o, t);
    case FixedArrayKind(e, len) =>
      if t.FixedArray? {
        InBlockIff(Repeat(e, len), k.IsDynamic(), slices, o, t.items);
      }
    case TupleKind(ks) =>
      if t.Tuple? {
        InBlockIff(ks, k.IsDynamic(), slices, o, t.items);
      }
    case _ =>
  }

  ghost predicate DecodesArray(e: ParamKind, slices: seq<Word>, o: nat, t: Token) {
    ReadLength(slices, o).Ok? && t.Array? &&
    DecodesEach(Repeat(e, ReadLength(slices, o).value.0), slices[ReadLength(slices, o).value.1..], 0, t.items)
  }

  lemma ArrayUnfolds(e: ParamKind, slices: seq<Word>, o: nat, t: Token)
    ensures Decodes(ArrayKind(e), slices, o, t) <==> DecodesArray(e, slices, o, t)
  {
    hide ReadLength, DecodeEach, Repeat, Depth, MaxDepth;
  }

  lemma DecodedCount(ks: seq<ParamKind>, slices: seq<Word>, o: nat, ts: seq<Token>)
    requires DecodesEach(ks, slices, o, ts)
    ensures |ts| == |ks|
  {
    hide DecodeEach;
    DecodeEachSound(ks, slices, o);
  }

  lemma {:induction false} ArrayIff(e: ParamKind, slices: seq<Word>, o: nat, t: Token)
    ensures Decodes(ArrayKind(e), slices, o, t) <==> Stands(t, ArrayKind(e), slices, o)
    decreases Depth(e), 2, 0
  {
    hide FromBigEndian, ReadLength, DecodesEach, StandEach, Repeat, Depth, MaxDepth, Decodes;
    ArrayUnfolds(e, slices, o, t);
    ReadLengthReads(slices, o);
    if ReadLength(slices, o).Ok? && t.Array? {
      var (len, start) := ReadLength(slices, o).value;
      if DecodesEach(Repeat(e, len), slices[start..], 0, t.items) {
        DecodedCount(Repeat(e, len), slices[start..], 0, t.items);
      }
      if |t.items| == len {
        DecodesEachIff(Repeat(e, len), slices[start..], 0, t.items);
      }
    }
  }

  /** Where the parts of a fixed array or tuple are decoded from. */
  ghost predicate DecodesInBlock(ks: seq<ParamKind>, dynamic: bool, slices: seq<Word>, o: nat, ts: seq<Token>) {
    EnterBlock(dynamic, slices, o).Ok? &&
    DecodesEach(ks, EnterBlock(dynamic, slices, o).value.0, EnterBlock(dynamic, slices, o).value.1, ts)
  }

  lemma {:induction false} InBlockIff(ks: seq<ParamKind>, dynamic: bool, slices: seq<Word>, o: nat, ts: seq<Token>)
    ensures DecodesInBlock(ks, dynamic, slices, o, ts) <==> StandInBlock(ts, ks, dynamic, slices, o)
    decreases MaxDepth(ks), 2, |ks|
  {
    hide FromBigEndian, DecodeEach, StandEach, FollowOffset;
    FollowOffsetReads(slices, o);
    if EnterBlock(dynamic, slices, o).Ok? {
      var (tail, start) := EnterBlock(dynamic, slices, o).value;
      DecodesEachIff(ks, tail, start, ts);
    }
  }

  lemma {:induction false} DecodesEachIff(ks: seq<ParamKind>, slices: seq<Word>, o: nat, ts: seq<Token>)
    ensures DecodesEach(ks, slices, o, ts) <==> StandEach(ts, ks, slices, o)
    decreases MaxDepth(ks), 1, |ks|
  {
    hide DecodeParam, Stands;
    if ks == [] {
    } else {
      if DecodeParam(ks[0], slices, o).Ok? {
        DecodeParamSound(ks[0], slices, o);
      }
      if ts != [] {
        DecodesIff(ks[0], slices, o, ts[0]);
        DecodesEachIff(ks[1..], slices, o + KindWords(ks[0]), ts[1..]);
        assert ts == [ts[0]] + ts[1..];
      }
    }
  }

  /** For all kinds, data and values: `decode` returns the values exactly when the data is whole
      words in which they stand, or is empty and may be. */
  lemma DecodeIff(ks: seq<ParamKind>, data: seq<byte>, ts: seq<Token>)
    ensures Decode(ks, data) == Ok(ts) <==>
            |data| % 32 == 0 && (data != [] || AllAllowEmpty(ks)) && StandEach(ts, ks, Chunks(data), 0)
  {
    hide DecodeEach, StandEach, Chunks;
    if |data| % 32 == 0 {
      DecodesEachIff(ks, Chunks(data), 0, ts);
    }
  }

  // ---------- empty data ----------

  /** A kind whose value takes no bytes: no bytes, or an array of nothing. */
  predicate TakesNoBytes(k: ParamKind) {
    k == FixedBytesKind(0) || (k.FixedArrayKind? && k.len == 0)
  }

  lemma {:induction false} NoNameError(k: ParamKind, slices: seq<Word>, o: nat)
    ensures DecodeParam(k, slices, o) != Err(InvalidName)
    decreases Depth(k), 0, 0
  {
    hide FollowOffset, FromBigEndian, ReadLength, DecodeEach, Repeat, MaxDepth, TakeBytes, Points, EnterBlock;
    ReadLengthReads(slices, o);
    match k
    case FixedBytesKind(len) => TakeBytesErrs(slices, o, len);
    case BytesKind => ReadBytesErrs(slices, o);
    case StringKind => ReadBytesErrs(slices, o);
    case ArrayKind(e) =>
      if ReadLength(slices, o).Ok? {
        var (len, start) := ReadLength(slices, o).value;
        NoNameErrors(Repeat(e, len), slices[start..], 0);
      }
    case FixedArrayKind(e, len) => NoNameErrorInBlock(Repeat(e, len), k.IsDynamic(), slices, o);
    case TupleKind(ks) => NoNameErrorInBlock(ks, k.IsDynamic(), slices, o);
    case _ =>
  }

  lemma TakeBytesErrs(slices: seq<Word>, o: nat, len: nat)
    ensures TakeBytes(slices, o, len) != Err(InvalidName)
  {
  }

  lemma ReadBytesErrs(slices: seq<Word>, o: nat)
    ensures ReadBytes(slices, o) != Err(InvalidName)
  {
    hide ReadLength, TakeBytes;
    ReadLengthReads(slices, o);
    if ReadLength(slices, o).Ok? {
      TakeBytesErrs(slices, ReadLength(slices, o).value.1, ReadLength(slices, o).value.0);
    }
  }

  lemma {:induction false} NoNameErrorInBlock(ks: seq<ParamKind>, dynamic: bool, slices: seq<Word>, o: nat)
    ensures var block := EnterBlock(dynamic, slices, o);
            block != Err(InvalidName) && (block.Ok? ==> DecodeEach(ks, block.value.0, block.value.1) != Err(InvalidName))
    decreases MaxDepth(ks), 2, |ks|
  {
    hide FollowOffset, DecodeEach, FromBigEndian;
    FollowOffsetReads(slices, o);
    if EnterBlock(dynamic, slices, o).Ok? {
      var (tail, start) := EnterBlock(dynamic, slices, o).value;
      NoNameErrors(ks, tail, start);
    }
  }

  lemma {:induction false} NoNameErrors(ks: seq<ParamKind>, slices: seq<Word>, o: nat)
    ensures DecodeEach(ks, slices, o) != Err(InvalidName)
    decreases MaxDepth(ks), 1, |ks|
  {
    hide DecodeParam;
    if ks == [] {
    } else {
      NoNameError(ks[0], slices, o);
      if DecodeParam(ks[0], slices, o).Ok? {
        NoNameErrors(ks[1..], slices, DecodeParam(ks[0], slices, o).value.1);
      }
    }
  }

  /** The name error is that of empty data for a kind that takes bytes, and no other's. */
  lemma InvalidNameIff(ks: seq<ParamKind>, data: seq<byte>)
    ensures Decode(ks, data) == Err(InvalidName) <==> data == [] && exists k :: k in ks && !TakesNoBytes(k)
  {
    hide DecodeEach, TakesNoBytes, Chunks, ParamKind.AllowsEmptyBytes;
    AllowsMeansNone(ks);
    if |data| % 32 == 0 {
      NoNameErrors(ks, Chunks(data), 0);
    }
  }

  /** Empty data is read exactly when every kind takes no bytes and none is dynamic. */
  lemma EmptyData(ks: seq<ParamKind>)
    ensures Decode(ks, []).Ok? <==> forall k :: k in ks ==> TakesNoBytes(k) && !k.IsDynamic()
  {
    hide DecodeEach, TakesNoBytes, ParamKind.IsDynamic, ParamKind.AllowsEmptyBytes;
    AllowsMeansNone(ks);
    assert SliceData([]) == Ok([]);
    if AllAllowEmpty(ks) {
      EmptyEach(ks);
    }
  }

  lemma AllowsMeansNone(ks: seq<ParamKind>)
    ensures AllAllowEmpty(ks) <==> forall k :: k in ks ==> TakesNoBytes(k)
  {
  }

  lemma {:induction false} EmptyEach(ks: seq<ParamKind>)
    requires forall k :: k in ks ==> TakesNoBytes(k)
    ensures var r := DecodeEach(ks, [], 0);
            (r.Ok? <==> forall k :: k in ks ==> !k.IsDynamic()) && (r.Ok? ==> r.value.1 == 0)
  {
    hide DecodeParam;
    if ks == [] {
    } else {
      EmptyOne(ks[0]);
      EmptyEach(ks[1..]);
      assert forall k :: k in ks <==> k == ks[0] || k in ks[1..];
    }
  }

  lemma EmptyOne(k: ParamKind)
    requires TakesNoBytes(k)
    ensures var r := DecodeParam(k, [], 0);
            (r.Ok? <==> !k.IsDynamic()) && (r.Ok? ==> r.value.1 == 0)
  {
  }
}
