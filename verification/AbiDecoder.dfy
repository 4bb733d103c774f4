/** The ABI decoder (`decoder.rs`, `util.rs`). It follows the offsets in the data, guided
    by the kinds. Slicing past the end of the words is a panic, told apart from an error. */
module AbiDecoder {
  import opened Words
  import opened AbiTypes

  datatype Error = InvalidName | InvalidData

  datatype Outcome<+T> = Ok(value: T) | Err(error: Error) | Panic {
    predicate IsFailure() {
      !Ok?
    }

    function PropagateFailure<U>(): Outcome<U>
      requires IsFailure()
    {
      if Err? then Err(error) else Panic
    }

    function Extract(): T
      requires !IsFailure()
    {
      value
    }
  }

  /** `as_u32`. */
  function AsU32(w: Word): Outcome<u32> {
    if w[..28] == Zeros(28) then Ok(SumOfShifts(w[28..])) else Err(InvalidData)
  }

  lemma AsU32OfPadU32(v: u32)
    ensures AsU32(PadU32(v)) == Ok(v)
  {
    var w := PadU32(v);
    assert w[..28] == Zeros(28) && w[28..] == BigEndian(v, 4);
    Pow256Values();
    BigEndianRoundTrip(v, 4);
    SumOfShiftsIsBigEndian(w[28..]);
  }

  /** `as_bool`. */
  function AsBool(w: Word): Outcome<bool> {
    if w[..31] == Zeros(31) then Ok(w[31] == 1) else Err(InvalidData)
  }

  /** `slice_data`. */
  function SliceData(data: seq<byte>): Outcome<seq<Word>> {
    if |data| % 32 != 0 then Err(InvalidData) else Ok(Chunks(data))
  }

  method SliceDataLoop(data: seq<byte>) returns (r: Outcome<seq<Word>>)
    ensures r == SliceData(data)
  {
    if |data| % 32 != 0 {
      return Err(InvalidData);
    }
    var times := |data| / 32;
    var result: seq<Word> := [];
    for i := 0 to times
      invariant result == Chunks(data)[..i]
    {
      var offset := 32 * i;
      ChunksAt(data, i);
      result := result + [data[offset..offset + 32]];
    }
    assert Chunks(data)[..times] == Chunks(data);
    return Ok(result);
  }

  /** `peek`. */
  function Peek(slices: seq<Word>, position: nat): Outcome<Word> {
    if position < |slices| then Ok(slices[position]) else Err(InvalidData)
  }

  /** `take_bytes`: `len` bytes from as many words as they need, and the word after them. */
  function TakeBytes(slices: seq<Word>, position: nat, len: nat): Outcome<(seq<byte>, nat)> {
    var n := (len + 31) / 32;
    if n == 0 then Ok(([], position))
    else if position + n <= |slices| then Ok((Flatten(slices[position..position + n])[..len], position + n))
    else Err(InvalidData)
  }

  method TakeBytesLoop(slices: seq<Word>, position: nat, len: nat) returns (r: Outcome<(seq<byte>, nat)>)
    ensures r == TakeBytes(slices, position, len)
  {
    var n := (len + 31) / 32;
    var taken: seq<Word> := [];
    for i := 0 to n
      invariant i > 0 ==> position + i <= |slices|
      invariant taken == if i == 0 then [] else slices[position..position + i]
    {
      var slice := Peek(slices, position + i);
      if slice.IsFailure() {
        return slice.PropagateFailure();
      }
      taken := taken + [slice.value];
    }
    return Ok((Flatten(taken)[..len], position + n));
  }

  /** The word index that an offset word stands for. */
  function FollowOffset(slices: seq<Word>, offset: nat): Outcome<nat> {
    var word :- Peek(slices, offset);
    var bytes :- AsU32(word);
    Ok(bytes / 32)
  }

  /** A length word and the position after it. */
  function ReadLength(slices: seq<Word>, offset: nat): (r: Outcome<(nat, nat)>)
    ensures r.Ok? ==> r.value.1 <= |slices|
  {
    var lenOffset :- FollowOffset(slices, offset);
    var word :- Peek(slices, lenOffset);
    var len :- AsU32(word);
    Ok((len, lenOffset + 1))
  }

  function ReadBytes(slices: seq<Word>, offset: nat): Outcome<seq<byte>> {
    var (len, start) :- ReadLength(slices, offset);
    var (bytes, _) :- TakeBytes(slices, start, len);
    Ok(bytes)
  }

  /** Where the parts of a fixed array or tuple are: behind an offset when it is dynamic,
      in place when it is static. */
  function EnterBlock(dynamic: bool, slices: seq<Word>, offset: nat): Outcome<(seq<Word>, nat)> {
    if dynamic then
      var start :- FollowOffset(slices, offset);
      if start <= |slices| then Ok((slices[start..], 0)) else Panic
    else Ok((slices, offset))
  }

  /** `decode_param`: a token and the offset after its head. */
  function DecodeParam(k: ParamKind, slices: seq<Word>, offset: nat): Outcome<(Token, nat)>
    decreases Depth(k), 0, 0
  {
    match k
    case AddressKind =>
      var w :- Peek(slices, offset);
      Ok((Address(w[12..]), offset + 1))
    case IntKind(_) =>
      var w :- Peek(slices, offset);
      Ok((Int(FromBigEndian(w)), offset + 1))
    case UintKind(_) =>
      var w :- Peek(slices, offset);
      Ok((Uint(FromBigEndian(w)), offset + 1))
    case BoolKind =>
      var w :- Peek(slices, offset);
      var b :- AsBool(w);
      Ok((Bool(b), offset + 1))
    case FixedBytesKind(len) =>
      var (bytes, next) :- TakeBytes(slices, offset, len);
      Ok((FixedBytes(bytes), next))
    case BytesKind =>
      var bytes :- ReadBytes(slices, offset);
      Ok((Bytes(bytes), offset + 1))
    case StringKind =>
      var bytes :- ReadBytes(slices, offset);
      Ok((String(bytes), offset + 1))
    case ArrayKind(e) =>
      var (len, start) :- ReadLength(slices, offset);
      var (items, _) :- DecodeEach(Repeat(e, len), slices[start..], 0);
      Ok((Array(items), offset + 1))
    case FixedArrayKind(e, len) =>
      var (tail, start) :- EnterBlock(k.IsDynamic(), slices, offset);
      var (items, next) :- DecodeEach(Repeat(e, len), tail, start);
      Ok((FixedArray(items), if k.IsDynamic() then offset + 1 else next))
    case TupleKind(ks) =>
      var (tail, start) :- EnterBlock(k.IsDynamic(), slices, offset);
      var (items, next) :- DecodeEach(ks, tail, start);
      Ok((Tuple(items), if k.IsDynamic() then offset + 1 else next))
  }

  /** The decoding loops: one parameter after the other, each from where the previous head
      ended. */
  function DecodeEach(ks: seq<ParamKind>, slices: seq<Word>, offset: nat): Outcome<(seq<Token>, nat)>
    decreases MaxDepth(ks), 1, |ks|
  {
    if ks == [] then Ok(([], offset))
    else
      var (t, next) :- DecodeParam(ks[0], slices, offset);
      var (ts, end) :- DecodeEach(ks[1..], slices, next);
      Ok(([t] + ts, end))
  }

  predicate AllAllowEmpty(ks: seq<ParamKind>) {
    forall k :: k in ks ==> k.AllowsEmptyBytes()
  }

  /** `decode`. */
  function Decode(ks: seq<ParamKind>, data: seq<byte>): Outcome<seq<Token>> {
    if !AllAllowEmpty(ks) && data == [] then Err(InvalidName)
    else
      var slices :- SliceData(data);
      var (tokens, _) :- DecodeEach(ks, slices, 0);
      Ok(tokens)
  }

  /** What a decoding loop still has to do, with `done` already decoded. */
  function After(done: seq<Token>, rest: Outcome<(seq<Token>, nat)>): Outcome<(seq<Token>, nat)> {
    var (ts, end) :- rest;
    Ok((done + ts, end))
  }

  /** `decode_param` with its loops. */
  method DecodeParamLoop(k: ParamKind, slices: seq<Word>, offset: nat) returns (r: Outcome<(Token, nat)>)
    ensures r == DecodeParam(k, slices, offset)
    decreases Depth(k), 0, 0
  {
    match k
    case FixedBytesKind(len) =>
      var taken := TakeBytesLoop(slices, offset, len);
      if taken.IsFailure() {
        return taken.PropagateFailure();
      }
      return Ok((FixedBytes(taken.value.0), taken.value.1));
    case ArrayKind(e) =>
      var header := ReadLength(slices, offset);
      if header.IsFailure() {
        return header.PropagateFailure();
      }
      var items := DecodeEachLoop(Repeat(e, header.value.0), slices[header.value.1..], 0);
      if items.IsFailure() {
        return items.PropagateFailure();
      }
      return Ok((Array(items.value.0), offset + 1));
    case FixedArrayKind(e, len) =>
      var block := EnterBlock(k.IsDynamic(), slices, offset);
      if block.IsFailure() {
        return block.PropagateFailure();
      }
      var items := DecodeEachLoop(Repeat(e, len), block.value.0, block.value.1);
      if items.IsFailure() {
        return items.PropagateFailure();
      }
      return Ok((FixedArray(items.value.0), if k.IsDynamic() then offset + 1 else items.value.1));
    case TupleKind(ks) =>
      var block := EnterBlock(k.IsDynamic(), slices, offset);
      if block.IsFailure() {
        return block.PropagateFailure();
      }
      var items := DecodeEachLoop(ks, block.value.0, block.value.1);
      if items.IsFailure() {
        return items.PropagateFailure();
      }
      return Ok((Tuple(items.value.0), if k.IsDynamic() then offset + 1 else items.value.1));
    case _ =>
      return DecodeParam(k, slices, offset);
  }

  /** The loop body that `decode` and the array and tuple cases of `decode_param` share. */
  method DecodeEachLoop(ks: seq<ParamKind>, slices: seq<Word>, offset: nat) returns (r: Outcome<(seq<Token>, nat)>)
    ensures r == DecodeEach(ks, slices, offset)
    decreases MaxDepth(ks), 1, |ks|
  {
    var tokens: seq<Token> := [];
    var newOffset := offset;
    ghost var all := DecodeEach(ks, slices, offset);
    assert ks[0..] == ks && (all.Ok? ==> [] + all.value.0 == all.value.0);
    for i := 0 to |ks|
      invariant After(tokens, DecodeEach(ks[i..], slices, newOffset)) == DecodeEach(ks, slices, offset)
    {
      assert ks[i..][1..] == ks[i + 1..] && ks[i] in ks;
      var res := DecodeParamLoop(ks[i], slices, newOffset);
      if res.IsFailure() {
        return res.PropagateFailure();
      }
      ghost var rest := DecodeEach(ks[i + 1..], slices, res.value.1);
      assert rest.Ok? ==> tokens + ([res.value.0] + rest.value.0) == (tokens + [res.value.0]) + rest.value.0;
      newOffset := res.value.1;
      tokens := tokens + [res.value.0];
    }
    assert tokens + [] == tokens;
    return Ok((tokens, newOffset));
  }

  /** `decode` as the source runs it. */
  method DecodeLoop(ks: seq<ParamKind>, data: seq<byte>) returns (r: Outcome<seq<Token>>)
    ensures r == Decode(ks, data)
  {
    if !AllAllowEmpty(ks) && data == [] {
      return Err(InvalidName);
    }
    var slices := SliceDataLoop(data);
    if slices.IsFailure() {
      return slices.PropagateFailure();
    }
    var tokens := DecodeEachLoop(ks, slices.value, 0);
    if tokens.IsFailure() {
      return tokens.PropagateFailure();
    }
    return Ok(tokens.value.0);
  }
}
