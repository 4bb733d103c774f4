/** The ABI encoder (`encoder.rs`): tokens become a tree of mediates, and a list of
    mediates becomes heads, byte offsets and tails. Lengths and offsets are `u32`
    and wrap. */
module AbiEncoder {
  import opened Words
  import opened AbiTypes

  datatype Mediate =
    | Raw(words: seq<Word>)
    | Prefixed(words: seq<Word>)
    | PrefixedArray(parts: seq<Mediate>)
    | PrefixedArrayWithLength(parts: seq<Mediate>)
    | RawTuple(parts: seq<Mediate>)
    | PrefixedTuple(parts: seq<Mediate>)
  {
    /** The head is an offset to a tail. */
    predicate HasOffset() {
      !Raw? && !RawTuple?
    }
  }

  /** `pad_fixed_bytes`: bytes cut into words, the last one filled up with zeros. */
  function PadFixedBytes(b: seq<byte>): (ws: seq<Word>)
    ensures |ws| == (|b| + 31) / 32
  {
    if b == [] then []
    else if |b| <= 32 then [b + Zeros(32 - |b|)]
    else [b[..32]] + PadFixedBytes(b[32..])
  }

  /** `pad_bytes`: a length word before the padded bytes. */
  function PadBytes(b: seq<byte>): (ws: seq<Word>) {
    [PadU32(U32(|b|))] + PadFixedBytes(b)
  }

  /** Dropping the padding gives the bytes back. */
  lemma {:induction false} PaddingKeepsBytes(b: seq<byte>)
    ensures Flatten(PadFixedBytes(b))[..|b|] == b
  {
    if |b| > 32 {
      PaddingKeepsBytes(b[32..]);
      var rest := Flatten(PadFixedBytes(b[32..]));
      assert PadFixedBytes(b)[1..] == PadFixedBytes(b[32..]);
      assert Flatten(PadFixedBytes(b)) == b[..32] + rest;
      assert (b[..32] + rest)[..|b|] == b[..32] + rest[..|b| - 32];
    } else if b != [] {
      assert PadFixedBytes(b)[1..] == [];
    }
  }

  /** Every word but the last is a whole slice of 32 bytes, the last holds what is left. */
  lemma {:induction false} PadFixedBytesAt(b: seq<byte>, i: nat)
    requires 32 * i < |b|
    ensures 32 * i + 32 <= |b| ==> PadFixedBytes(b)[i] == b[32 * i..32 * i + 32]
    ensures |b| < 32 * i + 32 ==> PadFixedBytes(b)[i] == b[32 * i..] + Zeros(32 * i + 32 - |b|)
  {
    if i > 0 {
      PadFixedBytesAt(b[32..], i - 1);
      assert b[32..][32 * (i - 1)..] == b[32 * i..];
    } else if |b| == 32 {
      assert b + Zeros(0) == b[..32];
    }
  }

  /** The source's loop. */
  method PadFixedBytesLoop(b: seq<byte>) returns (result: seq<Word>)
    ensures result == PadFixedBytes(b)
  {
    var len := (|b| + 31) / 32;
    result := [];
    for i := 0 to len
      invariant result == PadFixedBytes(b)[..i]
    {
      var toCopy := if i == len - 1 then (if |b| % 32 == 0 then 32 else |b| % 32) else 32;
      var offset := 32 * i;
      var padded: Word := b[offset..offset + toCopy] + Zeros(32 - toCopy);
      PadFixedBytesAt(b, i);
      assert padded == PadFixedBytes(b)[i];
      result := result + [padded];
    }
  }

  /** `Mediate::head_len`. A static tuple counts its components. */
  function HeadLen(m: Mediate): u32 {
    match m
    case Raw(ws) => U32(32 * U32(|ws|))
    case RawTuple(ms) => U32(32 * U32(|ms|))
    case _ => 32
  }

  /** `Mediate::tail_len`. */
  function TailLen(m: Mediate): u32 {
    match m
    case Raw(_) | RawTuple(_) => 0
    case Prefixed(ws) => U32(32 * U32(|ws|))
    case PrefixedArray(ms) => BlockLen(ms)
    case PrefixedArrayWithLength(ms) => U32(32 + BlockLen(ms))
    case PrefixedTuple(ms) => BlockLen(ms)
  }

  /** The sum that `tail_len` folds over the parts of a block. */
  function BlockLen(ms: seq<Mediate>): u32 {
    if ms == [] then 0 else U32(HeadLen(ms[0]) + TailLen(ms[0]) + BlockLen(ms[1..]))
  }

  function HeadsLen(ms: seq<Mediate>): u32 {
    if ms == [] then 0 else U32(HeadLen(ms[0]) + HeadsLen(ms[1..]))
  }

  /** `Mediate::head`. */
  function Head(m: Mediate, suffixOffset: u32): seq<Word> {
    match m
    case Raw(ws) => ws
    case RawTuple(ms) => FlatHeads(ms)
    case _ => [PadU32(suffixOffset)]
  }

  /** The heads of a static tuple, all taken at offset 0. */
  function FlatHeads(ms: seq<Mediate>): seq<Word> {
    if ms == [] then [] else Head(ms[0], 0) + FlatHeads(ms[1..])
  }

  /** `Mediate::tail`. */
  function Tail(m: Mediate): seq<Word> {
    match m
    case Raw(_) | RawTuple(_) => []
    case Prefixed(ws) => ws
    case PrefixedArray(ms) => EncodeHeadTail(ms)
    case PrefixedArrayWithLength(ms) => [PadU32(U32(|ms|))] + EncodeHeadTail(ms)
    case PrefixedTuple(ms) => EncodeHeadTail(ms)
  }

  /** `encode_head_tail`: all heads, with offsets running over the tails, then all tails. */
  function EncodeHeadTail(ms: seq<Mediate>): (ws: seq<Word>)
    decreases ms, 1
  {
    Heads(ms, HeadsLen(ms)) + Tails(ms)
  }

  function Heads(ms: seq<Mediate>, offset: u32): seq<Word> {
    if ms == [] then []
    else Head(ms[0], offset) + Heads(ms[1..], U32(offset + TailLen(ms[0])))
  }

  function Tails(ms: seq<Mediate>): seq<Word>
    decreases ms, 0
  {
    if ms == [] then [] else Tail(ms[0]) + Tails(ms[1..])
  }

  /** The first fold of `encode_head_tail`. */
  method SumHeadLens(ms: seq<Mediate>) returns (headsLen: u32)
    ensures headsLen == HeadsLen(ms)
  {
    hide HeadLen;
    headsLen := 0;
    for i := 0 to |ms|
      invariant U32(headsLen + HeadsLen(ms[i..])) == HeadsLen(ms)
    {
      assert ms[i..][1..] == ms[i + 1..];
      U32Absorbs(headsLen + HeadLen(ms[i]), HeadsLen(ms[i + 1..]));
      U32Absorbs(HeadLen(ms[i]) + HeadsLen(ms[i + 1..]), headsLen);
      headsLen := U32(headsLen + HeadLen(ms[i]));
    }
  }

  /** The second fold: heads, with the offset running over the tails. */
  method AppendHeads(ms: seq<Mediate>, headsLen: u32) returns (result: seq<Word>)
    ensures result == Heads(ms, headsLen)
  {
    var offset: u32 := headsLen;
    result := [];
    for i := 0 to |ms|
      invariant result + Heads(ms[i..], offset) == Heads(ms, headsLen)
    {
      assert ms[i..][1..] == ms[i + 1..];
      var head, next := Head(ms[i], offset), U32(offset + TailLen(ms[i]));
      assert result + (head + Heads(ms[i + 1..], next)) == (result + head) + Heads(ms[i + 1..], next);
      result := result + head;
      offset := next;
    }
  }

  /** `encode_head_tail` as the source's three folds over mutated accumulators. */
  method EncodeHeadTailLoop(ms: seq<Mediate>) returns (result: seq<Word>)
    ensures result == EncodeHeadTail(ms)
  {
    var headsLen := SumHeadLens(ms);
    result := AppendHeads(ms, headsLen);
    var tails := [];
    for i := 0 to |ms|
      invariant tails + Tails(ms[i..]) == Tails(ms)
    {
      assert ms[i..][1..] == ms[i + 1..];
      tails := tails + Tail(ms[i]);
    }
    result := result + tails;
  }

  /** `encode_token`. */
  function EncodeToken(t: Token): Mediate {
    match t
    case Address(a) => Raw([Zeros(12) + a])
    case Bytes(b) => Prefixed(PadBytes(b))
    case String(b) => Prefixed(PadBytes(b))
    case FixedBytes(b) => Raw(PadFixedBytes(b))
    case Int(v) => Raw([BigEndian(v, 32)])
    case Uint(v) => Raw([BigEndian(v, 32)])
    case Bool(b) => Raw([Zeros(31) + [if b then 1 else 0]])
    case Array(ts) => PrefixedArrayWithLength(EncodeTokens(ts))
    case FixedArray(ts) =>
      if t.IsDynamic() then PrefixedArray(EncodeTokens(ts)) else Raw(EncodeHeadTail(EncodeTokens(ts)))
    case Tuple(ts) =>
      if t.IsDynamic() then PrefixedTuple(EncodeTokens(ts)) else RawTuple(EncodeTokens(ts))
  }

  function EncodeTokens(ts: seq<Token>): (ms: seq<Mediate>)
    ensures |ms| == |ts|
  {
    if ts == [] then [] else [EncodeToken(ts[0])] + EncodeTokens(ts[1..])
  }

  function EncodeWords(ts: seq<Token>): seq<Word> {
    EncodeHeadTail(EncodeTokens(ts))
  }

  /** `encode`. */
  function Encode(ts: seq<Token>): (data: seq<byte>)
    ensures |data| == 32 * |EncodeWords(ts)|
  {
    Flatten(EncodeWords(ts))
  }
}
