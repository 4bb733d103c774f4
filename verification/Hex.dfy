/** Hexadecimal text (`chain_utils.rs`). */
module Hex {
  import opened Words

  datatype HexError = ConversionError | InvalidHexCharacter

  datatype Result<+T> = Ok(value: T) | Err(error: HexError) {
    predicate IsFailure() {
      Err?
    }

    function PropagateFailure<U>(): Result<U>
      requires Err?
    {
      Err(error)
    }

    function Extract(): T
      requires Ok?
    {
      value
    }
  }

  const ZERO: byte := 0x30
  const LOWER_A: byte := 0x61
  const UPPER_A: byte := 0x41
  const LOWER_X: byte := 0x78

  /** `HEX_TABLE`. */
  function Digit(n: int): (c: byte)
    requires 0 <= n < 16
  {
    if n < 10 then ZERO + n as byte else LOWER_A + (n - 10) as byte
  }

  predicate IsHex(c: byte) {
    0x41 <= c <= 0x46 || 0x61 <= c <= 0x66 || 0x30 <= c <= 0x39
  }

  /** `val`. */
  function Val(c: byte): (r: Result<int>)
    ensures r.Ok? <==> IsHex(c)
    ensures r.Ok? ==> 0 <= r.value < 16 && Digit(r.value) == Lower(c)
  {
    if 0x41 <= c <= 0x46 then Ok((c - UPPER_A) as int + 10)
    else if 0x61 <= c <= 0x66 then Ok((c - LOWER_A) as int + 10)
    else if 0x30 <= c <= 0x39 then Ok((c - ZERO) as int)
    else Err(InvalidHexCharacter)
  }

  function Lower(c: byte): byte {
    if 0x41 <= c <= 0x5A then c + 0x20 else c
  }

  function LowerAll(s: seq<byte>): (r: seq<byte>)
    ensures |r| == |s| && forall i :: 0 <= i < |s| ==> r[i] == Lower(s[i])
  {
    seq(|s|, i requires 0 <= i < |s| => Lower(s[i]))
  }

  /** `bytes_to_hex`: two lower-case digits for every byte. */
  function BytesToHex(s: seq<byte>): (h: seq<byte>)
    ensures |h| == 2 * |s| && forall c :: c in h ==> IsHex(c) && Lower(c) == c
  {
    if s == [] then []
    else [Digit(s[0] as int / 16), Digit(s[0] as int % 16)] + BytesToHex(s[1..])
  }

  lemma {:induction false} BytesToHexAt(s: seq<byte>, i: nat)
    requires i < |s|
    ensures BytesToHex(s)[2 * i] == Digit(s[i] as int / 16) && BytesToHex(s)[2 * i + 1] == Digit(s[i] as int % 16)
  {
    if i == 0 {
    } else {
      BytesToHexAt(s[1..], i - 1);
    }
  }

  /** The pushing loop of the source. */
  method BytesToHexLoop(s: seq<byte>) returns (rv: seq<byte>)
    ensures rv == BytesToHex(s)
  {
    rv := [];
    for i := 0 to |s|
      invariant rv == BytesToHex(s)[..2 * i]
    {
      BytesToHexAt(s, i);
      rv := rv + [Digit(s[i] as int / 16)];
      rv := rv + [Digit(s[i] as int % 16)];
    }
  }

  predicate HasPrefix(s: seq<byte>) {
    |s| >= 2 && s[0] == ZERO && s[1] == LOWER_X
  }

  /** `hex_add_0x`. */
  function Add0x(s: seq<byte>): seq<byte> {
    if HasPrefix(s) then s else [ZERO, LOWER_X] + s
  }

  function Strip(s: seq<byte>): seq<byte> {
    if HasPrefix(s) then s[2..] else s
  }

  /** `hex_remove_0x`. */
  function Remove0x(s: seq<byte>): Result<seq<byte>> {
    if |s| < 2 then Err(ConversionError) else Ok(Strip(s))
  }

  /** The digits of `data`, two by two, up to the first that is not one. */
  function DecodePairs(data: seq<byte>): Result<seq<byte>>
    requires |data| % 2 == 0
  {
    if data == [] then Ok([])
    else
      var hi :- Val(data[0]);
      var lo :- Val(data[1]);
      var rest :- DecodePairs(data[2..]);
      Ok([(16 * hi + lo) as byte] + rest)
  }

  /** `hex_to_bytes`. */
  function HexToBytes(data: seq<byte>): Result<seq<byte>> {
    if |data| % 2 != 0 then Err(ConversionError)
    else
      var digits :- Remove0x(data);
      DecodePairs(digits)
  }

  /** What the decoding loop still has to do after filling `done`. */
  function Filled(done: seq<byte>, rest: Result<seq<byte>>): Result<seq<byte>> {
    var bytes :- rest;
    Ok(done + bytes)
  }

  lemma FillOne(done: seq<byte>, rest: seq<byte>)
    requires |rest| % 2 == 0 && rest != []
    ensures var hi, lo, all := Val(rest[0]), Val(rest[1]), Filled(done, DecodePairs(rest));
            && (hi.Err? ==> all == Err(hi.error))
            && (hi.Ok? && lo.Err? ==> all == Err(lo.error))
            && (hi.Ok? && lo.Ok? ==>
                  all == Filled(done + [(16 * hi.value + lo.value) as byte], DecodePairs(rest[2..])))
  {
    hide Val, Digit;
    var hi, lo := Val(rest[0]), Val(rest[1]);
    if hi.Ok? && lo.Ok? && DecodePairs(rest[2..]).Ok? {
      var b, tail := (16 * hi.value + lo.value) as byte, DecodePairs(rest[2..]).value;
      assert done + ([b] + tail) == (done + [b]) + tail;
    }
  }

  lemma FillNone(rest: Result<seq<byte>>)
    ensures Filled([], rest) == rest
  {
    assert rest.Ok? ==> [] + rest.value == rest.value;
  }

  lemma FillAll(done: seq<byte>)
    ensures Filled(done, DecodePairs([])) == Ok(done)
  {
    assert done + [] == done;
  }

  /** The loop of `hex_to_bytes`: it fills `out` in place and stops at the first bad digit. */
  method DecodePairsLoop(digits: seq<byte>) returns (r: Result<seq<byte>>)
    requires |digits| % 2 == 0
    ensures r == DecodePairs(digits)
  {
    hide Val, Digit, DecodePairs, Filled;
    var out := new byte[|digits| / 2](_ => 0);
    FillNone(DecodePairs(digits));
    assert digits[0..] == digits && out[..0] == [];
    for i := 0 to out.Length
      invariant Filled(out[..i], DecodePairs(digits[2 * i..])) == DecodePairs(digits)
    {
      var hi, lo := Val(digits[2 * i]), Val(digits[2 * i + 1]);
      FillOne(out[..i], digits[2 * i..]);
      if hi.IsFailure() {
        return hi.PropagateFailure();
      }
      if lo.IsFailure() {
        return lo.PropagateFailure();
      }
      ghost var before := out[..i];
      out[i] := (16 * hi.value + lo.value) as byte;
      assert out[..i + 1] == before + [out[i]];
      assert digits[2 * i..][2..] == digits[2 * (i + 1)..];
    }
    FillAll(out[..]);
    assert out[..out.Length] == out[..];
    return Ok(out[..]);
  }

  /** `hex_to_bytes` as the source runs it. */
  method HexToBytesLoop(data: seq<byte>) returns (r: Result<seq<byte>>)
    ensures r == HexToBytes(data)
  {
    if |data| % 2 != 0 {
      return Err(ConversionError);
    }
    var stripped := Remove0x(data);
    if stripped.IsFailure() {
      return stripped.PropagateFailure();
    }
    r := DecodePairsLoop(stripped.value);
  }

  lemma DigitVal(n: int)
    requires 0 <= n < 16
    ensures Val(Digit(n)) == Ok(n)
  {
  }

  lemma NibblesOf(hi: int, lo: int)
    requires 0 <= hi < 16 && 0 <= lo < 16
    ensures (16 * hi + lo) / 16 == hi && (16 * hi + lo) % 16 == lo
  {
  }

  /** Printing what digits decode to gives them back in lower case. */
  lemma {:induction false} DecodePairsInverse(data: seq<byte>)
    requires |data| % 2 == 0 && DecodePairs(data).Ok?
    ensures BytesToHex(DecodePairs(data).value) == LowerAll(data)
  {
    hide Val, Lower, Digit;
    if data == [] {
    } else {
      DecodePairsInverse(data[2..]);
      var hi, lo := Val(data[0]).value, Val(data[1]).value;
      var b, rest := (16 * hi + lo) as byte, DecodePairs(data[2..]).value;
      NibblesOf(hi, lo);
      assert DecodePairs(data).value == [b] + rest && ([b] + rest)[1..] == rest;
      assert LowerAll(data) == [Lower(data[0]), Lower(data[1])] + LowerAll(data[2..]);
    }
  }

  lemma {:induction false} DecodePairsAccepts(data: seq<byte>)
    requires |data| % 2 == 0
    ensures DecodePairs(data).Ok? <==> forall c :: c in data ==> IsHex(c)
    ensures DecodePairs(data).Err? ==> DecodePairs(data).error == InvalidHexCharacter
  {
    hide IsHex;
    if data == [] {
    } else {
      DecodePairsAccepts(data[2..]);
      assert data == [data[0], data[1]] + data[2..];
    }
  }

  lemma {:induction false} DecodePairsOfHex(b: seq<byte>)
    ensures DecodePairs(BytesToHex(b)) == Ok(b)
  {
    hide Val, Digit;
    if b == [] {
    } else {
      DecodePairsOfHex(b[1..]);
      var h, hi, lo := BytesToHex(b), b[0] as int / 16, b[0] as int % 16;
      DigitVal(hi);
      DigitVal(lo);
      assert h[2..] == BytesToHex(b[1..]) && 16 * hi + lo == b[0] as int;
      assert [b[0]] + b[1..] == b;
    }
  }

  /** Printing with a prefix and reading back is the identity on every byte string. */
  lemma HexRoundTrip(b: seq<byte>)
    ensures HexToBytes(Add0x(BytesToHex(b))) == Ok(b)
    ensures HexToBytes(BytesToHex(b)) == Ok(b) <==> b != []
  {
    hide DecodePairs, BytesToHex;
    var h := BytesToHex(b);
    DecodePairsOfHex(b);
    assert !HasPrefix(h) by {
      if |h| >= 2 {
        assert h[1] in h;
      }
    }
    assert Add0x(h) == [ZERO, LOWER_X] + h && Strip(Add0x(h)) == h;
  }

  /** Text is accepted exactly when it has an even number of characters, at least two, and
      only hexadecimal digits after an optional prefix; printing the bytes read gives those
      digits in lower case. */
  lemma HexAccepted(h: seq<byte>)
    ensures HexToBytes(h).Ok? <==> |h| % 2 == 0 && |h| >= 2 && forall c :: c in Strip(h) ==> IsHex(c)
    ensures HexToBytes(h).Ok? ==> BytesToHex(HexToBytes(h).value) == LowerAll(Strip(h))
    ensures HexToBytes(h) == Err(ConversionError) <==> |h| % 2 != 0 || |h| < 2
  {
    if |h| % 2 == 0 && |h| >= 2 {
      DecodePairsAccepts(Strip(h));
      if HexToBytes(h).Ok? {
        DecodePairsInverse(Strip(h));
      }
    }
  }

  lemma HexInjective(a: seq<byte>, b: seq<byte>)
    requires BytesToHex(a) == BytesToHex(b)
    ensures a == b
  {
    DecodePairsOfHex(a);
    DecodePairsOfHex(b);
  }

  /** The number that hexadecimal digits stand for. */
  function FromHex(h: seq<byte>): nat
    requires forall c :: c in h ==> IsHex(c)
  {
    if h == [] then 0 else 16 * FromHex(h[..|h| - 1]) + Val(h[|h| - 1]).value
  }

  /** The text is the number that the bytes are, most significant digit first. */
  lemma {:induction false} HexIsNumber(b: seq<byte>)
    ensures FromHex(BytesToHex(b)) == FromBigEndian(b)
  {
    hide Val, Digit, BytesToHex, FromHex;
    if b == [] {
      assert FromHex(BytesToHex([])) == 0 by {
        NoDigits();
      }
    } else {
      var n := |b| - 1;
      var x := b[n] as int;
      HexIsNumber(b[..n]);
      HexAppend(b[..n], b[n]);
      assert b == b[..n] + [b[n]];
      DigitVal(x / 16);
      DigitVal(x % 16);
      TwoDigits(BytesToHex(b[..n]), Digit(x / 16), Digit(x % 16));
    }
  }

  lemma NoDigits()
    ensures BytesToHex([]) == [] && FromHex([]) == 0
  {
  }

  lemma TwoDigits(h: seq<byte>, c: byte, d: byte)
    requires (forall x :: x in h ==> IsHex(x)) && IsHex(c) && IsHex(d)
    ensures FromHex(h + [c, d]) == 256 * FromHex(h) + 16 * Val(c).value + Val(d).value
  {
    hide Val, IsHex;
    var one, two := h + [c], h + [c, d];
    assert two[..|two| - 1] == one && one[..|one| - 1] == h;
  }

  lemma {:induction false} HexAppend(b: seq<byte>, c: byte)
    ensures BytesToHex(b + [c]) == BytesToHex(b) + [Digit(c as int / 16), Digit(c as int % 16)]
  {
    hide Digit;
    if b == [] {
      assert ([] + [c])[1..] == [];
    } else {
      HexAppend(b[1..], c);
      assert (b + [c])[1..] == b[1..] + [c];
    }
  }

  /** Adding the prefix gives a text with it that reads as before, and adding it again nothing. */
  lemma PrefixOnce(h: seq<byte>)
    ensures HasPrefix(Add0x(h)) && Strip(Add0x(h)) == Strip(h) && Add0x(Add0x(h)) == Add0x(h)
  {
    assert ([ZERO, LOWER_X] + h)[2..] == h;
  }
}
