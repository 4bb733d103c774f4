/** The values and types of the ABI (`token.rs`, `param.rs`). */
module AbiTypes {
  import opened Words

  datatype Token =
    | Address(address: Address)
    | FixedBytes(bytes: seq<byte>)
    | Bytes(bytes: seq<byte>)
    | Int(value: U256)
    | Uint(value: U256)
    | Bool(b: bool)
    | String(bytes: seq<byte>)
    | FixedArray(items: seq<Token>)
    | Array(items: seq<Token>)
    | Tuple(items: seq<Token>)
  {
    /** `Token::is_dynamic`. */
    predicate IsDynamic() {
      match this
      case Bytes(_) | String(_) | Array(_) => true
      case FixedArray(ts) => AnyDynamic(ts)
      case Tuple(ts) => AnyDynamic(ts)
      case _ => false
    }
  }

  predicate AnyDynamic(ts: seq<Token>) {
    ts != [] && (ts[0].IsDynamic() || AnyDynamic(ts[1..]))
  }

  datatype ParamKind =
    | AddressKind
    | BytesKind
    | IntKind(bits: nat)
    | UintKind(bits: nat)
    | BoolKind
    | StringKind
    | ArrayKind(elem: ParamKind)
    | FixedBytesKind(len: nat)
    | FixedArrayKind(elem: ParamKind, len: nat)
    | TupleKind(kinds: seq<ParamKind>)
  {
    /** `ParamKind::is_dynamic`. */
    predicate IsDynamic() {
      match this
      case BytesKind | StringKind | ArrayKind(_) => true
      case FixedArrayKind(k, _) => k.IsDynamic()
      case TupleKind(ks) => AnyDynamicKind(ks)
      case _ => false
    }

    /** `is_empty_bytes_valid_encoding`. */
    predicate AllowsEmptyBytes() {
      match this
      case FixedBytesKind(len) => len == 0
      case FixedArrayKind(_, len) => len == 0
      case _ => false
    }
  }

  predicate AnyDynamicKind(ks: seq<ParamKind>) {
    ks != [] && (ks[0].IsDynamic() || AnyDynamicKind(ks[1..]))
  }

  /** Nesting depth of a kind, the measure on which the decoder recurses. */
  function Depth(k: ParamKind): nat {
    match k
    case ArrayKind(e) => 1 + Depth(e)
    case FixedArrayKind(e, _) => 1 + Depth(e)
    case TupleKind(ks) => 1 + MaxDepth(ks)
    case _ => 0
  }

  function MaxDepth(ks: seq<ParamKind>): (d: nat)
    ensures forall k :: k in ks ==> Depth(k) <= d
  {
    if ks == [] then 0
    else
      var head, tail := Depth(ks[0]), MaxDepth(ks[1..]);
      if head > tail then head else tail
  }

  /** `n` parameters of the same kind: what an array of length `n` holds. */
  function Repeat(k: ParamKind, n: nat): (ks: seq<ParamKind>)
    ensures |ks| == n && forall e :: e in ks ==> e == k
    ensures MaxDepth(ks) <= Depth(k)
  {
    if n == 0 then [] else [k] + Repeat(k, n - 1)
  }

  /** The outcome of `type_check`: indexing a tuple's kinds past their end panics. */
  datatype Check = Pass | Fail | IndexPanic

  /** `Token::type_check`. */
  function TypeCheck(t: Token, k: ParamKind): Check {
    match t
    case Address(_) => if k.AddressKind? then Pass else Fail
    case Bytes(_) => if k.BytesKind? then Pass else Fail
    case Int(_) => if k.IntKind? then Pass else Fail
    case Uint(_) => if k.UintKind? then Pass else Fail
    case Bool(_) => if k.BoolKind? then Pass else Fail
    case String(_) => if k.StringKind? then Pass else Fail
    case FixedBytes(b) => if k.FixedBytesKind? && k.len >= |b| then Pass else Fail
    case Array(ts) => if k.ArrayKind? then TypeCheckItems(ts, Repeat(k.elem, |ts|)) else Fail
    case FixedArray(ts) =>
      if k.FixedArrayKind? && k.len == |ts| then TypeCheckItems(ts, Repeat(k.elem, |ts|)) else Fail
    case Tuple(ts) => if k.TupleKind? then TypeCheckItems(ts, k.kinds) else Fail
  }

  /** The `all` of `type_check` over indexed kinds: it stops at the first failure and
      does not look at kinds that no token reaches. */
  function TypeCheckItems(ts: seq<Token>, ks: seq<ParamKind>): Check {
    if ts == [] then Pass
    else if ks == [] then IndexPanic
    else if TypeCheck(ts[0], ks[0]) != Pass then TypeCheck(ts[0], ks[0])
    else TypeCheckItems(ts[1..], ks[1..])
  }

  /** `Token::types_check`. */
  function TypesCheck(ts: seq<Token>, ks: seq<ParamKind>): Check {
    if |ts| == |ks| then TypeCheckItems(ts, ks) else Fail
  }

  /** A token is exactly of a kind: byte lengths and tuple arities agree, which
      `type_check` does not ask. */
  predicate Exact(t: Token, k: ParamKind) {
    match t
    case Address(_) => k.AddressKind?
    case Bytes(_) => k.BytesKind?
    case Int(_) => k.IntKind?
    case Uint(_) => k.UintKind?
    case Bool(_) => k.BoolKind?
    case String(_) => k.StringKind?
    case FixedBytes(b) => k.FixedBytesKind? && k.len == |b|
    case Array(ts) => k.ArrayKind? && ExactAll(ts, Repeat(k.elem, |ts|))
    case FixedArray(ts) => k.FixedArrayKind? && k.len == |ts| && ExactAll(ts, Repeat(k.elem, |ts|))
    case Tuple(ts) => k.TupleKind? && ExactAll(ts, k.kinds)
  }

  predicate ExactAll(ts: seq<Token>, ks: seq<ParamKind>) {
    |ts| == |ks| && (ts == [] || (Exact(ts[0], ks[0]) && ExactAll(ts[1..], ks[1..])))
  }

  lemma {:induction false} ExactAllPointwise(ts: seq<Token>, ks: seq<ParamKind>)
    requires |ts| == |ks| && forall i :: 0 <= i < |ts| ==> Exact(ts[i], ks[i])
    ensures ExactAll(ts, ks)
  {
    if ts == [] {
    } else {
      ExactAllPointwise(ts[1..], ks[1..]);
    }
  }

  /** What `type_check` leaves open: byte strings fill their kind and tuples have as many
      components as theirs, at every depth. */
  predicate FullSize(t: Token, k: ParamKind) {
    match t
    case FixedBytes(b) => k.FixedBytesKind? ==> k.len == |b|
    case Array(ts) => k.ArrayKind? ==> FullSizeAll(ts, Repeat(k.elem, |ts|))
    case FixedArray(ts) => k.FixedArrayKind? ==> FullSizeAll(ts, Repeat(k.elem, |ts|))
    case Tuple(ts) => k.TupleKind? ==> |ts| == |k.kinds| && FullSizeAll(ts, k.kinds)
    case _ => true
  }

  predicate FullSizeAll(ts: seq<Token>, ks: seq<ParamKind>)
    requires |ts| == |ks|
  {
    ts == [] || (FullSize(ts[0], ks[0]) && FullSizeAll(ts[1..], ks[1..]))
  }

  /** A token is exactly of a kind if and only if it passes `type_check` and has full size. */
  lemma {:induction false} ExactIffPassAndFull(t: Token, k: ParamKind)
    ensures Exact(t, k) <==> TypeCheck(t, k) == Pass && FullSize(t, k)
    decreases t, 1
  {
    match t
    case Array(ts) =>
      if k.ArrayKind? {
        ExactAllIffPassAndFull(ts, Repeat(k.elem, |ts|));
      }
    case FixedArray(ts) =>
      if k.FixedArrayKind? {
        ExactAllIffPassAndFull(ts, Repeat(k.elem, |ts|));
      }
    case Tuple(ts) =>
      if k.TupleKind? && |ts| == |k.kinds| {
        ExactAllIffPassAndFull(ts, k.kinds);
      }
    case _ =>
  }

  lemma {:induction false} ExactAllIffPassAndFull(ts: seq<Token>, ks: seq<ParamKind>)
    requires |ts| == |ks|
    ensures ExactAll(ts, ks) <==> TypeCheckItems(ts, ks) == Pass && FullSizeAll(ts, ks)
    decreases ts, 0
  {
    if ts == [] {
    } else {
      ExactIffPassAndFull(ts[0], ks[0]);
      ExactAllIffPassAndFull(ts[1..], ks[1..]);
    }
  }

  /** The token and the kind agree on being dynamic, at every depth. The code decides the
      layout from the token when it encodes and from the kind when it decodes. */
  predicate SameDynamics(t: Token, k: ParamKind)
    requires Exact(t, k)
  {
    t.IsDynamic() == k.IsDynamic() &&
    match t
    case Array(ts) => SameDynamicsAll(ts, Repeat(k.elem, |ts|))
    case FixedArray(ts) => SameDynamicsAll(ts, Repeat(k.elem, |ts|))
    case Tuple(ts) => SameDynamicsAll(ts, k.kinds)
    case _ => true
  }

  predicate SameDynamicsAll(ts: seq<Token>, ks: seq<ParamKind>)
    requires ExactAll(ts, ks)
  {
    ts == [] || (SameDynamics(ts[0], ks[0]) && SameDynamicsAll(ts[1..], ks[1..]))
  }

  /** No kind is a zero-length fixed array of a dynamic kind. */
  predicate NoEmptyDynamicArray(k: ParamKind) {
    match k
    case ArrayKind(e) => NoEmptyDynamicArray(e)
    case FixedArrayKind(e, len) => (len == 0 ==> !e.IsDynamic()) && NoEmptyDynamicArray(e)
    case TupleKind(ks) => forall c :: c in ks ==> NoEmptyDynamicArray(c)
    case _ => true
  }

  /** Without zero-length fixed arrays of dynamic kinds, every exactly typed token agrees
      with its kind on being dynamic. */
  lemma {:induction false} DynamicsAgree(t: Token, k: ParamKind)
    requires Exact(t, k) && NoEmptyDynamicArray(k)
    ensures SameDynamics(t, k)
    decreases t, 1
  {
    match t
    case Array(ts) => DynamicsAgreeAll(ts, Repeat(k.elem, |ts|));
    case FixedArray(ts) =>
      var ks := Repeat(k.elem, |ts|);
      DynamicsAgreeAll(ts, ks);
      AnyDynamicAgrees(ts, ks);
      AnyDynamicRepeat(k.elem, |ts|);
    case Tuple(ts) =>
      DynamicsAgreeAll(ts, k.kinds);
      AnyDynamicAgrees(ts, k.kinds);
    case _ =>
  }

  lemma {:induction false} DynamicsAgreeAll(ts: seq<Token>, ks: seq<ParamKind>)
    requires ExactAll(ts, ks) && forall k :: k in ks ==> NoEmptyDynamicArray(k)
    ensures SameDynamicsAll(ts, ks)
    decreases ts, 0
  {
    if ts == [] {
    } else {
      DynamicsAgree(ts[0], ks[0]);
      DynamicsAgreeAll(ts[1..], ks[1..]);
    }
  }

  lemma {:induction false} AnyDynamicAgrees(ts: seq<Token>, ks: seq<ParamKind>)
    requires ExactAll(ts, ks) && SameDynamicsAll(ts, ks)
    ensures AnyDynamic(ts) == AnyDynamicKind(ks)
  {
    if ts == [] {
    } else {
      AnyDynamicAgrees(ts[1..], ks[1..]);
    }
  }

  lemma {:induction false} AnyDynamicRepeat(k: ParamKind, n: nat)
    ensures AnyDynamicKind(Repeat(k, n)) == (n > 0 && k.IsDynamic())
  {
    if n == 0 {
    } else {
      AnyDynamicRepeat(k, n - 1);
      assert Repeat(k, n)[1..] == Repeat(k, n - 1);
    }
  }
}
