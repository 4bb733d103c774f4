/** What `type_check` accepts: exactly the tokens that can be completed to a token of the kind by
    appending bytes to byte strings and components to tuples. */
module AbiTypeCheck {
  import opened Words
  import opened AbiTypes

  // ---------- completing a token ----------

  /** `t` is `u` with byte strings and tuples cut short, at any depth. */
  predicate Begins(t: Token, u: Token)
    decreases t, 1
  {
    match t
    case FixedBytes(b) => u.FixedBytes? && b <= u.bytes
    case Array(ts) => u.Array? && |ts| == |u.items| && BeginsAll(ts, u.items)
    case FixedArray(ts) => u.FixedArray? && |ts| == |u.items| && BeginsAll(ts, u.items)
    case Tuple(ts) => u.Tuple? && BeginsAll(ts, u.items)
    case _ => t == u
  }

  predicate BeginsAll(ts: seq<Token>, us: seq<Token>)
    decreases ts, 0
  {
    ts == [] || (us != [] && Begins(ts[0], us[0]) && BeginsAll(ts[1..], us[1..]))
  }

  /** Some token of a kind. */
  function Default(k: ParamKind): Token
    decreases Depth(k), 0, 0
  {
    match k
    case AddressKind => Address(Zeros(20))
    case BytesKind => Bytes([])
    case IntKind(_) => Int(0)
    case UintKind(_) => Uint(0)
    case BoolKind => Bool(false)
    case StringKind => String([])
    case ArrayKind(_) => Array([])
    case FixedBytesKind(len) => FixedBytes(Zeros(len))
    case FixedArrayKind(e, len) => FixedArray(Defaults(Repeat(e, len)))
    case TupleKind(ks) => Tuple(Defaults(ks))
  }

  function Defaults(ks: seq<ParamKind>): (ts: seq<Token>)
    ensures |ts| == |ks|
    decreases MaxDepth(ks), 1, |ks|
  {
    if ks == [] then [] else [Default(ks[0])] + Defaults(ks[1..])
  }

  lemma {:induction false} DefaultExact(k: ParamKind)
    ensures Exact(Default(k), k)
    decreases Depth(k), 0, 0
  {
    match k
    case FixedArrayKind(e, len) => DefaultsExact(Repeat(e, len));
    case TupleKind(ks) => DefaultsExact(ks);
    case _ =>
  }

  lemma {:induction false} DefaultsExact(ks: seq<ParamKind>)
    ensures ExactAll(Defaults(ks), ks)
    decreases MaxDepth(ks), 1, |ks|
  {
    if ks == [] {
    } else {
      DefaultExact(ks[0]);
      DefaultsExact(ks[1..]);
      assert Defaults(ks)[1..] == Defaults(ks[1..]);
    }
  }

  /** A token filled up to its kind. */
  function Fill(t: Token, k: ParamKind): Token
    decreases t, 1
  {
    match t
    case FixedBytes(b) => if k.FixedBytesKind? && |b| <= k.len then FixedBytes(b + Zeros(k.len - |b|)) else t
    case Array(ts) => if k.ArrayKind? then Array(FillAll(ts, Repeat(k.elem, |ts|))) else t
    case FixedArray(ts) => if k.FixedArrayKind? then FixedArray(FillAll(ts, Repeat(k.elem, k.len))) else t
    case Tuple(ts) => if k.TupleKind? then Tuple(FillAll(ts, k.kinds)) else t
    case _ => t
  }

  function FillAll(ts: seq<Token>, ks: seq<ParamKind>): (us: seq<Token>)
    ensures |us| == |ks|
    decreases ts, 0
  {
    if ts == [] || ks == [] then Defaults(ks) else [Fill(ts[0], ks[0])] + FillAll(ts[1..], ks[1..])
  }

  lemma {:induction false} FillCompletes(t: Token, k: ParamKind)
    requires TypeCheck(t, k) == Pass
    ensures Exact(Fill(t, k), k) && Begins(t, Fill(t, k))
    decreases t, 1
  {
    match t
    case Array(ts) => FillsComplete(ts, Repeat(k.elem, |ts|));
    case FixedArray(ts) => FillsComplete(ts, Repeat(k.elem, |ts|));
    case Tuple(ts) => FillsComplete(ts, k.kinds);
    case _ =>
  }

  lemma {:induction false} FillsComplete(ts: seq<Token>, ks: seq<ParamKind>)
    requires TypeCheckItems(ts, ks) == Pass
    ensures ExactAll(FillAll(ts, ks), ks) && BeginsAll(ts, FillAll(ts, ks))
    decreases ts, 0
  {
    if ts == [] {
      DefaultsExact(ks);
    } else {
      FillCompletes(ts[0], ks[0]);
      FillsComplete(ts[1..], ks[1..]);
      assert FillAll(ts, ks)[1..] == FillAll(ts[1..], ks[1..]);
    }
  }

  lemma {:induction false} BeginningPasses(t: Token, u: Token, k: ParamKind)
    requires Exact(u, k) && Begins(t, u)
    ensures TypeCheck(t, k) == Pass
    decreases t, 1
  {
    match t
    case Array(ts) => BeginningsPass(ts, u.items, Repeat(k.elem, |ts|));
    case FixedArray(ts) => BeginningsPass(ts, u.items, Repeat(k.elem, |ts|));
    case Tuple(ts) => BeginningsPass(ts, u.items, k.kinds);
    case _ =>
  }

  lemma {:induction false} BeginningsPass(ts: seq<Token>, us: seq<Token>, ks: seq<ParamKind>)
    requires ExactAll(us, ks) && BeginsAll(ts, us)
    ensures TypeCheckItems(ts, ks) == Pass
    decreases ts, 0
  {
    if ts == [] {
    } else {
      BeginningPasses(ts[0], us[0], ks[0]);
      BeginningsPass(ts[1..], us[1..], ks[1..]);
    }
  }

  predicate Completes(u: Token, t: Token, k: ParamKind) {
    Exact(u, k) && Begins(t, u)
  }

  /** A token passes `type_check` if and only if it can be completed to one of the kind. */
  lemma PassesIff(t: Token, k: ParamKind)
    ensures TypeCheck(t, k) == Pass <==> exists u :: Completes(u, t, k)
  {
    if TypeCheck(t, k) == Pass {
      FillCompletes(t, k);
      assert Completes(Fill(t, k), t, k);
    }
    forall u | Completes(u, t, k)
      ensures TypeCheck(t, k) == Pass
    {
      BeginningPasses(t, u, k);
    }
  }

  // ---------- panics ----------

  /** Every item before the `i`-th passes. */
  predicate PassBefore(ts: seq<Token>, ks: seq<ParamKind>, i: nat) {
    i <= |ts| && i <= |ks| && forall j :: 0 <= j < i ==> TypeCheck(ts[j], ks[j]) == Pass
  }

  /** Where a check panics: past the last kind, or inside an item. */
  predicate PanicsAt(ts: seq<Token>, ks: seq<ParamKind>, i: nat) {
    i < |ts| && PassBefore(ts, ks, i) && (i == |ks| || TypeCheck(ts[i], ks[i]) == IndexPanic)
  }

  /** Checking a tuple's components panics exactly when they pass up to one that has no kind, or
      that panics itself. */
  lemma {:induction false} PanicsIff(ts: seq<Token>, ks: seq<ParamKind>)
    ensures TypeCheckItems(ts, ks) == IndexPanic <==> exists i: nat :: PanicsAt(ts, ks, i)
  {
    hide TypeCheck;
    if ts == [] {
    } else if ks == [] || TypeCheck(ts[0], ks[0]) != Pass {
      if ks == [] || TypeCheck(ts[0], ks[0]) == IndexPanic {
        assert PanicsAt(ts, ks, 0);
      }
    } else {
      PanicsIff(ts[1..], ks[1..]);
      if i: nat :| PanicsAt(ts[1..], ks[1..], i) {
        assert PanicsAt(ts, ks, i + 1);
      }
      if i: nat :| PanicsAt(ts, ks, i) {
        assert PanicsAt(ts[1..], ks[1..], i - 1);
      }
    }
  }
}
