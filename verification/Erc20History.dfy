/** What the history of calls says about nonces and allowances, over every run from the empty
    storage. */
module Erc20History {
  import opened Words
  import opened Wrappers
  import opened Erc20

  function Genesis<L>(ledger: L): State<L> {
    State(map[], map[], ledger)
  }

  function Run<L, S, D>(r: Rules<L, S, D>, l: L, calls: seq<Call<S>>): State<L> {
    if calls == [] then Genesis(l)
    else Execute(r, Run(r, l, calls[..|calls| - 1]), calls[|calls| - 1]).1
  }

  /** How the `i`-th call of a run ended. */
  function EndingAt<L, S, D>(r: Rules<L, S, D>, l: L, calls: seq<Call<S>>, i: nat): Ending
    requires i < |calls|
  {
    Execute(r, Run(r, l, calls[..i]), calls[i]).0
  }

  /** Whatever is not accepted changes nothing. */
  lemma RejectedChangesNothing<L, S, D>(r: Rules<L, S, D>, s: State<L>, c: Call<S>)
    ensures Execute(r, s, c).0 != Accepted ==> Execute(r, s, c).1 == s
  {
  }

  // ---------- permits ----------

  /** A permit is good through the whole second of its deadline, and no longer. */
  lemma PermitDeadline<L, S, D>(r: Rules<L, S, D>, s: State<L>, c: Call<S>)
    requires c.Permit?
    ensures Execute(r, s, c).0.Accepted? ==> c.millis < 1000 * (c.deadline + 1)
    ensures c.millis >= 1000 * (c.deadline + 1) ==> Execute(r, s, c) == (Reverted, s)
  {
    assert c.deadline >= c.millis / 1000 <==> c.millis < 1000 * (c.deadline + 1);
  }

  predicate PermitOf<S>(c: Call<S>, owner: Address) {
    c.Permit? && c.owner == owner
  }

  /** Permits accepted for an owner. */
  function PermitsAccepted<L, S, D>(r: Rules<L, S, D>, l: L, calls: seq<Call<S>>, owner: Address): nat {
    if calls == [] then 0
    else
      var n := |calls| - 1;
      PermitsAccepted(r, l, calls[..n], owner) +
      if PermitOf(calls[n], owner) && EndingAt(r, l, calls, n).Accepted? then 1 else 0
  }

  lemma NonceStep<L, S, D>(r: Rules<L, S, D>, s: State<L>, c: Call<S>, owner: Address)
    ensures var e := Execute(r, s, c);
            e.1.Nonce(owner) == s.Nonce(owner) + if PermitOf(c, owner) && e.0.Accepted? then 1 else 0
  {
  }

  /** An owner's nonce is the number of permits accepted for it. */
  lemma {:induction false} NonceCounts<L, S, D>(r: Rules<L, S, D>, l: L, calls: seq<Call<S>>, owner: Address)
    ensures Run(r, l, calls).Nonce(owner) == PermitsAccepted(r, l, calls, owner)
  {
    hide Execute;
    if calls == [] {
    } else {
      var n := |calls| - 1;
      NonceCounts(r, l, calls[..n], owner);
      NonceStep(r, Run(r, l, calls[..n]), calls[n], owner);
    }
  }

  lemma {:induction false} PermitsBounded<L, S, D>(r: Rules<L, S, D>, l: L, calls: seq<Call<S>>, owner: Address)
    ensures PermitsAccepted(r, l, calls, owner) <= |calls|
  {
    hide Execute;
    if calls == [] {
    } else {
      PermitsBounded(r, l, calls[..|calls| - 1], owner);
    }
  }

  lemma PanicNeedsFullNonce<L, S, D>(r: Rules<L, S, D>, s: State<L>, c: Call<S>)
    ensures Execute(r, s, c).0.Panicked? ==> c.Permit? && s.Nonce(c.owner) + 1 >= Pow256(32)
  {
    hide Pow256;
  }

  /** The nonce never overflows in a run of fewer than 2^256 calls. */
  lemma NeverPanics<L, S, D>(r: Rules<L, S, D>, l: L, calls: seq<Call<S>>, i: nat)
    requires i < |calls| < Pow256(32)
    ensures !EndingAt(r, l, calls, i).Panicked?
  {
    hide Execute, Pow256, Run, PermitsAccepted;
    PanicNeedsFullNonce(r, Run(r, l, calls[..i]), calls[i]);
    if calls[i].Permit? {
      NonceCounts(r, l, calls[..i], calls[i].owner);
      PermitsBounded(r, l, calls[..i], calls[i].owner);
    }
  }

  lemma {:induction false} PermitsGrow<L, S, D>(r: Rules<L, S, D>, l: L, calls: seq<Call<S>>, i: nat, owner: Address)
    requires i <= |calls|
    ensures PermitsAccepted(r, l, calls[..i], owner) <= PermitsAccepted(r, l, calls, owner)
    decreases |calls|
  {
    hide Execute;
    var n := |calls| - 1;
    if i <= n {
      assert calls[..n][..i] == calls[..i];
      PermitsGrow(r, l, calls[..n], i, owner);
    } else {
      assert calls[..i] == calls;
    }
  }

  /** Each nonce is used by at most one accepted permit: later ones see a larger nonce. */
  lemma NonceUsedOnce<L, S, D>(r: Rules<L, S, D>, l: L, calls: seq<Call<S>>, i: nat, j: nat, owner: Address)
    requires i < j < |calls| && PermitOf(calls[i], owner) && EndingAt(r, l, calls, i).Accepted?
    ensures Run(r, l, calls[..i]).Nonce(owner) < Run(r, l, calls[..j]).Nonce(owner)
  {
    hide Execute;
    NonceCounts(r, l, calls[..i], owner);
    NonceCounts(r, l, calls[..j], owner);
    assert calls[..i + 1][..i] == calls[..i] && calls[..j][..i + 1] == calls[..i + 1];
    assert PermitsAccepted(r, l, calls[..i + 1], owner) == PermitsAccepted(r, l, calls[..i], owner) + 1;
    PermitsGrow(r, l, calls[..j], i + 1, owner);
  }

  /** An ideal signature scheme: a signature recovers to an address for one digest only, and
      digests of different permits differ. */
  ghost predicate Ideal<L(!new), S(!new), D(!new)>(r: Rules<L, S, D>) {
    && (forall s: S, d, d' :: r.recover(s, d).Some? && r.recover(s, d) == r.recover(s, d') ==> d == d')
    && (forall o: Address, p: Address, v: U256, n: U256, t: U256, o': Address, p': Address, v': U256, n': U256, t': U256 ::
          r.digest(o, p, v, n, t) == r.digest(o', p', v', n', t') ==> o == o' && p == p' && v == v' && n == n' && t == t')
  }

  /** Whether a permit's time and nonce allow it at all. */
  predicate PermitTimely<L, S>(s: State<L>, c: Call<S>)
    requires c.Permit?
  {
    c.millis < 1000 * (c.deadline + 1) && c.owner != ZERO_ADDRESS && s.Nonce(c.owner) + 1 < Pow256(32)
  }

  lemma PermitAccepted<L, S, D>(r: Rules<L, S, D>, s: State<L>, c: Call<S>)
    requires c.Permit?
    ensures Execute(r, s, c).0.Accepted? <==>
            && PermitTimely(s, c)
            && r.recover(c.sig, r.digest(c.owner, c.spender, c.value, s.Nonce(c.owner), c.deadline)) == Some(c.owner)
  {
    hide Pow256;
    assert c.deadline >= c.millis / 1000 <==> c.millis < 1000 * (c.deadline + 1);
  }

  /** What an owner signed is what is granted: a signature over a spender, a value, a nonce and
      a deadline makes the owner's permit acceptable for exactly these, and in every state with
      that nonce, until the deadline. */
  lemma PermitAsSigned<L(!new), S(!new), D(!new)>(r: Rules<L, S, D>, s: State<L>, c: Call<S>,
                                                  spender: Address, value: U256, nonce: U256, deadline: U256)
    requires Ideal(r) && c.Permit?
    requires r.recover(c.sig, r.digest(c.owner, spender, value, nonce, deadline)) == Some(c.owner)
    ensures Execute(r, s, c).0.Accepted? <==>
            && PermitTimely(s, c)
            && c.spender == spender && c.value == value && c.deadline == deadline && s.Nonce(c.owner) == nonce
    ensures Execute(r, s, c).0.Accepted? ==> Execute(r, s, c).1.Allowance(c.owner, spender) == Saturated(value)
  {
    hide Pow256, PermitTimely;
    PermitAccepted(r, s, c);
    AllowanceStep(r, s, c, c.owner, c.spender);
  }

  /** The same over runs: the permit signed for nonce `n` can only be the owner's `n`-th. */
  lemma SignedPermitInRun<L(!new), S(!new), D(!new)>(r: Rules<L, S, D>, l: L, calls: seq<Call<S>>, i: nat,
                                                     spender: Address, value: U256, nonce: U256, deadline: U256)
    requires Ideal(r) && i < |calls| && calls[i].Permit?
    requires r.recover(calls[i].sig, r.digest(calls[i].owner, spender, value, nonce, deadline)) == Some(calls[i].owner)
    ensures EndingAt(r, l, calls, i).Accepted? <==>
            && PermitTimely(Run(r, l, calls[..i]), calls[i])
            && calls[i].spender == spender && calls[i].value == value && calls[i].deadline == deadline
            && PermitsAccepted(r, l, calls[..i], calls[i].owner) == nonce
  {
    hide Execute, PermitTimely, Run;
    PermitAsSigned(r, Run(r, l, calls[..i]), calls[i], spender, value, nonce, deadline);
    NonceCounts(r, l, calls[..i], calls[i].owner);
  }

  /** A signed permit is accepted at most once in any run. */
  lemma PermitNotReplayed<L(!new), S(!new), D(!new)>(r: Rules<L, S, D>, l: L, calls: seq<Call<S>>, i: nat, j: nat)
    requires Ideal(r) && i < j < |calls| && calls[i].Permit? && calls[j].Permit?
    requires EndingAt(r, l, calls, i).Accepted? && EndingAt(r, l, calls, j).Accepted?
    ensures calls[i].owner != calls[j].owner || calls[i].sig != calls[j].sig
  {
    if calls[i].owner == calls[j].owner && calls[i].sig == calls[j].sig {
      NonceUsedOnce(r, l, calls, i, j, calls[i].owner);
      assert false;
    }
  }

  // ---------- allowances ----------

  /** A call that sets the allowance of `spender` over `owner`'s funds. */
  predicate Grants<S>(c: Call<S>, owner: Address, spender: Address) {
    (c.Approve? && c.caller == owner && c.spender == spender) || (c.Permit? && c.owner == owner && c.spender == spender)
  }

  /** A call by which `spender` moves `owner`'s funds. The owner itself needs no allowance. */
  predicate Spends<S>(c: Call<S>, owner: Address, spender: Address) {
    c.TransferFrom? && c.from == owner && c.caller == spender && spender != owner
  }

  /** The last accepted call that set the allowance, or -1. */
  function LastGrant<L, S, D>(r: Rules<L, S, D>, l: L, calls: seq<Call<S>>, owner: Address, spender: Address): (k: int)
    ensures -1 <= k < |calls|
    ensures k >= 0 ==> Grants(calls[k], owner, spender) && EndingAt(r, l, calls, k).Accepted?
  {
    if calls == [] then -1
    else
      var n := |calls| - 1;
      if Grants(calls[n], owner, spender) && EndingAt(r, l, calls, n).Accepted? then n
      else
        var k := LastGrant(r, l, calls[..n], owner, spender);
        assert k >= 0 ==> calls[..n][..k] == calls[..k];
        k
  }

  /** What `spender` moved in accepted calls from the `k`-th on. */
  function SpentSince<L, S, D>(r: Rules<L, S, D>, l: L, calls: seq<Call<S>>, k: nat, owner: Address, spender: Address): nat {
    if |calls| <= k then 0
    else
      var n := |calls| - 1;
      SpentSince(r, l, calls[..n], k, owner, spender) +
      if Spends(calls[n], owner, spender) && EndingAt(r, l, calls, n).Accepted? then calls[n].value else 0
  }

  /** What one call does to one allowance. */
  lemma AllowanceStep<L, S, D>(r: Rules<L, S, D>, s: State<L>, c: Call<S>, owner: Address, spender: Address)
    ensures var e := Execute(r, s, c);
            var key := (owner, spender);
            if e.0.Accepted? && Grants(c, owner, spender) then
              key in e.1.approvals && e.1.approvals[key] == Saturated(c.value)
            else if e.0.Accepted? && Spends(c, owner, spender) then
              key in s.approvals && c.value <= s.approvals[key] &&
              key in e.1.approvals && e.1.approvals[key] == s.approvals[key] - c.value
            else
              (key in e.1.approvals <==> key in s.approvals) && e.1.Allowance(owner, spender) == s.Allowance(owner, spender)
  {
  }

  /** Allowance history. After any run an allowance is set exactly when some accepted approval
      or permit set it, and then it is the last value set, saturated, minus what the spender
      has moved since; so the spender never moved more than that. */
  lemma {:induction false} AllowanceHistory<L, S, D>(r: Rules<L, S, D>, l: L, calls: seq<Call<S>>, owner: Address, spender: Address)
    ensures var s, k := Run(r, l, calls), LastGrant(r, l, calls, owner, spender);
            && ((owner, spender) in s.approvals <==> k >= 0)
            && (k < 0 ==> SpentSince(r, l, calls, 0, owner, spender) == 0)
            && (k >= 0 ==>
                  && SpentSince(r, l, calls, k + 1, owner, spender) <= Saturated(calls[k].value)
                  && s.Allowance(owner, spender)
                     == Saturated(calls[k].value) - SpentSince(r, l, calls, k + 1, owner, spender))
  {
    hide Execute;
    if calls == [] {
    } else {
      var n := |calls| - 1;
      AllowanceHistory(r, l, calls[..n], owner, spender);
      AllowanceStep(r, Run(r, l, calls[..n]), calls[n], owner, spender);
    }
  }

  /** All that was ever granted, saturated. */
  function Granted<L, S, D>(r: Rules<L, S, D>, l: L, calls: seq<Call<S>>, owner: Address, spender: Address): nat {
    if calls == [] then 0
    else
      var n := |calls| - 1;
      Granted(r, l, calls[..n], owner, spender) +
      if Grants(calls[n], owner, spender) && EndingAt(r, l, calls, n).Accepted? then Saturated(calls[n].value) else 0
  }

  /** Over a whole run a spender moves no more than was granted to it, and what it may still
      move is within the rest. */
  lemma {:induction false} SpendingBounded<L, S, D>(r: Rules<L, S, D>, l: L, calls: seq<Call<S>>, owner: Address, spender: Address)
    ensures SpentSince(r, l, calls, 0, owner, spender) + Run(r, l, calls).Allowance(owner, spender)
         <= Granted(r, l, calls, owner, spender)
  {
    hide Execute;
    if calls == [] {
    } else {
      var n := |calls| - 1;
      SpendingBounded(r, l, calls[..n], owner, spender);
      AllowanceStep(r, Run(r, l, calls[..n]), calls[n], owner, spender);
    }
  }
}
