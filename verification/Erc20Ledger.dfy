/** Which calls are accepted, and what they do to balances: the ledger is what the accepted
    movements make of it, in order, and over a ledger that keeps balances the payer loses what
    the payee gains. */
module Erc20Ledger {
  import opened Words
  import opened Wrappers
  import opened Erc20
  import opened Erc20History

  // ---------- acceptance ----------

  const TWO_128: nat := 0x1_0000_0000_0000_0000 * 0x1_0000_0000_0000_0000

  /** Whether a transfer between two accounts goes through on a ledger. */
  predicate Allows<L, S, D>(r: Rules<L, S, D>, l: L, payer: Address, payee: Address, value: U256) {
    value < TWO_128 && r.transfer(l, payer, payee, value).Some?
  }

  lemma ApproveAccepted<L, S, D>(r: Rules<L, S, D>, s: State<L>, c: Call<S>)
    requires c.Approve?
    ensures Execute(r, s, c).0.Accepted?
    ensures Execute(r, s, c).1.Allowance(c.caller, c.spender) == if c.value < TWO_128 then c.value else TWO_128 - 1
  {
  }

  lemma TransferAccepted<L, S, D>(r: Rules<L, S, D>, s: State<L>, c: Call<S>)
    requires c.Transfer?
    ensures Execute(r, s, c).0.Accepted? <==> Allows(r, s.ledger, c.caller, c.to, c.value)
  {
  }

  lemma TransferFromAccepted<L, S, D>(r: Rules<L, S, D>, s: State<L>, c: Call<S>)
    requires c.TransferFrom?
    ensures Execute(r, s, c).0.Accepted? <==>
            && Allows(r, s.ledger, c.from, c.to, c.value)
            && (c.caller == c.from ||
                ((c.from, c.caller) in s.approvals && c.value <= s.Allowance(c.from, c.caller)))
  {
  }

  /** A spender's transfer at the end of a run is accepted exactly when the ledger allows it and
      what was last granted, less what was spent since, covers it. */
  lemma SpenderAccepted<L, S, D>(r: Rules<L, S, D>, l: L, calls: seq<Call<S>>, c: Call<S>)
    requires c.TransferFrom? && c.caller != c.from
    ensures var s, k := Run(r, l, calls), LastGrant(r, l, calls, c.from, c.caller);
            Execute(r, s, c).0.Accepted? <==>
            && Allows(r, s.ledger, c.from, c.to, c.value) && k >= 0
            && SpentSince(r, l, calls, k + 1, c.from, c.caller) + c.value <= Saturated(calls[k].value)
  {
    hide Execute, Run, Allows, LastGrant, SpentSince;
    TransferFromAccepted(r, Run(r, l, calls), c);
    AllowanceHistory(r, l, calls, c.from, c.caller);
  }

  // ---------- the ledger ----------

  datatype Movement = Movement(payer: Address, payee: Address, amount: nat)

  /** What a call moves when it is accepted. */
  function Moved<S>(c: Call<S>): seq<Movement> {
    match c
    case Transfer(caller, to, value) => [Movement(caller, to, value)]
    case TransferFrom(_, from, to, value) => [Movement(from, to, value)]
    case _ => []
  }

  /** The accepted movements of a run, in order. */
  function Movements<L, S, D>(r: Rules<L, S, D>, l: L, calls: seq<Call<S>>): seq<Movement> {
    if calls == [] then []
    else
      var n := |calls| - 1;
      Movements(r, l, calls[..n]) + if EndingAt(r, l, calls, n).Accepted? then Moved(calls[n]) else []
  }

  /** One movement after the other, as far as the ledger allows them. */
  function Settle<L, S, D>(r: Rules<L, S, D>, l: L, ms: seq<Movement>): Option<L> {
    if ms == [] then Some(l)
    else
      var n := |ms| - 1;
      var before := Settle(r, l, ms[..n]);
      if before.None? || ms[n].amount > U128_MAX then None
      else r.transfer(before.value, ms[n].payer, ms[n].payee, ms[n].amount)
  }

  lemma LedgerStep<L, S, D>(r: Rules<L, S, D>, s: State<L>, c: Call<S>)
    ensures var e := Execute(r, s, c);
            if e.0.Accepted? && Moved(c) != [] then
              var m := Moved(c)[0];
              m.amount <= U128_MAX && r.transfer(s.ledger, m.payer, m.payee, m.amount) == Some(e.1.ledger)
            else e.1.ledger == s.ledger
  {
  }

  /** After any run the ledger is the initial one after all accepted movements. */
  lemma {:induction false} LedgerHistory<L, S, D>(r: Rules<L, S, D>, l: L, calls: seq<Call<S>>)
    ensures Settle(r, l, Movements(r, l, calls)) == Some(Run(r, l, calls).ledger)
  {
    hide Execute;
    if calls == [] {
    } else {
      var n := |calls| - 1;
      var ms := Movements(r, l, calls[..n]);
      LedgerHistory(r, l, calls[..n]);
      LedgerStep(r, Run(r, l, calls[..n]), calls[n]);
      assert ms + [] == ms;
      if Moved(calls[n]) != [] {
        assert (ms + Moved(calls[n]))[..|ms|] == ms;
      }
    }
  }

  // ---------- balances ----------

  /** What a movement adds to the balance of `a`. */
  function Effect(m: Movement, a: Address): int {
    (if m.payee == a then m.amount else 0) - (if m.payer == a then m.amount else 0)
  }

  function Effects(ms: seq<Movement>, a: Address): int {
    if ms == [] then 0 else Effects(ms[..|ms| - 1], a) + Effect(ms[|ms| - 1], a)
  }

  /** A ledger of balances: a transfer takes the amount from the payer, who has it, and gives it
      to the payee. */
  ghost predicate KeepsBalances<L(!new), S, D>(r: Rules<L, S, D>, balance: (L, Address) -> nat) {
    forall l, x: Address, y: Address, v: Amount, a: Address :: r.transfer(l, x, y, v).Some? ==>
      balance(r.transfer(l, x, y, v).value, a) == balance(l, a) + Effect(Movement(x, y, v), a)
  }

  lemma {:induction false} SettledBalances<L(!new), S, D>(r: Rules<L, S, D>, balance: (L, Address) -> nat, l: L,
                                                          ms: seq<Movement>, a: Address)
    requires KeepsBalances(r, balance) && Settle(r, l, ms).Some?
    ensures balance(Settle(r, l, ms).value, a) == balance(l, a) + Effects(ms, a)
  {
    hide Effect;
    if ms == [] {
    } else {
      var n := |ms| - 1;
      SettledBalances(r, balance, l, ms[..n], a);
      var before := Settle(r, l, ms[..n]).value;
      assert Movement(ms[n].payer, ms[n].payee, ms[n].amount) == ms[n];
      assert r.transfer(before, ms[n].payer, ms[n].payee, ms[n].amount).Some?;
    }
  }

  /** After any run an account has what it had, plus what it received, minus what it paid. */
  lemma BalanceHistory<L(!new), S, D>(r: Rules<L, S, D>, balance: (L, Address) -> nat, l: L, calls: seq<Call<S>>, a: Address)
    requires KeepsBalances(r, balance)
    ensures balance(Run(r, l, calls).ledger, a) == balance(l, a) + Effects(Movements(r, l, calls), a)
  {
    hide KeepsBalances, Run, Movements, Settle;
    LedgerHistory(r, l, calls);
    SettledBalances(r, balance, l, Movements(r, l, calls), a);
  }

  /** The balances of some accounts together. */
  function Total<L>(balance: (L, Address) -> nat, l: L, accounts: seq<Address>): nat {
    if accounts == [] then 0 else balance(l, accounts[0]) + Total(balance, l, accounts[1..])
  }

  predicate NoRepeat(accounts: seq<Address>) {
    forall i, j :: 0 <= i < j < |accounts| ==> accounts[i] != accounts[j]
  }

  predicate Among(ms: seq<Movement>, accounts: seq<Address>) {
    forall m :: m in ms ==> m.payer in accounts && m.payee in accounts
  }

  function TotalEffects(ms: seq<Movement>, accounts: seq<Address>): int {
    if accounts == [] then 0 else Effects(ms, accounts[0]) + TotalEffects(ms, accounts[1..])
  }

  function TotalEffect(m: Movement, accounts: seq<Address>): int {
    if accounts == [] then 0 else Effect(m, accounts[0]) + TotalEffect(m, accounts[1..])
  }

  lemma {:induction false} OneEffect(m: Movement, accounts: seq<Address>)
    requires NoRepeat(accounts)
    ensures TotalEffect(m, accounts) ==
            (if m.payee in accounts then m.amount else 0) - (if m.payer in accounts then m.amount else 0)
  {
    if accounts == [] {
    } else {
      OneEffect(m, accounts[1..]);
      assert accounts[0] !in accounts[1..];
      assert accounts == [accounts[0]] + accounts[1..];
    }
  }

  lemma {:induction false} EffectsSplit(ms: seq<Movement>, accounts: seq<Address>)
    requires ms != []
    ensures TotalEffects(ms, accounts) == TotalEffects(ms[..|ms| - 1], accounts) + TotalEffect(ms[|ms| - 1], accounts)
  {
    hide Effect;
    if accounts == [] {
    } else {
      EffectsSplit(ms, accounts[1..]);
    }
  }

  lemma {:induction false} NoEffects(accounts: seq<Address>)
    ensures TotalEffects([], accounts) == 0
  {
    if accounts == [] {
    } else {
      NoEffects(accounts[1..]);
    }
  }

  lemma {:induction false} EffectsCancel(ms: seq<Movement>, accounts: seq<Address>)
    requires NoRepeat(accounts) && Among(ms, accounts)
    ensures TotalEffects(ms, accounts) == 0
  {
    if ms == [] {
      NoEffects(accounts);
    } else {
      EffectsCancel(ms[..|ms| - 1], accounts);
      EffectsSplit(ms, accounts);
      OneEffect(ms[|ms| - 1], accounts);
    }
  }

  lemma {:induction false} TotalHistory<L(!new), S, D>(r: Rules<L, S, D>, balance: (L, Address) -> nat, l: L,
                                                       calls: seq<Call<S>>, accounts: seq<Address>)
    requires KeepsBalances(r, balance)
    ensures Total(balance, Run(r, l, calls).ledger, accounts) ==
            Total(balance, l, accounts) + TotalEffects(Movements(r, l, calls), accounts)
  {
    hide KeepsBalances, Run, Movements;
    if accounts == [] {
    } else {
      BalanceHistory(r, balance, l, calls, accounts[0]);
      TotalHistory(r, balance, l, calls, accounts[1..]);
    }
  }

  /** No run makes or destroys funds: over accounts among which all movements were, the total
      stays. */
  lemma FundsConserved<L(!new), S, D>(r: Rules<L, S, D>, balance: (L, Address) -> nat, l: L, calls: seq<Call<S>>,
                                      accounts: seq<Address>)
    requires KeepsBalances(r, balance) && NoRepeat(accounts) && Among(Movements(r, l, calls), accounts)
    ensures Total(balance, Run(r, l, calls).ledger, accounts) == Total(balance, l, accounts)
  {
    hide KeepsBalances, Run, Movements, Among;
    TotalHistory(r, balance, l, calls, accounts);
    EffectsCancel(Movements(r, l, calls), accounts);
  }

  // ---------- an instance ----------

  type Book = map<Address, nat>

  function BalanceIn(book: Book, a: Address): nat {
    if a in book then book[a] else 0
  }

  function Pay(book: Book, payer: Address, payee: Address, value: Amount): Option<Book> {
    if BalanceIn(book, payer) < value then None
    else
      var taken := book[payer := BalanceIn(book, payer) - value];
      Some(taken[payee := BalanceIn(taken, payee) + value])
  }

  /** Plain balances that transfers may not overdraw are such a ledger. */
  lemma BookKeepsBalances<S, D>(r: Rules<Book, S, D>)
    requires forall l, x: Address, y: Address, v: Amount :: r.transfer(l, x, y, v) == Pay(l, x, y, v)
    ensures KeepsBalances(r, BalanceIn)
  {
    forall l, x: Address, y: Address, v: Amount, a: Address | r.transfer(l, x, y, v).Some?
      ensures BalanceIn(r.transfer(l, x, y, v).value, a) == BalanceIn(l, a) + Effect(Movement(x, y, v), a)
    {
      assert r.transfer(l, x, y, v) == Pay(l, x, y, v);
    }
  }
}
