/** Allowances and permits of the balances precompile (`precompiles/balances-erc20`). Balances
    are kept by another pallet and are a parameter here, as are hashing and signature recovery.
    A call that reverts leaves no trace, because its EVM frame is undone. */
module Erc20 {
  import opened Words
  import opened Wrappers

  const U128_MAX: nat := 0xffff_ffff_ffff_ffff_ffff_ffff_ffff_ffff

  /** The balance type of the runtime. */
  type Amount = x: nat | x <= U128_MAX

  /** `u256_to_amount`. */
  function ToAmount(value: U256): Option<Amount> {
    if value <= U128_MAX then Some(value) else None
  }

  function Saturated(value: U256): (a: Amount)
    ensures a <= value && (a < value ==> a == U128_MAX)
  {
    if ToAmount(value).Some? then ToAmount(value).value else U128_MAX
  }

  const ZERO_ADDRESS: Address := Zeros(20)

  /** The code around the precompile: a balance transfer, which may fail; the permit digest of
      owner, spender, value, nonce and deadline; and the address recovered from a signature. */
  datatype Rules<!Ledger, !Sig, !Digest> = Rules(
    transfer: (Ledger, Address, Address, Amount) -> Option<Ledger>,
    digest: (Address, Address, U256, U256, U256) -> Digest,
    recover: (Sig, Digest) -> Option<Address>)

  datatype State<Ledger> = State(
    approvals: map<(Address, Address), Amount>,
    nonces: map<Address, U256>,
    ledger: Ledger)
  {
    /** `NoncesStorage::get`, zero by default. */
    function Nonce(owner: Address): U256 {
      if owner in nonces then nonces[owner] else 0
    }

    /** `allowance`. */
    function Allowance(owner: Address, spender: Address): Amount {
      if (owner, spender) in approvals then approvals[(owner, spender)] else 0
    }
  }

  datatype Call<Sig> =
    | Approve(caller: Address, spender: Address, value: U256)
    | Transfer(caller: Address, to: Address, value: U256)
    | TransferFrom(caller: Address, from: Address, to: Address, value: U256)
    | Permit(owner: Address, spender: Address, value: U256, deadline: U256, sig: Sig, millis: nat)

  /** How a call ends. The nonce is a `U256`, whose addition panics on overflow. */
  datatype Ending = Accepted | Reverted | Panicked

  function Grant<L>(s: State<L>, owner: Address, spender: Address, value: U256): State<L> {
    s.(approvals := s.approvals[(owner, spender) := Saturated(value)])
  }

  /** `transfer` and the end of `transfer_from`. */
  function Move<L, S, D>(r: Rules<L, S, D>, s: State<L>, from: Address, to: Address, value: Amount): Option<State<L>> {
    match r.transfer(s.ledger, from, to, value)
    case None => None
    case Some(l) => Some(s.(ledger := l))
  }

  /** `transfer_from`: a caller other than the owner spends its allowance, which must exist. */
  function Spend<L, S, D>(r: Rules<L, S, D>, s: State<L>, caller: Address, from: Address, to: Address, value: U256): Option<State<L>> {
    match ToAmount(value)
    case None => None
    case Some(amount) =>
      if caller == from then Move(r, s, from, to, amount)
      else if (from, caller) !in s.approvals || s.approvals[(from, caller)] < amount then None
      else Move(r, s.(approvals := s.approvals[(from, caller) := s.approvals[(from, caller)] - amount]), from, to, amount)
  }

  /** The checks of `permit`: not expired, and signed by the owner over the current nonce. */
  predicate PermitSigned<L, S, D>(r: Rules<L, S, D>, s: State<L>, c: Call<S>)
    requires c.Permit?
  {
    && c.deadline >= c.millis / 1000
    && c.owner != ZERO_ADDRESS
    && r.recover(c.sig, r.digest(c.owner, c.spender, c.value, s.Nonce(c.owner), c.deadline)) == Some(c.owner)
  }

  function Execute<L, S, D>(r: Rules<L, S, D>, s: State<L>, c: Call<S>): (Ending, State<L>) {
    match c
    case Approve(caller, spender, value) => (Accepted, Grant(s, caller, spender, value))
    case Transfer(caller, to, value) =>
      (match ToAmount(value)
       case None => (Reverted, s)
       case Some(amount) =>
         match Move(r, s, caller, to, amount)
         case None => (Reverted, s)
         case Some(s') => (Accepted, s'))
    case TransferFrom(caller, from, to, value) =>
      (match Spend(r, s, caller, from, to, value)
       case None => (Reverted, s)
       case Some(s') => (Accepted, s'))
    case Permit(owner, spender, value, _, _, _) =>
      if !PermitSigned(r, s, c) then (Reverted, s)
      else if s.Nonce(owner) + 1 >= Pow256(32) then (Panicked, s)
      else (Accepted, Grant(s.(nonces := s.nonces[owner := s.Nonce(owner) + 1]), owner, spender, value))
  }

  // ---------- the precompile as it mutates storage ----------

  class Precompile<L, S, D> {
    const rules: Rules<L, S, D>
    var approvals: map<(Address, Address), Amount>
    var nonces: map<Address, U256>
    var ledger: L

    ghost function Now(): State<L>
      reads this
    {
      State(approvals, nonces, ledger)
    }

    constructor (rules: Rules<L, S, D>, ledger: L)
      ensures this.rules == rules && Now() == State(map[], map[], ledger)
    {
      this.rules := rules;
      this.approvals, this.nonces, this.ledger := map[], map[], ledger;
    }

    method DoApprove(caller: Address, spender: Address, value: U256)
      modifies this
      ensures Now() == Execute(rules, old(Now()), Call<S>.Approve(caller, spender, value)).1
    {
      var amount := ToAmount(value);
      approvals := approvals[(caller, spender) := if amount.Some? then amount.value else U128_MAX];
    }

    method Dispatch(from: Address, to: Address, value: Amount) returns (ok: bool)
      modifies this
      ensures ok == Move(rules, old(Now()), from, to, value).Some?
      ensures Now() == if ok then Move(rules, old(Now()), from, to, value).value else old(Now())
    {
      var moved := rules.transfer(ledger, from, to, value);
      if moved.Some? {
        ledger := moved.value;
      }
      return moved.Some?;
    }

    method DoTransfer(caller: Address, to: Address, value: U256) returns (ending: Ending)
      modifies this
      ensures (ending, Now()) == Execute(rules, old(Now()), Call<S>.Transfer(caller, to, value))
    {
      var amount := ToAmount(value);
      if amount.None? {
        return Reverted;
      }
      var ok := Dispatch(caller, to, amount.value);
      return if ok then Accepted else Reverted;
    }

    method DoTransferFrom(caller: Address, from: Address, to: Address, value: U256) returns (ending: Ending)
      modifies this
      ensures (ending, Now()) == Execute(rules, old(Now()), Call<S>.TransferFrom(caller, from, to, value))
    {
      var frame := approvals;
      var amount := ToAmount(value);
      if amount.None? {
        return Reverted;
      }
      if caller != from {
        if (from, caller) !in approvals {
          return Reverted;
        }
        var allowed := approvals[(from, caller)];
        if allowed < amount.value {
          return Reverted;
        }
        approvals := approvals[(from, caller) := allowed - amount.value];
      }
      var ok := Dispatch(from, to, amount.value);
      if !ok {
        approvals := frame;
        return Reverted;
      }
      return Accepted;
    }

    method DoPermit(c: Call<S>) returns (ending: Ending)
      requires c.Permit?
      modifies this
      ensures (ending, Now()) == Execute(rules, old(Now()), c)
    {
      if c.deadline < c.millis / 1000 {
        return Reverted;
      }
      var nonce: U256 := if c.owner in nonces then nonces[c.owner] else 0;
      var signer := rules.recover(c.sig, rules.digest(c.owner, c.spender, c.value, nonce, c.deadline));
      if signer.None? || signer.value == ZERO_ADDRESS || signer.value != c.owner {
        return Reverted;
      }
      if nonce + 1 >= Pow256(32) {
        return Panicked;
      }
      nonces := nonces[c.owner := nonce + 1];
      var amount := ToAmount(c.value);
      approvals := approvals[(c.owner, c.spender) := if amount.Some? then amount.value else U128_MAX];
      return Accepted;
    }
  }
}
