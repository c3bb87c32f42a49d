/** MockERC20: the token every bridge testbed escrows, mints and pays out. */
module Erc20 {
  import opened MapSum
  import opened Wrappers

  const UINT256_MAX: nat := 0xFFFF_FFFF_FFFF_FFFF_FFFF_FFFF_FFFF_FFFF_FFFF_FFFF_FFFF_FFFF_FFFF_FFFF_FFFF_FFFF

  type Word = x: nat | x <= UINT256_MAX
  type Address = nat

  /** The token's storage. */
  datatype Ledger = Ledger(
    totalSupply: Word,
    balanceOf: map<Address, nat>,
    allowance: map<(Address, Address), nat>)
  {
    function Balance(a: Address): nat { Get(balanceOf, a) }

    function Allowance(owner: Address, spender: Address): nat { Get(allowance, (owner, spender)) }
  }

  const EMPTY := Ledger(0, map[], map[])

  // Each operation yields the ledger it commits, or None when the call reverts.

  function Debit(l: Ledger, from: Address, value: Word): Option<Ledger> {
    if l.Balance(from) < value then None
    else Some(l.(balanceOf := l.balanceOf[from := l.Balance(from) - value]))
  }

  function Credit(l: Ledger, to: Address, value: Word): Option<Ledger> {
    if l.Balance(to) + value > UINT256_MAX then None
    else Some(l.(balanceOf := l.balanceOf[to := l.Balance(to) + value]))
  }

  function Move(l: Ledger, from: Address, to: Address, value: Word): Option<Ledger> {
    match Debit(l, from, value)
    case None => None
    case Some(debited) => Credit(debited, to, value)
  }

  function Spend(l: Ledger, owner: Address, spender: Address, value: Word): Option<Ledger> {
    var granted := l.Allowance(owner, spender);
    if granted == UINT256_MAX then Some(l)
    else if granted < value then None
    else Some(l.(allowance := l.allowance[(owner, spender) := granted - value]))
  }

  function Approve(l: Ledger, owner: Address, spender: Address, value: Word): Ledger {
    l.(allowance := l.allowance[(owner, spender) := value])
  }

  function TransferFrom(l: Ledger, spender: Address, from: Address, to: Address, value: Word): Option<Ledger> {
    if l.Balance(from) < value then None
    else
      match Spend(l, from, spender, value)
      case None => None
      case Some(spent) => Move(spent, from, to, value)
  }

  function Mint(l: Ledger, to: Address, value: Word): Option<Ledger> {
    if l.totalSupply + value > UINT256_MAX then None
    else Credit(l.(totalSupply := l.totalSupply + value), to, value)
  }

  function Burn(l: Ledger, from: Address, value: Word): Option<Ledger> {
    match Debit(l, from, value)
    case None => None
    case Some(debited) =>
      if debited.totalSupply < value then None
      else Some(debited.(totalSupply := debited.totalSupply - value))
  }

  /** One external call to the token. The first argument is msg.sender where the code reads it. */
  datatype Call =
    | DoTransfer(sender: Address, to: Address, value: Word)
    | DoApprove(sender: Address, spender: Address, value: Word)
    | DoTransferFrom(sender: Address, from: Address, to: Address, value: Word)
    | DoMint(sender: Address, to: Address, value: Word)
    | DoBurn(sender: Address, from: Address, value: Word)

  function Try(l: Ledger, c: Call): Option<Ledger> {
    match c
    case DoTransfer(sender, to, value) => Move(l, sender, to, value)
    case DoApprove(sender, spender, value) => Some(Approve(l, sender, spender, value))
    case DoTransferFrom(sender, from, to, value) => TransferFrom(l, sender, from, to, value)
    case DoMint(_, to, value) => Mint(l, to, value)
    case DoBurn(_, from, value) => Burn(l, from, value)
  }

  /** A reverting call leaves the ledger as it was. */
  function Apply(l: Ledger, c: Call): Ledger {
    Try(l, c).GetOr(l)
  }

  function Run(calls: seq<Call>): Ledger {
    if calls == [] then EMPTY
    else Apply(Run(calls[..|calls| - 1]), calls[|calls| - 1])
  }

  // ---------------------------------------------------------------- conservation

  ghost predicate Backed(l: Ledger) {
    && Sum(l.balanceOf) == l.totalSupply
  }

  /** Every call keeps the balances summing to the supply. */
  lemma CallKeepsBacked(l: Ledger, c: Call)
    requires Backed(l)
    ensures Backed(Apply(l, c))
  {
    match c
    case DoTransfer(sender, to, value) =>
      MoveKeepsSum(l, sender, to, value);
    case DoApprove(sender, spender, value) =>
    case DoTransferFrom(sender, from, to, value) =>
      match Spend(l, from, sender, value) {
        case None =>
        case Some(spent) => MoveKeepsSum(spent, from, to, value);
      }
    case DoMint(_, to, value) =>
      SumUpdate(l.balanceOf, to, l.Balance(to) + value);
    case DoBurn(_, from, value) =>
      if value <= l.Balance(from) {
        SumUpdate(l.balanceOf, from, l.Balance(from) - value);
      }
  }

  lemma MoveKeepsSum(l: Ledger, from: Address, to: Address, value: Word)
    ensures Move(l, from, to, value).Some? ==>
              Sum(Move(l, from, to, value).value.balanceOf) == Sum(l.balanceOf)
  {
    if Move(l, from, to, value).Some? {
      var debited := Debit(l, from, value).value;
      SumUpdate(l.balanceOf, from, l.Balance(from) - value);
      SumUpdate(debited.balanceOf, to, debited.Balance(to) + value);
    }
  }

  /** In every reachable state the balances sum to totalSupply. */
  lemma {:induction false} RunIsBacked(calls: seq<Call>)
    ensures Backed(Run(calls))
    decreases |calls|
  {
    if calls != [] {
      RunIsBacked(calls[..|calls| - 1]);
      CallKeepsBacked(Run(calls[..|calls| - 1]), calls[|calls| - 1]);
    }
  }

  /** Exactly when a call commits in a reachable state: the checked credit and the checked
      supply decrement never revert, self-transfers included. */
  ghost predicate Allowed(l: Ledger, c: Call) {
    match c
    case DoTransfer(sender, to, value) => value <= l.Balance(sender)
    case DoApprove(sender, spender, value) => true
    case DoTransferFrom(sender, from, to, value) =>
      && value <= l.Balance(from)
      && (l.Allowance(from, sender) == UINT256_MAX || value <= l.Allowance(from, sender))
    case DoMint(_, to, value) => l.totalSupply + value <= UINT256_MAX
    case DoBurn(_, from, value) => value <= l.Balance(from)
  }

  lemma CommitsExactlyWhenAllowed(l: Ledger, c: Call)
    requires Backed(l)
    ensures Try(l, c).Some? <==> Allowed(l, c)
  {
    match c
    case DoTransfer(sender, to, value) => CreditFits(l, sender, to);
    case DoApprove(sender, spender, value) =>
    case DoTransferFrom(sender, from, to, value) => CreditFits(l, from, to);
    case DoMint(_, to, value) => SumBoundsOne(l.balanceOf, to);
    case DoBurn(_, from, value) => SumBoundsOne(l.balanceOf, from);
  }

  lemma CreditFits(l: Ledger, from: Address, to: Address)
    requires Backed(l)
    ensures l.Balance(from) <= l.totalSupply
    ensures from != to ==> l.Balance(from) + l.Balance(to) <= l.totalSupply
  {
    SumBoundsOne(l.balanceOf, from);
    if from != to {
      SumBoundsTwo(l.balanceOf, from, to);
    }
  }

  /** What a committed call takes out of account `a`, and what it puts in. */
  function Out(c: Call, a: Address): nat {
    match c
    case DoTransfer(sender, _, value) => if a == sender then value else 0
    case DoTransferFrom(_, from, _, value) => if a == from then value else 0
    case DoBurn(_, from, value) => if a == from then value else 0
    case _ => 0
  }

  function In(c: Call, a: Address): nat {
    match c
    case DoTransfer(_, to, value) => if a == to then value else 0
    case DoTransferFrom(_, _, to, value) => if a == to then value else 0
    case DoMint(_, to, value) => if a == to then value else 0
    case _ => 0
  }

  /** The whole new ledger after a committed call, account by account; the two ends may be one. */
  lemma CallEffect(l: Ledger, c: Call, a: Address, owner: Address, spender: Address)
    requires Try(l, c).Some?
    ensures var l' := Apply(l, c);
      && l'.Balance(a) == l.Balance(a) - Out(c, a) + In(c, a)
      && l'.totalSupply == l.totalSupply + (if c.DoMint? then c.value else 0) - (if c.DoBurn? then c.value else 0)
      && l'.Allowance(owner, spender) ==
         (if c.DoApprove? && c.sender == owner && c.spender == spender then c.value
          else if c.DoTransferFrom? && c.from == owner && c.sender == spender && l.Allowance(owner, spender) != UINT256_MAX
               then l.Allowance(owner, spender) - c.value
          else l.Allowance(owner, spender))
  {
  }

  // ---------------------------------------------------------------- allowances

  /** The value of the latest approval of `spender` by `owner` in the run, 0 before any. */
  function LastApproval(calls: seq<Call>, owner: Address, spender: Address): Word {
    if calls == [] then 0
    else
      var c := calls[|calls| - 1];
      if c.DoApprove? && c.sender == owner && c.spender == spender then c.value
      else LastApproval(calls[..|calls| - 1], owner, spender)
  }

  /** What `spender` has moved out of `owner` by committed transferFrom calls since that approval. */
  function SpentSince(calls: seq<Call>, owner: Address, spender: Address): nat {
    if calls == [] then 0
    else
      var before, c := calls[..|calls| - 1], calls[|calls| - 1];
      if c.DoApprove? && c.sender == owner && c.spender == spender then 0
      else if c.DoTransferFrom? && c.from == owner && c.sender == spender && Try(Run(before), c).Some? then
        SpentSince(before, owner, spender) + c.value
      else SpentSince(before, owner, spender)
  }

  /** A finite approval is an exact budget over the whole run; the maximal one is never drawn down. */
  lemma {:induction false} ApprovalIsABudget(calls: seq<Call>, owner: Address, spender: Address)
    ensures var approved, remaining := LastApproval(calls, owner, spender), Run(calls).Allowance(owner, spender);
            if approved == UINT256_MAX then remaining == UINT256_MAX
            else remaining + SpentSince(calls, owner, spender) == approved
    decreases |calls|
  {
    if calls != [] {
      var before := calls[..|calls| - 1];
      ApprovalIsABudget(before, owner, spender);
    }
  }

  // ---------------------------------------------------------------- the contract

  /** The contract object. A false result is a revert, and a revert undoes every write of the call. */
  class MockERC20 {
    var totalSupply: Word
    var balanceOf: map<Address, nat>
    var allowance: map<(Address, Address), nat>

    function State(): Ledger
      reads this
    {
      Ledger(totalSupply, balanceOf, allowance)
    }

    constructor ()
      ensures State() == EMPTY
    {
      totalSupply, balanceOf, allowance := 0, map[], map[];
    }

    /** Undo of every storage write made since `saved` was taken. */
    method RevertTo(saved: Ledger)
      modifies this
      ensures State() == saved
    {
      totalSupply, balanceOf, allowance := saved.totalSupply, saved.balanceOf, saved.allowance;
    }

    method Transfer(sender: Address, to: Address, value: Word) returns (ok: bool)
      modifies this
      ensures ok == Try(old(State()), DoTransfer(sender, to, value)).Some?
      ensures State() == Apply(old(State()), DoTransfer(sender, to, value))
    {
      var saved := State();
      if Get(balanceOf, sender) < value {
        return false;
      }
      balanceOf := balanceOf[sender := Get(balanceOf, sender) - value];
      if Get(balanceOf, to) + value > UINT256_MAX {
        RevertTo(saved);
        return false;
      }
      balanceOf := balanceOf[to := Get(balanceOf, to) + value];
      return true;
    }

    method Approve(sender: Address, spender: Address, value: Word) returns (ok: bool)
      modifies this`allowance
      ensures ok
      ensures State() == Apply(old(State()), DoApprove(sender, spender, value))
    {
      allowance := allowance[(sender, spender) := value];
      return true;
    }

    method TransferFrom(sender: Address, from: Address, to: Address, value: Word) returns (ok: bool)
      modifies this
      ensures ok == Try(old(State()), DoTransferFrom(sender, from, to, value)).Some?
      ensures State() == Apply(old(State()), DoTransferFrom(sender, from, to, value))
    {
      var saved := State();
      if Get(balanceOf, from) < value {
        return false;
      }
      if Get(allowance, (from, sender)) != UINT256_MAX {
        if Get(allowance, (from, sender)) < value {
          return false;
        }
        allowance := allowance[(from, sender) := Get(allowance, (from, sender)) - value];
      }
      balanceOf := balanceOf[from := Get(balanceOf, from) - value];
      if Get(balanceOf, to) + value > UINT256_MAX {
        RevertTo(saved);
        return false;
      }
      balanceOf := balanceOf[to := Get(balanceOf, to) + value];
      return true;
    }

    method Mint(sender: Address, to: Address, value: Word) returns (ok: bool)
      modifies this
      ensures ok == Try(old(State()), DoMint(sender, to, value)).Some?
      ensures State() == Apply(old(State()), DoMint(sender, to, value))
    {
      var saved := State();
      if totalSupply + value > UINT256_MAX {
        return false;
      }
      totalSupply := totalSupply + value;
      if Get(balanceOf, to) + value > UINT256_MAX {
        RevertTo(saved);
        return false;
      }
      balanceOf := balanceOf[to := Get(balanceOf, to) + value];
      return true;
    }

    method Burn(sender: Address, from: Address, value: Word) returns (ok: bool)
      modifies this
      ensures ok == Try(old(State()), DoBurn(sender, from, value)).Some?
      ensures State() == Apply(old(State()), DoBurn(sender, from, value))
    {
      var saved := State();
      if Get(balanceOf, from) < value {
        return false;
      }
      balanceOf := balanceOf[from := Get(balanceOf, from) - value];
      if totalSupply < value {
        RevertTo(saved);
        return false;
      }
      totalSupply := totalSupply - value;
      return true;
    }
  }
}
