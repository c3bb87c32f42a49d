/** Two single-chain pools over MockERC20: Synapse's fee-splitting mint and the Across spoke pool. */
module Pools {
  import opened Erc20
  import opened MapSum
  import opened Wrappers

  // ---------------------------------------------------------------- Synapse

  type Kappa = nat

  /** SynapseBridge.mint; `executed` remembers, beside each used kappa, the amount it was used for. */
  function SynapseMint(l: Ledger, executed: map<Kappa, nat>, nodeGroup: Address,
                       caller: Address, to: Address, amount: Word, fee: Word, kappa: Kappa)
    : Option<(Ledger, map<Kappa, nat>)>
  {
    if caller != nodeGroup || kappa in executed || amount <= fee then None
    else
      match Mint(l, to, amount - fee)
      case None => None
      case Some(l1) =>
        match Mint(l1, nodeGroup, fee)
        case None => None
        case Some(l2) => Some((l2, executed[kappa := amount]))
  }

  class SynapseBridge {
    const token: MockERC20
    const self: Address
    const nodeGroup: Address
    var executedKappa: set<Kappa>
    ghost var executed: map<Kappa, nat>

    ghost predicate Valid()
      reads this
    {
      executedKappa == executed.Keys
    }

    constructor (token: MockERC20, address: Address, nodes: Address)
      ensures this.token == token && self == address && nodeGroup == nodes
      ensures Valid() && executed == map[]
    {
      this.token, self, nodeGroup, executedKappa, executed := token, address, nodes, {}, map[];
    }

    /** The kappa flag is set before the amount is compared with the fee and before both mints;
        whichever of the three fails, the flag and the first mint are undone. */
    method MintTo(caller: Address, to: Address, amount: Word, fee: Word, kappa: Kappa) returns (ok: bool)
      requires Valid()
      modifies this, token
      ensures Valid()
      ensures var r := SynapseMint(old(token.State()), old(executed), nodeGroup, caller, to, amount, fee, kappa);
              && ok == r.Some?
              && token.State() == (if ok then r.value.0 else old(token.State()))
              && executed == (if ok then r.value.1 else old(executed))
    {
      if caller != nodeGroup || kappa in executedKappa {
        return false;
      }
      var savedToken, savedKappa := token.State(), executedKappa;
      executedKappa := executedKappa + {kappa};
      if amount <= fee {
        executedKappa := savedKappa;
        return false;
      }
      ok := token.Mint(self, to, amount - fee);
      if ok {
        ok := token.Mint(self, nodeGroup, fee);
        if !ok {
          token.RevertTo(savedToken);
        }
      }
      if ok {
        executed := executed[kappa := amount];
      } else {
        executedKappa := savedKappa;
      }
    }
  }

  datatype SynapseAction =
    | SynapseToken(call: Call)
    | SynapseDoMint(caller: Address, to: Address, amount: Word, fee: Word, kappa: Kappa)

  datatype SynapseWorld = SynapseWorld(token: Ledger, executed: map<Kappa, nat>, strayMinted: nat, burned: nat)

  function SynapseStep(nodeGroup: Address, w: SynapseWorld, a: SynapseAction): SynapseWorld {
    match a
    case SynapseToken(call) =>
      var committed := Try(w.token, call).Some?;
      w.(token := Apply(w.token, call),
         strayMinted := w.strayMinted + (if committed && call.DoMint? then call.value else 0),
         burned := w.burned + (if committed && call.DoBurn? then call.value else 0))
    case SynapseDoMint(caller, to, amount, fee, kappa) =>
      match SynapseMint(w.token, w.executed, nodeGroup, caller, to, amount, fee, kappa)
      case None => w
      case Some((token, executed)) => w.(token := token, executed := executed)
  }

  function SynapseRun(nodeGroup: Address, actions: seq<SynapseAction>): SynapseWorld {
    if actions == [] then SynapseWorld(EMPTY, map[], 0, 0)
    else SynapseStep(nodeGroup, SynapseRun(nodeGroup, actions[..|actions| - 1]), actions[|actions| - 1])
  }

  /** Over every run, the destination supply is the sum of the full amounts of the executed kappas,
      fee included, up to what open mint and burn calls did beside the bridge. */
  lemma {:induction false} SynapseSupplyIsExecutedSum(nodeGroup: Address, actions: seq<SynapseAction>)
    ensures var w := SynapseRun(nodeGroup, actions);
            Backed(w.token) && w.token.totalSupply + w.burned == Sum(w.executed) + w.strayMinted
    decreases |actions|
  {
    if actions != [] {
      hide Backed, SynapseStep;
      var before, a := actions[..|actions| - 1], actions[|actions| - 1];
      SynapseSupplyIsExecutedSum(nodeGroup, before);
      SynapseStepAddsUp(nodeGroup, SynapseRun(nodeGroup, before), a);
    }
  }

  lemma SynapseStepAddsUp(nodeGroup: Address, w: SynapseWorld, a: SynapseAction)
    requires Backed(w.token) && w.token.totalSupply + w.burned == Sum(w.executed) + w.strayMinted
    ensures var w' := SynapseStep(nodeGroup, w, a);
            Backed(w'.token) && w'.token.totalSupply + w'.burned == Sum(w'.executed) + w'.strayMinted
  {
    hide Sum;
    match a
    case SynapseToken(call) =>
      CallKeepsBacked(w.token, call);
      if Try(w.token, call).Some? {
        CallEffect(w.token, call, 0, 0, 0);
      }
    case SynapseDoMint(caller, to, amount, fee, kappa) =>
      if SynapseMint(w.token, w.executed, nodeGroup, caller, to, amount, fee, kappa).Some? {
        var first, second := DoMint(0, to, amount - fee), DoMint(0, nodeGroup, fee);
        CallKeepsBacked(w.token, first);
        CallKeepsBacked(Apply(w.token, first), second);
        SumUpdate(w.executed, kappa, amount);
      }
  }

  /** When a Synapse mint commits in a backed state, and that every account ends up with exactly its share:
      the recipient the net amount, the node group the fee (both, when they are the same account). */
  lemma SynapseMintExactly(l: Ledger, executed: map<Kappa, nat>, nodeGroup: Address,
                           caller: Address, to: Address, amount: Word, fee: Word, kappa: Kappa, a: Address)
    requires Backed(l)
    ensures var r := SynapseMint(l, executed, nodeGroup, caller, to, amount, fee, kappa);
      && (r.Some? <==> caller == nodeGroup && kappa !in executed && fee < amount && l.totalSupply + amount <= UINT256_MAX)
      && (r.Some? ==>
            && r.value.0.Balance(a) == l.Balance(a) + (if a == to then amount - fee else 0) + (if a == nodeGroup then fee else 0)
            && r.value.0.totalSupply == l.totalSupply + amount)
  {
    if fee < amount {
      var first := DoMint(0, to, amount - fee);
      CommitsExactlyWhenAllowed(l, first);
      CallKeepsBacked(l, first);
      CommitsExactlyWhenAllowed(Apply(l, first), DoMint(0, nodeGroup, fee));
    }
  }

  // ---------------------------------------------------------------- Across

  /** The relay hash is taken over these four fields; keccak256 is taken to be injective. */
  datatype Relay = Relay(recipient: Address, amount: Word, originChainId: nat, depositId: nat)

  function AcrossDeposit(l: Ledger, pool: Address, caller: Address, amount: Word): Option<Ledger> {
    Try(l, DoTransferFrom(pool, caller, pool, amount))
  }

  function AcrossFill(l: Ledger, filled: set<Relay>, pool: Address, relay: Relay): Option<(Ledger, set<Relay>)> {
    if relay in filled then None
    else
      match Try(l, DoTransfer(pool, relay.recipient, relay.amount))
      case None => None
      case Some(paid) => Some((paid, filled + {relay}))
  }

  class AcrossSpokePool {
    const token: MockERC20
    const self: Address
    var filledRelays: set<Relay>

    constructor (token: MockERC20, address: Address)
      ensures this.token == token && self == address && filledRelays == {}
    {
      this.token, self, filledRelays := token, address, {};
    }

    method DepositV3(caller: Address, amount: Word) returns (ok: bool)
      modifies token
      ensures ok == AcrossDeposit(old(token.State()), self, caller, amount).Some?
      ensures token.State() == AcrossDeposit(old(token.State()), self, caller, amount).GetOr(old(token.State()))
    {
      ok := token.TransferFrom(self, caller, self, amount);
    }

    method FillRelay(recipient: Address, amount: Word, originChainId: nat, depositId: nat) returns (ok: bool)
      modifies this, token
      ensures var r := AcrossFill(old(token.State()), old(filledRelays), self, Relay(recipient, amount, originChainId, depositId));
              && ok == r.Some?
              && token.State() == (if ok then r.value.0 else old(token.State()))
              && filledRelays == (if ok then r.value.1 else old(filledRelays))
    {
      var relay := Relay(recipient, amount, originChainId, depositId);
      if relay in filledRelays {
        return false;
      }
      var saved := filledRelays;
      filledRelays := filledRelays + {relay};
      ok := token.Transfer(self, recipient, amount);
      if !ok {
        filledRelays := saved;
      }
    }
  }

  datatype AcrossAction =
    | AcrossToken(call: Call)
    | AcrossDoDeposit(caller: Address, amount: Word)
    | AcrossDoFill(caller: Address, relay: Relay)

  /** `incoming` counts deposits, donations and mints to the pool; a deposit the pool makes to itself is
      impossible, since it approves nobody. */
  datatype AcrossWorld = AcrossWorld(token: Ledger, filled: set<Relay>, incoming: nat, burned: nat)

  function AcrossStep(pool: Address, w: AcrossWorld, a: AcrossAction): AcrossWorld {
    match a
    case AcrossToken(call) =>
      var committed := Try(w.token, call).Some?;
      w.(token := Apply(w.token, call),
         incoming := w.incoming + (if committed then In(call, pool) else 0),
         burned := w.burned + (if committed then Out(call, pool) else 0))
    case AcrossDoDeposit(caller, amount) =>
      (match AcrossDeposit(w.token, pool, caller, amount)
       case None => w
       case Some(token) => w.(token := token, incoming := w.incoming + amount))
    case AcrossDoFill(_, relay) =>
      match AcrossFill(w.token, w.filled, pool, relay)
      case None => w
      case Some((token, filled)) => w.(token := token, filled := filled)
  }

  function AcrossRun(pool: Address, actions: seq<AcrossAction>): AcrossWorld {
    if actions == [] then AcrossWorld(EMPTY, {}, 0, 0)
    else AcrossStep(pool, AcrossRun(pool, actions[..|actions| - 1]), actions[|actions| - 1])
  }

  /** What each filled relay took out of the pool. */
  ghost function Payouts(pool: Address, filled: set<Relay>): map<Relay, nat> {
    map r | r in filled :: if r.recipient == pool then 0 else r.amount
  }

  /** Over every run in which the pool contract makes no token call beyond its own code, its balance is
      what came in, less the amounts of the filled relays paid to somebody else, each exactly once,
      less what open burn calls destroyed. */
  lemma {:induction false} AcrossBalanceIsAccounted(pool: Address, actions: seq<AcrossAction>)
    requires forall a :: a in actions && a.AcrossToken? ==> a.call.sender != pool
    ensures var w := AcrossRun(pool, actions);
      && Backed(w.token)
      && (forall spender :: w.token.Allowance(pool, spender) == 0)
      && w.token.Balance(pool) + Sum(Payouts(pool, w.filled)) + w.burned == w.incoming
    decreases |actions|
  {
    if actions == [] {
      assert Payouts(pool, {}) == map[];
    } else {
      var before, a := actions[..|actions| - 1], actions[|actions| - 1];
      AcrossBalanceIsAccounted(pool, before);
      AcrossStepIsAccounted(pool, AcrossRun(pool, before), a);
    }
  }

  ghost predicate AcrossInvariant(pool: Address, w: AcrossWorld) {
    && Backed(w.token)
    && (forall spender :: w.token.Allowance(pool, spender) == 0)
    && w.token.Balance(pool) + Sum(Payouts(pool, w.filled)) + w.burned == w.incoming
  }

  lemma AcrossStepIsAccounted(pool: Address, w: AcrossWorld, a: AcrossAction)
    requires AcrossInvariant(pool, w)
    requires a.AcrossToken? ==> a.call.sender != pool
    ensures AcrossInvariant(pool, AcrossStep(pool, w, a))
  {
    var call := match a
      case AcrossToken(call) => call
      case AcrossDoDeposit(caller, amount) => DoTransferFrom(pool, caller, pool, amount)
      case AcrossDoFill(_, relay) => DoTransfer(pool, relay.recipient, relay.amount);
    CallKeepsBacked(w.token, call);
    assert w.token.Allowance(pool, pool) == 0;
    if Try(w.token, call).Some? {
      CallEffect(w.token, call, pool, pool, pool);
      forall spender ensures Apply(w.token, call).Allowance(pool, spender) == 0 {
        assert w.token.Allowance(pool, spender) == 0;
        CallEffect(w.token, call, pool, pool, spender);
      }
      if a.AcrossDoFill? && a.relay !in w.filled {
        var paid := if a.relay.recipient == pool then 0 else a.relay.amount;
        assert Payouts(pool, w.filled + {a.relay}) == Payouts(pool, w.filled)[a.relay := paid];
        SumUpdate(Payouts(pool, w.filled), a.relay, paid);
      }
    }
  }

  /** A fill commits exactly once per relay, as soon as the pool can pay for it. */
  lemma AcrossFillExactly(pool: Address, l: Ledger, filled: set<Relay>, relay: Relay)
    requires Backed(l)
    ensures AcrossFill(l, filled, pool, relay).Some? <==> relay !in filled && relay.amount <= l.Balance(pool)
    ensures AcrossFill(l, filled, pool, relay).Some? ==>
              AcrossFill(AcrossFill(l, filled, pool, relay).value.0, AcrossFill(l, filled, pool, relay).value.1, pool, relay).None?
  {
    CommitsExactlyWhenAllowed(l, DoTransfer(pool, relay.recipient, relay.amount));
  }

  /** Who pays and who is paid: a committed fill moves the amount from the pool to the recipient of the relay,
      a committed deposit from the caller to the pool. */
  lemma AcrossEffect(pool: Address, w: AcrossWorld, a: AcrossAction, x: Address)
    requires Backed(w.token) && !a.AcrossToken?
    ensures var w' := AcrossStep(pool, w, a);
      match a
      case AcrossDoFill(_, relay) =>
        if relay in w.filled || w.token.Balance(pool) < relay.amount then w' == w
        else
          && w'.filled == w.filled + {relay}
          && w'.token.Balance(x)
             == w.token.Balance(x) - (if x == pool then relay.amount else 0) + (if x == relay.recipient then relay.amount else 0)
      case AcrossDoDeposit(caller, amount) =>
        if w.token.Balance(caller) < amount || w.token.Allowance(caller, pool) < amount then w' == w
        else
          && w'.filled == w.filled
          && w'.token.Balance(x) == w.token.Balance(x) - (if x == caller then amount else 0) + (if x == pool then amount else 0)
      case _ => true
  {
    var call := match a
      case AcrossDoDeposit(caller, amount) => DoTransferFrom(pool, caller, pool, amount)
      case AcrossDoFill(_, relay) => DoTransfer(pool, relay.recipient, relay.amount)
      case AcrossToken(call) => call;
    CommitsExactlyWhenAllowed(w.token, call);
    if Try(w.token, call).Some? {
      CallEffect(w.token, call, x, x, x);
    }
  }
}
