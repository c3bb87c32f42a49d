/** The lock-and-mint bridges: a deposit is escrowed on the source chain, announced by an event, and
    minted on the destination chain once the trusted counterparty relays it. */
module LockMint {
  import opened Erc20
  import opened MapSum
  import opened Wrappers

  /** What makes a relayed transfer unique on the destination chain: a number the messenger gives to the
      emitted event, or (zkSync Era) the hash of the sender, recipient, amount and block. keccak256 is
      taken to be injective, so the hash is represented by the tuple it is taken over. */
  datatype TransferId =
    | Numbered(n: nat)
    | EraHash(sender: Address, to: Address, amount: Word, blockNumber: nat)

  datatype Deposit = Deposit(payer: Address, to: Address, amount: Word, id: TransferId)

  // ---------------------------------------------------------------- one call

  /** The escrow pull shared by every source-side contract. */
  function Lock(l: Ledger, bridge: Address, payer: Address, amount: Word): Option<Ledger> {
    Try(l, DoTransferFrom(bridge, payer, bridge, amount))
  }

  /** The mint shared by every destination-side contract; None is a revert. */
  function Finalize(l: Ledger, finalized: set<TransferId>, counterparty: Address,
                    caller: Address, to: Address, amount: Word, id: TransferId): Option<(Ledger, set<TransferId>)> {
    if caller != counterparty || id in finalized then None
    else
      match Mint(l, to, amount)
      case None => None
      case Some(minted) => Some((minted, finalized + {id}))
  }

  class ArbitrumL1Gateway {
    const l1Token: MockERC20
    const self: Address
    var emitted: seq<Deposit>

    constructor (token: MockERC20, address: Address)
      ensures l1Token == token && self == address && emitted == []
    {
      l1Token, self, emitted := token, address, [];
    }

    method OutboundTransfer(from: Address, to: Address, amount: Word) returns (ok: bool)
      modifies this, l1Token
      ensures ok == Lock(old(l1Token.State()), self, from, amount).Some?
      ensures l1Token.State() == Lock(old(l1Token.State()), self, from, amount).GetOr(old(l1Token.State()))
      ensures emitted == if ok then old(emitted) + [Deposit(from, to, amount, Numbered(|old(emitted)|))] else old(emitted)
    {
      ok := l1Token.TransferFrom(self, from, self, amount);
      if ok {
        emitted := emitted + [Deposit(from, to, amount, Numbered(|emitted|))];
      }
    }
  }

  class ArbitrumL2Gateway {
    const l2Token: MockERC20
    const self: Address
    const counterpartyGateway: Address
    var executedWithdrawals: set<TransferId>

    constructor (token: MockERC20, address: Address, counterparty: Address)
      ensures l2Token == token && self == address && counterpartyGateway == counterparty && executedWithdrawals == {}
    {
      l2Token, self, counterpartyGateway, executedWithdrawals := token, address, counterparty, {};
    }

    /** The flag is written before the mint, so a reverting mint has to take it back. */
    method FinalizeInboundTransfer(caller: Address, to: Address, amount: Word, txId: TransferId) returns (ok: bool)
      modifies this, l2Token
      ensures var r := Finalize(old(l2Token.State()), old(executedWithdrawals), counterpartyGateway, caller, to, amount, txId);
              && ok == r.Some?
              && l2Token.State() == (if ok then r.value.0 else old(l2Token.State()))
              && executedWithdrawals == (if ok then r.value.1 else old(executedWithdrawals))
    {
      if caller != counterpartyGateway || txId in executedWithdrawals {
        return false;
      }
      var saved := executedWithdrawals;
      executedWithdrawals := executedWithdrawals + {txId};
      ok := l2Token.Mint(self, to, amount);
      if !ok {
        executedWithdrawals := saved;
      }
    }
  }

  /** One contract plays both sides; the depositor is always msg.sender. Optimism, Scroll and Linea
      have the same two operations and differ only in the names of the endpoint and the flag map. */
  class OptimismStandardBridge {
    const token: MockERC20
    const self: Address
    const messenger: Address
    var depositsFinalized: set<TransferId>
    var emitted: seq<Deposit>

    constructor (token: MockERC20, address: Address, messenger: Address)
      ensures this.token == token && self == address && this.messenger == messenger
      ensures depositsFinalized == {} && emitted == []
    {
      this.token, self, this.messenger, depositsFinalized, emitted := token, address, messenger, {}, [];
    }

    method DepositERC20(caller: Address, to: Address, amount: Word) returns (ok: bool)
      modifies this`emitted, token
      ensures ok == Lock(old(token.State()), self, caller, amount).Some?
      ensures token.State() == Lock(old(token.State()), self, caller, amount).GetOr(old(token.State()))
      ensures emitted == if ok then old(emitted) + [Deposit(caller, to, amount, Numbered(|old(emitted)|))] else old(emitted)
    {
      ok := token.TransferFrom(self, caller, self, amount);
      if ok {
        emitted := emitted + [Deposit(caller, to, amount, Numbered(|emitted|))];
      }
    }

    method FinalizeDeposit(caller: Address, to: Address, amount: Word, depositHash: TransferId) returns (ok: bool)
      modifies this`depositsFinalized, token
      ensures var r := Finalize(old(token.State()), old(depositsFinalized), messenger, caller, to, amount, depositHash);
              && ok == r.Some?
              && token.State() == (if ok then r.value.0 else old(token.State()))
              && depositsFinalized == (if ok then r.value.1 else old(depositsFinalized))
    {
      if caller != messenger || depositHash in depositsFinalized {
        return false;
      }
      var saved := depositsFinalized;
      depositsFinalized := depositsFinalized + {depositHash};
      ok := token.Mint(self, to, amount);
      if !ok {
        depositsFinalized := saved;
      }
    }
  }

  /** As above, but the deposit itself computes the identifier the hub later relays. */
  class ZkSyncEraBridge {
    const token: MockERC20
    const self: Address
    const bridgeHub: Address
    var processedDeposits: set<TransferId>
    var emitted: seq<Deposit>

    constructor (token: MockERC20, address: Address, hub: Address)
      ensures this.token == token && self == address && bridgeHub == hub
      ensures processedDeposits == {} && emitted == []
    {
      this.token, self, bridgeHub, processedDeposits, emitted := token, address, hub, {}, [];
    }

    method MakeDeposit(caller: Address, to: Address, amount: Word, blockNumber: nat) returns (ok: bool, l2TxHash: TransferId)
      modifies this`emitted, token
      ensures ok == Lock(old(token.State()), self, caller, amount).Some?
      ensures token.State() == Lock(old(token.State()), self, caller, amount).GetOr(old(token.State()))
      ensures l2TxHash == EraHash(caller, to, amount, blockNumber)
      ensures emitted == if ok then old(emitted) + [Deposit(caller, to, amount, l2TxHash)] else old(emitted)
    {
      l2TxHash := EraHash(caller, to, amount, blockNumber);
      ok := token.TransferFrom(self, caller, self, amount);
      if ok {
        emitted := emitted + [Deposit(caller, to, amount, l2TxHash)];
      }
    }

    method FinalizeDeposit(caller: Address, to: Address, amount: Word, depositHash: TransferId) returns (ok: bool)
      modifies this`processedDeposits, token
      ensures var r := Finalize(old(token.State()), old(processedDeposits), bridgeHub, caller, to, amount, depositHash);
              && ok == r.Some?
              && token.State() == (if ok then r.value.0 else old(token.State()))
              && processedDeposits == (if ok then r.value.1 else old(processedDeposits))
    {
      if caller != bridgeHub || depositHash in processedDeposits {
        return false;
      }
      var saved := processedDeposits;
      processedDeposits := processedDeposits + {depositHash};
      ok := token.Mint(self, to, amount);
      if !ok {
        processedDeposits := saved;
      }
    }
  }

  // ---------------------------------------------------------------- two chains and a relayer

  datatype Kind =
    | AnyPayer     // Arbitrum: the caller names the account that pays
    | SenderPays   // Optimism, Scroll, Linea
    | Era          // zkSync Era: the sender pays, transfers are known by their hash

  /** `name` is the number the messenger gives to the n-th event; nothing is assumed of it. */
  datatype Config = Config(kind: Kind, bridge: Address, counterparty: Address, name: nat -> nat)

  datatype World = World(l1: Ledger, l2: Ledger, emitted: seq<Deposit>, finalized: set<TransferId>)

  const START := World(EMPTY, EMPTY, [], {})

  datatype Action =
    | TokenL1(call: Call)
    | TokenL2(call: Call)
    | Outbound(caller: Address, from: Address, to: Address, amount: Word, blockNumber: nat)
    | Inbound(caller: Address, to: Address, amount: Word, id: TransferId)

  function Emission(cfg: Config, w: World, a: Action): Deposit
    requires a.Outbound?
  {
    var payer := if cfg.kind.AnyPayer? then a.from else a.caller;
    var id := if cfg.kind.Era? then EraHash(a.caller, a.to, a.amount, a.blockNumber) else Numbered(cfg.name(|w.emitted|));
    Deposit(payer, a.to, a.amount, id)
  }

  /** One transaction on either chain. A revert leaves the world as it was. */
  function Step(cfg: Config, w: World, a: Action): World {
    match a
    case TokenL1(call) => w.(l1 := Apply(w.l1, call))
    case TokenL2(call) => w.(l2 := Apply(w.l2, call))
    case Outbound(_, _, _, amount, _) =>
      var d := Emission(cfg, w, a);
      (match Lock(w.l1, cfg.bridge, d.payer, amount)
       case None => w
       case Some(locked) => w.(l1 := locked, emitted := w.emitted + [d]))
    case Inbound(caller, to, amount, id) =>
      (match Finalize(w.l2, w.finalized, cfg.counterparty, caller, to, amount, id)
       case None => w
       case Some((minted, finalized)) => w.(l2 := minted, finalized := finalized))
  }

  /** What the environment may do. Anyone may send anything, as often and in whatever order they like;
      but the escrow account is a contract that makes no token call of its own besides the escrow pull,
      and the counterparty relays only transfers that were emitted, an identifier given twice with the content
      of the transfer that had it first. */
  ghost predicate Enabled(cfg: Config, w: World, a: Action) {
    && (a.TokenL1? ==> a.call.sender != cfg.bridge)
    && (a.Inbound? && a.caller == cfg.counterparty ==>
          && a.id in Ids(w.emitted)
          && Bearer(w.emitted, a.id).to == a.to && Bearer(w.emitted, a.id).amount == a.amount)
  }

  ghost function Ids(ds: seq<Deposit>): set<TransferId> {
    set d | d in ds :: d.id
  }

  /** The transfer that had an identifier first. */
  ghost function Bearer(ds: seq<Deposit>, id: TransferId): (d: Deposit)
    requires id in Ids(ds)
    ensures d in ds && d.id == id
  {
    var before, last := ds[..|ds| - 1], ds[|ds| - 1];
    assert forall e :: e in ds <==> e in before || e == last;
    if id in Ids(before) then Bearer(before, id) else last
  }

  /** Money that enters or leaves the two pools other than through the bridge. */
  datatype Books = Books(donated: nat, escrowBurned: nat, strayMinted: nat, supplyBurned: nat)

  function Entry(cfg: Config, w: World, b: Books, a: Action): Books {
    if a.TokenL1? && Try(w.l1, a.call).Some? then
      b.(donated := b.donated + In(a.call, cfg.bridge), escrowBurned := b.escrowBurned + Out(a.call, cfg.bridge))
    else if a.TokenL2? && a.call.DoMint? && Try(w.l2, a.call).Some? then
      b.(strayMinted := b.strayMinted + a.call.value)
    else if a.TokenL2? && a.call.DoBurn? && Try(w.l2, a.call).Some? then
      b.(supplyBurned := b.supplyBurned + a.call.value)
    else b
  }

  function Run(cfg: Config, actions: seq<Action>): (World, Books) {
    if actions == [] then (START, Books(0, 0, 0, 0))
    else
      var (w, b) := Run(cfg, actions[..|actions| - 1]);
      var a := actions[|actions| - 1];
      (Step(cfg, w, a), Entry(cfg, w, b, a))
  }

  ghost predicate ValidRun(cfg: Config, actions: seq<Action>) {
    actions != [] ==>
      && ValidRun(cfg, actions[..|actions| - 1])
      && Enabled(cfg, Run(cfg, actions[..|actions| - 1]).0, actions[|actions| - 1])
  }

  // ---------------------------------------------------------------- sums over the emitted transfers

  function Total(ds: seq<Deposit>): nat {
    if ds == [] then 0 else Total(ds[..|ds| - 1]) + ds[|ds| - 1].amount
  }

  /** Transfers are counted once per identifier, at the first emission that carries it. */
  ghost function Finalized(ds: seq<Deposit>, finalized: set<TransferId>): nat {
    if ds == [] then 0
    else
      var before, d := ds[..|ds| - 1], ds[|ds| - 1];
      Finalized(before, finalized) + (if d.id in finalized && d.id !in Ids(before) then d.amount else 0)
  }

  ghost function InFlight(ds: seq<Deposit>, finalized: set<TransferId>): nat {
    if ds == [] then 0
    else
      var before, d := ds[..|ds| - 1], ds[|ds| - 1];
      InFlight(before, finalized) + (if d.id !in finalized && d.id !in Ids(before) then d.amount else 0)
  }

  /** Deposits whose identifier was already taken: no relay can ever mint them. */
  ghost function Stranded(ds: seq<Deposit>): nat {
    if ds == [] then 0
    else
      var before, d := ds[..|ds| - 1], ds[|ds| - 1];
      Stranded(before) + (if d.id in Ids(before) then d.amount else 0)
  }

  lemma {:induction false} TotalSplits(ds: seq<Deposit>, finalized: set<TransferId>)
    ensures Total(ds) == Finalized(ds, finalized) + InFlight(ds, finalized) + Stranded(ds)
    decreases |ds|
  {
    if ds != [] {
      TotalSplits(ds[..|ds| - 1], finalized);
    }
  }

  lemma {:induction false} FinalizedIgnores(ds: seq<Deposit>, finalized: set<TransferId>, id: TransferId)
    requires id !in Ids(ds)
    ensures Finalized(ds, finalized + {id}) == Finalized(ds, finalized)
    decreases |ds|
  {
    if ds != [] {
      assert ds[|ds| - 1] in ds;
      assert forall d :: d in ds[..|ds| - 1] ==> d in ds;
      FinalizedIgnores(ds[..|ds| - 1], finalized, id);
    }
  }

  lemma {:induction false} FinalizedGrows(ds: seq<Deposit>, finalized: set<TransferId>, id: TransferId)
    requires id in Ids(ds) && id !in finalized
    ensures Finalized(ds, finalized + {id}) == Finalized(ds, finalized) + Bearer(ds, id).amount
    decreases |ds|
  {
    var before, d := ds[..|ds| - 1], ds[|ds| - 1];
    assert forall e :: e in ds <==> e in before || e == d;
    if id in Ids(before) {
      FinalizedGrows(before, finalized, id);
    } else {
      FinalizedIgnores(before, finalized, id);
    }
  }

  // ---------------------------------------------------------------- the invariant

  ghost predicate WellIdentified(cfg: Config, w: World) {
    && (forall i :: 0 <= i < |w.emitted| ==>
          var d := w.emitted[i];
          if cfg.kind.Era? then d.id.EraHash? && d.id.sender == d.payer && d.id.to == d.to && d.id.amount == d.amount
          else d.id == Numbered(cfg.name(i)))
    && w.finalized <= Ids(w.emitted)
  }

  ghost predicate Invariant(cfg: Config, w: World, b: Books) {
    && Backed(w.l1) && Backed(w.l2)
    && (forall spender :: w.l1.Allowance(cfg.bridge, spender) == 0)
    && WellIdentified(cfg, w)
    && w.l1.Balance(cfg.bridge) + b.escrowBurned == Total(w.emitted) + b.donated
    && w.l2.totalSupply + b.supplyBurned == Finalized(w.emitted, w.finalized) + b.strayMinted
  }

  lemma TokenL1KeepsInvariant(cfg: Config, w: World, b: Books, a: Action)
    requires Invariant(cfg, w, b) && a.TokenL1? && Enabled(cfg, w, a)
    ensures Invariant(cfg, Step(cfg, w, a), Entry(cfg, w, b, a))
  {
    CallKeepsBacked(w.l1, a.call);
    forall spender ensures Apply(w.l1, a.call).Allowance(cfg.bridge, spender) == 0 {
      assert w.l1.Allowance(cfg.bridge, spender) == 0;
      if Try(w.l1, a.call).Some? {
        CallEffect(w.l1, a.call, cfg.bridge, cfg.bridge, spender);
      }
    }
    if Try(w.l1, a.call).Some? {
      CallEffect(w.l1, a.call, cfg.bridge, cfg.bridge, cfg.bridge);
    }
  }

  lemma TokenL2KeepsInvariant(cfg: Config, w: World, b: Books, a: Action)
    requires Invariant(cfg, w, b) && a.TokenL2?
    ensures Invariant(cfg, Step(cfg, w, a), Entry(cfg, w, b, a))
  {
    CallKeepsBacked(w.l2, a.call);
    if Try(w.l2, a.call).Some? {
      CallEffect(w.l2, a.call, 0, 0, 0);
    }
  }

  /** The escrow account holds no allowance on itself, so naming it as payer moves nothing: that is the
      step on which the Arbitrum gateway's caller-chosen payer would otherwise create unbacked events. */
  lemma LockEffect(cfg: Config, w: World, b: Books, payer: Address, amount: Word)
    requires Invariant(cfg, w, b)
    requires Lock(w.l1, cfg.bridge, payer, amount).Some?
    ensures var l := Lock(w.l1, cfg.bridge, payer, amount).value;
      && Backed(l)
      && l.Balance(cfg.bridge) == w.l1.Balance(cfg.bridge) + amount
      && forall spender :: l.Allowance(cfg.bridge, spender) == 0
  {
    var call := DoTransferFrom(cfg.bridge, payer, cfg.bridge, amount);
    CallKeepsBacked(w.l1, call);
    assert w.l1.Allowance(cfg.bridge, cfg.bridge) == 0;
    CallEffect(w.l1, call, cfg.bridge, cfg.bridge, cfg.bridge);
    forall spender ensures Apply(w.l1, call).Allowance(cfg.bridge, spender) == 0 {
      assert w.l1.Allowance(cfg.bridge, spender) == 0;
      CallEffect(w.l1, call, cfg.bridge, cfg.bridge, spender);
    }
  }

  lemma OutboundKeepsInvariant(cfg: Config, w: World, b: Books, a: Action)
    requires Invariant(cfg, w, b) && a.Outbound?
    ensures Invariant(cfg, Step(cfg, w, a), Entry(cfg, w, b, a))
  {
    hide WellIdentified;
    var d := Emission(cfg, w, a);
    if Lock(w.l1, cfg.bridge, d.payer, a.amount).Some? {
      LockEffect(cfg, w, b, d.payer, a.amount);
      var w' := Step(cfg, w, a);
      EmissionIsIdentified(cfg, w, a, w'.l1);
      assert w'.emitted[..|w'.emitted| - 1] == w.emitted;
    }
  }

  lemma EmissionIsIdentified(cfg: Config, w: World, a: Action, locked: Ledger)
    requires WellIdentified(cfg, w) && a.Outbound?
    ensures WellIdentified(cfg, w.(l1 := locked, emitted := w.emitted + [Emission(cfg, w, a)]))
    ensures Emission(cfg, w, a).amount == a.amount && w.finalized <= Ids(w.emitted)
  {
    var w' := w.(l1 := locked, emitted := w.emitted + [Emission(cfg, w, a)]);
    assert forall e :: e in w.emitted ==> e in w'.emitted;
    assert Emission(cfg, w, a) in w'.emitted;
  }

  lemma InboundKeepsInvariant(cfg: Config, w: World, b: Books, a: Action)
    requires Invariant(cfg, w, b) && a.Inbound? && Enabled(cfg, w, a)
    ensures Invariant(cfg, Step(cfg, w, a), Entry(cfg, w, b, a))
  {
    if Finalize(w.l2, w.finalized, cfg.counterparty, a.caller, a.to, a.amount, a.id).Some? {
      var mint := DoMint(cfg.bridge, a.to, a.amount);
      CallKeepsBacked(w.l2, mint);
      FinalizedGrows(w.emitted, w.finalized, a.id);
    }
  }

  lemma {:induction false} RunKeepsInvariant(cfg: Config, actions: seq<Action>)
    requires ValidRun(cfg, actions)
    ensures Invariant(cfg, Run(cfg, actions).0, Run(cfg, actions).1)
    decreases |actions|
  {
    if actions != [] {
      var before, a := actions[..|actions| - 1], actions[|actions| - 1];
      RunKeepsInvariant(cfg, before);
      var (w, b) := Run(cfg, before);
      match a
      case TokenL1(_) => TokenL1KeepsInvariant(cfg, w, b, a);
      case TokenL2(_) => TokenL2KeepsInvariant(cfg, w, b, a);
      case Outbound(_, _, _, _, _) => OutboundKeepsInvariant(cfg, w, b, a);
      case Inbound(_, _, _, _) => InboundKeepsInvariant(cfg, w, b, a);
    }
  }

  // ---------------------------------------------------------------- what one bridge call does, account by account

  predicate HasPayer(cfg: Config, a: Action, payer: Address)
    requires a.Outbound?
  {
    if cfg.kind.AnyPayer? then payer == a.from else payer == a.caller
  }

  /** A deposit commits exactly when its payer has the amount and has allowed the bridge to take it; then the
      amount moves from the payer to the escrow, a finite allowance is drawn down, and one transfer is emitted
      with the payer, recipient and amount of the call. Else nothing happens. */
  lemma OutboundEffect(cfg: Config, w: World, a: Action, payer: Address, x: Address, spender: Address)
    requires Backed(w.l1) && a.Outbound? && HasPayer(cfg, a, payer)
    ensures var w', n := Step(cfg, w, a), |w.emitted|;
      if w.l1.Balance(payer) < a.amount || w.l1.Allowance(payer, cfg.bridge) < a.amount then w' == w
      else
        && w'.l1.Balance(x) == w.l1.Balance(x) - (if x == payer then a.amount else 0) + (if x == cfg.bridge then a.amount else 0)
        && w'.l1.Allowance(x, spender)
           == w.l1.Allowance(x, spender)
              - (if x == payer && spender == cfg.bridge && w.l1.Allowance(x, spender) != UINT256_MAX then a.amount else 0)
        && w'.l1.totalSupply == w.l1.totalSupply && w'.l2 == w.l2 && w'.finalized == w.finalized
        && |w'.emitted| == n + 1 && w'.emitted[..n] == w.emitted
        && w'.emitted[n].payer == payer && w'.emitted[n].to == a.to && w'.emitted[n].amount == a.amount
        && w'.emitted[n].id == (if cfg.kind.Era? then EraHash(a.caller, a.to, a.amount, a.blockNumber) else Numbered(cfg.name(n)))
  {
    var call := DoTransferFrom(cfg.bridge, payer, cfg.bridge, a.amount);
    CommitsExactlyWhenAllowed(w.l1, call);
    if Try(w.l1, call).Some? {
      CallEffect(w.l1, call, x, x, spender);
    }
  }

  /** A relay commits exactly when the counterparty sends it, its identifier is new and the supply does not
      overflow; then the recipient it names, and nobody else, has the amount more. Else nothing happens. */
  lemma InboundEffect(cfg: Config, w: World, a: Action, x: Address)
    requires Backed(w.l2) && a.Inbound?
    ensures var w' := Step(cfg, w, a);
      if a.caller != cfg.counterparty || a.id in w.finalized || w.l2.totalSupply + a.amount > UINT256_MAX then w' == w
      else
        && w'.l2.Balance(x) == w.l2.Balance(x) + (if x == a.to then a.amount else 0)
        && w'.l2.totalSupply == w.l2.totalSupply + a.amount && w'.l2.allowance == w.l2.allowance
        && w'.finalized == w.finalized + {a.id}
        && w'.l1 == w.l1 && w'.emitted == w.emitted
  {
    var call := DoMint(cfg.bridge, a.to, a.amount);
    CommitsExactlyWhenAllowed(w.l2, call);
    if Try(w.l2, call).Some? {
      CallEffect(w.l2, call, x, 0, 0);
    }
  }

  /** What the finalized transfers owe an account. */
  ghost function Received(ds: seq<Deposit>, finalized: set<TransferId>, x: Address): nat {
    if ds == [] then 0
    else
      var before, d := ds[..|ds| - 1], ds[|ds| - 1];
      Received(before, finalized, x) + (if d.id in finalized && d.id !in Ids(before) && d.to == x then d.amount else 0)
  }

  lemma {:induction false} ReceivedGrows(ds: seq<Deposit>, finalized: set<TransferId>, id: TransferId, x: Address)
    requires id !in finalized
    ensures Received(ds, finalized + {id}, x)
         == Received(ds, finalized, x) + (if id in Ids(ds) && Bearer(ds, id).to == x then Bearer(ds, id).amount else 0)
    decreases |ds|
  {
    if ds != [] {
      var before, d := ds[..|ds| - 1], ds[|ds| - 1];
      assert forall e :: e in ds <==> e in before || e == d;
      ReceivedGrows(before, finalized, id, x);
    }
  }

  /** With no token calls on the destination chain, every balance there is the sum of the amounts of the
      finalized transfers to that account. */
  lemma {:induction false} DestinationBalancesAreReceived(cfg: Config, actions: seq<Action>, x: Address)
    requires ValidRun(cfg, actions)
    requires forall a :: a in actions ==> !a.TokenL2?
    ensures var w := Run(cfg, actions).0; w.l2.Balance(x) == Received(w.emitted, w.finalized, x)
    decreases |actions|
  {
    if actions != [] {
      var before, a := actions[..|actions| - 1], actions[|actions| - 1];
      DestinationBalancesAreReceived(cfg, before, x);
      RunKeepsInvariant(cfg, before);
      hide Invariant, Lock, Finalize;
      BalancesStayReceived(cfg, Run(cfg, before).0, Run(cfg, before).1, a, x);
    }
  }

  lemma BalancesStayReceived(cfg: Config, w: World, b: Books, a: Action, x: Address)
    requires Invariant(cfg, w, b) && !a.TokenL2? && Enabled(cfg, w, a)
    requires w.l2.Balance(x) == Received(w.emitted, w.finalized, x)
    ensures var w' := Step(cfg, w, a); w'.l2.Balance(x) == Received(w'.emitted, w'.finalized, x)
  {
    match a
    case TokenL1(_) =>
    case Outbound(caller, from, _, _, _) =>
      OutboundEffect(cfg, w, a, if cfg.kind.AnyPayer? then from else caller, x, x);
      var w' := Step(cfg, w, a);
      if w' != w {
        assert w'.emitted[..|w'.emitted| - 1] == w.emitted;
      }
    case Inbound(_, _, _, id) =>
      InboundEffect(cfg, w, a, x);
      if id !in w.finalized {
        ReceivedGrows(w.emitted, w.finalized, id, x);
      }
  }

  // ---------------------------------------------------------------- main results

  /** The conservation law, with no assumption on who mints or burns: every unit in escrow is matched by
      destination supply, by a transfer still in flight, by a stranded duplicate, or by a donation, up to
      the units that open mint and burn calls created or destroyed outside the bridge. */
  lemma EscrowConservation(cfg: Config, actions: seq<Action>)
    requires ValidRun(cfg, actions)
    ensures var (w, b) := Run(cfg, actions);
            w.l1.Balance(cfg.bridge) + b.escrowBurned + b.strayMinted
            == w.l2.totalSupply + b.supplyBurned + InFlight(w.emitted, w.finalized) + Stranded(w.emitted) + b.donated
  {
    RunKeepsInvariant(cfg, actions);
    var (w, b) := Run(cfg, actions);
    TotalSplits(w.emitted, w.finalized);
  }

  /** Exactly when the destination supply is covered by the escrow. MockERC20 lets anyone mint and burn,
      so it can fail; it fails only by as much as was minted or burned around the bridge. */
  lemma SupplyCoveredExactlyWhen(cfg: Config, actions: seq<Action>)
    requires ValidRun(cfg, actions)
    ensures var (w, b) := Run(cfg, actions);
            w.l2.totalSupply <= w.l1.Balance(cfg.bridge) <==>
            b.escrowBurned + b.strayMinted
            <= b.supplyBurned + InFlight(w.emitted, w.finalized) + Stranded(w.emitted) + b.donated
  {
    EscrowConservation(cfg, actions);
  }

  /** What can be told before an open call: burning v of the escrow, or minting v beside the bridge, leaves a
      covered supply covered exactly when v is at most what the escrow holds beyond it. */
  lemma OpenCallKeepsCoverExactlyWithinSlack(cfg: Config, w: World, a: Action)
    requires w.l2.totalSupply <= w.l1.Balance(cfg.bridge)
    requires (a.TokenL1? && a.call.DoBurn? && a.call.from == cfg.bridge && Try(w.l1, a.call).Some?)
             || (a.TokenL2? && a.call.DoMint? && Try(w.l2, a.call).Some?)
    ensures var w' := Step(cfg, w, a);
            w'.l2.totalSupply <= w'.l1.Balance(cfg.bridge) <==> a.call.value <= w.l1.Balance(cfg.bridge) - w.l2.totalSupply
  {
    if a.TokenL1? {
      CallEffect(w.l1, a.call, cfg.bridge, 0, 0);
    } else {
      CallEffect(w.l2, a.call, 0, 0, 0);
    }
  }

  /** With the bridge as only minter and no burns, escrow is supply plus what is in flight, stranded or donated. */
  lemma CleanConservation(cfg: Config, actions: seq<Action>)
    requires ValidRun(cfg, actions)
    requires forall a :: a in actions ==> CleanAction(a)
    ensures var (w, b) := Run(cfg, actions);
      && w.l1.Balance(cfg.bridge) == w.l2.totalSupply + InFlight(w.emitted, w.finalized) + Stranded(w.emitted) + b.donated
      && w.l2.totalSupply <= w.l1.Balance(cfg.bridge)
  {
    EscrowConservation(cfg, actions);
    CleanBooks(cfg, actions);
  }

  ghost predicate CleanAction(a: Action) {
    && (a.TokenL1? ==> !a.call.DoBurn?)
    && (a.TokenL2? ==> !a.call.DoMint? && !a.call.DoBurn?)
  }

  lemma {:induction false} CleanBooks(cfg: Config, actions: seq<Action>)
    requires ValidRun(cfg, actions)
    requires forall a :: a in actions ==> CleanAction(a)
    ensures var b := Run(cfg, actions).1; b.escrowBurned == b.strayMinted == b.supplyBurned == 0
    decreases |actions|
  {
    if actions != [] {
      var before, a := actions[..|actions| - 1], actions[|actions| - 1];
      CleanBooks(cfg, before);
      RunKeepsInvariant(cfg, before);
      var (w, b) := Run(cfg, before);
      assert CleanAction(a);
      if a.TokenL1? && a.call.DoTransferFrom? {
        assert w.l1.Allowance(cfg.bridge, a.call.sender) == 0;
      }
    }
  }

  /** However the messenger numbers transfers, value is stranded exactly when a nonzero one gets a number that
      was given before. */
  lemma NumberedStrandsExactlyOnRepeats(cfg: Config, actions: seq<Action>)
    requires ValidRun(cfg, actions) && !cfg.kind.Era?
    ensures var ds := Run(cfg, actions).0.emitted;
            Stranded(ds) > 0 <==> exists i, j :: NamedAgain(cfg, ds, i, j)
  {
    RunKeepsInvariant(cfg, actions);
    NamesStrand(cfg, Run(cfg, actions).0.emitted);
  }

  ghost predicate NamedAgain(cfg: Config, ds: seq<Deposit>, i: int, j: int) {
    0 <= i < j < |ds| && cfg.name(i) == cfg.name(j) && ds[j].amount > 0
  }

  lemma {:induction false} NamesStrand(cfg: Config, ds: seq<Deposit>)
    requires forall i :: 0 <= i < |ds| ==> ds[i].id == Numbered(cfg.name(i))
    ensures Stranded(ds) > 0 <==> exists i, j :: NamedAgain(cfg, ds, i, j)
    decreases |ds|
  {
    if ds != [] {
      var before, n := ds[..|ds| - 1], |ds| - 1;
      NamesStrand(cfg, before);
      if i, j :| NamedAgain(cfg, before, i, j) {
        assert NamedAgain(cfg, ds, i, j);
      }
      if ds[n].id in Ids(before) && ds[n].amount > 0 {
        var i :| 0 <= i < n && before[i].id == ds[n].id;
        assert NamedAgain(cfg, ds, i, n);
      }
      if i, j :| NamedAgain(cfg, ds, i, j) {
        if j < n {
          assert NamedAgain(cfg, before, i, j);
        } else {
          assert before[i] in before;
        }
      }
    }
  }

  /** A messenger that gives every transfer a number of its own strands nothing. */
  lemma DistinctNumbersNeverStrand(cfg: Config, actions: seq<Action>)
    requires ValidRun(cfg, actions) && !cfg.kind.Era?
    requires forall i, j :: 0 <= i < j < |Run(cfg, actions).0.emitted| ==> cfg.name(i) != cfg.name(j)
    ensures Stranded(Run(cfg, actions).0.emitted) == 0
  {
    NumberedStrandsExactlyOnRepeats(cfg, actions);
  }

  /** The i-th action of a run is a deposit that commits. */
  ghost predicate Committed(cfg: Config, actions: seq<Action>, i: nat)
    requires i < |actions|
  {
    && actions[i].Outbound?
    && Locks(cfg, Run(cfg, actions[..i]).0, actions[i])
  }

  predicate Locks(cfg: Config, w: World, a: Action)
    requires a.Outbound?
  {
    Lock(w.l1, cfg.bridge, Emission(cfg, w, a).payer, a.amount).Some?
  }

  /** The same sender, recipient, amount and block. */
  predicate SameDeposit(a: Action, c: Action)
    requires a.Outbound? && c.Outbound?
  {
    a.caller == c.caller && a.to == c.to && a.amount == c.amount && a.blockNumber == c.blockNumber
  }

  ghost predicate MadeBefore(cfg: Config, actions: seq<Action>, a: Action)
    requires a.Outbound?
  {
    exists i :: 0 <= i < |actions| && Committed(cfg, actions, i) && SameDeposit(actions[i], a)
  }

  ghost predicate Repeated(cfg: Config, actions: seq<Action>, j: nat)
    requires j < |actions|
  {
    Committed(cfg, actions, j) && actions[j].amount > 0 && MadeBefore(cfg, actions[..j], actions[j])
  }

  /** The identifiers in use on zkSync Era are the hashes of the deposits made. */
  lemma {:induction false} EraIdsAreDeposits(cfg: Config, actions: seq<Action>, a: Action)
    requires cfg.kind.Era? && a.Outbound?
    ensures EraHash(a.caller, a.to, a.amount, a.blockNumber) in Ids(Run(cfg, actions).0.emitted) <==> MadeBefore(cfg, actions, a)
    decreases |actions|
  {
    hide Lock, Finalize, Entry;
    if actions != [] {
      var before, last := actions[..|actions| - 1], actions[|actions| - 1];
      EraIdsAreDeposits(cfg, before, a);
      CommittedSplits(cfg, actions, a);
      IdsGrow(cfg, Run(cfg, before).0, last);
    }
  }

  lemma CommittedSplits(cfg: Config, actions: seq<Action>, a: Action)
    requires a.Outbound? && actions != []
    ensures var before, last := actions[..|actions| - 1], actions[|actions| - 1];
            MadeBefore(cfg, actions, a) <==>
            MadeBefore(cfg, before, a) || (last.Outbound? && Locks(cfg, Run(cfg, before).0, last) && SameDeposit(last, a))
  {
    hide Locks, Run;
    var n := |actions| - 1;
    var before := actions[..n];
    forall i | 0 <= i < n ensures Committed(cfg, before, i) == Committed(cfg, actions, i) {
      assert before[..i] == actions[..i];
    }
    if MadeBefore(cfg, before, a) {
      var i :| 0 <= i < n && Committed(cfg, before, i) && SameDeposit(before[i], a);
      assert Committed(cfg, actions, i);
    }
    if MadeBefore(cfg, actions, a) {
      var i :| 0 <= i < |actions| && Committed(cfg, actions, i) && SameDeposit(actions[i], a);
      assert i < n ==> Committed(cfg, before, i);
    }
    if actions[n].Outbound? && Locks(cfg, Run(cfg, before).0, actions[n]) && SameDeposit(actions[n], a) {
      assert Committed(cfg, actions, n);
    }
  }

  lemma IdsGrow(cfg: Config, w: World, a: Action)
    ensures a.Outbound? && Locks(cfg, w, a) ==> Ids(Step(cfg, w, a).emitted) == Ids(w.emitted) + {Emission(cfg, w, a).id}
    ensures !(a.Outbound? && Locks(cfg, w, a)) ==> Step(cfg, w, a).emitted == w.emitted
  {
    hide Lock, Finalize;
    if a.Outbound? && Locks(cfg, w, a) {
      var d := Emission(cfg, w, a);
      assert forall e :: e in w.emitted + [d] <==> e in w.emitted || e == d;
    }
  }

  /** What a depositor can tell before the call: the deposit is stranded exactly when one with the same
      sender, recipient, amount and block was made before. */
  lemma DepositStrandsExactlyWhenRepeated(cfg: Config, actions: seq<Action>, a: Action)
    requires cfg.kind.Era? && a.Outbound?
    ensures var w := Run(cfg, actions).0;
            Stranded(Step(cfg, w, a).emitted)
            == Stranded(w.emitted) + (if Locks(cfg, w, a) && MadeBefore(cfg, actions, a) then a.amount else 0)
  {
    hide Lock, Run, MadeBefore;
    EraIdsAreDeposits(cfg, actions, a);
    var w := Run(cfg, actions).0;
    var w' := Step(cfg, w, a);
    if Locks(cfg, w, a) {
      assert w'.emitted[..|w'.emitted| - 1] == w.emitted;
    }
  }

  /** zkSync Era strands value exactly when a nonzero deposit repeats the sender, recipient, amount and block
      of an earlier one: the repeat is escrowed but shares the first one's hash. */
  lemma {:induction false} EraStrandsExactlyOnRepeats(cfg: Config, actions: seq<Action>)
    requires cfg.kind.Era?
    ensures Stranded(Run(cfg, actions).0.emitted) > 0 <==> exists j :: 0 <= j < |actions| && Repeated(cfg, actions, j)
    decreases |actions|
  {
    hide Locks, Stranded, Entry, Lock, MadeBefore, Finalize;
    if actions == [] {
      NothingStranded();
    } else {
      var n := |actions| - 1;
      var before, last := actions[..n], actions[n];
      EraStrandsExactlyOnRepeats(cfg, before);
      RepeatedSplits(cfg, actions);
      if last.Outbound? {
        DepositStrandsExactlyWhenRepeated(cfg, before, last);
      }
    }
  }

  lemma RepeatedSplits(cfg: Config, actions: seq<Action>)
    requires actions != []
    ensures var n := |actions| - 1;
            (exists j :: 0 <= j < |actions| && Repeated(cfg, actions, j)) <==>
            (exists j :: 0 <= j < n && Repeated(cfg, actions[..n], j))
            || (actions[n].Outbound? && Locks(cfg, Run(cfg, actions[..n]).0, actions[n]) && actions[n].amount > 0
                && MadeBefore(cfg, actions[..n], actions[n]))
  {
    hide Locks, Run, MadeBefore;
    var n := |actions| - 1;
    forall j | 0 <= j < n ensures Repeated(cfg, actions[..n], j) == Repeated(cfg, actions, j) {
      assert actions[..n][..j] == actions[..j];
    }
    if j :| 0 <= j < n && Repeated(cfg, actions[..n], j) {
      assert Repeated(cfg, actions, j);
    }
    if j :| 0 <= j < |actions| && Repeated(cfg, actions, j) {
      assert j < n ==> Repeated(cfg, actions[..n], j);
    }
    if actions[n].Outbound? && Locks(cfg, Run(cfg, actions[..n]).0, actions[n]) && actions[n].amount > 0
       && MadeBefore(cfg, actions[..n], actions[n]) {
      assert Repeated(cfg, actions, n);
    }
  }

  lemma NothingStranded()
    ensures Stranded([]) == 0
  {
  }

  /** No transfer is lost: in a clean run the counterparty's relay of an emitted transfer succeeds exactly
      when its identifier has not been finalized; the mint can not overflow. Whatever was delayed, reordered
      or refused before does not matter. */
  lemma RelaySucceedsExactlyOnce(cfg: Config, actions: seq<Action>, id: TransferId)
    requires ValidRun(cfg, actions) && id in Ids(Run(cfg, actions).0.emitted)
    requires forall a :: a in actions ==> CleanAction(a)
    ensures var w := Run(cfg, actions).0;
            var d := Bearer(w.emitted, id);
            Finalize(w.l2, w.finalized, cfg.counterparty, cfg.counterparty, d.to, d.amount, id).Some? <==> id !in w.finalized
  {
    RunKeepsInvariant(cfg, actions);
    CleanConservation(cfg, actions);
    var (w, b) := Run(cfg, actions);
    var d := Bearer(w.emitted, id);
    if id !in w.finalized {
      InFlightCovers(w.emitted, w.finalized, id);
      SumBoundsOne(w.l1.balanceOf, cfg.bridge);
      CommitsExactlyWhenAllowed(w.l2, DoMint(cfg.bridge, d.to, d.amount));
    }
  }

  lemma {:induction false} InFlightCovers(ds: seq<Deposit>, finalized: set<TransferId>, id: TransferId)
    requires id in Ids(ds) && id !in finalized
    ensures Bearer(ds, id).amount <= InFlight(ds, finalized)
    decreases |ds|
  {
    var before, last := ds[..|ds| - 1], ds[|ds| - 1];
    assert forall e :: e in ds <==> e in before || e == last;
    if id in Ids(before) {
      InFlightCovers(before, finalized, id);
    }
  }

  /** On zkSync Era, and where numbers are given once, the transfer relayed is the one emitted, whichever
      deposit of that identifier is looked at. */
  lemma BearerHasTheContent(cfg: Config, actions: seq<Action>, d: Deposit)
    requires ValidRun(cfg, actions) && d in Run(cfg, actions).0.emitted
    requires cfg.kind.Era? || forall i, j :: 0 <= i < j ==> cfg.name(i) != cfg.name(j)
    ensures var e := Bearer(Run(cfg, actions).0.emitted, d.id); e.to == d.to && e.amount == d.amount
  {
    hide Run, ValidRun, Bearer;
    RunKeepsInvariant(cfg, actions);
    SameContent(cfg, Run(cfg, actions).0, d, Bearer(Run(cfg, actions).0.emitted, d.id));
  }

  lemma SameContent(cfg: Config, w: World, d: Deposit, e: Deposit)
    requires WellIdentified(cfg, w) && d in w.emitted && e in w.emitted && d.id == e.id
    requires cfg.kind.Era? || forall i, j :: 0 <= i < j ==> cfg.name(i) != cfg.name(j)
    ensures d.to == e.to && d.amount == e.amount
  {
    var i :| 0 <= i < |w.emitted| && w.emitted[i] == d;
    var j :| 0 <= j < |w.emitted| && w.emitted[j] == e;
    if !cfg.kind.Era? {
      assert cfg.name(i) == cfg.name(j);
    }
  }

  /** Once everything emitted has been relayed in a clean run without donations, the chains agree,
      unless a repeat was stranded. */
  lemma SettledChainsAgree(cfg: Config, actions: seq<Action>)
    requires ValidRun(cfg, actions)
    requires forall a :: a in actions ==> CleanAction(a)
    requires Run(cfg, actions).1.donated == 0
    requires Ids(Run(cfg, actions).0.emitted) <= Run(cfg, actions).0.finalized
    ensures var w := Run(cfg, actions).0;
            w.l1.Balance(cfg.bridge) == w.l2.totalSupply <==> Stranded(w.emitted) == 0
  {
    CleanConservation(cfg, actions);
    var w := Run(cfg, actions).0;
    NothingInFlight(w.emitted, w.finalized);
  }

  lemma {:induction false} NothingInFlight(ds: seq<Deposit>, finalized: set<TransferId>)
    requires Ids(ds) <= finalized
    ensures InFlight(ds, finalized) == 0
    decreases |ds|
  {
    if ds != [] {
      assert ds[|ds| - 1].id in Ids(ds);
      assert Ids(ds[..|ds| - 1]) <= Ids(ds);
      NothingInFlight(ds[..|ds| - 1], finalized);
    }
  }

  lemma Extend(cfg: Config, actions: seq<Action>, a: Action)
    requires ValidRun(cfg, actions) && Enabled(cfg, Run(cfg, actions).0, a)
    ensures ValidRun(cfg, actions + [a])
    ensures Run(cfg, actions + [a]).0 == Step(cfg, Run(cfg, actions).0, a)
  {
    assert (actions + [a])[..|actions|] == actions;
  }

  /** A user funded with `funds` has approved the bridge for all of it. */
  lemma Funded(cfg: Config, user: Address, funds: Word) returns (actions: seq<Action>)
    requires user != cfg.bridge
    ensures ValidRun(cfg, actions) && forall a :: a in actions ==> CleanAction(a)
    ensures Run(cfg, actions).0
         == World(Ledger(funds, map[user := funds], map[(user, cfg.bridge) := funds]), EMPTY, [], {})
  {
    hide Run, ValidRun, Entry, Step;
    actions := [TokenL1(DoMint(user, user, funds)), TokenL1(DoApprove(user, cfg.bridge, funds))];
    TwoTokenCalls(cfg, actions[0], actions[1]);
    FirstMint(cfg, user, funds);
    ThenApprove(cfg, user, funds);
  }

  lemma TwoTokenCalls(cfg: Config, first: Action, second: Action)
    requires first.TokenL1? && first.call.sender != cfg.bridge
    requires second.TokenL1? && second.call.sender != cfg.bridge
    ensures ValidRun(cfg, [first, second])
    ensures Run(cfg, [first, second]).0 == Step(cfg, Step(cfg, START, first), second)
  {
    hide Entry, Step;
    var run := [first, second];
    assert run[..1] == [first] && run[..1][..0] == [];
    assert Run(cfg, []).0 == START && ValidRun(cfg, []);
    assert Run(cfg, run[..1]).0 == Step(cfg, START, first) && ValidRun(cfg, run[..1]);
  }

  lemma OneEmitted(w: World, d: Deposit)
    requires w.emitted == [d]
    ensures Ids(w.emitted) == {d.id} && Bearer(w.emitted, d.id) == d
  {
    assert d in w.emitted;
  }

  lemma FirstMint(cfg: Config, user: Address, funds: Word)
    ensures Step(cfg, START, TokenL1(DoMint(user, user, funds)))
         == World(Ledger(funds, map[user := funds], map[]), EMPTY, [], {})
  {
  }

  lemma ThenApprove(cfg: Config, user: Address, funds: Word)
    ensures Step(cfg, World(Ledger(funds, map[user := funds], map[]), EMPTY, [], {}),
                 TokenL1(DoApprove(user, cfg.bridge, funds)))
         == World(Ledger(funds, map[user := funds], map[(user, cfg.bridge) := funds]), EMPTY, [], {})
  {
  }

  /** MockERC20.burn is open to anyone, and one burn of the escrow leaves the supply uncovered. */
  lemma OpenBurnUncoversSupply(cfg: Config, user: Address)
    requires user != cfg.bridge && cfg.kind.SenderPays?
    ensures exists actions :: ValidRun(cfg, actions)
              && Run(cfg, actions).0.l1.Balance(cfg.bridge) < Run(cfg, actions).0.l2.totalSupply
  {
    hide Run, ValidRun, Entry, Bearer, Ids;
    var actions := Funded(cfg, user, 1);
    var lock, relay, burn := Outbound(user, user, user, 1, 0), Inbound(cfg.counterparty, user, 1, Numbered(cfg.name(0))),
                             TokenL1(DoBurn(user, cfg.bridge, 1));
    Extend(cfg, actions, lock);
    var w := Run(cfg, actions + [lock]).0;
    assert w.emitted == [Deposit(user, user, 1, Numbered(cfg.name(0)))];
    OneEmitted(w, Deposit(user, user, 1, Numbered(cfg.name(0))));
    Extend(cfg, actions + [lock], relay);
    Extend(cfg, actions + [lock] + [relay], burn);
    assert Run(cfg, actions + [lock] + [relay] + [burn]).0.l2.totalSupply == 1;
  }

  lemma TwoEqualEraDeposits(cfg: Config, user: Address) returns (actions: seq<Action>)
    requires user != cfg.bridge && cfg.kind.Era?
    ensures ValidRun(cfg, actions) && forall a :: a in actions ==> CleanAction(a)
    ensures var w, d := Run(cfg, actions).0, Deposit(user, user, 1, EraHash(user, user, 1, 7));
            w.emitted == [d, d] && w.finalized == {} && w.l1.Balance(cfg.bridge) == 2 && w.l2 == EMPTY
  {
    hide Run, ValidRun, Entry;
    var funded := Funded(cfg, user, 2);
    var lock := Outbound(user, user, user, 1, 7);
    Extend(cfg, funded, lock);
    var w := Run(cfg, funded + [lock]).0;
    assert w.l1.Balance(user) == 1 && w.l1.Balance(cfg.bridge) == 1 && w.l1.Allowance(user, cfg.bridge) == 1;
    Extend(cfg, funded + [lock], lock);
    actions := funded + [lock] + [lock];
  }

  /** Two equal zkSync Era deposits in one block: both are escrowed, one can be minted. */
  lemma EqualEraDepositsStrand(cfg: Config, user: Address)
    requires user != cfg.bridge && cfg.kind.Era?
    ensures exists actions :: ValidRun(cfg, actions)
              && (forall a :: a in actions ==> CleanAction(a))
              && Ids(Run(cfg, actions).0.emitted) <= Run(cfg, actions).0.finalized
              && Run(cfg, actions).0.l2.totalSupply < Run(cfg, actions).0.l1.Balance(cfg.bridge)
  {
    hide Run, ValidRun, Entry;
    var actions := TwoEqualEraDeposits(cfg, user);
    var w := Run(cfg, actions).0;
    var relay := Inbound(cfg.counterparty, user, 1, EraHash(user, user, 1, 7));
    assert w.emitted[0] in w.emitted;
    Extend(cfg, actions, relay);
    assert Run(cfg, actions + [relay]).0.l2.totalSupply == 1;
  }
}
