/** The Hyperlane mailbox and its receivers, with the external callback that lets a recipient re-enter. */
module Mailbox {
  import opened Erc20
  import opened MapSum
  import opened Wrappers

  const UINT32_MAX: nat := 0xFFFF_FFFF

  type Domain = x: nat | x <= UINT32_MAX

  /** A message as the mailbox sees it. Its identifier is keccak256 of the raw bytes, taken to be
      injective, so the message stands for its own identifier. Distinct byte strings may decode to equal
      fields (abi.decode ignores trailing bytes); `encoding` keeps such strings apart. */
  datatype Message = Message(
    origin: Domain, sender: nat, dest: Domain, recipient: Address, body: seq<nat>, encoding: nat)

  /** What dispatch hashes. Every field before the body has a fixed width, so the packed form is injective. */
  datatype DispatchId = DispatchId(
    localDomain: Domain, sender: Address, destination: Domain, recipient: nat, nonce: nat, body: seq<nat>)

  /** The code at an address. Foreign is any other contract, hostile ones included. */
  datatype Code =
    | HyperlaneMailbox(localDomain: Domain)
    | HyperlaneReceiver(mailbox: Address)
    | Foreign
    | NoCode

  type Deployment = map<Address, Code>

  function CodeAt(code: Deployment, a: Address): Code {
    if a in code then code[a] else NoCode
  }

  /** One execution of a foreign contract, as a decision tree: what it calls, and how it goes on when that
      call succeeds or fails. Every finite execution, whatever state it consults, is one such tree. A call
      names the tree that foreign code reached through it will execute. */
  datatype Script =
    | Return
    | Revert
    | CallProcess(mailbox: Address, message: Message, recipient: Script, onSuccess: Script, onFailure: Script)
    | CallHandle(target: Address, callee: Script, onSuccess: Script, onFailure: Script)
    | CallDispatch(mailbox: Address, destination: Domain, to: nat, body: seq<nat>, onSuccess: Script, onFailure: Script)

  /** A recipient call made by a mailbox. */
  datatype Delivery = Delivery(mailbox: Address, message: Message)

  /** The storage of all mailboxes and receivers of one chain. `calls` and `dispatched` are the history of
      committed recipient calls and dispatches; a revert erases its part of it. */
  datatype World = World(
    delivered: set<Delivery>,
    received: map<Address, nat>,
    nonce: map<Address, nat>,
    calls: seq<Delivery>,
    dispatched: seq<(Address, DispatchId)>)

  const GENESIS := World({}, map[], map[], [], [])

  // ---------------------------------------------------------------- call semantics, None is a revert

  function Process(code: Deployment, w: World, mailbox: Address, m: Message, recipient: Script): Option<World>
    decreases recipient, 2
  {
    var d := Delivery(mailbox, m);
    if !CodeAt(code, mailbox).HyperlaneMailbox? || m.dest != CodeAt(code, mailbox).localDomain || d in w.delivered then None
    else Handle(code, w.(delivered := w.delivered + {d}, calls := w.calls + [d]), mailbox, m.recipient, recipient)
  }

  /** A call of handle(uint32,bytes32,bytes) at `target`. A mailbox has no such function and no fallback. */
  function Handle(code: Deployment, w: World, caller: Address, target: Address, callee: Script): Option<World>
    decreases callee, 1
  {
    match CodeAt(code, target)
    case HyperlaneReceiver(mailbox) =>
      if caller != mailbox || Get(w.received, target) == UINT256_MAX then None
      else Some(w.(received := w.received[target := Get(w.received, target) + 1]))
    case HyperlaneMailbox(_) => None
    case NoCode => Some(w)
    case Foreign => Execute(code, w, target, callee)
  }

  function Dispatch(code: Deployment, w: World, caller: Address, mailbox: Address,
                    destination: Domain, to: nat, body: seq<nat>): Option<World>
  {
    if !CodeAt(code, mailbox).HyperlaneMailbox? || Get(w.nonce, mailbox) == UINT32_MAX then None
    else
      var n := Get(w.nonce, mailbox) + 1;
      var id := DispatchId(CodeAt(code, mailbox).localDomain, caller, destination, to, n, body);
      Some(w.(nonce := w.nonce[mailbox := n], dispatched := w.dispatched + [(mailbox, id)]))
  }

  function Execute(code: Deployment, w: World, self: Address, s: Script): Option<World>
    decreases s, 0
  {
    match s
    case Return => Some(w)
    case Revert => None
    case CallProcess(mailbox, m, recipient, onSuccess, onFailure) =>
      (match Process(code, w, mailbox, m, recipient)
       case Some(w') => Execute(code, w', self, onSuccess)
       case None => Execute(code, w, self, onFailure))
    case CallHandle(target, callee, onSuccess, onFailure) =>
      (match Handle(code, w, self, target, callee)
       case Some(w') => Execute(code, w', self, onSuccess)
       case None => Execute(code, w, self, onFailure))
    case CallDispatch(mailbox, destination, to, body, onSuccess, onFailure) =>
      (match Dispatch(code, w, self, mailbox, destination, to, body)
       case Some(w') => Execute(code, w', self, onSuccess)
       case None => Execute(code, w, self, onFailure))
  }

  /** A transaction: an account that is neither a mailbox nor a receiver sets a tree of calls going. */
  datatype Transaction = Transaction(from: Address, script: Script)

  function Run(code: Deployment, txs: seq<Transaction>): World {
    if txs == [] then GENESIS
    else
      var w := Run(code, txs[..|txs| - 1]);
      var tx := txs[|txs| - 1];
      Execute(code, w, tx.from, tx.script).GetOr(w)
  }

  ghost predicate Outsider(code: Deployment, a: Address) {
    CodeAt(code, a).Foreign? || CodeAt(code, a).NoCode?
  }

  // ---------------------------------------------------------------- the contracts, writing in place

  class Chain {
    const code: Deployment
    var delivered: set<Delivery>
    var received: map<Address, nat>
    var nonce: map<Address, nat>
    ghost var calls: seq<Delivery>
    ghost var dispatched: seq<(Address, DispatchId)>

    ghost function State(): World
      reads this
    {
      World(delivered, received, nonce, calls, dispatched)
    }

    constructor (code: Deployment)
      ensures this.code == code && State() == GENESIS
    {
      this.code := code;
      delivered, received, nonce, calls, dispatched := {}, map[], map[], [], [];
    }

    /** HyperlaneMailbox.process: the replay flag is written before the recipient is called, so that a
        re-entering recipient finds it set; if the recipient fails, the flag goes with everything else. */
    method ProcessMessage(mailbox: Address, m: Message, recipient: Script) returns (ok: bool)
      modifies this
      ensures ok == Process(code, old(State()), mailbox, m, recipient).Some?
      ensures State() == Process(code, old(State()), mailbox, m, recipient).GetOr(old(State()))
      decreases recipient, 2
    {
      if !CodeAt(code, mailbox).HyperlaneMailbox? || m.dest != CodeAt(code, mailbox).localDomain {
        return false;
      }
      if Delivery(mailbox, m) in delivered {
        return false;
      }
      var savedDelivered := delivered;
      ghost var savedCalls := calls;
      delivered := delivered + {Delivery(mailbox, m)};
      calls := calls + [Delivery(mailbox, m)];
      assert State() == old(State()).(delivered := old(delivered) + {Delivery(mailbox, m)},
                                      calls := old(calls) + [Delivery(mailbox, m)]);
      ok := HandleMessage(mailbox, m.recipient, recipient);
      if !ok {
        delivered := savedDelivered;
        calls := savedCalls;
      }
    }

    method HandleMessage(caller: Address, target: Address, callee: Script) returns (ok: bool)
      modifies this
      ensures ok == Handle(code, old(State()), caller, target, callee).Some?
      ensures State() == Handle(code, old(State()), caller, target, callee).GetOr(old(State()))
      decreases callee, 1
    {
      var targetCode := CodeAt(code, target);
      if targetCode.HyperlaneReceiver? {
        if caller != targetCode.mailbox || Get(received, target) == UINT256_MAX {
          return false;
        }
        received := received[target := Get(received, target) + 1];
        return true;
      }
      if targetCode.HyperlaneMailbox? {
        return false;
      }
      if targetCode.NoCode? {
        return true;
      }
      ok := ExecuteScript(target, callee);
    }

    method DispatchMessage(caller: Address, mailbox: Address, destination: Domain, to: nat, body: seq<nat>) returns (ok: bool)
      modifies this
      ensures ok == Dispatch(code, old(State()), caller, mailbox, destination, to, body).Some?
      ensures State() == Dispatch(code, old(State()), caller, mailbox, destination, to, body).GetOr(old(State()))
    {
      if !CodeAt(code, mailbox).HyperlaneMailbox? || Get(nonce, mailbox) == UINT32_MAX {
        return false;
      }
      nonce := nonce[mailbox := Get(nonce, mailbox) + 1];
      dispatched := dispatched
        + [(mailbox, DispatchId(CodeAt(code, mailbox).localDomain, caller, destination, to, Get(nonce, mailbox), body))];
      return true;
    }

    method ExecuteScript(self: Address, s: Script) returns (ok: bool)
      modifies this
      ensures ok == Execute(code, old(State()), self, s).Some?
      ensures State() == Execute(code, old(State()), self, s).GetOr(old(State()))
      decreases s, 0
    {
      var savedDelivered, savedReceived, savedNonce := delivered, received, nonce;
      ghost var savedCalls, savedDispatched := calls, dispatched;
      match s {
        case Return => return true;
        case Revert => return false;
        case CallProcess(mailbox, m, recipient, onSuccess, onFailure) =>
          ok := ProcessMessage(mailbox, m, recipient);
          ok := ExecuteScript(self, if ok then onSuccess else onFailure);
        case CallHandle(target, callee, onSuccess, onFailure) =>
          ok := HandleMessage(self, target, callee);
          ok := ExecuteScript(self, if ok then onSuccess else onFailure);
        case CallDispatch(mailbox, destination, to, body, onSuccess, onFailure) =>
          ok := DispatchMessage(self, mailbox, destination, to, body);
          ok := ExecuteScript(self, if ok then onSuccess else onFailure);
      }
      if !ok {
        delivered, received, nonce := savedDelivered, savedReceived, savedNonce;
        calls, dispatched := savedCalls, savedDispatched;
      }
    }
  }

  // ---------------------------------------------------------------- the invariant

  /** The messages one mailbox has delivered to one recipient. */
  ghost function DeliveredTo(w: World, mailbox: Address, recipient: Address): set<Delivery> {
    set d | d in w.delivered && d.mailbox == mailbox && d.message.recipient == recipient
  }

  ghost predicate ExactlyOnce(w: World) {
    forall d :: multiset(w.calls)[d] == if d in w.delivered then 1 else 0
  }

  /** A receiver wired to a real mailbox. */
  ghost predicate Wired(code: Deployment, r: Address) {
    && CodeAt(code, r).HyperlaneReceiver?
    && CodeAt(code, CodeAt(code, r).mailbox).HyperlaneMailbox?
  }

  ghost predicate Counted(code: Deployment, w: World) {
    forall r :: Wired(code, r) ==> Get(w.received, r) == |DeliveredTo(w, CodeAt(code, r).mailbox, r)|
  }

  ghost predicate FreshIds(w: World) {
    && (forall i :: 0 <= i < |w.dispatched| ==> w.dispatched[i].1.nonce <= Get(w.nonce, w.dispatched[i].0))
    && (forall i, j :: 0 <= i < j < |w.dispatched| && w.dispatched[i].0 == w.dispatched[j].0 ==>
          w.dispatched[i].1.nonce < w.dispatched[j].1.nonce)
  }

  ghost predicate Sound(code: Deployment, w: World) {
    ExactlyOnce(w) && Counted(code, w) && FreshIds(w)
  }

  /** Nothing committed is ever taken back by a later call. */
  ghost predicate Extends(w: World, w': World) {
    w.delivered <= w'.delivered && w.calls <= w'.calls && w.dispatched <= w'.dispatched
  }

  /** The step in which a mailbox has marked a message and not yet returned from its recipient. */
  lemma MarkKeepsExactlyOnce(w: World, d: Delivery)
    requires ExactlyOnce(w) && d !in w.delivered
    ensures ExactlyOnce(w.(delivered := w.delivered + {d}, calls := w.calls + [d]))
  {
    forall e ensures multiset(w.calls + [d])[e] == if e in w.delivered + {d} then 1 else 0 {
      assert multiset(w.calls)[e] == if e in w.delivered then 1 else 0;
    }
  }

  lemma MarkGrowsOneSet(w: World, d: Delivery, mailbox: Address, r: Address)
    requires d !in w.delivered
    ensures |DeliveredTo(w.(delivered := w.delivered + {d}), mailbox, r)|
         == |DeliveredTo(w, mailbox, r)| + (if d.mailbox == mailbox && d.message.recipient == r then 1 else 0)
  {
    var grown := DeliveredTo(w.(delivered := w.delivered + {d}), mailbox, r);
    if d.mailbox == mailbox && d.message.recipient == r {
      assert grown == DeliveredTo(w, mailbox, r) + {d};
    } else {
      assert grown == DeliveredTo(w, mailbox, r);
    }
  }

  lemma {:induction false} ProcessIsSound(code: Deployment, w: World, mailbox: Address, m: Message, recipient: Script)
    requires Sound(code, w)
    ensures var r := Process(code, w, mailbox, m, recipient);
            r.Some? ==> Sound(code, r.value) && Extends(w, r.value)
    decreases recipient, 2
  {
    var d := Delivery(mailbox, m);
    if Process(code, w, mailbox, m, recipient).Some? {
      var marked := w.(delivered := w.delivered + {d}, calls := w.calls + [d]);
      MarkKeepsExactlyOnce(w, d);
      forall r | Wired(code, r)
        ensures |DeliveredTo(marked, CodeAt(code, r).mailbox, r)| == |DeliveredTo(w, CodeAt(code, r).mailbox, r)|
                + (if CodeAt(code, r).mailbox == mailbox && m.recipient == r then 1 else 0)
      {
        MarkGrowsOneSet(w, d, CodeAt(code, r).mailbox, r);
        assert DeliveredTo(marked, CodeAt(code, r).mailbox, r)
            == DeliveredTo(w.(delivered := w.delivered + {d}), CodeAt(code, r).mailbox, r);
      }
      if CodeAt(code, m.recipient).Foreign? {
        ExecuteIsSound(code, marked, m.recipient, recipient);
      } else if CodeAt(code, m.recipient).HyperlaneReceiver? {
        var after := Handle(code, marked, mailbox, m.recipient, recipient).value;
        forall r | Wired(code, r)
          ensures Get(after.received, r) == |DeliveredTo(after, CodeAt(code, r).mailbox, r)|
        {
          assert DeliveredTo(after, CodeAt(code, r).mailbox, r) == DeliveredTo(marked, CodeAt(code, r).mailbox, r);
        }
      }
    }
  }

  lemma {:induction false} ExecuteIsSound(code: Deployment, w: World, self: Address, s: Script)
    requires Sound(code, w) && Outsider(code, self)
    ensures var r := Execute(code, w, self, s);
            r.Some? ==> Sound(code, r.value) && Extends(w, r.value)
    decreases s, 0
  {
    match s
    case Return =>
    case Revert =>
    case CallProcess(mailbox, m, recipient, onSuccess, onFailure) =>
      ProcessIsSound(code, w, mailbox, m, recipient);
      match Process(code, w, mailbox, m, recipient) {
        case Some(w') => ExecuteIsSound(code, w', self, onSuccess);
        case None => ExecuteIsSound(code, w, self, onFailure);
      }
    case CallHandle(target, callee, onSuccess, onFailure) =>
      OutsideHandleIsSound(code, w, self, target, callee);
      match Handle(code, w, self, target, callee) {
        case Some(w') => ExecuteIsSound(code, w', self, onSuccess);
        case None => ExecuteIsSound(code, w, self, onFailure);
      }
    case CallDispatch(mailbox, destination, to, body, onSuccess, onFailure) =>
      DispatchIsSound(code, w, self, mailbox, destination, to, body);
      match Dispatch(code, w, self, mailbox, destination, to, body) {
        case Some(w') => ExecuteIsSound(code, w', self, onSuccess);
        case None => ExecuteIsSound(code, w, self, onFailure);
      }
  }

  /** An outsider cannot make a wired receiver count. */
  lemma {:induction false} OutsideHandleIsSound(code: Deployment, w: World, caller: Address, target: Address, callee: Script)
    requires Sound(code, w) && Outsider(code, caller)
    ensures var r := Handle(code, w, caller, target, callee);
            r.Some? ==> Sound(code, r.value) && Extends(w, r.value)
    decreases callee, 1
  {
    var r := Handle(code, w, caller, target, callee);
    if CodeAt(code, target).Foreign? {
      ExecuteIsSound(code, w, target, callee);
    } else if CodeAt(code, target).HyperlaneReceiver? && r.Some? {
      forall a | Wired(code, a)
        ensures Get(r.value.received, a) == |DeliveredTo(r.value, CodeAt(code, a).mailbox, a)|
      {
        assert DeliveredTo(r.value, CodeAt(code, a).mailbox, a) == DeliveredTo(w, CodeAt(code, a).mailbox, a);
      }
    }
  }

  lemma DispatchIsSound(code: Deployment, w: World, caller: Address, mailbox: Address,
                        destination: Domain, to: nat, body: seq<nat>)
    requires Sound(code, w)
    ensures var r := Dispatch(code, w, caller, mailbox, destination, to, body);
            r.Some? ==> Sound(code, r.value) && Extends(w, r.value)
  {
    var r := Dispatch(code, w, caller, mailbox, destination, to, body);
    if r.Some? {
      forall a | Wired(code, a)
        ensures Get(r.value.received, a) == |DeliveredTo(r.value, CodeAt(code, a).mailbox, a)|
      {
        assert DeliveredTo(r.value, CodeAt(code, a).mailbox, a) == DeliveredTo(w, CodeAt(code, a).mailbox, a);
      }
    }
  }

  // ---------------------------------------------------------------- main results

  lemma {:induction false} RunIsSound(code: Deployment, txs: seq<Transaction>)
    requires forall tx :: tx in txs ==> Outsider(code, tx.from)
    ensures Sound(code, Run(code, txs))
    decreases |txs|
  {
    if txs == [] {
      assert forall mailbox, r :: DeliveredTo(GENESIS, mailbox, r) == {};
    } else {
      var before, tx := txs[..|txs| - 1], txs[|txs| - 1];
      RunIsSound(code, before);
      assert tx in txs;
      ExecuteIsSound(code, Run(code, before), tx.from, tx.script);
    }
  }

  /** For every sequence of transactions and every tree of calls, re-entrant ones and ones that fail at any
      depth included: a message has exactly one committed recipient call if it is marked delivered and none
      otherwise, a receiver has counted exactly the messages its mailbox delivered to it, and no mailbox has
      issued one dispatch identifier twice. */
  lemma DeliveryIsExactlyOnce(code: Deployment, txs: seq<Transaction>, mailbox: Address, m: Message, receiver: Address)
    requires forall tx :: tx in txs ==> Outsider(code, tx.from)
    ensures var w := Run(code, txs);
      && multiset(w.calls)[Delivery(mailbox, m)] == (if Delivery(mailbox, m) in w.delivered then 1 else 0)
      && (Wired(code, receiver) ==> Get(w.received, receiver) == |DeliveredTo(w, CodeAt(code, receiver).mailbox, receiver)|)
      && forall i, j :: 0 <= i < j < |w.dispatched| ==> w.dispatched[i] != w.dispatched[j]
  {
    RunIsSound(code, txs);
  }

  /** A delivery that is already marked when a tree of calls starts is not made again anywhere in it,
      and one that the tree makes is made once: re-entering with the same message always fails. */
  lemma NoSecondDelivery(code: Deployment, w: World, self: Address, s: Script, d: Delivery)
    requires Sound(code, w) && Outsider(code, self)
    requires Execute(code, w, self, s).Some?
    ensures var w' := Execute(code, w, self, s).value;
      && multiset(w'.calls)[d] <= 1
      && w.calls <= w'.calls
      && (d in w.delivered ==> multiset(w'.calls[|w.calls|..])[d] == 0)
  {
    ExecuteIsSound(code, w, self, s);
    var w' := Execute(code, w, self, s).value;
    assert w'.calls == w.calls + w'.calls[|w.calls|..];
    assert multiset(w'.calls) == multiset(w.calls) + multiset(w'.calls[|w.calls|..]);
    assert multiset(w.calls)[d] == if d in w.delivered then 1 else 0;
    assert multiset(w'.calls)[d] == if d in w'.delivered then 1 else 0;
  }

  /** When a message to a receiver is accepted, and what acceptance changes: exactly the flag, the one
      call and the one count. The receiver may be fed by another mailbox than its own, and then refuses. */
  lemma ReceiverAcceptsExactly(code: Deployment, w: World, mailbox: Address, m: Message, s: Script)
    requires CodeAt(code, m.recipient).HyperlaneReceiver?
    ensures Process(code, w, mailbox, m, s).Some? <==>
            && CodeAt(code, mailbox) == HyperlaneMailbox(m.dest)
            && CodeAt(code, m.recipient) == HyperlaneReceiver(mailbox)
            && Delivery(mailbox, m) !in w.delivered
            && Get(w.received, m.recipient) != UINT256_MAX
    ensures Process(code, w, mailbox, m, s).Some? ==>
            var w' := Process(code, w, mailbox, m, s).value;
            && w' == w.(delivered := w'.delivered, received := w'.received, calls := w'.calls)
            && w'.delivered == w.delivered + {Delivery(mailbox, m)}
            && w'.calls == w.calls + [Delivery(mailbox, m)]
            && (forall r :: Get(w'.received, r) == Get(w.received, r) + if r == m.recipient then 1 else 0)
  {
  }

  /** A recipient that fails leaves no trace: inside one and the same execution, the message can be
      delivered by a second attempt after a first one that reverted. */
  lemma FailedDeliveryCanBeRetried(code: Deployment, w: World, self: Address, mailbox: Address, m: Message, failing: Script)
    requires CodeAt(code, mailbox) == HyperlaneMailbox(m.dest) && CodeAt(code, m.recipient).Foreign?
    requires Delivery(mailbox, m) !in w.delivered
    requires Process(code, w, mailbox, m, failing).None?
    ensures var retry := CallProcess(mailbox, m, Return, Return, Revert);
            Execute(code, w, self, CallProcess(mailbox, m, failing, Return, retry))
            == Some(w.(delivered := w.delivered + {Delivery(mailbox, m)}, calls := w.calls + [Delivery(mailbox, m)]))
  {
    var retry := CallProcess(mailbox, m, Return, Return, Revert);
    var d := Delivery(mailbox, m);
    var marked := w.(delivered := w.delivered + {d}, calls := w.calls + [d]);
    assert Execute(code, marked, m.recipient, Return) == Some(marked);
    assert Process(code, w, mailbox, m, Return) == Some(marked);
    assert Execute(code, w, self, retry) == Execute(code, marked, self, Return);
  }

  /** When a dispatch commits, and the one record it leaves, field by field: nothing else changes but the
      nonce of that mailbox. */
  lemma DispatchExactly(code: Deployment, w: World, caller: Address, mailbox: Address,
                        destination: Domain, to: nat, body: seq<nat>, other: Address)
    ensures Dispatch(code, w, caller, mailbox, destination, to, body).Some? <==>
            CodeAt(code, mailbox).HyperlaneMailbox? && Get(w.nonce, mailbox) != UINT32_MAX
    ensures Dispatch(code, w, caller, mailbox, destination, to, body).Some? ==>
            var w', n := Dispatch(code, w, caller, mailbox, destination, to, body).value, |w.dispatched|;
            && |w'.dispatched| == n + 1 && w'.dispatched[..n] == w.dispatched
            && var (at, id) := w'.dispatched[n];
            && at == mailbox
            && id.localDomain == CodeAt(code, mailbox).localDomain && id.sender == caller
            && id.destination == destination && id.recipient == to && id.body == body
            && id.nonce == Get(w.nonce, mailbox) + 1 == Get(w'.nonce, mailbox)
            && (other != mailbox ==> Get(w'.nonce, other) == Get(w.nonce, other))
            && w'.delivered == w.delivered && w'.received == w.received && w'.calls == w.calls
  {
  }

  /** What a called contract does it does as itself: a message dispatched from within a delivery names the
      recipient of the delivery as its sender, and one dispatched by a transaction its origin. */
  lemma SenderIsWhoCalls(code: Deployment, w: World, mailbox: Address, m: Message, self: Address,
                         through: Address, destination: Domain, to: nat, body: seq<nat>)
    requires CodeAt(code, m.recipient).Foreign?
    ensures var s := CallDispatch(through, destination, to, body, Return, Revert);
      && (Process(code, w, mailbox, m, s).Some? ==>
            var w' := Process(code, w, mailbox, m, s).value;
            |w'.dispatched| == |w.dispatched| + 1 && w'.dispatched[|w.dispatched|].1.sender == m.recipient)
      && (Execute(code, w, self, s).Some? ==>
            var w' := Execute(code, w, self, s).value;
            |w'.dispatched| == |w.dispatched| + 1 && w'.dispatched[|w.dispatched|].1.sender == self)
  {
    var s := CallDispatch(through, destination, to, body, Return, Revert);
    var marked := w.(delivered := w.delivered + {Delivery(mailbox, m)}, calls := w.calls + [Delivery(mailbox, m)]);
    assert Process(code, w, mailbox, m, s).Some? ==>
             Process(code, w, mailbox, m, s) == Handle(code, marked, mailbox, m.recipient, s) == Execute(code, marked, m.recipient, s);
    assert Execute(code, marked, m.recipient, s) == Dispatch(code, marked, m.recipient, through, destination, to, body);
    DispatchExactly(code, marked, m.recipient, through, destination, to, body, through);
    DispatchExactly(code, w, self, through, destination, to, body, through);
  }

  /** After a call the caller goes on where the call left off if it committed, and from where it stood, on its
      failure branch, if not. */
  lemma CallerSeesTheOutcome(code: Deployment, w: World, self: Address, mailbox: Address, m: Message, recipient: Script)
    ensures Execute(code, w, self, CallProcess(mailbox, m, recipient, Return, Revert)) == Process(code, w, mailbox, m, recipient)
    ensures Execute(code, w, self, CallProcess(mailbox, m, recipient, Revert, Return))
         == if Process(code, w, mailbox, m, recipient).Some? then None else Some(w)
  {
  }
}
