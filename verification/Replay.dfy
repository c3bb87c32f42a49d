/** Search, witness check and independent replay of one candidate predicate. */
module Replay {
  import opened Wrappers
  import opened Solidity
  import opened Lowering

  // ---------------------------------------------------------------- requests and witnesses

  /** A JSON scalar, with the text str() gives for it when it is no string. */
  datatype Scalar = JsonText(s: string) | JsonOther(repr: string)

  function Str(j: Scalar): Scalar {
    match j
    case JsonText(_) => j
    case JsonOther(repr) => JsonText(repr)
  }

  /** An entry of symbol_bindings: no object, an object without a textual symbol_id, or a proper one. */
  datatype RawBinding = NotAnObject | Anonymous | Named(binding: Binding)

  /** An action; None marks an absent key, `executable` whether the flag is exactly true. */
  datatype Action = Action(
    actionId: Scalar, executable: bool,
    callerRole: Option<Scalar>, selector: Option<Scalar>, domain: Option<Scalar>, contract: Option<Scalar>)

  datatype Runtime = Runtime(
    mode: string, sourceBacked: bool, testContract: string, sourceDomain: string, destinationDomain: string)

  datatype Identity = Identity(lineageId: string, caseId: string)

  /** The five hashes every witness must carry; None when absent, empty or no string. */
  datatype Hashes = Hashes(
    runtime: Option<string>, artifact: Option<string>, deployment: Option<string>,
    canonicalAst: Option<string>, initialState: Option<string>)
  {
    predicate Complete() {
      runtime.Some? && artifact.Some? && deployment.Some? && canonicalAst.Some? && initialState.Some?
    }
  }

  datatype Request = Request(
    lineageId: string, caseId: string, instanceId: Scalar,
    runtime: Option<Runtime>, hashes: Hashes, candidate: Option<Pred>,
    symbolBindings: Option<seq<RawBinding>>, actions: Option<seq<Action>>, observations: seq<Scalar>,
    identity: Option<Identity>)

  /** What the trace hash is taken over. */
  datatype Trace = Trace(
    runtimeHash: string, canonicalHash: string, candidate: Pred, observations: seq<Scalar>,
    actions: seq<Action>, bindings: seq<Binding>)

  datatype Witness = Witness(
    lineageId: string, caseId: string, instanceId: Scalar, hashes: Hashes, traceHash: string,
    actions: seq<Action>, observations: seq<Scalar>, identity: Option<Identity>,
    candidate: Pred, symbolBindings: seq<Binding>, runtime: Runtime)

  // ---------------------------------------------------------------- symbols and bindings

  /** _collect_symbols */
  function Symbols(e: Pred): set<(string, string)>
    decreases e, 0
  {
    match e
    case Literal(_, _) => {}
    case Symbol(id, state) => {(id, state)}
    case Unary(_, operand) => Symbols(operand)
    case Binary(_, left, right) => Symbols(left) + Symbols(right)
    case Other(_, children) => SymbolsOf(children)
  }

  function SymbolsOf(es: seq<Pred>): set<(string, string)>
    decreases es, 0
  {
    if es == [] then {} else Symbols(es[0]) + SymbolsOf(es[1..])
  }

  /** dict[key] = value: an existing key keeps its position. */
  function Put(d: Dict, key: (string, string), b: Binding): Dict {
    if d == [] then [(key, b)]
    else if d[0].0 == key then [(key, b)] + d[1..]
    else [d[0]] + Put(d[1..], key, b)
  }

  function PutIf(used: bool, d: Dict, key: (string, string), b: Binding): Dict {
    if used then Put(d, key, b) else d
  }

  function Absorb(d: Dict, raw: RawBinding, symbols: set<(string, string)>): Dict {
    match raw
    case Named(b) =>
      var d1 := PutIf((b.symbolId, "pre") in symbols, d, (b.symbolId, "pre"), b);
      PutIf((b.symbolId, "post") in symbols, d1, (b.symbolId, "post"), b)
    case _ => d
  }

  function Build(raw: seq<RawBinding>, symbols: set<(string, string)>): Dict {
    if raw == [] then [] else Absorb(Build(raw[..|raw| - 1], symbols), raw[|raw| - 1], symbols)
  }

  function DictValues(d: Dict): seq<Binding> {
    if d == [] then [] else [d[0].1] + DictValues(d[1..])
  }

  function Wrapped(bs: seq<Binding>): seq<RawBinding> {
    if bs == [] then [] else Wrapped(bs[..|bs| - 1]) + [Named(bs[|bs| - 1])]
  }

  /** The nested loops of _prepare; None when an entry is no object. */
  method CollectBindings(raw: seq<RawBinding>, symbols: set<(string, string)>) returns (bindings: Option<Dict>)
    ensures bindings == if NotAnObject in raw then None else Some(Build(raw, symbols))
  {
    var d: Dict := [];
    var n := 0;
    while n < |raw|
      invariant 0 <= n <= |raw|
      invariant d == Build(raw[..n], symbols)
      invariant NotAnObject !in raw[..n]
    {
      if raw[n].NotAnObject? {
        return None;
      }
      ghost var before := d;
      if raw[n].Named? {
        var b := raw[n].binding;
        var states := ["pre", "post"];
        var k := 0;
        while k < 2
          invariant 0 <= k <= 2
          invariant k == 0 ==> d == before
          invariant k == 1 ==> d == PutIf((b.symbolId, "pre") in symbols, before, (b.symbolId, "pre"), b)
          invariant k == 2 ==> d == Absorb(before, raw[n], symbols)
        {
          if (b.symbolId, states[k]) in symbols {
            d := Put(d, (b.symbolId, states[k]), b);
          }
          k := k + 1;
        }
      }
      assert raw[..n + 1][..n] == raw[..n];
      assert forall r :: r in raw[..n + 1] <==> r in raw[..n] || r == raw[n];
      n := n + 1;
    }
    assert raw[..n] == raw;
    return Some(d);
  }

  // ---------------------------------------------------------------- rebuilding the dictionary from its values

  /** The bindings in use, one per symbol id: first position, last value. */
  function Upsert(gs: seq<Binding>, b: Binding): seq<Binding> {
    if gs == [] then [b]
    else if gs[0].symbolId == b.symbolId then [b] + gs[1..]
    else [gs[0]] + Upsert(gs[1..], b)
  }

  predicate Used(id: string, symbols: set<(string, string)>) {
    (id, "pre") in symbols || (id, "post") in symbols
  }

  function Groups(raw: seq<RawBinding>, symbols: set<(string, string)>): seq<Binding> {
    if raw == [] then []
    else
      var before, last := Groups(raw[..|raw| - 1], symbols), raw[|raw| - 1];
      if last.Named? && Used(last.binding.symbolId, symbols) then Upsert(before, last.binding) else before
  }

  function Entries(b: Binding, symbols: set<(string, string)>): Dict {
    (if (b.symbolId, "pre") in symbols then [((b.symbolId, "pre"), b)] else [])
    + (if (b.symbolId, "post") in symbols then [((b.symbolId, "post"), b)] else [])
  }

  function Flat(gs: seq<Binding>, symbols: set<(string, string)>): Dict {
    if gs == [] then [] else Entries(gs[0], symbols) + Flat(gs[1..], symbols)
  }

  ghost predicate DistinctIds(gs: seq<Binding>) {
    forall i, j :: 0 <= i < j < |gs| ==> gs[i].symbolId != gs[j].symbolId
  }

  ghost predicate AllUsed(gs: seq<Binding>, symbols: set<(string, string)>) {
    forall i :: 0 <= i < |gs| ==> Used(gs[i].symbolId, symbols)
  }

  lemma {:induction false} PutSkips(a: Dict, d: Dict, key: (string, string), b: Binding)
    requires forall i :: 0 <= i < |a| ==> a[i].0 != key
    ensures Put(a + d, key, b) == a + Put(d, key, b)
    decreases |a|
  {
    if a == [] {
      assert a + d == d;
      assert a + Put(d, key, b) == Put(d, key, b);
    } else {
      assert (a + d)[1..] == a[1..] + d;
      PutSkips(a[1..], d, key, b);
      assert [a[0]] + (a[1..] + Put(d, key, b)) == a + Put(d, key, b);
    }
  }

  lemma {:induction false} AbsorbIsUpsert(gs: seq<Binding>, b: Binding, symbols: set<(string, string)>)
    requires Used(b.symbolId, symbols)
    ensures Absorb(Flat(gs, symbols), Named(b), symbols) == Flat(Upsert(gs, b), symbols)
    decreases |gs|
  {
    var pre, post := (b.symbolId, "pre"), (b.symbolId, "post");
    if gs == [] {
      AbsorbAtFront([], b, [], symbols);
      assert Flat([b], symbols) == Entries(b, symbols) + [];
    } else if gs[0].symbolId == b.symbolId {
      AbsorbAtFront(Entries(gs[0], symbols), b, Flat(gs[1..], symbols), symbols);
      assert ([b] + gs[1..])[1..] == gs[1..];
    } else {
      var head, rest := Entries(gs[0], symbols), Flat(gs[1..], symbols);
      var rest1 := PutIf(pre in symbols, rest, pre, b);
      PutSkips(head, rest, pre, b);
      PutSkips(head, rest1, post, b);
      AbsorbIsUpsert(gs[1..], b, symbols);
      assert ([gs[0]] + Upsert(gs[1..], b))[1..] == Upsert(gs[1..], b);
    }
  }

  /** Absorbing at the place where the id already stands, or at the end. */
  lemma AbsorbAtFront(here: Dict, b: Binding, rest: Dict, symbols: set<(string, string)>)
    requires (here == [] && rest == []) || exists g: Binding :: g.symbolId == b.symbolId && here == Entries(g, symbols)
    ensures Absorb(here + rest, Named(b), symbols) == Entries(b, symbols) + rest
  {
    hide Absorb, Entries;
    if here == [] && rest == [] {
      assert here + rest == [];
      AbsorbIntoNothing(b, symbols);
      assert Entries(b, symbols) + [] == Entries(b, symbols);
    } else {
      var g: Binding :| g.symbolId == b.symbolId && here == Entries(g, symbols);
      AbsorbOver(g, b, rest, symbols);
    }
  }

  lemma AbsorbIntoNothing(b: Binding, symbols: set<(string, string)>)
    ensures Absorb([], Named(b), symbols) == Entries(b, symbols)
  {
    var pre, post := (b.symbolId, "pre"), (b.symbolId, "post");
    PutSkips([(pre, b)], [], post, b);
    assert [(pre, b)] + [] == [(pre, b)];
  }

  lemma PutFirst(key: (string, string), g: Binding, b: Binding, rest: Dict)
    ensures Put([(key, g)] + rest, key, b) == [(key, b)] + rest
  {
    assert ([(key, g)] + rest)[1..] == rest;
  }

  lemma AbsorbOver(g: Binding, b: Binding, rest: Dict, symbols: set<(string, string)>)
    requires g.symbolId == b.symbolId
    ensures Absorb(Entries(g, symbols) + rest, Named(b), symbols) == Entries(b, symbols) + rest
  {
    hide Put;
    var pre, post := (b.symbolId, "pre"), (b.symbolId, "post");
    var here := Entries(g, symbols);
    if pre in symbols && post in symbols {
      assert here + rest == [(pre, g)] + ([(post, g)] + rest);
      PutFirst(pre, g, b, [(post, g)] + rest);
      PutSkips([(pre, b)], [(post, g)] + rest, post, b);
      PutFirst(post, g, b, rest);
      assert Entries(b, symbols) + rest == [(pre, b)] + ([(post, b)] + rest);
    } else if pre in symbols {
      assert here == [(pre, g)] && Entries(b, symbols) == [(pre, b)];
      PutFirst(pre, g, b, rest);
    } else if post in symbols {
      assert here == [(post, g)] && Entries(b, symbols) == [(post, b)];
      PutFirst(post, g, b, rest);
    }
  }

  lemma {:induction false} BuildIsFlat(raw: seq<RawBinding>, symbols: set<(string, string)>)
    ensures Build(raw, symbols) == Flat(Groups(raw, symbols), symbols)
    ensures DistinctIds(Groups(raw, symbols)) && AllUsed(Groups(raw, symbols), symbols)
    decreases |raw|
  {
    if raw != [] {
      var before, last := raw[..|raw| - 1], raw[|raw| - 1];
      BuildIsFlat(before, symbols);
      if last.Named? && Used(last.binding.symbolId, symbols) {
        AbsorbIsUpsert(Groups(before, symbols), last.binding, symbols);
        UpsertKeepsShape(Groups(before, symbols), last.binding, symbols);
      }
    }
  }

  lemma {:induction false} UpsertKeepsShape(gs: seq<Binding>, b: Binding, symbols: set<(string, string)>)
    requires DistinctIds(gs) && AllUsed(gs, symbols) && Used(b.symbolId, symbols)
    ensures var us := Upsert(gs, b);
      && DistinctIds(us) && AllUsed(us, symbols)
      && (forall u :: u in us ==> u == b || u in gs)
    decreases |gs|
  {
    if gs != [] && gs[0].symbolId != b.symbolId {
      UpsertKeepsShape(gs[1..], b, symbols);
      var us := Upsert(gs, b);
      forall j | 1 <= j < |us| ensures us[0].symbolId != us[j].symbolId {
        assert us[j] in Upsert(gs[1..], b);
      }
      forall u | u in us ensures u == b || u in gs {
        assert u == gs[0] || u in Upsert(gs[1..], b);
      }
      forall i, j | 0 <= i < j < |us| ensures us[i].symbolId != us[j].symbolId {
        if i > 0 {
          assert us[i] == Upsert(gs[1..], b)[i - 1] && us[j] == Upsert(gs[1..], b)[j - 1];
        }
      }
    }
  }

  lemma {:induction false} UpsertAppends(gs: seq<Binding>, b: Binding)
    requires forall g :: g in gs ==> g.symbolId != b.symbolId
    ensures Upsert(gs, b) == gs + [b]
    ensures Upsert(gs + [b], b) == gs + [b]
    decreases |gs|
  {
    if gs != [] {
      UpsertAppends(gs[1..], b);
      assert (gs + [b])[1..] == gs[1..] + [b];
    }
  }

  lemma {:induction false} ValuesConcat(a: Dict, b: Dict)
    ensures DictValues(a + b) == DictValues(a) + DictValues(b)
    decreases |a|
  {
    if a == [] {
      assert a + b == b;
    } else {
      assert (a + b)[1..] == a[1..] + b;
      ValuesConcat(a[1..], b);
    }
  }

  lemma {:induction false} FlatConcat(a: seq<Binding>, b: seq<Binding>, symbols: set<(string, string)>)
    ensures Flat(a + b, symbols) == Flat(a, symbols) + Flat(b, symbols)
    decreases |a|
  {
    if a == [] {
      assert a + b == b;
    } else {
      assert (a + b)[1..] == a[1..] + b;
      FlatConcat(a[1..], b, symbols);
    }
  }

  lemma GroupsStep(bs: seq<Binding>, b: Binding, symbols: set<(string, string)>)
    requires Used(b.symbolId, symbols)
    ensures Groups(Wrapped(bs + [b]), symbols) == Upsert(Groups(Wrapped(bs), symbols), b)
  {
    assert (bs + [b])[..|bs|] == bs;
    var w := Wrapped(bs + [b]);
    assert w[..|w| - 1] == Wrapped(bs);
  }

  lemma {:induction false} GroupsOfValues(gs: seq<Binding>, symbols: set<(string, string)>)
    requires DistinctIds(gs) && AllUsed(gs, symbols)
    ensures Groups(Wrapped(DictValues(Flat(gs, symbols))), symbols) == gs
    decreases |gs|
  {
    if gs != [] {
      var before, g := gs[..|gs| - 1], gs[|gs| - 1];
      assert gs == before + [g];
      GroupsOfValues(before, symbols);
      FlatConcat(before, [g], symbols);
      ValuesConcat(Flat(before, symbols), Flat([g], symbols));
      var values := DictValues(Flat(before, symbols));
      assert Flat([g], symbols) == Entries(g, symbols) + [];
      assert Flat([g], symbols) == Entries(g, symbols);
      UpsertAppends(before, g);
      GroupsStep(values, g, symbols);
      if (g.symbolId, "pre") in symbols && (g.symbolId, "post") in symbols {
        var entries := Entries(g, symbols);
        assert entries[1..] == [((g.symbolId, "post"), g)];
        assert DictValues(entries[1..]) == [g];
        assert DictValues(entries) == [g, g];
        assert values + [g, g] == values + [g] + [g];
        GroupsStep(values + [g], g, symbols);
      } else {
        assert DictValues(Entries(g, symbols)) == [g];
      }
    }
  }

  /** The dictionary rebuilt from its own values is the same dictionary, order included, also when a symbol
      is read in both states and its binding is therefore listed twice. */
  lemma RebuildingIsIdempotent(raw: seq<RawBinding>, symbols: set<(string, string)>)
    ensures Build(Wrapped(DictValues(Build(raw, symbols))), symbols) == Build(raw, symbols)
  {
    var gs := Groups(raw, symbols);
    BuildIsFlat(raw, symbols);
    GroupsOfValues(gs, symbols);
    BuildIsFlat(Wrapped(DictValues(Build(raw, symbols))), symbols);
  }

  /** What the dictionary holds: for every symbol in use, the last binding listed for its id. */
  function LastFor(raw: seq<RawBinding>, id: string): Option<Binding> {
    if raw == [] then None
    else
      var last := raw[|raw| - 1];
      if last.Named? && last.binding.symbolId == id then Some(last.binding) else LastFor(raw[..|raw| - 1], id)
  }

  lemma {:induction false} FindAfterPut(d: Dict, key: (string, string), b: Binding, other: (string, string))
    ensures Find(Put(d, key, b), other) == if other == key then Some(b) else Find(d, other)
    decreases |d|
  {
    if d != [] && d[0].0 != key {
      FindAfterPut(d[1..], key, b, other);
      assert ([d[0]] + Put(d[1..], key, b))[1..] == Put(d[1..], key, b);
    } else if d != [] {
      assert ([(key, b)] + d[1..])[1..] == d[1..];
    }
  }

  lemma {:induction false} BuildHoldsLast(raw: seq<RawBinding>, symbols: set<(string, string)>, id: string, state: string)
    requires state == "pre" || state == "post"
    ensures Find(Build(raw, symbols), (id, state)) == if (id, state) in symbols then LastFor(raw, id) else None
    decreases |raw|
  {
    if raw != [] {
      var before, last := raw[..|raw| - 1], raw[|raw| - 1];
      BuildHoldsLast(before, symbols, id, state);
      if last.Named? {
        var b, d := last.binding, Build(before, symbols);
        FindAfterPut(d, (b.symbolId, "pre"), b, (id, state));
        FindAfterPut(PutIf((b.symbolId, "pre") in symbols, d, (b.symbolId, "pre"), b), (b.symbolId, "post"), b, (id, state));
      }
    }
  }

  // ---------------------------------------------------------------- search, witness check, replay

  datatype Status = HarnessPass | HarnessTimeout | HarnessToolError | HarnessFail(marker: bool)

  /** The parts of a generated test that vary: the predicate (which names the file), the captures by symbol
      id (emitted in sorted order), and the required condition. */
  datatype Test = Test(candidate: Pred, captures: map<string, (string, seq<Token>)>, condition: seq<Token>)

  /** The harness is a deterministic function of the workspace and the test. The trace hash and the shortened
      digest are arbitrary functions. */
  datatype Environment = Environment(
    harness: (string, Test) -> Status, traceHash: Trace -> string, digest: string -> string, usable: string -> bool)

  datatype Preparation = Ready(bindings: Dict) | Unsupported | BadInput

  /** _prepare */
  function Prepare(r: Request, workspace: string, env: Environment): Preparation {
    if r.lineageId != "across" || r.runtime.None? || r.runtime.value.mode != "source_backed_local_evm"
       || !r.runtime.value.sourceBacked || r.runtime.value.testContract != "AcrossSourceBackedHarnessTest" then Unsupported
    else if !env.usable(workspace) || r.identity != Some(Identity(r.lineageId, r.caseId)) then BadInput
    else if r.candidate.None? then BadInput
    else if r.candidate.value.Other? && (r.candidate.value.kind == "temporal" || r.candidate.value.kind == "quantifier") then Unsupported
    else if Symbols(r.candidate.value) == {} && !r.candidate.value.Literal? then BadInput
    else if r.symbolBindings.None? || NotAnObject in r.symbolBindings.value then BadInput
    else
      var d := Build(r.symbolBindings.value, Symbols(r.candidate.value));
      if exists key :: key in Symbols(r.candidate.value) && Find(d, key).None? then Unsupported else Ready(d)
  }

  function PreReads(e: Pred): set<string> {
    set key | key in Symbols(e) && key.1 == "pre" :: key.0
  }

  function Context(r: Request, d: Dict, env: Environment): Lowering.Prepared
    requires r.runtime.Some?
  {
    Lowering.Prepared(d, r.runtime.value.destinationDomain, env.digest)
  }

  /** _candidate_source; None when some part is unsupported. */
  function CandidateSource(r: Request, d: Dict, env: Environment): Option<Test>
    requires r.runtime.Some? && r.candidate.Some?
  {
    var e, p := r.candidate.value, Context(r, d, env);
    if Text(e, p).None? then None
    else if exists id :: id in PreReads(e) && (BindingFor(d, id, "pre").None? || ValueText(BindingFor(d, id, "pre").value, p).None?) then None
    else
      Some(Test(e, map id | id in PreReads(e) ::
                     (BindingFor(d, id, "pre").value.symbolType, ValueText(BindingFor(d, id, "pre").value, p).value),
                Text(e, p).value))
  }

  /** by_id: the last action with that id. */
  function ActionById(actions: seq<Action>, id: string): Option<Action> {
    if actions == [] then None
    else if actions[|actions| - 1].actionId == JsonText(id) then Some(actions[|actions| - 1])
    else ActionById(actions[..|actions| - 1], id)
  }

  function WitnessAction(actions: seq<Action>, id: string): Option<Action> {
    match ActionById(actions, id)
    case None => None
    case Some(a) =>
      if !a.executable || a.callerRole.None? || a.selector.None? || a.domain.None? || a.contract.None? then None
      else
        Some(Action(JsonText(id), true, Some(Str(a.callerRole.value)), Some(Str(a.selector.value)),
                    Some(Str(a.domain.value)), Some(Str(a.contract.value))))
  }

  /** _witness; None when it raises. */
  function MakeWitness(r: Request, d: Dict, env: Environment): Option<Witness>
    requires r.runtime.Some? && r.candidate.Some?
  {
    if r.actions.None? || !r.hashes.Complete() then None
    else
      match (WitnessAction(r.actions.value, "action:001"), WitnessAction(r.actions.value, "action:003"))
      case (Some(deposit), Some(fill)) =>
        var actions := [deposit, fill];
        var trace := Trace(r.hashes.runtime.value, r.hashes.canonicalAst.value, r.candidate.value, r.observations, actions, DictValues(d));
        Some(Witness(r.lineageId, r.caseId, r.instanceId, r.hashes, env.traceHash(trace), actions, r.observations,
                     r.identity, r.candidate.value, DictValues(d), r.runtime.value))
      case _ => None
  }

  /** What search reports. Sat carries the witness. Aborted: the witness could not be built. */
  datatype SearchResult = Sat(found: Witness) | BoundedUnsat | SearchTimeout | SearchUnsupported | SearchUnknown | Crash | Aborted

  function Search(r: Request, workspace: string, env: Environment): SearchResult {
    match Prepare(r, workspace, env)
    case Unsupported => SearchUnsupported
    case BadInput => SearchUnknown
    case Ready(d) =>
      match CandidateSource(r, d, env)
      case None => SearchUnsupported
      case Some(test) =>
        match env.harness(workspace, test)
        case HarnessTimeout => SearchTimeout
        case HarnessToolError => SearchUnsupported
        case HarnessPass => (match MakeWitness(r, d, env) case None => Aborted case Some(w) => Sat(w))
        case HarnessFail(marker) => if marker then BoundedUnsat else Crash
  }

  /** _witness refuses the request, with an error the replay catches; a missing key of an action is another. */
  predicate Refuses(r: Request) {
    || r.actions.None? || !r.hashes.Complete()
    || !IsExecutable(r.actions.value, "action:001") || !IsExecutable(r.actions.value, "action:003")
  }

  predicate IsExecutable(actions: seq<Action>, id: string) {
    ActionById(actions, id).Some? && ActionById(actions, id).value.executable
  }

  datatype ReplayResult = ReplayPass | ReplayFail | ReplayUnknown | ReplayUnsupported | ReplayAborted

  /** What both checks do; `catches` is whether errors of _witness are caught. */
  function Confirm(r: Request, traceHash: string, workspace: string, env: Environment, catches: bool): ReplayResult {
    match Prepare(r, workspace, env)
    case Ready(d) =>
      (match CandidateSource(r, d, env)
       case None => ReplayUnsupported
       case Some(test) =>
         var status := env.harness(workspace, test);
         match MakeWitness(r, d, env)
         case None => if catches && Refuses(r) then ReplayUnsupported else ReplayAborted
         case Some(expected) =>
           if traceHash != expected.traceHash then ReplayFail
           else if status == HarnessPass then ReplayPass
           else if status == HarnessTimeout then ReplayUnknown
           else ReplayFail)
    case _ => ReplayUnsupported
  }

  /** _witness_check: against the original request. */
  function WitnessCheck(r: Request, w: Witness, workspace: string, env: Environment): ReplayResult {
    Confirm(r, w.traceHash, workspace, env, false)
  }

  /** The request _replay rebuilds from a witness alone. */
  function Rebuilt(w: Witness): Request {
    Request(w.lineageId, w.caseId, w.instanceId, Some(w.runtime), w.hashes, Some(w.candidate),
            Some(Wrapped(w.symbolBindings)), Some(w.actions), w.observations, w.identity)
  }

  /** _replay: a witness without bindings is refused. */
  function IndependentReplay(w: Witness, workspace: string, env: Environment): ReplayResult {
    if w.symbolBindings == [] then ReplayUnknown else Confirm(Rebuilt(w), w.traceHash, workspace, env, true)
  }

  // ---------------------------------------------------------------- main result

  lemma {:induction false} WrappedHasNoJunk(bs: seq<Binding>)
    ensures NotAnObject !in Wrapped(bs)
    decreases |bs|
  {
    if bs != [] {
      WrappedHasNoJunk(bs[..|bs| - 1]);
    }
  }

  lemma WitnessActionsSettle(actions: seq<Action>)
    requires WitnessAction(actions, "action:001").Some? && WitnessAction(actions, "action:003").Some?
    ensures var ws := [WitnessAction(actions, "action:001").value, WitnessAction(actions, "action:003").value];
      && WitnessAction(ws, "action:001") == WitnessAction(actions, "action:001")
      && WitnessAction(ws, "action:003") == WitnessAction(actions, "action:003")
  {
    var a, b := WitnessAction(actions, "action:001").value, WitnessAction(actions, "action:003").value;
    assert "action:001"[9] != "action:003"[9];
    assert [a, b][..1] == [a];
    assert ActionById([a, b], "action:003") == Some(b);
    assert ActionById([a, b], "action:001") == ActionById([a], "action:001") == Some(a);
  }

  /** The request rebuilt from a witness prepares to the same dictionary, yields the same generated test and
      the same trace hash. */
  lemma RebuiltIsTheSame(r: Request, workspace: string, env: Environment, d: Dict, w: Witness)
    requires Prepare(r, workspace, env) == Ready(d) && MakeWitness(r, d, env) == Some(w)
    ensures Prepare(Rebuilt(w), workspace, env) == Ready(d)
    ensures CandidateSource(Rebuilt(w), d, env) == CandidateSource(r, d, env)
    ensures MakeWitness(Rebuilt(w), d, env) == Some(w)
  {
    hide Text, ValueText, BindingFor, Build, DictValues, WitnessAction;
    var raw, symbols := r.symbolBindings.value, Symbols(r.candidate.value);
    RebuildingIsIdempotent(raw, symbols);
    WrappedHasNoJunk(DictValues(d));
    WitnessActionsSettle(r.actions.value);
  }

  /** A witness that search emits is a fixed point: the witness check passes on it, and the independent replay
      passes exactly when the predicate reads a symbol at all; a bare literal has no bindings to replay from. */
  lemma WitnessReplays(r: Request, workspace: string, env: Environment)
    requires Search(r, workspace, env).Sat?
    ensures var w := Search(r, workspace, env).found;
      && WitnessCheck(r, w, workspace, env) == ReplayPass
      && (IndependentReplay(w, workspace, env) == ReplayPass <==> Symbols(w.candidate) != {})
      && (Symbols(w.candidate) == {} ==> IndependentReplay(w, workspace, env) == ReplayUnknown)
  {
    hide CandidateSource, MakeWitness, Symbols;
    var d := Prepare(r, workspace, env).bindings;
    var w := MakeWitness(r, d, env).value;
    RebuiltIsTheSame(r, workspace, env, d, w);
    WitnessKeeps(r, d, env);
    BindingsExactlyWhenSymbols(r.symbolBindings.value, Symbols(r.candidate.value));
    if Symbols(w.candidate) != {} {
      var key :| key in Symbols(w.candidate);
      assert Find(d, key).Some?;
      FoundMeansNonempty(d, key);
    }
  }

  lemma WitnessKeeps(r: Request, d: Dict, env: Environment)
    requires r.runtime.Some? && r.candidate.Some? && MakeWitness(r, d, env).Some?
    ensures var w := MakeWitness(r, d, env).value;
            w.candidate == r.candidate.value && w.symbolBindings == DictValues(d)
  {
  }

  lemma FoundMeansNonempty(d: Dict, key: (string, string))
    requires Find(d, key).Some?
    ensures DictValues(d) != []
  {
  }

  lemma {:induction false} BindingsExactlyWhenSymbols(raw: seq<RawBinding>, symbols: set<(string, string)>)
    ensures symbols == {} ==> Build(raw, symbols) == []
    decreases |raw|
  {
    if raw != [] {
      BindingsExactlyWhenSymbols(raw[..|raw| - 1], symbols);
    }
  }

  // ---------------------------------------------------------------- a predicate without symbols

  function SampleAction(id: string): Action {
    Action(JsonText(id), true, Some(JsonText("role")), Some(JsonText("selector")), Some(JsonText("domain")), Some(JsonText("contract")))
  }

  const SAMPLE_HASHES := Hashes(Some("runtime"), Some("artifact"), Some("deployment"), Some("ast"), Some("state"))

  /** A request for the predicate `false`. */
  const SAMPLE := Request(
    "across", "case", JsonText("instance"),
    Some(Runtime("source_backed_local_evm", true, "AcrossSourceBackedHarnessTest", "source", "destination")), SAMPLE_HASHES,
    Some(Literal("bool", JBool(false))), Some([]), Some([SampleAction("action:001"), SampleAction("action:003")]), [],
    Some(Identity("across", "case")))

  /** Its witness passes the witness check, and the replay of that very witness is refused. */
  lemma LiteralWitnessIsRefused(workspace: string, env: Environment)
    requires env.usable(workspace) && forall test :: env.harness(workspace, test) == HarnessPass
    ensures Search(SAMPLE, workspace, env).Sat?
    ensures var w := Search(SAMPLE, workspace, env).found;
            WitnessCheck(SAMPLE, w, workspace, env) == ReplayPass && IndependentReplay(w, workspace, env) == ReplayUnknown
  {
    SampleIsReady(workspace, env);
    SampleHasWitness(env);
    WitnessReplays(SAMPLE, workspace, env);
  }

  lemma SampleIsReady(workspace: string, env: Environment)
    requires env.usable(workspace)
    ensures Prepare(SAMPLE, workspace, env) == Ready([])
    ensures CandidateSource(SAMPLE, [], env).Some?
  {
    assert Symbols(SAMPLE.candidate.value) == {} && PreReads(SAMPLE.candidate.value) == {};
  }

  lemma SampleHasWitness(env: Environment)
    ensures MakeWitness(SAMPLE, [], env).Some? && MakeWitness(SAMPLE, [], env).value.candidate == Literal("bool", JBool(false))
  {
    var actions := SAMPLE.actions.value;
    assert "action:001"[9] != "action:003"[9];
    assert actions[..1] == [SampleAction("action:001")];
    assert ActionById(actions[..1], "action:001") == Some(SampleAction("action:001"));
    assert ActionById(actions, "action:003") == Some(SampleAction("action:003"));
  }

  // ---------------------------------------------------------------- what a symbol and a witness carry

  /** Each symbol read is lowered with the last binding listed for it. */
  lemma SymbolsGetTheirLastBinding(raw: seq<RawBinding>, symbols: set<(string, string)>, id: string, state: string)
    requires (id, state) in symbols && (state == "pre" || state == "post")
    ensures LastFor(raw, id).Some? ==> BindingFor(Build(raw, symbols), id, state) == LastFor(raw, id)
  {
    BuildHoldsLast(raw, symbols, id, state);
  }

  /** The later of two bindings of one symbol counts, wherever it stands. */
  lemma {:induction false} LastForFindsTheLast(front: seq<RawBinding>, b: Binding, back: seq<RawBinding>)
    requires forall r :: r in back && r.Named? ==> r.binding.symbolId != b.symbolId
    ensures LastFor(front + [Named(b)] + back, b.symbolId) == Some(b)
    decreases |back|
  {
    var all := front + [Named(b)] + back;
    if back == [] {
      assert all[|all| - 1] == Named(b);
    } else {
      assert all[..|all| - 1] == front + [Named(b)] + back[..|back| - 1] && all[|all| - 1] == back[|back| - 1];
      assert back[|back| - 1] in back;
      LastForFindsTheLast(front, b, back[..|back| - 1]);
    }
  }

  /** Field by field, what a witness takes over from the request, and what its trace hash is taken over. */
  lemma WitnessCarriesTheRequest(r: Request, d: Dict, env: Environment)
    requires r.runtime.Some? && r.candidate.Some? && MakeWitness(r, d, env).Some?
    ensures var w := MakeWitness(r, d, env).value;
      && w.lineageId == r.lineageId && w.caseId == r.caseId && w.instanceId == r.instanceId
      && w.hashes == r.hashes && r.hashes.Complete()
      && w.observations == r.observations && w.identity == r.identity && w.runtime == r.runtime.value
      && w.candidate == r.candidate.value && w.symbolBindings == DictValues(d)
      && w.traceHash == env.traceHash(Trace(r.hashes.runtime.value, r.hashes.canonicalAst.value, r.candidate.value,
                                            r.observations, w.actions, DictValues(d)))
      && |w.actions| == 2
      && Describes(w.actions[0], r.actions.value, "action:001") && Describes(w.actions[1], r.actions.value, "action:003")
  {
  }

  /** The action of a witness: an executable one of the request, its fields as texts. */
  ghost predicate Describes(a: Action, actions: seq<Action>, id: string) {
    && ActionById(actions, id).Some?
    && var of := ActionById(actions, id).value;
    && of.executable && of.callerRole.Some? && of.selector.Some? && of.domain.Some? && of.contract.Some?
    && a.actionId == JsonText(id) && a.executable
    && a.callerRole == Some(Str(of.callerRole.value)) && a.selector == Some(Str(of.selector.value))
    && a.domain == Some(Str(of.domain.value)) && a.contract == Some(Str(of.contract.value))
  }

  /** What search reports, by how the harness ends: the marker in the output alone tells a predicate that held
      from a crash. */
  lemma SearchReports(r: Request, workspace: string, env: Environment)
    requires Prepare(r, workspace, env).Ready? && CandidateSource(r, Prepare(r, workspace, env).bindings, env).Some?
    ensures var result := Search(r, workspace, env);
            var status := env.harness(workspace, CandidateSource(r, Prepare(r, workspace, env).bindings, env).value);
      && (result.Sat? || result.Aborted? <==> status == HarnessPass)
      && (result.BoundedUnsat? <==> status == HarnessFail(true))
      && (result.Crash? <==> status == HarnessFail(false))
      && (result.SearchTimeout? <==> status == HarnessTimeout)
      && (result.SearchUnsupported? <==> status == HarnessToolError)
  {
  }

  // ---------------------------------------------------------------- which requests and witnesses are taken

  lemma {:induction false} OnlyTwoStates(raw: seq<RawBinding>, symbols: set<(string, string)>, key: (string, string))
    requires key.1 != "pre" && key.1 != "post"
    ensures Find(Build(raw, symbols), key) == None
    decreases |raw|
  {
    hide Put;
    if raw != [] {
      var before, last := raw[..|raw| - 1], raw[|raw| - 1];
      OnlyTwoStates(before, symbols, key);
      if last.Named? {
        var b, d := last.binding, Build(before, symbols);
        FindAfterPut(d, (b.symbolId, "pre"), b, key);
        FindAfterPut(PutIf((b.symbolId, "pre") in symbols, d, (b.symbolId, "pre"), b), (b.symbolId, "post"), b, key);
      }
    }
  }

  /** A symbol read in one of the two states for which some binding is listed. */
  ghost predicate Bound(raw: seq<RawBinding>, key: (string, string)) {
    (key.1 == "pre" || key.1 == "post") && exists b :: Named(b) in raw && b.symbolId == key.0
  }

  lemma {:induction false} LastForExactly(raw: seq<RawBinding>, id: string)
    ensures LastFor(raw, id).Some? <==> exists b :: Named(b) in raw && b.symbolId == id
    decreases |raw|
  {
    if raw != [] {
      var before, last := raw[..|raw| - 1], raw[|raw| - 1];
      LastForExactly(before, id);
      assert raw == before + [last];
      assert last.Named? ==> last == Named(last.binding);
    }
  }

  /** A request is executed exactly when it is one of the source-backed Across harness, its workspace is usable,
      its identity its own, and its predicate a literal or one whose every symbol has a binding listed. */
  lemma PreparesExactly(r: Request, workspace: string, env: Environment)
    ensures Prepare(r, workspace, env).Ready? <==>
      && r.lineageId == "across" && r.identity == Some(Identity("across", r.caseId)) && env.usable(workspace)
      && r.runtime.Some? && r.runtime.value.mode == "source_backed_local_evm" && r.runtime.value.sourceBacked
      && r.runtime.value.testContract == "AcrossSourceBackedHarnessTest"
      && r.candidate.Some? && (r.candidate.value.Other? ==> r.candidate.value.kind !in {"temporal", "quantifier"})
      && (r.candidate.value.Literal? || Symbols(r.candidate.value) != {})
      && r.symbolBindings.Some? && NotAnObject !in r.symbolBindings.value
      && forall key :: key in Symbols(r.candidate.value) ==> Bound(r.symbolBindings.value, key)
  {
    hide Build, Symbols, Find, Bound;
    if r.candidate.Some? && r.symbolBindings.Some? {
      var raw, symbols := r.symbolBindings.value, Symbols(r.candidate.value);
      forall key | key in symbols ensures Find(Build(raw, symbols), key).Some? <==> Bound(raw, key) {
        FoundExactly(raw, symbols, key);
      }
    }
  }

  lemma FoundExactly(raw: seq<RawBinding>, symbols: set<(string, string)>, key: (string, string))
    requires key in symbols
    ensures Find(Build(raw, symbols), key).Some? <==> Bound(raw, key)
  {
    hide Build, Find, LastFor;
    var (id, state) := key;
    if state == "pre" || state == "post" {
      BuildHoldsLast(raw, symbols, id, state);
      LastForExactly(raw, id);
    } else {
      OnlyTwoStates(raw, symbols, key);
    }
  }

  /** The generated test: its captures are the symbols read before the workflow, each with the declared type and
      the lowering of the last binding listed for it, and its condition is the lowering of the predicate. */
  lemma TestCarries(r: Request, workspace: string, env: Environment, id: string)
    requires Prepare(r, workspace, env).Ready?
    requires CandidateSource(r, Prepare(r, workspace, env).bindings, env).Some?
    ensures var d := Prepare(r, workspace, env).bindings;
            var p := Lowering.Prepared(d, r.runtime.value.destinationDomain, env.digest);
            var test, last := CandidateSource(r, d, env).value, LastFor(r.symbolBindings.value, id);
      && test.candidate == r.candidate.value && Text(test.candidate, p) == Some(test.condition)
      && (id in test.captures <==> (id, "pre") in Symbols(test.candidate))
      && (id in test.captures ==>
            && last.Some? && ValueText(last.value, p).Some?
            && test.captures[id] == (last.value.symbolType, ValueText(last.value, p).value))
  {
    hide Build, Symbols, LastFor, ValueText, Text;
    var raw, symbols := r.symbolBindings.value, Symbols(r.candidate.value);
    if (id, "pre") in symbols {
      assert (id, "pre").0 in PreReads(r.candidate.value);
      BuildHoldsLast(raw, symbols, id, "pre");
    }
  }

  /** What the replay of a witness reports: its own trace hash is checked first, and then the harness decides on
      the test compiled from the witness's own predicate. */
  lemma ReplayReports(w: Witness, workspace: string, env: Environment)
    requires w.symbolBindings != [] && Prepare(Rebuilt(w), workspace, env).Ready?
    requires CandidateSource(Rebuilt(w), Prepare(Rebuilt(w), workspace, env).bindings, env).Some?
    requires MakeWitness(Rebuilt(w), Prepare(Rebuilt(w), workspace, env).bindings, env).Some?
    ensures var d := Prepare(Rebuilt(w), workspace, env).bindings;
            var result, again := IndependentReplay(w, workspace, env), MakeWitness(Rebuilt(w), d, env).value;
            var status := env.harness(workspace, CandidateSource(Rebuilt(w), d, env).value);
      && (w.traceHash != again.traceHash ==> result == ReplayFail)
      && (w.traceHash == again.traceHash ==>
            && (result == ReplayPass <==> status == HarnessPass)
            && (result == ReplayUnknown <==> status == HarnessTimeout)
            && (result == ReplayFail <==> status == HarnessToolError || status.HarnessFail?))
  {
    hide CandidateSource, MakeWitness, Prepare;
  }
}
