/** The resource totals and paired effects of a verification campaign, over real arithmetic. */
module Resources {
  import opened Wrappers

  // ---------------------------------------------------------------- rows and observations

  /** A JSON value; Other is a boolean, null or list. */
  datatype Json = Object(fields: map<string, Json>) | Whole(n: int) | Decimal(x: real) | Text(s: string) | Other

  datatype PairKey = PairKey(lineage: string, instance: string, replicate: int)

  datatype Campaign = Campaign(pair: PairKey, arm: string, timing: Json)

  datatype Resource =
    | ProposalInputTokens | ProposalOutputTokens | ProposalRequestSeconds
    | ProviderTotalDurationSeconds | TotalStageSeconds | WallSeconds

  const FIELDS := [ProposalInputTokens, ProposalOutputTokens, ProposalRequestSeconds,
                   ProviderTotalDurationSeconds, TotalStageSeconds, WallSeconds]

  function PathOf(f: Resource): seq<string> {
    match f
    case ProposalInputTokens => ["proposal", "input_tokens"]
    case ProposalOutputTokens => ["proposal", "output_tokens"]
    case ProposalRequestSeconds => ["proposal", "request_seconds"]
    case ProviderTotalDurationSeconds => ["proposal", "provider_total_duration_seconds"]
    case TotalStageSeconds => ["verification", "total_stage_seconds"]
    case WallSeconds => ["wall_seconds"]
  }

  function At(o: map<string, Json>, key: string): Json {
    if key in o then o[key] else Other
  }

  function Follow(v: Json, path: seq<string>): Json
    decreases |path|
  {
    if path == [] then v
    else if v.Object? then Follow(At(v.fields, path[0]), path[1..])
    else Other
  }

  function Observed(timing: Json, path: seq<string>): Option<map<string, Json>> {
    if !timing.Object? || At(timing.fields, "status") == Text("unavailable") then None
    else if Follow(timing, path).Object? then Some(Follow(timing, path).fields)
    else None
  }

  /** _timing_observation */
  method TimingObservation(timing: Json, path: seq<string>) returns (o: Option<map<string, Json>>)
    ensures o == Observed(timing, path)
  {
    if !timing.Object? || At(timing.fields, "status") == Text("unavailable") {
      return None;
    }
    var value := timing;
    var n := 0;
    while n < |path|
      invariant 0 <= n <= |path|
      invariant Follow(timing, path) == Follow(value, path[n..])
    {
      if !value.Object? {
        return None;
      }
      assert path[n..][0] == path[n] && path[n..][1..] == path[n + 1..];
      value := At(value.fields, path[n]);
      n := n + 1;
    }
    return if value.Object? then Some(value.fields) else None;
  }

  function NonnegativeInt(v: Json, default: nat): nat {
    if v.Whole? && v.n >= 0 then v.n else default
  }

  function Number(v: Json): Option<real> {
    match v
    case Whole(n) => Some(n as real)
    case Decimal(x) => Some(x)
    case _ => None
  }

  /** What one campaign observed of one resource. */
  datatype Reading = Absent | NotApplicable | Applicable(total: nat, known: nat, missing: nat, value: Option<real>)
  {
    predicate Counts() { !NotApplicable? }
    predicate Complete() { Applicable? && missing == 0 && value.Some? }
  }

  function ReadingOf(c: Campaign, f: Resource): (r: Reading)
    ensures r.Applicable? ==> r.total > 0
  {
    match Observed(c.timing, PathOf(f))
    case None => Absent
    case Some(o) =>
      var total, known := NonnegativeInt(At(o, "total"), 0), NonnegativeInt(At(o, "known"), 0);
      if total == 0 then NotApplicable
      else Applicable(total, known, NonnegativeInt(At(o, "missing"), if known < total then total - known else 0),
                      Number(At(o, "value")))
  }

  // ---------------------------------------------------------------- totals per method

  datatype Bucket = Bucket(value: Option<real>, known: nat, total: nat, missing: nat)

  const EMPTY := Bucket(Some(0.0), 0, 0, 0)

  function Add(b: Bucket, r: Reading): Bucket {
    match r
    case Absent => b.(value := None, total := b.total + 1, missing := b.missing + 1)
    case NotApplicable => b
    case Applicable(total, known, missing, _) =>
      Bucket(if r.Complete() && b.value.Some? then Some(b.value.value + r.value.value) else None,
             b.known + known, b.total + total, b.missing + missing)
  }

  /** Everything one method's campaigns put into one bucket. */
  function Fold(rows: seq<Campaign>, arm: string, f: Resource): Bucket {
    if rows == [] then EMPTY
    else
      var before, last := rows[..|rows| - 1], rows[|rows| - 1];
      if last.arm == arm then Add(Fold(before, arm, f), ReadingOf(last, f)) else Fold(before, arm, f)
  }

  datatype Note = NothingApplicable | MissingObservation | NoNote

  datatype Summary = Summary(value: Option<real>, known: nat, total: nat, missing: nat, note: Note)

  function Summarize(b: Bucket): Summary {
    Summary(if b.total == 0 then None else b.value, b.known, b.total, b.missing,
            if b.total == 0 then NothingApplicable else if b.missing != 0 then MissingObservation else NoNote)
  }

  /** The complete values among the applicable observations of one method. */
  function CompleteValues(rows: seq<Campaign>, arm: string, f: Resource): seq<real> {
    if rows == [] then []
    else
      var before, last := rows[..|rows| - 1], rows[|rows| - 1];
      CompleteValues(before, arm, f)
      + if last.arm == arm && ReadingOf(last, f).Complete() then [ReadingOf(last, f).value.value] else []
  }

  function Total(xs: seq<real>): real {
    if xs == [] then 0.0 else Total(xs[..|xs| - 1]) + xs[|xs| - 1]
  }

  lemma TotalAppend(xs: seq<real>, x: real)
    ensures Total(xs + [x]) == Total(xs) + x
  {
    assert (xs + [x])[..|xs|] == xs;
  }

  ghost predicate AnyCounts(rows: seq<Campaign>, arm: string, f: Resource) {
    exists c :: c in rows && c.arm == arm && ReadingOf(c, f).Counts()
  }

  ghost predicate AllComplete(rows: seq<Campaign>, arm: string, f: Resource) {
    forall c :: c in rows && c.arm == arm && ReadingOf(c, f).Counts() ==> ReadingOf(c, f).Complete()
  }

  lemma {:induction false} FoldMeans(rows: seq<Campaign>, arm: string, f: Resource)
    ensures Fold(rows, arm, f).total == 0 <==> !AnyCounts(rows, arm, f)
    ensures Fold(rows, arm, f).value.Some? <==> AllComplete(rows, arm, f)
    ensures var b := Fold(rows, arm, f);
            b.value.Some? ==> b.value.value == Total(CompleteValues(rows, arm, f)) && b.missing == 0
    decreases |rows|
  {
    hide ReadingOf;
    if rows != [] {
      var before, last := rows[..|rows| - 1], rows[|rows| - 1];
      FoldMeans(before, arm, f);
      LastCounts(rows, arm, f);
      if last.arm == arm && ReadingOf(last, f).Complete() {
        TotalAppend(CompleteValues(before, arm, f), ReadingOf(last, f).value.value);
      } else {
        assert CompleteValues(before, arm, f) + [] == CompleteValues(before, arm, f);
      }
    }
  }

  lemma LastCounts(rows: seq<Campaign>, arm: string, f: Resource)
    requires rows != []
    ensures var before, last := rows[..|rows| - 1], rows[|rows| - 1];
      && (AnyCounts(rows, arm, f) <==> AnyCounts(before, arm, f) || (last.arm == arm && ReadingOf(last, f).Counts()))
      && (AllComplete(rows, arm, f) <==>
          (AllComplete(before, arm, f) && (last.arm == arm && ReadingOf(last, f).Counts() ==> ReadingOf(last, f).Complete())))
  {
    hide ReadingOf;
    assert forall c :: c in rows <==> c in rows[..|rows| - 1] || c == rows[|rows| - 1];
  }

  /** A method's total is exact or absent: it is there exactly when something was applicable and every
      applicable observation was present, complete and numeric, and then it is their sum. */
  lemma TotalsAreExactOrAbsent(rows: seq<Campaign>, arm: string, f: Resource)
    ensures var s := Summarize(Fold(rows, arm, f));
      && (s.value.Some? <==> AnyCounts(rows, arm, f) && AllComplete(rows, arm, f))
      && (s.value.Some? ==> s.value.value == Total(CompleteValues(rows, arm, f)) && s.note.NoNote?)
      && (s.note.NothingApplicable? <==> !AnyCounts(rows, arm, f))
      && (s.note.MissingObservation? <==> AnyCounts(rows, arm, f) && s.missing > 0)
  {
    FoldMeans(rows, arm, f);
  }

  /** What one observation adds to the counts: an absent one stands for one missing. */
  function Counts(r: Reading): (nat, nat, nat) {
    match r
    case Absent => (1, 0, 1)
    case NotApplicable => (0, 0, 0)
    case Applicable(total, known, missing, _) => (total, known, missing)
  }

  function CountsOf(rows: seq<Campaign>, arm: string, f: Resource): (nat, nat, nat) {
    if rows == [] then (0, 0, 0)
    else
      var (t, k, m) := CountsOf(rows[..|rows| - 1], arm, f);
      var (t', k', m') := if rows[|rows| - 1].arm == arm then Counts(ReadingOf(rows[|rows| - 1], f)) else (0, 0, 0);
      (t + t', k + k', m + m')
  }

  /** The counts of a method are the sums of its campaigns'. */
  lemma {:induction false} CountsAdd(rows: seq<Campaign>, arm: string, f: Resource)
    ensures var s := Summarize(Fold(rows, arm, f)); (s.total, s.known, s.missing) == CountsOf(rows, arm, f)
    decreases |rows|
  {
    hide ReadingOf;
    if rows != [] {
      CountsAdd(rows[..|rows| - 1], arm, f);
    }
  }

  // ---------------------------------------------------------------- matched values

  /** The complete value recorded for one campaign's resource; a repeated (pair, arm) overwrites. */
  function Recorded(rows: seq<Campaign>, pair: PairKey, arm: string, f: Resource): Option<real> {
    if rows == [] then None
    else
      var before, last := rows[..|rows| - 1], rows[|rows| - 1];
      if last.pair == pair && last.arm == arm && ReadingOf(last, f).Complete() then ReadingOf(last, f).value
      else Recorded(before, pair, arm, f)
  }

  type Values = map<Resource, real>
  type Matched = map<PairKey, map<string, Values>>

  function ValuesOf(m: Matched, pair: PairKey, arm: string): Values {
    if pair in m && arm in m[pair] then m[pair][arm] else map[]
  }

  function Look(m: Matched, pair: PairKey, arm: string, f: Resource): Option<real> {
    if f in ValuesOf(m, pair, arm) then Some(ValuesOf(m, pair, arm)[f]) else None
  }

  /** matched.setdefault(pair, {}).setdefault(arm, {})[f] = x */
  function Record(m: Matched, pair: PairKey, arm: string, f: Resource, x: real): Matched {
    m[pair := (if pair in m then m[pair] else map[])[arm := ValuesOf(m, pair, arm)[f := x]]]
  }

  function BucketOf(summary: map<Resource, Bucket>, f: Resource): Bucket {
    if f in summary then summary[f] else EMPTY
  }

  lemma FieldsAreAll(f: Resource)
    ensures f in FIELDS
  {
    assert FIELDS[0] == ProposalInputTokens && FIELDS[1] == ProposalOutputTokens && FIELDS[2] == ProposalRequestSeconds;
    assert FIELDS[3] == ProviderTotalDurationSeconds && FIELDS[4] == TotalStageSeconds && FIELDS[5] == WallSeconds;
  }

  /** One resource of one campaign. */
  method AddReading(c: Campaign, f: Resource, bucket0: Bucket, matched0: Matched) returns (bucket: Bucket, matched: Matched)
    ensures bucket == Add(bucket0, ReadingOf(c, f))
    ensures matched == if ReadingOf(c, f).Complete() then Record(matched0, c.pair, c.arm, f, ReadingOf(c, f).value.value)
                       else matched0
  {
    bucket, matched := bucket0, matched0;
    var observation := TimingObservation(c.timing, PathOf(f));
    if observation.None? {
      bucket := bucket.(value := None, total := bucket.total + 1, missing := bucket.missing + 1);
      return;
    }
    var o := observation.value;
    var total, known := NonnegativeInt(At(o, "total"), 0), NonnegativeInt(At(o, "known"), 0);
    var missing := NonnegativeInt(At(o, "missing"), if known < total then total - known else 0);
    if total == 0 {
      return;
    }
    bucket := bucket.(total := bucket.total + total, known := bucket.known + known, missing := bucket.missing + missing);
    var value := Number(At(o, "value"));
    if value.Some? && missing == 0 {
      if bucket.value.Some? {
        bucket := bucket.(value := Some(bucket.value.value + value.value));
      }
    } else {
      bucket := bucket.(value := None);
    }
    if value.Some? && missing == 0 {
      matched := Record(matched, c.pair, c.arm, f, value.value);
    }
  }

  /** The inner loop over the resources of one campaign. */
  method AddCampaign(c: Campaign, summary0: map<Resource, Bucket>, matched0: Matched)
    returns (summary: map<Resource, Bucket>, matched: Matched)
    ensures forall f :: f in summary && summary[f] == Add(BucketOf(summary0, f), ReadingOf(c, f))
    ensures matched.Keys <= matched0.Keys + {c.pair}
    ensures forall pair, arm, f :: Look(matched, pair, arm, f) == Override(matched0, c, pair, arm, f)
  {
    hide ReadingOf, Add, Look, Record, PathOf;
    summary, matched := summary0, matched0;
    var n := 0;
    while n < |FIELDS|
      invariant 0 <= n <= |FIELDS|
      invariant forall f :: f in FIELDS[..n] ==> f in summary && summary[f] == Add(BucketOf(summary0, f), ReadingOf(c, f))
      invariant forall f :: f !in FIELDS[..n] ==> BucketOf(summary, f) == BucketOf(summary0, f)
      invariant matched.Keys <= matched0.Keys + {c.pair}
      invariant forall pair, arm, f :: Look(matched, pair, arm, f) ==
                  if f in FIELDS[..n] then Override(matched0, c, pair, arm, f) else Look(matched0, pair, arm, f)
    {
      var field := FIELDS[n];
      FieldsAreDistinct(n);
      assert FIELDS[..n + 1] == FIELDS[..n] + [field];
      var bucket;
      ghost var previous := matched;
      bucket, matched := AddReading(c, field, BucketOf(summary, field), matched);
      summary := summary[field := bucket];
      RecordChangesOne(previous, c, field, matched);
      n := n + 1;
    }
    forall f: Resource ensures f in FIELDS[..n] {
      FieldsAreAll(f);
    }
  }

  lemma FieldsAreDistinct(n: nat)
    requires n < |FIELDS|
    ensures FIELDS[n] !in FIELDS[..n]
  {
    assert FIELDS[0] == ProposalInputTokens && FIELDS[1] == ProposalOutputTokens && FIELDS[2] == ProposalRequestSeconds;
    assert FIELDS[3] == ProviderTotalDurationSeconds && FIELDS[4] == TotalStageSeconds && FIELDS[5] == WallSeconds;
  }

  /** What is on record after a campaign's complete values were written over what was there. */
  function Override(m: Matched, c: Campaign, pair: PairKey, arm: string, f: Resource): Option<real> {
    if pair == c.pair && arm == c.arm && ReadingOf(c, f).Complete() then ReadingOf(c, f).value
    else Look(m, pair, arm, f)
  }

  lemma RecordChangesOne(m: Matched, c: Campaign, field: Resource, m': Matched)
    requires m' == if ReadingOf(c, field).Complete() then Record(m, c.pair, c.arm, field, ReadingOf(c, field).value.value)
                   else m
    ensures m'.Keys <= m.Keys + {c.pair}
    ensures forall pair, arm, f :: Look(m', pair, arm, f) ==
              if f == field then Override(m, c, pair, arm, f) else Look(m, pair, arm, f)
  {
    hide ReadingOf;
  }

  ghost function Arms(rows: seq<Campaign>): set<string> {
    set c | c in rows :: c.arm
  }

  ghost function PairsOf(rows: seq<Campaign>): set<PairKey> {
    set c | c in rows :: c.pair
  }

  lemma NothingYet()
    ensures forall arm, f :: Fold([], arm, f) == EMPTY
    ensures forall pair, arm, f :: Look(map[], pair, arm, f) == Recorded([], pair, arm, f)
  {
  }

  lemma AddLast(before: seq<Campaign>, c: Campaign)
    ensures forall arm, f :: Fold(before + [c], arm, f) ==
              if arm == c.arm then Add(Fold(before, arm, f), ReadingOf(c, f)) else Fold(before, arm, f)
    ensures forall pair, arm, f :: Recorded(before + [c], pair, arm, f) ==
              if pair == c.pair && arm == c.arm && ReadingOf(c, f).Complete() then ReadingOf(c, f).value
              else Recorded(before, pair, arm, f)
  {
    hide ReadingOf, Add;
    assert (before + [c])[..|before|] == before;
  }

  /** The loop over the campaigns. */
  method CollectCampaigns(rows: seq<Campaign>) returns (byMethod: map<string, map<Resource, Bucket>>, matched: Matched)
    ensures byMethod.Keys == Arms(rows)
    ensures forall arm, f :: arm in byMethod ==> f in byMethod[arm] && byMethod[arm][f] == Fold(rows, arm, f)
    ensures matched.Keys <= PairsOf(rows)
    ensures forall pair, arm, f :: Look(matched, pair, arm, f) == Recorded(rows, pair, arm, f)
  {
    hide ReadingOf, Add, Look, Fold, Recorded;
    byMethod, matched := map[], map[];
    NothingYet();
    var n := 0;
    while n < |rows|
      invariant 0 <= n <= |rows|
      invariant byMethod.Keys == Arms(rows[..n])
      invariant forall arm, f :: arm in byMethod ==> f in byMethod[arm] && byMethod[arm][f] == Fold(rows[..n], arm, f)
      invariant forall arm, f :: arm !in byMethod ==> Fold(rows[..n], arm, f) == EMPTY
      invariant matched.Keys <= PairsOf(rows[..n])
      invariant forall pair, arm, f :: Look(matched, pair, arm, f) == Recorded(rows[..n], pair, arm, f)
    {
      var c := rows[n];
      ghost var before, now := rows[..n], rows[..n + 1];
      assert now == before + [c];
      AddLast(before, c);
      assert forall x :: x in now <==> x in before || x == c;
      assert Arms(now) == Arms(before) + {c.arm} && PairsOf(now) == PairsOf(before) + {c.pair};
      var summary := if c.arm in byMethod then byMethod[c.arm] else map[];
      summary, matched := AddCampaign(c, summary, matched);
      byMethod := byMethod[c.arm := summary];
      n := n + 1;
    }
    assert rows[..n] == rows;
  }

  // ---------------------------------------------------------------- averages over groups

  ghost function Sum<K>(m: map<K, real>): real
    decreases |m|
  {
    if m == map[] then 0.0
    else
      var k :| k in m;
      m[k] + Sum(m - {k})
  }

  lemma {:induction false} SumWithout<K>(m: map<K, real>, k: K)
    requires k in m
    ensures Sum(m) == m[k] + Sum(m - {k})
    decreases |m|
  {
    var p :| p in m && Sum(m) == m[p] + Sum(m - {p});
    if p != k {
      SumWithout(m - {p}, k);
      SumWithout(m - {k}, p);
      assert m - {p} - {k} == m - {k} - {p};
    }
  }

  ghost function Group<K, G>(m: map<K, real>, g: K -> G, x: G): map<K, real> {
    map k | k in m && g(k) == x :: m[k]
  }

  ghost function Mean<K>(m: map<K, real>): real
    requires m != map[]
  {
    Sum(m) / |m| as real
  }

  ghost function GroupsIn<K, G>(m: map<K, real>, g: K -> G): set<G> {
    set k | k in m :: g(k)
  }

  /** The mean of each group. */
  ghost function MeanBy<K, G>(m: map<K, real>, g: K -> G): map<G, real> {
    map x | x in GroupsIn(m, g) :: var group := Group(m, g, x); if group == map[] then 0.0 else Mean(group)
  }

  /** The lists a grouping loop has gathered after visiting the entries of `m`. */
  ghost predicate Gathered<K, G>(lists: map<G, seq<real>>, m: map<K, real>, g: K -> G) {
    && lists.Keys == GroupsIn(m, g)
    && forall x :: x in lists ==> |lists[x]| == |Group(m, g, x)| && Total(lists[x]) == Sum(Group(m, g, x))
  }

  function Append<G>(lists: map<G, seq<real>>, x: G, v: real): map<G, seq<real>> {
    lists[x := (if x in lists then lists[x] else []) + [v]]
  }

  lemma GatherOne<K, G>(lists: map<G, seq<real>>, m: map<K, real>, g: K -> G, k: K, v: real)
    requires Gathered(lists, m, g) && k !in m
    ensures Gathered(Append(lists, g(k), v), m[k := v], g)
  {
    var now, m' := Append(lists, g(k), v), m[k := v];
    assert GroupsIn(m', g) == GroupsIn(m, g) + {g(k)} by {
      assert forall j :: j in m' <==> j in m || j == k;
    }
    forall x | x in now ensures |now[x]| == |Group(m', g, x)| && Total(now[x]) == Sum(Group(m', g, x)) {
      if x == g(k) {
        GrowGroup(lists, m, g, k, v);
      } else {
        assert Group(m', g, x) == Group(m, g, x);
      }
    }
  }

  lemma GrowGroup<K, G>(lists: map<G, seq<real>>, m: map<K, real>, g: K -> G, k: K, v: real)
    requires Gathered(lists, m, g) && k !in m
    ensures var x := g(k);
            var list, group := Append(lists, x, v)[x], Group(m[k := v], g, x);
            |list| == |group| && Total(list) == Sum(group)
  {
    var x := g(k);
    var less, more := Group(m, g, x), Group(m[k := v], g, x);
    if x !in lists {
      assert forall j :: j in m ==> g(j) in GroupsIn(m, g);
      assert less == map[];
    }
    assert k in more && more - {k} == less && more == less[k := v];
    SumWithout(more, k);
    TotalAppend(if x in lists then lists[x] else [], v);
  }

  /** mean(values) for every list */
  function Means<G>(lists: map<G, seq<real>>): map<G, real> {
    map x | x in lists :: if lists[x] == [] then 0.0 else Total(lists[x]) / |lists[x]| as real
  }

  lemma MeansAreMeanBy<K, G>(lists: map<G, seq<real>>, m: map<K, real>, g: K -> G)
    requires Gathered(lists, m, g)
    ensures Means(lists) == MeanBy(m, g)
  {
    forall x | x in lists ensures lists[x] != [] && Means(lists)[x] == MeanBy(m, g)[x] {
      var k :| k in m && g(k) == x;
      assert k in Group(m, g, x);
    }
  }

  // ---------------------------------------------------------------- paired effects

  type Instance = (string, string)

  function InstanceOf(p: PairKey): Instance { (p.lineage, p.instance) }

  function LineageOf(i: Instance): string { i.0 }

  ghost function Differences(rows: seq<Campaign>, left: string, right: string, f: Resource): map<PairKey, real> {
    map pair | pair in PairsOf(rows) && Recorded(rows, pair, left, f).Some? && Recorded(rows, pair, right, f).Some?
      :: Recorded(rows, pair, left, f).value - Recorded(rows, pair, right, f).value
  }

  ghost function Effects(rows: seq<Campaign>, left: string, right: string, f: Resource): map<string, real> {
    MeanBy(MeanBy(Differences(rows, left, right, f), InstanceOf), LineageOf)
  }

  /** The first grouping loop of one contrast and resource. The entries of a dictionary are visited in an
      arbitrary order, which covers the order they were inserted in. */
  method DifferencesByInstance(matched: Matched, left: string, right: string, f: Resource, ghost differences: map<PairKey, real>)
    returns (byInstance: map<Instance, seq<real>>)
    requires differences.Keys <= matched.Keys
    requires forall pair :: pair in differences <==> Look(matched, pair, left, f).Some? && Look(matched, pair, right, f).Some?
    requires forall pair :: pair in differences ==>
               differences[pair] == Look(matched, pair, left, f).value - Look(matched, pair, right, f).value
    ensures Gathered(byInstance, differences, InstanceOf)
  {
    hide Gathered, Look, Append;
    ghost var seen: map<PairKey, real> := map[];
    byInstance := map[];
    GatherNone<PairKey, Instance>(InstanceOf);
    var todo := matched.Keys;
    while todo != {}
      invariant todo <= matched.Keys
      invariant seen == map pair | pair in differences && pair !in todo :: differences[pair]
      invariant Gathered(byInstance, seen, InstanceOf)
      decreases |todo|
    {
      var pair :| pair in todo;
      todo := todo - {pair};
      var l, r := Look(matched, pair, left, f), Look(matched, pair, right, f);
      if l.Some? && r.Some? {
        GatherOne(byInstance, seen, InstanceOf, pair, l.value - r.value);
        byInstance := Append(byInstance, InstanceOf(pair), l.value - r.value);
        seen := seen[pair := l.value - r.value];
      }
    }
    assert seen == differences;
  }

  /** The second one; its arbitrary order covers the sorted order. */
  method MeansByLineage(means: map<Instance, real>) returns (byLineage: map<string, seq<real>>)
    ensures Gathered(byLineage, means, LineageOf)
  {
    hide Gathered, Append;
    ghost var seen: map<Instance, real> := map[];
    byLineage := map[];
    GatherNone<Instance, string>(LineageOf);
    var todo := means.Keys;
    while todo != {}
      invariant todo <= means.Keys
      invariant seen == map i | i in means && i !in todo :: means[i]
      invariant Gathered(byLineage, seen, LineageOf)
      decreases |todo|
    {
      var i :| i in todo;
      todo := todo - {i};
      GatherOne(byLineage, seen, LineageOf, i, means[i]);
      byLineage := Append(byLineage, LineageOf(i), means[i]);
      seen := seen[i := means[i]];
    }
    assert seen == means;
  }

  lemma GatherNone<K, G>(g: K -> G)
    ensures Gathered(map[], map[], g)
  {
  }

  method PairedEffects(matched: Matched, ghost rows: seq<Campaign>, left: string, right: string, f: Resource)
    returns (effects: map<string, real>)
    requires matched.Keys <= PairsOf(rows)
    requires forall pair, arm, f :: Look(matched, pair, arm, f) == Recorded(rows, pair, arm, f)
    ensures effects == Effects(rows, left, right, f)
  {
    hide Look, Recorded, Gathered, Means, MeanBy;
    forall pair | Recorded(rows, pair, left, f).Some? ensures pair in matched {
      assert Look(matched, pair, left, f).Some?;
      LookedUpIsThere(matched, pair, left, f);
    }
    var byInstance := DifferencesByInstance(matched, left, right, f, Differences(rows, left, right, f));
    MeansAreMeanBy(byInstance, Differences(rows, left, right, f), InstanceOf);
    var byLineage := MeansByLineage(Means(byInstance));
    MeansAreMeanBy(byLineage, Means(byInstance), LineageOf);
    effects := Means(byLineage);
  }

  lemma LookedUpIsThere(m: Matched, pair: PairKey, arm: string, f: Resource)
    requires Look(m, pair, arm, f).Some?
    ensures pair in m
  {
  }

  // ---------------------------------------------------------------- the report

  datatype Report = Report(
    byMethod: map<string, map<Resource, Summary>>, paired: map<string, map<Resource, map<string, real>>>)

  type Comparison = (string, string)

  function ContrastName(c: Comparison): string { c.0 + "-minus-" + c.1 }

  ghost function ContrastOf(rows: seq<Campaign>, c: Comparison): map<Resource, map<string, real>> {
    map f | f in FIELDS :: Effects(rows, c.0, c.1, f)
  }

  /** A later comparison of the same name replaces an earlier one. */
  ghost function Contrasts(rows: seq<Campaign>, cs: seq<Comparison>): map<string, map<Resource, map<string, real>>> {
    if cs == [] then map[]
    else Contrasts(rows, cs[..|cs| - 1])[ContrastName(cs[|cs| - 1]) := ContrastOf(rows, cs[|cs| - 1])]
  }

  ghost function Summaries(rows: seq<Campaign>, arm: string): map<Resource, Summary> {
    map f | f in FIELDS :: Summarize(Fold(rows, arm, f))
  }

  ghost function ReportOf(rows: seq<Campaign>, cs: seq<Comparison>): Report {
    Report(map arm | arm in Arms(rows) :: Summaries(rows, arm), Contrasts(rows, cs))
  }

  /** build_resource_report, without the units and the texts that explain the fields. */
  method BuildResourceReport(rows: seq<Campaign>, cs: seq<Comparison>) returns (report: Report)
    ensures report == ReportOf(rows, cs)
  {
    hide Fold, Look, Recorded, Effects, Summarize;
    var buckets, matched := CollectCampaigns(rows);
    forall f: Resource ensures f in FIELDS {
      FieldsAreAll(f);
    }
    var byMethod := map arm | arm in buckets :: map f | f in buckets[arm] :: Summarize(buckets[arm][f]);
    assert byMethod == ReportOf(rows, cs).byMethod by {
      forall arm | arm in buckets ensures byMethod[arm] == Summaries(rows, arm) {
      }
    }
    var paired: map<string, map<Resource, map<string, real>>> := map[];
    var n := 0;
    while n < |cs|
      invariant 0 <= n <= |cs|
      invariant paired == Contrasts(rows, cs[..n])
    {
      var contrast := OneContrast(matched, rows, cs[n]);
      assert cs[..n + 1][..n] == cs[..n];
      paired := paired[ContrastName(cs[n]) := contrast];
      n := n + 1;
    }
    assert cs[..n] == cs;
    report := Report(byMethod, paired);
  }

  method OneContrast(matched: Matched, ghost rows: seq<Campaign>, c: Comparison) returns (contrast: map<Resource, map<string, real>>)
    requires matched.Keys <= PairsOf(rows)
    requires forall pair, arm, f :: Look(matched, pair, arm, f) == Recorded(rows, pair, arm, f)
    ensures contrast == ContrastOf(rows, c)
  {
    hide Look, Recorded, Effects;
    contrast := map[];
    var k := 0;
    while k < |FIELDS|
      invariant 0 <= k <= |FIELDS|
      invariant contrast == map f | f in FIELDS[..k] :: Effects(rows, c.0, c.1, f)
    {
      var effects := PairedEffects(matched, rows, c.0, c.1, FIELDS[k]);
      assert FIELDS[..k + 1] == FIELDS[..k] + [FIELDS[k]];
      contrast := contrast[FIELDS[k] := effects];
      k := k + 1;
    }
    assert FIELDS[..k] == FIELDS;
  }

  // ---------------------------------------------------------------- swapping the arms

  ghost function Negated<K>(m: map<K, real>): map<K, real> {
    map k | k in m :: -m[k]
  }

  lemma {:induction false} SumNegates<K>(m: map<K, real>)
    ensures Sum(Negated(m)) == -Sum(m)
    decreases |m|
  {
    if m != map[] {
      var k :| k in m;
      SumWithout(m, k);
      SumWithout(Negated(m), k);
      assert Negated(m) - {k} == Negated(m - {k});
      SumNegates(m - {k});
    } else {
      assert Negated(m) == m;
    }
  }

  lemma MeanNegates<K>(m: map<K, real>)
    requires m != map[]
    ensures Negated(m) != map[] && Mean(Negated(m)) == -Mean(m)
  {
    SumNegates(m);
    assert Negated(m).Keys == m.Keys;
    assert |Negated(m)| == |m|;
    QuotientNegates(Sum(m), |m| as real);
  }

  lemma QuotientNegates(a: real, b: real)
    requires b != 0.0
    ensures -a / b == -(a / b)
  {
  }

  lemma MeanByNegates<K, G>(m: map<K, real>, g: K -> G)
    ensures MeanBy(Negated(m), g) == Negated(MeanBy(m, g))
  {
    hide Mean;
    assert GroupsIn(Negated(m), g) == GroupsIn(m, g);
    forall x | x in GroupsIn(m, g) ensures MeanBy(Negated(m), g)[x] == -MeanBy(m, g)[x] {
      var group := Group(m, g, x);
      assert Group(Negated(m), g, x) == Negated(group);
      if group != map[] {
        MeanNegates(group);
      }
    }
  }

  /** Swapping the arms of a contrast negates every lineage effect and changes nothing else. */
  lemma SwappedArmsNegate(rows: seq<Campaign>, left: string, right: string, f: Resource)
    ensures Effects(rows, right, left, f) == Negated(Effects(rows, left, right, f))
  {
    hide Recorded, MeanBy;
    var ds := Differences(rows, left, right, f);
    assert Differences(rows, right, left, f) == Negated(ds);
    MeanByNegates(ds, InstanceOf);
    MeanByNegates(MeanBy(ds, InstanceOf), LineageOf);
  }

  // ---------------------------------------------------------------- the order of the rows

  /** Campaigns of the same pair and arm that have a complete value of a resource have the same one; so it is
      when there is only one campaign per pair and arm, which the loader of the archives insists on. */
  ghost predicate Consistent(rows: seq<Campaign>) {
    forall c, d, f :: c in rows && d in rows && c.pair == d.pair && c.arm == d.arm
                      && ReadingOf(c, f).Complete() && ReadingOf(d, f).Complete()
                      ==> ReadingOf(c, f).value == ReadingOf(d, f).value
  }

  ghost predicate UniquePairArms(rows: seq<Campaign>) {
    forall i, j :: 0 <= i < j < |rows| ==> !(rows[i].pair == rows[j].pair && rows[i].arm == rows[j].arm)
  }

  lemma UniqueIsConsistent(rows: seq<Campaign>)
    requires UniquePairArms(rows)
    ensures Consistent(rows)
  {
    hide ReadingOf;
  }

  function AddIf(b: Bucket, c: Campaign, arm: string, f: Resource): Bucket {
    if c.arm == arm then Add(b, ReadingOf(c, f)) else b
  }

  lemma AddCommutes(b: Bucket, r: Reading, s: Reading)
    ensures Add(Add(b, r), s) == Add(Add(b, s), r)
  {
  }

  function Without<T>(xs: seq<T>, i: nat): seq<T>
    requires i < |xs|
  {
    xs[..i] + xs[i + 1..]
  }

  lemma FoldLast(before: seq<Campaign>, c: Campaign, arm: string, f: Resource)
    ensures Fold(before + [c], arm, f) == AddIf(Fold(before, arm, f), c, arm, f)
  {
    hide ReadingOf, Add;
    assert (before + [c])[..|before|] == before;
  }

  lemma WithoutMultiset<T>(xs: seq<T>, i: nat)
    requires i < |xs|
    ensures multiset(xs) == multiset(Without(xs, i)) + multiset{xs[i]}
  {
    assert xs == xs[..i] + [xs[i]] + xs[i + 1..];
  }

  lemma WithoutParts<T>(xs: seq<T>, i: nat)
    requires i < |xs|
    ensures var before, last := xs[..|xs| - 1], xs[|xs| - 1];
            xs == before + [last] && Without(xs, i) == if i < |xs| - 1 then Without(before, i) + [last] else before
  {
    if i < |xs| - 1 {
      var before, last := xs[..|xs| - 1], xs[|xs| - 1];
      assert xs[i + 1..] == before[i + 1..] + [last];
      assert xs[..i] == before[..i];
    }
  }

  /** A bucket does not depend on which campaign is added last. */
  lemma {:induction false} FoldTakesOut(rows: seq<Campaign>, i: nat, arm: string, f: Resource)
    requires i < |rows|
    ensures Fold(rows, arm, f) == AddIf(Fold(Without(rows, i), arm, f), rows[i], arm, f)
    decreases |rows|
  {
    hide Fold, Without, ReadingOf, Add;
    var before, last := rows[..|rows| - 1], rows[|rows| - 1];
    WithoutParts(rows, i);
    FoldLast(before, last, arm, f);
    if i < |rows| - 1 {
      FoldTakesOut(before, i, arm, f);
      FoldLast(Without(before, i), last, arm, f);
      AddCommutes(Fold(Without(before, i), arm, f), ReadingOf(rows[i], f), ReadingOf(last, f));
    }
  }

  lemma TakeSameOut(rows: seq<Campaign>, other: seq<Campaign>) returns (i: nat)
    requires multiset(rows) == multiset(other) && rows != []
    ensures i < |other| && other[i] == rows[|rows| - 1]
    ensures multiset(Without(rows, |rows| - 1)) == multiset(Without(other, i))
  {
    hide Without;
    var last := |rows| - 1;
    SameMembers(rows, other);
    assert rows[last] in other;
    i :| 0 <= i < |other| && other[i] == rows[last];
    WithoutMultiset(rows, last);
    WithoutMultiset(other, i);
    assert multiset(Without(rows, last)) == multiset(rows) - multiset{rows[last]};
    assert multiset(Without(other, i)) == multiset(other) - multiset{rows[last]};
  }

  lemma {:induction false} FoldIgnoresOrder(rows: seq<Campaign>, other: seq<Campaign>, arm: string, f: Resource)
    requires multiset(rows) == multiset(other)
    ensures Fold(rows, arm, f) == Fold(other, arm, f)
    decreases |rows|
  {
    hide Fold, ReadingOf, Add;
    if rows == [] {
      assert |multiset(other)| == |other|;
      assert other == [];
    } else {
      var i := TakeSameOut(rows, other);
      FoldTakesOut(rows, |rows| - 1, arm, f);
      FoldTakesOut(other, i, arm, f);
      FoldIgnoresOrder(Without(rows, |rows| - 1), Without(other, i), arm, f);
    }
  }

  /** What is on record is the value of some campaign, and with consistent rows of each. */
  lemma {:induction false} RecordedComesFrom(rows: seq<Campaign>, pair: PairKey, arm: string, f: Resource)
    ensures var r := Recorded(rows, pair, arm, f);
      && (r.None? ==> forall c :: c in rows && c.pair == pair && c.arm == arm ==> !ReadingOf(c, f).Complete())
      && (r.Some? ==> exists c :: c in rows && c.pair == pair && c.arm == arm
                                  && ReadingOf(c, f).Complete() && ReadingOf(c, f).value == r)
    decreases |rows|
  {
    hide ReadingOf;
    if rows != [] {
      var before, last := rows[..|rows| - 1], rows[|rows| - 1];
      RecordedComesFrom(before, pair, arm, f);
      assert forall c :: c in rows <==> c in before || c == last;
    }
  }

  lemma RecordedIgnoresOrder(rows: seq<Campaign>, other: seq<Campaign>, pair: PairKey, arm: string, f: Resource)
    requires multiset(rows) == multiset(other) && Consistent(rows)
    ensures Recorded(rows, pair, arm, f) == Recorded(other, pair, arm, f)
  {
    hide ReadingOf, Recorded;
    SameMembers(rows, other);
    RecordedComesFrom(rows, pair, arm, f);
    RecordedComesFrom(other, pair, arm, f);
  }

  lemma SameMembers(rows: seq<Campaign>, other: seq<Campaign>)
    requires multiset(rows) == multiset(other)
    ensures forall c :: c in rows <==> c in other
  {
    assert forall c :: c in rows <==> c in multiset(rows);
    assert forall c :: c in other <==> c in multiset(other);
  }

  lemma EffectsIgnoreOrder(rows: seq<Campaign>, other: seq<Campaign>, left: string, right: string, f: Resource)
    requires multiset(rows) == multiset(other) && Consistent(rows)
    ensures Effects(rows, left, right, f) == Effects(other, left, right, f)
  {
    hide Recorded, MeanBy, Consistent;
    SameMembers(rows, other);
    assert PairsOf(rows) == PairsOf(other);
    forall pair, arm ensures Recorded(rows, pair, arm, f) == Recorded(other, pair, arm, f) {
      RecordedIgnoresOrder(rows, other, pair, arm, f);
    }
    assert Differences(rows, left, right, f) == Differences(other, left, right, f);
  }

  /** With consistent campaigns the whole report is independent of their order. */
  lemma OrderDoesNotMatter(rows: seq<Campaign>, other: seq<Campaign>, cs: seq<Comparison>)
    requires multiset(rows) == multiset(other) && Consistent(rows)
    ensures ReportOf(rows, cs) == ReportOf(other, cs)
  {
    hide Effects, Fold, Summarize, Consistent;
    SameMembers(rows, other);
    assert Arms(rows) == Arms(other);
    forall arm, f ensures Fold(rows, arm, f) == Fold(other, arm, f) {
      FoldIgnoresOrder(rows, other, arm, f);
    }
    forall left, right, f ensures Effects(rows, left, right, f) == Effects(other, left, right, f) {
      EffectsIgnoreOrder(rows, other, left, right, f);
    }
    SameContrasts(rows, other, cs);
    forall arm ensures Summaries(rows, arm) == Summaries(other, arm) {
    }
  }

  /** So it is with one campaign per pair and arm, which the loader of the archives insists on. */
  lemma UniqueRowsMayBeReordered(rows: seq<Campaign>, other: seq<Campaign>, cs: seq<Comparison>)
    requires multiset(rows) == multiset(other) && UniquePairArms(rows)
    ensures ReportOf(rows, cs) == ReportOf(other, cs)
  {
    UniqueIsConsistent(rows);
    OrderDoesNotMatter(rows, other, cs);
  }

  lemma {:induction false} SameContrasts(rows: seq<Campaign>, other: seq<Campaign>, cs: seq<Comparison>)
    requires forall left, right, f :: Effects(rows, left, right, f) == Effects(other, left, right, f)
    ensures Contrasts(rows, cs) == Contrasts(other, cs)
    decreases |cs|
  {
    hide Effects;
    if cs != [] {
      SameContrasts(rows, other, cs[..|cs| - 1]);
      assert ContrastOf(rows, cs[|cs| - 1]) == ContrastOf(other, cs[|cs| - 1]);
    }
  }

  /** Exactly when the recorded values do not depend on the order: a repeated pair and arm with another
      complete value is settled by whichever campaign comes last. */
  lemma OrderMattersExactlyOnConflict(rows: seq<Campaign>)
    ensures Consistent(rows) <==>
            forall other: seq<Campaign> :: multiset(other) == multiset(rows) ==> SameRecords(rows, other)
  {
    if Consistent(rows) {
      forall other: seq<Campaign> | multiset(other) == multiset(rows) ensures SameRecords(rows, other) {
        forall pair, arm, f ensures Recorded(rows, pair, arm, f) == Recorded(other, pair, arm, f) {
          RecordedIgnoresOrder(rows, other, pair, arm, f);
        }
      }
    } else {
      var c, d, f :| c in rows && d in rows && c.pair == d.pair && c.arm == d.arm
                     && ReadingOf(c, f).Complete() && ReadingOf(d, f).Complete()
                     && ReadingOf(c, f).value != ReadingOf(d, f).value;
      var first := MoveLast(rows, c, f);
      var second := MoveLast(rows, d, f);
      assert !(SameRecords(rows, first) && SameRecords(rows, second));
    }
  }

  ghost predicate SameRecords(rows: seq<Campaign>, other: seq<Campaign>) {
    forall pair, arm, f :: Recorded(rows, pair, arm, f) == Recorded(other, pair, arm, f)
  }

  lemma MoveLast(rows: seq<Campaign>, c: Campaign, f: Resource) returns (other: seq<Campaign>)
    requires c in rows && ReadingOf(c, f).Complete()
    ensures multiset(other) == multiset(rows)
    ensures Recorded(other, c.pair, c.arm, f) == ReadingOf(c, f).value
  {
    var i :| 0 <= i < |rows| && rows[i] == c;
    WithoutMultiset(rows, i);
    other := Without(rows, i) + [c];
  }

  // ---------------------------------------------------------------- a conflict

  /** One campaign of a fixed pair and arm that took so many seconds. */
  function Timed(seconds: int): Campaign {
    Campaign(PairKey("lineage", "instance", 1), "direct",
             Object(map["wall_seconds" := Object(map["total" := Whole(1), "known" := Whole(1), "value" := Whole(seconds)])]))
  }

  lemma TimedReads(seconds: int)
    ensures ReadingOf(Timed(seconds), WallSeconds) == Applicable(1, 1, 0, Some(seconds as real))
  {
    var path := PathOf(WallSeconds);
    assert path == ["wall_seconds"] && path[1..] == [];
    assert Follow(Timed(seconds).timing, path) == At(Timed(seconds).timing.fields, "wall_seconds");
  }

  /** Two such campaigns, read in either order: the later one is what is on record. */
  lemma LaterCampaignWins()
    ensures var pair := PairKey("lineage", "instance", 1);
      && Recorded([Timed(1), Timed(2)], pair, "direct", WallSeconds) == Some(2.0)
      && Recorded([Timed(2), Timed(1)], pair, "direct", WallSeconds) == Some(1.0)
  {
    TimedReads(1);
    TimedReads(2);
  }

  /** An observation that says 3 in all and 1 known, and not how many are missing, misses 2. */
  lemma MissingIsTheRest()
    ensures var o := Object(map["total" := Whole(3), "known" := Whole(1), "value" := Whole(7)]);
            ReadingOf(Campaign(PairKey("lineage", "instance", 1), "direct", Object(map["wall_seconds" := o])), WallSeconds)
            == Applicable(3, 1, 2, Some(7.0))
  {
    var o := Object(map["total" := Whole(3), "known" := Whole(1), "value" := Whole(7)]);
    var timing, path := Object(map["wall_seconds" := o]), PathOf(WallSeconds);
    assert path == ["wall_seconds"] && path[1..] == [];
    assert Follow(timing, path) == At(timing.fields, "wall_seconds");
  }

  /** A campaign's observation of a resource counts as complete, with value x, exactly when it is found, says that
      something was expected, is x as a number, and misses nothing: by its own word, or else because as much is
      known as was expected. */
  lemma CompleteExactly(c: Campaign, f: Resource, x: real)
    ensures ReadingOf(c, f).Complete() && ReadingOf(c, f).value == Some(x) <==>
            var o := Observed(c.timing, PathOf(f));
      && o.Some?
      && var total, known, missing := At(o.value, "total"), At(o.value, "known"), At(o.value, "missing");
      && total.Whole? && total.n > 0
      && (At(o.value, "value") == Decimal(x) || exists n :: At(o.value, "value") == Whole(n) && n as real == x)
      && (missing == Whole(0) || ((missing.Whole? ==> missing.n < 0) && known.Whole? && known.n >= total.n))
  {
    hide Observed, PathOf, At;
  }

  /** Where in the timing record each resource is found. */
  lemma PathsLead(timing: map<string, Json>, proposal: map<string, Json>, verification: map<string, Json>)
    requires "proposal" in timing && timing["proposal"] == Object(proposal)
    requires "verification" in timing && timing["verification"] == Object(verification)
    requires At(timing, "status") != Text("unavailable")
    ensures var t := Object(timing);
      && Observed(t, PathOf(ProposalInputTokens)) == FieldsOf(At(proposal, "input_tokens"))
      && Observed(t, PathOf(ProposalOutputTokens)) == FieldsOf(At(proposal, "output_tokens"))
      && Observed(t, PathOf(ProposalRequestSeconds)) == FieldsOf(At(proposal, "request_seconds"))
      && Observed(t, PathOf(ProviderTotalDurationSeconds)) == FieldsOf(At(proposal, "provider_total_duration_seconds"))
      && Observed(t, PathOf(TotalStageSeconds)) == FieldsOf(At(verification, "total_stage_seconds"))
      && Observed(t, PathOf(WallSeconds)) == FieldsOf(At(timing, "wall_seconds"))
  {
    TwoSteps(timing, proposal, "proposal", "input_tokens");
    TwoSteps(timing, proposal, "proposal", "output_tokens");
    TwoSteps(timing, proposal, "proposal", "request_seconds");
    TwoSteps(timing, proposal, "proposal", "provider_total_duration_seconds");
    TwoSteps(timing, verification, "verification", "total_stage_seconds");
    OneStep(timing, "wall_seconds");
  }

  function FieldsOf(v: Json): Option<map<string, Json>> {
    if v.Object? then Some(v.fields) else None
  }

  lemma OneStep(o: map<string, Json>, key: string)
    ensures Follow(Object(o), [key]) == At(o, key)
  {
    assert [key][1..] == [];
  }

  lemma TwoSteps(o: map<string, Json>, inner: map<string, Json>, key: string, key2: string)
    requires key in o && o[key] == Object(inner)
    ensures Follow(Object(o), [key, key2]) == At(inner, key2)
  {
    assert [key, key2][1..] == [key2];
    OneStep(inner, key2);
  }

  // ---------------------------------------------------------------- left minus right

  lemma LoneEntry<K>(m: map<K, real>, k: K)
    requires m.Keys == {k}
    ensures Sum(m) == m[k] && m != map[] && Mean(m) == m[k]
  {
    SumWithout(m, k);
    assert m - {k} == map[];
    assert |m| == |m.Keys| == 1;
  }

  lemma LoneGroup<K, G>(m: map<K, real>, g: K -> G, k: K)
    requires k in m && forall j :: j in m && g(j) == g(k) ==> j == k
    ensures g(k) in MeanBy(m, g) && MeanBy(m, g)[g(k)] == m[k]
  {
    assert g(k) in GroupsIn(m, g);
    assert Group(m, g, g(k)).Keys == {k};
    LoneEntry(Group(m, g, g(k)), k);
  }

  /** Where a lineage has one matched pair, its effect in the contrast left-minus-right is just that: the left
      arm's value less the right arm's. */
  lemma EffectIsLeftLessRight(rows: seq<Campaign>, left: string, right: string, f: Resource, pair: PairKey)
    requires pair in PairsOf(rows) && Recorded(rows, pair, left, f).Some? && Recorded(rows, pair, right, f).Some?
    requires forall other :: other in PairsOf(rows) && other.lineage == pair.lineage && other != pair ==>
               Recorded(rows, other, left, f).None? || Recorded(rows, other, right, f).None?
    ensures var paired := ReportOf(rows, [(left, right)]).paired;
      && left + "-minus-" + right in paired && f in paired[left + "-minus-" + right]
      && pair.lineage in paired[left + "-minus-" + right][f]
      && paired[left + "-minus-" + right][f][pair.lineage]
         == Recorded(rows, pair, left, f).value - Recorded(rows, pair, right, f).value
  {
    hide Recorded, MeanBy;
    var ds := Differences(rows, left, right, f);
    var means := MeanBy(ds, InstanceOf);
    LoneGroup(ds, InstanceOf, pair);
    MeanKeys(ds, InstanceOf);
    forall i | i in means && LineageOf(i) == pair.lineage ensures i == InstanceOf(pair) {
      var j :| j in ds && InstanceOf(j) == i;
    }
    LoneGroup(means, LineageOf, InstanceOf(pair));
    FieldsAreAll(f);
    assert [(left, right)][..0] == [];
  }

  lemma MeanKeys<K, G>(m: map<K, real>, g: K -> G)
    ensures MeanBy(m, g).Keys == GroupsIn(m, g)
  {
  }
}
