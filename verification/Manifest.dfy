/** The offline manifest validator: row checks, cross-row checks, and the registered 120/120 design. */
module Manifest {
  import opened Wrappers
  import opened Numerals

  /** A JSON value. `repr` is the text str() gives for a number or a container. */
  datatype Value =
    | Null
    | Bool(b: bool)
    | Text(s: string)
    | Number(repr: string)
    | List(items: seq<Value>, repr: string)
    | Object(fields: seq<(string, Value)>, repr: string)

  type Row = seq<(string, Value)>

  function Lookup(row: Row, key: string): Option<Value> {
    if row == [] then None
    else if row[0].0 == key then Some(row[0].1)
    else Lookup(row[1..], key)
  }

  /** row.get(key) */
  function At(row: Row, key: string): Value {
    Lookup(row, key).GetOr(Null)
  }

  function Str(v: Value): string {
    match v
    case Null => "None"
    case Bool(b) => if b then "True" else "False"
    case Text(s) => s
    case Number(repr) => repr
    case List(_, repr) => repr
    case Object(_, repr) => repr
  }

  /** str(row.get(key, '')) */
  function StrAt(row: Row, key: string): string {
    match Lookup(row, key)
    case None => ""
    case Some(v) => Str(v)
  }

  predicate Truthy(v: Value) {
    match v
    case Null => false
    case Bool(b) => b
    case Text(s) => s != ""
    case Number(repr) => repr != "0" && repr != "0.0" && repr != "-0.0"
    case List(items, _) => items != []
    case Object(fields, _) => fields != []
  }

  predicate IsHex(s: string, least: nat, most: nat) {
    && least <= |s| <= most
    && forall c :: c in s ==> '0' <= c <= '9' || 'a' <= c <= 'f' || 'A' <= c <= 'F'
  }

  // ---------------------------------------------------------------- constants

  const REQUIRED := [
    "instance_id", "lineage_id", "protocol_name", "version_id", "split", "cohort", "status",
    "source_repository", "source_commit", "source_sha256", "artifact_pack_sha256",
    "compiler_settings_hash", "chain_pair", "architecture", "threat_profile_id",
    "attestation_profile_id", "property_family", "gold_property_id", "ground_truth_evidence_hash",
    "trigger_validation_status", "native_evm_scope"]

  const FAMILIES: set<Value> := {
    Text("input_validation"), Text("logic"), Text("quorum"), Text("replay"), Text("finality"), Text("message_handling")}

  const COHORTS: set<Value> := {
    Text("historical"), Text("sealed"), Text("negative"), Text("prospective"), Text("adaptation")}

  const ROW_HASHES := ["source_sha256", "artifact_pack_sha256", "compiler_settings_hash", "ground_truth_evidence_hash"]

  const ADMISSION_HASHES := [
    "source_archive_sha256", "artifact_manifest_sha256", "deployment_config_sha256",
    "paired_harness_sha256", "trigger_validation_evidence_hash"]

  const PLACEHOLDERS: set<Value> := {
    Text("replace"), Text("ACTUAL_HASH"), Text("replace_with_immutable_commit"),
    Text("ASSIGN_STABLE_ID"), Text("ACTUAL_PROTOCOL"), Text("EXACT_VERSION")}

  const SECRET_KEYS := {"gold_property", "trigger_calldata", "exploit_payload", "mutation_diff"}

  const POSITIVES: nat := 120
  const CONTROLS: nat := 120
  const LINEAGES: nat := 12
  const PER_LINEAGE: nat := 10
  const PER_FAMILY: nat := 20

  datatype Mode = Starter | Evaluation | Admission | Final

  datatype PathStep = Key(key: string) | Index(index: nat)

  datatype Kind =
    | MissingValues(keys: seq<string>)
    | DuplicateId
    | BadHash(key: string)
    | BadCommit | BadSplit | BadFamily | BadCohort | BadStatus | BadChainPair | BadScope
    | VulnerableNegative | NoTrigger | NoNegativeScope | NoSealTime | NotNative
    | PartnerAbsent | PartnerLineage | PartnerNotReciprocal
    | SecretField(path: seq<PathStep>)
    | Placeholder(field: string)
    | CohortNotEvaluated | SplitNotEvaluated
    | NotAdmitted | NoPatchHash | NoNegativeEvidence
    | NoAcceptance | NoOwner | BadAgent | NoAcceptanceTime | NoEvidenceRefs
    | LineageLeak | DuplicatePack
    | RowTotal | PositiveTotal | ControlTotal | LineageTotal | LineageCounts | FamilyCounts | FamilyCoverage
    | PartnerNotControl | PartnerFamily | PartnerSamePack

  datatype Error = Error(subject: string, kind: Kind)

  function When(condition: bool, subject: string, kind: Kind): seq<Error> {
    if condition then [Error(subject, kind)] else []
  }

  // ---------------------------------------------------------------- one row

  function RowName(n: nat): string {
    "row-" + Decimal(n)
  }

  /** The printed identity of the row at position `n`, counted from 0. */
  function Ident(rows: seq<Row>, n: nat): string
    requires n < |rows|
  {
    match Lookup(rows[n], "instance_id")
    case None => RowName(n + 1)
    case Some(v) => Str(v)
  }

  function MissingKeys(row: Row, keys: seq<string>): seq<string> {
    if keys == [] then []
    else (if At(row, keys[0]) == Null then [keys[0]] else []) + MissingKeys(row, keys[1..])
  }

  function HashErrors(row: Row, ident: string, keys: seq<string>): seq<Error> {
    if keys == [] then []
    else When(!IsHex(StrAt(row, keys[0]), 64, 64), ident, BadHash(keys[0])) + HashErrors(row, ident, keys[1..])
  }

  /** forbidden_nested_paths */
  function SecretPaths(v: Value, path: seq<PathStep>): seq<seq<PathStep>>
    decreases v, 1
  {
    match v
    case Object(fields, _) => SecretFields(fields, path)
    case List(items, _) => SecretItems(items, 0, path)
    case _ => []
  }

  function SecretFields(fields: seq<(string, Value)>, path: seq<PathStep>): seq<seq<PathStep>>
    decreases fields, 0
  {
    if fields == [] then []
    else
      SecretsIn(fields[0], path + [Key(fields[0].0)]) + SecretFields(fields[1..], path)
  }

  function SecretsIn(field: (string, Value), here: seq<PathStep>): seq<seq<PathStep>>
    decreases field, 0
  {
    (if field.0 in SECRET_KEYS then [here] else []) + SecretPaths(field.1, here)
  }

  function SecretItems(items: seq<Value>, index: nat, path: seq<PathStep>): seq<seq<PathStep>>
    decreases items, 0
  {
    if items == [] then []
    else SecretPaths(items[0], path + [Index(index)]) + SecretItems(items[1..], index + 1, path)
  }

  function SecretErrors(ident: string, paths: seq<seq<PathStep>>): seq<Error> {
    if paths == [] then [] else [Error(ident, SecretField(paths[0]))] + SecretErrors(ident, paths[1..])
  }

  function PlaceholderErrors(row: Row, ident: string): seq<Error> {
    if row == [] then []
    else When(row[0].1 in PLACEHOLDERS, ident, Placeholder(row[0].0)) + PlaceholderErrors(row[1..], ident)
  }

  predicate IsName(v: Value) {
    v.Text? && v.s != ""
  }

  predicate ChainPairOk(v: Value) {
    v.List? && |v.items| == 2 && IsName(v.items[0]) && IsName(v.items[1])
  }

  /** The checks on one row that look at no other row, up to the linkage check. */
  function ShapeErrors(row: Row, ident: string): seq<Error> {
    FieldErrors(row, ident) + CohortErrors(row, ident)
  }

  function FieldErrors(row: Row, ident: string): seq<Error> {
    var status, cohort := At(row, "status"), At(row, "cohort");
    HashErrors(row, ident, ROW_HASHES)
    + When(!IsHex(StrAt(row, "source_commit"), 40, 64), ident, BadCommit)
    + When(At(row, "split") !in {Text("development"), Text("evaluation")}, ident, BadSplit)
    + When(At(row, "property_family") !in FAMILIES, ident, BadFamily)
    + When(cohort !in COHORTS, ident, BadCohort)
    + When(status !in {Text("vulnerable"), Text("patched"), Text("benign")}, ident, BadStatus)
    + When(!ChainPairOk(At(row, "chain_pair")), ident, BadChainPair)
    + When(!At(row, "native_evm_scope").Bool?, ident, BadScope)
  }

  function CohortErrors(row: Row, ident: string): seq<Error> {
    var status, cohort := At(row, "status"), At(row, "cohort");
    When(cohort == Text("negative") && status == Text("vulnerable"), ident, VulnerableNegative)
    + When(status == Text("vulnerable") && At(row, "trigger_validation_status") != Text("pass"), ident, NoTrigger)
    + When(status in {Text("patched"), Text("benign")} && !Truthy(At(row, "negative_validation_scope")), ident, NoNegativeScope)
    + When(cohort == Text("sealed") && !Truthy(At(row, "seal_timestamp")), ident, NoSealTime)
    + When(cohort == Text("historical") && At(row, "native_evm_scope") != Bool(true), ident, NotNative)
  }

  /** by_id: the last row with that identifier. */
  function ById(rows: seq<Row>, id: Value): Option<Row> {
    if rows == [] then None
    else if At(rows[|rows| - 1], "instance_id") == id then Some(rows[|rows| - 1])
    else ById(rows[..|rows| - 1], id)
  }

  function LinkErrors(rows: seq<Row>, row: Row, ident: string): seq<Error> {
    var paired := At(row, "paired_instance_id");
    if !Truthy(paired) then []
    else
      match ById(rows, paired)
      case None => [Error(ident, PartnerAbsent)]
      case Some(other) =>
        if At(other, "lineage_id") != At(row, "lineage_id") then [Error(ident, PartnerLineage)]
        else When(At(other, "paired_instance_id") != Text(ident), ident, PartnerNotReciprocal)
  }

  function ModeErrors(row: Row, ident: string, mode: Mode): seq<Error> {
    (if mode == Evaluation || mode == Admission then
       When(At(row, "cohort") !in {Text("sealed"), Text("negative")}, ident, CohortNotEvaluated)
       + When(At(row, "split") != Text("evaluation"), ident, SplitNotEvaluated)
     else [])
    + (if mode == Admission || mode == Final then AdmissionErrors(row, ident) else [])
  }

  function AdmissionErrors(row: Row, ident: string): seq<Error> {
    var status, acceptance := At(row, "status"), At(row, "admission_acceptance");
    When(At(row, "admission_status") != Text("admitted"), ident, NotAdmitted)
    + HashErrors(row, ident, ADMISSION_HASHES)
    + (if status == Text("vulnerable") then When(!IsHex(StrAt(row, "mutation_patch_sha256"), 64, 64), ident, NoPatchHash)
       else if status in {Text("patched"), Text("benign")} then
         When(!IsHex(StrAt(row, "negative_validation_evidence_hash"), 64, 64), ident, NoNegativeEvidence)
       else [])
    + (if acceptance.Object? then AcceptanceErrors(acceptance.fields, ident) else [Error(ident, NoAcceptance)])
  }

  function AcceptanceErrors(acceptance: Row, ident: string): seq<Error> {
    var refs := At(acceptance, "evidence_refs");
    When(!IsName(At(acceptance, "owner")), ident, NoOwner)
    + When(At(acceptance, "agent") != Text("codex"), ident, BadAgent)
    + When(!IsName(At(acceptance, "accepted_at")), ident, NoAcceptanceTime)
    + When(!refs.List? || refs.items == [], ident, NoEvidenceRefs)
  }

  ghost predicate SeenBefore(rows: seq<Row>, n: nat)
    requires n < |rows|
  {
    exists j :: 0 <= j < n && Ident(rows, j) == Ident(rows, n)
  }

  /** What the main loop appends for the row at position `n`, `seen` telling whether its identity was taken. */
  function RowErrorsIf(seen: bool, rows: seq<Row>, n: nat, mode: Mode): seq<Error>
    requires n < |rows|
  {
    var row, ident := rows[n], Ident(rows, n);
    var missing := MissingKeys(row, REQUIRED);
    When(missing != [], ident, MissingValues(missing))
    + When(seen, ident, DuplicateId)
    + ShapeErrors(row, ident)
    + LinkErrors(rows, row, ident)
    + SecretErrors(ident, SecretFields(row, []))
    + PlaceholderErrors(row, ident)
    + ModeErrors(row, ident, mode)
  }

  ghost function RowErrors(rows: seq<Row>, n: nat, mode: Mode): seq<Error>
    requires n < |rows|
  {
    RowErrorsIf(SeenBefore(rows, n), rows, n, mode)
  }

  ghost function AllRowErrors(rows: seq<Row>, n: nat, mode: Mode): seq<Error>
    requires n <= |rows|
  {
    if n == 0 then [] else AllRowErrors(rows, n - 1, mode) + RowErrors(rows, n - 1, mode)
  }

  // ---------------------------------------------------------------- across rows

  /** The splits a lineage occurs in. Rows whose lineage prints as nothing are not tracked. */
  function SplitsOf(rows: seq<Row>, lineage: string): set<string> {
    set row | row in rows && StrAt(row, "lineage_id") == lineage :: Str(At(row, "split"))
  }

  /** Distinct printed values of a key, in order of first occurrence. */
  function Printed(rows: seq<Row>, key: string): seq<string> {
    if rows == [] then []
    else
      var before, s := Printed(rows[..|rows| - 1], key), StrAt(rows[|rows| - 1], key);
      if s in before then before else before + [s]
  }

  function LeakErrors(rows: seq<Row>, lineages: seq<string>): seq<Error> {
    if lineages == [] then []
    else
      When(lineages[0] != "" && |SplitsOf(rows, lineages[0])| > 1, lineages[0], LineageLeak) + LeakErrors(rows, lineages[1..])
  }

  function Count(rows: seq<Row>, key: string, v: Value): nat {
    if rows == [] then 0
    else Count(rows[..|rows| - 1], key, v) + if At(rows[|rows| - 1], key) == v then 1 else 0
  }

  /** hashes[digest]: the identity of the last row whose pack prints so. */
  function LastHolder(rows: seq<Row>, n: nat, digest: string): string
    requires n <= |rows|
  {
    if n == 0 then ""
    else if StrAt(rows[n - 1], "artifact_pack_sha256") == digest then Ident(rows, n - 1)
    else LastHolder(rows, n - 1, digest)
  }

  function PackErrors(rows: seq<Row>, digests: seq<string>): seq<Error> {
    if digests == [] then []
    else
      When(Count(rows, "artifact_pack_sha256", Text(digests[0])) > 1, LastHolder(rows, |rows|, digests[0]), DuplicatePack)
      + PackErrors(rows, digests[1..])
  }

  // ---------------------------------------------------------------- the registered design

  predicate IsPositive(row: Row) {
    At(row, "status") == Text("vulnerable") && At(row, "cohort") == Text("sealed")
  }

  predicate IsControl(row: Row) {
    At(row, "status") in {Text("patched"), Text("benign")} && At(row, "cohort") == Text("negative")
  }

  function Select(rows: seq<Row>, keep: Row -> bool): seq<Row> {
    if rows == [] then []
    else
      var before, row := Select(rows[..|rows| - 1], keep), rows[|rows| - 1];
      if keep(row) then before + [row] else before
  }

  function Values(rows: seq<Row>, key: string): set<Value> {
    set row | row in rows :: At(row, key)
  }

  /** The lineages, as text, in which a group has a given printed family. */
  function Coverage(group: seq<Row>, family: Value): set<string> {
    set row | row in group && Str(At(row, "property_family")) == Str(family) :: Str(At(row, "lineage_id"))
  }

  predicate Balanced(group: seq<Row>, key: string, per: nat) {
    forall v :: v in Values(group, key) ==> Count(group, key, v) == per
  }

  function GroupErrors(group: seq<Row>, subject: string): seq<Error> {
    When(!Balanced(group, "lineage_id", PER_LINEAGE) || |Values(group, "lineage_id")| != LINEAGES, subject, LineageCounts)
    + When(Values(group, "property_family") != FAMILIES || !Balanced(group, "property_family", PER_FAMILY), subject, FamilyCounts)
    + When(exists family :: family in FAMILIES && |Coverage(group, family)| < 4, subject, FamilyCoverage)
  }

  /** What the pairing loop appends for one positive. */
  function PartnerErrors(rows: seq<Row>, row: Row): seq<Error> {
    var ident := match Lookup(row, "instance_id") case None => "<missing>" case Some(v) => Str(v);
    match ById(rows, At(row, "paired_instance_id"))
    case None => []
    case Some(other) =>
      When(At(other, "status") == Text("vulnerable") || At(other, "cohort") != Text("negative"), ident, PartnerNotControl)
      + When(At(other, "property_family") != At(row, "property_family"), ident, PartnerFamily)
      + When(At(other, "artifact_pack_sha256") == At(row, "artifact_pack_sha256"), ident, PartnerSamePack)
  }

  function PairErrors(rows: seq<Row>, positives: seq<Row>): seq<Error> {
    if positives == [] then []
    else PairErrors(rows, positives[..|positives| - 1]) + PartnerErrors(rows, positives[|positives| - 1])
  }

  function FinalErrors(rows: seq<Row>): seq<Error> {
    var positives, controls := Select(rows, IsPositive), Select(rows, IsControl);
    TotalErrors(rows, positives, controls)
    + GroupErrors(positives, "positive")
    + GroupErrors(controls, "control")
    + PairErrors(rows, positives)
  }

  function TotalErrors(rows: seq<Row>, positives: seq<Row>, controls: seq<Row>): seq<Error> {
    When(|rows| != POSITIVES + CONTROLS, "", RowTotal)
    + When(|positives| != POSITIVES, "", PositiveTotal)
    + When(|controls| != CONTROLS, "", ControlTotal)
    + When(|set v | v in Values(rows, "lineage_id") && v.Text?| != LINEAGES, "", LineageTotal)
  }

  /** The whole error list of validate(rows, mode). */
  ghost function Errors(rows: seq<Row>, mode: Mode): seq<Error> {
    AllRowErrors(rows, |rows|, mode)
    + LeakErrors(rows, Printed(rows, "lineage_id"))
    + (if mode == Starter then [] else PackErrors(rows, Printed(rows, "artifact_pack_sha256")))
    + (if mode == Final then FinalErrors(rows) else [])
  }

  // ---------------------------------------------------------------- the validator's loops

  ghost function IdentsBelow(rows: seq<Row>, n: nat): set<string>
    requires n <= |rows|
  {
    set j | 0 <= j < n :: Ident(rows, j)
  }

  /** The dictionaries the main loop keeps, after `n` rows. */
  ghost predicate Tracks(rows: seq<Row>, n: nat, lineages: seq<string>, splits: map<string, set<string>>,
                         digests: seq<string>, hashes: map<string, string>)
    requires n <= |rows|
  {
    && lineages == Printed(rows[..n], "lineage_id")
    && digests == Printed(rows[..n], "artifact_pack_sha256")
    && (forall l :: l in lineages <==> l in splits)
    && (forall l :: l in splits ==> splits[l] == SplitsOf(rows[..n], l))
    && (forall d :: d in digests <==> d in hashes)
    && (forall d :: d in hashes ==> hashes[d] == LastHolder(rows, n, d))
  }

  lemma PrintedNext(rows: seq<Row>, n: nat, key: string)
    requires n < |rows|
    ensures var before, s := Printed(rows[..n], key), StrAt(rows[n], key);
            Printed(rows[..n + 1], key) == if s in before then before else before + [s]
  {
    hide StrAt;
    assert rows[..n + 1][..n] == rows[..n];
  }

  lemma SplitsNext(rows: seq<Row>, n: nat, lineage: string)
    requires n < |rows|
    ensures SplitsOf(rows[..n + 1], lineage)
         == SplitsOf(rows[..n], lineage) + (if StrAt(rows[n], "lineage_id") == lineage then {Str(At(rows[n], "split"))} else {})
  {
    hide StrAt, At, Str;
    assert rows[..n + 1] == rows[..n] + [rows[n]];
    forall row | row in rows[..n + 1] ensures row in rows[..n] || row == rows[n] {}
  }

  lemma TrackNext(rows: seq<Row>, n: nat, lineages: seq<string>, splits: map<string, set<string>>,
                  digests: seq<string>, hashes: map<string, string>)
    requires n < |rows| && Tracks(rows, n, lineages, splits, digests, hashes)
    ensures var l, d, s := StrAt(rows[n], "lineage_id"), StrAt(rows[n], "artifact_pack_sha256"), Str(At(rows[n], "split"));
            Tracks(rows, n + 1,
                   if l in splits then lineages else lineages + [l],
                   splits[l := (if l in splits then splits[l] else {}) + {s}],
                   if d in hashes then digests else digests + [d],
                   hashes[d := Ident(rows, n)])
  {
    hide StrAt, At, Str, Ident, Printed, SplitsOf;
    PrintedNext(rows, n, "lineage_id");
    PrintedNext(rows, n, "artifact_pack_sha256");
    var l := StrAt(rows[n], "lineage_id");
    if l !in splits {
      NotPrintedNoSplits(rows[..n], l);
    }
    forall m ensures SplitsOf(rows[..n + 1], m) == SplitsOf(rows[..n], m) + (if l == m then {Str(At(rows[n], "split"))} else {}) {
      SplitsNext(rows, n, m);
    }
  }

  lemma {:induction false} NotPrintedNoSplits(rows: seq<Row>, lineage: string)
    requires lineage !in Printed(rows, "lineage_id")
    ensures SplitsOf(rows, lineage) == {}
    decreases |rows|
  {
    if rows != [] {
      var before, last := rows[..|rows| - 1], rows[|rows| - 1];
      NotPrintedNoSplits(before, lineage);
      forall row | row in rows ensures StrAt(row, "lineage_id") != lineage {
        if row in before {
          assert Str(At(row, "split")) in SplitsOf(before, lineage) <==> StrAt(row, "lineage_id") == lineage;
        } else {
          assert row == last;
        }
      }
    }
  }

  /** validate: the errors, in the order they are appended. Warnings are not modelled. */
  method Validate(rows: seq<Row>, mode: Mode) returns (errors: seq<Error>)
    ensures errors == Errors(rows, mode)
  {
    hide AllRowErrors, LeakErrors, PackErrors, FinalErrors, SplitsOf, LastHolder, Printed;
    var lineages, splits, digests, hashes;
    errors, lineages, splits, digests, hashes := ScanRows(rows, mode);
    assert rows[..|rows|] == rows;
    var leaks := ReportLeaks(rows, lineages, splits);
    errors := errors + leaks;
    if mode != Starter {
      var packs := ReportPacks(rows, digests, hashes);
      errors := errors + packs;
    }
    if mode == Final {
      var final := FinalManifestErrors(rows);
      errors := errors + final;
    }
  }

  method ScanRows(rows: seq<Row>, mode: Mode)
    returns (errors: seq<Error>, lineages: seq<string>, splits: map<string, set<string>>,
             digests: seq<string>, hashes: map<string, string>)
    ensures errors == AllRowErrors(rows, |rows|, mode)
    ensures Tracks(rows, |rows|, lineages, splits, digests, hashes)
  {
    hide RowErrorsIf, Ident, StrAt, At, Str, Printed, SplitsOf, LastHolder;
    errors := [];
    var ids: set<string> := {};
    lineages, splits, digests, hashes := [], map[], [], map[];
    TracksNothing(rows);
    var n := 0;
    while n < |rows|
      invariant 0 <= n <= |rows|
      invariant errors == AllRowErrors(rows, n, mode)
      invariant ids == IdentsBelow(rows, n)
      invariant Tracks(rows, n, lineages, splits, digests, hashes)
    {
      var ident := Ident(rows, n);
      TrackNext(rows, n, lineages, splits, digests, hashes);
      errors := errors + RowErrorsIf(ident in ids, rows, n, mode);
      ids := ids + {ident};
      var lineage, digest := StrAt(rows[n], "lineage_id"), StrAt(rows[n], "artifact_pack_sha256");
      splits, lineages := splits[lineage := (if lineage in splits then splits[lineage] else {}) + {Str(At(rows[n], "split"))}],
                          if lineage in splits then lineages else lineages + [lineage];
      hashes, digests := hashes[digest := ident], if digest in hashes then digests else digests + [digest];
      n := n + 1;
    }
  }

  lemma TracksNothing(rows: seq<Row>)
    ensures Tracks(rows, 0, [], map[], [], map[])
  {
    assert rows[..0] == [];
  }

  method ReportLeaks(rows: seq<Row>, lineages: seq<string>, splits: map<string, set<string>>) returns (errors: seq<Error>)
    requires forall l :: l in lineages ==> l in splits && splits[l] == SplitsOf(rows, l)
    ensures errors == LeakErrors(rows, lineages)
  {
    hide SplitsOf;
    errors := [];
    var n := 0;
    while n < |lineages|
      invariant 0 <= n <= |lineages|
      invariant errors + LeakErrors(rows, lineages[n..]) == LeakErrors(rows, lineages)
    {
      if lineages[n] != "" && |splits[lineages[n]]| > 1 {
        errors := errors + [Error(lineages[n], LineageLeak)];
      }
      assert lineages[n..][1..] == lineages[n + 1..];
      n := n + 1;
    }
  }

  method ReportPacks(rows: seq<Row>, digests: seq<string>, hashes: map<string, string>) returns (errors: seq<Error>)
    requires forall d :: d in digests ==> d in hashes && hashes[d] == LastHolder(rows, |rows|, d)
    ensures errors == PackErrors(rows, digests)
  {
    hide LastHolder, Count;
    errors := [];
    var n := 0;
    while n < |digests|
      invariant 0 <= n <= |digests|
      invariant errors + PackErrors(rows, digests[n..]) == PackErrors(rows, digests)
    {
      if Count(rows, "artifact_pack_sha256", Text(digests[n])) > 1 {
        errors := errors + [Error(hashes[digests[n]], DuplicatePack)];
      }
      assert digests[n..][1..] == digests[n + 1..];
      n := n + 1;
    }
  }

  method FinalManifestErrors(rows: seq<Row>) returns (errors: seq<Error>)
    ensures errors == FinalErrors(rows)
  {
    hide GroupErrors, TotalErrors, PartnerErrors, Select, IsPositive, IsControl;
    var positives, controls := Select(rows, IsPositive), Select(rows, IsControl);
    errors := TotalErrors(rows, positives, controls) + GroupErrors(positives, "positive") + GroupErrors(controls, "control");
    ghost var groups := errors;
    var n := 0;
    while n < |positives|
      invariant 0 <= n <= |positives|
      invariant errors == groups + PairErrors(rows, positives[..n])
    {
      errors := errors + PartnerErrors(rows, positives[n]);
      assert positives[..n + 1][..n] == positives[..n];
      n := n + 1;
    }
    assert positives[..n] == positives;
  }
}
