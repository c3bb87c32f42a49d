/** Which messages the manifest validator reports: about which row or lineage, of which kind, in which mode. */
module Messages {
  import opened Manifest
  import opened Wrappers
  import opened Numerals
  import Design

  // ---------------------------------------------------------------- what is wrong with a row

  /** A hash key of the row whose text is not 64 hexadecimal digits. */
  predicate HashFault(row: Row, keys: set<string>, key: string) {
    key in keys && !IsHex(StrAt(row, key), 64, 64)
  }

  ghost predicate TwoNames(v: Value) {
    exists a, b, repr :: v == List([Text(a), Text(b)], repr) && a != "" && b != ""
  }

  const ROW_KEYS: set<string> :=
    {"source_sha256", "artifact_pack_sha256", "compiler_settings_hash", "ground_truth_evidence_hash"}

  const ADMISSION_KEYS: set<string> :=
    {"source_archive_sha256", "artifact_manifest_sha256", "deployment_config_sha256", "paired_harness_sha256",
     "trigger_validation_evidence_hash"}

  ghost predicate ShapeFault(row: Row, kind: Kind) {
    FieldFault(row, kind) || CohortFault(row, kind)
  }

  ghost predicate FieldFault(row: Row, kind: Kind) {
    var status, cohort := At(row, "status"), At(row, "cohort");
    match kind
    case BadHash(key) => HashFault(row, ROW_KEYS, key)
    case BadCommit => !IsHex(StrAt(row, "source_commit"), 40, 64)
    case BadSplit => At(row, "split") != Text("development") && At(row, "split") != Text("evaluation")
    case BadFamily => At(row, "property_family") !in FAMILIES
    case BadCohort => cohort !in COHORTS
    case BadStatus => status != Text("vulnerable") && status != Text("patched") && status != Text("benign")
    case BadChainPair => !TwoNames(At(row, "chain_pair"))
    case BadScope => At(row, "native_evm_scope") != Bool(true) && At(row, "native_evm_scope") != Bool(false)
    case _ => false
  }

  predicate CohortFault(row: Row, kind: Kind) {
    var status, cohort := At(row, "status"), At(row, "cohort");
    match kind
    case VulnerableNegative => status == Text("vulnerable") && cohort == Text("negative")
    case NoTrigger => status == Text("vulnerable") && At(row, "trigger_validation_status") != Text("pass")
    case NoNegativeScope =>
      (status == Text("patched") || status == Text("benign")) && !Truthy(At(row, "negative_validation_scope"))
    case NoSealTime => cohort == Text("sealed") && !Truthy(At(row, "seal_timestamp"))
    case NotNative => cohort == Text("historical") && At(row, "native_evm_scope") != Bool(true)
    case _ => false
  }

  /** The row a partner name stands for is the last one with that identity. */
  ghost predicate StandsFor(rows: seq<Row>, id: Value, other: Row) {
    exists j :: 0 <= j < |rows| && rows[j] == other && At(other, "instance_id") == id
                && forall k :: j < k < |rows| ==> At(rows[k], "instance_id") != id
  }

  ghost predicate LinkFault(rows: seq<Row>, row: Row, ident: string, kind: Kind) {
    var paired := At(row, "paired_instance_id");
    && Truthy(paired)
    && match kind
       case PartnerAbsent => forall other :: other in rows ==> At(other, "instance_id") != paired
       case PartnerLineage => exists other :: StandsFor(rows, paired, other) && At(other, "lineage_id") != At(row, "lineage_id")
       case PartnerNotReciprocal =>
         exists other :: StandsFor(rows, paired, other) && At(other, "lineage_id") == At(row, "lineage_id")
                         && At(other, "paired_instance_id") != Text(ident)
       case _ => false
  }

  predicate ModeFault(row: Row, mode: Mode, kind: Kind) {
    match kind
    case CohortNotEvaluated =>
      (mode == Evaluation || mode == Admission) && At(row, "cohort") != Text("sealed") && At(row, "cohort") != Text("negative")
    case SplitNotEvaluated => (mode == Evaluation || mode == Admission) && At(row, "split") != Text("evaluation")
    case _ => (mode == Admission || mode == Final) && AdmissionFault(row, kind)
  }

  predicate AdmissionFault(row: Row, kind: Kind) {
    var status, acceptance := At(row, "status"), At(row, "admission_acceptance");
    match kind
    case NotAdmitted => At(row, "admission_status") != Text("admitted")
    case BadHash(key) => HashFault(row, ADMISSION_KEYS, key)
    case NoPatchHash => status == Text("vulnerable") && !IsHex(StrAt(row, "mutation_patch_sha256"), 64, 64)
    case NoNegativeEvidence =>
      (status == Text("patched") || status == Text("benign")) && !IsHex(StrAt(row, "negative_validation_evidence_hash"), 64, 64)
    case NoAcceptance => !acceptance.Object?
    case _ => acceptance.Object? && AcceptanceFault(acceptance.fields, kind)
  }

  predicate AcceptanceFault(acceptance: Row, kind: Kind) {
    match kind
    case NoOwner => !IsName(At(acceptance, "owner"))
    case BadAgent => At(acceptance, "agent") != Text("codex")
    case NoAcceptanceTime => !IsName(At(acceptance, "accepted_at"))
    case NoEvidenceRefs => !(At(acceptance, "evidence_refs").List? && Truthy(At(acceptance, "evidence_refs")))
    case _ => false
  }

  /** Following the path through objects and lists ends at a forbidden key. */
  ghost predicate Leads(v: Value, path: seq<PathStep>)
    decreases path, 2
  {
    && path != []
    && match v
       case Object(fields, _) => FieldsLead(fields, path)
       case List(items, _) =>
         path[0].Index? && path[0].index < |items| && Leads(items[path[0].index], path[1..])
       case _ => false
  }

  ghost predicate FieldsLead(fields: seq<(string, Value)>, path: seq<PathStep>)
    decreases path, 1
  {
    path != [] && exists field :: field in fields && FieldLeads(field, path)
  }

  ghost predicate FieldLeads(field: (string, Value), path: seq<PathStep>)
    requires path != []
    decreases path, 0
  {
    && path[0] == Key(field.0)
    && if |path| == 1 then field.0 in {"gold_property", "trigger_calldata", "exploit_payload", "mutation_diff"}
       else Leads(field.1, path[1..])
  }

  /** Everything that can be wrong with the row at position `n`. */
  ghost predicate RowFault(rows: seq<Row>, n: nat, mode: Mode, subject: string, kind: Kind)
    requires n < |rows|
  {
    match kind
    case MissingValues(keys) => keys == MissingKeys(rows[n], REQUIRED) && keys != []
    case DuplicateId => exists j :: 0 <= j < n && IsNamed(rows, j, subject)
    case SecretField(path) => FieldsLead(rows[n], path)
    case Placeholder(key) => exists v :: (key, v) in rows[n] && v in PLACEHOLDERS
    case _ => ShapeFault(rows[n], kind) || LinkFault(rows, rows[n], subject, kind) || ModeFault(rows[n], mode, kind)
  }

  /** A row goes by its identity, and one without by its number, counted from one. */
  predicate IsNamed(rows: seq<Row>, n: nat, subject: string)
    requires n < |rows|
  {
    if Lookup(rows[n], "instance_id") == None then subject == "row-" + Decimal(n + 1)
    else subject == StrAt(rows[n], "instance_id")
  }

  // ---------------------------------------------------------------- the checks, one by one

  lemma {:induction false} HashMessages(row: Row, ident: string, keys: seq<string>, e: Error)
    ensures e in HashErrors(row, ident, keys) <==>
            e.subject == ident && e.kind.BadHash? && e.kind.key in keys && !IsHex(StrAt(row, e.kind.key), 64, 64)
  {
    if keys != [] {
      HashMessages(row, ident, keys[1..], e);
    }
  }

  lemma HashKeys(row: Row, ident: string, e: Error)
    ensures e in HashErrors(row, ident, ROW_HASHES) <==> e.subject == ident && e.kind.BadHash? && HashFault(row, ROW_KEYS, e.kind.key)
    ensures e in HashErrors(row, ident, ADMISSION_HASHES) <==>
            e.subject == ident && e.kind.BadHash? && HashFault(row, ADMISSION_KEYS, e.kind.key)
  {
    hide HashErrors, StrAt, IsHex;
    HashMessages(row, ident, ROW_HASHES, e);
    HashMessages(row, ident, ADMISSION_HASHES, e);
  }

  lemma WhenMessages(e: Error)
    ensures forall condition, subject, kind :: e in When(condition, subject, kind) <==> condition && e == Error(subject, kind)
  {
  }

  lemma ShapeMessages(row: Row, ident: string, e: Error)
    ensures e in ShapeErrors(row, ident) <==> e.subject == ident && ShapeFault(row, e.kind)
  {
    hide FieldErrors, CohortErrors, FieldFault, CohortFault;
    FieldMessages(row, ident, e);
    CohortMessages(row, ident, e);
  }

  lemma CohortMessages(row: Row, ident: string, e: Error)
    ensures e in CohortErrors(row, ident) <==> e.subject == ident && CohortFault(row, e.kind)
  {
    hide At, Truthy, When;
    WhenMessages(e);
  }

  lemma FieldMessages(row: Row, ident: string, e: Error)
    ensures e in FieldErrors(row, ident) <==> e.subject == ident && FieldFault(row, e.kind)
  {
    hide At, StrAt, IsHex, HashErrors, ChainPairOk, TwoNames, When, HashFault;
    WhenMessages(e);
    HashKeys(row, ident, e);
    PairMessages(At(row, "chain_pair"));
  }

  lemma PairMessages(v: Value)
    ensures ChainPairOk(v) <==> TwoNames(v)
  {
    if ChainPairOk(v) {
      assert v == List([Text(v.items[0].s), Text(v.items[1].s)], v.repr);
    }
  }

  lemma {:induction false} ByIdStandsFor(rows: seq<Row>, id: Value)
    ensures match ById(rows, id)
            case None => forall other :: other in rows ==> At(other, "instance_id") != id
            case Some(other) => StandsFor(rows, id, other)
    decreases |rows|
  {
    hide At;
    if rows != [] && At(rows[|rows| - 1], "instance_id") != id {
      ByIdStandsFor(rows[..|rows| - 1], id);
    }
  }

  lemma StandsForOne(rows: seq<Row>, id: Value, other: Row, another: Row)
    requires StandsFor(rows, id, other)
    ensures StandsFor(rows, id, another) ==> other == another
    ensures other in rows && At(other, "instance_id") == id
  {
    hide At;
  }

  lemma PartnerIs(rows: seq<Row>, id: Value)
    ensures forall other :: StandsFor(rows, id, other) <==> ById(rows, id) == Some(other)
    ensures ById(rows, id) == None <==> forall other :: other in rows ==> At(other, "instance_id") != id
  {
    hide At, StandsFor, ById;
    ByIdStandsFor(rows, id);
    forall other ensures StandsFor(rows, id, other) <==> ById(rows, id) == Some(other) {
      if StandsFor(rows, id, other) {
        StandsForOne(rows, id, other, if ById(rows, id) == None then other else ById(rows, id).value);
      }
    }
    if ById(rows, id) != None {
      StandsForOne(rows, id, ById(rows, id).value, ById(rows, id).value);
    }
  }

  lemma LinkMessages(rows: seq<Row>, row: Row, ident: string, e: Error)
    ensures e in LinkErrors(rows, row, ident) <==> e.subject == ident && LinkFault(rows, row, ident, e.kind)
  {
    hide At, Truthy, StandsFor, ById, When;
    WhenMessages(e);
    PartnerIs(rows, At(row, "paired_instance_id"));
  }

  lemma AdmissionMessages(row: Row, ident: string, e: Error)
    ensures e in AdmissionErrors(row, ident) <==> e.subject == ident && AdmissionFault(row, e.kind)
  {
    hide At, StrAt, IsHex, HashErrors, When, HashFault, AcceptanceErrors, IsName, Truthy;
    WhenMessages(e);
    HashKeys(row, ident, e);
    if At(row, "admission_acceptance").Object? {
      AcceptanceMessages(At(row, "admission_acceptance").fields, ident, e);
    }
  }

  lemma AcceptanceMessages(acceptance: Row, ident: string, e: Error)
    ensures e in AcceptanceErrors(acceptance, ident) <==> e.subject == ident && AcceptanceFault(acceptance, e.kind)
  {
    hide At, IsName, When;
    WhenMessages(e);
  }

  lemma ModeMessages(row: Row, ident: string, mode: Mode, e: Error)
    ensures e in ModeErrors(row, ident, mode) <==> e.subject == ident && ModeFault(row, mode, e.kind)
  {
    hide At, AdmissionErrors;
    AdmissionMessages(row, ident, e);
  }

  lemma {:induction false} PlaceholderMessages(row: Row, ident: string, e: Error)
    ensures e in PlaceholderErrors(row, ident) <==>
            e.subject == ident && e.kind.Placeholder? && exists v :: (e.kind.field, v) in row && v in PLACEHOLDERS
  {
    hide PLACEHOLDERS;
    if row != [] {
      PlaceholderMessages(row[1..], ident, e);
      assert row == [row[0]] + row[1..];
      assert row[0] == (row[0].0, row[0].1);
    }
  }

  // ---------------------------------------------------------------- forbidden fields

  predicate Below(p: seq<PathStep>, path: seq<PathStep>) {
    |path| < |p| && p[..|path|] == path
  }

  lemma BelowStep(p: seq<PathStep>, path: seq<PathStep>, step: PathStep)
    ensures Below(p, path + [step]) <==> Below(p, path) && p[|path|] == step && |path| + 1 < |p|
    ensures Below(p, path + [step]) ==> p[|path + [step]|..] == p[|path|..][1..]
    ensures p == path + [step] <==> Below(p, path) && p[|path|..] == [step]
  {
    if |path| < |p| {
      assert p[..|path| + 1] == p[..|path|] + [p[|path|]];
      assert p == p[..|path|] + p[|path|..];
    }
  }

  lemma {:induction false} SecretMessages(v: Value, path: seq<PathStep>, p: seq<PathStep>)
    ensures p in SecretPaths(v, path) <==> Below(p, path) && Leads(v, p[|path|..])
    decreases v, 1
  {
    match v
    case Object(fields, _) => SecretFieldMessages(fields, path, p);
    case List(items, _) => SecretItemMessages(items, 0, path, p);
    case _ =>
  }

  lemma {:induction false} SecretFieldMessages(fields: seq<(string, Value)>, path: seq<PathStep>, p: seq<PathStep>)
    ensures p in SecretFields(fields, path) <==> Below(p, path) && FieldsLead(fields, p[|path|..])
    decreases fields, 0
  {
    hide FieldLeads, SecretsIn;
    if fields != [] {
      SecretInMessages(fields[0], path, p);
      SecretFieldMessages(fields[1..], path, p);
      assert fields == [fields[0]] + fields[1..];
    }
  }

  lemma {:induction false} SecretInMessages(field: (string, Value), path: seq<PathStep>, p: seq<PathStep>)
    ensures p in SecretsIn(field, path + [Key(field.0)]) <==> Below(p, path) && FieldLeads(field, p[|path|..])
    decreases field, 0
  {
    hide Leads, SecretPaths;
    SecretMessages(field.1, path + [Key(field.0)], p);
    BelowStep(p, path, Key(field.0));
  }

  lemma {:induction false} SecretItemMessages(items: seq<Value>, index: nat, path: seq<PathStep>, p: seq<PathStep>)
    ensures p in SecretItems(items, index, path) <==>
            && Below(p, path)
            && p[|path|].Index? && index <= p[|path|].index < index + |items|
            && Leads(items[p[|path|].index - index], p[|path|..][1..])
    decreases items, 0
  {
    hide SecretPaths;
    if items != [] {
      SecretMessages(items[0], path + [Index(index)], p);
      SecretItemMessages(items[1..], index + 1, path, p);
      BelowStep(p, path, Index(index));
    }
  }

  lemma {:induction false} SecretErrorMessages(ident: string, paths: seq<seq<PathStep>>, e: Error)
    ensures e in SecretErrors(ident, paths) <==> e.subject == ident && e.kind.SecretField? && e.kind.path in paths
  {
    if paths != [] {
      SecretErrorMessages(ident, paths[1..], e);
    }
  }

  // ---------------------------------------------------------------- one row

  /** The message on missing values names exactly the required keys that have none. */
  lemma {:induction false} MissingAre(row: Row, keys: seq<string>, key: string)
    ensures key in MissingKeys(row, keys) <==> key in keys && At(row, key) == Null
  {
    hide At;
    if keys != [] {
      MissingAre(row, keys[1..], key);
    }
  }

  lemma IdentNames(rows: seq<Row>, n: nat, subject: string)
    requires n < |rows|
    ensures IsNamed(rows, n, subject) <==> subject == Ident(rows, n)
  {
  }

  lemma SeenExactly(rows: seq<Row>, n: nat, subject: string)
    requires n < |rows|
    ensures subject == Ident(rows, n) ==> (SeenBefore(rows, n) <==> exists j :: 0 <= j < n && IsNamed(rows, j, subject))
  {
    hide IsNamed, Ident;
    forall j | 0 <= j < n ensures IsNamed(rows, j, subject) <==> subject == Ident(rows, j) {
      IdentNames(rows, j, subject);
    }
  }

  lemma RowMessages(rows: seq<Row>, n: nat, mode: Mode, e: Error)
    requires n < |rows|
    ensures e in RowErrors(rows, n, mode) <==> IsNamed(rows, n, e.subject) && RowFault(rows, n, mode, e.subject, e.kind)
  {
    hide IsNamed, ShapeErrors, LinkErrors, ModeErrors, SecretErrors, SecretFields, PlaceholderErrors, MissingKeys, Ident, When;
    hide ShapeFault, LinkFault, ModeFault, FieldsLead;
    var row, ident := rows[n], Ident(rows, n);
    WhenMessages(e);
    hide SeenBefore;
    IdentNames(rows, n, e.subject);
    SeenExactly(rows, n, e.subject);
    OtherKinds(rows, row, mode, e);
    ShapeMessages(row, ident, e);
    LinkMessages(rows, row, ident, e);
    ModeMessages(row, ident, mode, e);
    PlaceholderMessages(row, ident, e);
    SecretsOfRow(row, ident, e);
  }

  lemma SecretsOfRow(row: Row, ident: string, e: Error)
    ensures e in SecretErrors(ident, SecretFields(row, [])) <==>
            e.subject == ident && e.kind.SecretField? && FieldsLead(row, e.kind.path)
  {
    SecretErrorMessages(ident, SecretFields(row, []), e);
    if e.kind.SecretField? {
      SecretFieldMessages(row, [], e.kind.path);
      assert e.kind.path[0..] == e.kind.path;
    }
  }

  /** The kinds matched first are no faults of shape, link or mode. */
  lemma OtherKinds(rows: seq<Row>, row: Row, mode: Mode, e: Error)
    ensures e.kind.MissingValues? || e.kind.DuplicateId? || e.kind.SecretField? || e.kind.Placeholder? ==>
            !ShapeFault(row, e.kind) && !LinkFault(rows, row, e.subject, e.kind) && !ModeFault(row, mode, e.kind)
  {
    hide At;
  }

  lemma {:induction false} AllRowMessages(rows: seq<Row>, n: nat, mode: Mode, e: Error)
    requires n <= |rows|
    ensures e in AllRowErrors(rows, n, mode) <==> exists j :: 0 <= j < n && e in RowErrors(rows, j, mode)
    decreases n
  {
    hide RowErrors;
    if n > 0 {
      AllRowMessages(rows, n - 1, mode, e);
    }
  }

  // ---------------------------------------------------------------- across rows

  /** Two rows of the lineage print different splits. */
  ghost predicate Leaks(rows: seq<Row>, lineage: string) {
    exists i, j :: 0 <= i < |rows| && 0 <= j < |rows| && StrAt(rows[i], "lineage_id") == lineage == StrAt(rows[j], "lineage_id")
                   && Str(At(rows[i], "split")) != Str(At(rows[j], "split"))
  }

  /** The last row whose artifact pack prints so goes by that name, and two rows have that very text as their pack. */
  ghost predicate SharesPack(rows: seq<Row>, holder: string, digest: string) {
    && (exists n :: LastPrinting(rows, |rows|, n, digest) && IsNamed(rows, n, holder))
    && (exists i, j :: 0 <= i < j < |rows| && At(rows[i], "artifact_pack_sha256") == Text(digest) == At(rows[j], "artifact_pack_sha256"))
  }

  ghost predicate LastPrinting(rows: seq<Row>, end: nat, n: nat, digest: string)
    requires end <= |rows|
  {
    && n < end && StrAt(rows[n], "artifact_pack_sha256") == digest
    && forall k :: n < k < end ==> StrAt(rows[k], "artifact_pack_sha256") != digest
  }

  lemma {:induction false} PrintedFrom(rows: seq<Row>, key: string, s: string)
    ensures s in Printed(rows, key) <==> exists i :: 0 <= i < |rows| && StrAt(rows[i], key) == s
    decreases |rows|
  {
    hide StrAt;
    if rows != [] {
      PrintedFrom(rows[..|rows| - 1], key, s);
    }
  }

  lemma {:induction false} LeakList(rows: seq<Row>, lineages: seq<string>, e: Error)
    ensures e in LeakErrors(rows, lineages) <==>
            e.kind == LineageLeak && e.subject in lineages && e.subject != "" && |SplitsOf(rows, e.subject)| > 1
  {
    hide SplitsOf;
    if lineages != [] {
      LeakList(rows, lineages[1..], e);
    }
  }

  lemma LeaksHaveSplits(rows: seq<Row>, lineage: string)
    ensures Leaks(rows, lineage) <==> |SplitsOf(rows, lineage)| > 1
  {
    hide StrAt, At, Str;
    var splits := SplitsOf(rows, lineage);
    if Leaks(rows, lineage) {
      var i, j :| 0 <= i < |rows| && 0 <= j < |rows| && StrAt(rows[i], "lineage_id") == lineage == StrAt(rows[j], "lineage_id")
                  && Str(At(rows[i], "split")) != Str(At(rows[j], "split"));
      var two := {Str(At(rows[i], "split")), Str(At(rows[j], "split"))};
      assert two <= splits;
      Design.SubsetCounts(two, splits);
    } else if splits != {} {
      var s :| s in splits;
      forall t | t in splits ensures t == s {
        var q :| q in rows && StrAt(q, "lineage_id") == lineage && Str(At(q, "split")) == t;
        var r :| r in rows && StrAt(r, "lineage_id") == lineage && Str(At(r, "split")) == s;
        var i :| 0 <= i < |rows| && rows[i] == q;
        var j :| 0 <= j < |rows| && rows[j] == r;
      }
      Design.SubsetCounts(splits, {s});
    }
  }

  lemma LeakMessages(rows: seq<Row>, e: Error)
    ensures e in LeakErrors(rows, Printed(rows, "lineage_id")) <==>
            e.kind == LineageLeak && e.subject != "" && Leaks(rows, e.subject)
  {
    hide StrAt, SplitsOf, At, Str, LeakErrors, Printed;
    LeakList(rows, Printed(rows, "lineage_id"), e);
    LeaksHaveSplits(rows, e.subject);
    PrintedFrom(rows, "lineage_id", e.subject);
  }

  lemma {:induction false} PackList(rows: seq<Row>, digests: seq<string>, e: Error)
    ensures e in PackErrors(rows, digests) <==>
            e.kind == DuplicatePack
            && exists digest :: digest in digests && e.subject == LastHolder(rows, |rows|, digest)
                                && Count(rows, "artifact_pack_sha256", Text(digest)) > 1
  {
    hide LastHolder, Count;
    if digests != [] {
      PackList(rows, digests[1..], e);
      assert digests == [digests[0]] + digests[1..];
    }
  }

  lemma CountedTwice(rows: seq<Row>, key: string, v: Value)
    ensures Count(rows, key, v) > 1 <==> exists i, j :: 0 <= i < j < |rows| && At(rows[i], key) == v == At(rows[j], key)
  {
    hide At;
    if i, j :| 0 <= i < j < |rows| && At(rows[i], key) == v == At(rows[j], key) {
      Design.CountTwice(rows, key, v, i, j);
    } else {
      Design.CountsAtMostOnce(rows, key, v);
    }
  }

  lemma {:induction false} LastHolderIs(rows: seq<Row>, end: nat, n: nat, digest: string)
    requires end <= |rows| && LastPrinting(rows, end, n, digest)
    ensures LastHolder(rows, end, digest) == Ident(rows, n)
    decreases end
  {
    hide StrAt, Ident;
    if n < end - 1 {
      assert LastPrinting(rows, end - 1, n, digest);
      LastHolderIs(rows, end - 1, n, digest);
    }
  }

  lemma {:induction false} SomeLastPrinting(rows: seq<Row>, end: nat, i: nat, digest: string) returns (n: nat)
    requires i < end <= |rows| && StrAt(rows[i], "artifact_pack_sha256") == digest
    ensures LastPrinting(rows, end, n, digest)
    decreases end
  {
    hide StrAt;
    if StrAt(rows[end - 1], "artifact_pack_sha256") == digest {
      n := end - 1;
    } else {
      n := SomeLastPrinting(rows, end - 1, i, digest);
    }
  }

  lemma SharedPack(rows: seq<Row>, holder: string, digest: string)
    ensures SharesPack(rows, holder, digest) <==>
            && digest in Printed(rows, "artifact_pack_sha256") && holder == LastHolder(rows, |rows|, digest)
            && Count(rows, "artifact_pack_sha256", Text(digest)) > 1
  {
    hide StrAt, At, Ident, IsNamed, LastHolder, Printed, Count;
    CountedTwice(rows, "artifact_pack_sha256", Text(digest));
    PrintedFrom(rows, "artifact_pack_sha256", digest);
    forall n | LastPrinting(rows, |rows|, n, digest)
      ensures LastHolder(rows, |rows|, digest) == Ident(rows, n) && (IsNamed(rows, n, holder) <==> holder == Ident(rows, n))
    {
      LastHolderIs(rows, |rows|, n, digest);
      IdentNames(rows, n, holder);
    }
    if i :| 0 <= i < |rows| && StrAt(rows[i], "artifact_pack_sha256") == digest {
      var n := SomeLastPrinting(rows, |rows|, i, digest);
    }
  }

  lemma PackMessages(rows: seq<Row>, e: Error)
    ensures e in PackErrors(rows, Printed(rows, "artifact_pack_sha256")) <==>
            e.kind == DuplicatePack && exists digest :: SharesPack(rows, e.subject, digest)
  {
    hide SharesPack, Printed, LastHolder, Count, PackErrors;
    PackList(rows, Printed(rows, "artifact_pack_sha256"), e);
    forall digest ensures SharesPack(rows, e.subject, digest) <==>
            && digest in Printed(rows, "artifact_pack_sha256") && e.subject == LastHolder(rows, |rows|, digest)
            && Count(rows, "artifact_pack_sha256", Text(digest)) > 1 {
      SharedPack(rows, e.subject, digest);
    }
  }

  // ---------------------------------------------------------------- the registered design

  ghost predicate TotalFault(rows: seq<Row>, kind: Kind) {
    match kind
    case RowTotal => |rows| != 240
    case PositiveTotal => |Design.Positives(rows)| != 120
    case ControlTotal => |Design.Controls(rows)| != 120
    case LineageTotal => |set v | v in Values(rows, "lineage_id") && v.Text?| != 12
    case _ => false
  }

  /** Twelve lineages at ten rows; the six families at twenty rows; each family in at least four printed lineages. */
  ghost predicate GroupFault(rows: seq<Row>, keep: Row -> bool, kind: Kind) {
    match kind
    case LineageCounts =>
      || |Design.GroupValues(rows, keep, "lineage_id")| != 12
      || exists v :: v in Design.GroupValues(rows, keep, "lineage_id") && |Design.WhereAt(rows, keep, "lineage_id", v)| != 10
    case FamilyCounts =>
      || Design.GroupValues(rows, keep, "property_family") != FAMILIES
      || exists v :: v in FAMILIES && |Design.WhereAt(rows, keep, "property_family", v)| != 20
    case FamilyCoverage => exists family :: Text(family) in FAMILIES && |Covers(rows, keep, family)| < 4
    case _ => false
  }

  ghost function Covers(rows: seq<Row>, keep: Row -> bool, family: string): set<string> {
    set i | i in Design.Where(rows, keep) && Str(At(rows[i], "property_family")) == family :: Str(At(rows[i], "lineage_id"))
  }

  /** The row some positive names is no control, of another family, or of the same pack. */
  ghost predicate PartnerFault(rows: seq<Row>, row: Row, subject: string, kind: Kind) {
    && subject == (if Lookup(row, "instance_id") == None then "<missing>" else StrAt(row, "instance_id"))
    && exists other :: StandsFor(rows, At(row, "paired_instance_id"), other) && Misfit(row, other, kind)
  }

  predicate Misfit(row: Row, other: Row, kind: Kind) {
    match kind
    case PartnerNotControl => At(other, "status") == Text("vulnerable") || At(other, "cohort") != Text("negative")
    case PartnerFamily => At(other, "property_family") != At(row, "property_family")
    case PartnerSamePack => At(other, "artifact_pack_sha256") == At(row, "artifact_pack_sha256")
    case _ => false
  }

  ghost predicate DesignFault(rows: seq<Row>, subject: string, kind: Kind) {
    || (subject == "" && TotalFault(rows, kind))
    || (subject == "positive" && GroupFault(rows, IsPositive, kind))
    || (subject == "control" && GroupFault(rows, IsControl, kind))
    || exists i :: i in Design.Positives(rows) && PartnerFault(rows, rows[i], subject, kind)
  }

  lemma TotalMessages(rows: seq<Row>, e: Error)
    ensures e in TotalErrors(rows, Select(rows, IsPositive), Select(rows, IsControl)) <==>
            e.subject == "" && TotalFault(rows, e.kind)
  {
    hide Select, Values, Design.Where, IsPositive, IsControl, When;
    WhenMessages(e);
    Design.SelectCounts(rows, IsPositive);
    Design.SelectCounts(rows, IsControl);
  }

  lemma GroupMessages(rows: seq<Row>, keep: Row -> bool, subject: string, e: Error)
    ensures e in GroupErrors(Select(rows, keep), subject) <==> e.subject == subject && GroupFault(rows, keep, e.kind)
  {
    hide At, Select, Count, Design.WhereAt, Design.Where, Design.GroupValues, Values, Coverage, Covers, When;
    var group := Select(rows, keep);
    WhenMessages(e);
    Design.SelectValues(rows, keep, "lineage_id");
    Design.SelectValues(rows, keep, "property_family");
    forall v ensures Count(group, "lineage_id", v) == |Design.WhereAt(rows, keep, "lineage_id", v)| {
      Design.CountCounts(rows, keep, "lineage_id", v);
    }
    forall v ensures Count(group, "property_family", v) == |Design.WhereAt(rows, keep, "property_family", v)| {
      Design.CountCounts(rows, keep, "property_family", v);
    }
    forall family ensures Coverage(group, Text(family)) == Covers(rows, keep, family) {
      CoverageCovers(rows, keep, family);
    }
  }

  lemma CoverageCovers(rows: seq<Row>, keep: Row -> bool, family: string)
    ensures Coverage(Select(rows, keep), Text(family)) == Covers(rows, keep, family)
  {
    hide At, Select;
    var group := Select(rows, keep);
    forall s | s in Coverage(group, Text(family)) ensures s in Covers(rows, keep, family) {
      var row :| row in group && Str(At(row, "property_family")) == family && Str(At(row, "lineage_id")) == s;
      var i := Design.SelectedFrom(rows, keep, row);
      assert i in Design.Where(rows, keep);
    }
    forall s | s in Covers(rows, keep, family) ensures s in Coverage(group, Text(family)) {
      var i :| i in Design.Where(rows, keep) && Str(At(rows[i], "property_family")) == family && Str(At(rows[i], "lineage_id")) == s;
      Design.SelectMembers(rows, keep, i);
    }
  }

  lemma PartnerMessages(rows: seq<Row>, row: Row, e: Error)
    ensures e in PartnerErrors(rows, row) <==> PartnerFault(rows, row, e.subject, e.kind)
  {
    hide At, StandsFor, ById, When, Str, Lookup;
    WhenMessages(e);
    PartnerIs(rows, At(row, "paired_instance_id"));
  }

  lemma {:induction false} PairMessagesOf(rows: seq<Row>, positives: seq<Row>, e: Error)
    ensures e in PairErrors(rows, positives) <==> exists row :: row in positives && e in PartnerErrors(rows, row)
    decreases |positives|
  {
    hide PartnerErrors;
    if positives != [] {
      var before, last := positives[..|positives| - 1], positives[|positives| - 1];
      PairMessagesOf(rows, before, e);
      assert positives == before + [last];
    }
  }

  lemma PairsMessages(rows: seq<Row>, e: Error)
    ensures e in PairErrors(rows, Select(rows, IsPositive)) <==>
            exists i :: i in Design.Positives(rows) && PartnerFault(rows, rows[i], e.subject, e.kind)
  {
    hide PartnerErrors, PartnerFault, Select, IsPositive, PairErrors;
    var positives := Select(rows, IsPositive);
    PairMessagesOf(rows, positives, e);
    forall row ensures e in PartnerErrors(rows, row) <==> PartnerFault(rows, row, e.subject, e.kind) {
      PartnerMessages(rows, row, e);
    }
    forall row | row in positives ensures exists i :: i in Design.Positives(rows) && rows[i] == row {
      var i := Design.SelectedFrom(rows, IsPositive, row);
      assert i in Design.Positives(rows);
    }
    forall i | i in Design.Positives(rows) ensures rows[i] in positives {
      Design.SelectMembers(rows, IsPositive, i);
    }
  }

  lemma DesignMessages(rows: seq<Row>, e: Error)
    ensures e in FinalErrors(rows) <==> DesignFault(rows, e.subject, e.kind)
  {
    hide TotalErrors, GroupErrors, PairErrors, TotalFault, GroupFault, PartnerFault, Select, IsPositive, IsControl;
    TotalMessages(rows, e);
    GroupMessages(rows, IsPositive, "positive", e);
    GroupMessages(rows, IsControl, "control", e);
    PairsMessages(rows, e);
  }

  // ---------------------------------------------------------------- the whole list

  /** In every mode a message is reported if and only if what it says is so: a fault of the row it names, two splits
      of one lineage, a pack that several rows have, or a breach of the registered design. */
  lemma MessagesExactly(rows: seq<Row>, mode: Mode, e: Error)
    ensures e in Errors(rows, mode) <==>
            || (exists n :: 0 <= n < |rows| && IsNamed(rows, n, e.subject) && RowFault(rows, n, mode, e.subject, e.kind))
            || (e.kind == LineageLeak && e.subject != "" && Leaks(rows, e.subject))
            || (mode != Starter && e.kind == DuplicatePack && exists digest :: SharesPack(rows, e.subject, digest))
            || (mode == Final && DesignFault(rows, e.subject, e.kind))
  {
    hide AllRowErrors, LeakErrors, PackErrors, FinalErrors, RowErrors, IsNamed, RowFault, Leaks, SharesPack, DesignFault, Printed;
    AllRowMessages(rows, |rows|, mode, e);
    forall n | 0 <= n < |rows|
      ensures e in RowErrors(rows, n, mode) <==> IsNamed(rows, n, e.subject) && RowFault(rows, n, mode, e.subject, e.kind)
    {
      RowMessages(rows, n, mode, e);
    }
    LeakMessages(rows, e);
    PackMessages(rows, e);
    DesignMessages(rows, e);
  }
}
