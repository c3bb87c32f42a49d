/** A manifest of 240 rows that the validator accepts, with every partner named or with none. */
module Example {
  import opened Wrappers
  import opened Numerals
  import opened Manifest
  import opened Design

  // ---------------------------------------------------------------- the rows

  function Zeros(n: nat): (s: string)
    ensures |s| == n && forall k :: 0 <= k < n ==> s[k] == '0'
  {
    seq(n, _ => '0')
  }

  const HEX := Zeros(64)

  function IdOf(i: nat): (s: string)
    ensures |s| == i + 1 && s[0] == 'i'
  {
    "i" + Zeros(i)
  }

  function LineageOf(k: nat): (s: string)
    ensures |s| == k + 1 && s[0] == 'l'
  {
    "l" + Zeros(k)
  }

  function PackOf(i: nat): (s: string)
    ensures |s| == 64 && s[0] == '0'
  {
    Zeros(62) + [LowerDigit(i / 16 % 16), LowerDigit(i % 16)]
  }

  function FamilyOf(f: nat): Value {
    if f == 0 then Text("input_validation") else if f == 1 then Text("logic") else if f == 2 then Text("quorum")
    else if f == 3 then Text("replay") else if f == 4 then Text("finality") else Text("message_handling")
  }

  /** The other row of the pair: the groups follow each other. */
  function PartnerOf(i: nat): nat {
    if i < 120 then i + 120 else i - 120
  }

  const ACCEPTANCE := Object([
    ("owner", Text("owner")), ("agent", Text("codex")), ("accepted_at", Text("today")),
    ("evidence_refs", List([Text("evidence")], "[evidence]"))], "{acceptance}")

  const KEYS := REQUIRED + ADMISSION_HASHES + [
    "negative_validation_scope", "seal_timestamp", "admission_status", "admission_acceptance",
    "mutation_patch_sha256", "negative_validation_evidence_hash", "paired_instance_id"]

  function ValueAt(i: nat, paired: bool, key: string): Value {
    if key == "instance_id" then Text(IdOf(i))
    else if key == "lineage_id" then Text(LineageOf(i % 120 / 10))
    else if key == "split" then Text("evaluation")
    else if key == "cohort" then Text(if i < 120 then "sealed" else "negative")
    else if key == "status" then Text(if i < 120 then "vulnerable" else "patched")
    else if key == "artifact_pack_sha256" then Text(PackOf(i))
    else if key == "chain_pair" then List([Text("a"), Text("b")], "[a, b]")
    else if key == "property_family" then FamilyOf(i % 6)
    else if key == "trigger_validation_status" then Text("pass")
    else if key == "native_evm_scope" then Bool(true)
    else if key == "admission_status" then Text("admitted")
    else if key == "admission_acceptance" then ACCEPTANCE
    else if key == "paired_instance_id" then (if paired then Text(IdOf(PartnerOf(i))) else Null)
    else Text(HEX)
  }

  function RowOf(keys: seq<string>, i: nat, paired: bool): Row {
    if keys == [] then [] else [(keys[0], ValueAt(i, paired, keys[0]))] + RowOf(keys[1..], i, paired)
  }

  ghost function Rows(paired: bool): seq<Row> {
    seq(240, i requires 0 <= i < 240 => RowOf(KEYS, i, paired))
  }

  // ---------------------------------------------------------------- looking values up

  lemma {:induction false} RowLooksUp(keys: seq<string>, i: nat, paired: bool, key: string)
    ensures Lookup(RowOf(keys, i, paired), key) == if key in keys then Some(ValueAt(i, paired, key)) else None
    decreases |keys|
  {
    hide ValueAt;
    if keys != [] {
      RowLooksUp(keys[1..], i, paired, key);
      assert RowOf(keys, i, paired)[1..] == RowOf(keys[1..], i, paired);
    }
  }

  lemma KeyPlaces()
    ensures KEYS[0] == "instance_id" && KEYS[1] == "lineage_id" && KEYS[4] == "split" && KEYS[5] == "cohort" && KEYS[6] == "status"
    ensures KEYS[8] == "source_commit" && KEYS[9] == "source_sha256" && KEYS[10] == "artifact_pack_sha256"
    ensures KEYS[11] == "compiler_settings_hash" && KEYS[12] == "chain_pair" && KEYS[16] == "property_family"
    ensures KEYS[18] == "ground_truth_evidence_hash" && KEYS[19] == "trigger_validation_status" && KEYS[20] == "native_evm_scope"
    ensures |KEYS| == 33 && KEYS[21..26] == ADMISSION_HASHES
    ensures KEYS[26] == "negative_validation_scope" && KEYS[27] == "seal_timestamp" && KEYS[28] == "admission_status"
    ensures KEYS[29] == "admission_acceptance" && KEYS[30] == "mutation_patch_sha256"
    ensures KEYS[31] == "negative_validation_evidence_hash" && KEYS[32] == "paired_instance_id"
  {
  }

  /** The values that tell the rows apart. */
  lemma Identities(i: nat, paired: bool)
    ensures ValueAt(i, paired, "instance_id") == Text(IdOf(i))
    ensures ValueAt(i, paired, "lineage_id") == Text(LineageOf(i % 120 / 10))
    ensures ValueAt(i, paired, "artifact_pack_sha256") == Text(PackOf(i))
    ensures ValueAt(i, paired, "property_family") == FamilyOf(i % 6)
    ensures ValueAt(i, paired, "paired_instance_id") == if paired then Text(IdOf(PartnerOf(i))) else Null
  {
    hide FamilyOf, LineageOf, PackOf, IdOf;
  }

  lemma Statuses(i: nat, paired: bool)
    ensures ValueAt(i, paired, "split") == Text("evaluation")
    ensures ValueAt(i, paired, "cohort") == Text(if i < 120 then "sealed" else "negative")
    ensures ValueAt(i, paired, "status") == Text(if i < 120 then "vulnerable" else "patched")
  {
    hide FamilyOf, LineageOf, PackOf, IdOf;
  }

  lemma OtherValues(i: nat, paired: bool)
    ensures ValueAt(i, paired, "chain_pair") == List([Text("a"), Text("b")], "[a, b]")
    ensures ValueAt(i, paired, "trigger_validation_status") == Text("pass")
    ensures ValueAt(i, paired, "native_evm_scope") == Bool(true)
    ensures ValueAt(i, paired, "admission_status") == Text("admitted")
    ensures ValueAt(i, paired, "admission_acceptance") == ACCEPTANCE
  {
    hide FamilyOf, LineageOf, PackOf, IdOf;
  }

  lemma HashValues(i: nat, paired: bool)
    ensures ValueAt(i, paired, "source_commit") == Text(HEX) && ValueAt(i, paired, "source_sha256") == Text(HEX)
    ensures ValueAt(i, paired, "compiler_settings_hash") == Text(HEX) && ValueAt(i, paired, "ground_truth_evidence_hash") == Text(HEX)
  {
    hide FamilyOf, LineageOf, PackOf, IdOf;
  }

  lemma ScopeValues(i: nat, paired: bool)
    ensures ValueAt(i, paired, "negative_validation_scope") == Text(HEX) && ValueAt(i, paired, "seal_timestamp") == Text(HEX)
    ensures ValueAt(i, paired, "mutation_patch_sha256") == Text(HEX)
    ensures ValueAt(i, paired, "negative_validation_evidence_hash") == Text(HEX)
  {
    hide FamilyOf, LineageOf, PackOf, IdOf;
  }

  lemma AdmissionValues(i: nat, paired: bool)
    ensures forall k :: 0 <= k < 5 ==> ValueAt(i, paired, ADMISSION_HASHES[k]) == Text(HEX)
  {
    hide FamilyOf, LineageOf, PackOf, IdOf;
    assert ADMISSION_HASHES[0] == "source_archive_sha256" && ADMISSION_HASHES[1] == "artifact_manifest_sha256";
    assert ADMISSION_HASHES[2] == "deployment_config_sha256" && ADMISSION_HASHES[3] == "paired_harness_sha256";
    assert ADMISSION_HASHES[4] == "trigger_validation_evidence_hash";
  }

  /** What the row at position i has under the keys that tell rows apart. */
  lemma RowIdentity(i: nat, paired: bool)
    ensures var row := RowOf(KEYS, i, paired);
      && Lookup(row, "instance_id") == Some(Text(IdOf(i)))
      && At(row, "lineage_id") == Text(LineageOf(i % 120 / 10)) && StrAt(row, "lineage_id") == LineageOf(i % 120 / 10)
      && At(row, "split") == Text("evaluation")
      && At(row, "cohort") == Text(if i < 120 then "sealed" else "negative")
      && At(row, "status") == Text(if i < 120 then "vulnerable" else "patched")
      && At(row, "artifact_pack_sha256") == Text(PackOf(i)) && StrAt(row, "artifact_pack_sha256") == PackOf(i)
      && At(row, "property_family") == FamilyOf(i % 6)
      && At(row, "paired_instance_id") == if paired then Text(IdOf(PartnerOf(i))) else Null
  {
    hide ValueAt, RowOf, Lookup, FamilyOf, LineageOf, PackOf, IdOf, KEYS;
    KeyPlaces();
    Identities(i, paired);
    Statuses(i, paired);
    RowLooksUp(KEYS, i, paired, KEYS[0]);
    RowLooksUp(KEYS, i, paired, KEYS[1]);
    RowLooksUp(KEYS, i, paired, KEYS[4]);
    RowLooksUp(KEYS, i, paired, KEYS[5]);
    RowLooksUp(KEYS, i, paired, KEYS[6]);
    RowLooksUp(KEYS, i, paired, KEYS[10]);
    RowLooksUp(KEYS, i, paired, KEYS[16]);
    RowLooksUp(KEYS, i, paired, KEYS[32]);
  }

  lemma RowRest(i: nat, paired: bool)
    ensures var row := RowOf(KEYS, i, paired);
      && At(row, "chain_pair") == List([Text("a"), Text("b")], "[a, b]")
      && At(row, "trigger_validation_status") == Text("pass")
      && At(row, "native_evm_scope") == Bool(true)
      && At(row, "admission_status") == Text("admitted")
      && At(row, "admission_acceptance") == ACCEPTANCE
      && At(row, "negative_validation_scope") == Text(HEX) && At(row, "seal_timestamp") == Text(HEX)
  {
    hide ValueAt, RowOf, Lookup, KEYS, HEX, ACCEPTANCE;
    KeyPlaces();
    OtherValues(i, paired);
    ScopeValues(i, paired);
    RowLooksUp(KEYS, i, paired, KEYS[12]);
    RowLooksUp(KEYS, i, paired, KEYS[19]);
    RowLooksUp(KEYS, i, paired, KEYS[20]);
    RowLooksUp(KEYS, i, paired, KEYS[26]);
    RowLooksUp(KEYS, i, paired, KEYS[27]);
    RowLooksUp(KEYS, i, paired, KEYS[28]);
    RowLooksUp(KEYS, i, paired, KEYS[29]);
  }

  lemma RowHashes(i: nat, paired: bool)
    ensures var row := RowOf(KEYS, i, paired);
      && StrAt(row, "source_commit") == HEX && StrAt(row, "source_sha256") == HEX
      && StrAt(row, "compiler_settings_hash") == HEX && StrAt(row, "ground_truth_evidence_hash") == HEX
      && StrAt(row, "mutation_patch_sha256") == HEX && StrAt(row, "negative_validation_evidence_hash") == HEX
      && forall k :: 0 <= k < 5 ==> StrAt(row, ADMISSION_HASHES[k]) == HEX
  {
    hide ValueAt, RowOf, Lookup, KEYS, HEX;
    KeyPlaces();
    HashValues(i, paired);
    ScopeValues(i, paired);
    AdmissionValues(i, paired);
    RowLooksUp(KEYS, i, paired, KEYS[8]);
    RowLooksUp(KEYS, i, paired, KEYS[9]);
    RowLooksUp(KEYS, i, paired, KEYS[11]);
    RowLooksUp(KEYS, i, paired, KEYS[18]);
    RowLooksUp(KEYS, i, paired, KEYS[30]);
    RowLooksUp(KEYS, i, paired, KEYS[31]);
    forall k | 0 <= k < 5 ensures StrAt(RowOf(KEYS, i, paired), ADMISSION_HASHES[k]) == HEX {
      assert KEYS[21..26][k] == KEYS[21 + k];
      RowLooksUp(KEYS, i, paired, KEYS[21 + k]);
    }
  }

  // ---------------------------------------------------------------- one row

  lemma HexIsHex(i: nat)
    ensures IsHex(HEX, 64, 64) && IsHex(HEX, 40, 64) && IsHex(PackOf(i), 64, 64)
  {
  }

  lemma {:induction false} NothingMissing(row: Row, keys: seq<string>)
    requires forall key :: key in keys ==> At(row, key) != Null
    ensures MissingKeys(row, keys) == []
    decreases |keys|
  {
    hide At;
    if keys != [] {
      NothingMissing(row, keys[1..]);
    }
  }

  lemma {:induction false} HashesPass(row: Row, ident: string, keys: seq<string>)
    requires forall key :: key in keys ==> IsHex(StrAt(row, key), 64, 64)
    ensures HashErrors(row, ident, keys) == []
    decreases |keys|
  {
    hide StrAt, IsHex;
    if keys != [] {
      HashesPass(row, ident, keys[1..]);
    }
  }

  lemma ShapePasses(i: nat, paired: bool, ident: string)
    ensures ShapeErrors(RowOf(KEYS, i, paired), ident) == []
  {
    hide RowOf, At, StrAt, PackOf, HEX, IsHex, LineageOf, IdOf, HashErrors;
    var row := RowOf(KEYS, i, paired);
    RowIdentity(i, paired);
    RowRest(i, paired);
    RowHashes(i, paired);
    HexIsHex(i);
    RowHashNames(row);
    HashesPass(row, ident, ROW_HASHES);
    FamiliesListed(i % 6);
  }

  lemma RowHashNames(row: Row)
    ensures forall key :: key in ROW_HASHES ==>
              key == "source_sha256" || key == "artifact_pack_sha256" || key == "compiler_settings_hash" || key == "ground_truth_evidence_hash"
  {
  }

  lemma FamiliesListed(f: nat)
    requires f < 6
    ensures FamilyOf(f) in FAMILIES
  {
  }

  lemma AdmissionPasses(i: nat, paired: bool, ident: string)
    ensures AdmissionErrors(RowOf(KEYS, i, paired), ident) == []
  {
    hide RowOf, At, StrAt, PackOf, HEX, IsHex, LineageOf, IdOf, HashErrors, ACCEPTANCE;
    var row := RowOf(KEYS, i, paired);
    RowIdentity(i, paired);
    RowRest(i, paired);
    RowHashes(i, paired);
    HexIsHex(i);
    HashesPass(row, ident, ADMISSION_HASHES);
    AcceptanceFields();
  }

  lemma AcceptanceFields()
    ensures ACCEPTANCE.Object?
    ensures At(ACCEPTANCE.fields, "owner") == Text("owner") && At(ACCEPTANCE.fields, "agent") == Text("codex")
    ensures At(ACCEPTANCE.fields, "accepted_at") == Text("today")
    ensures At(ACCEPTANCE.fields, "evidence_refs") == List([Text("evidence")], "[evidence]")
  {
    var f := ACCEPTANCE.fields;
    assert f[1..][0] == f[1] && f[2..][0] == f[2] && f[3..][0] == f[3];
    assert f[1..][1..] == f[2..] && f[2..][1..] == f[3..];
  }

  lemma RequiredPresent(i: nat, paired: bool)
    ensures MissingKeys(RowOf(KEYS, i, paired), REQUIRED) == []
  {
    hide RowOf, ValueAt;
    var row := RowOf(KEYS, i, paired);
    forall key | key in REQUIRED ensures At(row, key) != Null {
      RowLooksUp(KEYS, i, paired, key);
      PartnerNotRequired();
      OnlyPartnerMayBeNull(i, paired, key);
    }
    NothingMissing(row, REQUIRED);
  }

  lemma PartnerNotRequired()
    ensures "paired_instance_id" !in REQUIRED
  {
  }

  lemma OnlyPartnerMayBeNull(i: nat, paired: bool, key: string)
    requires key != "paired_instance_id"
    ensures ValueAt(i, paired, key) != Null
  {
  }

  lemma {:induction false} NoSecrets(keys: seq<string>, i: nat, paired: bool)
    requires forall key :: key in keys ==> key !in SECRET_KEYS
    ensures SecretFields(RowOf(keys, i, paired), []) == []
    decreases |keys|
  {
    hide ValueAt, SecretPaths;
    if keys != [] {
      NoSecrets(keys[1..], i, paired);
      NoNestedSecrets(i, paired, keys[0], [] + [Key(keys[0])]);
      assert RowOf(keys, i, paired)[1..] == RowOf(keys[1..], i, paired);
      assert keys[0] in keys;
    }
  }

  lemma NoNestedSecrets(i: nat, paired: bool, key: string, path: seq<PathStep>)
    ensures SecretPaths(ValueAt(i, paired, key), path) == []
  {
    hide ValueAt, SecretPaths;
    FlatOrKnown(i, paired, key);
    var v := ValueAt(i, paired, key);
    if v == ACCEPTANCE {
      AcceptanceHidesNothing(path);
    } else {
      FlatHidesNothing(v, path);
    }
  }

  predicate IsFlat(v: Value) {
    v.Text? || v.Bool? || v.Null? || (v.List? && |v.items| == 2 && v.items[0].Text? && v.items[1].Text?)
  }

  lemma FlatOrKnown(i: nat, paired: bool, key: string)
    ensures IsFlat(ValueAt(i, paired, key)) || ValueAt(i, paired, key) == ACCEPTANCE
  {
    hide ACCEPTANCE, IdOf, LineageOf, PackOf;
  }

  lemma FlatHidesNothing(v: Value, path: seq<PathStep>)
    requires IsFlat(v)
    ensures SecretPaths(v, path) == []
  {
    if v.List? {
      assert v.items == [v.items[0], v.items[1]];
      ListsHideNothing(v.items[0], v.items[1], path);
    }
  }

  lemma ListsHideNothing(a: Value, b: Value, path: seq<PathStep>)
    requires a.Text? && b.Text?
    ensures SecretItems([a, b], 0, path) == []
  {
    assert [a, b][1..] == [b] && [b][1..] == [];
    assert SecretItems([], 2, path) == [] && SecretItems([b], 1, path) == [];
  }

  lemma {:induction false} FieldsHideNothing(fields: seq<(string, Value)>, path: seq<PathStep>)
    requires forall k :: 0 <= k < |fields| ==> SecretsIn(fields[k], path + [Key(fields[k].0)]) == []
    ensures SecretFields(fields, path) == []
    decreases |fields|
  {
    hide SecretsIn;
    if fields != [] {
      FieldsHideNothing(fields[1..], path);
    }
  }

  lemma AcceptanceHidesNothing(path: seq<PathStep>)
    ensures SecretPaths(ACCEPTANCE, path) == []
  {
    var f := ACCEPTANCE.fields;
    assert SecretItems([Text("evidence")], 0, path + [Key("evidence_refs")]) == [];
    assert SecretsIn(f[0], path + [Key(f[0].0)]) == [] && SecretsIn(f[1], path + [Key(f[1].0)]) == [];
    assert SecretsIn(f[2], path + [Key(f[2].0)]) == [] && SecretsIn(f[3], path + [Key(f[3].0)]) == [];
    FieldsHideNothing(f, path);
  }

  lemma NoSecretKeys()
    ensures forall key :: key in KEYS ==> key !in SECRET_KEYS
  {
    NoneOf("gold_property");
    NoneOf("trigger_calldata");
    NoneOf("exploit_payload");
    NoneOf("mutation_diff");
  }

  lemma NoneOf(secret: string)
    requires secret in SECRET_KEYS
    ensures secret !in KEYS
  {
    assert secret !in REQUIRED;
    assert secret !in ADMISSION_HASHES;
    hide REQUIRED, ADMISSION_HASHES;
  }

  lemma {:induction false} NoPlaceholders(keys: seq<string>, i: nat, paired: bool, ident: string)
    ensures PlaceholderErrors(RowOf(keys, i, paired), ident) == []
    decreases |keys|
  {
    hide ValueAt;
    if keys != [] {
      NoPlaceholders(keys[1..], i, paired, ident);
      NoPlaceholder(i, paired, keys[0]);
      assert RowOf(keys, i, paired)[1..] == RowOf(keys[1..], i, paired);
    }
  }

  /** A text is told from every placeholder by its first letter. */
  lemma NoPlaceholder(i: nat, paired: bool, key: string)
    ensures ValueAt(i, paired, key) !in PLACEHOLDERS
  {
    hide PLACEHOLDERS;
    var v := ValueAt(i, paired, key);
    if v.Text? && (v.s == "replay") {
      ReplayIsNoPlaceholder();
    } else if v.Text? {
      FirstLetter(i, paired, key);
      OtherLetter(v.s);
    } else {
      OnlyTexts(v);
    }
  }

  predicate Harmless(v: Value) {
    v.Text? ==> v.s == "replay" || (v.s != "" && v.s[0] != 'r' && v.s[0] != 'A' && v.s[0] != 'E')
  }

  lemma FirstLetter(i: nat, paired: bool, key: string)
    ensures Harmless(ValueAt(i, paired, key))
  {
    hide LowerDigit, IdOf, LineageOf, PackOf, FamilyOf, Zeros;
    assert Harmless(ACCEPTANCE) && Harmless(Null) && Harmless(Bool(true));
    assert Harmless(List([Text("a"), Text("b")], "[a, b]"));
    hide ACCEPTANCE;
    FamilyHarmless(i % 6);
    assert HEX[0] == '0';
    hide HEX;
    assert Harmless(Text(HEX)) && Harmless(Text(IdOf(i))) && Harmless(Text(IdOf(PartnerOf(i))));
    assert Harmless(Text(LineageOf(i % 120 / 10))) && Harmless(Text(PackOf(i)));
    assert Harmless(Text("evaluation")) && Harmless(Text("sealed")) && Harmless(Text("negative")) && Harmless(Text("vulnerable"));
    assert Harmless(Text("patched")) && Harmless(Text("pass")) && Harmless(Text("admitted"));
    hide Harmless;
  }

  lemma FamilyHarmless(f: nat)
    ensures Harmless(FamilyOf(f))
  {
  }

  lemma OtherLetter(s: string)
    requires s != "" && s[0] != 'r' && s[0] != 'A' && s[0] != 'E'
    ensures Text(s) !in PLACEHOLDERS
  {
  }

  lemma ReplayIsNoPlaceholder()
    ensures Text("replay") !in PLACEHOLDERS
  {
  }

  lemma OnlyTexts(v: Value)
    requires !v.Text?
    ensures v !in PLACEHOLDERS
  {
  }

  /** The row named by a partner's identity is the partner. */
  lemma LinkPasses(i: nat, paired: bool)
    requires i < 240
    ensures LinkErrors(Rows(paired), Rows(paired)[i], IdOf(i)) == []
  {
    hide RowOf, At, ById, IdOf, LineageOf, PackOf, FamilyOf, KEYS, Rows;
    RowIs(i, paired);
    RowIdentity(i, paired);
    if paired {
      PartnerFound(i);
      PartnerAnswers(i);
    }
  }

  lemma PartnerAnswers(i: nat)
    requires i < 240
    ensures At(Rows(true)[PartnerOf(i)], "lineage_id") == At(Rows(true)[i], "lineage_id")
    ensures At(Rows(true)[PartnerOf(i)], "paired_instance_id") == Text(IdOf(i))
  {
    hide RowOf, At, IdOf, LineageOf, PackOf, FamilyOf, KEYS, Rows, PartnerOf;
    Partners(i);
    var j := PartnerOf(i);
    RowIs(i, true);
    RowIs(j, true);
    RowIdentity(i, true);
    RowIdentity(j, true);
  }

  lemma Partners(i: nat)
    requires i < 240
    ensures PartnerOf(i) < 240 && PartnerOf(PartnerOf(i)) == i && PartnerOf(i) % 120 == i % 120
    ensures i < 120 ==> PartnerOf(i) >= 120 && PartnerOf(i) % 6 == i % 6
  {
  }

  lemma PartnerFound(i: nat)
    requires i < 240
    ensures var rows := Rows(true); ById(rows, Text(IdOf(PartnerOf(i)))) == Some(rows[PartnerOf(i)])
    ensures Truthy(Text(IdOf(PartnerOf(i))))
  {
    hide RowOf, At, LineageOf, PackOf, FamilyOf, ById;
    var rows, j := Rows(true), PartnerOf(i);
    RowIdentity(j, true);
    IdAt(j, true);
    ByIdFinds(rows, Text(IdOf(j)));
    var k :| 0 <= k < |rows| && rows[k] == ById(rows, Text(IdOf(j))).value && At(rows[k], "instance_id") == Text(IdOf(j));
    RowIdentity(k, true);
    IdAt(k, true);
    assert |IdOf(k)| == |IdOf(j)|;
  }

  lemma IdAt(i: nat, paired: bool)
    requires i < 240
    ensures At(Rows(paired)[i], "instance_id") == Text(IdOf(i)) && Ident(Rows(paired), i) == IdOf(i)
  {
    hide RowOf, IdOf, Lookup;
    RowIdentity(i, paired);
  }

  lemma RowPasses(i: nat, paired: bool)
    requires i < 240
    ensures PassesAlone(Rows(paired), i)
  {
    hide RowOf, At, Ident, ShapeErrors, LinkErrors, SecretFields, PlaceholderErrors, AdmissionErrors, MissingKeys, IdOf, KEYS;
    IdAt(i, paired);
    RequiredPresent(i, paired);
    ShapePasses(i, paired, IdOf(i));
    LinkPasses(i, paired);
    NoSecretKeys();
    NoSecrets(KEYS, i, paired);
    NoPlaceholders(KEYS, i, paired, IdOf(i));
    AdmissionPasses(i, paired, IdOf(i));
  }

  // ---------------------------------------------------------------- all rows

  lemma PacksDistinct(i: nat, j: nat)
    requires i < j < 240
    ensures PackOf(i) != PackOf(j)
  {
    assert PackOf(i)[62] == LowerDigit(i / 16 % 16) && PackOf(i)[63] == LowerDigit(i % 16);
    assert PackOf(j)[62] == LowerDigit(j / 16 % 16) && PackOf(j)[63] == LowerDigit(j % 16);
  }

  lemma RowsAreApart(paired: bool)
    ensures RowsApart(Rows(paired))
  {
    hide RowOf, At, StrAt, Ident, IdOf, PackOf, LineageOf, FamilyOf, KEYS;
    var rows := Rows(paired);
    forall i, j | 0 <= i < j < |rows|
      ensures Ident(rows, i) != Ident(rows, j) && PacksApart(rows[i], rows[j]) && OneSplit(rows[i], rows[j])
    {
      IdAt(i, paired);
      IdAt(j, paired);
      assert |IdOf(i)| != |IdOf(j)|;
      RowIdentity(i, paired);
      RowIdentity(j, paired);
      PacksDistinct(i, j);
    }
  }

  /** The positions base, base + step, base + 2 * step, ... */
  ghost function Spaced(base: nat, step: nat, n: nat): set<nat> {
    if n == 0 then {} else Spaced(base, step, n - 1) + {base + (n - 1) * step}
  }

  lemma {:induction false} Consecutive(base: nat, n: nat)
    ensures |Spaced(base, 1, n)| == n && forall i :: i in Spaced(base, 1, n) <==> base <= i < base + n
    decreases n
  {
    if n > 0 {
      Consecutive(base, n - 1);
    }
  }

  lemma {:induction false} SixthsCount(base: nat, n: nat)
    ensures |Spaced(base, 6, n)| == n && forall i :: i in Spaced(base, 6, n) ==> base <= i < base + 6 * n
    decreases n
  {
    if n > 0 {
      SixthsCount(base, n - 1);
    }
  }

  predicate SixApart(base: nat, n: nat, i: nat) {
    base <= i < base + 6 * n && (i - base) % 6 == 0
  }

  lemma {:induction false} EverySixth(base: nat, n: nat)
    ensures forall i :: i in Spaced(base, 6, n) <==> SixApart(base, n, i)
    decreases n
  {
    hide SixApart;
    if n > 0 {
      EverySixth(base, n - 1);
      forall i ensures SixApart(base, n, i) <==> SixApart(base, n - 1, i) || i == base + (n - 1) * 6 {
        NextSixth(base, n, i);
      }
    } else {
      forall i ensures !SixApart(base, 0, i) {
        NoneApart(base, i);
      }
    }
  }

  lemma NoneApart(base: nat, i: nat)
    ensures !SixApart(base, 0, i)
  {
  }

  lemma NextSixth(base: nat, n: nat, i: nat)
    requires n > 0
    ensures SixApart(base, n, i) <==> SixApart(base, n - 1, i) || i == base + (n - 1) * 6
  {
  }

  /** Positives come first, controls follow. */
  ghost predicate GroupFrom(keep: Row -> bool, base: nat) {
    (keep == IsPositive && base == 0) || (keep == IsControl && base == 120)
  }

  lemma Kept(paired: bool, keep: Row -> bool, base: nat, i: nat)
    requires GroupFrom(keep, base) && i < 240
    ensures keep(Rows(paired)[i]) <==> base <= i < base + 120
  {
    hide RowOf, At, KEYS;
    RowIdentity(i, paired);
  }

  lemma KeptCount(paired: bool, keep: Row -> bool, base: nat)
    requires GroupFrom(keep, base)
    ensures |Where(Rows(paired), keep)| == 120
  {
    hide RowOf, KEYS, GroupFrom;
    var kept := Where(Rows(paired), keep);
    Consecutive(base, 120);
    assert base <= 120 by { assert GroupFrom(keep, base); GroupStart(keep, base); }
    forall i: nat ensures i in kept <==> i in Spaced(base, 1, 120) {
      if i < 240 {
        Kept(paired, keep, base, i);
      }
    }
    assert kept == Spaced(base, 1, 120);
  }

  lemma GroupStart(keep: Row -> bool, base: nat)
    requires GroupFrom(keep, base)
    ensures base == 0 || base == 120
  {
  }

  lemma Halves(paired: bool)
    ensures SplitInHalves(Rows(paired))
  {
    hide RowOf, At, KEYS;
    var rows := Rows(paired);
    KeptCount(paired, IsPositive, 0);
    KeptCount(paired, IsControl, 120);
    forall i | 0 <= i < |rows| ensures IsPositive(rows[i]) != IsControl(rows[i]) {
      RowIdentity(i, paired);
    }
  }

  lemma LineageBlock(paired: bool, keep: Row -> bool, base: nat, k: nat)
    requires GroupFrom(keep, base) && k < 12
    ensures |WhereAt(Rows(paired), keep, "lineage_id", Text(LineageOf(k)))| == 10
  {
    hide WhereAt, Spaced, GroupFrom, Rows, LineageOf;
    var block, tens := WhereAt(Rows(paired), keep, "lineage_id", Text(LineageOf(k))), Spaced(base + 10 * k, 1, 10);
    Consecutive(base + 10 * k, 10);
    forall i: nat ensures i in block <==> i in tens {
      InLineageBlock(paired, keep, base, k, i);
    }
    assert block == tens;
  }

  lemma InLineageBlock(paired: bool, keep: Row -> bool, base: nat, k: nat, i: nat)
    requires GroupFrom(keep, base) && k < 12
    ensures i in WhereAt(Rows(paired), keep, "lineage_id", Text(LineageOf(k))) <==> i in Spaced(base + 10 * k, 1, 10)
  {
    hide RowOf, At, LineageOf, KEYS, FamilyOf, GroupFrom, Rows, Spaced;
    Consecutive(base + 10 * k, 10);
    GroupStart(keep, base);
    RowCount(paired);
    TenthOf(base, k, i);
    if i < 240 {
      Kept(paired, keep, base, i);
      RowAt(i, paired);
      LineagesDiffer(i % 120 / 10, k);
    }
  }

  lemma TenthOf(base: nat, k: nat, i: nat)
    requires (base == 0 || base == 120) && k < 12
    ensures base + 10 * k <= i < base + 10 * k + 10 <==> base <= i < base + 120 && i % 120 / 10 == k
  {
  }

  lemma LineagesDiffer(j: nat, k: nat)
    ensures LineageOf(j) == LineageOf(k) <==> j == k
  {
    assert |LineageOf(j)| == j + 1 && |LineageOf(k)| == k + 1;
  }

  lemma RowIs(i: nat, paired: bool)
    requires i < 240
    ensures |Rows(paired)| == 240 && Rows(paired)[i] == RowOf(KEYS, i, paired)
  {
  }

  lemma RowCount(paired: bool)
    ensures |Rows(paired)| == 240
  {
  }

  lemma RowAt(i: nat, paired: bool)
    requires i < 240
    ensures |Rows(paired)| == 240
    ensures At(Rows(paired)[i], "lineage_id") == Text(LineageOf(i % 120 / 10)) && At(Rows(paired)[i], "property_family") == FamilyOf(i % 6)
  {
    hide RowOf, At, LineageOf, FamilyOf, KEYS;
    RowIdentity(i, paired);
  }

  lemma FamilyBlock(paired: bool, keep: Row -> bool, base: nat, f: nat)
    requires GroupFrom(keep, base) && f < 6
    ensures |WhereAt(Rows(paired), keep, "property_family", FamilyOf(f))| == 20
  {
    hide WhereAt, Spaced, GroupFrom, Rows, FamilyOf;
    var block, sixths := WhereAt(Rows(paired), keep, "property_family", FamilyOf(f)), Spaced(base + f, 6, 20);
    SixthsCount(base + f, 20);
    forall i: nat ensures i in block <==> i in sixths {
      InFamilyBlock(paired, keep, base, f, i);
    }
    assert block == sixths;
  }

  lemma InFamilyBlock(paired: bool, keep: Row -> bool, base: nat, f: nat, i: nat)
    requires GroupFrom(keep, base) && f < 6
    ensures i in WhereAt(Rows(paired), keep, "property_family", FamilyOf(f)) <==> i in Spaced(base + f, 6, 20)
  {
    hide RowOf, At, LineageOf, KEYS, FamilyOf, GroupFrom, Rows, Spaced;
    RowCount(paired);
    GroupStart(keep, base);
    SixthOf(base, f, i);
    if i < 240 {
      Kept(paired, keep, base, i);
      RowAt(i, paired);
      FamiliesDiffer(i % 6, f);
    }
  }

  lemma SixthOf(base: nat, f: nat, i: nat)
    requires (base == 0 || base == 120) && f < 6
    ensures i in Spaced(base + f, 6, 20) <==> base <= i < base + 120 && i % 6 == f
  {
    hide Spaced, SixApart;
    EverySixth(base + f, 20);
    SixApartIs(base, f, i);
  }

  lemma SixApartIs(base: nat, f: nat, i: nat)
    requires (base == 0 || base == 120) && f < 6
    ensures SixApart(base + f, 20, i) <==> base <= i < base + 120 && i % 6 == f
  {
  }

  lemma FamiliesDiffer(f: nat, g: nat)
    requires f < 6 && g < 6
    ensures FamilyOf(f) == FamilyOf(g) <==> f == g
  {
  }

  // ---------------------------------------------------------------- values of a group

  /** The texts of the first n lineages. */
  ghost function Lineages(n: nat): set<Value> {
    if n == 0 then {} else Lineages(n - 1) + {Text(LineageOf(n - 1))}
  }

  predicate IsLineage(v: Value, n: nat) {
    v.Text? && 0 < |v.s| <= n && v == Text(LineageOf(|v.s| - 1))
  }

  lemma {:induction false} LineagesAre(n: nat)
    ensures forall v :: v in Lineages(n) ==> IsLineage(v, n)
    decreases n
  {
    if n > 0 {
      LineagesAre(n - 1);
    }
  }

  lemma {:induction false} HasEach(n: nat, k: nat)
    requires k < n
    ensures Text(LineageOf(k)) in Lineages(n)
    decreases n
  {
    hide LineageOf;
    if k < n - 1 {
      HasEach(n - 1, k);
    }
  }

  lemma {:induction false} LineagesCount(n: nat)
    ensures |Lineages(n)| == n
    decreases n
  {
    if n > 0 {
      LineagesCount(n - 1);
      LineagesAre(n - 1);
      assert |LineageOf(n - 1)| == n;
      hide LineageOf;
      assert Text(LineageOf(n - 1)) !in Lineages(n - 1);
    }
  }

  lemma GroupLineages(paired: bool, keep: Row -> bool, base: nat)
    requires GroupFrom(keep, base)
    ensures GroupValues(Rows(paired), keep, "lineage_id") == Lineages(12)
  {
    hide RowOf, At, LineageOf, KEYS, FamilyOf, GroupFrom, Rows, Lineages;
    var rows := Rows(paired);
    RowCount(paired);
    LineagesAre(12);
    forall v | v in GroupValues(rows, keep, "lineage_id") ensures v in Lineages(12) {
      var i :| i in Where(rows, keep) && At(rows[i], "lineage_id") == v;
      RowAt(i, paired);
      HasEach(12, i % 120 / 10);
    }
    forall v | v in Lineages(12) ensures v in GroupValues(rows, keep, "lineage_id") {
      HasLineage(paired, keep, base, |v.s| - 1);
    }
  }

  lemma HasLineage(paired: bool, keep: Row -> bool, base: nat, k: nat)
    requires GroupFrom(keep, base) && k < 12
    ensures Text(LineageOf(k)) in GroupValues(Rows(paired), keep, "lineage_id")
  {
    hide RowOf, At, LineageOf, KEYS, FamilyOf, GroupFrom, Rows;
    var i := base + 10 * k;
    GroupStart(keep, base);
    RowCount(paired);
    Kept(paired, keep, base, i);
    RowAt(i, paired);
    assert i % 120 / 10 == k;
    assert i in Where(Rows(paired), keep);
  }

  lemma FamiliesAre(v: Value) returns (f: nat)
    requires v in FAMILIES
    ensures f < 6 && v == FamilyOf(f)
  {
    f := if v == FamilyOf(0) then 0 else if v == FamilyOf(1) then 1 else if v == FamilyOf(2) then 2
         else if v == FamilyOf(3) then 3 else if v == FamilyOf(4) then 4 else 5;
  }

  lemma GroupFamilies(paired: bool, keep: Row -> bool, base: nat)
    requires GroupFrom(keep, base)
    ensures GroupValues(Rows(paired), keep, "property_family") == FAMILIES
  {
    hide RowOf, At, LineageOf, KEYS, FamilyOf, GroupFrom, Rows, FAMILIES;
    var rows := Rows(paired);
    RowCount(paired);
    GroupStart(keep, base);
    forall v | v in GroupValues(rows, keep, "property_family") ensures v in FAMILIES {
      var i :| i in Where(rows, keep) && At(rows[i], "property_family") == v;
      RowAt(i, paired);
      FamiliesListed(i % 6);
    }
    forall v | v in FAMILIES ensures v in GroupValues(rows, keep, "property_family") {
      var f := FamiliesAre(v);
      Kept(paired, keep, base, base + f);
      RowAt(base + f, paired);
      assert base + f in Where(rows, keep);
    }
  }

  /** Each family is met in the first four lineages already. */
  lemma GroupCoverage(paired: bool, keep: Row -> bool, base: nat, f: nat)
    requires GroupFrom(keep, base) && f < 6
    ensures |Coverage(Select(Rows(paired), keep), FamilyOf(f))| >= 4
  {
    hide RowOf, At, LineageOf, KEYS, FamilyOf, GroupFrom, Rows, Select, Lineages;
    var covered := Coverage(Select(Rows(paired), keep), FamilyOf(f));
    forall k: nat | k < 4 ensures LineageOf(k) in covered {
      CoveredLineage(paired, keep, base, f, k);
    }
    FourTexts(covered);
  }

  lemma CoveredLineage(paired: bool, keep: Row -> bool, base: nat, f: nat, k: nat)
    requires GroupFrom(keep, base) && f < 6 && k < 4
    ensures LineageOf(k) in Coverage(Select(Rows(paired), keep), FamilyOf(f))
  {
    hide RowOf, At, LineageOf, KEYS, FamilyOf, GroupFrom, Rows, Select;
    var i := base + 10 * k + (f + 2 * k) % 6;
    GroupStart(keep, base);
    RowCount(paired);
    Kept(paired, keep, base, i);
    RowAt(i, paired);
    SelectMembers(Rows(paired), keep, i);
    InBlock(base, f, k);
    assert Str(At(Rows(paired)[i], "lineage_id")) == LineageOf(k);
  }

  lemma InBlock(base: nat, f: nat, k: nat)
    requires (base == 0 || base == 120) && f < 6 && k < 4
    ensures var i := base + 10 * k + (f + 2 * k) % 6; i % 120 / 10 == k && i % 6 == f
  {
    var r := (f + 2 * k) % 6;
    TenthOf(base, k, base + 10 * k + r);
    if k == 0 {
      assert r == f;
    } else if k == 1 {
      assert r == if f < 4 then f + 2 else f - 4;
    } else if k == 2 {
      assert r == if f < 2 then f + 4 else f - 2;
    } else {
      assert r == f;
    }
  }

  lemma FourTexts(covered: set<string>)
    requires forall k: nat :: k < 4 ==> LineageOf(k) in covered
    ensures |covered| >= 4
  {
    var four := {LineageOf(0), LineageOf(1), LineageOf(2), LineageOf(3)};
    assert |LineageOf(0)| == 1 && |LineageOf(1)| == 2 && |LineageOf(2)| == 3 && |LineageOf(3)| == 4;
    hide LineageOf;
    assert |four| == 4;
    assert four <= covered;
    SubsetCounts(four, covered);
  }

  lemma GroupIsBalanced(paired: bool, keep: Row -> bool, base: nat)
    requires GroupFrom(keep, base)
    ensures BalancedGroup(Rows(paired), keep)
  {
    hide RowOf, At, LineageOf, KEYS, FamilyOf, GroupFrom, Rows, WhereAt, Select, Coverage, GroupValues, FAMILIES, Lineages;
    GroupLineages(paired, keep, base);
    GroupFamilies(paired, keep, base);
    LineagesCount(12);
    LineagesAre(12);
    forall v | v in Lineages(12) ensures |WhereAt(Rows(paired), keep, "lineage_id", v)| == 10 {
      LineageBlock(paired, keep, base, |v.s| - 1);
    }
    forall v | v in FAMILIES
      ensures |WhereAt(Rows(paired), keep, "property_family", v)| == 20 && |Coverage(Select(Rows(paired), keep), v)| >= 4
    {
      var f := FamiliesAre(v);
      FamilyBlock(paired, keep, base, f);
      GroupCoverage(paired, keep, base, f);
    }
  }

  lemma LineageListed(i: nat, paired: bool)
    requires i < 240
    ensures |Rows(paired)| == 240 && At(Rows(paired)[i], "lineage_id") in Lineages(12)
  {
    hide RowOf, At, LineageOf, KEYS, FamilyOf, Rows, Lineages;
    RowAt(i, paired);
    HasEach(12, i % 120 / 10);
  }

  lemma LineageUsed(k: nat, paired: bool)
    requires k < 12
    ensures Text(LineageOf(k)) in Values(Rows(paired), "lineage_id")
  {
    hide RowOf, At, LineageOf, KEYS, FamilyOf, Rows;
    RowAt(10 * k, paired);
    assert 10 * k % 120 / 10 == k;
    assert Rows(paired)[10 * k] in Rows(paired);
  }

  lemma TextualLineagesAre(paired: bool)
    ensures |set v | v in Values(Rows(paired), "lineage_id") && v.Text?| == 12
  {
    hide RowOf, At, LineageOf, KEYS, FamilyOf, Rows, Lineages;
    var rows, texts := Rows(paired), set v | v in Values(Rows(paired), "lineage_id") && v.Text?;
    RowCount(paired);
    LineagesCount(12);
    LineagesAre(12);
    forall v | v in texts ensures v in Lineages(12) {
      var row :| row in rows && At(row, "lineage_id") == v;
      var i :| 0 <= i < |rows| && rows[i] == row;
      LineageListed(i, paired);
    }
    hide Values;
    forall v | v in Lineages(12) ensures v in texts {
      LineageUsed(|v.s| - 1, paired);
    }
    assert texts == Lineages(12);
  }

  lemma PartnersFit(paired: bool, i: nat, j: nat)
    requires i < 120 && j < 240
    requires At(Rows(paired)[j], "instance_id") == At(Rows(paired)[i], "paired_instance_id")
    ensures FitsPositive(Rows(paired)[i], Rows(paired)[j])
  {
    hide RowOf, At, KEYS, LineageOf, FamilyOf, PackOf, IdOf, Rows, PartnerOf;
    RowIs(i, paired);
    RowIs(j, paired);
    RowIdentity(i, paired);
    RowIdentity(j, paired);
    IdAt(j, paired);
    if paired {
      Partners(i);
      assert |IdOf(j)| == |IdOf(PartnerOf(i))|;
      PacksDistinct(i, j);
    }
  }

  lemma RowsAreRegistered(paired: bool)
    ensures Registered(Rows(paired))
  {
    hide RowOf, At, KEYS, SplitInHalves, BalancedGroup, FitsPositive, Rows, Values;
    Halves(paired);
    GroupIsBalanced(paired, IsPositive, 0);
    GroupIsBalanced(paired, IsControl, 120);
    TextualLineagesAre(paired);
    RowCount(paired);
    forall i, j | i in Positives(Rows(paired)) && 0 <= j < 240
                  && At(Rows(paired)[j], "instance_id") == At(Rows(paired)[i], "paired_instance_id")
      ensures FitsPositive(Rows(paired)[i], Rows(paired)[j])
    {
      Kept(paired, IsPositive, 0, i);
      PartnersFit(paired, i, j);
    }
  }

  // ---------------------------------------------------------------- main results

  /** Both manifests are accepted; one names every partner and the other none. */
  lemma AcceptedEitherWay(paired: bool)
    ensures Errors(Rows(paired), Final) == []
    ensures forall i :: 0 <= i < 240 ==> (Names(Rows(paired), i) <==> paired)
  {
    hide Errors, RowOf, At, RowsApart, Registered, PassesAlone, KEYS;
    SilentExactlyForTheDesign(Rows(paired));
    RowsAreApart(paired);
    RowsAreRegistered(paired);
    forall i | 0 <= i < 240 ensures PassesAlone(Rows(paired), i) && (Names(Rows(paired), i) <==> paired) {
      RowPasses(i, paired);
      RowIdentity(i, paired);
    }
  }

  /** A manifest can be accepted and have no matching at all: its positives name nobody. */
  lemma AcceptedWithoutMatching()
    ensures Errors(Rows(false), Final) == []
    ensures !exists mate :: PerfectMatching(Rows(false), mate)
  {
    hide Errors, RowOf, At, KEYS, Rows, PerfectMatching;
    AcceptedEitherWay(false);
    RowCount(false);
    if AllLinked(Rows(false)) {
      Kept(false, IsPositive, 0, 0);
      assert Linked(Rows(false), 0);
      var j :| 0 <= j < 240 && AnswersTo(Rows(false), 0, j);
      IdAt(j, false);
      NobodyNamed(0);
    }
    MatchedExactlyWhenLinked(Rows(false));
  }

  lemma NobodyNamed(i: nat)
    requires i < 240
    ensures At(Rows(false)[i], "paired_instance_id") == Null
  {
    hide RowOf, At, KEYS;
    RowIdentity(i, false);
  }

  /** And one can be accepted and perfectly matched. */
  lemma AcceptedWithMatching() returns (mate: map<nat, nat>)
    ensures Errors(Rows(true), Final) == [] && PerfectMatching(Rows(true), mate)
  {
    hide Errors, RowOf, At, KEYS, Rows, PerfectMatching;
    AcceptedEitherWay(true);
    RowCount(true);
    mate := BuildMatching(Rows(true));
  }
}
