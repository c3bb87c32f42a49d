/** What an empty error list of the manifest validator means for the manifest as a whole. */
module Design {
  import opened Manifest
  import opened Wrappers

  // ---------------------------------------------------------------- positions

  ghost function Where(rows: seq<Row>, keep: Row -> bool): set<nat> {
    set i: nat | i < |rows| && keep(rows[i])
  }

  /** The positions at which a group has a value. */
  ghost function WhereAt(rows: seq<Row>, keep: Row -> bool, key: string, v: Value): set<nat> {
    set i: nat | i < |rows| && keep(rows[i]) && At(rows[i], key) == v
  }

  ghost function Positives(rows: seq<Row>): set<nat> { Where(rows, IsPositive) }

  ghost function Controls(rows: seq<Row>): set<nat> { Where(rows, IsControl) }

  ghost predicate Names(rows: seq<Row>, i: nat)
    requires i < |rows|
  {
    Truthy(At(rows[i], "paired_instance_id"))
  }

  ghost predicate AllNamed(rows: seq<Row>) {
    forall i :: i in Positives(rows) ==> Names(rows, i)
  }

  /** `mate` sends every positive to a control it is mated with and hits every control once. */
  ghost predicate PerfectMatching(rows: seq<Row>, mate: map<nat, nat>) {
    && mate.Keys == Positives(rows)
    && mate.Values == Controls(rows)
    && (forall i, j :: i in mate && j in mate && mate[i] == mate[j] ==> i == j)
    && (forall i :: i in mate ==> Mated(rows, i, mate[i]))
  }

  /** Each names the other; lineage and family agree and the artifact packs differ. */
  ghost predicate Mated(rows: seq<Row>, i: nat, j: nat) {
    && i < |rows| && j < |rows|
    && At(rows[i], "paired_instance_id") == At(rows[j], "instance_id")
    && At(rows[j], "paired_instance_id") == Text(Ident(rows, i))
    && At(rows[i], "lineage_id") == At(rows[j], "lineage_id")
    && At(rows[i], "property_family") == At(rows[j], "property_family")
    && At(rows[i], "artifact_pack_sha256") != At(rows[j], "artifact_pack_sha256")
  }

  // ---------------------------------------------------------------- reading the error list backwards

  lemma {:induction false} NoRowErrors(rows: seq<Row>, m: nat, mode: Mode, n: nat)
    requires n < m <= |rows| && AllRowErrors(rows, m, mode) == []
    ensures RowErrors(rows, n, mode) == []
    decreases m
  {
    hide RowErrors;
    assert AllRowErrors(rows, m, mode) == AllRowErrors(rows, m - 1, mode) + RowErrors(rows, m - 1, mode);
    if n < m - 1 {
      NoRowErrors(rows, m - 1, mode, n);
    }
  }

  lemma {:induction false} NoMissingKeys(row: Row, keys: seq<string>, key: string)
    requires MissingKeys(row, keys) == [] && key in keys
    ensures At(row, key) != Null
    decreases |keys|
  {
    if key != keys[0] {
      NoMissingKeys(row, keys[1..], key);
    }
  }

  lemma {:induction false} NoPairErrors(rows: seq<Row>, positives: seq<Row>, row: Row, other: Row)
    requires PairErrors(rows, positives) == [] && row in positives
    requires ById(rows, At(row, "paired_instance_id")) == Some(other)
    ensures At(other, "status") != Text("vulnerable") && At(other, "cohort") == Text("negative")
    ensures At(other, "property_family") == At(row, "property_family")
    ensures At(other, "artifact_pack_sha256") != At(row, "artifact_pack_sha256")
    decreases |positives|
  {
    var before, last := positives[..|positives| - 1], positives[|positives| - 1];
    if row in before {
      NoPairErrors(rows, before, row, other);
    } else {
      assert row == last;
    }
  }

  lemma {:induction false} NoPackErrors(rows: seq<Row>, digests: seq<string>, digest: string)
    requires PackErrors(rows, digests) == [] && digest in digests
    ensures Count(rows, "artifact_pack_sha256", Text(digest)) <= 1
    decreases |digests|
  {
    if digest != digests[0] {
      NoPackErrors(rows, digests[1..], digest);
    }
  }

  lemma {:induction false} NoLeakErrors(rows: seq<Row>, lineages: seq<string>, lineage: string)
    requires LeakErrors(rows, lineages) == [] && lineage in lineages && lineage != ""
    ensures |SplitsOf(rows, lineage)| <= 1
    decreases |lineages|
  {
    if lineage != lineages[0] {
      NoLeakErrors(rows, lineages[1..], lineage);
    }
  }

  lemma {:induction false} PrintedCovers(rows: seq<Row>, key: string, i: nat)
    requires i < |rows|
    ensures StrAt(rows[i], key) in Printed(rows, key)
    decreases |rows|
  {
    if i < |rows| - 1 {
      PrintedCovers(rows[..|rows| - 1], key, i);
    }
  }

  /** The facts about single rows and pairs of rows that the rest of the argument uses. */
  ghost predicate Clean(rows: seq<Row>) {
    && (forall i, j :: 0 <= i < j < |rows| ==> Ident(rows, i) != Ident(rows, j))
    && (forall i :: 0 <= i < |rows| ==> CleanRow(rows, i))
  }

  ghost predicate CleanRow(rows: seq<Row>, i: nat)
    requires i < |rows|
  {
    && At(rows[i], "instance_id") != Null
    && At(rows[i], "status") in {Text("vulnerable"), Text("patched"), Text("benign")}
    && LinkErrors(rows, rows[i], Ident(rows, i)) == []
  }

  lemma NoErrorsMeansClean(rows: seq<Row>)
    requires Errors(rows, Final) == []
    ensures Clean(rows)
    ensures FinalErrors(rows) == []
    ensures PackErrors(rows, Printed(rows, "artifact_pack_sha256")) == []
    ensures LeakErrors(rows, Printed(rows, "lineage_id")) == []
  {
    hide RowErrors, FinalErrors, PackErrors, LeakErrors, LinkErrors;
    assert Errors(rows, Final) == AllRowErrors(rows, |rows|, Final) + LeakErrors(rows, Printed(rows, "lineage_id"))
                                  + PackErrors(rows, Printed(rows, "artifact_pack_sha256")) + FinalErrors(rows);
    forall i | 0 <= i < |rows| ensures CleanRow(rows, i) && !SeenBefore(rows, i) {
      NoRowErrors(rows, |rows|, Final, i);
      CleanRowFrom(rows, i);
    }
    forall i, j | 0 <= i < j < |rows| ensures Ident(rows, i) != Ident(rows, j) {
      assert !SeenBefore(rows, j);
    }
  }

  lemma CleanRowFrom(rows: seq<Row>, i: nat)
    requires i < |rows| && RowErrors(rows, i, Final) == []
    ensures CleanRow(rows, i) && !SeenBefore(rows, i)
  {
    var row, ident := rows[i], Ident(rows, i);
    var missing := MissingKeys(row, REQUIRED);
    assert |RowErrors(rows, i, Final)|
        == |When(missing != [], ident, MissingValues(missing))| + |When(SeenBefore(rows, i), ident, DuplicateId)|
           + |ShapeErrors(row, ident)| + |LinkErrors(rows, row, ident)| + |SecretErrors(ident, SecretFields(row, []))|
           + |PlaceholderErrors(row, ident)| + |ModeErrors(row, ident, Final)|;
    assert REQUIRED[0] == "instance_id";
    NoMissingKeys(row, REQUIRED, "instance_id");
    ShapeStatus(row, ident);
  }

  lemma ShapeStatus(row: Row, ident: string)
    requires ShapeErrors(row, ident) == []
    ensures At(row, "status") in {Text("vulnerable"), Text("patched"), Text("benign")}
  {
    var bad := When(At(row, "status") !in {Text("vulnerable"), Text("patched"), Text("benign")}, ident, BadStatus);
    assert |bad| <= |ShapeErrors(row, ident)|;
  }

  // ---------------------------------------------------------------- looking rows up

  lemma {:induction false} ByIdFinds(rows: seq<Row>, id: Value)
    ensures ById(rows, id).Some? ==> exists j :: 0 <= j < |rows| && rows[j] == ById(rows, id).value && At(rows[j], "instance_id") == id
    ensures ById(rows, id).None? ==> forall j :: 0 <= j < |rows| ==> At(rows[j], "instance_id") != id
    decreases |rows|
  {
    if rows != [] && At(rows[|rows| - 1], "instance_id") != id {
      ByIdFinds(rows[..|rows| - 1], id);
    }
  }

  lemma SameIdSameRow(rows: seq<Row>, i: nat, j: nat)
    requires Clean(rows) && i < |rows| && j < |rows|
    requires At(rows[i], "instance_id") == At(rows[j], "instance_id")
    ensures i == j
  {
    assert CleanRow(rows, i) && CleanRow(rows, j);
    assert Ident(rows, i) == Ident(rows, j);
  }

  lemma {:induction false} SelectMembers(rows: seq<Row>, keep: Row -> bool, i: nat)
    requires i < |rows| && keep(rows[i])
    ensures rows[i] in Select(rows, keep)
    decreases |rows|
  {
    if i < |rows| - 1 {
      SelectMembers(rows[..|rows| - 1], keep, i);
    }
  }

  /** A positive that names a partner is mated with a control. */
  lemma NamedIsMated(rows: seq<Row>, i: nat) returns (j: nat)
    requires Clean(rows) && FinalErrors(rows) == []
    requires i in Positives(rows) && Names(rows, i)
    ensures j in Controls(rows) && Mated(rows, i, j)
  {
    hide FinalErrors, PairErrors, ById;
    var paired := At(rows[i], "paired_instance_id");
    assert CleanRow(rows, i);
    ByIdFinds(rows, paired);
    var other := ById(rows, paired).value;
    j :| 0 <= j < |rows| && rows[j] == other && At(rows[j], "instance_id") == paired;
    assert CleanRow(rows, j);
    SelectMembers(rows, IsPositive, i);
    assert PairErrors(rows, Select(rows, IsPositive)) == [] by { FinalParts(rows); }
    NoPairErrors(rows, Select(rows, IsPositive), rows[i], other);
  }

  lemma FinalParts(rows: seq<Row>)
    requires FinalErrors(rows) == []
    ensures var positives, controls := Select(rows, IsPositive), Select(rows, IsControl);
      && |rows| == 240 && |positives| == 120 && |controls| == 120
      && |set v | v in Values(rows, "lineage_id") && v.Text?| == LINEAGES
      && GroupErrors(positives, "positive") == [] && GroupErrors(controls, "control") == []
      && PairErrors(rows, positives) == []
  {
  }

  // ---------------------------------------------------------------- counting

  lemma {:induction false} SelectCounts(rows: seq<Row>, keep: Row -> bool)
    ensures |Select(rows, keep)| == |Where(rows, keep)|
    decreases |rows|
  {
    if rows != [] {
      var before := rows[..|rows| - 1];
      SelectCounts(before, keep);
      if keep(rows[|rows| - 1]) {
        assert Where(rows, keep) == Where(before, keep) + {|rows| - 1};
      } else {
        assert Where(rows, keep) == Where(before, keep);
      }
    }
  }

  /** The last row joins the positions counted exactly when it is kept and has the value. */
  lemma WhereAtStep(rows: seq<Row>, keep: Row -> bool, key: string, v: Value)
    requires rows != []
    ensures var last := |rows| - 1;
            var before := WhereAt(rows[..last], keep, key, v);
            last !in before
            && WhereAt(rows, keep, key, v)
               == if keep(rows[last]) && At(rows[last], key) == v then before + {last} else before
  {
    hide At;
  }

  lemma {:induction false} CountCounts(rows: seq<Row>, keep: Row -> bool, key: string, v: Value)
    ensures Count(Select(rows, keep), key, v) == |WhereAt(rows, keep, key, v)|
    decreases |rows|
  {
    hide At;
    if rows != [] {
      hide WhereAt;
      var before, last := rows[..|rows| - 1], rows[|rows| - 1];
      CountCounts(before, keep, key, v);
      WhereAtStep(rows, keep, key, v);
      if keep(last) {
        var s := Select(rows, keep);
        assert s[..|s| - 1] == Select(before, keep);
      }
    }
  }

  lemma {:induction false} CountTwice(rows: seq<Row>, key: string, v: Value, i: nat, j: nat)
    requires i < j < |rows| && At(rows[i], key) == v && At(rows[j], key) == v
    ensures Count(rows, key, v) >= 2
    decreases |rows|
  {
    var before := rows[..|rows| - 1];
    if j < |rows| - 1 {
      CountTwice(before, key, v, i, j);
    } else {
      CountOnce(before, key, v, i);
    }
  }

  lemma {:induction false} CountOnce(rows: seq<Row>, key: string, v: Value, i: nat)
    requires i < |rows| && At(rows[i], key) == v
    ensures Count(rows, key, v) >= 1
    decreases |rows|
  {
    if i < |rows| - 1 {
      CountOnce(rows[..|rows| - 1], key, v, i);
    }
  }

  ghost function Below(n: nat): set<nat> {
    set i: nat | i < n && InRange(i, n)
  }

  predicate InRange(i: nat, n: nat) { 0 <= i < n }

  lemma {:induction false} RangeCounts(n: nat)
    ensures |Below(n)| == n
    decreases n
  {
    if n > 0 {
      RangeCounts(n - 1);
      assert Below(n) == Below(n - 1) + {n - 1};
    }
  }

  lemma SubsetCounts<T>(a: set<T>, b: set<T>)
    requires a <= b
    ensures |a| <= |b|
    ensures |a| == |b| ==> a == b
  {
    assert |b| == |a| + |b - a| by { assert b == a + (b - a); }
  }

  /** Pigeonhole: an injective map has as many values as keys. */
  lemma {:induction false} InjectiveCounts<K, V>(m: map<K, V>)
    requires forall i, j :: i in m && j in m && m[i] == m[j] ==> i == j
    ensures |m.Values| == |m.Keys|
    decreases |m|
  {
    if m != map[] {
      var k :| k in m;
      var rest := m - {k};
      InjectiveCounts(rest);
      forall v | v in m.Values ensures v in rest.Values + {m[k]} {
        var j :| j in m && m[j] == v;
        assert j != k ==> j in rest && rest[j] == v;
      }
      forall v | v in rest.Values + {m[k]} ensures v in m.Values {
        if v in rest.Values {
          var j :| j in rest && rest[j] == v;
          assert j in m && m[j] == v;
        }
      }
      assert m.Values == rest.Values + {m[k]};
      assert m[k] !in rest.Values;
      assert m.Keys == rest.Keys + {k};
    }
  }

  // ---------------------------------------------------------------- main results

  /** 240 rows, each a sealed positive or a negative control and not both, 120 of each. */
  ghost predicate SplitInHalves(rows: seq<Row>) {
    && |rows| == 240 && |Positives(rows)| == 120 && |Controls(rows)| == 120
    && forall i :: 0 <= i < |rows| ==> IsPositive(rows[i]) != IsControl(rows[i])
  }

  /** No two rows share a printed identity or a textual artifact pack, and no lineage occurs in two splits. */
  ghost predicate RowsApart(rows: seq<Row>) {
    forall i, j :: 0 <= i < j < |rows| ==>
      && Ident(rows, i) != Ident(rows, j)
      && PacksApart(rows[i], rows[j])
      && OneSplit(rows[i], rows[j])
  }

  ghost predicate PacksApart(r: Row, q: Row) {
    At(r, "artifact_pack_sha256").Text? ==> At(r, "artifact_pack_sha256") != At(q, "artifact_pack_sha256")
  }

  ghost predicate OneSplit(r: Row, q: Row) {
    StrAt(r, "lineage_id") != "" && StrAt(r, "lineage_id") == StrAt(q, "lineage_id") ==>
      Str(At(r, "split")) == Str(At(q, "split"))
  }

  lemma AcceptedManifestSplits(rows: seq<Row>)
    requires Errors(rows, Final) == []
    ensures SplitInHalves(rows)
  {
    hide Errors, FinalErrors, PackErrors, LeakErrors, GroupErrors, PairErrors, Clean, IsPositive, IsControl;
    NoErrorsMeansClean(rows);
    FinalParts(rows);
    SelectCounts(rows, IsPositive);
    SelectCounts(rows, IsControl);
    var all := Below(|rows|);
    RangeCounts(|rows|);
    forall i | i in Positives(rows) ensures i !in Controls(rows) {
      OneKind(rows[i]);
    }
    assert |Positives(rows) + Controls(rows)| == 240;
    SubsetCounts(Positives(rows) + Controls(rows), all);
    forall i | 0 <= i < |rows| ensures IsPositive(rows[i]) != IsControl(rows[i]) {
      assert i in all;
      OneKind(rows[i]);
    }
  }

  lemma AcceptedRowsAreApart(rows: seq<Row>)
    requires Errors(rows, Final) == []
    ensures RowsApart(rows)
  {
    hide Errors, FinalErrors, PackErrors, LeakErrors, PacksApart, OneSplit, CleanRow, Ident;
    NoErrorsMeansClean(rows);
    forall i, j | 0 <= i < j < |rows| ensures PacksApart(rows[i], rows[j]) && OneSplit(rows[i], rows[j]) {
      PacksDiffer(rows, i, j);
      SplitsAgree(rows, i, j);
    }
  }

  lemma PacksDiffer(rows: seq<Row>, i: nat, j: nat)
    requires PackErrors(rows, Printed(rows, "artifact_pack_sha256")) == []
    requires i < j < |rows|
    ensures PacksApart(rows[i], rows[j])
  {
    hide PackErrors, Printed;
    var pack := At(rows[i], "artifact_pack_sha256");
    if pack.Text? && pack == At(rows[j], "artifact_pack_sha256") {
      CountTwice(rows, "artifact_pack_sha256", pack, i, j);
      PrintedCovers(rows, "artifact_pack_sha256", i);
      NoPackErrors(rows, Printed(rows, "artifact_pack_sha256"), pack.s);
    }
  }

  lemma OneKind(row: Row)
    ensures !(IsPositive(row) && IsControl(row))
  {
  }

  lemma SplitsAgree(rows: seq<Row>, i: nat, j: nat)
    requires LeakErrors(rows, Printed(rows, "lineage_id")) == []
    requires i < j < |rows|
    ensures OneSplit(rows[i], rows[j])
  {
    hide LeakErrors, Printed, StrAt, At;
    var lineage := StrAt(rows[i], "lineage_id");
    if lineage != "" && lineage == StrAt(rows[j], "lineage_id") {
      PrintedCovers(rows, "lineage_id", i);
      NoLeakErrors(rows, Printed(rows, "lineage_id"), lineage);
      var a, b := Str(At(rows[i], "split")), Str(At(rows[j], "split"));
      assert rows[i] in rows && rows[j] in rows;
      assert a in SplitsOf(rows, lineage) && b in SplitsOf(rows, lineage);
      SubsetCounts({a, b}, SplitsOf(rows, lineage));
    }
  }

  /** Twelve lineages with ten rows each, the six families with twenty rows each over at least four lineages. */
  ghost predicate BalancedGroup(rows: seq<Row>, keep: Row -> bool) {
    && |GroupValues(rows, keep, "lineage_id")| == 12
    && GroupValues(rows, keep, "property_family") == FAMILIES
    && (forall v :: v in GroupValues(rows, keep, "lineage_id") ==> |WhereAt(rows, keep, "lineage_id", v)| == 10)
    && (forall v :: v in FAMILIES ==> |WhereAt(rows, keep, "property_family", v)| == 20)
    && (forall v :: v in FAMILIES ==> |Coverage(Select(rows, keep), v)| >= 4)
  }

  ghost function GroupValues(rows: seq<Row>, keep: Row -> bool, key: string): set<Value> {
    set i | i in Where(rows, keep) :: At(rows[i], key)
  }

  lemma AcceptedGroupsAreBalanced(rows: seq<Row>)
    requires Errors(rows, Final) == []
    ensures BalancedGroup(rows, IsPositive) && BalancedGroup(rows, IsControl)
  {
    hide Errors, FinalErrors, GroupErrors, BalancedGroup;
    NoErrorsMeansClean(rows);
    FinalParts(rows);
    BalanceOf(rows, IsPositive, "positive");
    BalanceOf(rows, IsControl, "control");
  }

  lemma BalanceOf(rows: seq<Row>, keep: Row -> bool, subject: string)
    requires GroupErrors(Select(rows, keep), subject) == []
    ensures BalancedGroup(rows, keep)
  {
    hide At, Select, Count, WhereAt, Where, GroupValues, Values, Coverage;
    var group := Select(rows, keep);
    SelectValues(rows, keep, "lineage_id");
    SelectValues(rows, keep, "property_family");
    assert |When(exists family :: family in FAMILIES && |Coverage(group, family)| < 4, subject, FamilyCoverage)| == 0;
    forall v | v in Values(group, "lineage_id") ensures |WhereAt(rows, keep, "lineage_id", v)| == 10 {
      CountCounts(rows, keep, "lineage_id", v);
    }
    forall v | v in Values(group, "property_family") ensures |WhereAt(rows, keep, "property_family", v)| == 20 {
      CountCounts(rows, keep, "property_family", v);
    }
  }

  lemma SelectValues(rows: seq<Row>, keep: Row -> bool, key: string)
    ensures Values(Select(rows, keep), key) == GroupValues(rows, keep, key)
  {
    hide At, Select;
    forall v | v in Values(Select(rows, keep), key) ensures v in GroupValues(rows, keep, key) {
      var row :| row in Select(rows, keep) && At(row, key) == v;
      var i := SelectedFrom(rows, keep, row);
      assert i in Where(rows, keep);
    }
    forall i | i in Where(rows, keep) ensures At(rows[i], key) in Values(Select(rows, keep), key) {
      SelectMembers(rows, keep, i);
    }
  }

  lemma {:induction false} SelectedFrom(rows: seq<Row>, keep: Row -> bool, row: Row) returns (i: nat)
    requires row in Select(rows, keep)
    ensures i < |rows| && rows[i] == row && keep(rows[i])
    decreases |rows|
  {
    var before, last := rows[..|rows| - 1], rows[|rows| - 1];
    if row in Select(before, keep) {
      i := SelectedFrom(before, keep, row);
    } else {
      i := |rows| - 1;
    }
  }

  /** The row names a partner; or it is named back, within its lineage, by the row whose identity is the
      very value, such as an empty text, that Python takes for no name. */
  ghost predicate Linked(rows: seq<Row>, i: nat)
    requires i < |rows|
  {
    Names(rows, i) || exists j :: 0 <= j < |rows| && AnswersTo(rows, i, j)
  }

  ghost predicate AnswersTo(rows: seq<Row>, i: nat, j: nat)
    requires i < |rows| && j < |rows|
  {
    && At(rows[j], "instance_id") == At(rows[i], "paired_instance_id")
    && At(rows[j], "paired_instance_id") == Text(Ident(rows, i))
    && At(rows[j], "lineage_id") == At(rows[i], "lineage_id")
  }

  ghost predicate AllLinked(rows: seq<Row>) {
    forall i :: i in Positives(rows) ==> Linked(rows, i)
  }

  /** Every identity is a name, as every non-empty text is. */
  ghost predicate IdsAreNames(rows: seq<Row>) {
    forall j :: 0 <= j < |rows| ==> Truthy(At(rows[j], "instance_id"))
  }

  /** An accepted manifest carries a perfect matching of its positives and controls exactly when every
      positive is linked. The validator itself does not ask for it: a positive without a name is skipped. */
  lemma MatchedExactlyWhenLinked(rows: seq<Row>)
    requires Errors(rows, Final) == []
    ensures AllLinked(rows) <==> exists mate :: PerfectMatching(rows, mate)
  {
    hide Errors, IsPositive, IsControl, Names;
    if AllLinked(rows) {
      var mate := BuildMatching(rows);
    }
    if mate :| PerfectMatching(rows, mate) {
      forall i | i in Positives(rows) ensures Linked(rows, i) {
        assert Mated(rows, i, mate[i]);
        assert AnswersTo(rows, i, mate[i]);
      }
    }
  }

  /** Where every identity is a name, that is exactly when every positive names a partner. */
  lemma MatchedExactlyWhenNamed(rows: seq<Row>)
    requires Errors(rows, Final) == [] && IdsAreNames(rows)
    ensures AllNamed(rows) <==> exists mate :: PerfectMatching(rows, mate)
  {
    hide Errors, IsPositive, IsControl;
    if AllNamed(rows) {
      var mate := BuildMatching(rows);
    }
    if mate :| PerfectMatching(rows, mate) {
      forall i | i in Positives(rows) ensures Names(rows, i) {
        assert Mated(rows, i, mate[i]);
      }
    }
  }

  lemma BuildMatching(rows: seq<Row>) returns (mate: map<nat, nat>)
    requires Errors(rows, Final) == []
    requires AllLinked(rows)
    ensures PerfectMatching(rows, mate)
  {
    hide Errors, FinalErrors, Clean, Mated, Names, AnswersTo, IsPositive, IsControl, PerfectMatching;
    AcceptedManifestSplits(rows);
    NoErrorsMeansClean(rows);
    forall i | i in Positives(rows) ensures HasPartner(rows, i) {
      if Names(rows, i) {
        var j := NamedIsMated(rows, i);
      } else {
        var j :| 0 <= j < |rows| && AnswersTo(rows, i, j);
        AnsweredIsMated(rows, i, j);
      }
    }
    mate := MatchPartners(rows);
  }

  lemma AnsweredIsMated(rows: seq<Row>, i: nat, j: nat)
    requires Clean(rows) && FinalErrors(rows) == []
    requires i in Positives(rows) && j < |rows| && AnswersTo(rows, i, j)
    ensures j in Controls(rows) && Mated(rows, i, j)
  {
    hide FinalErrors, PairErrors, ById;
    var paired := At(rows[i], "paired_instance_id");
    ByIdFinds(rows, paired);
    var k :| 0 <= k < |rows| && rows[k] == ById(rows, paired).value && At(rows[k], "instance_id") == paired;
    SameIdSameRow(rows, j, k);
    assert CleanRow(rows, j);
    SelectMembers(rows, IsPositive, i);
    assert PairErrors(rows, Select(rows, IsPositive)) == [] by { FinalParts(rows); }
    NoPairErrors(rows, Select(rows, IsPositive), rows[i], rows[j]);
  }

  ghost predicate HasPartner(rows: seq<Row>, i: nat) {
    exists j :: j in Controls(rows) && Mated(rows, i, j)
  }

  ghost function Partner(rows: seq<Row>, i: nat): (j: nat)
    requires HasPartner(rows, i)
    ensures j in Controls(rows) && Mated(rows, i, j)
  {
    var j :| j in Controls(rows) && Mated(rows, i, j);
    j
  }

  lemma MatchPartners(rows: seq<Row>) returns (mate: map<nat, nat>)
    requires Clean(rows) && SplitInHalves(rows)
    requires forall i :: i in Positives(rows) ==> HasPartner(rows, i)
    ensures PerfectMatching(rows, mate)
  {
    hide Clean, Mated, IsPositive, IsControl, HasPartner;
    mate := map i | i in Positives(rows) :: Partner(rows, i);
    forall i, j | i in mate && j in mate && mate[i] == mate[j] ensures i == j {
      MatedOnce(rows, i, j, mate[i]);
    }
    InjectiveCounts(mate);
    assert mate.Keys == Positives(rows);
    assert mate.Values <= Controls(rows);
    SubsetCounts(mate.Values, Controls(rows));
    assert mate.Values == Controls(rows);
    assert forall i :: i in mate ==> Mated(rows, i, mate[i]);
  }

  lemma MatedOnce(rows: seq<Row>, i: nat, j: nat, k: nat)
    requires Clean(rows) && Mated(rows, i, k) && Mated(rows, j, k)
    ensures i == j
  {
    hide CleanRow;
  }

  /** With every positive linked, the two groups lie over the same twelve textual lineages. */
  lemma LinkedGroupsShareLineages(rows: seq<Row>)
    requires Errors(rows, Final) == []
    requires AllLinked(rows)
    ensures SharedLineages(rows)
  {
    hide Errors, FinalErrors, At, Ident, IsPositive, IsControl, AllLinked, Coverage, PerfectMatching, GroupValues;
    var mate := BuildMatching(rows);
    MatchingSharesLineages(rows, mate);
    AcceptedGroupsAreBalanced(rows);
    TextualLineages(rows);
  }

  ghost predicate SharedLineages(rows: seq<Row>) {
    var p := GroupValues(rows, IsPositive, "lineage_id");
    p == GroupValues(rows, IsControl, "lineage_id") && |p| == 12 && forall v :: v in p ==> v.Text?
  }

  lemma MatchingSharesLineages(rows: seq<Row>, mate: map<nat, nat>)
    requires PerfectMatching(rows, mate)
    ensures GroupValues(rows, IsPositive, "lineage_id") == GroupValues(rows, IsControl, "lineage_id")
  {
    hide At, Ident, IsPositive, IsControl;
    forall j | j in Controls(rows) ensures At(rows[j], "lineage_id") in GroupValues(rows, IsPositive, "lineage_id") {
      assert j in mate.Values;
      var i :| i in mate && mate[i] == j;
      assert Mated(rows, i, mate[i]);
    }
    forall i | i in Positives(rows) ensures At(rows[i], "lineage_id") in GroupValues(rows, IsControl, "lineage_id") {
      assert i in mate && mate[i] in mate.Values;
      assert Mated(rows, i, mate[i]);
    }
  }

  lemma TextualLineages(rows: seq<Row>)
    requires Errors(rows, Final) == []
    requires GroupValues(rows, IsPositive, "lineage_id") == GroupValues(rows, IsControl, "lineage_id")
    requires |GroupValues(rows, IsPositive, "lineage_id")| == 12
    ensures forall v :: v in GroupValues(rows, IsPositive, "lineage_id") ==> v.Text?
  {
    hide Errors, FinalErrors, At, GroupErrors, PairErrors, Select, IsPositive, IsControl;
    var p := GroupValues(rows, IsPositive, "lineage_id");
    NoErrorsMeansClean(rows);
    FinalParts(rows);
    AcceptedManifestSplits(rows);
    var texts := set v | v in Values(rows, "lineage_id") && v.Text?;
    forall v | v in texts ensures v in p {
      var row :| row in rows && At(row, "lineage_id") == v;
      var i :| 0 <= i < |rows| && rows[i] == row;
      assert IsPositive(rows[i]) != IsControl(rows[i]);
      assert i in Positives(rows) || i in Controls(rows);
    }
    SubsetCounts(texts, p);
  }

  // ---------------------------------------------------------------- the error list is empty exactly for the design

  /** What the design asks across rows: the halves, the balances, the twelve textual lineages, and that
      whatever row a positive names is a control of the same family with another artifact pack. */
  ghost predicate Registered(rows: seq<Row>) {
    && SplitInHalves(rows)
    && BalancedGroup(rows, IsPositive) && BalancedGroup(rows, IsControl)
    && |set v | v in Values(rows, "lineage_id") && v.Text?| == 12
    && forall i, j :: i in Positives(rows) && 0 <= j < |rows| && At(rows[j], "instance_id") == At(rows[i], "paired_instance_id")
                      ==> FitsPositive(rows[i], rows[j])
  }

  predicate FitsPositive(row: Row, other: Row) {
    && At(other, "status") != Text("vulnerable") && At(other, "cohort") == Text("negative")
    && At(other, "property_family") == At(row, "property_family")
    && At(other, "artifact_pack_sha256") != At(row, "artifact_pack_sha256")
  }

  /** The row passes every check that does not depend on the rows before it. */
  predicate PassesAlone(rows: seq<Row>, i: nat)
    requires i < |rows|
  {
    RowErrorsIf(false, rows, i, Final) == []
  }

  /** The validator is sound and complete: it is silent exactly when every row passes by itself, rows are
      apart, and together they form the registered design. */
  lemma SilentExactlyForTheDesign(rows: seq<Row>)
    ensures Errors(rows, Final) == [] <==>
            (forall i :: 0 <= i < |rows| ==> PassesAlone(rows, i)) && RowsApart(rows) && Registered(rows)
  {
    hide AllRowErrors, LeakErrors, PackErrors, FinalErrors, RowsApart, Registered, PassesAlone;
    assert Errors(rows, Final) == [] <==>
           AllRowErrors(rows, |rows|, Final) == [] && LeakErrors(rows, Printed(rows, "lineage_id")) == []
           && PackErrors(rows, Printed(rows, "artifact_pack_sha256")) == [] && FinalErrors(rows) == [];
    RowErrorsExactly(rows, |rows|);
    ApartExactly(rows);
    if Errors(rows, Final) == [] {
      NoErrorsMeansClean(rows);
      DesignFollows(rows);
    } else if (forall i :: 0 <= i < |rows| ==> PassesAlone(rows, i)) && RowsApart(rows) && Registered(rows) {
      DesignSuffices(rows);
    }
  }

  ghost predicate Unseen(rows: seq<Row>, n: nat)
    requires n <= |rows|
  {
    forall j :: 0 <= j < n ==> !SeenBefore(rows, j)
  }

  lemma {:induction false} RowErrorsExactly(rows: seq<Row>, n: nat)
    requires n <= |rows|
    ensures AllRowErrors(rows, n, Final) == [] <==> Unseen(rows, n) && forall i :: 0 <= i < n ==> PassesAlone(rows, i)
    decreases n
  {
    hide SeenBefore, RowErrors, PassesAlone;
    if n > 0 {
      RowErrorsExactly(rows, n - 1);
      OneRowExactly(rows, n - 1);
    }
  }

  lemma OneRowExactly(rows: seq<Row>, i: nat)
    requires i < |rows|
    ensures RowErrors(rows, i, Final) == [] <==> !SeenBefore(rows, i) && PassesAlone(rows, i)
  {
    hide MissingKeys, ShapeErrors, LinkErrors, SecretErrors, SecretFields, PlaceholderErrors, ModeErrors, SeenBefore;
    var row, ident := rows[i], Ident(rows, i);
    var missing := MissingKeys(row, REQUIRED);
    var rest := |When(missing != [], ident, MissingValues(missing))|
                + |ShapeErrors(row, ident)| + |LinkErrors(rows, row, ident)| + |SecretErrors(ident, SecretFields(row, []))|
                + |PlaceholderErrors(row, ident)| + |ModeErrors(row, ident, Final)|;
    assert |RowErrorsIf(false, rows, i, Final)| == rest;
    assert |RowErrors(rows, i, Final)| == rest + (if SeenBefore(rows, i) then 1 else 0);
  }

  ghost predicate NothingAcross(rows: seq<Row>) {
    && Unseen(rows, |rows|)
    && PackErrors(rows, Printed(rows, "artifact_pack_sha256")) == []
    && LeakErrors(rows, Printed(rows, "lineage_id")) == []
  }

  /** Identities, packs and splits: the three checks over pairs of rows together. */
  lemma ApartExactly(rows: seq<Row>)
    ensures RowsApart(rows) <==> NothingAcross(rows)
  {
    hide RowsApart, NothingAcross;
    if RowsApart(rows) {
      ApartSuffices(rows);
    }
    if NothingAcross(rows) {
      ApartFollows(rows);
    }
  }

  lemma ApartSuffices(rows: seq<Row>)
    requires RowsApart(rows)
    ensures NothingAcross(rows)
  {
    hide PackErrors, LeakErrors, Printed, RowsApart;
    NoPackRepeats(rows, Printed(rows, "artifact_pack_sha256"));
    NoLineageLeaks(rows, Printed(rows, "lineage_id"));
    NoneSeen(rows);
  }

  lemma NoneSeen(rows: seq<Row>)
    requires RowsApart(rows)
    ensures Unseen(rows, |rows|)
  {
    hide PacksApart, OneSplit, Ident;
  }

  lemma ApartFollows(rows: seq<Row>)
    requires NothingAcross(rows)
    ensures RowsApart(rows)
  {
    hide PackErrors, LeakErrors, PacksApart, OneSplit, Ident, Printed;
    forall i, j | 0 <= i < j < |rows|
      ensures Ident(rows, i) != Ident(rows, j) && PacksApart(rows[i], rows[j]) && OneSplit(rows[i], rows[j])
    {
      assert !SeenBefore(rows, j);
      PacksDiffer(rows, i, j);
      SplitsAgree(rows, i, j);
    }
  }

  lemma {:induction false} NoPackRepeats(rows: seq<Row>, digests: seq<string>)
    requires RowsApart(rows)
    ensures PackErrors(rows, digests) == []
    decreases |digests|
  {
    hide RowsApart, LastHolder, Count;
    if digests != [] {
      NoPackRepeats(rows, digests[1..]);
      CountsOnce(rows, Text(digests[0]));
    }
  }

  lemma CountsOnce(rows: seq<Row>, v: Value)
    requires RowsApart(rows) && v.Text?
    ensures Count(rows, "artifact_pack_sha256", v) <= 1
  {
    hide OneSplit, Ident;
    forall i, j | 0 <= i < j < |rows| ensures !(At(rows[i], "artifact_pack_sha256") == v && At(rows[j], "artifact_pack_sha256") == v) {
      assert PacksApart(rows[i], rows[j]);
    }
    CountsAtMostOnce(rows, "artifact_pack_sha256", v);
  }

  lemma {:induction false} CountsAtMostOnce(rows: seq<Row>, key: string, v: Value)
    requires forall i, j :: 0 <= i < j < |rows| ==> !(At(rows[i], key) == v && At(rows[j], key) == v)
    ensures Count(rows, key, v) <= 1
    decreases |rows|
  {
    hide At;
    if rows != [] {
      var before := rows[..|rows| - 1];
      CountsAtMostOnce(before, key, v);
      if At(rows[|rows| - 1], key) == v {
        CountsNone(before, key, v);
      }
    }
  }

  lemma {:induction false} CountsNone(rows: seq<Row>, key: string, v: Value)
    requires forall i :: 0 <= i < |rows| ==> At(rows[i], key) != v
    ensures Count(rows, key, v) == 0
    decreases |rows|
  {
    hide At;
    if rows != [] {
      CountsNone(rows[..|rows| - 1], key, v);
    }
  }

  lemma {:induction false} NoLineageLeaks(rows: seq<Row>, lineages: seq<string>)
    requires RowsApart(rows)
    ensures LeakErrors(rows, lineages) == []
    decreases |lineages|
  {
    hide RowsApart, SplitsOf;
    if lineages != [] {
      NoLineageLeaks(rows, lineages[1..]);
      if lineages[0] != "" {
        OneSplitEach(rows, lineages[0]);
      }
    }
  }

  lemma OneSplitEach(rows: seq<Row>, lineage: string)
    requires RowsApart(rows) && lineage != ""
    ensures |SplitsOf(rows, lineage)| <= 1
  {
    hide StrAt, At, Str, PacksApart, Ident;
    var splits := SplitsOf(rows, lineage);
    if splits != {} {
      var s :| s in splits;
      forall t | t in splits ensures t == s {
        var q :| q in rows && StrAt(q, "lineage_id") == lineage && Str(At(q, "split")) == t;
        var r :| r in rows && StrAt(r, "lineage_id") == lineage && Str(At(r, "split")) == s;
        var i :| 0 <= i < |rows| && rows[i] == q;
        var j :| 0 <= j < |rows| && rows[j] == r;
        if i < j {
          assert OneSplit(rows[i], rows[j]);
        } else if j < i {
          assert OneSplit(rows[j], rows[i]);
        }
      }
      SubsetCounts(splits, {s});
    }
  }

  lemma DesignFollows(rows: seq<Row>)
    requires Errors(rows, Final) == []
    ensures Registered(rows)
  {
    hide Errors, FinalErrors, Clean, At, SplitInHalves, BalancedGroup, FitsPositive, IsPositive, IsControl, Select, PairErrors, GroupErrors,
         ById;
    NoErrorsMeansClean(rows);
    FinalParts(rows);
    AcceptedManifestSplits(rows);
    AcceptedGroupsAreBalanced(rows);
    forall i, j | i in Positives(rows) && 0 <= j < |rows| && At(rows[j], "instance_id") == At(rows[i], "paired_instance_id")
      ensures FitsPositive(rows[i], rows[j])
    {
      var paired := At(rows[i], "paired_instance_id");
      ByIdFinds(rows, paired);
      var k :| 0 <= k < |rows| && rows[k] == ById(rows, paired).value && At(rows[k], "instance_id") == paired;
      SameIdSameRow(rows, j, k);
      SelectMembers(rows, IsPositive, i);
      PartnerFits(rows, i, rows[j]);
    }
  }

  lemma PartnerFits(rows: seq<Row>, i: nat, other: Row)
    requires i < |rows| && rows[i] in Select(rows, IsPositive)
    requires PairErrors(rows, Select(rows, IsPositive)) == []
    requires ById(rows, At(rows[i], "paired_instance_id")) == Some(other)
    ensures FitsPositive(rows[i], other)
  {
    hide At, Select, PairErrors, ById;
    NoPairErrors(rows, Select(rows, IsPositive), rows[i], other);
  }

  lemma DesignSuffices(rows: seq<Row>)
    requires Registered(rows)
    ensures FinalErrors(rows) == []
  {
    hide At, Values, BalancedGroup, GroupErrors, PairErrors, Select, FitsPositive, IsPositive, IsControl;
    SelectCounts(rows, IsPositive);
    SelectCounts(rows, IsControl);
    BalanceSuffices(rows, IsPositive, "positive");
    BalanceSuffices(rows, IsControl, "control");
    var positives := Select(rows, IsPositive);
    forall row | row in positives ensures PartnerErrors(rows, row) == [] {
      var i := SelectedFrom(rows, IsPositive, row);
      assert i in Positives(rows);
      PartnerSuffices(rows, i);
    }
    NoPartnerErrors(rows, positives);
  }

  lemma PartnerSuffices(rows: seq<Row>, i: nat)
    requires i < |rows|
    requires forall j :: 0 <= j < |rows| && At(rows[j], "instance_id") == At(rows[i], "paired_instance_id")
                         ==> FitsPositive(rows[i], rows[j])
    ensures PartnerErrors(rows, rows[i]) == []
  {
    hide At, ById;
    ByIdFinds(rows, At(rows[i], "paired_instance_id"));
  }

  lemma {:induction false} NoPartnerErrors(rows: seq<Row>, positives: seq<Row>)
    requires forall row :: row in positives ==> PartnerErrors(rows, row) == []
    ensures PairErrors(rows, positives) == []
    decreases |positives|
  {
    hide PartnerErrors;
    if positives != [] {
      assert positives[|positives| - 1] in positives;
      NoPartnerErrors(rows, positives[..|positives| - 1]);
    }
  }

  lemma BalanceSuffices(rows: seq<Row>, keep: Row -> bool, subject: string)
    requires BalancedGroup(rows, keep)
    ensures GroupErrors(Select(rows, keep), subject) == []
  {
    hide At, Select, Count, WhereAt, Where, GroupValues, Values, Coverage;
    var group := Select(rows, keep);
    SelectValues(rows, keep, "lineage_id");
    SelectValues(rows, keep, "property_family");
    forall v ensures Count(group, "lineage_id", v) == |WhereAt(rows, keep, "lineage_id", v)| {
      CountCounts(rows, keep, "lineage_id", v);
    }
    forall v ensures Count(group, "property_family", v) == |WhereAt(rows, keep, "property_family", v)| {
      CountCounts(rows, keep, "property_family", v);
    }
  }
}
