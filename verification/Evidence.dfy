/** The hash-bound evidence of source-backed harnesses: receipts, artifact manifests, source manifests,
    harness configurations and one shared probe report, written by one program and validated by another. */
module Evidence {
  import opened Wrappers

  type Lineage = string

  // ---------------------------------------------------------------- documents

  /** source_receipt.json; `bindings` is whether it still carries the three harness keys. */
  datatype Receipt = Receipt(rest: string, bindings: bool, admission: string, harness: string, compilerBinary: Option<string>)

  /** manifest.json of an artifact pack: its identity and the hash of every other file. */
  datatype PackManifest = PackManifest(identity: string, files: map<string, string>)

  /** What a source manifest says besides its two bound hashes; fixed by the locked source tree. */
  datatype Core = Core(commit: string, repository: string, rest: string)

  datatype SourceManifest = SourceManifest(core: Core, packHash: string, selfHash: string)

  datatype RowBody = RowBody(lineage: Lineage, status: string, manifestHash: string, compilerBinary: Option<string>, rest: string)

  datatype Row = Row(body: RowBody, selfHash: string)

  datatype EvidenceRecord = EvidenceRecord(status: string, rowHash: string)

  datatype Config = Config(
    rest: string, sourceCommit: string, sourceManifestHash: string, packHash: string,
    compilerBinary: Option<string>, evidence: Option<EvidenceRecord>)

  datatype Entry = Entry(manifestHash: string, rest: string)

  datatype ReportBody = ReportBody(meta: string, lineages: map<Lineage, Entry>, probes: seq<Row>)

  datatype Report = Report(body: ReportBody, selfHash: string)

  /** The files of one lineage. `others` are the pack files besides receipt, manifest and checksums. */
  datatype Files = Files(
    receipt: Receipt, others: map<string, string>, pack: PackManifest, source: Option<SourceManifest>, config: Config)

  /** SHA-256 of each kind of document. Nothing is assumed of it, so every hash function is covered. */
  datatype Hashing = Hashing(
    receipt: Receipt -> string, bytes: string -> string, pack: PackManifest -> string,
    manifest: (Core, string) -> string, sourceFile: SourceManifest -> string,
    row: RowBody -> string, report: ReportBody -> string)

  /** The locked sources: what a source manifest's core is, and the lock record's commit and repository. */
  datatype Sources = Sources(core: Lineage -> Core, lockCommit: Lineage -> string, lockRepository: Lineage -> string)

  datatype Dataset = Dataset(files: map<Lineage, Files>, report: Option<Report>)

  const ADMITTED := "source_pinned_and_built"
  const BACKED := "source_backed_development"
  const RECEIPT_NAME := "source_receipt.json"

  // ---------------------------------------------------------------- the writer

  /** build_source_manifest; None when it raises. */
  function BuildManifest(ds: Dataset, l: Lineage, h: Hashing, s: Sources): Option<SourceManifest> {
    if l !in ds.files || ds.files[l].config.sourceCommit != s.lockCommit(l) then None
    else
      var packHash := h.pack(ds.files[l].pack);
      Some(SourceManifest(s.core(l), packHash, h.manifest(s.core(l), packHash)))
  }

  function Rebound(row: Row, manifestHash: string, h: Hashing): Row {
    var body := row.body.(manifestHash := manifestHash);
    Row(body, h.row(body))
  }

  function NewReceipt(f: Files): Receipt {
    f.receipt.(bindings := false, admission := ADMITTED, harness := BACKED, compilerBinary := f.config.compilerBinary)
  }

  /** _refresh_artifact_manifest */
  function Repacked(identity: string, others: map<string, string>, receipt: Receipt, h: Hashing): PackManifest {
    PackManifest(identity, (map name | name in others :: h.bytes(others[name]))[RECEIPT_NAME := h.receipt(receipt)])
  }

  function ReplaceFirst(rows: seq<Row>, row: Row): seq<Row> {
    if rows == [] then []
    else if rows[0].body.lineage == row.body.lineage then [row] + rows[1..]
    else [rows[0]] + ReplaceFirst(rows[1..], row)
  }

  function Updated(report: Report, row: Row, h: Hashing): Report {
    var l := row.body.lineage;
    var lineages := if l in report.body.lineages
                    then report.body.lineages[l := report.body.lineages[l].(manifestHash := row.body.manifestHash)]
                    else report.body.lineages;
    var body := report.body.(lineages := lineages, probes := ReplaceFirst(report.body.probes, row));
    Report(body, h.report(body))
  }

  /** finalize_source_backed_metadata for a passing probe: the whole new dataset, None where it raises. */
  function Finalize(ds: Dataset, l: Lineage, core: Core, probe: Row, h: Hashing): Option<Dataset> {
    if probe.body.status != "pass" || l !in ds.files || ds.report.None? then None
    else
      var f := ds.files[l];
      var receipt := NewReceipt(f);
      var pack := Repacked(f.pack.identity, f.others, receipt, h);
      var manifest := SourceManifest(core, h.pack(pack), h.manifest(core, h.pack(pack)));
      var row := Rebound(probe, manifest.selfHash, h);
      var config := f.config.(sourceManifestHash := h.sourceFile(manifest), packHash := h.pack(pack),
                              compilerBinary := probe.body.compilerBinary,
                              evidence := Some(EvidenceRecord("pass", row.selfHash)));
      Some(Dataset(ds.files[l := Files(receipt, f.others, pack, Some(manifest), config)],
                   Some(Updated(ds.report.value, row, h))))
  }

  function LineagesOf(rows: seq<Row>): set<Lineage> {
    set row | row in rows :: row.body.lineage
  }

  function Without(rows: seq<Row>, gone: set<Lineage>): seq<Row> {
    if rows == [] then []
    else (if rows[0].body.lineage in gone then [] else [rows[0]]) + Without(rows[1..], gone)
  }

  /** Python's order on strings. */
  predicate Before(a: string, b: string) {
    if b == "" then false
    else if a == "" then true
    else a[0] < b[0] || (a[0] == b[0] && Before(a[1..], b[1..]))
  }

  function Insert(row: Row, rows: seq<Row>): seq<Row> {
    if rows == [] || !Before(rows[0].body.lineage, row.body.lineage) then [row] + rows
    else [rows[0]] + Insert(row, rows[1..])
  }

  /** sorted(rows, key=lineage_id), which is stable. */
  function Sort(rows: seq<Row>): seq<Row> {
    if rows == [] then [] else Insert(rows[0], Sort(rows[1..]))
  }

  /** _merge_report_history */
  function Merge(existing: Option<Report>, current: ReportBody, h: Hashing): Report {
    var body := match existing
      case None => current
      case Some(earlier) =>
        ReportBody(current.meta, earlier.body.lineages + current.lineages,
                   Sort(Without(earlier.body.probes, LineagesOf(current.probes)) + current.probes));
    Report(body, h.report(body))
  }

  // ---------------------------------------------------------------- the dataset validator

  function RowsOf(rows: seq<Row>, l: Lineage): seq<Row> {
    if rows == [] then []
    else (if rows[0].body.lineage == l then [rows[0]] else []) + RowsOf(rows[1..], l)
  }

  /** _source_backed_harness_errors(l) == [], the row being the first one of the lineage. */
  ghost predicate Accepted(ds: Dataset, l: Lineage, h: Hashing, s: Sources) {
    && l in ds.files && ds.files[l].source.Some?
    && var f, manifest := ds.files[l], ds.files[l].source.value;
    && f.config.sourceManifestHash == h.sourceFile(manifest)
    && manifest.core.commit == s.lockCommit(l)
    && manifest.core.repository == s.lockRepository(l)
    && BuildManifest(ds, l, h, s).Some?
    && manifest.selfHash == BuildManifest(ds, l, h, s).value.selfHash
    && manifest.packHash == h.pack(f.pack)
    && f.config.evidence.Some?
    && ReportAccepts(ds.report, l, manifest.selfHash, f.config.evidence.value, h)
    && f.receipt.admission == ADMITTED
  }

  ghost predicate ReportAccepts(report: Option<Report>, l: Lineage, manifestHash: string, evidence: EvidenceRecord, h: Hashing) {
    && report.Some?
    && RowsOf(report.value.body.probes, l) != []
    && var row := RowsOf(report.value.body.probes, l)[0];
    && row.body.status == "pass"
    && row.body.manifestHash == manifestHash
    && row.selfHash == h.row(row.body)
    && report.value.selfHash == h.report(report.value.body)
    && evidence == EvidenceRecord("pass", row.selfHash)
  }

  // ---------------------------------------------------------------- rows survive merging and sorting

  lemma {:induction false} BeforeIsIrreflexive(a: string)
    ensures !Before(a, a)
    decreases |a|
  {
    if a != "" {
      BeforeIsIrreflexive(a[1..]);
    }
  }

  lemma {:induction false} RowsOfInsert(row: Row, rows: seq<Row>, l: Lineage)
    ensures RowsOf(Insert(row, rows), l) == (if row.body.lineage == l then [row] else []) + RowsOf(rows, l)
    decreases |rows|
  {
    if !(rows == [] || !Before(rows[0].body.lineage, row.body.lineage)) {
      BeforeIsIrreflexive(row.body.lineage);
      RowsOfInsert(row, rows[1..], l);
      assert ([rows[0]] + Insert(row, rows[1..]))[1..] == Insert(row, rows[1..]);
    } else {
      assert ([row] + rows)[1..] == rows;
    }
  }

  lemma {:induction false} RowsOfSort(rows: seq<Row>, l: Lineage)
    ensures RowsOf(Sort(rows), l) == RowsOf(rows, l)
    decreases |rows|
  {
    if rows != [] {
      RowsOfSort(rows[1..], l);
      RowsOfInsert(rows[0], Sort(rows[1..]), l);
    }
  }

  lemma {:induction false} RowsOfConcat(a: seq<Row>, b: seq<Row>, l: Lineage)
    ensures RowsOf(a + b, l) == RowsOf(a, l) + RowsOf(b, l)
    decreases |a|
  {
    if a == [] {
      assert a + b == b;
    } else {
      assert (a + b)[1..] == a[1..] + b && (a + b)[0] == a[0];
      RowsOfConcat(a[1..], b, l);
      var head := if a[0].body.lineage == l then [a[0]] else [];
      assert RowsOf(a + b, l) == head + RowsOf(a[1..] + b, l);
      assert head + (RowsOf(a[1..], l) + RowsOf(b, l)) == (head + RowsOf(a[1..], l)) + RowsOf(b, l);
    }
  }

  lemma {:induction false} RowsOfWithout(rows: seq<Row>, gone: set<Lineage>, l: Lineage)
    ensures RowsOf(Without(rows, gone), l) == if l in gone then [] else RowsOf(rows, l)
    decreases |rows|
  {
    if rows != [] {
      RowsOfWithout(rows[1..], gone, l);
      var tail := Without(rows[1..], gone);
      if rows[0].body.lineage !in gone {
        assert ([rows[0]] + tail)[1..] == tail;
      } else {
        assert [] + tail == tail;
      }
    }
  }

  lemma {:induction false} RowsOfMember(rows: seq<Row>, l: Lineage)
    ensures RowsOf(rows, l) == [] <==> l !in LineagesOf(rows)
    decreases |rows|
  {
    if rows != [] {
      assert rows == [rows[0]] + rows[1..];
      RowsOfMember(rows[1..], l);
    }
  }

  /** Merging is a last-writer-wins map by lineage. */
  lemma MergeIsLastWriterWins(existing: Option<Report>, current: ReportBody, h: Hashing, l: Lineage)
    ensures RowsOf(Merge(existing, current, h).body.probes, l)
         == if l in LineagesOf(current.probes) || existing.None? then RowsOf(current.probes, l)
            else RowsOf(existing.value.body.probes, l)
    ensures Merge(existing, current, h).selfHash == h.report(Merge(existing, current, h).body)
  {
    if existing.Some? {
      var kept := Without(existing.value.body.probes, LineagesOf(current.probes));
      RowsOfSort(kept + current.probes, l);
      RowsOfConcat(kept, current.probes, l);
      RowsOfWithout(existing.value.body.probes, LineagesOf(current.probes), l);
      RowsOfMember(current.probes, l);
    }
  }

  // ---------------------------------------------------------------- the merged list as a whole

  predicate InOrder(rows: seq<Row>) {
    forall i, j :: 0 <= i < j < |rows| ==> !Before(rows[j].body.lineage, rows[i].body.lineage)
  }

  lemma {:induction false} BeforeIsTotal(a: string, b: string)
    ensures !Before(a, b) && !Before(b, a) ==> a == b
    decreases |a|
  {
    if a != "" && b != "" {
      BeforeIsTotal(a[1..], b[1..]);
      assert a == [a[0]] + a[1..] && b == [b[0]] + b[1..];
    }
  }

  lemma {:induction false} BeforeIsTransitive(a: string, b: string, c: string)
    ensures !Before(b, a) && !Before(c, b) ==> !Before(c, a)
    decreases |a|
  {
    if a != "" && b != "" && c != "" {
      BeforeIsTransitive(a[1..], b[1..], c[1..]);
    }
  }

  lemma {:induction false} InsertKeepsOrder(row: Row, rows: seq<Row>)
    requires InOrder(rows)
    ensures InOrder(Insert(row, rows))
    ensures forall r :: r in Insert(row, rows) ==> r == row || r in rows
    decreases |rows|
  {
    hide Before;
    var l := row.body.lineage;
    if rows == [] {
    } else if !Before(rows[0].body.lineage, l) {
      forall j | 0 <= j < |rows| ensures !Before(rows[j].body.lineage, l) {
        BeforeIsTransitive(l, rows[0].body.lineage, rows[j].body.lineage);
        BeforeIsIrreflexive(rows[0].body.lineage);
      }
    } else {
      var tail := Insert(row, rows[1..]);
      InsertKeepsOrder(row, rows[1..]);
      BeforeIsAsymmetric(rows[0].body.lineage, l);
      forall j | 0 <= j < |tail| ensures !Before(tail[j].body.lineage, rows[0].body.lineage) {
        assert tail[j] in tail;
        if tail[j] != row {
          var k :| 0 <= k < |rows[1..]| && rows[1..][k] == tail[j];
          assert rows[k + 1] == tail[j];
        }
      }
    }
  }

  lemma {:induction false} BeforeIsAsymmetric(a: string, b: string)
    ensures Before(a, b) ==> !Before(b, a)
    decreases |a|
  {
    if a != "" && b != "" {
      BeforeIsAsymmetric(a[1..], b[1..]);
    }
  }

  lemma {:induction false} SortIsInOrder(rows: seq<Row>)
    ensures InOrder(Sort(rows))
    decreases |rows|
  {
    if rows != [] {
      SortIsInOrder(rows[1..]);
      InsertKeepsOrder(rows[0], Sort(rows[1..]));
    }
  }

  /** A list in order is known by the rows of each lineage. */
  lemma {:induction false} OrderedByRows(x: seq<Row>, y: seq<Row>)
    requires InOrder(x) && InOrder(y) && forall l :: RowsOf(x, l) == RowsOf(y, l)
    ensures x == y
    decreases |x|
  {
    hide Before;
    if x == [] {
      assert forall r :: r in y ==> r.body.lineage in LineagesOf(y);
      assert y != [] ==> RowsOf(x, y[0].body.lineage) == RowsOf(y, y[0].body.lineage);
    } else {
      var a := x[0].body.lineage;
      assert RowsOf(x, a) != [];
      RowsOfMember(y, a);
      var r :| r in y && r.body.lineage == a;
      RowsOfMember(x, y[0].body.lineage);
      var q :| q in x && q.body.lineage == y[0].body.lineage;
      FirstIsLeast(x, q);
      FirstIsLeast(y, r);
      BeforeIsTotal(a, y[0].body.lineage);
      forall l ensures RowsOf(x[1..], l) == RowsOf(y[1..], l) {
        FirstRow(x, l);
        FirstRow(y, l);
        FirstRow(x, a);
        FirstRow(y, a);
      }
      OrderedByRows(x[1..], y[1..]);
      FirstRow(x, a);
      FirstRow(y, a);
      assert x == [x[0]] + x[1..] && y == [y[0]] + y[1..];
    }
  }

  lemma FirstIsLeast(rows: seq<Row>, r: Row)
    requires InOrder(rows) && r in rows
    ensures !Before(r.body.lineage, rows[0].body.lineage)
  {
    BeforeIsIrreflexive(r.body.lineage);
  }

  lemma FirstRow(rows: seq<Row>, l: Lineage)
    requires rows != []
    ensures rows[0].body.lineage == l ==> RowsOf(rows, l) != [] && RowsOf(rows, l)[0] == rows[0]
    ensures rows[0].body.lineage == l ==> RowsOf(rows, l) != [] && RowsOf(rows, l)[1..] == RowsOf(rows[1..], l)
    ensures rows[0].body.lineage != l ==> RowsOf(rows, l) == RowsOf(rows[1..], l)
  {
  }

  lemma MergeIsInOrder(existing: Report, current: ReportBody, h: Hashing)
    ensures InOrder(Merge(Some(existing), current, h).body.probes)
  {
    SortIsInOrder(Without(existing.body.probes, LineagesOf(current.probes)) + current.probes);
  }

  /** Merging the same run twice changes nothing at all; and runs over disjoint lineages commute, in the whole
      list of rows and in the table of lineages. */
  lemma MergeIdempotentAndCommutes(existing: Report, a: ReportBody, b: ReportBody, h: Hashing)
    requires LineagesOf(a.probes) !! LineagesOf(b.probes) && a.lineages.Keys !! b.lineages.Keys
    ensures var once := Merge(Some(existing), a, h); Merge(Some(once), a, h) == once
    ensures var ab, ba := Merge(Some(Merge(Some(existing), a, h)), b, h).body, Merge(Some(Merge(Some(existing), b, h)), a, h).body;
            ab.probes == ba.probes && ab.lineages == ba.lineages
  {
    var ea, eb := Merge(Some(existing), a, h), Merge(Some(existing), b, h);
    var eaa, eab, eba := Merge(Some(ea), a, h), Merge(Some(ea), b, h), Merge(Some(eb), a, h);
    assert eaa.body.lineages == ea.body.lineages && eaa.body.meta == ea.body.meta;
    assert eab.body.lineages == eba.body.lineages;
    assert eaa.selfHash == h.report(eaa.body) && ea.selfHash == h.report(ea.body);
    forall l ensures RowsOf(eaa.body.probes, l) == RowsOf(ea.body.probes, l) && RowsOf(eab.body.probes, l) == RowsOf(eba.body.probes, l) {
      hide Merge;
      MergeIsLastWriterWins(Some(existing), a, h, l);
      MergeIsLastWriterWins(Some(existing), b, h, l);
      MergeIsLastWriterWins(Some(ea), a, h, l);
      MergeIsLastWriterWins(Some(ea), b, h, l);
      MergeIsLastWriterWins(Some(eb), a, h, l);
    }
    MergeIsInOrder(existing, a, h);
    MergeIsInOrder(ea, a, h);
    MergeIsInOrder(ea, b, h);
    MergeIsInOrder(eb, a, h);
    OrderedByRows(eaa.body.probes, ea.body.probes);
    OrderedByRows(eab.body.probes, eba.body.probes);
  }

  lemma {:induction false} RowsOfReplace(rows: seq<Row>, row: Row, l: Lineage)
    ensures var before, after := RowsOf(rows, l), RowsOf(ReplaceFirst(rows, row), l);
            if l != row.body.lineage || before == [] then after == before else after == [row] + before[1..]
    decreases |rows|
  {
    if rows != [] {
      if rows[0].body.lineage == row.body.lineage {
        assert ([row] + rows[1..])[1..] == rows[1..];
      } else {
        RowsOfReplace(rows[1..], row, l);
        var tail := ReplaceFirst(rows[1..], row);
        assert ([rows[0]] + tail)[1..] == tail;
        assert RowsOf(rows, l) == (if rows[0].body.lineage == l then [rows[0]] else []) + RowsOf(rows[1..], l);
        assert l == row.body.lineage ==> RowsOf(rows, l) == RowsOf(rows[1..], l);
      }
    }
  }

  // ---------------------------------------------------------------- the program, on files it rewrites

  class Workspace {
    var files: map<Lineage, Files>
    var report: Option<Report>

    function State(): Dataset
      reads this
    {
      Dataset(files, report)
    }

    constructor (files: map<Lineage, Files>, report: Option<Report>)
      ensures State() == Dataset(files, report)
    {
      this.files, this.report := files, report;
    }

    /** The files in the order they are written: receipt, artifact manifest, source manifest, harness
        configuration, report. */
    method FinalizeLineage(l: Lineage, core: Core, probe: Row, h: Hashing) returns (ok: bool)
      modifies this
      ensures ok == Finalize(old(State()), l, core, probe, h).Some?
      ensures State() == Finalize(old(State()), l, core, probe, h).GetOr(old(State()))
    {
      hide NewReceipt, Repacked, Rebound, Updated;
      if probe.body.status != "pass" || l !in files || report.None? {
        return false;
      }
      ghost var f := files[l];
      files := files[l := files[l].(receipt := NewReceipt(files[l]))];
      assert files == old(files)[l := f.(receipt := NewReceipt(f))];
      files := files[l := files[l].(pack := Repacked(files[l].pack.identity, files[l].others, files[l].receipt, h))];
      ghost var pack := Repacked(f.pack.identity, f.others, NewReceipt(f), h);
      assert files == old(files)[l := f.(receipt := NewReceipt(f), pack := pack)];
      var packHash := h.pack(files[l].pack);
      var manifest := SourceManifest(core, packHash, h.manifest(core, packHash));
      files := files[l := files[l].(source := Some(manifest))];
      assert files == old(files)[l := Files(NewReceipt(f), f.others, pack, Some(manifest), f.config)];
      var row := Rebound(probe, manifest.selfHash, h);
      files := files[l := files[l].(config := files[l].config.(
        sourceManifestHash := h.sourceFile(manifest), packHash := packHash,
        compilerBinary := probe.body.compilerBinary, evidence := Some(EvidenceRecord("pass", row.selfHash))))];
      report := Some(Updated(report.value, row, h));
      ok := true;
      assert files == Finalize(old(State()), l, core, probe, h).value.files;
    }

    /** The rows of the run replace those of its lineages and leave the others; the list stays in order, the
        table of lineages takes the run's entries over, and the report is hashed anew. */
    method MergeReport(current: ReportBody, h: Hashing)
      modifies this`report
      ensures report.Some? && report.value.selfHash == h.report(report.value.body) && report.value.body.meta == current.meta
      ensures forall l :: RowsOf(report.value.body.probes, l)
                          == if l in LineagesOf(current.probes) || old(report).None? then RowsOf(current.probes, l)
                             else RowsOf(old(report).value.body.probes, l)
      ensures if old(report).None? then report.value.body == current
              else InOrder(report.value.body.probes)
                   && report.value.body.lineages == old(report).value.body.lineages + current.lineages
      ensures State() == old(State()).(report := Some(Merge(old(report), current, h)))
    {
      forall l ensures RowsOf(Merge(report, current, h).body.probes, l)
                       == if l in LineagesOf(current.probes) || report.None? then RowsOf(current.probes, l)
                          else RowsOf(report.value.body.probes, l) {
        MergeIsLastWriterWins(report, current, h, l);
      }
      if report.Some? {
        MergeIsInOrder(report.value, current, h);
      }
      report := Some(Merge(report, current, h));
    }
  }

  // ---------------------------------------------------------------- histories

  /** One event: a probe run whose rows are merged into the report, or the finalization of one lineage with
      the manifest built at that time and the probe row of the report. */
  datatype Event =
    | Probed(current: ReportBody)
    | Finalized(lineage: Lineage, probe: Row)

  function Step(ds: Dataset, e: Event, h: Hashing, s: Sources): Dataset {
    match e
    case Probed(current) => ds.(report := Some(Merge(ds.report, current, h)))
    case Finalized(l, probe) => Finalize(ds, l, s.core(l), probe, h).GetOr(ds)
  }

  function After(start: Dataset, events: seq<Event>, h: Hashing, s: Sources): Dataset {
    if events == [] then start
    else Step(After(start, events[..|events| - 1], h, s), events[|events| - 1], h, s)
  }

  /** The event rewrites files or rows of the lineage. */
  predicate Touches(e: Event, l: Lineage) {
    match e
    case Probed(current) => l in LineagesOf(current.probes)
    case Finalized(other, _) => other == l
  }

  /** What the caller of finalize guarantees: it passes the row of a passing probe of that lineage, and the
      harness configuration names the locked commit. */
  ghost predicate PassingFinalization(ds: Dataset, e: Event, l: Lineage, s: Sources) {
    && e.Finalized? && e.lineage == l && e.probe.body.lineage == l && e.probe.body.status == "pass"
    && l in ds.files && ds.files[l].config.sourceCommit == s.lockCommit(l)
  }

  /** The report has a row of the lineage. */
  ghost predicate Listed(ds: Dataset, l: Lineage) {
    ds.report.Some? && RowsOf(ds.report.value.body.probes, l) != []
  }

  /** Some run has probed the lineage, as every run does before it finalizes. */
  ghost predicate ProbedIn(history: seq<Event>, l: Lineage) {
    exists n :: 0 <= n < |history| && Probes(history[n], l)
  }

  predicate Probes(e: Event, l: Lineage) {
    e.Probed? && l in LineagesOf(e.current.probes)
  }

  ghost predicate LockAgrees(l: Lineage, s: Sources) {
    s.core(l).commit == s.lockCommit(l) && s.core(l).repository == s.lockRepository(l)
  }

  /** A row of the lineage, once merged, stays whatever is merged and finalized. */
  lemma StepKeepsListed(ds: Dataset, e: Event, l: Lineage, h: Hashing, s: Sources)
    requires Listed(ds, l) || Probes(e, l)
    ensures Listed(Step(ds, e, h, s), l)
  {
    match e
    case Probed(current) =>
      MergeIsLastWriterWins(ds.report, current, h, l);
      RowsOfMember(current.probes, l);
    case Finalized(other, probe) =>
      if Finalize(ds, other, s.core(other), probe, h).Some? {
        var row := Rebound(probe, Step(ds, e, h, s).files[other].source.value.selfHash, h);
        RowsOfReplace(ds.report.value.body.probes, row, l);
      }
  }

  lemma {:induction false} ProbedIsListed(start: Dataset, history: seq<Event>, l: Lineage, h: Hashing, s: Sources)
    requires ProbedIn(history, l)
    ensures Listed(After(start, history, h, s), l)
    decreases |history|
  {
    hide Step, Listed, Probes;
    var n :| 0 <= n < |history| && Probes(history[n], l);
    var before, last := history[..|history| - 1], history[|history| - 1];
    if n < |before| {
      assert Probes(before[n], l);
      ProbedIsListed(start, before, l, h, s);
    }
    StepKeepsListed(After(start, before, h, s), last, l, h, s);
  }

  /** The writer leaves what the validator accepts exactly when the report has a row of the lineage to rebind. */
  lemma FinalizationIsAccepted(ds: Dataset, e: Event, l: Lineage, h: Hashing, s: Sources)
    requires PassingFinalization(ds, e, l, s) && LockAgrees(l, s)
    ensures Accepted(Step(ds, e, h, s), l, h, s) <==> Listed(ds, l)
  {
    if ds.report.Some? {
      var row := Rebound(e.probe, Step(ds, e, h, s).files[l].source.value.selfHash, h);
      RowsOfReplace(ds.report.value.body.probes, row, l);
    }
  }

  lemma OtherWorkKeepsAcceptance(ds: Dataset, e: Event, l: Lineage, h: Hashing, s: Sources)
    requires Accepted(ds, l, h, s) && !Touches(e, l)
    requires e.Finalized? ==> e.probe.body.lineage == e.lineage
    ensures Accepted(Step(ds, e, h, s), l, h, s)
  {
    match e
    case Probed(current) => MergeIsLastWriterWins(ds.report, current, h, l);
    case Finalized(other, probe) =>
      if Finalize(ds, other, s.core(other), probe, h).Some? {
        var after := Step(ds, e, h, s);
        var row := Rebound(probe, after.files[other].source.value.selfHash, h);
        RowsOfReplace(ds.report.value.body.probes, row, l);
      }
  }

  /** For every history of probe runs and finalizations and every hash function: a lineage that was probed and
      whose latest event is a passing finalization is accepted by the dataset validator, whatever is done to
      other lineages afterwards. */
  lemma {:induction false} FinalizedLineageStaysAccepted(start: Dataset, history: seq<Event>, e: Event, later: seq<Event>,
                                                         l: Lineage, h: Hashing, s: Sources)
    requires ProbedIn(history, l)
    requires PassingFinalization(After(start, history, h, s), e, l, s) && LockAgrees(l, s)
    requires forall x :: x in later ==> !Touches(x, l) && (x.Finalized? ==> x.probe.body.lineage == x.lineage)
    ensures Accepted(After(start, history + [e] + later, h, s), l, h, s)
    decreases |later|
  {
    hide Step, Accepted, PassingFinalization, Listed, ProbedIn;
    if later == [] {
      assert history + [e] + later == history + [e];
      assert (history + [e])[..|history|] == history;
      ProbedIsListed(start, history, l, h, s);
      FinalizationIsAccepted(After(start, history, h, s), e, l, h, s);
    } else {
      var before, last := later[..|later| - 1], later[|later| - 1];
      FinalizedLineageStaysAccepted(start, history, e, before, l, h, s);
      var all := history + [e] + later;
      assert all[..|all| - 1] == history + [e] + before;
      assert last in later;
      OtherWorkKeepsAcceptance(After(start, history + [e] + before, h, s), last, l, h, s);
    }
  }

  // ---------------------------------------------------------------- what a finalization leaves in the files

  /** manifest.json lists every file of the pack beside itself and the checksums, the receipt on disk among
      them, each with its own hash. */
  ghost predicate PackIsTrue(f: Files, h: Hashing) {
    && f.pack.files.Keys == f.others.Keys + {"source_receipt.json"}
    && f.pack.files["source_receipt.json"] == h.receipt(f.receipt)
    && forall name :: name in f.others && name != "source_receipt.json" ==> f.pack.files[name] == h.bytes(f.others[name])
  }

  /** Field by field, what a passing finalization leaves: the receipt says pinned, built and source-backed and
      carries no harness keys; the manifests bind it; the configuration binds them and the row; of the report
      only the lineage's entry and first row change, and no other lineage's files do. */
  lemma FinalizationWrites(ds: Dataset, e: Event, l: Lineage, h: Hashing, s: Sources)
    requires PassingFinalization(ds, e, l, s) && ds.report.Some?
    ensures var ds' := Step(ds, e, h, s);
      && ds'.files.Keys == ds.files.Keys && (forall x :: x in ds.files && x != l ==> ds'.files[x] == ds.files[x])
      && PackIsTrue(ds'.files[l], h)
      && ReceiptWritten(ds.files[l], ds'.files[l])
      && ManifestsWritten(ds.files[l], ds'.files[l], s.core(l), h)
      && ConfigWritten(ds.files[l], ds'.files[l], e.probe, h)
      && ds'.report.Some? && ReportWritten(ds.report.value, ds'.report.value, ds'.files[l], e.probe, h)
  {
    var row := Rebound(e.probe, Step(ds, e, h, s).files[l].source.value.selfHash, h);
    RowsOfReplace(ds.report.value.body.probes, row, l);
  }

  ghost predicate ReceiptWritten(f: Files, f': Files) {
    && f'.receipt.admission == "source_pinned_and_built" && f'.receipt.harness == "source_backed_development"
    && !f'.receipt.bindings && f'.receipt.compilerBinary == f.config.compilerBinary && f'.receipt.rest == f.receipt.rest
    && f'.others == f.others
  }

  ghost predicate ManifestsWritten(f: Files, f': Files, core: Core, h: Hashing) {
    && f'.pack.identity == f.pack.identity
    && f'.source.Some? && f'.source.value.core == core
    && f'.source.value.packHash == h.pack(f'.pack) && f'.source.value.selfHash == h.manifest(core, h.pack(f'.pack))
  }

  ghost predicate ConfigWritten(f: Files, f': Files, probe: Row, h: Hashing)
    requires f'.source.Some?
  {
    && f'.config.rest == f.config.rest && f'.config.sourceCommit == f.config.sourceCommit
    && f'.config.sourceManifestHash == h.sourceFile(f'.source.value) && f'.config.packHash == h.pack(f'.pack)
    && f'.config.compilerBinary == probe.body.compilerBinary
    && f'.config.evidence == Some(EvidenceRecord("pass", h.row(probe.body.(manifestHash := f'.source.value.selfHash))))
  }

  ghost predicate ReportWritten(r: Report, r': Report, f': Files, probe: Row, h: Hashing)
    requires f'.source.Some?
  {
    var l, hash := probe.body.lineage, f'.source.value.selfHash;
    && r'.body.meta == r.body.meta && r'.selfHash == h.report(r'.body)
    && r'.body.lineages.Keys == r.body.lineages.Keys
    && (forall x :: x in r.body.lineages ==>
          && r'.body.lineages[x].rest == r.body.lineages[x].rest
          && r'.body.lineages[x].manifestHash == if x == l then hash else r.body.lineages[x].manifestHash)
    && (RowsOf(r.body.probes, l) != [] ==>
          RowsOf(r'.body.probes, l)
          == [Row(probe.body.(manifestHash := hash), h.row(probe.body.(manifestHash := hash)))] + RowsOf(r.body.probes, l)[1..])
  }

  /** A probe that did not pass finalizes nothing. */
  lemma FailingProbeFinalizesNothing(ds: Dataset, l: Lineage, probe: Row, h: Hashing, s: Sources)
    requires probe.body.status != "pass"
    ensures Step(ds, Finalized(l, probe), h, s) == ds
  {
  }

  /** Work on other lineages leaves the files of a lineage alone, so its artifact manifest stays true. */
  lemma {:induction false} FilesStay(start: Dataset, history: seq<Event>, later: seq<Event>, l: Lineage, h: Hashing, s: Sources)
    requires l in After(start, history, h, s).files
    requires forall x :: x in later ==> !Touches(x, l)
    ensures l in After(start, history + later, h, s).files
    ensures After(start, history + later, h, s).files[l] == After(start, history, h, s).files[l]
    decreases |later|
  {
    hide Step, Touches;
    if later == [] {
      assert history + later == history;
    } else {
      var before, last := later[..|later| - 1], later[|later| - 1];
      FilesStay(start, history, before, l, h, s);
      var all := history + later;
      assert all[..|all| - 1] == history + before && last in later;
      StepElsewhere(After(start, history + before, h, s), last, l, h, s);
    }
  }

  lemma StepElsewhere(ds: Dataset, e: Event, l: Lineage, h: Hashing, s: Sources)
    requires l in ds.files && !Touches(e, l)
    ensures l in Step(ds, e, h, s).files && Step(ds, e, h, s).files[l] == ds.files[l]
  {
  }

  // ---------------------------------------------------------------- what acceptance binds

  /** Different documents have different hashes. */
  ghost predicate CollisionFree(h: Hashing) {
    && (forall a, b :: h.pack(a) == h.pack(b) ==> a == b)
    && (forall a, b :: h.sourceFile(a) == h.sourceFile(b) ==> a == b)
    && (forall a, b :: h.row(a) == h.row(b) ==> a == b)
    && (forall a, b :: h.report(a) == h.report(b) ==> a == b)
  }

  /** Under hashes without collisions the configuration binds everything the evidence rests on: two accepted
      datasets with one configuration of the lineage have the same source manifest, artifact manifest and probe
      row of it, and with one report hash the same report. The manifests are those of the locked source. */
  lemma AcceptanceBinds(ds: Dataset, ds': Dataset, l: Lineage, h: Hashing, s: Sources)
    requires CollisionFree(h)
    requires Accepted(ds, l, h, s) && Accepted(ds', l, h, s) && ds.files[l].config == ds'.files[l].config
    ensures var f, row := ds.files[l], RowsOf(ds.report.value.body.probes, l)[0];
      && ds'.files[l].source == f.source && ds'.files[l].pack == f.pack
      && RowsOf(ds'.report.value.body.probes, l)[0] == row
      && (ds.report.value.selfHash == ds'.report.value.selfHash ==> ds.report == ds'.report)
      && row.body.status == "pass" && f.receipt.admission == "source_pinned_and_built"
      && f.config.sourceCommit == f.source.value.core.commit == s.lockCommit(l)
      && f.source.value.core.repository == s.lockRepository(l)
      && row.body.manifestHash == f.source.value.selfHash == h.manifest(s.core(l), h.pack(f.pack))
  {
    hide RowsOf;
  }
}
