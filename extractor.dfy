/** The extractor as a whole: resolve the species and the lookup tables, then for each
    input file build its reports, one per GO term of the catalog, and its grouped table. */
module Extractor {
  import opened Wrappers
  import opened Text
  import opened Tables
  import opened Config
  import opened Catalog
  import opened Grouped
  import opened Pipeline

  const InputFolder := "input"

  /** Everything the file loop reads: the species' profile, its annotation and legend
      tables, and the raw "names" column of the catalog. */
  datatype Setup = Setup(species: Species, profile: Profile, annotation: Frame, legend: Frame, catalog: seq<Cell>)

  /** The start of the run: the species prompt, then the annotation table, the legend and
      the catalog are read, in that order; the first failure ends the run. files maps a
      path to the table stored there. */
  function Resolve(answer: string, files: map<string, Frame>): (r: Result<Setup, Fatal>)
    ensures SelectSpecies(answer).None? ==> r == Err(UnknownSpecies(answer))
    ensures r.Ok? ==> SelectSpecies(answer) == Some(r.value.species) && r.value.profile == ProfileOf(r.value.species)
    ensures r.Ok? ==> r.value.profile.annotationPath in files && r.value.annotation == files[r.value.profile.annotationPath]
    ensures r.Ok? ==> r.value.profile.legendPath in files && r.value.legend == files[r.value.profile.legendPath]
    ensures r.Ok? ==> CatalogPath in files && NamesColumn in files[CatalogPath].columns
    ensures r.Ok? ==> r.value.catalog == Column(files[CatalogPath], NamesColumn)
    ensures r.Err? && SelectSpecies(answer).Some? ==> r.error.FileNotFound? || r.error == NoNamesColumn
  {
    match SelectSpecies(answer)
    case None => Err(UnknownSpecies(answer))
    case Some(sp) =>
      var p := ProfileOf(sp);
      if p.annotationPath !in files then Err(FileNotFound(p.annotationPath))
      else if p.legendPath !in files then Err(FileNotFound(p.legendPath))
      else if CatalogPath !in files then Err(FileNotFound(CatalogPath))
      else if NamesColumn !in files[CatalogPath].columns then Err(NoNamesColumn)
      else Ok(Setup(sp, p, files[p.annotationPath], files[p.legendPath], Column(files[CatalogPath], NamesColumn)))
  }

  /** One entry of the input folder: its name, whether it is a regular file, and the
      table its reader yields. */
  datatype InputEntry = InputEntry(name: string, isFile: bool, table: Frame)

  /** What the file loop does with one entry. Every entry that is a file gets an output
      folder named by its base name, even when it is then skipped. */
  datatype FileOutcome =
    | NotAFile(name: string)
    | UnsupportedType(folder: string)
    | NoGeneId(folder: string)
    | Processed(folder: string, reports: seq<TermReport>, grouped: Sheet)

  /** The state of the GO-term loop: the reports so far and the grouped table. */
  datatype TermsState = TermsState(reports: seq<TermReport>, sheet: Sheet)

  /** One turn of the GO-term loop on a cleaned accession. */
  function TermStep(setup: Setup, expr: Frame, st: TermsState, go: string): (r: Result<TermsState, Fatal>)
    requires Locus in expr.columns
  {
    match ExtractTerm(setup.profile.verbatimLocus, setup.legend, expr, setup.annotation, go)
    case Err(e) => Err(e)
    case Ok(None) => Ok(st)
    case Ok(Some(rep)) => Ok(AddReport(st, rep))
  }

  /** The GO-term loop over cleaned accessions, from the fresh grouped table. */
  function TermsOver(setup: Setup, expr: Frame, ids: seq<string>): Result<TermsState, Fatal>
    requires Locus in expr.columns
    decreases |ids|
  {
    if ids == [] then Ok(TermsState([], Initial()))
    else
      match TermsOver(setup, expr, ids[..|ids| - 1])
      case Err(e) => Err(e)
      case Ok(st) => TermStep(setup, expr, st, ids[|ids| - 1])
  }

  /** One more accession is one more TermStep. */
  lemma TermsSnoc(setup: Setup, expr: Frame, ids: seq<string>, go: string)
    requires Locus in expr.columns
    ensures TermsOver(setup, expr, ids + [go]) ==
      if TermsOver(setup, expr, ids).Err? then TermsOver(setup, expr, ids)
      else TermStep(setup, expr, TermsOver(setup, expr, ids).value, go)
  {
    assert (ids + [go])[..|ids|] == ids;
  }

  /** The GO-term loop's state after catalog entry i, from its state before it. */
  lemma TermLoopStep(setup: Setup, expr: Frame, catalog: seq<Cell>, i: nat, st: TermsState)
    requires Locus in expr.columns && i < |catalog|
    requires TermsOver(setup, expr, CleanRange(catalog, 0, i)) == Ok(st)
    ensures TermsOver(setup, expr, CleanRange(catalog, 0, i + 1)) ==
      if catalog[i].None? then Ok(st) else TermStep(setup, expr, st, Strip(catalog[i].value))
  {
    if catalog[i].Some? {
      TermsSnoc(setup, expr, CleanRange(catalog, 0, i), Strip(catalog[i].value));
    } else {
      assert CleanRange(catalog, 0, i + 1) == CleanRange(catalog, 0, i);
    }
  }

  /** A failing entry i makes the whole GO-term loop fail with its error. */
  lemma TermLoopFails(setup: Setup, expr: Frame, catalog: seq<Cell>, i: nat, e: Fatal)
    requires Locus in expr.columns && i < |catalog|
    requires TermsOver(setup, expr, CleanRange(catalog, 0, i + 1)) == Err(e)
    ensures TermsOver(setup, expr, CleanCatalog(catalog)) == Err(e)
  {
    CleanRangeSplit(catalog, 0, i + 1, |catalog|);
    TermsErrPersists(setup, expr, CleanRange(catalog, 0, i + 1), CleanRange(catalog, i + 1, |catalog|));
  }

  /** A failure ends the GO-term loop: later accessions do not change it. */
  lemma {:induction false} TermsErrPersists(setup: Setup, expr: Frame, ids: seq<string>, more: seq<string>)
    requires Locus in expr.columns && TermsOver(setup, expr, ids).Err?
    ensures TermsOver(setup, expr, ids + more) == TermsOver(setup, expr, ids)
    decreases |more|
  {
    if more == [] {
      assert ids + more == ids;
    } else {
      var init := more[..|more| - 1];
      assert (ids + more)[..|ids + more| - 1] == ids + init;
      TermsErrPersists(setup, expr, ids, init);
    }
  }

  /** The accessions of the reports. */
  function Accessions(reports: seq<TermReport>): (r: seq<string>)
    ensures |r| == |reports| && forall j :: 0 <= j < |r| ==> r[j] == reports[j].go
  {
    seq(|reports|, j requires 0 <= j < |reports| => reports[j].go)
  }

  /** No later report has the term name of report j, so its column is the one that stays. */
  predicate LastOfName(reports: seq<TermReport>, j: nat)
    requires j < |reports|
  {
    forall j' :: j < j' < |reports| ==> reports[j'].termSafe != reports[j].termSafe
  }

  /** The grouped table's columns are "_pad" and the term names of the reports. */
  ghost predicate NamesFromReports(st: TermsState) {
    forall n :: n in st.sheet.names <==> n == PadName || exists j :: 0 <= j < |st.reports| && st.reports[j].termSafe == n
  }

  /** The column of a name holds the padded gene list of the last report with that name. */
  ghost predicate ColumnsFromReports(st: TermsState) {
    forall j :: 0 <= j < |st.reports| && LastOfName(st.reports, j) ==>
      st.reports[j].termSafe in st.sheet.cols && st.sheet.cols[st.reports[j].termSafe] == Fit(st.reports[j].geneIds)
  }

  ghost predicate ReportsShaped(reports: seq<TermReport>) {
    forall j :: 0 <= j < |reports| ==> ReportShape(reports[j], reports[j].go)
  }

  /** What the GO-term loop keeps true: the grouped table is well formed, starts with
      "_pad", has a column per report name holding the last such report's padded genes,
      and the reports follow the catalog order. */
  ghost predicate TermsInvariant(ids: seq<string>, st: TermsState) {
    && SheetValid(st.sheet)
    && |st.sheet.names| >= 1 && st.sheet.names[0] == PadName
    && NamesFromReports(st)
    && ColumnsFromReports(st)
    && ReportsShaped(st.reports)
    && IsSubseq(Accessions(st.reports), ids)
  }

  lemma SubseqSnoc<T>(a: seq<T>, b: seq<T>, x: T)
    requires IsSubseq(a, b)
    ensures IsSubseq(a, b + [x]) && IsSubseq(a + [x], b + [x])
  {
    assert (b + [x])[..|b|] == b;
    assert (a + [x])[..|a|] == a;
  }

  /** The state after a report is added. */
  function AddReport(st: TermsState, rep: TermReport): TermsState {
    TermsState(st.reports + [rep], Put(st.sheet, rep.termSafe, Fit(rep.geneIds)))
  }

  /** Adding a report keeps the column names those of "_pad" and the reports. */
  lemma AddReportNames(st: TermsState, rep: TermReport)
    requires SheetValid(st.sheet) && NamesFromReports(st)
    ensures NamesFromReports(AddReport(st, rep))
  {
    var st' := AddReport(st, rep);
    forall m ensures m in st'.sheet.names <==> m == PadName || exists j :: 0 <= j < |st'.reports| && st'.reports[j].termSafe == m {
      if exists j :: 0 <= j < |st.reports| && st.reports[j].termSafe == m {
        var j :| 0 <= j < |st.reports| && st.reports[j].termSafe == m;
        assert st'.reports[j] == st.reports[j];
      }
      if m != rep.termSafe && exists j :: 0 <= j < |st'.reports| && st'.reports[j].termSafe == m {
        var j :| 0 <= j < |st'.reports| && st'.reports[j].termSafe == m;
        assert j < |st.reports| && st.reports[j] == st'.reports[j];
      }
      assert st'.reports[|st.reports|] == rep;
    }
  }

  /** Adding a report keeps every last-of-its-name report's column, and makes the new
      report's column its padded gene list. */
  lemma AddReportColumns(st: TermsState, rep: TermReport)
    requires ColumnsFromReports(st)
    ensures ColumnsFromReports(AddReport(st, rep))
  {
    var st' := AddReport(st, rep);
    forall j | 0 <= j < |st'.reports| && LastOfName(st'.reports, j)
      ensures st'.reports[j].termSafe in st'.sheet.cols && st'.sheet.cols[st'.reports[j].termSafe] == Fit(st'.reports[j].geneIds)
    {
      if j < |st.reports| {
        assert st'.reports[j] == st.reports[j];
        assert st'.reports[|st.reports|].termSafe != st.reports[j].termSafe;
        assert LastOfName(st.reports, j) by {
          forall j' | j < j' < |st.reports| ensures st.reports[j'].termSafe != st.reports[j].termSafe {
            assert st'.reports[j'] == st.reports[j'];
          }
        }
      }
    }
  }

  lemma AddReportPadFirst(st: TermsState, rep: TermReport)
    requires SheetValid(st.sheet) && |st.sheet.names| >= 1 && st.sheet.names[0] == PadName
    ensures var g := AddReport(st, rep).sheet; SheetValid(g) && |g.names| >= 1 && g.names[0] == PadName
  {
  }

  lemma AppendShaped(reports: seq<TermReport>, rep: TermReport)
    requires ReportsShaped(reports) && ReportShape(rep, rep.go)
    ensures ReportsShaped(reports + [rep])
  {
    forall j | 0 <= j < |reports| + 1 ensures ReportShape((reports + [rep])[j], (reports + [rep])[j].go) {
      if j < |reports| { assert (reports + [rep])[j] == reports[j]; }
    }
  }

  lemma AppendAccessions(reports: seq<TermReport>, rep: TermReport, ids: seq<string>)
    requires IsSubseq(Accessions(reports), ids)
    ensures IsSubseq(Accessions(reports + [rep]), ids + [rep.go])
  {
    assert Accessions(reports + [rep]) == Accessions(reports) + [rep.go];
    SubseqSnoc(Accessions(reports), ids, rep.go);
  }

  /** Adding a report for go keeps the invariant, with go appended to the accessions. */
  lemma AddReportKeeps(ids: seq<string>, st: TermsState, rep: TermReport, go: string)
    requires TermsInvariant(ids, st) && ReportShape(rep, go)
    ensures TermsInvariant(ids + [go], AddReport(st, rep))
  {
    AddReportPadFirst(st, rep);
    AddReportNames(st, rep);
    AddReportColumns(st, rep);
    AppendShaped(st.reports, rep);
    AppendAccessions(st.reports, rep, ids);
  }

  /** TermStep keeps the invariant. */
  lemma TermStepKeeps(setup: Setup, expr: Frame, ids: seq<string>, st: TermsState, go: string)
    requires Locus in expr.columns && TermsInvariant(ids, st)
    ensures TermStep(setup, expr, st, go).Ok? ==> TermsInvariant(ids + [go], TermStep(setup, expr, st, go).value)
  {
    var term := ExtractTerm(setup.profile.verbatimLocus, setup.legend, expr, setup.annotation, go);
    if term.Ok? {
      if term.value.Some? {
        AddReportKeeps(ids, st, term.value.value, go);
      } else {
        SubseqSnoc(Accessions(st.reports), ids, go);
      }
    }
  }

  /** The GO-term loop keeps the invariant from the fresh grouped table on. */
  lemma {:induction false} TermsOverInvariant(setup: Setup, expr: Frame, ids: seq<string>)
    requires Locus in expr.columns
    ensures TermsOver(setup, expr, ids).Ok? ==> TermsInvariant(ids, TermsOver(setup, expr, ids).value)
    decreases |ids|
  {
    if ids != [] {
      var init := ids[..|ids| - 1];
      assert ids == init + [ids[|ids| - 1]];
      TermsOverInvariant(setup, expr, init);
      if TermsOver(setup, expr, init).Ok? {
        TermStepKeeps(setup, expr, init, TermsOver(setup, expr, init).value, ids[|ids| - 1]);
      }
    }
  }

  /** The whole body of the file loop for one entry. */
  function FileResult(setup: Setup, entry: InputEntry): Result<FileOutcome, Fatal> {
    if !entry.isFile then Ok(NotAFile(entry.name))
    else
      var base := SplitExt(entry.name).0;
      if FormatOf(entry.name) == Unsupported then Ok(UnsupportedType(base))
      else if GeneId !in entry.table.columns then Ok(NoGeneId(base))
      else
        var expr := WithLocus(entry.table, setup.profile.verbatimLocus);
        match TermsOver(setup, expr, CleanCatalog(setup.catalog))
        case Err(e) => Err(e)
        case Ok(st) => Ok(Processed(base, st.reports, WithoutPad(st.sheet)))
  }

  /** The GO-term loop over the raw catalog entries, updating the grouped table in place. */
  method TermLoop(setup: Setup, expr: Frame, grouped: GroupedTable) returns (out: Result<seq<TermReport>, Fatal>)
    requires Locus in expr.columns && grouped.Valid() && grouped.Value() == Initial()
    modifies grouped
    ensures grouped.Valid()
    ensures out.Ok? ==> TermsOver(setup, expr, CleanCatalog(setup.catalog)) == Ok(TermsState(out.value, grouped.Value()))
    ensures out.Err? ==> TermsOver(setup, expr, CleanCatalog(setup.catalog)) == Err(out.error)
  {
    var reports: seq<TermReport> := [];
    var catalog := setup.catalog;
    var i := 0;
    while i < |catalog|
      invariant 0 <= i <= |catalog|
      invariant grouped.Valid()
      invariant TermsOver(setup, expr, CleanRange(catalog, 0, i)) == Ok(TermsState(reports, grouped.Value()))
    {
      var cell := catalog[i];
      TermLoopStep(setup, expr, catalog, i, TermsState(reports, grouped.Value()));
      if cell.Some? {
        var go := Strip(cell.value);
        var term := ExtractTerm(setup.profile.verbatimLocus, setup.legend, expr, setup.annotation, go);
        if term.Err? {
          TermLoopFails(setup, expr, catalog, i, term.error);
          return Err(term.error);
        }
        if term.value.Some? {
          var rep := term.value.value;
          grouped.Assign(rep.termSafe, Fit(rep.geneIds));
          reports := reports + [rep];
        }
      }
      i := i + 1;
    }
    return Ok(reports);
  }

  /** The file loop's body: skip an entry that is not a file, has an unsupported type or
      lacks GeneID; otherwise run the GO-term loop and drop the placeholder column. */
  method ProcessFile(setup: Setup, entry: InputEntry) returns (out: Result<FileOutcome, Fatal>)
    ensures out == FileResult(setup, entry)
  {
    if !entry.isFile {
      return Ok(NotAFile(entry.name));
    }
    var base := SplitExt(entry.name).0;
    if FormatOf(entry.name) == Unsupported {
      return Ok(UnsupportedType(base));
    }
    if GeneId !in entry.table.columns {
      return Ok(NoGeneId(base));
    }
    var expr := WithLocus(entry.table, setup.profile.verbatimLocus);
    var grouped := new GroupedTable();
    var terms := TermLoop(setup, expr, grouped);
    if terms.Err? {
      return Err(terms.error);
    }
    grouped.DropPad();
    return Ok(Processed(base, terms.value, grouped.Value()));
  }

  /** The outcome of each listed entry, processed on its own. */
  function FileResults(setup: Setup, entries: seq<InputEntry>): (rs: seq<Result<FileOutcome, Fatal>>)
    ensures |rs| == |entries| && forall i :: 0 <= i < |entries| ==> rs[i] == FileResult(setup, entries[i])
  {
    seq(|entries|, i requires 0 <= i < |entries| => FileResult(setup, entries[i]))
  }

  /** The file loop over the listing, stopping at the first failure. */
  function FilesOver(setup: Setup, entries: seq<InputEntry>): Result<seq<FileOutcome>, Fatal> {
    Sequence(FileResults(setup, entries))
  }

  lemma FileResultsSnoc(setup: Setup, entries: seq<InputEntry>, i: nat)
    requires i < |entries|
    ensures FileResults(setup, entries[..i + 1]) == FileResults(setup, entries[..i]) + [FileResult(setup, entries[i])]
  {
    var rs, init := FileResults(setup, entries[..i + 1]), FileResults(setup, entries[..i]);
    forall k | 0 <= k < i ensures rs[k] == init[k] {
      assert entries[..i + 1][k] == entries[..i][k];
    }
  }

  lemma FileResultsSplit(setup: Setup, entries: seq<InputEntry>, j: nat)
    requires j <= |entries|
    ensures FileResults(setup, entries) == FileResults(setup, entries[..j]) + FileResults(setup, entries[j..])
  {
    var rs, front, back := FileResults(setup, entries), FileResults(setup, entries[..j]), FileResults(setup, entries[j..]);
    forall k | 0 <= k < |entries| ensures rs[k] == (front + back)[k] {
      if k < j {
        assert entries[..j][k] == entries[k];
      } else {
        assert entries[j..][k - j] == entries[k];
      }
    }
  }

  /** The whole run: listing is the content of the input folder, None when it is missing. */
  function RunResult(answer: string, files: map<string, Frame>, listing: Option<seq<InputEntry>>): Result<seq<FileOutcome>, Fatal> {
    match Resolve(answer, files)
    case Err(e) => Err(e)
    case Ok(setup) =>
      match listing
      case None => Err(FileNotFound(InputFolder))
      case Some(entries) => FilesOver(setup, entries)
  }

  /** The run: settle the species and its inputs, then process the listed files. */
  method Run(answer: string, files: map<string, Frame>, listing: Option<seq<InputEntry>>) returns (out: Result<seq<FileOutcome>, Fatal>)
    ensures out == RunResult(answer, files, listing)
  {
    var resolved := Resolve(answer, files);
    if resolved.Err? {
      return Err(resolved.error);
    }
    if listing.None? {
      return Err(FileNotFound(InputFolder));
    }
    out := FileLoop(resolved.value, listing.value);
  }

  /** The file loop: each listed entry in turn, stopping at the first failure. */
  method FileLoop(setup: Setup, entries: seq<InputEntry>) returns (out: Result<seq<FileOutcome>, Fatal>)
    ensures out == FilesOver(setup, entries)
  {
    var outcomes: seq<FileOutcome> := [];
    var i := 0;
    while i < |entries|
      invariant 0 <= i <= |entries|
      invariant FilesOver(setup, entries[..i]) == Ok(outcomes)
    {
      var o := ProcessFile(setup, entries[i]);
      FileResultsSnoc(setup, entries, i);
      SequenceSnoc(FileResults(setup, entries[..i]), o);
      if o.Err? {
        FileResultsSplit(setup, entries, i + 1);
        SequenceErrPersists(FileResults(setup, entries[..i + 1]), FileResults(setup, entries[i + 1..]));
        return Err(o.error);
      }
      outcomes := outcomes + [o.value];
      i := i + 1;
    }
    assert entries[..i] == entries;
    return Ok(outcomes);
  }

  /** What a processed file's outcome satisfies: its folder is the base name; the grouped
      table is well formed, has no "_pad" column, has a column for exactly the term names
      of the reports other than "_pad", each holding the padded gene list of the last
      report with that name; and the reports follow the cleaned catalog's order. */
  lemma ProcessedOutcome(setup: Setup, entry: InputEntry)
    requires FileResult(setup, entry).Ok? && FileResult(setup, entry).value.Processed?
    ensures var o := FileResult(setup, entry).value;
      && o.folder == SplitExt(entry.name).0
      && SheetValid(o.grouped) && PadName !in o.grouped.names
      && (forall n :: n in o.grouped.names <==> n != PadName && exists j :: 0 <= j < |o.reports| && o.reports[j].termSafe == n)
      && (forall j :: 0 <= j < |o.reports| && LastOfName(o.reports, j) && o.reports[j].termSafe != PadName ==>
            o.reports[j].termSafe in o.grouped.cols && o.grouped.cols[o.reports[j].termSafe] == Fit(o.reports[j].geneIds))
      && ReportsShaped(o.reports)
      && IsSubseq(Accessions(o.reports), CleanCatalog(setup.catalog))
  {
    var expr := WithLocus(entry.table, setup.profile.verbatimLocus);
    TermsOverInvariant(setup, expr, CleanCatalog(setup.catalog));
  }

  /** A term the legend has no row for leaves the loop state as it was: no report and no
      grouped column. */
  lemma SkippedTermChangesNothing(setup: Setup, expr: Frame, st: TermsState, go: string)
    requires Locus in expr.columns && LegendReadable(setup.legend) && NoRowFor(setup.legend, go)
    ensures TermStep(setup, expr, st, go) == Ok(st)
  {
    ExtractTermSkips(setup.profile.verbatimLocus, setup.legend, expr, setup.annotation, go);
  }

  /** Failures of the GO-term loop are column lookups and failed splits. */
  lemma {:induction false} TermsErrors(setup: Setup, expr: Frame, ids: seq<string>)
    requires Locus in expr.columns && TermsOver(setup, expr, ids).Err?
    ensures TermsOver(setup, expr, ids).error.MissingColumn? || TermsOver(setup, expr, ids).error == SplitArity
    decreases |ids|
  {
    var init := ids[..|ids| - 1];
    if TermsOver(setup, expr, init).Err? {
      TermsErrors(setup, expr, init);
    }
  }

  /** The file loop treats each entry on its own: with no failure, there is one outcome per
      entry, in listing order; a failure is the first entry's that fails. */
  lemma FilesOverEach(setup: Setup, entries: seq<InputEntry>)
    ensures FilesOver(setup, entries).Ok? ==>
      |FilesOver(setup, entries).value| == |entries| &&
      forall i :: 0 <= i < |entries| ==> FileResult(setup, entries[i]) == Ok(FilesOver(setup, entries).value[i])
    ensures FilesOver(setup, entries).Err? ==>
      exists i :: 0 <= i < |entries| && FileResult(setup, entries[i]) == Err(FilesOver(setup, entries).error) &&
        forall i' :: 0 <= i' < i ==> FileResult(setup, entries[i']).Ok?
    ensures (forall i :: 0 <= i < |entries| ==> FileResult(setup, entries[i]).Ok?) ==> FilesOver(setup, entries).Ok?
  {
    SequenceEach(FileResults(setup, entries));
  }

  /** Failures while processing a file are column lookups and failed splits. */
  lemma FileErrors(setup: Setup, entry: InputEntry)
    requires FileResult(setup, entry).Err?
    ensures FileResult(setup, entry).error.MissingColumn? || FileResult(setup, entry).error == SplitArity
  {
    TermsErrors(setup, WithLocus(entry.table, setup.profile.verbatimLocus), CleanCatalog(setup.catalog));
  }

  /** Failures of the file loop are column lookups and failed splits. */
  lemma FilesErrors(setup: Setup, entries: seq<InputEntry>)
    requires FilesOver(setup, entries).Err?
    ensures FilesOver(setup, entries).error.MissingColumn? || FilesOver(setup, entries).error == SplitArity
  {
    FilesOverEach(setup, entries);
    var i :| 0 <= i < |entries| && FileResult(setup, entries[i]) == Err(FilesOver(setup, entries).error) &&
      forall i' :: 0 <= i' < i ==> FileResult(setup, entries[i']).Ok?;
    FileErrors(setup, entries[i]);
  }

  /** The run fails on the species exactly when the answer selects none; otherwise a
      failure is a missing file or column, or a failed split. */
  lemma RunErrors(answer: string, files: map<string, Frame>, listing: Option<seq<InputEntry>>)
    ensures RunResult(answer, files, listing) == Err(UnknownSpecies(answer)) <==> SelectSpecies(answer).None?
    ensures RunResult(answer, files, listing).Err? && SelectSpecies(answer).Some? ==>
      var e := RunResult(answer, files, listing).error;
      e.FileNotFound? || e == NoNamesColumn || e.MissingColumn? || e == SplitArity
  {
    var r := Resolve(answer, files);
    if r.Ok? && listing.Some? && FilesOver(r.value, listing.value).Err? {
      FilesErrors(r.value, listing.value);
    }
  }
}
