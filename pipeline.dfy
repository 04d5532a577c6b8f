/** What the extractor does for one GO term and one input file: select the term's rows
    of the legend, key them by locus, join them with the input table and then with the
    annotation table, clean up, and list the resulting gene identifiers. */
module Pipeline {
  import opened Wrappers
  import opened Text
  import opened Tables
  import opened Relational
  import opened Catalog

  const Accession := "accession"
  const StableId := "Gene stable ID"
  const TermNameColumn := "GO term name"
  const TermDefinition := "GO term definition"
  const GeneId := "GeneID"
  const Locus := "locus"
  const Rest := "_rest"

  /** The locus of a gene identifier: the identifier itself when loci are verbatim,
      otherwise its text up to (not including) the first dot. */
  function LocusKey(verbatim: bool, id: Cell): (r: Cell)
    ensures verbatim ==> r == id
    ensures !verbatim ==> r.Some? && r.value <= CellText(id) && '.' !in r.value
    ensures !verbatim ==> r.value == CellText(id) || CellText(id)[|r.value|] == '.'
  {
    if verbatim then id else Some(BeforeFirst(CellText(id), '.'))
  }

  /** The second part of split(".", 1): what follows the first dot, NaN when there is none. */
  function RestKey(id: Cell): (r: Cell)
    ensures r.None? <==> '.' !in CellText(id)
  {
    AfterFirst(CellText(id), '.')
  }

  /** Cutting an identifier in two at its first dot loses nothing. */
  lemma SplitRoundTrip(id: Cell)
    ensures RestKey(id).Some? ==> LocusKey(false, id).value + "." + RestKey(id).value == CellText(id)
    ensures RestKey(id).None? ==> LocusKey(false, id) == Some(CellText(id))
  {
  }

  function LocusColumn(ids: seq<Cell>, verbatim: bool): (r: seq<Cell>)
    ensures |r| == |ids| && forall i :: 0 <= i < |ids| ==> r[i] == LocusKey(verbatim, ids[i])
  {
    seq(|ids|, i requires 0 <= i < |ids| => LocusKey(verbatim, ids[i]))
  }

  function RestColumn(ids: seq<Cell>): (r: seq<Cell>)
    ensures |r| == |ids| && forall i :: 0 <= i < |ids| ==> r[i] == RestKey(ids[i])
  {
    seq(|ids|, i requires 0 <= i < |ids| => RestKey(ids[i]))
  }

  /** The input table with its "locus" column, derived from "GeneID". */
  function WithLocus(expr: Frame, verbatim: bool): (r: Frame)
    requires GeneId in expr.columns
    ensures Locus in r.columns && |r.rows| == |expr.rows|
    ensures forall i :: 0 <= i < |r.rows| ==> Column(r, Locus)[i] == LocusKey(verbatim, Column(expr, GeneId)[i])
    ensures forall c :: c in r.columns <==> c in expr.columns || c == Locus
    ensures forall c :: c in expr.columns && c != Locus ==> Column(r, c) == Column(expr, c)
  {
    SetColumn(expr, Locus, LocusColumn(Column(expr, GeneId), verbatim))
  }

  /** The legend rows of one term with their "locus" column (and, when loci are cut at
      the dot, the "_rest" column). pandas refuses to fill two columns from a split that
      found no dot in any identifier. */
  function WithLegendLocus(subset: Frame, verbatim: bool): (r: Result<Frame, Fatal>)
    requires StableId in subset.columns
    ensures r.Err? <==> !verbatim && forall i :: 0 <= i < |subset.rows| ==> RestKey(Column(subset, StableId)[i]).None?
    ensures r.Err? ==> r.error == SplitArity
    ensures r.Ok? ==> Locus in r.value.columns && StableId in r.value.columns && |r.value.rows| == |subset.rows|
    ensures r.Ok? ==> forall c :: c in r.value.columns <==> c in subset.columns || c == Locus || (c == Rest && !verbatim)
    ensures r.Ok? ==> Column(r.value, Locus) == LocusColumn(Column(subset, StableId), verbatim)
    ensures r.Ok? ==> forall c :: c in subset.columns && c != Locus && c != Rest ==> Column(r.value, c) == Column(subset, c)
    ensures r.Ok? && !verbatim ==> Rest in r.value.columns && Column(r.value, Rest) == RestColumn(Column(subset, StableId))
  {
    var ids := Column(subset, StableId);
    var keyed := SetColumn(subset, Locus, LocusColumn(ids, verbatim));
    assert forall c :: c in keyed.columns <==> c in subset.columns || c == Locus;
    if verbatim then Ok(keyed)
    else if forall i :: 0 <= i < |ids| ==> RestKey(ids[i]).None? then Err(SplitArity)
    else
      var both := SetColumn(keyed, Rest, RestColumn(ids));
      assert Locus in keyed.columns && Column(both, Locus) == Column(keyed, Locus);
      assert forall c :: c in both.columns <==> c in keyed.columns || c == Rest;
      Ok(both)
  }

  /** The legend rows whose accession is go. */
  function AccessionRows(legend: Frame, go: string): (r: seq<Row>)
    requires Accession in legend.columns
    ensures forall x :: x in r <==> x in legend.rows && At(x, IndexOf(legend.columns, Accession).value) == Some(go)
    ensures IsSubseq(r, legend.rows)
  {
    Where(legend.rows, IndexOf(legend.columns, Accession).value, Some(go))
  }

  /** Whether the legend has all the columns the term lookup reads. */
  predicate LegendReadable(legend: Frame) {
    Accession in legend.columns && StableId in legend.columns && TermNameColumn in legend.columns && TermDefinition in legend.columns
  }

  /** Go_legend.loc[accession is go, [stable ID, term name, term definition]]: the
      term's legend rows, in legend order, cut to the three columns. */
  function SelectLegend(legend: Frame, go: string): (r: Result<Frame, Fatal>)
    ensures r.Err? <==> !LegendReadable(legend)
    ensures r.Err? ==> r.error.MissingColumn?
    ensures r.Ok? ==> r.value.columns == [StableId, TermNameColumn, TermDefinition]
    ensures r.Ok? ==> |r.value.rows| == |AccessionRows(legend, go)|
    ensures r.Ok? ==> forall c :: c in r.value.columns ==>
      Column(r.value, c) == Column(Subframe(legend, AccessionRows(legend, go)), c)
  {
    if Accession !in legend.columns then Err(MissingColumn(Accession))
    else if StableId !in legend.columns then Err(MissingColumn(StableId))
    else if TermNameColumn !in legend.columns then Err(MissingColumn(TermNameColumn))
    else if TermDefinition !in legend.columns then Err(MissingColumn(TermDefinition))
    else
      var kept := Subframe(legend, AccessionRows(legend, go));
      PickThree(kept);
      Ok(Project(kept, ThreePositions(kept.columns)))
  }

  /** Where the three selected columns first occur. */
  function ThreePositions(cols: seq<string>): (idx: seq<nat>)
    requires StableId in cols && TermNameColumn in cols && TermDefinition in cols
    ensures |idx| == 3 && forall j :: 0 <= j < 3 ==> idx[j] < |cols|
  {
    [IndexOf(cols, StableId).value, IndexOf(cols, TermNameColumn).value, IndexOf(cols, TermDefinition).value]
  }

  /** The projection onto the three columns shows exactly them, with their cells. */
  lemma PickThree(t: Frame)
    requires StableId in t.columns && TermNameColumn in t.columns && TermDefinition in t.columns
    ensures var p := Project(t, ThreePositions(t.columns));
      && p.columns == [StableId, TermNameColumn, TermDefinition]
      && |p.rows| == |t.rows|
      && forall c :: c in p.columns ==> Column(p, c) == Column(t, c)
  {
    var idx := ThreePositions(t.columns);
    var p := Project(t, idx);
    assert StableId != TermNameColumn && StableId != TermDefinition && TermNameColumn != TermDefinition;
    ProjectKeepsColumn(t, idx, StableId, 0);
    ProjectKeepsColumn(t, idx, TermNameColumn, 1);
    ProjectKeepsColumn(t, idx, TermDefinition, 2);
    assert p.columns == [StableId, TermNameColumn, TermDefinition];
  }

  /** The selection is empty exactly when no legend row carries the accession. */
  lemma SelectLegendEmpty(legend: Frame, go: string)
    requires LegendReadable(legend)
    ensures SelectLegend(legend, go).value.rows == [] <==>
      forall x :: x in legend.rows ==> At(x, IndexOf(legend.columns, Accession).value) != Some(go)
  {
    var w := AccessionRows(legend, go);
    if w != [] { assert w[0] in w; }
  }

  /** The cleanup after the joins: one row per stable ID (the first) when that column is
      still there, then the helper columns and the stable ID column are dropped. */
  function Cleanup(t: Frame): (r: Frame)
    ensures forall c :: c in r.columns <==> c in t.columns && c != Rest && c != Locus && c != StableId
    ensures StableId !in t.columns ==> |r.rows| == |t.rows|
    ensures StableId in t.columns ==> |r.rows| == |KeySet(t.rows, IndexOf(t.columns, StableId).value)|
  {
    var src := if StableId in t.columns then DedupBy(t, StableId) else t;
    var drop := if StableId in t.columns then {Rest, Locus, StableId} else {Rest, Locus};
    assert src.columns == t.columns;
    assert forall c :: c in t.columns ==> (c in drop <==> c == Rest || c == Locus || c == StableId);
    DropColumns(src, drop)
  }

  /** Each column the cleanup keeps has the cells of the de-duplicated join (or of the
      join itself when there was no stable ID column to de-duplicate on). */
  lemma CleanupKeepsCells(t: Frame, c: string)
    requires c in Cleanup(t).columns
    ensures c in t.columns
    ensures StableId in t.columns ==> Column(Cleanup(t), c) == Column(DedupBy(t, StableId), c)
    ensures StableId !in t.columns ==> Column(Cleanup(t), c) == Column(t, c)
  {
  }

  /** df.drop_duplicates(subset=[name]): every column kept, one row per key. */
  function DedupBy(t: Frame, name: string): (r: Frame)
    requires name in t.columns
    ensures r.columns == t.columns && r.rows == Dedup(t.rows, IndexOf(t.columns, name).value)
  {
    Subframe(t, Dedup(t.rows, IndexOf(t.columns, name).value))
  }

  /** GeneID becomes the first column when there is one. */
  function Reorder(t: Frame): (r: Frame)
    ensures forall c :: c in r.columns <==> c in t.columns
    ensures GeneId in t.columns ==> |r.columns| > 0 && r.columns[0] == GeneId
    ensures multiset(r.columns) == multiset(t.columns)
    ensures |r.rows| == |t.rows|
    ensures forall c :: c in r.columns ==> Column(r, c) == Column(t, c)
  {
    if GeneId in t.columns then MoveToFront(t, GeneId) else t
  }

  /** The gene identifiers a report lists, as text; none when GeneID did not survive. */
  function GeneIds(t: Frame): (r: seq<string>)
    ensures GeneId !in t.columns ==> r == []
    ensures GeneId in t.columns ==> |r| == |t.rows| && forall i :: 0 <= i < |r| ==> r[i] == CellText(Column(t, GeneId)[i])
  {
    if GeneId in t.columns then seq(|t.rows|, i requires 0 <= i < |t.rows| => CellText(Column(t, GeneId)[i]))
    else []
  }

  /** What one GO term yields for one input file. */
  datatype TermReport = TermReport(
    go: string,          // the accession, stripped
    goSafe: string,      // the accession with ':' made '_'
    termSafe: string,    // the first term name, with '/' made '_'
    legend: Frame,       // the legend rows of the term
    table: Frame,        // the annotated, cleaned, reordered join
    geneIds: seq<string> // its GeneID column as text
  )

  /** The file the legend rows are written to, inside the file's output folder. */
  function LegendFileName(rep: TermReport): (r: string)
    ensures |r| >= |rep.goSafe| + 4 && r[..|rep.goSafe|] == rep.goSafe && r[|r| - 4..] == ".tab"
  {
    rep.goSafe + " " + rep.termSafe + ".tab"
  }

  /** The file the joined table is written to: the legend file's name behind the base name. */
  function ReportFileName(base: string, rep: TermReport): (r: string)
    ensures r == base + LegendFileName(rep)
  {
    base + rep.goSafe + " " + rep.termSafe + ".tab"
  }

  /** The grouped table's file name. */
  function GroupedFileName(base: string): (r: string)
    ensures |r| == |base| + 13 && r[..|base|] == base && r[|base|..] == "1_grouped.tab"
  {
    base + "1_grouped.tab"
  }

  /** What every report satisfies: it is for go, rests on at least one legend row, has
      none of the helper or stable ID columns, starts with GeneID when it has one, and
      its names are safe for file names. */
  ghost predicate ReportShape(rep: TermReport, go: string) {
    && rep.go == go
    && rep.legend.columns == [StableId, TermNameColumn, TermDefinition] && rep.legend.rows != []
    && rep.termSafe == TermSafe(CellText(Column(rep.legend, TermNameColumn)[0]))
    && rep.goSafe == GoSafe(go) && ':' !in rep.goSafe && '/' !in rep.termSafe
    && Locus !in rep.table.columns && Rest !in rep.table.columns && StableId !in rep.table.columns
    && (GeneId in rep.table.columns ==> rep.table.columns[0] == GeneId)
    && rep.geneIds == GeneIds(rep.table)
  }

  /** Whether no legend row carries the accession go. */
  predicate NoRowFor(legend: Frame, go: string)
    requires Accession in legend.columns
  {
    forall y :: y in legend.rows ==> At(y, IndexOf(legend.columns, Accession).value) != Some(go)
  }

  /** Whether some stable ID of the term has a dot, so that the split fills two columns. */
  predicate SomeDot(legend: Frame, go: string)
    requires Accession in legend.columns && StableId in legend.columns
  {
    exists y :: y in AccessionRows(legend, go) && '.' in CellText(At(y, IndexOf(legend.columns, StableId).value))
  }

  /** The split of the term's stable IDs fails exactly when loci are cut at the dot and
      no stable ID of the term has one. */
  lemma SplitFailsIff(verbatim: bool, legend: Frame, go: string)
    requires LegendReadable(legend)
    ensures WithLegendLocus(SelectLegend(legend, go).value, verbatim).Err? <==> !verbatim && !SomeDot(legend, go)
  {
    var ids := Column(SelectLegend(legend, go).value, StableId);
    LegendIds(legend, go);
    DotIff(ids, AccessionRows(legend, go), IndexOf(legend.columns, StableId).value);
  }

  /** The stable IDs of the term's legend subset are those of its accession rows. */
  lemma LegendIds(legend: Frame, go: string)
    requires LegendReadable(legend)
    ensures var ids := Column(SelectLegend(legend, go).value, StableId);
      var w := AccessionRows(legend, go);
      |ids| == |w| && forall i :: 0 <= i < |w| ==> ids[i] == At(w[i], IndexOf(legend.columns, StableId).value)
  {
    var w := AccessionRows(legend, go);
    var sub := Subframe(legend, w);
    var ids := Column(SelectLegend(legend, go).value, StableId);
    assert ids == Column(sub, StableId);
    forall i | 0 <= i < |w| ensures ids[i] == At(w[i], IndexOf(legend.columns, StableId).value) {
      ColumnAt(sub, StableId, i);
    }
  }

  /** Some row has a dot in its identifier exactly when some identifier splits. */
  lemma DotIff(ids: seq<Cell>, w: seq<Row>, k: nat)
    requires |ids| == |w| && forall i :: 0 <= i < |w| ==> ids[i] == At(w[i], k)
    ensures (exists y :: y in w && '.' in CellText(At(y, k))) <==> exists i :: 0 <= i < |ids| && RestKey(ids[i]).Some?
  {
    if exists y :: y in w && '.' in CellText(At(y, k)) {
      var y :| y in w && '.' in CellText(At(y, k));
      var i :| 0 <= i < |w| && w[i] == y;
      assert RestKey(ids[i]).Some?;
    }
    if exists i :: 0 <= i < |ids| && RestKey(ids[i]).Some? {
      var i :| 0 <= i < |ids| && RestKey(ids[i]).Some?;
      assert w[i] in w;
    }
  }

  /** A term is skipped exactly when the legend is readable and has no row for it. */
  lemma ExtractTermSkips(verbatim: bool, legend: Frame, expr: Frame, annotation: Frame, go: string)
    requires Locus in expr.columns
    ensures ExtractTerm(verbatim, legend, expr, annotation, go) == Ok(None) <==>
      LegendReadable(legend) && NoRowFor(legend, go)
  {
    if LegendReadable(legend) {
      SelectLegendEmpty(legend, go);
    }
  }

  /** A term ends the run exactly when the legend lacks a column the lookup reads, or
      the term has legend rows and either the split cannot fill two columns or the
      annotation table has no locus column. */
  lemma ExtractTermFails(verbatim: bool, legend: Frame, expr: Frame, annotation: Frame, go: string)
    requires Locus in expr.columns
    ensures ExtractTerm(verbatim, legend, expr, annotation, go).Err? <==>
      || !LegendReadable(legend)
      || (!NoRowFor(legend, go) && ((!verbatim && !SomeDot(legend, go)) || Locus !in annotation.columns))
  {
    if LegendReadable(legend) {
      SelectLegendEmpty(legend, go);
      SplitFailsIff(verbatim, legend, go);
    }
  }

  /** The body of the GO-term loop for one accession: None when the legend has no row
      for it, otherwise the report; a KeyError or a split that cannot fill two columns
      ends the run. expr is the input table with its locus column. */
  function ExtractTerm(verbatim: bool, legend: Frame, expr: Frame, annotation: Frame, go: string): (r: Result<Option<TermReport>, Fatal>)
    requires Locus in expr.columns
    ensures r.Err? ==> r.error.MissingColumn? || r.error == SplitArity
    ensures r.Ok? && r.value.Some? ==> ReportShape(r.value.value, go)
  {
    match SelectLegend(legend, go)
    case Err(e) => Err(e)
    case Ok(subset) =>
      if subset.rows == [] then Ok(None)
      else
        var name := TermSafe(CellText(Column(subset, TermNameColumn)[0]));
        match WithLegendLocus(subset, verbatim)
        case Err(e) => Err(e)
        case Ok(keyed) =>
          var joined := Merge(keyed, expr, Locus, Inner).value;
          match Merge(joined, annotation, Locus, Left)
          case Err(e) => Err(e)
          case Ok(annotated) =>
            var table := Reorder(Cleanup(annotated));
            Ok(Some(TermReport(go, GoSafe(go), name, subset, table, GeneIds(table))))
  }

  /** The cleanup and the reordering only keep rows of the join: each GeneID cell of the
      report is the GeneID cell of some row of the annotated join. */
  lemma CleanedFrom(a: Frame, i: nat)
    requires GeneId in Reorder(Cleanup(a)).columns && i < |Reorder(Cleanup(a)).rows|
    ensures GeneId in a.columns
    ensures exists x :: x in a.rows && Column(Reorder(Cleanup(a)), GeneId)[i] == At(x, IndexOf(a.columns, GeneId).value)
  {
    var c := Cleanup(a);
    assert Column(Reorder(c), GeneId) == Column(c, GeneId);
    CleanupKeepsCells(a, GeneId);
    if StableId in a.columns {
      var d := DedupBy(a, StableId);
      SubseqMembers(d.rows, a.rows);
      ColumnAt(d, GeneId, i);
      assert d.rows[i] in a.rows;
    } else {
      ColumnAt(a, GeneId, i);
      assert a.rows[i] in a.rows;
    }
  }

  /** Each row of the keyed legend rows has the locus of a legend row of the term. */
  lemma KeyedFromLegend(verbatim: bool, legend: Frame, go: string, l: Row)
    requires LegendReadable(legend) && WithLegendLocus(SelectLegend(legend, go).value, verbatim).Ok?
    requires l in WithLegendLocus(SelectLegend(legend, go).value, verbatim).value.rows
    ensures var keyed := WithLegendLocus(SelectLegend(legend, go).value, verbatim).value;
      exists y :: y in legend.rows && At(y, IndexOf(legend.columns, Accession).value) == Some(go) &&
        At(l, IndexOf(keyed.columns, Locus).value) == LocusKey(verbatim, At(y, IndexOf(legend.columns, StableId).value))
  {
    var subset := SelectLegend(legend, go).value;
    var keyed := WithLegendLocus(subset, verbatim).value;
    var w := AccessionRows(legend, go);
    var p :| 0 <= p < |keyed.rows| && keyed.rows[p] == l;
    ColumnAt(keyed, Locus, p);
    var sub := Subframe(legend, w);
    assert Column(subset, StableId) == Column(sub, StableId);
    ColumnAt(sub, StableId, p);
    assert w[p] in w;
  }

  /** A GeneID cell of the inner join is the GeneID cell of an input row whose locus is
      that of a keyed legend row. */
  lemma JoinedFromInput(keyed: Frame, expr: Frame, joined: Frame, j: Row)
    requires Locus in keyed.columns && Locus in expr.columns && GeneId in expr.columns && GeneId !in keyed.columns
    requires Merge(keyed, expr, Locus, Inner) == Ok(joined) && j in joined.rows
    ensures GeneId in joined.columns
    ensures exists l, x ::
      && l in keyed.rows && x in expr.rows
      && At(x, IndexOf(expr.columns, Locus).value) == At(l, IndexOf(keyed.columns, Locus).value)
      && At(j, IndexOf(joined.columns, GeneId).value) == At(x, IndexOf(expr.columns, GeneId).value)
  {
    var ke := IndexOf(expr.columns, Locus).value;
    JoinedGenePosition(keyed, expr);
    InnerMergeRow(keyed, expr, Locus, j);
    var l, x :| l in keyed.rows && x in expr.rows &&
      At(x, ke) == At(l, IndexOf(keyed.columns, Locus).value) && j == Combine(l, x, ke);
    JoinedGeneCell(keyed, expr, l, x);
  }

  /** Where GeneID lands in the inner join: after the keyed legend columns. */
  lemma JoinedGenePosition(keyed: Frame, expr: Frame)
    requires Locus in keyed.columns && Locus in expr.columns && GeneId in expr.columns && GeneId !in keyed.columns
    ensures IndexOf(expr.columns, GeneId).value != IndexOf(expr.columns, Locus).value
    ensures IndexOf(Merge(keyed, expr, Locus, Inner).value.columns, GeneId) ==
      Some(|keyed.columns| + RestIndex(IndexOf(expr.columns, GeneId).value, IndexOf(expr.columns, Locus).value))
  {
    GeneIdUnsuffixed();
    MergedRightIndex(keyed.columns, expr.columns, Locus, GeneId);
    assert Merge(keyed, expr, Locus, Inner).value.columns == MergedColumns(keyed.columns, expr.columns, Locus);
  }

  /** "GeneID" does not end in a merge suffix, so a suffixed name is never "GeneID". */
  lemma GeneIdUnsuffixed()
    ensures !EndsWith(GeneId, LeftSuffix) && !EndsWith(GeneId, RightSuffix)
  {
    assert GeneId[|GeneId| - 1] == 'D';
  }

  /** In a joined row the cell at GeneID's new place is the input row's GeneID cell. */
  lemma JoinedGeneCell(keyed: Frame, expr: Frame, l: Row, x: Row)
    requires Locus in expr.columns && GeneId in expr.columns && l in keyed.rows && x in expr.rows
    ensures var ke := IndexOf(expr.columns, Locus).value;
      var g := IndexOf(expr.columns, GeneId).value;
      g != ke ==> At(Combine(l, x, ke), |keyed.columns| + RestIndex(g, ke)) == At(x, g)
  {
    var ke := IndexOf(expr.columns, Locus).value;
    var g := IndexOf(expr.columns, GeneId).value;
    if g != ke {
      RowWidth(keyed, l);
      RowWidth(expr, x);
      RemoveAtCell(x, ke, g);
      CombineRight(l, x, ke, RestIndex(g, ke));
    }
  }

  /** A GeneID cell of the left join with the annotation is the GeneID cell of a row of
      the inner join, when GeneID keeps its name through that join. */
  lemma AnnotatedFromJoined(joined: Frame, annotation: Frame, a: Row)
    requires Locus in joined.columns && Locus in annotation.columns && GeneId in joined.columns
    requires GeneId in Merge(joined, annotation, Locus, Left).value.columns
    requires a in Merge(joined, annotation, Locus, Left).value.rows
    ensures var annotated := Merge(joined, annotation, Locus, Left).value;
      exists j :: j in joined.rows &&
        At(a, IndexOf(annotated.columns, GeneId).value) == At(j, IndexOf(joined.columns, GeneId).value)
  {
    GeneIdUnsuffixed();
    if GeneId in annotation.columns {
      MergedDropsShared(joined.columns, annotation.columns, Locus, GeneId);
    }
    MergedLeftIndex(joined.columns, annotation.columns, Locus, GeneId);
    LeftMergeRow(joined, annotation, Locus, a);
    var j :| j in joined.rows && |j| <= |a| && a[..|j|] == j;
    RowWidth(joined, j);
    var gj := IndexOf(joined.columns, GeneId).value;
    assert a[gj] == a[..|j|][gj];
  }

  /** The provenance of a GeneID cell of the cleaned report, stage by stage: the
      annotated join, the inner join, the input row, and the legend row of the term. */
  lemma GeneFromStages(verbatim: bool, legend: Frame, go: string, keyed: Frame, expr: Frame, joined: Frame,
                       annotation: Frame, annotated: Frame, i: nat)
    requires LegendReadable(legend) && WithLegendLocus(SelectLegend(legend, go).value, verbatim) == Ok(keyed)
    requires Locus in expr.columns && GeneId in expr.columns
    requires Merge(keyed, expr, Locus, Inner) == Ok(joined) && Merge(joined, annotation, Locus, Left) == Ok(annotated)
    requires GeneId in Reorder(Cleanup(annotated)).columns && i < |Reorder(Cleanup(annotated)).rows|
    ensures exists x, y ::
      && x in expr.rows && y in legend.rows
      && At(y, IndexOf(legend.columns, Accession).value) == Some(go)
      && At(x, IndexOf(expr.columns, Locus).value) == LocusKey(verbatim, At(y, IndexOf(legend.columns, StableId).value))
      && Column(Reorder(Cleanup(annotated)), GeneId)[i] == At(x, IndexOf(expr.columns, GeneId).value)
  {
    KeyedColumns(verbatim, SelectLegend(legend, go).value, keyed);
    JoinedGenePosition(keyed, expr);
    ReportFromJoined(joined, annotation, annotated, i);
    var j :| j in joined.rows && Column(Reorder(Cleanup(annotated)), GeneId)[i] == At(j, IndexOf(joined.columns, GeneId).value);
    JoinedFromLegend(verbatim, legend, go, keyed, expr, joined, j);
  }

  /** A GeneID cell of the report is the GeneID cell of a row of the inner join. */
  lemma ReportFromJoined(joined: Frame, annotation: Frame, annotated: Frame, i: nat)
    requires Locus in joined.columns && GeneId in joined.columns && Merge(joined, annotation, Locus, Left) == Ok(annotated)
    requires GeneId in Reorder(Cleanup(annotated)).columns && i < |Reorder(Cleanup(annotated)).rows|
    ensures exists j ::
      && j in joined.rows
      && Column(Reorder(Cleanup(annotated)), GeneId)[i] == At(j, IndexOf(joined.columns, GeneId).value)
  {
    CleanedFrom(annotated, i);
    var a :| a in annotated.rows && Column(Reorder(Cleanup(annotated)), GeneId)[i] == At(a, IndexOf(annotated.columns, GeneId).value);
    AnnotatedFromJoined(joined, annotation, a);
  }

  /** The keyed legend subset has a locus column and no GeneID column. */
  lemma KeyedColumns(verbatim: bool, subset: Frame, keyed: Frame)
    requires subset.columns == [StableId, TermNameColumn, TermDefinition]
    requires WithLegendLocus(subset, verbatim) == Ok(keyed)
    ensures Locus in keyed.columns && GeneId !in keyed.columns
  {
    assert GeneId in keyed.columns <==> GeneId in subset.columns || GeneId == Locus || (GeneId == Rest && !verbatim);
  }

  /** A GeneID cell of the inner join is that of an input row whose locus is the locus of
      a legend row of the term. */
  lemma JoinedFromLegend(verbatim: bool, legend: Frame, go: string, keyed: Frame, expr: Frame, joined: Frame, j: Row)
    requires LegendReadable(legend) && WithLegendLocus(SelectLegend(legend, go).value, verbatim) == Ok(keyed)
    requires Locus in expr.columns && GeneId in expr.columns
    requires Merge(keyed, expr, Locus, Inner) == Ok(joined) && j in joined.rows && GeneId in joined.columns
    ensures exists x, y ::
      && x in expr.rows && y in legend.rows
      && At(y, IndexOf(legend.columns, Accession).value) == Some(go)
      && At(x, IndexOf(expr.columns, Locus).value) == LocusKey(verbatim, At(y, IndexOf(legend.columns, StableId).value))
      && At(j, IndexOf(joined.columns, GeneId).value) == At(x, IndexOf(expr.columns, GeneId).value)
  {
    KeyedColumns(verbatim, SelectLegend(legend, go).value, keyed);
    JoinedFromInput(keyed, expr, joined, j);
    var l, x :| l in keyed.rows && x in expr.rows &&
      At(x, IndexOf(expr.columns, Locus).value) == At(l, IndexOf(keyed.columns, Locus).value) &&
      At(j, IndexOf(joined.columns, GeneId).value) == At(x, IndexOf(expr.columns, GeneId).value);
    KeyedFromLegend(verbatim, legend, go, l);
  }

  /** Every gene a report lists is the GeneID (as text) of an input row whose locus is
      the locus of a stable ID the legend gives for the term. */
  lemma ReportGenesSound(verbatim: bool, legend: Frame, expr: Frame, annotation: Frame, go: string, i: nat)
    requires Locus in expr.columns && GeneId in expr.columns && LegendReadable(legend)
    requires ExtractTerm(verbatim, legend, expr, annotation, go).Ok? && ExtractTerm(verbatim, legend, expr, annotation, go).value.Some?
    requires var rep := ExtractTerm(verbatim, legend, expr, annotation, go).value.value;
      GeneId in rep.table.columns && i < |rep.geneIds|
    ensures exists x, y ::
      && x in expr.rows && y in legend.rows
      && At(y, IndexOf(legend.columns, Accession).value) == Some(go)
      && At(x, IndexOf(expr.columns, Locus).value) == LocusKey(verbatim, At(y, IndexOf(legend.columns, StableId).value))
      && ExtractTerm(verbatim, legend, expr, annotation, go).value.value.geneIds[i] == CellText(At(x, IndexOf(expr.columns, GeneId).value))
  {
    var rep := ExtractTerm(verbatim, legend, expr, annotation, go).value.value;
    var keyed := WithLegendLocus(SelectLegend(legend, go).value, verbatim).value;
    var joined := Merge(keyed, expr, Locus, Inner).value;
    var annotated := Merge(joined, annotation, Locus, Left).value;
    assert rep.table == Reorder(Cleanup(annotated));
    GeneFromStages(verbatim, legend, go, keyed, expr, joined, annotation, annotated, i);
  }
}
