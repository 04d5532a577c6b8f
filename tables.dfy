/** pandas DataFrames as the extractor uses them: an ordered list of column names and
    rows of cells, each cell a string or NaN. Cells are positional, so a row lines up
    with the column list; looking a column up by name finds its first occurrence. */
module Tables {
  import opened Wrappers

  type Cell = Option<string>
  type Row = seq<Cell>
  datatype Table = Table(columns: seq<string>, rows: seq<Row>)

  /** Every row has one cell per column, as in every DataFrame. */
  predicate Rectangular(t: Table) {
    forall i :: 0 <= i < |t.rows| ==> |t.rows[i]| == |t.columns|
  }

  type Frame = t: Table | Rectangular(t) witness Table([], [])

  /** astype(str) of a cell: a NaN becomes the text "nan". */
  function CellText(c: Cell): string {
    match c
    case None => "nan"
    case Some(s) => s
  }

  /** The cell at position k, NaN past the end of the row. */
  function At(row: Row, k: nat): Cell {
    if k < |row| then row[k] else None
  }

  /** a is a subsequence of b: a keeps some of b's elements, in b's order. */
  predicate IsSubseq<T(==)>(a: seq<T>, b: seq<T>)
    decreases |b|
  {
    if a == [] then true
    else if b == [] then false
    else (a[|a| - 1] == b[|b| - 1] && IsSubseq(a[..|a| - 1], b[..|b| - 1])) || IsSubseq(a, b[..|b| - 1])
  }

  /** Every element of a subsequence is an element of the whole. */
  lemma {:induction false} SubseqMembers<T>(a: seq<T>, b: seq<T>)
    requires IsSubseq(a, b)
    ensures forall x :: x in a ==> x in b
    decreases |b|
  {
    if a != [] {
      var b' := b[..|b| - 1];
      assert b == b' + [b[|b| - 1]];
      if a[|a| - 1] == b[|b| - 1] && IsSubseq(a[..|a| - 1], b') {
        SubseqMembers(a[..|a| - 1], b');
        assert a == a[..|a| - 1] + [a[|a| - 1]];
      } else {
        SubseqMembers(a, b');
      }
    }
  }

  /** The rows of a frame, kept in part, still make a frame with the same columns. */
  function Subframe(t: Frame, rows: seq<Row>): (r: Frame)
    requires IsSubseq(rows, t.rows)
    ensures r.columns == t.columns && r.rows == rows
  {
    SubseqMembers(rows, t.rows);
    var r := Table(t.columns, rows);
    assert Rectangular(r) by {
      forall i | 0 <= i < |rows| ensures |rows[i]| == |t.columns| {
        assert rows[i] in t.rows;
        var i' :| 0 <= i' < |t.rows| && t.rows[i'] == rows[i];
      }
    }
    r
  }

  /** The cell of column c in row p. */
  lemma ColumnAt(t: Frame, c: string, p: nat)
    requires c in t.columns && p < |t.rows|
    ensures Column(t, c)[p] == At(t.rows[p], IndexOf(t.columns, c).value)
  {
    assert t.rows[p] in t.rows;
  }

  /** No name occurs twice. */
  predicate Distinct(s: seq<string>) {
    forall i, j :: 0 <= i < j < |s| ==> s[i] != s[j]
  }

  /** The position of the first column called name (pandas label lookup). */
  function IndexOf(cols: seq<string>, name: string): (r: Option<nat>)
    ensures r.None? <==> name !in cols
    ensures r.Some? ==> r.value < |cols| && cols[r.value] == name && name !in cols[..r.value]
  {
    var r := IndexFrom(cols, name, 0);
    assert r.Some? ==> forall x :: x in cols[..r.value] ==> x != name;
    r
  }

  /** The first position at or after i holding name. */
  function IndexFrom(cols: seq<string>, name: string, i: nat): (r: Option<nat>)
    requires i <= |cols|
    ensures r.None? <==> forall j :: i <= j < |cols| ==> cols[j] != name
    ensures r.Some? ==> i <= r.value < |cols| && cols[r.value] == name && forall j :: i <= j < r.value ==> cols[j] != name
    decreases |cols| - i
  {
    if i == |cols| then None
    else if cols[i] == name then Some(i)
    else IndexFrom(cols, name, i + 1)
  }

  lemma IndexOfFirst(cols: seq<string>, name: string, k: nat)
    requires k < |cols| && cols[k] == name && name !in cols[..k]
    ensures IndexOf(cols, name) == Some(k)
  {
    assert cols[k] in cols;
  }

  /** df[name] for a column that is present. */
  function Column(t: Frame, name: string): (r: seq<Cell>)
    requires name in t.columns
    ensures |r| == |t.rows|
  {
    var k := IndexOf(t.columns, name).value;
    seq(|t.rows|, i requires 0 <= i < |t.rows| => t.rows[i][k])
  }

  /** df[name] = vals: overwrites the first column called name where there is one,
      and appends a new last column otherwise. */
  function SetColumn(t: Frame, name: string, vals: seq<Cell>): (r: Frame)
    requires |vals| == |t.rows|
    ensures r.columns == if name in t.columns then t.columns else t.columns + [name]
    ensures Column(r, name) == vals
    ensures forall c :: c in t.columns && c != name ==> Column(r, c) == Column(t, c)
  {
    match IndexOf(t.columns, name)
    case Some(k) =>
      var r := Table(t.columns, seq(|t.rows|, i requires 0 <= i < |t.rows| => t.rows[i][k := vals[i]]));
      assert Rectangular(r);
      r
    case None =>
      var r := Table(t.columns + [name], seq(|t.rows|, i requires 0 <= i < |t.rows| => t.rows[i] + [vals[i]]));
      assert Rectangular(r);
      IndexOfFirst(r.columns, name, |t.columns|);
      assert forall c :: c in t.columns ==> IndexOf(r.columns, c) == IndexOf(t.columns, c) by {
        forall c | c in t.columns ensures IndexOf(r.columns, c) == IndexOf(t.columns, c) {
          var k := IndexOf(t.columns, c).value;
          assert r.columns[..k] == t.columns[..k];
          IndexOfFirst(r.columns, c, k);
        }
      }
      r
  }

  /** The columns of cols whose membership in names is member, in their order. */
  function Filter(cols: seq<string>, names: set<string>, member: bool): (r: seq<string>)
    ensures forall c :: c in r <==> c in cols && (c in names) == member
    ensures IsSubseq(r, cols)
    decreases |cols|
  {
    if cols == [] then []
    else
      var init := cols[..|cols| - 1];
      var last := cols[|cols| - 1];
      assert cols == init + [last];
      var r := Filter(init, names, member);
      if (last in names) == member then
        assert (r + [last])[..|r|] == r;
        r + [last]
      else r
  }

  /** The positions of the columns whose membership in names is member, increasing. */
  function Positions(cols: seq<string>, names: set<string>, member: bool): (p: seq<nat>)
    ensures forall j :: 0 <= j < |p| ==> p[j] < |cols| && (cols[p[j]] in names) == member
    ensures forall j, j' :: 0 <= j < j' < |p| ==> p[j] < p[j']
    ensures forall k :: 0 <= k < |cols| && (cols[k] in names) == member ==> k in p
    decreases |cols|
  {
    if cols == [] then []
    else
      var init := cols[..|cols| - 1];
      var p := Positions(init, names, member);
      assert forall k :: 0 <= k < |init| ==> cols[k] == init[k];
      if (cols[|cols| - 1] in names) == member then p + [|cols| - 1] else p
  }

  /** The columns at the positions Positions picks are those Filter keeps. */
  lemma {:induction false} PositionsPick(cols: seq<string>, names: set<string>, member: bool)
    ensures |Positions(cols, names, member)| == |Filter(cols, names, member)|
    ensures forall j :: 0 <= j < |Filter(cols, names, member)| ==>
      cols[Positions(cols, names, member)[j]] == Filter(cols, names, member)[j]
    decreases |cols|
  {
    if cols != [] {
      var init := cols[..|cols| - 1];
      var last := cols[|cols| - 1];
      PositionsPick(init, names, member);
      var p, f := Positions(init, names, member), Filter(init, names, member);
      var pp, ff := Positions(cols, names, member), Filter(cols, names, member);
      if (last in names) == member {
        assert pp == p + [|cols| - 1] && ff == f + [last];
      } else {
        assert pp == p && ff == f;
      }
      forall j | 0 <= j < |ff| ensures cols[pp[j]] == ff[j] {
        if j < |f| {
          assert pp[j] == p[j] && ff[j] == f[j];
          assert cols[p[j]] == init[p[j]];
        }
      }
    }
  }

  /** The frame made of the columns at positions idx, in that order (df[[...]]). */
  function Project(t: Frame, idx: seq<nat>): (r: Frame)
    requires forall j :: 0 <= j < |idx| ==> idx[j] < |t.columns|
    ensures |r.columns| == |idx| && |r.rows| == |t.rows|
    ensures forall j :: 0 <= j < |idx| ==> r.columns[j] == t.columns[idx[j]]
  {
    var r := Table(seq(|idx|, j requires 0 <= j < |idx| => t.columns[idx[j]]),
                   seq(|t.rows|, i requires 0 <= i < |t.rows| =>
                         seq(|idx|, j requires 0 <= j < |idx| => t.rows[i][idx[j]])));
    assert Rectangular(r);
    r
  }

  /** A projection keeps the cells of column c when the first c it shows is the first c of t. */
  lemma ProjectKeepsColumn(t: Frame, idx: seq<nat>, c: string, j: nat)
    requires forall j :: 0 <= j < |idx| ==> idx[j] < |t.columns|
    requires j < |idx| && t.columns[idx[j]] == c && IndexOf(t.columns, c) == Some(idx[j])
    requires forall j' :: 0 <= j' < j ==> t.columns[idx[j']] != c
    ensures c in Project(t, idx).columns && Column(Project(t, idx), c) == Column(t, c)
  {
    var r := Project(t, idx);
    assert c !in r.columns[..j];
    IndexOfFirst(r.columns, c, j);
  }

  /** With positions taken in increasing order and every occurrence of c among them,
      the first c shown is the first c of t. */
  lemma IncreasingKeepsColumn(t: Frame, idx: seq<nat>, c: string)
    requires forall j :: 0 <= j < |idx| ==> idx[j] < |t.columns|
    requires forall j, j' :: 0 <= j < j' < |idx| ==> idx[j] < idx[j']
    requires forall k :: 0 <= k < |t.columns| && t.columns[k] == c ==> k in idx
    requires c in t.columns
    ensures c in Project(t, idx).columns && Column(Project(t, idx), c) == Column(t, c)
  {
    var k := IndexOf(t.columns, c).value;
    var j :| 0 <= j < |idx| && idx[j] == k;
    forall j' | 0 <= j' < j ensures t.columns[idx[j']] != c {
      assert idx[j'] < k;
      assert t.columns[..k][idx[j']] == t.columns[idx[j']];
    }
    ProjectKeepsColumn(t, idx, c, j);
  }

  /** df.drop(columns=names, errors="ignore"): the other columns stay, in their order,
      each with its cells. */
  function DropColumns(t: Frame, names: set<string>): (r: Frame)
    ensures r.columns == Filter(t.columns, names, false)
    ensures forall c :: c in r.columns <==> c in t.columns && c !in names
    ensures IsSubseq(r.columns, t.columns)
    ensures |r.rows| == |t.rows|
    ensures forall c :: c in r.columns ==> Column(r, c) == Column(t, c)
  {
    var p := Positions(t.columns, names, false);
    var r := Project(t, p);
    PositionsPick(t.columns, names, false);
    assert r.columns == Filter(t.columns, names, false);
    forall c | c in r.columns ensures Column(r, c) == Column(t, c) {
      IncreasingKeepsColumn(t, p, c);
    }
    r
  }

  /** The positions MoveToFront shows: those of name, then those of the other columns. */
  function FrontOrder(cols: seq<string>, name: string): (p: seq<nat>)
    ensures forall j :: 0 <= j < |p| ==> p[j] < |cols|
  {
    Positions(cols, {name}, true) + Positions(cols, {name}, false)
  }

  lemma FrontOrderColumns(cols: seq<string>, name: string)
    ensures var p := FrontOrder(cols, name);
      seq(|p|, j requires 0 <= j < |p| => cols[p[j]]) == Filter(cols, {name}, true) + Filter(cols, {name}, false)
  {
    var p := FrontOrder(cols, name);
    var front := Positions(cols, {name}, true);
    var f, g := Filter(cols, {name}, true), Filter(cols, {name}, false);
    var shown := seq(|p|, j requires 0 <= j < |p| => cols[p[j]]);
    PositionsPick(cols, {name}, true);
    PositionsPick(cols, {name}, false);
    forall j | 0 <= j < |shown| ensures shown[j] == (f + g)[j] {
      if j >= |front| {
        assert p[j] == Positions(cols, {name}, false)[j - |front|];
      }
    }
    assert shown == f + g;
  }

  /** Moving name to the front keeps every column's cells. */
  lemma FrontOrderKeepsColumn(t: Frame, name: string, c: string)
    requires c in t.columns
    ensures c in Project(t, FrontOrder(t.columns, name)).columns
    ensures Column(Project(t, FrontOrder(t.columns, name)), c) == Column(t, c)
  {
    if c == name {
      FrontKeepsName(t, name);
    } else {
      FrontKeepsOther(t, name, c);
    }
  }

  /** The first column shown is the first column called name. */
  lemma FrontKeepsName(t: Frame, name: string)
    requires name in t.columns
    ensures name in Project(t, FrontOrder(t.columns, name)).columns
    ensures Column(Project(t, FrontOrder(t.columns, name)), name) == Column(t, name)
  {
    var front := Positions(t.columns, {name}, true);
    var k := IndexOf(t.columns, name).value;
    assert k in front;
    var j :| 0 <= j < |front| && front[j] == k;
    assert front[0] <= k;
    ProjectKeepsColumn(t, FrontOrder(t.columns, name), name, 0);
  }

  /** Another column is shown after all columns called name, first where it was first. */
  lemma FrontKeepsOther(t: Frame, name: string, c: string)
    requires c in t.columns && c != name
    ensures c in Project(t, FrontOrder(t.columns, name)).columns
    ensures Column(Project(t, FrontOrder(t.columns, name)), c) == Column(t, c)
  {
    var front := Positions(t.columns, {name}, true);
    var back := Positions(t.columns, {name}, false);
    var p := FrontOrder(t.columns, name);
    var k := IndexOf(t.columns, c).value;
    assert k in back;
    var j :| 0 <= j < |back| && back[j] == k;
    forall j' | 0 <= j' < |front| + j ensures t.columns[p[j']] != c {
      if j' >= |front| {
        assert p[j'] == back[j' - |front|] < k;
        assert t.columns[..k][p[j']] == t.columns[p[j']];
      }
    }
    ProjectKeepsColumn(t, p, c, |front| + j);
  }

  /** df[[name] + [c for c in df.columns if c != name]]: the columns called name first,
      then the others in their order, each with its cells. */
  function MoveToFront(t: Frame, name: string): (r: Frame)
    ensures r.columns == Filter(t.columns, {name}, true) + Filter(t.columns, {name}, false)
    ensures name in t.columns ==> r.columns[0] == name
    ensures multiset(r.columns) == multiset(t.columns)
    ensures |r.rows| == |t.rows|
    ensures forall c :: c in r.columns <==> c in t.columns
    ensures forall c :: c in r.columns ==> Column(r, c) == Column(t, c)
  {
    var r := Project(t, FrontOrder(t.columns, name));
    FrontOrderColumns(t.columns, name);
    assert r.columns == Filter(t.columns, {name}, true) + Filter(t.columns, {name}, false);
    FilterSplits(t.columns, name);
    forall c | c in r.columns ensures Column(r, c) == Column(t, c) {
      assert c in multiset(r.columns);
      FrontOrderKeepsColumn(t, name, c);
    }
    r
  }

  /** Splitting by membership in {name} loses and invents no column. */
  lemma FilterSplits(cols: seq<string>, name: string)
    ensures multiset(Filter(cols, {name}, true) + Filter(cols, {name}, false)) == multiset(cols)
    ensures forall c :: c in Filter(cols, {name}, true) ==> c == name
    decreases |cols|
  {
    if cols != [] {
      var init := cols[..|cols| - 1];
      assert cols == init + [cols[|cols| - 1]];
      FilterSplits(init, name);
    }
  }

  /** The rows whose cell at k equals v, in their order (df.loc[df[col].isin([v])]). */
  function Where(rows: seq<Row>, k: nat, v: Cell): (r: seq<Row>)
    ensures forall x :: x in r <==> x in rows && At(x, k) == v
    ensures forall x :: multiset(r)[x] == if At(x, k) == v then multiset(rows)[x] else 0
    ensures IsSubseq(r, rows)
    decreases |rows|
  {
    if rows == [] then []
    else
      var init := rows[..|rows| - 1];
      var last := rows[|rows| - 1];
      assert rows == init + [last];
      var r := Where(init, k, v);
      if At(last, k) == v then
        assert (r + [last])[..|r|] == r;
        r + [last]
      else r
  }
}
