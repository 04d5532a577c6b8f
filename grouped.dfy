/** The grouped table of one input file: a 10,000-row frame that starts with a
    placeholder column "_pad" and gains one column of gene identifiers per GO term. */
module Grouped {
  import opened Text
  import opened Tables

  const Capacity := 10000
  const PadName := "_pad"

  /** A gene-identifier list made exactly Capacity long: padded with "" or cut. */
  function Fit(ids: seq<string>): (r: seq<string>)
    ensures |r| == Capacity
    ensures forall i :: 0 <= i < |r| ==> r[i] == if i < |ids| then ids[i] else ""
  {
    if |ids| < Capacity then ids + seq(Capacity - |ids|, _ => "") else ids[..Capacity]
  }

  /** The list keeps its first min(n, Capacity) identifiers, and an empty list becomes
      Capacity blanks. */
  lemma FitKeepsPrefix(ids: seq<string>)
    ensures |ids| <= Capacity ==> Fit(ids)[..|ids|] == ids
    ensures |ids| >= Capacity ==> Fit(ids) == ids[..Capacity]
    ensures Fit([]) == seq(Capacity, _ => "")
  {
  }

  /** The contents of a grouped table: its column names in order and each column's values. */
  datatype Sheet = Sheet(names: seq<string>, cols: map<string, seq<string>>)

  /** Column names are distinct, name the columns, and every column is Capacity long. */
  ghost predicate SheetValid(g: Sheet) {
    && Distinct(g.names)
    && (forall n :: n in g.cols <==> n in g.names)
    && (forall n :: n in g.cols ==> |g.cols[n]| == Capacity)
  }

  /** pd.DataFrame({"_pad": list(range(10000))}): one column holding the row numbers,
      written in decimal. */
  function Initial(): (g: Sheet)
    ensures SheetValid(g) && g.names == [PadName]
    ensures forall i :: 0 <= i < Capacity ==>
      var cell := g.cols[PadName][i];
      (forall k :: 0 <= k < |cell| ==> '0' <= cell[k] <= '9') && DigitsValue(cell) == i
  {
    Sheet([PadName], map[PadName := seq(Capacity, i requires 0 <= i < Capacity => Decimal(i))])
  }

  /** grouped_df[name] = col: a new name becomes the last column, an existing name has
      its column replaced where it stands. */
  function Put(g: Sheet, name: string, col: seq<string>): (r: Sheet)
    requires |col| == Capacity
    ensures SheetValid(g) ==> SheetValid(r)
    ensures name in r.cols && r.cols[name] == col
    ensures forall n :: n in g.cols && n != name ==> n in r.cols && r.cols[n] == g.cols[n]
    ensures SheetValid(g) && name in g.cols ==> r.names == g.names
    ensures SheetValid(g) && name !in g.cols ==> r.names == g.names + [name]
  {
    if name in g.names then Sheet(g.names, g.cols[name := col])
    else Sheet(g.names + [name], g.cols[name := col])
  }

  /** grouped_df.drop(columns=["_pad"]) when it is there. */
  function WithoutPad(g: Sheet): (r: Sheet)
    ensures SheetValid(g) ==> SheetValid(r)
    ensures PadName !in r.names && PadName !in r.cols
    ensures forall n :: n in r.cols <==> n in g.cols && n != PadName
    ensures forall n :: n in r.cols ==> r.cols[n] == g.cols[n]
    ensures IsSubseq(r.names, g.names)
  {
    var names := Filter(g.names, {PadName}, false);
    var r := Sheet(names, g.cols - {PadName});
    FilterKeepsDistinct(g.names, {PadName});
    r
  }

  /** Filtering keeps distinct names distinct. */
  lemma {:induction false} FilterKeepsDistinct(names: seq<string>, drop: set<string>)
    ensures Distinct(names) ==> Distinct(Filter(names, drop, false))
    decreases |names|
  {
    if names != [] && Distinct(names) {
      var init := names[..|names| - 1];
      var last := names[|names| - 1];
      assert names == init + [last];
      assert Distinct(init);
      FilterKeepsDistinct(init, drop);
      assert last !in init by {
        forall i | 0 <= i < |init| ensures init[i] != last {
          assert init[i] == names[i];
        }
      }
      var f := Filter(init, drop, false);
      assert last !in f;
      if last !in drop {
        assert Filter(names, drop, false) == f + [last];
      }
    }
  }

  /** The grouped table under construction, updated in place. */
  class GroupedTable {
    var names: seq<string>
    var cols: map<string, seq<string>>

    function Value(): Sheet
      reads this
    {
      Sheet(names, cols)
    }

    ghost predicate Valid()
      reads this
    {
      SheetValid(Value())
    }

    constructor ()
      ensures Valid() && Value() == Initial()
    {
      var g := Initial();
      names := g.names;
      cols := g.cols;
    }

    method Assign(name: string, col: seq<string>)
      requires Valid() && |col| == Capacity
      modifies this
      ensures Valid() && Value() == Put(old(Value()), name, col)
    {
      if name !in names {
        names := names + [name];
      }
      cols := cols[name := col];
    }

    method DropPad()
      requires Valid()
      modifies this
      ensures Valid() && Value() == WithoutPad(old(Value()))
    {
      if PadName in names {
        FilterKeepsDistinct(names, {PadName});
        names := Filter(names, {PadName}, false);
        cols := cols - {PadName};
      } else {
        assert Filter(names, {PadName}, false) == names by { FilterNothing(names, PadName); }
        assert cols - {PadName} == cols;
      }
    }
  }

  /** Filtering out a name that is absent changes nothing. */
  lemma {:induction false} FilterNothing(names: seq<string>, x: string)
    requires x !in names
    ensures Filter(names, {x}, false) == names
    decreases |names|
  {
    if names != [] {
      var init := names[..|names| - 1];
      assert names == init + [names[|names| - 1]];
      FilterNothing(init, x);
    }
  }
}
