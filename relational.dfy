/** The relational steps of the per-term pipeline: pandas merge (inner and left) on one
    key column, and drop_duplicates keeping the first row of each key. Merges are written
    as comprehensions: for each left row in order, each matching right row in order. */
module Relational {
  import opened Wrappers
  import opened Tables

  datatype How = Inner | Left

  const LeftSuffix := "_x"
  const RightSuffix := "_y"

  /** The row without its cell at k. */
  function RemoveAt(row: Row, k: nat): (r: Row)
    ensures k < |row| ==> |r| == |row| - 1
  {
    if k < |row| then row[..k] + row[k + 1..] else row
  }

  /** A merged row: the left row, then the right row without its key cell. */
  function Combine(l: Row, r: Row, rk: nat): Row {
    l + RemoveAt(r, rk)
  }

  /** The cells after the left row are the right row's without its key cell. */
  lemma CombineRight(l: Row, r: Row, rk: nat, q: nat)
    requires q < |RemoveAt(r, rk)|
    ensures |l| + q < |Combine(l, r, rk)| && Combine(l, r, rk)[|l| + q] == RemoveAt(r, rk)[q]
  {
  }

  /** The NaN cells a left merge puts where no right row matched. */
  function Nulls(n: nat): (r: Row)
    ensures |r| == n && forall i :: 0 <= i < n ==> r[i] == None
  {
    seq(n, _ => None)
  }

  /** Whether some right row has the same key as l. */
  predicate HasMatch(l: Row, lk: nat, rrows: seq<Row>, rk: nat) {
    exists r :: r in rrows && At(r, rk) == At(l, lk)
  }

  /** l merged with each right row of equal key, in right order. */
  function Matches(l: Row, lk: nat, rrows: seq<Row>, rk: nat): (m: seq<Row>)
    ensures forall o :: o in m <==> exists r :: r in rrows && At(r, rk) == At(l, lk) && o == Combine(l, r, rk)
    ensures m == [] <==> !HasMatch(l, lk, rrows, rk)
    decreases |rrows|
  {
    if rrows == [] then []
    else
      var rest := Matches(l, lk, rrows[1..], rk);
      assert forall r :: r in rrows <==> r == rrows[0] || r in rrows[1..];
      if At(rrows[0], rk) == At(l, lk) then [Combine(l, rrows[0], rk)] + rest else rest
  }

  /** The rows of pd.merge(left, right, how="inner"). */
  function InnerRows(lrows: seq<Row>, lk: nat, rrows: seq<Row>, rk: nat): seq<Row>
    decreases |lrows|
  {
    if lrows == [] then [] else Matches(lrows[0], lk, rrows, rk) + InnerRows(lrows[1..], lk, rrows, rk)
  }

  /** An inner merge holds exactly the combinations of a left and a right row with equal keys. */
  lemma {:induction false} InnerRowsMembers(lrows: seq<Row>, lk: nat, rrows: seq<Row>, rk: nat)
    ensures forall o :: o in InnerRows(lrows, lk, rrows, rk) <==>
      exists l, r :: l in lrows && r in rrows && At(r, rk) == At(l, lk) && o == Combine(l, r, rk)
    decreases |lrows|
  {
    if lrows != [] {
      InnerRowsMembers(lrows[1..], lk, rrows, rk);
      assert forall l :: l in lrows <==> l == lrows[0] || l in lrows[1..];
    }
  }

  /** What one left row contributes to a left merge: its matches, or itself with NaN
      in every right column when nothing matches. */
  function LeftMatches(l: Row, lk: nat, rrows: seq<Row>, rk: nat, width: nat): (m: seq<Row>)
    ensures |m| >= 1
    ensures !HasMatch(l, lk, rrows, rk) ==> m == [l + Nulls(width)]
    ensures HasMatch(l, lk, rrows, rk) ==> m == Matches(l, lk, rrows, rk)
  {
    var ms := Matches(l, lk, rrows, rk);
    if ms == [] then [l + Nulls(width)] else ms
  }

  /** The rows of pd.merge(left, right, how="left"). */
  function LeftRows(lrows: seq<Row>, lk: nat, rrows: seq<Row>, rk: nat, width: nat): (m: seq<Row>)
    ensures |m| >= |lrows|
    decreases |lrows|
  {
    if lrows == [] then []
    else LeftMatches(lrows[0], lk, rrows, rk, width) + LeftRows(lrows[1..], lk, rrows, rk, width)
  }

  /** A left merge holds the combinations of matching rows, and each left row without a
      match padded with NaN, and nothing else. */
  lemma {:induction false} LeftRowsMembers(lrows: seq<Row>, lk: nat, rrows: seq<Row>, rk: nat, width: nat)
    ensures forall o :: o in LeftRows(lrows, lk, rrows, rk, width) <==>
      || (exists l, r :: l in lrows && r in rrows && At(r, rk) == At(l, lk) && o == Combine(l, r, rk))
      || (exists l :: l in lrows && !HasMatch(l, lk, rrows, rk) && o == l + Nulls(width))
    decreases |lrows|
  {
    if lrows != [] {
      LeftRowsMembers(lrows[1..], lk, rrows, rk, width);
      assert forall l :: l in lrows <==> l == lrows[0] || l in lrows[1..];
    }
  }

  /** Merging a concatenation of left rows concatenates the results: the merge keeps
      the order of the left rows. */
  lemma MergeKeepsLeftOrder(a: seq<Row>, b: seq<Row>, lk: nat, rrows: seq<Row>, rk: nat, width: nat)
    ensures InnerRows(a + b, lk, rrows, rk) == InnerRows(a, lk, rrows, rk) + InnerRows(b, lk, rrows, rk)
    ensures LeftRows(a + b, lk, rrows, rk, width) == LeftRows(a, lk, rrows, rk, width) + LeftRows(b, lk, rrows, rk, width)
  {
    InnerKeepsLeftOrder(a, b, lk, rrows, rk);
    LeftKeepsLeftOrder(a, b, lk, rrows, rk, width);
  }

  lemma {:induction false} InnerKeepsLeftOrder(a: seq<Row>, b: seq<Row>, lk: nat, rrows: seq<Row>, rk: nat)
    ensures InnerRows(a + b, lk, rrows, rk) == InnerRows(a, lk, rrows, rk) + InnerRows(b, lk, rrows, rk)
    decreases |a|
  {
    if a == [] {
      assert a + b == b;
    } else {
      assert (a + b)[1..] == a[1..] + b;
      InnerKeepsLeftOrder(a[1..], b, lk, rrows, rk);
      var m := Matches(a[0], lk, rrows, rk);
      assert InnerRows(a + b, lk, rrows, rk) == m + InnerRows(a[1..] + b, lk, rrows, rk);
      assert InnerRows(a, lk, rrows, rk) == m + InnerRows(a[1..], lk, rrows, rk);
    }
  }

  lemma {:induction false} LeftKeepsLeftOrder(a: seq<Row>, b: seq<Row>, lk: nat, rrows: seq<Row>, rk: nat, width: nat)
    ensures LeftRows(a + b, lk, rrows, rk, width) == LeftRows(a, lk, rrows, rk, width) + LeftRows(b, lk, rrows, rk, width)
    decreases |a|
  {
    if a == [] {
      assert a + b == b;
    } else {
      assert (a + b)[1..] == a[1..] + b;
      LeftKeepsLeftOrder(a[1..], b, lk, rrows, rk, width);
      LeftRowsCons(a + b, lk, rrows, rk, width);
      LeftRowsCons(a, lk, rrows, rk, width);
      assert (a + b)[0] == a[0];
      AppendAssoc(LeftMatches(a[0], lk, rrows, rk, width), LeftRows(a[1..], lk, rrows, rk, width), LeftRows(b, lk, rrows, rk, width));
    }
  }

  lemma AppendAssoc(x: seq<Row>, y: seq<Row>, z: seq<Row>)
    ensures x + (y + z) == (x + y) + z
  {
  }

  /** The first left row contributes its rows before the rest. */
  lemma LeftRowsCons(ls: seq<Row>, lk: nat, rrows: seq<Row>, rk: nat, width: nat)
    requires ls != []
    ensures LeftRows(ls, lk, rrows, rk, width) == LeftMatches(ls[0], lk, rrows, rk, width) + LeftRows(ls[1..], lk, rrows, rk, width)
  {
  }

  /** A left row with no partner contributes nothing to an inner merge and exactly one
      row to a left merge. */
  lemma {:induction false} UnmatchedRow(l: Row, lk: nat, rrows: seq<Row>, rk: nat, width: nat)
    requires !HasMatch(l, lk, rrows, rk)
    ensures InnerRows([l], lk, rrows, rk) == []
    ensures LeftRows([l], lk, rrows, rk, width) == [l + Nulls(width)]
  {
    assert [l][1..] == [];
  }

  /** Column names after a merge: the overlapping non-key names get _x on the left and
      _y on the right; the right key column is left out. */
  function Suffixed(cols: seq<string>, overlap: set<string>, suffix: string): (r: seq<string>)
    ensures |r| == |cols|
  {
    seq(|cols|, i requires 0 <= i < |cols| => if cols[i] in overlap then cols[i] + suffix else cols[i])
  }

  /** The right names without the key column. */
  function RightRest(rcols: seq<string>, key: string): (r: seq<string>)
    requires key in rcols
    ensures |r| == |rcols| - 1
  {
    var rk := IndexOf(rcols, key).value;
    rcols[..rk] + rcols[rk + 1..]
  }

  /** The non-key names found on both sides of a merge. */
  function Overlap(lcols: seq<string>, rcols: seq<string>, key: string): set<string>
    requires key in rcols
  {
    set c | c in lcols && c in RightRest(rcols, key) && c != key
  }

  function MergedColumns(lcols: seq<string>, rcols: seq<string>, key: string): (r: seq<string>)
    requires key in rcols
    ensures |r| == |lcols| + |rcols| - 1
    ensures key in lcols ==> key in r
  {
    var rk := IndexOf(rcols, key).value;
    var rest := RightRest(rcols, key);
    var overlap := Overlap(lcols, rcols, key);
    SuffixedKeeps(lcols, overlap, LeftSuffix, key);
    Suffixed(lcols, overlap, LeftSuffix) + Suffixed(rest, overlap, RightSuffix)
  }

  /** Looking a name up in a concatenation. */
  lemma IndexOfAppend(a: seq<string>, b: seq<string>, c: string)
    ensures c in a ==> IndexOf(a + b, c) == IndexOf(a, c)
    ensures c !in a && c in b ==> IndexOf(a + b, c) == Some(|a| + IndexOf(b, c).value)
  {
    if c in a {
      IndexOfInFront(a, b, c);
    } else if c in b {
      IndexOfBehind(a, b, c);
    }
  }

  lemma IndexOfInFront(a: seq<string>, b: seq<string>, c: string)
    requires c in a
    ensures IndexOf(a + b, c) == IndexOf(a, c)
  {
    var k := IndexOf(a, c).value;
    assert (a + b)[..k] == a[..k];
    IndexOfFirst(a + b, c, k);
  }

  lemma IndexOfBehind(a: seq<string>, b: seq<string>, c: string)
    requires c !in a && c in b
    ensures IndexOf(a + b, c) == Some(|a| + IndexOf(b, c).value)
  {
    var k := IndexOf(b, c).value;
    NotBefore(a, b, c, k);
    IndexOfFirst(a + b, c, |a| + k);
  }

  lemma NotBefore(a: seq<string>, b: seq<string>, c: string, k: nat)
    requires c !in a && k < |b| && c !in b[..k]
    ensures |a| + k < |a + b| && c !in (a + b)[..|a| + k] && (a + b)[|a| + k] == b[k]
  {
    assert (a + b)[..|a| + k] == a + b[..k];
  }

  /** A name outside the overlap keeps its spelling. */
  lemma SuffixedKeeps(cols: seq<string>, overlap: set<string>, suffix: string, c: string)
    ensures c in cols && c !in overlap ==> c in Suffixed(cols, overlap, suffix)
  {
    if c in cols && c !in overlap {
      var i :| 0 <= i < |cols| && cols[i] == c;
      assert Suffixed(cols, overlap, suffix)[i] == c;
    }
  }

  predicate EndsWith(s: string, suffix: string) {
    |suffix| <= |s| && s[|s| - |suffix|..] == suffix
  }

  /** Each merged name is the original one or ends in the suffix. */
  lemma SuffixedShape(cols: seq<string>, overlap: set<string>, suffix: string, i: nat)
    requires i < |cols|
    ensures Suffixed(cols, overlap, suffix)[i] == cols[i] || EndsWith(Suffixed(cols, overlap, suffix)[i], suffix)
  {
    var s := cols[i] + suffix;
    assert s[|s| - |suffix|..] == suffix;
  }

  /** A name outside the overlap that does not end in the suffix is found where it was. */
  lemma SuffixedFirst(cols: seq<string>, overlap: set<string>, suffix: string, c: string)
    requires c in cols && c !in overlap && !EndsWith(c, suffix)
    ensures IndexOf(Suffixed(cols, overlap, suffix), c) == IndexOf(cols, c)
  {
    var k := IndexOf(cols, c).value;
    var s := Suffixed(cols, overlap, suffix);
    forall i | 0 <= i < k ensures s[i] != c {
      SuffixedShape(cols, overlap, suffix, i);
      assert cols[i] == cols[..k][i];
    }
    assert c !in s[..k];
    IndexOfFirst(s, c, k);
  }

  /** A name in the overlap, or absent, that does not end in the suffix is not shown. */
  lemma SuffixedAbsent(cols: seq<string>, overlap: set<string>, suffix: string, c: string)
    requires (c !in cols || c in overlap) && !EndsWith(c, suffix)
    ensures c !in Suffixed(cols, overlap, suffix)
  {
    forall i | 0 <= i < |cols| ensures Suffixed(cols, overlap, suffix)[i] != c {
      SuffixedShape(cols, overlap, suffix, i);
    }
  }

  /** Where a right column other than the key lands among the right names after the key
      column is left out. */
  function RestIndex(g: nat, rk: nat): nat
    requires g != rk
  {
    if g < rk then g else g - 1
  }

  /** Leaving out the key cell moves the cell at g to RestIndex(g, rk). */
  lemma RemoveAtCell(r: Row, rk: nat, g: nat)
    requires rk < |r| && g < |r| && g != rk
    ensures RestIndex(g, rk) < |RemoveAt(r, rk)| && RemoveAt(r, rk)[RestIndex(g, rk)] == r[g]
  {
  }

  /** The position of a left column in the merge is its position on the left, when it is
      the key or has no namesake on the right. */
  lemma MergedLeftIndex(lcols: seq<string>, rcols: seq<string>, key: string, c: string)
    requires key in rcols && c in lcols && !EndsWith(c, LeftSuffix) && (c == key || c !in rcols)
    ensures IndexOf(MergedColumns(lcols, rcols, key), c) == IndexOf(lcols, c)
  {
    var rk := IndexOf(rcols, key).value;
    var rest := RightRest(rcols, key);
    var overlap := Overlap(lcols, rcols, key);
    assert c !in overlap by {
      if c != key {
        assert forall x :: x in rest ==> x in rcols;
      }
    }
    SuffixedFirst(lcols, overlap, LeftSuffix, c);
    SuffixedKeeps(lcols, overlap, LeftSuffix, c);
    IndexOfAppend(Suffixed(lcols, overlap, LeftSuffix), Suffixed(rest, overlap, RightSuffix), c);
  }

  /** A non-key name on both sides is suffixed on both, so it no longer appears. */
  lemma MergedDropsShared(lcols: seq<string>, rcols: seq<string>, key: string, c: string)
    requires key in rcols && c in lcols && c in rcols && c != key
    requires !EndsWith(c, LeftSuffix) && !EndsWith(c, RightSuffix)
    ensures c !in MergedColumns(lcols, rcols, key)
  {
    var rk := IndexOf(rcols, key).value;
    var rest := RightRest(rcols, key);
    var overlap := Overlap(lcols, rcols, key);
    var g :| 0 <= g < |rcols| && rcols[g] == c;
    assert g != rk;
    if g < rk { assert rest[g] == c; } else { assert rest[g - 1] == c; }
    assert c in overlap;
    SuffixedAbsent(lcols, overlap, LeftSuffix, c);
    SuffixedAbsent(rest, overlap, RightSuffix, c);
  }

  /** Where a right name other than the key is found once the key is left out. */
  lemma RestIndexOf(rcols: seq<string>, rk: nat, c: string)
    requires rk < |rcols| && c in rcols && rcols[rk] != c
    ensures IndexOf(rcols, c).value != rk
    ensures IndexOf(rcols[..rk] + rcols[rk + 1..], c) == Some(RestIndex(IndexOf(rcols, c).value, rk))
  {
    var g := IndexOf(rcols, c).value;
    if g < rk {
      assert rcols[..rk][..g] == rcols[..g];
      IndexOfFirst(rcols[..rk], c, g);
      IndexOfInFront(rcols[..rk], rcols[rk + 1..], c);
    } else {
      assert c !in rcols[..rk] by {
        assert rcols[..rk] == rcols[..g][..rk];
      }
      var tail := rcols[rk + 1..];
      assert tail[..g - rk - 1] == rcols[rk + 1..g];
      assert c !in tail[..g - rk - 1] by {
        assert forall x :: x in rcols[rk + 1..g] ==> x in rcols[..g];
      }
      IndexOfFirst(tail, c, g - rk - 1);
      IndexOfBehind(rcols[..rk], tail, c);
    }
  }

  /** The position of a right column with no namesake on the left: after all the left
      columns, at its place among the right columns without the key. */
  lemma MergedRightIndex(lcols: seq<string>, rcols: seq<string>, key: string, c: string)
    requires key in rcols && c in rcols && c != key && c !in lcols
    requires !EndsWith(c, LeftSuffix) && !EndsWith(c, RightSuffix)
    ensures IndexOf(rcols, c).value != IndexOf(rcols, key).value
    ensures IndexOf(MergedColumns(lcols, rcols, key), c) ==
      Some(|lcols| + RestIndex(IndexOf(rcols, c).value, IndexOf(rcols, key).value))
  {
    var rk := IndexOf(rcols, key).value;
    var overlap := Overlap(lcols, rcols, key);
    var front := Suffixed(lcols, overlap, LeftSuffix);
    var back := Suffixed(RightRest(rcols, key), overlap, RightSuffix);
    BackIndex(lcols, rcols, key, c);
    SuffixedAbsent(lcols, overlap, LeftSuffix, c);
    IndexOfBehind(front, back, c);
  }

  /** The right part of the merged names finds c where the right names without the key do. */
  lemma BackIndex(lcols: seq<string>, rcols: seq<string>, key: string, c: string)
    requires key in rcols && c in rcols && c != key && c !in lcols && !EndsWith(c, RightSuffix)
    ensures IndexOf(rcols, c).value != IndexOf(rcols, key).value
    ensures IndexOf(Suffixed(RightRest(rcols, key), Overlap(lcols, rcols, key), RightSuffix), c) ==
      Some(RestIndex(IndexOf(rcols, c).value, IndexOf(rcols, key).value))
  {
    var rk := IndexOf(rcols, key).value;
    var rest := RightRest(rcols, key);
    RestIndexOf(rcols, rk, c);
    SuffixedFirst(rest, Overlap(lcols, rcols, key), RightSuffix, c);
  }

  /** Every row of an inner merge joins a left row with a right row of the same key. */
  lemma InnerMergeRow(left: Frame, right: Frame, key: string, o: Row)
    requires Merge(left, right, key, Inner).Ok? && o in Merge(left, right, key, Inner).value.rows
    ensures exists l, r ::
      && l in left.rows && r in right.rows
      && At(r, IndexOf(right.columns, key).value) == At(l, IndexOf(left.columns, key).value)
      && o == Combine(l, r, IndexOf(right.columns, key).value)
  {
    InnerRowsMembers(left.rows, IndexOf(left.columns, key).value, right.rows, IndexOf(right.columns, key).value);
  }

  /** Every row of a left merge starts with a left row. */
  lemma LeftMergeRow(left: Frame, right: Frame, key: string, o: Row)
    requires Merge(left, right, key, Left).Ok? && o in Merge(left, right, key, Left).value.rows
    ensures exists l :: l in left.rows && |l| <= |o| && o[..|l|] == l
  {
    LeftRowPrefix(left.rows, IndexOf(left.columns, key).value, right.rows, IndexOf(right.columns, key).value, |right.columns| - 1, o);
  }

  lemma LeftRowPrefix(lrows: seq<Row>, lk: nat, rrows: seq<Row>, rk: nat, width: nat, o: Row)
    requires o in LeftRows(lrows, lk, rrows, rk, width)
    ensures exists l :: l in lrows && |l| <= |o| && o[..|l|] == l
  {
    LeftRowsMembers(lrows, lk, rrows, rk, width);
    if exists l, r :: l in lrows && r in rrows && At(r, rk) == At(l, lk) && o == Combine(l, r, rk) {
      var l, r :| l in lrows && r in rrows && At(r, rk) == At(l, lk) && o == Combine(l, r, rk);
      PrefixOfAppend(l, RemoveAt(r, rk));
    } else {
      var l :| l in lrows && o == l + Nulls(width);
      PrefixOfAppend(l, Nulls(width));
    }
  }

  lemma PrefixOfAppend(l: Row, tail: Row)
    ensures (l + tail)[..|l|] == l
  {
  }

  /** Rows of an inner merge are as wide as a left row and a right row without its key. */
  lemma InnerRowsWidth(lrows: seq<Row>, lk: nat, rrows: seq<Row>, rk: nat, wl: nat, wr: nat, m: seq<Row>)
    requires rk < wr && (forall l :: l in lrows ==> |l| == wl) && (forall r :: r in rrows ==> |r| == wr)
    requires m == InnerRows(lrows, lk, rrows, rk)
    ensures forall i :: 0 <= i < |m| ==> |m[i]| == wl + wr - 1
  {
    InnerRowsMembers(lrows, lk, rrows, rk);
    assert forall i :: 0 <= i < |m| ==> m[i] in m;
  }

  /** So are the rows of a left merge, NaN-padded or not. */
  lemma {:induction false} LeftRowsWidth(lrows: seq<Row>, lk: nat, rrows: seq<Row>, rk: nat, wl: nat, wr: nat, m: seq<Row>)
    requires rk < wr && (forall l :: l in lrows ==> |l| == wl) && (forall r :: r in rrows ==> |r| == wr)
    requires m == LeftRows(lrows, lk, rrows, rk, wr - 1)
    ensures forall i :: 0 <= i < |m| ==> |m[i]| == wl + wr - 1
    decreases |lrows|
  {
    if lrows != [] {
      var h := LeftMatches(lrows[0], lk, rrows, rk, wr - 1);
      var t := LeftRows(lrows[1..], lk, rrows, rk, wr - 1);
      assert forall l :: l in lrows[1..] ==> l in lrows;
      LeftRowsWidth(lrows[1..], lk, rrows, rk, wl, wr, t);
      LeftMatchesWidth(lrows[0], lk, rrows, rk, wl, wr, h);
      assert m == h + t;
    }
  }

  lemma LeftMatchesWidth(l: Row, lk: nat, rrows: seq<Row>, rk: nat, wl: nat, wr: nat, h: seq<Row>)
    requires rk < wr && |l| == wl && (forall r :: r in rrows ==> |r| == wr)
    requires h == LeftMatches(l, lk, rrows, rk, wr - 1)
    ensures forall i :: 0 <= i < |h| ==> |h[i]| == wl + wr - 1
  {
    assert forall i :: 0 <= i < |h| ==> h[i] in h;
  }

  /** The rows of a merge of two frames, as wide as the merged columns. */
  function MergeRows(left: Frame, right: Frame, lk: nat, rk: nat, how: How): (rows: seq<Row>)
    requires lk < |left.columns| && rk < |right.columns|
    ensures forall i :: 0 <= i < |rows| ==> |rows[i]| == |left.columns| + |right.columns| - 1
  {
    FrameWidths(left);
    FrameWidths(right);
    if how == Inner then
      var m := InnerRows(left.rows, lk, right.rows, rk);
      InnerRowsWidth(left.rows, lk, right.rows, rk, |left.columns|, |right.columns|, m);
      m
    else
      var m := LeftRows(left.rows, lk, right.rows, rk, |right.columns| - 1);
      LeftRowsWidth(left.rows, lk, right.rows, rk, |left.columns|, |right.columns|, m);
      m
  }

  /** The merged columns over the merged rows form a frame. */
  function MergedFrame(left: Frame, right: Frame, key: string, lk: nat, rk: nat, how: How): (t: Frame)
    requires key in right.columns && lk < |left.columns| && rk < |right.columns|
    ensures t.columns == MergedColumns(left.columns, right.columns, key)
    ensures t.rows == MergeRows(left, right, lk, rk, how)
  {
    var t := Table(MergedColumns(left.columns, right.columns, key), MergeRows(left, right, lk, rk, how));
    assert Rectangular(t);
    t
  }

  /** pd.merge(left, right, on=key, how=how). A key missing from either side is a KeyError. */
  function Merge(left: Frame, right: Frame, key: string, how: How): (r: Result<Frame, Fatal>)
    ensures r.Err? <==> key !in left.columns || key !in right.columns
    ensures r.Err? ==> r.error == MissingColumn(key)
    ensures r.Ok? ==>
      var lk, rk := IndexOf(left.columns, key).value, IndexOf(right.columns, key).value;
      && r.value.columns == MergedColumns(left.columns, right.columns, key)
      && r.value.rows == if how == Inner then InnerRows(left.rows, lk, right.rows, rk)
                         else LeftRows(left.rows, lk, right.rows, rk, |right.columns| - 1)
  {
    match (IndexOf(left.columns, key), IndexOf(right.columns, key))
    case (Some(lk), Some(rk)) => Ok(MergedFrame(left, right, key, lk, rk, how))
    case _ => Err(MissingColumn(key))
  }

  lemma FrameWidths(t: Frame)
    ensures forall row :: row in t.rows ==> |row| == |t.columns|
  {
    forall row | row in t.rows ensures |row| == |t.columns| {
      RowWidth(t, row);
    }
  }

  lemma RowWidth(t: Frame, row: Row)
    requires row in t.rows
    ensures |row| == |t.columns|
  {
    var i :| 0 <= i < |t.rows| && t.rows[i] == row;
  }

  /** The keys (cells at k) of some rows. */
  function KeySet(rows: seq<Row>, k: nat): set<Cell> {
    set r | r in rows :: At(r, k)
  }

  lemma KeySetSnoc(rows: seq<Row>, x: Row, k: nat)
    ensures KeySet(rows + [x], k) == KeySet(rows, k) + {At(x, k)}
  {
    assert forall r :: r in rows + [x] <==> r in rows || r == x;
  }

  /** df.drop_duplicates(subset=[the column at k]): a row is kept when no earlier row
      has its key, so each key keeps its first row. */
  function Dedup(rows: seq<Row>, k: nat): (d: seq<Row>)
    ensures KeySet(d, k) == KeySet(rows, k)
    ensures forall i, j :: 0 <= i < j < |d| ==> At(d[i], k) != At(d[j], k)
    ensures IsSubseq(d, rows)
    ensures |d| == |KeySet(rows, k)|
    decreases |rows|
  {
    if rows == [] then []
    else
      var init := rows[..|rows| - 1];
      var last := rows[|rows| - 1];
      assert rows == init + [last];
      KeySetSnoc(init, last, k);
      var d := Dedup(init, k);
      DedupStep(init, last, d, k);
      if At(last, k) in KeySet(d, k) then d else d + [last]
  }

  /** One step of Dedup: a row whose key was already seen is dropped, any other row kept. */
  lemma DedupStep(init: seq<Row>, last: Row, d: seq<Row>, k: nat)
    requires KeySet(d, k) == KeySet(init, k) && |d| == |KeySet(init, k)| && IsSubseq(d, init)
    requires forall i, j :: 0 <= i < j < |d| ==> At(d[i], k) != At(d[j], k)
    ensures var e := if At(last, k) in KeySet(d, k) then d else d + [last];
      && KeySet(e, k) == KeySet(init + [last], k)
      && (forall i, j :: 0 <= i < j < |e| ==> At(e[i], k) != At(e[j], k))
      && IsSubseq(e, init + [last])
      && |e| == |KeySet(init + [last], k)|
  {
    KeySetSnoc(init, last, k);
    if At(last, k) in KeySet(d, k) {
      SubseqSkipLast(d, init, last);
    } else {
      DedupNewKey(init, last, d, k);
    }
  }

  /** A subsequence of b is one of b + [x] too. */
  lemma SubseqSkipLast<T>(a: seq<T>, b: seq<T>, x: T)
    requires IsSubseq(a, b)
    ensures IsSubseq(a, b + [x])
  {
    assert (b + [x])[..|b|] == b;
  }

  /** A row with an unseen key is kept, after the rows kept before it. */
  lemma DedupNewKey(init: seq<Row>, last: Row, d: seq<Row>, k: nat)
    requires KeySet(d, k) == KeySet(init, k) && IsSubseq(d, init) && At(last, k) !in KeySet(d, k)
    requires forall i, j :: 0 <= i < j < |d| ==> At(d[i], k) != At(d[j], k)
    ensures KeySet(d + [last], k) == KeySet(d, k) + {At(last, k)}
    ensures forall i, j :: 0 <= i < j < |d + [last]| ==> At((d + [last])[i], k) != At((d + [last])[j], k)
    ensures IsSubseq(d + [last], init + [last])
  {
    var e := d + [last];
    KeySetSnoc(d, last, k);
    assert e[..|d|] == d;
    assert (init + [last])[..|init|] == init;
    forall i, j | 0 <= i < j < |e| ensures At(e[i], k) != At(e[j], k) {
      if j == |d| {
        assert e[i] == d[i] && d[i] in d;
      } else {
        assert e[i] == d[i] && e[j] == d[j];
      }
    }
  }

  /** No row before position i has the key of rows[i]. */
  predicate FirstOfKey(rows: seq<Row>, i: nat, k: nat)
    requires i < |rows|
  {
    forall i' :: 0 <= i' < i ==> At(rows[i'], k) != At(rows[i], k)
  }

  /** The row kept for each key is the first row of the input with that key. */
  lemma {:induction false} DedupKeepsFirst(rows: seq<Row>, k: nat, j: nat)
    requires j < |Dedup(rows, k)|
    ensures exists i: nat :: i < |rows| && rows[i] == Dedup(rows, k)[j] && FirstOfKey(rows, i, k)
    decreases |rows|
  {
    var init := rows[..|rows| - 1];
    var d := Dedup(init, k);
    DedupSnoc(rows, k);
    if j < |d| {
      DedupKeepsFirst(init, k, j);
      var i: nat :| i < |init| && init[i] == d[j] && FirstOfKey(init, i, k);
      FirstOfKeyInit(rows, i, k);
      assert rows[i] == Dedup(rows, k)[j];
    } else {
      DedupAddsLast(rows, k);
    }
  }

  /** Dedup extends the result for all rows but the last, by the last row or by nothing. */
  lemma DedupSnoc(rows: seq<Row>, k: nat)
    requires rows != []
    ensures var d := Dedup(rows[..|rows| - 1], k);
      Dedup(rows, k) == if At(rows[|rows| - 1], k) in KeySet(d, k) then d else d + [rows[|rows| - 1]]
  {
  }

  /** Being the first of its key does not depend on the rows after it. */
  lemma FirstOfKeyInit(rows: seq<Row>, i: nat, k: nat)
    requires i < |rows| - 1 && FirstOfKey(rows[..|rows| - 1], i, k)
    ensures rows[i] == rows[..|rows| - 1][i] && FirstOfKey(rows, i, k)
  {
    var init := rows[..|rows| - 1];
    forall i' | 0 <= i' < i ensures At(rows[i'], k) != At(rows[i], k) {
      assert rows[i'] == init[i'];
    }
  }

  /** When the last row is kept, no earlier row has its key. */
  lemma DedupAddsLast(rows: seq<Row>, k: nat)
    requires rows != [] && |Dedup(rows, k)| > |Dedup(rows[..|rows| - 1], k)|
    ensures Dedup(rows, k)[|Dedup(rows[..|rows| - 1], k)|] == rows[|rows| - 1]
    ensures FirstOfKey(rows, |rows| - 1, k)
  {
    var init := rows[..|rows| - 1];
    var last := rows[|rows| - 1];
    var n := |rows| - 1;
    var d := Dedup(init, k);
    assert At(last, k) !in KeySet(init, k);
    forall i' | 0 <= i' < n ensures At(rows[i'], k) != At(rows[n], k) {
      assert rows[i'] == init[i'] && init[i'] in init;
    }
  }
}
