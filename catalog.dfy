/** The GO-term catalog: the "names" column of the catalog spreadsheet, and the
    file-name-safe spellings of a GO identifier and of a term name. */
module Catalog {
  import opened Wrappers
  import opened Text
  import opened Tables

  const CatalogPath := "Go_termnIDs_and_file_names.xlsx"
  const NamesColumn := "names"

  /** What one catalog entry contributes: nothing for NaN, else the entry stripped. */
  function CleanEntry(c: Cell): (r: seq<string>)
    ensures |r| <= 1 && forall j :: 0 <= j < |r| ==> Stripped(r[j])
  {
    if c.None? then [] else [Strip(c.value)]
  }

  /** The concatenation of f over xs[lo..hi], in order. */
  function Gather<A, B>(f: A -> seq<B>, xs: seq<A>, lo: nat, hi: nat): seq<B>
    requires lo <= hi <= |xs|
    decreases hi - lo
  {
    if hi == lo then [] else Gather(f, xs, lo, hi - 1) + f(xs[hi - 1])
  }

  /** Gathering a range cut in two gathers each part. */
  lemma {:induction false} GatherSplit<A, B>(f: A -> seq<B>, xs: seq<A>, lo: nat, mid: nat, hi: nat)
    requires lo <= mid <= hi <= |xs|
    ensures Gather(f, xs, lo, hi) == Gather(f, xs, lo, mid) + Gather(f, xs, mid, hi)
    decreases hi - mid
  {
    if hi > mid {
      GatherSplit(f, xs, lo, mid, hi - 1);
    }
  }

  /** The front of a concatenation gathers like the first part. */
  lemma {:induction false} GatherFront<A, B>(f: A -> seq<B>, xs: seq<A>, ys: seq<A>, hi: nat)
    requires hi <= |xs|
    ensures Gather(f, xs + ys, 0, hi) == Gather(f, xs, 0, hi)
  {
    if hi > 0 {
      GatherFront(f, xs, ys, hi - 1);
      assert (xs + ys)[hi - 1] == xs[hi - 1];
    }
  }

  /** The back of a concatenation gathers like the second part. */
  lemma {:induction false} GatherBack<A, B>(f: A -> seq<B>, xs: seq<A>, ys: seq<A>, hi: nat)
    requires hi <= |ys|
    ensures Gather(f, xs + ys, |xs|, |xs| + hi) == Gather(f, ys, 0, hi)
  {
    if hi > 0 {
      GatherBack(f, xs, ys, hi - 1);
      assert (xs + ys)[|xs| + hi - 1] == ys[hi - 1];
    }
  }

  /** Gathering a concatenation gathers each part. */
  lemma GatherAppend<A, B>(f: A -> seq<B>, xs: seq<A>, ys: seq<A>)
    ensures Gather(f, xs + ys, 0, |xs + ys|) == Gather(f, xs, 0, |xs|) + Gather(f, ys, 0, |ys|)
  {
    GatherSplit(f, xs + ys, 0, |xs|, |xs + ys|);
    GatherFront(f, xs, ys, |xs|);
    GatherBack(f, xs, ys, |ys|);
  }

  /** The cleaned entries lo..hi of the catalog, in catalog order. */
  function CleanRange(entries: seq<Cell>, lo: nat, hi: nat): seq<string>
    requires lo <= hi <= |entries|
  {
    Gather(CleanEntry, entries, lo, hi)
  }

  /** When f yields at most one value per element, gathering a prefix yields at most one
      value per element of it. */
  lemma {:induction false} GatherAtMostOne<A, B>(f: A -> seq<B>, xs: seq<A>, hi: nat)
    requires hi <= |xs|
    requires forall x :: |f(x)| <= 1
    ensures |Gather(f, xs, 0, hi)| <= hi
  {
    if hi > 0 {
      GatherAtMostOne(f, xs, hi - 1);
    }
  }

  /** When every value f yields satisfies p, so does every value gathered from a prefix. */
  lemma {:induction false} GatherAll<A, B>(f: A -> seq<B>, p: B -> bool, xs: seq<A>, hi: nat)
    requires hi <= |xs|
    requires forall x, j :: 0 <= j < |f(x)| ==> p(f(x)[j])
    ensures forall j :: 0 <= j < |Gather(f, xs, 0, hi)| ==> p(Gather(f, xs, 0, hi)[j])
  {
    if hi > 0 {
      GatherAll(f, p, xs, hi - 1);
      var a, b := Gather(f, xs, 0, hi - 1), f(xs[hi - 1]);
      assert Gather(f, xs, 0, hi) == a + b;
      forall j | 0 <= j < |a + b| ensures p((a + b)[j]) {
        if j < |a| { assert (a + b)[j] == a[j]; } else { assert (a + b)[j] == b[j - |a|]; }
      }
    }
  }

  /** The GO identifiers the term loop works on, in catalog order: NaN entries are
      skipped and every other entry is stripped (a blank string stays, as ""). */
  function CleanCatalog(entries: seq<Cell>): seq<string> {
    CleanRange(entries, 0, |entries|)
  }

  /** The cleaned catalog is no longer than the raw one and every identifier in it is
      stripped. */
  lemma CleanCatalogShape(entries: seq<Cell>)
    ensures |CleanCatalog(entries)| <= |entries|
    ensures forall j :: 0 <= j < |CleanCatalog(entries)| ==> Stripped(CleanCatalog(entries)[j])
  {
    GatherAtMostOne(CleanEntry, entries, |entries|);
    GatherAll(CleanEntry, Stripped, entries, |entries|);
  }

  /** Cleaning a range cut in two cleans each part. */
  lemma CleanRangeSplit(entries: seq<Cell>, lo: nat, mid: nat, hi: nat)
    requires lo <= mid <= hi <= |entries|
    ensures CleanRange(entries, lo, hi) == CleanRange(entries, lo, mid) + CleanRange(entries, mid, hi)
  {
    GatherSplit(CleanEntry, entries, lo, mid, hi);
  }

  /** Cleaning works entry by entry: the catalog order is kept and a repeated entry is
      processed again each time it occurs. */
  lemma CleanCatalogAppend(xs: seq<Cell>, ys: seq<Cell>)
    ensures CleanCatalog(xs + ys) == CleanCatalog(xs) + CleanCatalog(ys)
  {
    GatherAppend(CleanEntry, xs, ys);
  }

  /** A NaN entry contributes nothing; any other entry contributes itself, stripped. */
  lemma CleanCatalogEntry(c: Cell)
    ensures CleanCatalog([c]) == if c.None? then [] else [Strip(c.value)]
  {
  }

  /** The GO identifier with ':' replaced by '_', as used in output file names. */
  function GoSafe(go: string): (r: string)
    ensures |r| == |go| && ':' !in r
  {
    Replace(go, ':', '_')
  }

  /** The term name with '/' replaced by '_', as used in file and column names. */
  function TermSafe(name: string): (r: string)
    ensures |r| == |name| && '/' !in r
  {
    Replace(name, '/', '_')
  }
}
