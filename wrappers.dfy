/** Optional values, results, and the run-ending failures of the extractor. */
module Wrappers {

  /** A value that may be missing; also a pandas cell, where None is NaN. */
  datatype Option<+T> = None | Some(value: T)

  /** The outcome of a step that can end the whole run. */
  datatype Result<+T, +E> = Ok(value: T) | Err(error: E)

  /** Steps run in order until the first failure: every value, or the first error. */
  function Sequence<T, E>(rs: seq<Result<T, E>>): (r: Result<seq<T>, E>)
    ensures r.Ok? ==> |r.value| == |rs|
    decreases |rs|
  {
    if rs == [] then Ok([])
    else
      match Sequence(rs[..|rs| - 1])
      case Err(e) => Err(e)
      case Ok(vs) =>
        match rs[|rs| - 1]
        case Err(e) => Err(e)
        case Ok(v) => Ok(vs + [v])
  }

  /** One more step: its value is appended, unless it or an earlier step failed. */
  lemma SequenceSnoc<T, E>(rs: seq<Result<T, E>>, x: Result<T, E>)
    ensures Sequence(rs + [x]) ==
      if Sequence(rs).Err? then Sequence(rs)
      else if x.Err? then Err(x.error)
      else Ok(Sequence(rs).value + [x.value])
  {
    assert (rs + [x])[..|rs|] == rs;
  }

  /** A failure is final: later steps do not change it. */
  lemma {:induction false} SequenceErrPersists<T, E>(rs: seq<Result<T, E>>, more: seq<Result<T, E>>)
    requires Sequence(rs).Err?
    ensures Sequence(rs + more) == Sequence(rs)
    decreases |more|
  {
    if more == [] {
      assert rs + more == rs;
    } else {
      var init := more[..|more| - 1];
      assert (rs + more)[..|rs + more| - 1] == rs + init;
      SequenceErrPersists(rs, init);
    }
  }

  /** Step by step: success means every step succeeded, with these values in order; failure
      is the error of the first failing step. */
  lemma {:induction false} SequenceEach<T, E>(rs: seq<Result<T, E>>)
    ensures Sequence(rs).Ok? <==> forall i :: 0 <= i < |rs| ==> rs[i].Ok?
    ensures Sequence(rs).Ok? ==> forall i :: 0 <= i < |rs| ==> rs[i] == Ok(Sequence(rs).value[i])
    ensures Sequence(rs).Err? ==>
      exists i :: 0 <= i < |rs| && rs[i] == Err(Sequence(rs).error) && forall i' :: 0 <= i' < i ==> rs[i'].Ok?
    decreases |rs|
  {
    if rs != [] {
      var init := rs[..|rs| - 1];
      var n := |rs| - 1;
      SequenceEach(init);
      assert forall i :: 0 <= i < n ==> rs[i] == init[i];
      if Sequence(init).Err? {
        var i :| 0 <= i < |init| && init[i] == Err(Sequence(init).error) && forall i' :: 0 <= i' < i ==> init[i'].Ok?;
        assert rs[i] == Err(Sequence(rs).error);
      } else if rs[n].Ok? {
        var vs := Sequence(rs).value;
        forall i | 0 <= i < |rs| ensures rs[i] == Ok(vs[i]) {
          if i < n {
            assert vs[i] == Sequence(init).value[i];
          }
        }
      }
    }
  }

  /** Conditions that abort the run: nothing after them is processed. */
  datatype Fatal =
    | UnknownSpecies(answer: string)   // the species prompt was not S, SW or A
    | FileNotFound(path: string)       // a lookup table or the input folder is missing
    | NoNamesColumn                    // the catalog has no "names" column
    | MissingColumn(column: string)    // pandas KeyError on a column lookup
    | SplitArity                       // no stable ID of a term has a dot: one part for two columns
}
