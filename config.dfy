/** The two dispatch tables of the extractor: the species prompt, which fixes the
    annotation table, the GO legend and the locus rule, and the file extension, which
    fixes how an input file is read (or that it is skipped). */
module Config {
  import opened Wrappers
  import opened Text

  datatype Species = Tomato | TomatoRkn | Arabidopsis

  const TomatoAnnotation := "annotations/annotation_tom.xlsx"
  const TomatoRknAnnotation := "annotations/annotation_tom_with_RKN_Mi-Tomato.xlsx"
  const ArabidopsisAnnotation := "annotations/annotation_arab.xlsx"
  const TomatoLegend := "GO term accession_mart_exportSL_3.0_with descr.tab"
  const ArabidopsisLegend := "GO term accession_mart_exportArabidopsis.tab"

  /** What a species selects: where its annotation and legend tables live, and whether
      gene identifiers are used verbatim as loci (else they are cut at the first dot). */
  datatype Profile = Profile(annotationPath: string, legendPath: string, verbatimLocus: bool)

  /** The prompt answer as the program compares it: stripped, then upper-cased. */
  function Normalize(answer: string): string {
    Upper(Strip(answer))
  }

  function SelectSpecies(answer: string): Option<Species> {
    var key := Normalize(answer);
    if key == "S" then Some(Tomato)
    else if key == "SW" then Some(TomatoRkn)
    else if key == "A" then Some(Arabidopsis)
    else None
  }

  function ProfileOf(sp: Species): Profile {
    match sp
    case Tomato => Profile(TomatoAnnotation, TomatoLegend, false)
    case TomatoRkn => Profile(TomatoRknAnnotation, TomatoLegend, false)
    case Arabidopsis => Profile(ArabidopsisAnnotation, ArabidopsisLegend, true)
  }

  predicate IsS(c: char) { c == 's' || c == 'S' || c == '\U{17F}' }

  /** The answers that select plain tomato: one s (either case, or the long s that
      Python upper-cases to S), with any whitespace around it. */
  lemma {:induction false} TomatoAnswers(answer: string)
    ensures SelectSpecies(answer) == Some(Tomato) <==> var t := Strip(answer); |t| == 1 && IsS(t[0])
  {
    var t := Strip(answer);
    if |t| == 1 { assert Upper(t) == [UpperChar(t[0])]; }
  }

  /** The answers that select tomato with the root-knot nematode annotation. */
  lemma {:induction false} TomatoRknAnswers(answer: string)
    ensures SelectSpecies(answer) == Some(TomatoRkn) <==>
      var t := Strip(answer); |t| == 2 && IsS(t[0]) && (t[1] == 'w' || t[1] == 'W')
  {
    UpperIsSW(Strip(answer));
  }

  /** A string upper-cases to "SW" exactly when it is an s then a w, in either case. */
  lemma UpperIsSW(t: string)
    ensures Upper(t) == "SW" <==> |t| == 2 && IsS(t[0]) && (t[1] == 'w' || t[1] == 'W')
  {
    if |t| == 2 {
      assert Upper(t) == [UpperChar(t[0]), UpperChar(t[1])];
    }
  }

  /** The answers that select Arabidopsis. */
  lemma {:induction false} ArabidopsisAnswers(answer: string)
    ensures SelectSpecies(answer) == Some(Arabidopsis) <==> var t := Strip(answer); |t| == 1 && (t[0] == 'a' || t[0] == 'A')
  {
    var t := Strip(answer);
    if |t| == 1 { assert Upper(t) == [UpperChar(t[0])]; }
  }

  /** S and SW read the same legend with split-at-dot loci and differ only in the
      annotation table; A reads its own legend with verbatim loci. */
  lemma ProfilesDiffer()
    ensures ProfileOf(Tomato).legendPath == ProfileOf(TomatoRkn).legendPath
    ensures ProfileOf(Tomato).annotationPath != ProfileOf(TomatoRkn).annotationPath
    ensures !ProfileOf(Tomato).verbatimLocus && !ProfileOf(TomatoRkn).verbatimLocus
    ensures ProfileOf(Arabidopsis).verbatimLocus
    ensures ProfileOf(Arabidopsis).legendPath != ProfileOf(Tomato).legendPath
  {
  }

  /** os.path.splitext for a bare file name (one listed in a folder, so without
      separators): the extension starts at the last dot, unless only dots precede it. */
  function SplitExt(name: string): (r: (string, string))
    ensures r.0 + r.1 == name
    ensures r.1 != [] ==> r.1[0] == '.' && '.' !in r.1[1..] && !AllAre(r.0, '.')
    ensures r.1 != [] <==>
      exists k, j :: 0 <= j < k < |name| && name[k] == '.' && name[j] != '.'
  {
    match LastIndex(name, '.')
    case None => (name, "")
    case Some(d) =>
      if !AllAre(name[..d], '.') then
        assert name == name[..d] + name[d..];
        (name[..d], name[d..])
      else
        (name, "")
  }

  datatype Format = TabSeparated | Spreadsheet | Unsupported

  /** The reader chosen for an input file by its lower-cased extension. */
  function FormatOf(name: string): Format {
    var ext := Lower(SplitExt(name).1);
    if ext == ".tab" then TabSeparated
    else if ext == ".xlsx" || ext == ".xls" then Spreadsheet
    else Unsupported
  }

  /** name ends in ext (compared case-insensitively) and something other than a dot
      comes before it. */
  predicate HasExtension(name: string, ext: string) {
    && |ext| <= |name|
    && Lower(name[|name| - |ext|..]) == ext
    && exists j :: 0 <= j < |name| - |ext| && name[j] != '.'
  }

  /** The lower-cased extension is ext exactly when the name ends in ext case-insensitively
      with something other than a dot before it. */
  lemma {:induction false} ExtensionIs(name: string, ext: string)
    requires |ext| >= 1 && ext[0] == '.' && '.' !in ext[1..]
    ensures Lower(SplitExt(name).1) == ext <==> HasExtension(name, ext)
  {
    var (b, x) := SplitExt(name);
    var n, m := |name|, |ext|;
    if Lower(x) == ext {
      assert x == name[|b|..];
      var k :| 0 <= k < |b| && b[k] != '.';
      assert name[k] == b[k];
    }
    if HasExtension(name, ext) {
      var s := name[n - m..];
      var j :| 0 <= j < n - m && name[j] != '.';
      assert Lower(s)[0] == '.';
      assert s[0] == '.';
      assert name[n - m] == '.';
      assert forall i :: 1 <= i < m ==> s[i] != '.' by {
        forall i | 1 <= i < m ensures s[i] != '.' {
          assert Lower(s)[i] == ext[i] == ext[1..][i - 1];
        }
      }
      assert x != [];
      assert x == name[|b|..];
      assert x == s;
    }
  }

  /** The three outcomes of the extension dispatch, stated on the file name. */
  lemma FormatCases(name: string)
    ensures FormatOf(name) == TabSeparated <==> HasExtension(name, ".tab")
    ensures FormatOf(name) == Spreadsheet <==> HasExtension(name, ".xlsx") || HasExtension(name, ".xls")
    ensures FormatOf(name) == Unsupported <==>
      !HasExtension(name, ".tab") && !HasExtension(name, ".xlsx") && !HasExtension(name, ".xls")
  {
    ExtensionIs(name, ".tab");
    ExtensionIs(name, ".xlsx");
    ExtensionIs(name, ".xls");
  }
}
