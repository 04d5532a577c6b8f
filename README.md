# Gene-per-GO extractor, modelled in Dafny

This project models `extract_genes_per_GO_term.py`, a pandas script. The script does five things:

1. It asks for a species: `S` for tomato, `SW` for tomato with the root-knot nematode annotation, `A` for Arabidopsis.
2. It loads that species' annotation table and GO legend, then the GO-term catalog (the column `names` of `Go_termnIDs_and_file_names.xlsx`).
3. For every file in `input/` and every GO accession of the catalog, it builds a report:
   - the legend rows of the accession, cut to three columns;
   - keyed by a `locus` column;
   - inner-joined with the input table on `locus`;
   - left-joined with the annotation table;
   - de-duplicated by `Gene stable ID`;
   - stripped of helper columns;
   - reordered so that `GeneID` comes first.
4. From each report it adds one column to a 10,000-row grouped table of gene identifiers.
5. It drops the placeholder column `_pad` and writes the grouped table.

Tables are positional. A `Table` has a sequence of column names and rows of cells. A cell is `Option<string>`, with `None` standing for NaN. `Frame` is the subset of rectangular tables. A column lookup finds the first column of that name, as pandas does for unique names.

The modules follow the script's structure:

| module | models |
|---|---|
| `Wrappers` | `Option`, `Result`, the fatal conditions, and a stop-at-first-failure fold |
| `Text` | `str.strip`, `upper`, `lower`, `replace`, the split at the first dot, decimal digits |
| `Tables` | frames, column lookup and assignment, projection, `drop(columns=…)`, row selection |
| `Relational` | `pd.merge` (inner and left, with the `_x`/`_y` suffixes) and `drop_duplicates` |
| `Config` | the species prompt and profiles; `os.path.splitext` and the reader chosen by extension |
| `Catalog` | the catalog's NaN skipping and stripping; `go_safe`; the term-name sanitising |
| `Grouped` | the grouped table: a class updated in place, specified by the `Sheet` value it holds |
| `Pipeline` | the body of the GO-term loop for one accession and one input file |
| `Extractor` | the start-up, the GO-term loop (`TermLoop`), the file loop (`FileLoop`) and the whole run |

Each loop is a method with a `while` loop, proved equal to a recursive specification function:

| method | specification function |
|---|---|
| `TermLoop` | `TermsOver` |
| `FileLoop` | `FilesOver` |

The properties the script promises are proved about these functions, as lemmas. The grouped table is `Grouped.GroupedTable`, a class with `modifies` clauses. Its methods are proved against `Put` and `WithoutPad`.

Behaviour of the script worth noting:

- **Blank catalog entries.** The catalog is cleaned by skipping NaN only (lines 124-127). A blank or whitespace-only entry is stripped to `""` and looked up like any other accession. It is skipped only if the legend has no row for `""`.
- **Term-name fallback.** The fallback to the accession at line 138 can never be taken. The selection at line 131 always yields a `GO term name` column.
- **Fatal conditions.** Each of these ends the run:
  - a legend lacking one of `accession`, `Gene stable ID`, `GO term name`, `GO term definition` (a KeyError at line 131);
  - an annotation table without `locus` (a KeyError at the merge, line 156);
  - the two-column split at line 152 on a term none of whose stable IDs has a dot (pandas yields one column for two targets).
- **Empty annotation table.** An annotation table with no rows still needs a `locus` column, or the run ends.
- **Folders for skipped files.** An unsupported file still gets its output folder (lines 90-93 come before the extension check). So does a file without a `GeneID` column.
- **The name `.tab`.** A file called just `.tab` has no extension to `os.path.splitext`, so it is unsupported.
- **Repeated term names.** Two terms whose sanitised names agree share one grouped column, which holds the later term's genes. A term whose sanitised name is `_pad` replaces the placeholder, and its column is then dropped at lines 191-193.

## Model

| member | source | states |
|---|---|---|
| Wrappers.Sequence | extract_genes_per_GO_term.py:83-109 | the first failure of a file loop ends the run; otherwise one outcome per entry |
| Wrappers.SequenceEach | extract_genes_per_GO_term.py:83-109 | the fold succeeds iff every step does, yields each step's value, and otherwise fails with the first failing step's error |
| Wrappers.SequenceErrPersists | extract_genes_per_GO_term.py:83-109 | once the loop has failed, later entries do not change the outcome |
| Text.TrimLeft | extract_genes_per_GO_term.py:47 | the result is a suffix of the input; exactly the leading whitespace was removed |
| Text.TrimRight | extract_genes_per_GO_term.py:47 | the result is a prefix of the input; exactly the trailing whitespace was removed |
| Text.Strip | extract_genes_per_GO_term.py:47 | the result is a contiguous slice of the input with only whitespace around it, and it neither begins nor ends with whitespace |
| Text.UpperChar | extract_genes_per_GO_term.py:47 | a character upper-cases to S, W or A exactly when it is that letter in either case (for S also the long s) |
| Text.Upper | extract_genes_per_GO_term.py:47 | upper-casing keeps the length |
| Text.LowerChar | extract_genes_per_GO_term.py:96 | ASCII capitals map to their small letters, all else is unchanged, and only '.' maps to '.' |
| Text.Replace | extract_genes_per_GO_term.py:128 | every occurrence of the character is replaced, every other character is kept, and the length is unchanged |
| Text.FirstIndex | extract_genes_per_GO_term.py:116 | finds the first occurrence of a character, or reports that there is none |
| Text.LastIndex | extract_genes_per_GO_term.py:90 | finds the last occurrence of a character, or reports that there is none |
| Text.BeforeFirst | extract_genes_per_GO_term.py:116-117 | the part before the first dot is a prefix without a dot, followed by a dot unless it is the whole string |
| Text.AfterFirst | extract_genes_per_GO_term.py:152 | the part after the first dot exists iff there is a dot, and with the first part and the dot it rebuilds the string |
| Text.Decimal | extract_genes_per_GO_term.py:120 | a row number is written as a non-empty string of digits that spells it, with no leading zero |
| Tables.IndexOf | extract_genes_per_GO_term.py:131 | the lookup finds the first column of a name exactly when the name is a column |
| Tables.IndexOfFirst | extract_genes_per_GO_term.py:131 | a position holding the name with no earlier occurrence is the lookup's answer |
| Tables.ColumnAt | extract_genes_per_GO_term.py:131 | a column's p-th cell is the cell of row p at the column's position |
| Tables.SetColumn | extract_genes_per_GO_term.py:113 | assigning a column replaces a present column in place or appends a new one; other columns keep their cells |
| Tables.Filter | extract_genes_per_GO_term.py:170 | the kept names are exactly those with the requested membership, in their original order |
| Tables.Positions | extract_genes_per_GO_term.py:170 | the positions of the kept names, increasing, missing none |
| Tables.PositionsPick | extract_genes_per_GO_term.py:170 | the positions select exactly the filtered names |
| Tables.Project | extract_genes_per_GO_term.py:131 | projection shows the chosen columns in the chosen order over every row |
| Tables.IncreasingKeepsColumn | extract_genes_per_GO_term.py:166 | a projection on increasing positions keeps each shown column's cells |
| Tables.DropColumns | extract_genes_per_GO_term.py:166 | dropping keeps exactly the other columns, in order, with their cells and all rows |
| Tables.FrontOrderColumns | extract_genes_per_GO_term.py:170-171 | the reordering shows the name first, then the other columns in order |
| Tables.FrontOrderKeepsColumn | extract_genes_per_GO_term.py:171 | every column keeps its cells under the reordering |
| Tables.MoveToFront | extract_genes_per_GO_term.py:169-171 | GeneID comes first; the columns are a permutation of the old ones, each with its cells |
| Tables.FilterSplits | extract_genes_per_GO_term.py:170-171 | the name and the other columns together are a permutation of the columns |
| Tables.Where | extract_genes_per_GO_term.py:131 | the selected rows are exactly those with the value, each with its multiplicity, in order |
| Relational.Matches | extract_genes_per_GO_term.py:155 | one left row's matches are exactly its combinations with the right rows of equal key |
| Relational.InnerRowsMembers | extract_genes_per_GO_term.py:155 | an inner merge holds exactly the combinations of a left and a right row with equal keys |
| Relational.LeftMatches | extract_genes_per_GO_term.py:156 | a left row with no match contributes itself padded with NaN; otherwise its matches |
| Relational.LeftRowsMembers | extract_genes_per_GO_term.py:156 | a left merge holds exactly the matching combinations and the unmatched left rows padded with NaN |
| Relational.MergeKeepsLeftOrder | extract_genes_per_GO_term.py:155-156 | both merges distribute over a concatenation of left rows, so the left order is kept |
| Relational.UnmatchedRow | extract_genes_per_GO_term.py:155-156 | an unmatched left row vanishes from an inner merge and appears once, NaN-padded, in a left merge |
| Relational.MergedColumns | extract_genes_per_GO_term.py:155-156 | the merged columns are the left ones plus the right ones less the key, and the key stays |
| Relational.MergedLeftIndex | extract_genes_per_GO_term.py:155-156 | a left column that is not shared keeps its position in the merge |
| Relational.MergedDropsShared | extract_genes_per_GO_term.py:155-156 | a non-key name on both sides is suffixed on both and no longer appears |
| Relational.MergedRightIndex | extract_genes_per_GO_term.py:155-156 | an unshared right column lands after all the left columns, at its position without the key |
| Relational.InnerMergeRow | extract_genes_per_GO_term.py:155 | every inner-merge row is a left row followed by an equal-keyed right row without its key |
| Relational.LeftMergeRow | extract_genes_per_GO_term.py:156 | every left-merge row begins with a left row |
| Relational.Merge | extract_genes_per_GO_term.py:155-156 | a key missing on either side is a KeyError; otherwise the result has the merged columns and the inner or left rows |
| Relational.Dedup | extract_genes_per_GO_term.py:162 | de-duplication keeps every key exactly once, in input order, as a subsequence |
| Relational.DedupKeepsFirst | extract_genes_per_GO_term.py:162 | the row kept for each key is the first row with that key |
| Config.TomatoAnswers | extract_genes_per_GO_term.py:41-52 | the answers that select tomato: a stripped answer of one s in either case |
| Config.TomatoRknAnswers | extract_genes_per_GO_term.py:41-54 | the answers that select tomato with RKN: a stripped answer of s then w, either case |
| Config.ArabidopsisAnswers | extract_genes_per_GO_term.py:41-58 | the answers that select Arabidopsis: a stripped answer of one a in either case |
| Config.ProfilesDiffer | extract_genes_per_GO_term.py:50-58 | S and SW share the legend and the split-at-dot locus; A has its own legend and verbatim loci |
| Config.SplitExt | extract_genes_per_GO_term.py:90 | base and extension rebuild the name; the extension starts at the last dot, which must follow something other than dots |
| Config.ExtensionIs | extract_genes_per_GO_term.py:90-98 | the lower-cased extension is ext exactly when the name ends in ext case-insensitively, after something other than a dot |
| Config.FormatCases | extract_genes_per_GO_term.py:96-102 | a file is read as TSV, read as a spreadsheet, or skipped, each exactly on its name's ending |
| Catalog.CleanCatalogShape | extract_genes_per_GO_term.py:123-127 | the cleaned catalog is no longer than the raw one, and every identifier in it is stripped |
| Catalog.CleanCatalogAppend | extract_genes_per_GO_term.py:123-127 | cleaning works entry by entry, so order and repeated entries are kept |
| Catalog.CleanCatalogEntry | extract_genes_per_GO_term.py:124-127 | a NaN entry contributes nothing; any other entry contributes itself stripped |
| Catalog.GoSafe | extract_genes_per_GO_term.py:128 | the safe accession has no ':' and the same length |
| Catalog.TermSafe | extract_genes_per_GO_term.py:139 | the safe term name has no '/' and the same length |
| Grouped.Fit | extract_genes_per_GO_term.py:184-187 | the column is exactly 10,000 long: the first identifiers, then blanks |
| Grouped.FitKeepsPrefix | extract_genes_per_GO_term.py:184-187 | a short list is kept whole as a prefix, a long list is cut, and the empty list becomes all blanks |
| Grouped.Initial | extract_genes_per_GO_term.py:120 | the fresh grouped table is well formed with the single column _pad, whose i-th cell is the decimal text of i |
| Grouped.Put | extract_genes_per_GO_term.py:189 | assigning a column keeps the table well formed; a new name is appended, an old one keeps its place, and other columns are untouched |
| Grouped.WithoutPad | extract_genes_per_GO_term.py:191-193 | dropping _pad keeps the table well formed and every other column, in order |
| Grouped.GroupedTable.constructor | extract_genes_per_GO_term.py:120 | the new object holds the fresh grouped table |
| Grouped.GroupedTable.Assign | extract_genes_per_GO_term.py:189 | the object's table becomes Put of the old one and stays well formed |
| Grouped.GroupedTable.DropPad | extract_genes_per_GO_term.py:191-193 | the object's table becomes WithoutPad of the old one and stays well formed |
| Pipeline.LocusKey | extract_genes_per_GO_term.py:112-117 | a verbatim locus is the identifier; otherwise it is the text before the first dot |
| Pipeline.RestKey | extract_genes_per_GO_term.py:152 | the second split part is NaN exactly when the identifier has no dot |
| Pipeline.SplitRoundTrip | extract_genes_per_GO_term.py:152 | locus, dot and rest rebuild the identifier's text |
| Pipeline.WithLocus | extract_genes_per_GO_term.py:111-117 | the input gains a locus column computed row by row from GeneID, and the other columns are unchanged |
| Pipeline.WithLegendLocus | extract_genes_per_GO_term.py:148-152 | the legend subset gains locus (and _rest); the split fails exactly when splitting is needed and no ID has a dot |
| Pipeline.AccessionRows | extract_genes_per_GO_term.py:131 | the term's rows are exactly the legend rows carrying the accession, in legend order |
| Pipeline.SelectLegend | extract_genes_per_GO_term.py:131 | a KeyError exactly when a needed legend column is missing; otherwise the three columns of the accession rows |
| Pipeline.PickThree | extract_genes_per_GO_term.py:131 | the projection shows exactly the three columns with their cells |
| Pipeline.SelectLegendEmpty | extract_genes_per_GO_term.py:133-135 | the subset is empty exactly when no legend row carries the accession |
| Pipeline.Cleanup | extract_genes_per_GO_term.py:158-166 | exactly _rest, locus and the stable ID are removed; rows are de-duplicated by stable ID when it is present |
| Pipeline.CleanupKeepsCells | extract_genes_per_GO_term.py:158-166 | every kept column carries the cells of the de-duplicated join |
| Pipeline.DedupBy | extract_genes_per_GO_term.py:162 | every column is kept, and the rows are those of Dedup on the key column |
| Pipeline.Reorder | extract_genes_per_GO_term.py:168-171 | GeneID is first when present; the columns are permuted with their cells |
| Pipeline.GeneIds | extract_genes_per_GO_term.py:177-182 | the gene list is the GeneID column as text, or empty without it |
| Pipeline.LegendFileName | extract_genes_per_GO_term.py:142 | the legend file is named by the safe accession and ends in .tab |
| Pipeline.ReportFileName | extract_genes_per_GO_term.py:174 | the report file's name is the legend file's name behind the base name |
| Pipeline.GroupedFileName | extract_genes_per_GO_term.py:195 | the grouped file's name is the base name followed by 1_grouped.tab |
| Pipeline.SplitFailsIff | extract_genes_per_GO_term.py:152 | the split fails exactly when loci are cut and none of the term's stable IDs has a dot |
| Pipeline.ExtractTermSkips | extract_genes_per_GO_term.py:133-135 | a term is skipped exactly when the legend is readable and has no row for it |
| Pipeline.ExtractTermFails | extract_genes_per_GO_term.py:131-156 | a term ends the run exactly when a legend column is missing, or the term has rows and its split fails or the annotation lacks locus |
| Pipeline.ExtractTerm | extract_genes_per_GO_term.py:127-187 | failures are KeyErrors or failed splits, and every report has its shape |
| Pipeline.JoinedFromInput | extract_genes_per_GO_term.py:155 | a GeneID cell of the inner join is an input row's GeneID, on equal locus |
| Pipeline.AnnotatedFromJoined | extract_genes_per_GO_term.py:156 | a GeneID cell of the annotated join is a GeneID cell of the inner join |
| Pipeline.CleanedFrom | extract_genes_per_GO_term.py:158-171 | each GeneID cell of the report is a GeneID cell of the annotated join |
| Pipeline.ReportGenesSound | extract_genes_per_GO_term.py:131-182 | every listed gene is the GeneID of an input row whose locus is that of a legend stable ID of the term |
| Extractor.Resolve | extract_genes_per_GO_term.py:41-80 | an unknown answer is fatal; otherwise every table comes from its profile's path, and a missing file or names column is fatal |
| Extractor.TermLoop | extract_genes_per_GO_term.py:122-189 | the in-place GO-term loop yields TermsOver's reports and grouped table, or its first error |
| Extractor.TermsOverInvariant | extract_genes_per_GO_term.py:122-189 | after the loop the grouped table has _pad first and a column per term name with the last such report's padded genes; reports follow the catalog |
| Extractor.TermStepKeeps | extract_genes_per_GO_term.py:123-189 | one turn of the loop keeps that invariant |
| Extractor.TermsErrors | extract_genes_per_GO_term.py:122-189 | the GO-term loop fails only on a KeyError or a failed split |
| Extractor.SkippedTermChangesNothing | extract_genes_per_GO_term.py:133-135 | a term without legend rows leaves the reports and the grouped table as they were |
| Extractor.ProcessFile | extract_genes_per_GO_term.py:84-193 | processing one entry yields FileResult |
| Extractor.ProcessedOutcome | extract_genes_per_GO_term.py:90-193 | a processed file's folder is its base name; its grouped table is well formed, without _pad, with exactly the reports' names other than _pad |
| Extractor.FileLoop | extract_genes_per_GO_term.py:83-109 | the file loop yields FilesOver: one outcome per entry, or the first failure |
| Extractor.FilesOverEach | extract_genes_per_GO_term.py:83-109 | each entry is processed on its own, in listing order; a failure is the first entry's that fails |
| Extractor.FilesErrors | extract_genes_per_GO_term.py:83-193 | the file loop fails only on a KeyError or a failed split |
| Extractor.Run | extract_genes_per_GO_term.py:41-198 | the run is RunResult: start-up, then the file loop over the listing |
| Extractor.RunErrors | extract_genes_per_GO_term.py:41-198 | the run fails on the species exactly when the answer selects none; other failures are missing files or columns, or failed splits |

## Left out

- Console output and the prompt itself: `print` calls are not modelled, and the answer to `input` is a parameter.
- The filesystem as I/O. The tables stored at fixed paths are a map from paths to frames. The listing of `input/` is an `Option` of entries, each with a name, a file flag and the table its reader yields. The listing order is taken as given.
- `os.mkdir`: the folder an entry would get is recorded in its outcome.
- Reading and writing TSV and spreadsheet files, including `decimal=","`. Cell values are strings throughout, so pandas dtype inference is out. The write-then-reload of the legend subset (lines 143-146) is taken as the identity.
- Overwriting of output files when two terms yield the same file name: each report is kept in the outcome.
- Partial outputs written before a fatal error: the model returns only the error.
- Read errors of input files, such as malformed files: those failures come from pandas readers that are not part of this model.
- Duplicate column names in an input table, and names that already end in `_x` or `_y`. Lookups take the first column of a name; pandas would behave differently in those cases.
- Text.Upper: only ASCII letters and the long s are upper-cased, which is all that decides the species. Python's full Unicode case mapping is out.
- Text.Lower: only ASCII capitals are lower-cased, which is all that decides the extension.
- Pipeline.WithLocus: for an input table with no rows, pandas' expanded split at line 116 has no column 0 to take. The model yields an empty locus column instead.
- Relational.InnerRows: the inner merge keeps the left rows' order, as pandas does from version 2.2 on. Older pandas versions group the rows by key instead. De-duplication keeps the same rows either way, because a stable ID fixes its locus, but the order of report rows can then differ.
- Relational.MergedColumns: when the left frame has no rows, pandas keeps the right frame's key column instead of the left one's. This can happen at the left merge, line 156, after an inner join with no matches. The model always keeps the left key in place. Only `locus` is affected, and it is dropped afterwards (lines 159-166), so no output changes.
- Python's exception types and exit codes: every fatal condition is one case of `Fatal`.
