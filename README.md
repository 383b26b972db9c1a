# Placeholder detection for contract templates, in Dafny

This project models the deterministic part of a tool that finds the
fill-in placeholders of a legal template (a `.docx` file) before a
language model labels them:

- **Flattening** (`_iter_docx_lines`). The document becomes an ordered
  list of `(text, location_hint)` lines: non-empty stripped paragraphs
  tagged `paragraph:<i>`, then non-empty whitespace-collapsed table cells
  tagged `table:<ti> row:<ri> col:<ci>`.
- **Detection** (`detect_fields_from_docx`). Every line gets a context
  window. Four scans run on it in a fixed order:
  - bracket tokens such as `[Company Name]`;
  - bracket blanks such as `$[_____]`;
  - a signature label such as `By:`;
  - a bare `___` underline.

  The detections are then de-duplicated by (placeholder text, line index,
  kind) through an insertion-ordered dictionary.
- **The four regular expressions.** They are written as explicit scanners:
  - `BRACKET_TOKEN_RE` and `BRACKET_BLANK_RE` with Python's leftmost-first,
    non-overlapping `finditer`;
  - `UNDERLINE_RE.search`;
  - `SIGNATURE_LABEL_RE.match`, case-insensitive.
- **The `.env` loader** of the clustering script. It is a loop that sets
  process environment variables from `KEY=value` lines and never
  overrides one that is already set.
- **The cluster filter** of the clustering script. It keeps the clusters
  the model returned that have more than one member.

Modules:

| module | file | what it holds |
|---|---|---|
| `Wrappers` | `wrappers.dfy` | `Option`, `Result` |
| `Text` | `text.dfy` | `str.strip()`, `str.strip(c)`, `str.split()`, `" ".join`, decimal rendering of indices, ASCII case folding |
| `Patterns` | `patterns.dfy` | the four patterns, `finditer`, `search` |
| `Flatten` | `flatten.dfy` | `_iter_docx_lines` over the paragraphs' and tables' texts |
| `Detect` | `detect.dfy` | the context window and the four scans of each line |
| `Dedup` | `dedup.dfy` | the `uniq` dictionary and `list(uniq.values())` |
| `Fields` | `fields.dfy` | `detect_fields_from_docx` end to end, and what its result promises |
| `DotEnv` | `dotenv.dfy` | the `.env` loop, with `os.environ` as class `Environ` and its `map` field |
| `Clusters` | `clusters.dfy` | the multi-member cluster filter |

Each loop of the source is a method with a loop. The method is proved
equal to a recursive function that adds one item at a time, and the
properties are lemmas about that function. For example,
`Flatten.IterDocxLines` is proved equal to `Flatten.Flattened`, and
`Fields.DetectFieldsFromDocx` is proved equal to
`Fields.DetectFieldsSpec`.

Two behaviours of the code that its own comments do not suggest:

- A bracket blank whose inside has 3 to 120 characters and no newline is
  also a bracket token, with or without the `$`. The token starts at the
  `[`. The token scan reports it as well, and the two records differ in
  kind, so both survive de-duplication. This follows from the two patterns
  at test.py:25-26.
- The comment at test.py:118 says the underline scan reports underlines
  that are not already inside a bracket blank. The code at test.py:119
  suppresses the underline whenever any bracket blank occurs on the line,
  even when the `___` lies outside that blank. The model follows the code.

## Model

| member | source | states |
|---|---|---|
| `Text.StripSpec` | test.py:49 | `str.strip()` keeps an infix of its input: everything removed on either side is whitespace, and the result neither starts nor ends with whitespace |
| `Text.CollapseSpec` | test.py:57 | `" ".join(s.split())` keeps exactly the words of `s`, in order. It uses single spaces only, with no leading or trailing space, and is empty exactly when `s` is all whitespace |
| `Text.DecimalRoundTrip` | test.py:51 | the index rendered in a hint reads back as the same number |
| `Patterns.TokenAtExact` | test.py:25 | the token scanner matches at `i` up to `e` exactly when `s[i..e]` is `[` + 1 to 120 characters other than `[`, `]` and newline + `]` |
| `Patterns.BlankAtExact` | test.py:26 | the blank scanner matches at `i` up to `e` exactly when `s[i..e]` is an optional `$`, `[`, at least three whitespace or `_` characters, `]` |
| `Patterns.MatchAtExact` | test.py:25-26 | either bracket scanner accepts exactly its pattern's language, anchored at the given position |
| `Patterns.BareBlankIsToken` | test.py:25-26 | a bracket blank without `$` is also a bracket token exactly when it has at most 120 characters inside and no newline |
| `Patterns.FindAllMatches` | test.py:75 | every span `finditer` yields lies inside the line, at or after the search start, and is a match of the pattern at its start |
| `Patterns.FindAllOrdered` | test.py:75-89 | `finditer`'s matches come left to right and do not overlap |
| `Patterns.FindAllLeftmost` | test.py:75-89 | leftmost-first: no match starts between the point where a search resumed and the match it reported, nor after the last match |
| `Patterns.SearchNone` | test.py:119 | `BRACKET_BLANK_RE.search(line)` fails exactly when no position of the line starts a match |
| `Patterns.DollarIncluded` | test.py:26 | a `$` just before the `[` of a reported bracket blank is part of that blank |
| `Patterns.HasUnderlineFrom` | test.py:27 | `UNDERLINE_RE.search` succeeds exactly when three consecutive `_` occur |
| `Patterns.RestMatchesExact` | test.py:28 | taking the whitespace before `(.*)$` greedily loses no match |
| `Patterns.LabelFromSpec` | test.py:28 | a label is returned exactly when some alternative is accepted at the position, and it is returned as written in the line |
| `Patterns.LabelFromFirst` | test.py:28 | the alternatives are tried in order: the label returned is the first alternative accepted at the position, and no earlier one is accepted |
| `Patterns.LabelFromOnly` | test.py:28 | when exactly one alternative is accepted at the position, that one is returned, as written |
| `Patterns.LabelsExclusive` | test.py:28 | no two of `By:`, `Name:`, `Title:`, `Address:`, `Email:` start at the same position of a line, in any ASCII case |
| `Patterns.SignatureLabelSpec` | test.py:28 | a line yields a label exactly when, after its leading whitespace, one of `By:`, `Name:`, `Title:`, `Address:`, `Email:` (in any ASCII case) is accepted there. The label comes back as written |
| `Patterns.SignatureLabelUnique` | test.py:28 | any label accepted after the leading whitespace is the one `group(1)` returns, so the order of the alternatives does not matter |
| `Patterns.NoNewlineLabel` | test.py:28 | on a line without newlines, starting with a label after the leading whitespace is enough for the match |
| `Flatten.ParagraphTextLines` | test.py:48-51 | the paragraph loop yields the lines of the stripped non-empty paragraphs, tagged by paragraph index |
| `Flatten.RowCellLines` | test.py:56-59 | the cell loop of one row yields its collapsed non-empty cells, tagged by table, row and column |
| `Flatten.TableCellLines` | test.py:55-59 | the row loop of one table yields its rows' cell lines, row by row |
| `Flatten.IterDocxLines` | test.py:41-61 | `_iter_docx_lines` returns the paragraph lines followed by the table lines, table by table |
| `Flatten.ParagraphLinesSpec` | test.py:48-51 | the paragraph lines are in index order, each is the non-empty stripped text of the paragraph it names, and every non-blank paragraph has a line. The index counts dropped paragraphs too |
| `Flatten.CellLinesSpec` | test.py:56-59 | one row's lines are in column order, each is the non-empty collapsed text of its cell, and every non-blank cell has a line |
| `Flatten.RowLinesSpec` | test.py:55-59 | one table's lines are in row, then column order, each with its cell's collapsed non-empty text, and every non-blank cell has a line |
| `Flatten.TableLinesSpec` | test.py:54-59 | all table lines are in table, row, column order, each with its cell's collapsed non-empty text, and every non-blank cell has a line |
| `Flatten.FlattenedSpec` | test.py:41-61 | the flattened list is in document order (all paragraphs before all cells). Each line names an existing paragraph or cell and carries its text, which is non-empty. Every paragraph or cell whose text is non-empty has a line |
| `Flatten.FlattenedText` | test.py:49-57 | paragraph lines have no surrounding whitespace; cell lines are single-spaced |
| `Flatten.RenderInjective` | test.py:51-59 | two locations have the same hint text exactly when they are the same location |
| `Detect.ContextOf` | test.py:71-72 | the `before`/`after` computation, with Python's negative indexing, equals `LineContext`. An index past the end is `None`, the `IndexError` |
| `Detect.ContextSpec` | test.py:71-72 | with a window of zero or more, `before` is the text `window` lines earlier or `""`, and `after` the text `window` lines later or `""` |
| `Detect.ScanErrorIff` | test.py:70-72 | the scan raises `IndexError` exactly when the window is negative and there is at least one line |
| `Detect.ErrorPersists` | test.py:70-72 | once a line raises, the whole scan has raised |
| `Detect.AppendMatches` | test.py:75-86 | a `finditer` loop appends one record per match, in match order, holding the matched text and the line's context |
| `Detect.ScanLine` | test.py:74-130 | one iteration of the line loop appends exactly the line's fields |
| `Detect.LineFieldsUnfold` | test.py:74-130 | a line's fields are its token matches, then its blank matches, then its signature label if any, then its underline if the underline scan fires |
| `Detect.DetectAll` | test.py:70-130 | the line loop returns the scan of all lines, or the `IndexError` |
| `Detect.MatchShape` | test.py:75-78 | a reported match is a word of its pattern's language that occurs in the line |
| `Detect.LineFieldsContext` | test.py:76-129 | every field of a line carries that line's `before`, text, `after`, hint and index |
| `Detect.LineFieldsShape` | test.py:75-123 | token and blank placeholders are words of their patterns found in the line. A signature placeholder is the label the line starts with. The underline placeholder is `"__________"`, recorded only when the line has `___` and no bracket blank |
| `Detect.LineFieldsComplete` | test.py:75-130 | a line yields a field for every token match and every blank match, for its signature label if it has one, and for the underline when that scan fires |
| `Detect.LineFieldsOrder` | test.py:74-130 | within a line: tokens, then blanks, then the label, then the underline |
| `Detect.ScanOkWhenWindowNonNegative` | test.py:71-72 | with a window of zero or more, no line raises |
| `Detect.ScanSound` | test.py:70-130 | every detection of the first `n` lines is a field of the line it names |
| `Detect.ScanComplete` | test.py:70-130 | every field of each of the first `n` lines is among the detections |
| `Detect.ScanOrder` | test.py:70-130 | detections come line by line, and within each line in the order of the four scans |
| `Dedup.DedupFields` | test.py:132-137 | the two loops (store under the key, then list the values) compute `Deduped` |
| `Dedup.FirstAtPresent` | test.py:133-136 | a key occurs among the detections exactly when the position of its first occurrence lies inside the list |
| `Dedup.OrderDomain` | test.py:133-136 | the dictionary's key order and its map hold the same keys, exactly those of the stored records |
| `Dedup.OrderDistinct` | test.py:133-136 | no key occurs twice in the dictionary's key order |
| `Dedup.OrderFirst` | test.py:133-136 | the dictionary's keys are ordered by first insertion |
| `Dedup.TableLast` | test.py:136 | each key's stored value is the last record with that key |
| `Dedup.DedupKeys` | test.py:137 | the result lists one record per key, in key order |
| `Dedup.DedupDistinct` | test.py:132-137 | no two results share (placeholder, line index, kind) |
| `Dedup.DedupKeepsKeys` | test.py:132-137 | a key occurs in the result exactly when it occurs among the detections |
| `Dedup.DedupFirstOrder` | test.py:132-137 | the result is ordered by each key's first detection |
| `Dedup.DedupLastWins` | test.py:136-137 | each result is the last detection with its key |
| `Dedup.DedupDistinctUnchanged` | test.py:132-137 | detections whose keys are already distinct come back unchanged, in the same order |
| `Dedup.DedupIdempotent` | test.py:132-137 | de-duplicating again changes nothing |
| `Dedup.DedupFirstOccurrence` | test.py:132-137 | when records sharing a key are equal, each result is the first detection with its key |
| `Fields.DetectFields` | test.py:68-137 | the scan followed by de-duplication computes `DetectFieldsSpec`, the `IndexError` included |
| `Fields.DetectFieldsFromDocx` | test.py:64-137 | `detect_fields_from_docx` on a document given as texts: flatten, then scan, then de-duplicate |
| `Fields.DetectFieldsError` | test.py:70-72 | the function raises exactly when the window is negative and the document has a line |
| `Fields.ResultFromLines` | test.py:70-137 | every returned field is a field of the line it names |
| `Fields.ResultContext` | test.py:70-72 | each returned field's line text and hint are those of `lines[line_index]`. Its `before` is `lines[line_index - window]` or `""`; its `after` is `lines[line_index + window]` or `""` |
| `Fields.ResultShape` | test.py:75-123 | every returned field has its kind's shape (see `Detect.LineFieldsShape`) |
| `Fields.ScanKeyCoherent` | test.py:76-129 | two detections with the same key are the same record |
| `Fields.ResultComplete` | test.py:70-137 | every field of every line is returned |
| `Fields.ResultDistinct` | test.py:132-137 | the returned fields have pairwise distinct keys |
| `Fields.ResultOrdered` | test.py:70-137 | the returned fields are in line order, and within a line in scan order |
| `Fields.ResultOneLabelPerLine` | test.py:103-130 | no line contributes two signature-label fields or two underline fields |
| `Fields.DocxLines` | test.py:41-61 | line `i` of the scanned list has the `i`-th flattened text, non-empty, and the rendering of its location as hint |
| `Fields.HintedAt` | test.py:51-59 | rendering the hints keeps the number of lines and each line's text |
| `DotEnv.Environ.LoadDotEnv` | semantic_cluster_test.py:54-65 | the loop sets `vars` to the fold of the one-line step over the lines |
| `DotEnv.SplitFirstSpec` | semantic_cluster_test.py:60 | splitting succeeds exactly when `=` occurs. The key part has no `=`, and key + `=` + value is the line |
| `DotEnv.SplitFirstUnique` | semantic_cluster_test.py:60 | the split is at the first `=`: any split of the line at an `=` with none before it is the one made |
| `DotEnv.ParseLineSkips` | semantic_cluster_test.py:55-59 | a line is skipped exactly when, after stripping, it is empty, starts with `#` or has no `=` |
| `DotEnv.IgnoredLineKeepsEnv` | semantic_cluster_test.py:55-59 | a skipped line leaves the environment unchanged |
| `DotEnv.ParseLineSplits` | semantic_cluster_test.py:60-62 | a line `a=b` (stripped, `a` without `=` and not a comment) gives the stripped `a` as key and the cleaned `b`, which may contain `=`, as value |
| `DotEnv.ParseLineTrimmed` | semantic_cluster_test.py:61-62 | keys have no surrounding whitespace; values have no `'` at either end |
| `DotEnv.LoadKeeps` | semantic_cluster_test.py:63-65 | a variable already set is never changed or removed |
| `DotEnv.LoadMonotone` | semantic_cluster_test.py:63-65 | a binding made by earlier lines survives every later line unchanged |
| `DotEnv.LoadAdds` | semantic_cluster_test.py:64-65 | every added variable has a non-empty key and the exact key and value of some line |
| `DotEnv.NotYetAssigned` | semantic_cluster_test.py:64-65 | a key no line assigns stays unset |
| `DotEnv.FirstAssignmentWins` | semantic_cluster_test.py:54-65 | for a key not set beforehand, the first line assigning it decides its value |
| `DotEnv.NoEmptyKey` | semantic_cluster_test.py:64 | the empty key is never added |
| `Clusters.MultiMemberSpec` | semantic_cluster_test.py:111 | a cluster is kept exactly when it is in the list and has more than one member |
| `Clusters.MultiMemberAppend` | semantic_cluster_test.py:111 | filtering a concatenation filters each part, so the kept clusters keep their order |
| `Clusters.MultiMemberSingle` | semantic_cluster_test.py:111 | a single cluster is kept exactly when it has more than one member |
| `Clusters.MultiMemberAll` | semantic_cluster_test.py:111 | nothing is dropped when every cluster has several members |
| `Clusters.MultiMemberIdempotent` | semantic_cluster_test.py:111 | filtering twice is filtering once |
| `Clusters.MultiMissing` | semantic_cluster_test.py:110-111 | an answer without `clusters` reports nothing, and a cluster without `member_field_ids` is never reported |

## Left out

- Loading the document with python-docx, and python-docx's own behaviour (for example merged cells repeating in `row.cells`). The model takes each paragraph's text and each table as rows of cell texts; a missing text (`p.text or ""`) is the empty string.
- Whitespace is the six ASCII characters space, tab, line feed, carriage return, vertical tab and form feed. Python's `str.strip()`, `str.split()` and `\s` also treat `\x1c`–`\x1f` and non-ASCII spaces as whitespace. `re.IGNORECASE` is modelled for ASCII letters only.
- The `DetectedField` dataclass is a datatype, and `kind` is an enumeration. `Detect.KindName` gives the source's strings.
- `detect_fields_from_docx` scans lines given as `(text, hint)` pairs. `Fields` renders the hints from structured locations before scanning.
- The language-model calls in both files, the pydantic model, the CSV and JSON writers, `argparse`, reading `fields.json`, and all printing: these are network, library or console I/O.
- Opening `.env`, the check that it exists, and the blanket `except Exception: pass`. The loader takes the file's lines and the environment as given values.
- `DotEnv.Environ.LoadDotEnv`: does not model the `ValueError` that `os.environ[k] = v` raises when the key or value holds a NUL character. In the source the `except` then ends the loop and keeps the bindings made so far; the model sets the variable and goes on.
- The default `window=1` of `detect_fields_from_docx` (test.py:64): the model takes the window as an explicit argument.
- `json.loads` of the model's answer. The cluster filter takes the decoded answer as a datatype holding only the keys it reads. This leaves out the `AttributeError` that `out.get` raises when the answer is not a JSON object (semantic_cluster_test.py:110), and the one that `c.get` raises when a cluster entry is not an object (semantic_cluster_test.py:111). A `member_field_ids` that is present but not a list is not modelled.
- A `clusters` value that is present but not a list: `null`, for example, makes the comprehension at semantic_cluster_test.py:111 raise `TypeError`. `Clusters.Answer` holds either no `clusters` or a list of clusters.
- The run-level document patcher, the fallback classifier and the highlighter are not part of this model.
