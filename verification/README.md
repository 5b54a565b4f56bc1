# Strain screenshot parser — Dafny model

`main.py` reads a screenshot of cannabis strain details and uses OCR to turn it
into text lines. It then collects seven fields from those lines: genetic origin
(`Origen genético`), effect (`Efecto`), flavour (`Sabor`), variety type
(`Tipo de variedad`), `THC`, `CBD` and type (`Tipo`). Finally it appends one CSV
row per screenshot.

This project models the only piece of the program with real logic: the
key–value parser that runs over the OCR lines, and the row it produces.

- `strings.dfy` (module `Strings`) holds the Python `str` operations the parser
  uses. These are `strip()` (with the full CPython whitespace set), `lower()`,
  one-character `replace`, the colon test and `split(':', 1)`.
- `keys.dfy` holds `normalize_key` and the `csv_columns` list (module `Keys`).
  It proves that the seven normalised names are pairwise distinct. It also
  holds the column lookup done by the `for col in csv_columns` loop with its
  `break` (module `Lookup`).
- `parser.dfy` (module `Parser`) holds the loop of `process_screenshot`. The
  loop is a pure left fold over `seq<string>`. Its state is the record `data`
  (a `map<string, string>` keyed by column header, as the Python dict is)
  together with the optional active column `current_key`. `Classify` strips a
  line and splits it at its first colon. `Apply` is the rest of the loop body.
  `ParseLines` is the same fold written as a loop.
  `JoinSpaced` is Python's `" ".join`, used to state what continuation lines build.
- `csv_output.dfy` (module `CsvOutput`) holds the row
  `[data.get(col, 'N/A') for col in csv_columns]`. It also has an inverse
  (`RecordOf`) used to state what the row preserves.
- `wrappers.dfy` holds the `Option` type.

Some behaviour is stated exactly as the code does it:

- The `else ''` at main.py:38 can never be taken. The branch is guarded by
  `':' in line`, so `split(':', 1)` always yields two parts. It is modelled
  literally anyway.
- `elif current_key:` tests the truthiness of a column header. Every header is
  non-empty, so the test means "a column is active".
- `if data.get(current_key)` counts an empty stored value the same as a
  missing one (`HasText`).
- A blank line that continues a non-empty value still appends the joining
  space (`BlankContinuationAddsSpace`).
- The docstring of `normalize_key` (main.py:12) says it removes spaces and
  symbols. The code (main.py:14) removes only plain spaces; every other symbol
  is kept (`NormalizeKeyKeepsSymbol`). So a label such as `THC.: 20%`
  normalises to `thc.`, matches no column, and its value is dropped
  (`TrailingDotKept`, `SymbolLabelUnmatched`). The model follows the code.

## Model

| member | source | states |
|---|---|---|
| Strings.Strip | main.py:31 | the result has no whitespace at either end and is the infix of the input left after removing only whitespace from the front and the back |
| Strings.StripFixedPoint | main.py:31 | stripping leaves a string unchanged exactly when it has no whitespace at either end |
| Strings.StripIdempotent | main.py:31 | stripping twice gives the same result as stripping once, so a line's surrounding whitespace is gone after the first `strip()` |
| Strings.FindFirst | main.py:34 | returns no position exactly when the line has no colon; otherwise the position holds a colon and no colon comes before it |
| Strings.SplitOnce | main.py:36 | `split(':', 1)` gives one part (the whole line) exactly when there is no colon; otherwise two parts, the first without a colon, which rejoin with the colon to give the line |
| Strings.Replace | main.py:14 | the replaced character no longer occurs (when the replacement does not contain it); every result character comes from the input or the replacement; the input is returned unchanged when it lacks the character |
| Strings.ReplaceConcat | main.py:14 | replacing distributes over concatenation |
| Strings.ReplaceSingle | main.py:14 | on one character, `replace` gives the replacement for the target character and keeps any other character; with `ReplaceConcat` this fixes the result on every string, every other character staying in place |
| Strings.Lower | main.py:14 | lower-casing keeps the length and maps each character to its own lower-case form (A-Z and the Latin-1 capitals move up by 32, code point + 32); the result is all lower case, and lower-case text is unchanged |
| Keys.NormalizeKey | main.py:10-14 | a normalised key contains no space, no `é`, no `í` and no upper-case letter |
| Keys.NormalizeKeyFixedPoint | main.py:10-14 | normalisation leaves a key unchanged exactly when the key is already normal |
| Keys.NormalizeKeyIdempotent | main.py:10-14 | normalising twice gives the same result as normalising once |
| Keys.NormalizeKeyKeepsSymbol | main.py:12-14 | only plain spaces are removed: a character that is not a space, an upper-case letter, `é` or `í` (a full stop, say) is kept after normalisation, whatever the docstring says about symbols |
| Keys.TrailingDotKept | main.py:12-14 | `THC.` normalises to `thc.`, not to the `thc` of the `THC` column |
| Keys.NormalizeKeyIsPerChar | main.py:14 | the chain lower → drop spaces → fold `é` → fold `í` equals a one-pass, character-by-character definition |
| Keys.ColumnNamesSpelled | main.py:17-19 | the column list is the seven headers in CSV order |
| Keys.ColumnKeysComputed | main.py:17-19 | the normalised headers are `origengenetico`, `efecto`, `sabor`, `tipodevariedad`, `thc`, `cbd`, `tipo` |
| Keys.ColumnKeysDistinct | main.py:17-19 | no two columns share a normalised name, so a label matches at most one column |
| Lookup.FirstMatch | main.py:43-49 | the search returns the first column whose normalised name equals the label, or nothing when no column matches |
| Lookup.MatchColumnSpec | main.py:43-49 | a label selects column `c` if and only if `c` is a column whose normalised name equals the normalised label |
| Lookup.MatchColumnNone | main.py:43-51 | a label selects no column if and only if its normal form is none of the seven normalised names |
| Lookup.SymbolLabelUnmatched | main.py:43-51 | a line labelled `THC.` selects no column, so its value is dropped |
| Lookup.MatchOrderIrrelevant | main.py:43-49 | searching any sequence that holds the same column names selects the same column as `csv_columns` order |
| Parser.Classify | main.py:31-38 | a line counts as plain text exactly when its stripped form has no colon; plain text is the stripped line; a labelled line's key has no colon, and both key and value are stripped |
| Parser.ClassifyLabelled | main.py:34-38 | a line whose stripped text is `name:rest` (no colon in `name`) gives key `strip(name)` and value `strip(rest)`, so later colons stay in the value |
| Parser.SplitAtFirst | main.py:36 | `split(':', 1)` on `name:rest` with no colon in `name` gives exactly `name` and `rest` |
| Parser.Apply | main.py:40-62 | the loop body keeps the record holding only columns and keeps the active column present in the record |
| Parser.Step | main.py:30-62 | one line keeps the record holding only columns, keeps the active column present, and never makes a stored value start with whitespace |
| Parser.ApplyKeepsValuesClean | main.py:38-58 | stored values stay empty or start with a non-blank character under labelled and continuation lines |
| Parser.Parse | main.py:26-64 | after any sequence of lines the record holds only columns, an active column is present in it, and no value starts with whitespace |
| Parser.ParseLines | main.py:26-64 | the loop returns the record of the fold, whose keys are all columns |
| Parser.StepStripsFirst | main.py:31 | surrounding whitespace on a line never changes what the line does |
| Parser.StepLabelMatched | main.py:34-49 | a line labelled with column `col` sets `col` to the stripped text after the first colon, overwriting any earlier value; `col` becomes active exactly when that text is empty, and no column is active otherwise |
| Parser.StepLabelUnmatched | main.py:50-51 | a labelled line that matches no column leaves the record unchanged and clears the active column |
| Parser.StepContinuation | main.py:53-59 | a colon-free line while `col` is active sets `col` to the line when its value is empty or missing, else to old value + one space + line; no other column changes and `col` stays active |
| Parser.StepIgnored | main.py:61-62 | a colon-free line with no active column changes neither the record nor the active column |
| Parser.BlankContinuationAddsSpace | main.py:55-56 | a blank line that continues a non-empty value appends a single trailing space |
| Parser.LabelThenContinuations | main.py:46-58 | after a line `Col:` with nothing after the colon, a run of colon-free, non-blank lines leaves `Col` active and holding those lines' stripped texts joined by single spaces |
| Parser.ContinueJoined | main.py:53-58 | while `col` is active and holds a space-joined text, one more continuation line extends that join by its stripped text |
| Parser.ParseKeysAreColumns | main.py:43-58 | the parsed record's keys are drawn from the seven columns |
| CsvOutput.RowOf | main.py:84 | the row has one entry per listed column: the stored text when present, otherwise `N/A` |
| CsvOutput.CsvRow | main.py:84 | the written row has exactly seven entries in `csv_columns` order: the stored value (possibly empty) or `N/A` |
| CsvOutput.ColumnsHaveNoDuplicates | main.py:17-19 | no header occurs twice in the column list |
| CsvOutput.RecordOfRowOf | main.py:84 | reading a row back gives the record restricted to the listed columns, minus entries whose text is `N/A` |
| CsvOutput.CsvRowRoundTrip | main.py:84 | a record holding only columns, with no value equal to `N/A`, is recovered exactly from its row |
| CsvOutput.PlaceholderIsAmbiguous | main.py:84 | a column whose text is literally `N/A` writes the same row as an absent column |
| CsvOutput.ParsedRowRoundTrip | main.py:84 | a parsed record with no `N/A` value is recovered exactly from the row written for it |

## Left out

- OCR: building the EasyOCR reader and calling `readtext` (main.py:23-24) is a foreign machine-learning library. The model takes its output as an arbitrary `seq<string>`.
- The exception handler (main.py:65-67) is not modelled. It turns any exception into a `None` result, after which `main` exits without saving (main.py:133-135). Inside the `try` block, the OCR calls (main.py:23-24) can fail. So can the `print` calls (main.py:28, 32, 47, 59, 62), on a stdout encoding or I/O error such as an OCR'd character the console cannot encode or a closed pipe. Apart from those, the loop at main.py:30-62 cannot raise on a list of strings. The model assumes output never fails, so its result is always the record.
- The `print` calls' output is not modelled. Their possible failure is covered by the line above.
- CSV file I/O in `save_to_csv` is not modelled (main.py:74-89). This covers the file-exists check, the header row on first write, `csv.writer` quoting and the encoding. Only the row list at line 84 is modelled.
- The Tkinter window, clipboard grab, file dialog and temporary-file handling are UI and file-system plumbing (main.py:91-121).
- `main` is outside the parser (main.py:123-146). This includes its rule that an empty record is not saved.
- Strings.Lower: exact only for ASCII and Latin-1. Python's `lower()` also maps other scripts, in one case to two characters (U+0130). Outside Latin-1 the model leaves characters unchanged, because only Spanish labels matter here.
