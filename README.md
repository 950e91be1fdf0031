# locale-tool in Dafny

locale-tool turns a spreadsheet of translations into one JSON locale file
per language. The sheet's first column holds dotted keys such as
`common.loading`, its second column holds the reference (Vietnamese) text,
and every further column is a language. This project models the
transformation at the heart of `src/index.ts`:

- `setNestedValue` inserts a string at a dotted path of a nested object.
  It creates a fresh object where an intermediate is missing or holds a
  string, and descends into existing objects.
  Module `LocaleTree` models it over `datatype Tree = Leaf(s) | Node(m)`.
- `normalizeHeader` and `buildLocalesFromSheet` resolve the column roles
  from the first row. They then write the language cells of every row whose
  trimmed key is not blank into that language's tree, after removing `\r`
  and escaping `\n`.
  Module `SheetBuild` models them as a fold-over-rows specification and an
  imperative method proved equal to it.
- `parseArgs` tokenizes the command line into options and positional
  arguments. Module `CliArgs` models it the same way: a fold specification
  and a loop method.
- Module `Strings` models the JavaScript string operations these rely on:
  `trim` with ECMAScript's whitespace set, `split`, `filter(Boolean)` and
  `replaceAll`.
- Module `Wrappers` holds `Option` (for `undefined`) and `Result` (for a
  thrown error).

The model follows the code where its behaviour is easy to miss:

- Headers are trimmed before use, but cells are then read by the trimmed
  name. A raw header with surrounding whitespace therefore reads as `""` in
  every row, unless another raw header is exactly the trimmed name.
  `PaddedKeyHeaderSkipsAllRows` shows the effect on the key column.
- With no key header at all, `row[undefined]` reads the property
  `"undefined"` (`PropertyKey`).
- `main` tests `args.h`, which suggests that `-h` was meant to ask for
  help. `parseArgs` treats `-h` as a positional argument
  (`ShortHelpIsPositional`), so only `--h` or `--help` sets a flag that
  `main` tests.
- An option named `_` replaces the positional list. When it leaves `_` as
  `true` (bare `--_`) or as a non-empty string (`--_=x`), the next
  positional argument throws a TypeError on `push`
  (`PositionalAfterScalarThrows`, `BareUnderscoreOptionBreaksPositionals`,
  `UnderscoreOptionBreaksPositionals`). `--_=` leaves the empty string,
  which is falsy, so the next positional argument starts a fresh list
  (`EmptyUnderscoreOptionIsReplaced`).

## Model

| member | source | states |
|---|---|---|
| Strings.TrimSpec | src/index.ts:64-66 | a trimmed header is an infix of the header that is empty or starts and ends with non-whitespace, and it is empty exactly when the header is all whitespace |
| Strings.TrimStartRemovesBlankPrefix | src/index.ts:64-66 | trimming the start removes exactly a whitespace prefix and stops at the first non-whitespace character |
| Strings.TrimEndRemovesBlankSuffix | src/index.ts:64-66 | trimming the end removes exactly a whitespace suffix and stops at the last non-whitespace character |
| Strings.TrimKeepsClean | src/index.ts:64-66 | a header with no surrounding whitespace is unchanged by trimming |
| Strings.TrimIdempotent | src/index.ts:64-66 | normalising a header twice is the same as normalising it once |
| Strings.Split | src/index.ts:12 | `split` yields at least one piece, no piece contains the separator, and joining the pieces with it gives back the input |
| Strings.SplitCons | src/index.ts:12 | the text before the first separator is the first piece and the rest is split on its own |
| Strings.SplitSingle | src/index.ts:12 | text without the separator splits into itself alone |
| Strings.SplitJoin | src/index.ts:12 | splitting undoes joining for separator-free pieces |
| Strings.NonEmpty | src/index.ts:12 | `filter(Boolean)` keeps only non-empty pieces, all of them from the input, and never more than there were |
| Strings.NonEmptyAppend | src/index.ts:12 | the filter distributes over concatenation, so it keeps order |
| Strings.NonEmptyKeepsAll | src/index.ts:12 | the filter keeps a list of non-empty pieces whole |
| Strings.Segments | src/index.ts:12 | each path segment of a dotted key is non-empty and free of dots |
| Strings.SegmentsOfJoin | src/index.ts:12 | the dotted form of a path of non-empty, dot-free segments gives that path back |
| Strings.EmptySegmentsIgnored | src/index.ts:12 | `a..b`, `.a.b` and `a.b` all denote the path `[a, b]` |
| Strings.DotsOnlyHaveNoSegments | src/index.ts:12 | a key made only of dots, including the empty key, denotes no path |
| Strings.RemoveCarriageReturns | src/index.ts:104 | the result has no `\r`, and every other character occurs in it exactly when it occurs in the input |
| Strings.EscapeLineFeeds | src/index.ts:104 | the result has no line feed, and has a `\r` exactly when the input does |
| Strings.NormalizeCell | src/index.ts:102-104 | a stored value contains no carriage return and no line feed |
| Strings.RemoveCarriageReturnsAppend | src/index.ts:104 | removing `\r` works character by character: it distributes over concatenation |
| Strings.EscapeLineFeedsAppend | src/index.ts:104 | escaping `\n` works character by character: it distributes over concatenation |
| Strings.NormalizeCellAppend | src/index.ts:102-104 | cell normalisation distributes over concatenation |
| Strings.NormalizeCellKeepsPlainText | src/index.ts:102-104 | text without line breaks, such as the placeholders `{0}`, `%s` and `{{var}}`, is stored unchanged |
| Strings.LineBreakEscapes | src/index.ts:102-104 | both a `\r\n` and a lone `\n` become the two characters backslash and `n`, and the text around them is normalised unchanged in place |
| Strings.NormalizeCellIdempotent | src/index.ts:102-104 | normalising a stored value again changes nothing |
| LocaleTree.SetPath | src/index.ts:13-25 | an empty path changes nothing; otherwise the top level gains the first segment and every other top-level entry is kept |
| LocaleTree.DivergeTail | src/index.ts:14-23 | two diverging paths through the same child still diverge below it |
| LocaleTree.SetPathStores | src/index.ts:14-18 | after the insert, the path leads to a leaf holding the value, whatever was there before |
| LocaleTree.SetNestedValueStores | src/index.ts:11-25 | after `setNestedValue`, the non-empty segments of the key lead to the value |
| LocaleTree.SetNestedValueTwice | src/index.ts:11-25 | writing the same value at the same key twice gives the same tree as writing it once |
| LocaleTree.SetPathFrame | src/index.ts:14-23 | every path that neither lies on nor extends the written path reads as before |
| LocaleTree.SetPathPrefixNodes | src/index.ts:19-23 | every proper prefix of the path becomes an object; a prefix that was an object keeps its other children, and one that was missing or a string holds only the new branch |
| LocaleTree.SetPathShadows | src/index.ts:18-22 | writing a path replaces whatever an earlier write put at or below it |
| LocaleTree.SetPathExtends | src/index.ts:18-22 | writing below a string replaces the string with an object holding only the new branch |
| LocaleTree.SetPathCommuteApart | src/index.ts:14-23 | writes under different top-level keys commute |
| LocaleTree.SetPathCommuteBelow | src/index.ts:14-23 | if two writes through one first segment commute inside that child object, they commute at the top level |
| LocaleTree.SetPathTwiceBelow | src/index.ts:19-23 | two writes through the same first segment are two writes into that one child object |
| LocaleTree.SetPathCommute | src/index.ts:14-23 | writes to diverging paths commute |
| LocaleTree.SetNestedValueIgnoresEmptySegments | src/index.ts:12 | keys `a..b`, `.a.b` and `a.b` give the same tree |
| LocaleTree.SetNestedValueDotsOnly | src/index.ts:12-14 | a key with no non-empty segment leaves the tree unchanged |
| LocaleTree.OverwriteOrder | src/index.ts:18-22 | `a.b` then `a.b.c` leaves `a.b` an object holding only `c`; the reverse order leaves `a.b` a string and `c` gone |
| LocaleTree.DottedPaths | src/index.ts:12 | `a.b` and `a.b.c` denote the paths `[a, b]` and `[a, b, c]` |
| LocaleTree.DeeperWriteLast | src/index.ts:18-22 | writing `[a, b]` then `[a, b, c]` leaves at `[a, b]` an object holding only `c` |
| LocaleTree.ShallowerWriteLast | src/index.ts:18-22 | writing `[a, b, c]` then `[a, b]` leaves a string at `[a, b]` and nothing at `[a, b, c]` |
| LocaleTree.LookupStep | src/index.ts:20-23 | reading one segment deeper reads that child of the object reached |
| LocaleTree.LookupThroughLeaf | src/index.ts:18 | nothing is found below a string |
| LocaleTree.SetPathKeepsNoLineBreaks | src/index.ts:18 | inserting a value without line breaks into a tree without line breaks keeps the tree without them |
| SheetBuild.NormalizeHeaders | src/index.ts:82 | there is one normalised header per property of the first row |
| SheetBuild.NormalizeHeadersAt | src/index.ts:82 | the i-th header is the trimmed i-th property name of the first row |
| SheetBuild.LanguageHeaders | src/index.ts:87-89 | the language headers are no more than the headers |
| SheetBuild.LanguageHeadersMembers | src/index.ts:87-89 | a name is a language header exactly when it is a header that is neither the key header nor the reference header |
| SheetBuild.LanguageHeadersAppend | src/index.ts:87-89 | the language filter distributes over concatenation, so it keeps the headers' order |
| SheetBuild.LanguageHeadersKeepAll | src/index.ts:87-89 | headers that play neither other role are all kept, in order |
| SheetBuild.DistinctLanguages | src/index.ts:83-89 | with distinct headers and the first two as key and reference headers, the languages are exactly the remaining headers in order |
| SheetBuild.DefaultPlan | src/index.ts:82-89 | without overrides the key and reference headers are headers 0 and 1, and with distinct headers the languages are all the others, in order |
| SheetBuild.InitLocales | src/index.ts:91-94 | the initial result has exactly the language headers as keys, each with an empty object |
| SheetBuild.EmptyLocales | src/index.ts:91-94 | the initialising loop yields the initial result: an empty object for each language header and nothing else |
| SheetBuild.WriteCells | src/index.ts:100-106 | writing a row never adds or removes a language |
| SheetBuild.ApplyRow | src/index.ts:97-106 | processing a row never adds or removes a language |
| SheetBuild.ApplyRows | src/index.ts:96-107 | processing the rows never adds or removes a language |
| SheetBuild.BuildLocalesFromSheet | src/index.ts:68-110 | the builder fails exactly on an empty sheet and otherwise returns the fold of all rows over the resolved column roles |
| SheetBuild.WriteRowIfKeyed | src/index.ts:97-106 | one outer-loop iteration skips a row with a blank trimmed key and otherwise writes all its language cells |
| SheetBuild.WriteRowCells | src/index.ts:100-106 | the inner loop writes every language's normalised cell under the row's key, language after language |
| SheetBuild.WriteCellsAt | src/index.ts:100-106 | a row changes a language's tree only by inserting that language's cell under the row's key, and leaves the other entries alone, even when a language is listed twice |
| SheetBuild.ApplyRowsAppend | src/index.ts:96-107 | processing rows in two batches equals processing them at once |
| SheetBuild.ApplyRowsAt | src/index.ts:96-107 | each language's tree in the result is that language's column written row by row into its initial tree |
| SheetBuild.BuildPerLanguage | src/index.ts:78-110 | a non-empty sheet yields one tree per language header and no other, each being its column written into an empty object |
| SheetBuild.BlankRowContributesNothing | src/index.ts:97-98 | inserting a row whose trimmed key is empty anywhere after the first row leaves the result unchanged |
| SheetBuild.BlankRowsKeep | src/index.ts:97-98 | rows whose trimmed keys are all empty leave a language's tree unchanged |
| SheetBuild.PaddedKeyHeaderSkipsAllRows | src/index.ts:82-98 | when no row has a property named by the trimmed default key header, every language tree comes out empty |
| SheetBuild.LanguageTreeNoLineBreaks | src/index.ts:102-105 | a language tree built from a tree without line breaks has none |
| SheetBuild.BuildNoLineBreaks | src/index.ts:96-110 | no string in the result contains a carriage return or a line feed |
| SheetBuild.AvoidingRowsKeep | src/index.ts:96-107 | rows whose keys lie off a path do not change what that path holds |
| SheetBuild.LanguageTreeAppend | src/index.ts:96-107 | one language's tree is built in two batches of rows as well as in one |
| SheetBuild.LanguageTreeRowSurvives | src/index.ts:96-107 | a language's reference tree keeps a row's cell at that row's key path unless a later row writes at, above or below it |
| SheetBuild.RowValueSurvives | src/index.ts:96-107 | a row's normalised cell is what the result holds at that row's key path unless a later row writes at, above or below it, so later rows win |
| CliArgs.ParseArgs | src/index.ts:28-50 | the loop skips the first two argv entries and processes the rest in order, ending at the first thrown error |
| CliArgs.ApplyToken | src/index.ts:31-40 | one token sets an option, starts or extends the positional list, or throws when `_` holds a non-empty string or `true` |
| CliArgs.ErrorPersists | src/index.ts:30-41 | once a token throws, the later tokens change nothing |
| CliArgs.OptionWithValue | src/index.ts:32-34 | `--name=value`, with anything after a second `=`, sets `name` to the text between the first and second `=` |
| CliArgs.BareOption | src/index.ts:32-34 | a bare `--name` sets `name` to `true` |
| CliArgs.PositionalsInOrder | src/index.ts:35-40 | without an option named `_`, parsing never throws and `_` holds exactly the non-option tokens in order, or is absent when there are none |
| CliArgs.LastOptionWins | src/index.ts:30-41 | every name other than `_` holds the value of the last option with that name, and is absent when there is none |
| CliArgs.ShortHelpIsPositional | src/index.ts:32-37 | `-h` is a positional argument, not an option |
| CliArgs.PositionalAfterScalarThrows | src/index.ts:35-40 | once `_` holds `true` or a non-empty string, the next positional token throws a TypeError |
| CliArgs.UnderscoreOptionBreaksPositionals | src/index.ts:32-40 | `--_=v` with a non-empty `v`, followed by a positional argument, throws a TypeError |
| CliArgs.BareUnderscoreOptionBreaksPositionals | src/index.ts:32-40 | a bare `--_` followed by a positional argument throws a TypeError |
| CliArgs.EmptyUnderscoreOptionIsReplaced | src/index.ts:32-37 | `--_=` sets `_` to the falsy empty string, so a following positional argument replaces it with a one-element list |

## Left out

- `XLSX.read` and `XLSX.utils.sheet_to_json` belong to the xlsx library and are not part of this model. The rows are taken as their output. Each row has its property names in `Object.keys` order (line 82), which puts integer-like names first, and its cells as strings, with missing cells already `""`. Duplicate-header renaming happens inside that library and is not modelled.
- The `String(...)` coercions at lines 97 and 102 are taken as the identity, because cells are strings here. The text of numbers, dates and booleans is not modelled.
- Strings are sequences of Dafny `char`, which are Unicode scalar values, not JavaScript's UTF-16 code units, so a lone surrogate cannot be represented. `trim`, splitting on `.` and replacing `\r` and `\n` act the same on well-formed text.
- `readWorkbook`, `ensureDir`, `writeLocaleFiles` and `JSON.stringify` do file-system I/O and serialisation. They are not modelled, and neither is the key order of the written JSON, which the maps here do not keep.
- `detectSheet` only looks up a library-owned workbook object, so it is not modelled.
- `printHelp`, `main`, `process.exit` and the console output are process control, so they are not modelled.
- SetPathCommuteBelow: proves only the inductive step, so it assumes the two writes already commute inside the shared child; the full law for diverging writes is stated by SetPathCommute.
- LocaleTree.SetNestedValue: the in-place walk of a cursor through a shared object is modelled as a pure function returning the new tree. Aliasing cannot arise, because every language starts from its own fresh object.
- Property names that reach the prototype, such as a `__proto__` segment or key, are modelled as ordinary keys.
- Cell values `null` and `undefined` are taken as already read as `""`, which `defval: ""` guarantees.
