# k6 log viewer: parse, normalise and filter

This project models the core of a single-page k6 log viewer. The page
(`src/app/page.js`) reads a JSON-Lines log file written by the k6 load-testing
tool and turns every line into a record `{time, level, message, VU, ITER}`.
It then shows the records that pass four filter inputs: level, message,
VU (virtual user) and ITER (iteration).

The model has three parts:

- **Parser** (`parser.dfy`) models the `reader.onload` pipeline. It splits the
  text on `'\n'`, drops lines that `trim()` empties, decodes each line and
  normalises it. A line is dropped when anything inside the outer `try`
  throws. The outer decode, the inner decode of `msg` and the date step are
  not modelled in detail. They are the three arrows of a `Codec` value
  (`records.dfy`), so every result holds for any implementation of them that
  sees what the model keeps of a field: for a number or a boolean, its JSON
  literal.
- **Filtering** (`filtering.dfy`) models `handleFilter` as a specification
  function, `Filter`, over the records. Its four conditions are:
  - the level/message step runs when either of those two inputs is
    non-empty, and then it tests both;
  - the VU step runs when its input is non-empty;
  - the ITER step runs when its input is non-empty;
  - every step keeps the order of the records.
- **Viewer** (`viewer.dfy`) models the component state as a class,
  `LogViewer`. Its fields are `logs`, the four filter strings and
  `filteredLogs`. Every handler ends by running `HandleFilter` again. That
  method narrows a local `data` step by step, as the source does, and is
  proved to give `Filter(logs, filters)`.

The supporting modules are:

- `text.dfy`: the JavaScript string operations the page uses: `trim`,
  `includes`, `replace` with a string pattern, `toUpperCase` and `split`.
- `numbers.dfy`: the number a `type="number"` input's text stands for.
- `seqs.dfy`: `Array.prototype.filter` and the subsequence relation.

Some behaviour of the code is easy to misread:

- The level filter is a substring test (`includes`). It is not a choice among
  fixed level names.
- `replace('WARNING', 'WARN')` replaces only the first occurrence. So
  `warning warning` becomes `WARN WARNING`, and `warninging` becomes
  `WARNING`.
- `.replace('.000Z', '')` removes the milliseconds only when they are `000`.
  Otherwise `.sssZ` stays in the time.
- A missing or invalid `time` drops the whole line, because `toISOString`
  throws inside the outer `try`. No fallback value is used.
- Selecting no file (`src/app/page.js:16-19`) clears only the `file` flag. The
  records and the filters stay as they were.

## Model

| member | source | states |
|---|---|---|
| `Text.TrimEmpty` | src/app/page.js:25 | `line.trim() === ''` holds exactly when every character of the line is ECMAScript white space or a line terminator |
| `Text.TrimStart` | src/app/page.js:25 | the result is a suffix of the text, everything removed is white space, and the result does not start with white space |
| `Text.TrimEnd` | src/app/page.js:25 | the result is a prefix of the text, everything removed is white space, and the result does not end with white space |
| `Text.Trim` | src/app/page.js:25 | `trim()`: specified by `TrimStart`/`TrimEnd` (only white space is removed, and the kept ends are not white space) and by `TrimEmpty` |
| `Text.SplitThenJoin` | src/app/page.js:25 | `split('\n')` loses nothing: joining the pieces with `'\n'` gives the text back |
| `Text.JoinThenSplit` | src/app/page.js:25 | splitting the join of pieces that contain no `'\n'` gives those pieces back, so `Split` is exactly the inverse of `Join` |
| `Text.Split` | src/app/page.js:25 | there is at least one piece, and no piece contains the separator |
| `Text.IndexOf` | src/app/page.js:73 | the result is present exactly when `includes` holds, and it is then the leftmost occurrence |
| `Text.ReplaceFirst` | src/app/page.js:34-35 | `replace` with a string pattern leaves text without the pattern unchanged, and otherwise replaces exactly the leftmost occurrence |
| `Text.ToUpper` | src/app/page.js:44 | upper-casing keeps the length and maps each character on its own |
| `Text.ToUpperIdempotent` | src/app/page.js:44 | no lower-case letter remains after upper-casing, so doing it twice changes nothing |
| `Parser.FormatIsoTime` | src/app/page.js:32-35 | for a `YYYY-MM-DDTHH:mm:ss.sssZ` timestamp the date and the clock are joined by a space; the milliseconds and `Z` vanish when they are `.000Z` and stay otherwise |
| `Parser.FormatTime` | src/app/page.js:34-35 | `.replace('T', ' ').replace('.000Z', '')`: specified by `FormatIsoTime` |
| `Parser.CanonicalLevel` | src/app/page.js:44 | the canonical level is empty only for the empty level; it is the upper-cased level with only its leftmost `WARNING`, if any, turned into `WARN` |
| `Parser.OnlyFirstWarningReplaced` | src/app/page.js:44 | when the upper-cased level starts with `WARNING`, that one becomes `WARN` and the rest stays as it is, even a second `WARNING` (`warning warning` becomes `WARN WARNING`) |
| `Parser.WarningBecomesWarn` | src/app/page.js:44 | `warning`, `Warning` and `WARNING` all become `WARN` |
| `Parser.CanonicalLevelKeepsWarning` | src/app/page.js:44 | `warninging` becomes `WARNING`, so a canonical level can still contain `WARNING` |
| `Parser.CanonicalLevelNotIdempotent` | src/app/page.js:44 | canonicalising twice can differ from canonicalising once |
| `Parser.TimeStep` | src/app/page.js:32-35 | the time step fails exactly when `time` is missing or `isoOf` finds no valid date; its value is specified by `LineDropRule` |
| `Parser.LevelStep` | src/app/page.js:44 | the level step fails exactly for a number or boolean level, and gives `""` exactly for a missing, `null` or empty level |
| `Parser.PayloadStep` | src/app/page.js:36-41 | the inner `try` and its fallback: specified by `MessageOfLine` |
| `Parser.NormaliseLine` | src/app/page.js:27-53 | the `lines.map` callback: specified by `LineDropRule` and `MessageOfLine` |
| `Parser.LineDropRule` | src/app/page.js:27-53 | a line is dropped exactly when it does not decode to an object, its `time` is missing or invalid, or its `level` is a number or boolean; a kept record's time is the formatted ISO string and its level is the canonical level, or `""` for a missing or null level |
| `Parser.MessageOfLine` | src/app/page.js:36-47 | when the `msg` text is not JSON, the message is that raw text and VU and ITER are absent; when it is JSON, all three come from the decoded payload; a `msg` that is not a string gives no message, VU or ITER |
| `Parser.ContentLines` | src/app/page.js:25 | the kept lines are exactly the split lines that are not blank, in file order and with repeated lines kept each time; each is free of `'\n'` |
| `Parser.ParseLines` | src/app/page.js:26-54 | there are no more records than lines |
| `Parser.ParseLinesFromLines` | src/app/page.js:26-54 | every record is the normalisation of one of the lines |
| `Parser.Parse` | src/app/page.js:24-54 | a file gives no more records than it has non-blank lines |
| `Parser.RecordFromContentLine` | src/app/page.js:25-54 | every record of a file comes from a non-blank line of that file, so a blank line never yields a record |
| `Parser.ParseLinesAppend` | src/app/page.js:26-54 | lines are handled one by one and in file order: the records of `a + b` are those of `a` followed by those of `b` |
| `Parser.DroppedLine` | src/app/page.js:49-52 | a line that throws is dropped, and the lines after it are still parsed |
| `Parser.ParseLinesKeepsAll` | src/app/page.js:26-54 | the number of records equals the number of lines exactly when every line normalises |
| `Seqs.Select` | src/app/page.js:71-81 | `filter` keeps exactly the elements that pass the test, as a subsequence of its input, and never makes it longer |
| `Seqs.SelectAppend` | src/app/page.js:71-81 | `filter` is stable: it distributes over concatenation |
| `Seqs.SelectNone` | src/app/page.js:71-81 | when no element passes the test, `filter` gives the empty array |
| `Seqs.SelectThen` | src/app/page.js:69-82 | filtering by one test and then by another is filtering once by both |
| `Seqs.SelectIdempotent` | src/app/page.js:71-81 | filtering twice by the same test is filtering once |
| `Numbers.IntegerValue` | src/app/page.js:77-82 | the number a filter text stands for in `==`: specified by `DigitsRead`, `FractionRead` and `NegativeFractionRead`, which cover every numeral of the shape `-?digits(.digits)?` |
| `Numbers.DigitsRead` | src/app/page.js:77-82 | any non-empty string of digits, leading zeros included (`"007"`), stands for the integer its digits spell, with or without a leading `-` |
| `Numbers.FractionRead` | src/app/page.js:77-82 | a numeral with a fraction stands for the integer of its whole part when the fraction is all zeros (`"2.00"`, `".0"`), and for no integer otherwise (`"1.5"`) |
| `Numbers.NegativeFractionRead` | src/app/page.js:77-82 | the same with a leading `-` (`"-2.0"` stands for -2, `"-1.5"` for no integer) |
| `Numbers.ShowIntValue` | src/app/page.js:78 | reading back the decimal numeral of any integer (`"0"`, `"-3"`, `"12"`) gives that integer, so `VU == "12"` holds for VU 12 |
| `Numbers.ZeroFractionValue` | src/app/page.js:78 | a numeral with a fractional part of zeros (`"2.0"`) stands for the same integer |
| `Filtering.MatchesText` | src/app/page.js:73 | both `includes` tests, and the record must have a message: specified by `Filter` and `LevelFilterHidesRecordsWithoutMessage` |
| `Filtering.MatchesNumber` | src/app/page.js:77-82 | `item?.VU == vuFilter` and the same for ITER: specified by `VuFilterExact`, `IterFilterExact`, `VuFilterDigits`, `FractionalVuFilterShowsNothing` and `ZeroVuFilterIsActive` |
| `Filtering.Keeps` | src/app/page.js:69-82 | a record passes every active step: specified by `Filter` |
| `Filtering.Filter` | src/app/page.js:68-84 | the shown records are an order-preserving subsequence of the records holding exactly those that pass every active step; with the level/message step active each has a message and contains both texts; with a VU or ITER input each has that number |
| `Filtering.FilterNoFilters` | src/app/page.js:69-82 | with all four inputs empty every record is shown, in order |
| `Filtering.FilterIdempotent` | src/app/page.js:68-84 | filtering the shown records again with the same inputs changes nothing |
| `Filtering.FilterAppend` | src/app/page.js:68-84 | the filter decides record by record, so it distributes over concatenation |
| `Filtering.VuFilterExact` | src/app/page.js:77-79 | a VU input holding the numeral of `n` keeps, among the records the other inputs let through, exactly those whose VU is `n`; an absent VU never matches |
| `Filtering.IterFilterExact` | src/app/page.js:80-82 | the same for the ITER input |
| `Filtering.VuFilterDigits` | src/app/page.js:77-79 | a VU input of plain digits, leading zeros included (`"007"`), keeps exactly the records whose VU is the number the digits spell and that pass the other steps |
| `Filtering.FractionalVuFilterShowsNothing` | src/app/page.js:77-79 | a VU input whose fraction has a non-zero digit (`"1.5"`) shows no record at all |
| `Filtering.ZeroVuFilterIsActive` | src/app/page.js:77-79 | the input `"0"` is non-empty and so active: exactly the records with VU 0 are shown |
| `Filtering.LevelFilterHidesRecordsWithoutMessage` | src/app/page.js:70-74 | choosing a level alone still runs the message test, so a record that has the level but no message is hidden |
| `Filtering.LevelFilterExample` | src/app/page.js:70-74 | records with levels `ERROR` and `WARN` under level input `WARN` show only the `WARN` record, given that it has a message (without one it is hidden too) |
| `Viewer.LogViewer.constructor` | src/app/page.js:7-12 | the component starts with no records, empty inputs and nothing shown |
| `Viewer.LogViewer.HandleFilter` | src/app/page.js:68-84 | narrowing `data` step by step and storing it makes the shown records equal `Filter(logs, filters)` |
| `Viewer.LogViewer.ReplaceLogs` | src/app/page.js:56-60 | the new records replace the old, the four inputs become empty, and every record is shown |
| `Viewer.LogViewer.LoadFile` | src/app/page.js:23-61 | after loading, the records are the parse of the text, the inputs are empty and every record is shown |
| `Viewer.LogViewer.Clear` | src/app/page.js:151-156 | the records stay, the four inputs become empty and every record is shown |
| `Viewer.LogViewer.SetLevelFilter` | src/app/page.js:103 | only the level input changes, and the shown records are recomputed |
| `Viewer.LogViewer.SetMessageFilter` | src/app/page.js:119 | only the message input changes, and the shown records are recomputed |
| `Viewer.LogViewer.SetVuFilter` | src/app/page.js:129 | only the VU input changes, and the shown records are recomputed |
| `Viewer.LogViewer.SetIterFilter` | src/app/page.js:141 | only the ITER input changes, and the shown records are recomputed |

## Left out

- Rendering: the JSX, CSS classes, the `display` toggling and the "Showing N of M" banner (`src/app/page.js:88-200`) are user interface.
- `FileReader`, its asynchronous `onload` and the `file` flag (`src/app/page.js:14-22`, `63-65`) are I/O. `LoadFile` starts from the text that was read. Reads that overlap are not modelled.
- `console.warn` for a dropped line (`src/app/page.js:50`) is a side effect only.
- `JSON.parse`, `new Date(...)` and `toISOString` are library calls. They are the arrows of `Records.Codec`, and the facts used about them without going through the arrows are: `new Date(undefined)` is an invalid date (`Parser.TimeStep`); `JSON.parse(undefined)` fails, so the fallback copies the missing `msg`; and `JSON.parse` of `null`, a number or a boolean yields a value with no `msg`, `VU` or `ITER` (`Parser.PayloadStep`).
- Object- or array-valued fields of a log line are not modelled. `Records.Field` covers missing, `null`, string and scalar (finite number or boolean) values; a scalar is kept as its JSON literal, not as the double `JSON.parse` makes of it, so `new Date(n)` is whatever the `isoOf` arrow gives for that literal. For example, a `msg` object would make the message a non-string, and `includes` would then throw inside the filter.
- A decoded payload whose `msg` is not a string, or whose `VU` or `ITER` is not an integer, is not modelled. `Records.PayloadDecode` carries `Option<string>` and `Option<int>`.
- Text.ToUpper: only ASCII letters are upper-cased. The source's `toUpperCase` maps all of Unicode, and some of its mappings change the length of the text.
- Numbers.IntegerValue: it reads `-`, digits and an optional fractional part. Exponent forms such as `1e1` are read as standing for no integer, so they match nothing, although JavaScript's `==` would compare them as numbers.
- Numbers.IntegerValue: the numeral is read exactly, without the rounding to a double that `Number()` does inside `==`. So `"1.0000000000000001"` matches no VU here but matches VU 1 in the page, and `"9007199254740993"` matches VU 9007199254740992 in the page but not here. Numerals that need more than 53 bits of precision therefore compare differently.
- Filtering.MatchesNumber: two rows of JavaScript's `==` occur and are modelled: `undefined == text` is false (the `field.Some?` conjunct; every record whose message was plain text has no VU or ITER), and `number == text` compares the text as a number. The other rows of its coercion table cannot occur under the restrictions above.
