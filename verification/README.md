# project_ook core, modelled in Dafny

project_ook keeps a personal reading catalogue imported from a Goodreads CSV export
and answers JSON filter queries over it. This project models the three pieces of
deterministic logic at its centre and proves what they promise:

- **Query validation and execution** (`QueryLibrary`, src/query_table.py). It is
  modelled imperatively as the class `QueryTable.QueryLibrary`. The class holds the
  parsed filter object (`inputJson`, rewritten in place as dates are parsed), the
  order of its keys, the set of checked columns and the table as a sequence of
  records. Each method is proved against a pure specification function:
  - `CheckCol` against `ColumnCheck`;
  - `CheckVal` against `CheckValues`;
  - `SelectFromDatabase` against `Execute`, with the record predicates `Holds` and
    `Admits`;
  - `SelectQueryDb` against `Select`.

  Lemmas then state what those functions mean: which error wins, what each filter
  shape asks of a record, which titles the result holds, and the docstring's `tags`
  example.
- **Import converters** (`MainLibrary`, src/models.py), modelled as pure functions
  in `Models`:
  - the column registry and `as_dict`;
  - `check_int`, `check_float`, `convert_date`, `convert_to_list`,
    `convert_boolean`, `convert_isbn`;
  - the row-to-record mapping `FromRow`;
  - the fingerprint `ShaGen`, over an abstract hash function.

  Python's `int()`, `float()` (module `Numbers`) and `strptime` with
  `"%Y/%m/%d"` (module `Calendar`) are modelled once and shared.
- **Title cleaner** (`title_cleaner`, src/output_formatter.py), in
  `OutputFormatter`. It models `re.sub(r"\(.*\)", "", title).strip()`: a greedy
  match that does not cross a line break, then the Unicode whitespace strip
  (`PyStr.Strip`). `str.strip()` and the blank-skipping of `int()` and `float()`
  differ on the separators U+001C to U+001F: `strip()` removes them, the number
  parsers refuse them. Both are `PyStr.Trim`, with the kind of blank as a parameter.

Three places where the code's behaviour may surprise a reader; the model follows the
code:
- A malformed "Date Read" cell aborts the import just as a malformed "Date Added"
  does. `convert_date` raises for any non-empty text `strptime` refuses, and nothing
  catches it (`Models.FromRow`, `Models.ConvertDate`).
- A date range with lower after higher is reported as the date-format error, not
  as a separate range-order error. The outer handler replaces the message
  (`QueryTable.CheckValue`, `QueryTable.DateRangeReversed`).
- Validation is not idempotent. Validating an already validated filter fails,
  because its dates are no longer text. No idempotence is claimed.

## Model

| member | source | states |
|---|---|---|
| QueryTable.FirstUnknown | src/query_table.py:34-42 | the position found is the first key naming no column: every earlier key names one |
| QueryTable.ColumnCheck | src/query_table.py:34-42 | succeeds iff every key names a column, with the set of the keys; otherwise the error names a key that is not a column and after which no earlier key failed |
| QueryTable.QueryLibrary.CheckCol | src/query_table.py:33-42 | the loop growing the set returns exactly `ColumnCheck` of the keys in order |
| QueryTable.QueryLibrary.Create | src/query_table.py:28-31 | construction fails, with `ColumnCheck`'s error, exactly when a key names no column; otherwise the object holds the filter, its key order and the table |
| QueryTable.UnknownColumnFirst | src/query_table.py:28-42 | an unknown key is reported (the first one) before any value is examined, whatever the values are |
| QueryTable.QueryLibrary.TypeBuilder | src/query_table.py:44-56 | maps exactly the given columns, each to its element type |
| Models.ElementType | src/query_table.py:50-54 | array columns are checked against `str`; every other column against its own scalar type (iff per type) |
| QueryTable.CheckedDates | src/query_table.py:58-68 | a date text yields exactly the date it parses to, and fails iff it does not parse; a range succeeds iff both bounds parse and lower is not after higher, and then keeps its other entries and gets both bounds replaced by their parsed dates; any other value fails |
| QueryTable.QueryLibrary.CheckDates | src/query_table.py:58-68 | succeeds iff `CheckedDates` does, and then rewrites only this key's entry with its result; on failure the filter is unchanged |
| QueryTable.Coerce | src/query_table.py:85-86 | a successful coercion gives an instance of the column type; `bool()` always coerces, to the value's truthiness; a missing bound (`None`) is refused by `int()` and `float()`; a value already of the type is kept; `int()` of text is its `ParseInt` value (refused when that fails) and of a float its truncation toward zero; `float()` of text is its `ParseFloat` value and of an int the same number; `str()` of an int is its decimal text; a list, object or date coerces only to bool |
| QueryTable.CheckValue | src/query_table.py:73-101 | a date column fails only with the date-format error and stores `CheckedDates`; other columns never change the value, fail only with the data-type error, and pass a range iff both bounds coerce in order, a list iff every chained item has the type, a scalar iff it already has the type |
| QueryTable.CheckValuesOutcome | src/query_table.py:70-101 | checking keys in order either gives each key what its own check gave (non-date keys unchanged, keys kept) or fails with the error of a failing key after all earlier keys passed |
| QueryTable.CheckValuesSuccess | src/query_table.py:70-101 | a successful check gives every key what its own check gave and leaves the key set and every other key as they were |
| QueryTable.CheckValuesFailure | src/query_table.py:70-101 | a failed check reports the error of a key whose check fails after every earlier key passed |
| QueryTable.QueryLibrary.CheckKey | src/query_table.py:74-101 | one loop pass: fails with `CheckValue`'s error and leaves the filter as it was, or updates just this key with `CheckValue`'s result; keys unchanged |
| QueryTable.QueryLibrary.CheckVal | src/query_table.py:70-101 | the in-place loop ends in the state `CheckValues` computes, or returns the error it gives; after a failure the keys before the failing one are checked (dates rewritten) and the failing key still holds its own value (`StoppedAt`) |
| QueryTable.CheckValStep | src/query_table.py:73-101 | one pass of the loop: a failing key's error is the result of checking the remaining keys, and a passing key leaves exactly the rest to check from the updated object |
| QueryTable.CheckValPrefix | src/query_table.py:73-101 | one pass of the loop in terms of the keys done so far: a failure stops in the state the earlier keys left, a success checks one more key |
| QueryTable.CheckValuesSnoc | src/query_table.py:73-101 | checking one more key after a successful prefix runs that key's check on the object the prefix left |
| QueryTable.CheckValues | src/query_table.py:70-101 | a successful check keeps the object's key set and leaves keys outside the list untouched |
| QueryTable.Validate | src/query_table.py:28-42 | an unknown key's error is reported whatever the values; a validated object has the same keys, all of them columns |
| QueryTable.DateRangeReversed | src/query_table.py:58-80 | a date range whose bounds parse out of order is a date-format error |
| QueryTable.RangeReversed | src/query_table.py:84-101 | a non-date range whose coerced bounds are out of order is a data-type error carrying the raw range |
| QueryTable.TagFilterShapes | src/query_table.py:89-94 | `[["discworld"],["fiction"]]` and `["discworld","fiction"]` pass unchanged on `tags`; `[1,2]` is a data-type error |
| QueryTable.ScalarTypeExamples | src/query_table.py:95-98 | a JSON integer is refused on a float column, a float accepted; text is refused on an integer column |
| QueryTable.NestedClauses | src/query_table.py:115-118 | one overlap clause per inner list, in order |
| QueryTable.QueryLibrary.KeyClauses | src/query_table.py:107-125 | the clauses the loop adds for one key are exactly `ClausesFor`, None where the store refuses the query |
| QueryTable.QueryLibrary.NestedKeyClauses | src/query_table.py:115-118 | the loop over a list of lists gives one overlap per inner list, or None when an element is not a list of text |
| QueryTable.QueryGrows | src/query_table.py:107-125 | appending one key's clauses keeps the query equivalent to the AND of the keys handled so far |
| QueryTable.QueryLibrary.SelectFromDatabase | src/query_table.py:103-130 | the query built key by key and the record loop return exactly `Execute`: every runnable filter gives the matches keyed by title |
| QueryTable.ClausesFor | src/query_table.py:107-125 | the clauses of one key are non-empty and all on that key's column; an array column gets only overlap clauses, any other column exactly one clause that is not an overlap |
| QueryTable.Holds | src/query_table.py:107-125 | a clause holds only of a record whose filtered column is a declared column and not NULL |
| QueryTable.Execute | src/query_table.py:103-132 | succeeds iff the store can run every key's clauses, and otherwise fails with the execution error; never more entries than records |
| QueryTable.NullNeverMatches | src/query_table.py:107-125 | a record whose filtered column is NULL never passes that key |
| QueryTable.PartialSearchMeaning | src/query_table.py:121-125 | on title, author, my_review, private_notes a text filter holds iff the lowered needle occurs in the lowered column text |
| QueryTable.ExactMatchMeaning | src/query_table.py:122-123 | any other scalar filter holds iff the column equals it |
| QueryTable.FlatListMeaning | src/query_table.py:119-120 | a flat list of text holds iff the record's list shares an element with it |
| QueryTable.NestedListMeaning | src/query_table.py:115-118 | a list of lists holds iff the record's list shares an element with every inner list |
| QueryTable.FloatRangeInclusive | src/query_table.py:85-87 | a range on a float column holds iff lower <= value <= higher, where the bounds are whatever `float()` made of them (floats, integers, booleans or numeric text) |
| QueryTable.IntRangeInclusive | src/query_table.py:85-87 | a range on an integer column holds iff lower <= value <= higher, with the bounds as `int()` coerced them (integers, booleans, truncated floats, integer text) |
| QueryTable.TextRangeInclusive | src/query_table.py:85-87 | a range on a text column holds iff lower <= value <= higher in code-point order, with the bounds as `str()` coerced them (text, integers, booleans) |
| QueryTable.FloatBoundsAccepted | src/query_table.py:84-88 | bounds that `float()` turns into numbers in order make a float range pass validation |
| QueryTable.FloatTextRangeValidates | src/query_table.py:84-88 | a float range whose bounds are numeric texts read in order passes validation unchanged |
| QueryTable.FloatTextRangeFilters | src/query_table.py:111-113 | such a range keeps a record iff its value lies between the numbers the texts spell, both included |
| QueryTable.RatingRangeExample | src/query_table.py:84-113 | `{"lower": "4.0", "higher": "6.0"}` on my_rating (any texts read as 4 and 6) passes validation unchanged and keeps exactly the records rated from 4 to 6 |
| QueryTable.DateRangeInclusive | src/query_table.py:111-113 | a parsed date range holds iff the date lies between the bounds, both included |
| QueryTable.OpenRangeMatchesNothing | src/query_table.py:111-113 | a range missing a bound matches no record |
| QueryTable.CollectKeys | src/query_table.py:127-129 | a title is in the result iff some record with that title passes the filter |
| QueryTable.CollectLatest | src/query_table.py:127-129 | the entry under a title is the last matching record with that title |
| QueryTable.Collect | src/query_table.py:127-129 | the result never has more entries than records, and every record that passes has its title among the keys |
| QueryTable.CollectStep | src/query_table.py:127-129 | one more record run through a query equivalent to the filter adds its row under its title exactly when it passes |
| QueryTable.SelectOutcome | src/query_table.py:134-136 | a filter failing validation never reaches the table; a successful query holds exactly the titles of records the validated filter admits |
| QueryTable.Select | src/query_table.py:134-136 | a validation failure is the result; success means the filter validated and its clauses can run; never more entries than records |
| QueryTable.QueryLibrary.SelectQueryDb | src/query_table.py:134-136 | validation in place, then execution, gives exactly `Select`; after a successful validation the filter holds the validated object (dates parsed), and after a validation failure the state `StoppedAt` describes |
| QueryTable.TagFiltersValidate | src/query_table.py:11-24 | both docstring tag filters validate unchanged and can be run |
| QueryTable.NestedTagsAdmit | src/query_table.py:11-24 | the nested tag filter admits the record tagged discworld and fiction |
| QueryTable.NestedTagsReject | src/query_table.py:11-24 | the nested tag filter refuses the record tagged only fiction |
| QueryTable.FlatTagsAdmit | src/query_table.py:11-24 | the flat tag filter admits both records |
| QueryTable.TagsExample | src/query_table.py:11-24 | over Feet of Clay [discworld, fiction] and Harry Potter [fiction] the nested filter returns only Feet of Clay and the flat one returns both |
| Models.AsDict | src/models.py:84-85 | keys are exactly the declared columns, each holding that field's value, of the column's type |
| Models.FieldsConform | src/models.py:28-53 | every field of a record is NULL or of its column's declared type |
| Models.CheckInt | src/models.py:87-93 | the result is None or the cell itself, unconverted; it is kept exactly when it is non-empty text `int()` reads as non-zero |
| Models.IntColumn | src/models.py:87-93 | an integer column stores a number exactly when `check_int` kept the cell, and that number is what `int()` reads from the cell, never 0 |
| Models.CheckIntKeepsNonZero | src/models.py:87-93 | every non-zero numeral is kept as written, and stored as its value |
| Models.CheckIntUnset | src/models.py:87-93 | a missing cell, "", "0", "abc" and "4.5" give None |
| Models.CheckFloat | src/models.py:95-101 | the result is None or the cell itself; it is kept exactly when it is non-empty text `float()` reads as non-zero |
| Models.FloatColumn | src/models.py:95-101 | a float column stores a number exactly when `check_float` kept the cell, and that number is what `float()` reads from the cell, never 0 |
| Models.CheckFloatKeepsNonZero | src/models.py:95-101 | every non-zero integer numeral is kept as written, and the column stores its value |
| Models.CheckFloatKeepsDecimal | src/models.py:95-101 | a non-zero numeral with one decimal place, such as "4.5", is kept as written and stored as w + f/10 |
| Models.CheckFloatUnset | src/models.py:95-101 | a missing cell, "" and "abc" give None |
| Models.ConvertDate | src/models.py:103-106 | None iff the cell is missing or empty; an error iff non-empty text does not parse; otherwise the valid date `strptime` reads from the cell |
| Models.ConvertDateRoundTrip | src/models.py:103-106 | every valid date written `YYYY/MM/DD` converts back to itself |
| Models.ConvertToList | src/models.py:108-111 | None iff the cell is missing or empty; the pieces join back with "," into the cell, number one more than its commas, and hold no comma |
| Models.ConvertToListKeepsSpaces | src/models.py:108-111 | "a, b" splits into "a" and " b": nothing is trimmed |
| Models.ConvertBoolean | src/models.py:113-118 | True iff the cell is exactly "true" |
| Models.ConvertBooleanExamples | src/models.py:113-118 | only "true" is True; "True", "" and a missing cell are False |
| Models.ConvertIsbn | src/models.py:120-125 | succeeds iff the cell exists, returning it unchanged; a missing cell is the ISBN error |
| Models.ConvertIsbnKeepsEquals | src/models.py:120-125 | the cell comes back unchanged, "=" included |
| Models.FromRow | src/models.py:55-82 | import fails iff an ISBN cell is missing or a date cell is malformed; a record it builds has no id, only non-zero numbers, valid dates, non-empty tag lists, and the sha of the raw book id and date-added text |
| Models.FromRowFields | src/models.py:55-82 | each attribute holds the cell under its CSV header through that column's converter, and the sha of the raw book id and date-added cells |
| Models.ShaText | src/models.py:20-22 | the hashed text is the book id followed by the date added, with "None" at the front or the end for a missing cell |
| Models.ShaDeterministic | src/models.py:20-22 | two rows with the same raw book id and date-added cells get the same sha |
| Models.ShaTextInjective | src/models.py:20-22 | for numeric book ids and accepted date cells the hashed text determines both cells |
| Calendar.ParseDate | src/models.py:106 | an accepted text is 8 to 10 characters with four year digits and a slash, and denotes an existing date |
| Calendar.DaysInMonth | src/models.py:106 | months have 28 to 31 days; 29 exactly for February of a leap year |
| Calendar.MonthField | src/models.py:106 | an accepted month field is 1 to 12 |
| Calendar.DayField | src/models.py:106 | an accepted day field is 1 to 31 |
| Calendar.ParseFormatDate | src/models.py:106 | every valid date written zero-padded parses back to itself |
| Calendar.YearText | src/models.py:106 | a year's `%Y` text is four digits whose value is the year |
| Calendar.MonthRenderings | src/models.py:106 | `%m` reads month m from exactly its zero-padded two digits or, below October, its single digit |
| Calendar.DayRenderings | src/models.py:106 | `%d` reads day d from exactly its zero-padded two digits or, for the first nine days, its digit with or without a leading space |
| Calendar.ParseRendering | src/models.py:106 | every rendering of a valid date built from those month and day texts parses to that date |
| Calendar.ParsedIsRendering | src/models.py:106 | every text strptime accepts is such a rendering of the date it yields |
| Calendar.ParseShortForms | src/models.py:106 | one-digit month and day and a space-padded day are read; 2024/02/29 exists |
| Calendar.ParseRejects | src/models.py:106 | dashes, 2023/02/29, year 0, a three-digit day and trailing text are refused |
| Calendar.NotAfterTotalOrder | src/query_table.py:62 | date comparison is a total order |
| Numbers.ParseInt | src/models.py:90 | text `int()` accepts holds only digits, signs and underscores once stripped of the blanks `int()` skips |
| Numbers.ParseIntOfText | src/models.py:90 | `int(str(i)) == i` for every integer |
| Numbers.ParseFloatNeedsDigit | src/models.py:98 | text `float()` accepts has a digit |
| Numbers.ParseFloat | src/models.py:98 | a negative value comes only from text whose first non-blank character is a minus sign |
| Numbers.ParseFloatOnePlace | src/models.py:98 | `float("w.f")` is w + f/10 for every whole part w and digit f |
| Numbers.RatingTexts | src/query_table.py:85-86 | "4.0" reads as 4 and "6.0" as 6 |
| Numbers.ParseFloatOfText | src/models.py:98 | `float(str(i)) == i` for every integer |
| PyStr.Trim | src/output_formatter.py:59 | the result is no longer and has no blank of the given kind at either end |
| PyStr.TrimIsMaximalSlice | src/output_formatter.py:59 | the result is the slice between two edges outside which everything is blank |
| PyStr.TrimIdempotent | src/output_formatter.py:59 | trimming twice is trimming once |
| PyStr.Strip | src/output_formatter.py:59 | the stripped text has no Unicode whitespace at either end |
| PyStr.Lower | src/query_table.py:125 | same length; ASCII capitals lowered, every other character kept |
| PyStr.CodeLessTrichotomy | src/query_table.py:87 | string order is irreflexive and total |
| PyStr.Split | src/models.py:111 | one more piece than separators, no piece holds the separator |
| PyStr.JoinSplit | src/models.py:111 | joining the pieces with the separator gives the text back |
| OutputFormatter.GroupEnd | src/output_formatter.py:58 | a match starting at `(` ends at a `)` with no line break before it, and when there is none no `)` precedes the line's end |
| OutputFormatter.Sub | src/output_formatter.py:58 | the substitution never lengthens the text |
| OutputFormatter.TitleCleaner | src/output_formatter.py:57-60 | the result is no longer than the title and has no whitespace at either end |
| OutputFormatter.SubIdentity | src/output_formatter.py:58 | text with no `(` before a `)` is left unchanged by the substitution |
| OutputFormatter.NoOpenUnchanged | src/output_formatter.py:57-60 | a title with no `(` is only stripped |
| OutputFormatter.SubCopiesPrefix | src/output_formatter.py:58 | a prefix with no `(` is copied through |
| OutputFormatter.SingleLineRemoval | src/output_formatter.py:58 | on one line, everything from the first `(` through the last `)` after it is removed |
| OutputFormatter.SingleLineNoGroup | src/output_formatter.py:58 | on one line, the result has no `(` before a `)` |
| OutputFormatter.TitleCleanerIdempotent | src/output_formatter.py:57-60 | on one-line titles, cleaning twice is cleaning once |
| OutputFormatter.SeriesNoteRemoved | src/output_formatter.py:57-60 | `name (note)` on one line cleans to the stripped name |
| OutputFormatter.FeetOfClayTitle | src/output_formatter.py:57-60 | "Feet of Clay (Discworld, #19)" becomes "Feet of Clay" |

## Left out

- The database. The SQLAlchemy session, engine and query objects are replaced by a
  sequence of records, and the order rows come back in is taken to be that
  sequence's order. SQL gives no order without ORDER BY, so "the last match wins"
  is relative to that order.
- SQL `LIKE` wildcards. `%` and `_` in a partial-search text act as wildcards in
  the original; `QueryTable.Holds` uses a plain substring test. SQL `lower()` is
  modelled for ASCII letters only.
- How the database compares range bounds of another type. `QueryTable.Holds`
  compares a bound as validation coerced it. Postgres casts it itself: a float bound
  on an integer column is compared exactly, and a number bound on a text column is
  refused.
- QueryTable.ClausesFor: three filter shapes on an array column are taken to be
  queries the store refuses (`Failure(QueryExecution)`): a text scalar such as
  `{"tags": "fiction"}`, a range such as `{"tags": {"lower": "a", "higher": "b"}}`,
  and a nested list holding a plain string. All three pass validation. In the
  original the text is bound through the array column type, which may turn it into
  the list of its characters (`"b"` into `['b']`, `"{b}"` into `['{', 'b', '}']`);
  the query then compares arrays and would normally return no records rather than
  fail. That binding is library behaviour the model does not include.
- JSON. `json.loads` of the filter and `json.dumps` of the result are not modelled;
  the model takes the parsed object (a map plus its key order) and returns a map.
  `json.dumps(..., sort_keys=True)` fails when a NULL title sits beside text titles;
  that failure is not modelled.
- SHA-1. It is the parameter `hash` of `Models.ShaGen`.
- Floating point. Numbers are exact reals, with no IEEE rounding.
- Models.CheckFloat: `float()` of "inf", "nan" and "infinity" is refused by the
  model, although Python accepts them, so `check_float` would keep such a cell.
- Numbers.ParseInt: non-ASCII decimal digits, which Python's `int()` accepts, are
  refused. The same holds for `Numbers.ParseFloat`.
- Calendar.ParseDate: only ASCII digits are read. CPython's `strptime` builds its
  `%Y`, `%m` and `%d` patterns from `\d`, which also matches other Unicode decimal
  digits.
- QueryTable.Holds: a range on a text column compares by code point (`CodeLess`);
  the database compares by its collation, which may order text differently.
- `.overlap` on an array column. SQLAlchemy offers it on the PostgreSQL dialect's
  array type; the columns are declared with the generic `ARRAY`
  (src/models.py:11, 46-47). The model gives `overlap` its documented meaning, an
  array that shares an element (src/query_table.py:117, 120), as the docstring's
  `tags` example expects, and does not model a failure from the generic type.
- QueryTable.CheckValue: a JSON boolean is not taken as an instance of `int`,
  although `bool` subclasses `int` in Python.
- QueryTable.Coerce: `str()` of a float, list or object bound is not modelled; such
  a bound on a text-column range is refused.
- Attribute names that are not columns. `hasattr` also accepts names such as
  `as_dict`, which then crash `_type_builder`; the registry is exactly the declared
  columns.
- `str(None)`. It lets a text-column range with a missing bound pass validation.
  `QueryTable.Coerce` models it, but no contract relies on it.
- Models.FromRow: the book id column stores the integer `int()` reads from the cell;
  in the original it stores whatever value pandas produced. Pandas typing of cells
  (numbers, NaN) is not modelled: every cell is text or missing.
- src/csv_to_table.py (CSV reading and `session.merge`) is not part of this model.
- The rest of src/output_formatter.py (`get_output`, `print_data`, the console and
  SVG output) is not part of this model.
- OutputFormatter.TitleCleanerIdempotent: stated for single-line titles only.
- Idempotence of validation is not stated: it does not hold (see above).
