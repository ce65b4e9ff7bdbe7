# zypper tabulator and query-format renderer, modelled in Dafny

This project models two small pieces of zypper.

The first is the row and key/value table model of its tabulator (`src/Table.h`):
- A `TableRow` is built cell by cell. It holds an ordered list of column cells and an ordered list of detail lines.
- A `Table` stores copies of the rows it is given, plus an optional header and a line style.
- `TableRow::Less` compares two rows on one column.
- A `PropertyTable` is a `Table` in the colon style. Each of its `add` overloads turns a key and a value into exactly one two-column row. A range of values becomes an empty value, the single value inline, or the count with the values listed as detail lines.
- `paint` recolours the last cell of the last row in place.

The second is the token renderer of the query-format test tool (`tools/queryformat/test.cc`):
- A parsed format is a list of tokens, and rendering concatenates what each token writes.
- A literal string writes its value.
- A tag writes its value padded to an optional field width: a leading `-` left-adjusts, a leading `0` pads with zeros on the left, and nothing is ever truncated.
- An array writes its sub-format for the indices 0, 1 and 2.
- A conditional writes nothing.

Files:
- `decimal.dfy` (module `Decimal`): the decimal text of a count, and the value of a digit string. The first is what the range `add` shows; the second is how a field width is read.
- `tables.dfy` (module `Tables`): `TableRow` and `Table` as classes over `seq` fields, `Row` as the stored value, `Less` with its ordering lemmas, and `PropertyTable` as a class whose methods append to its table.
- `query_format.dfy` (module `QueryFormat`): the token datatypes, the field-width rule, the rendering functions with their lemmas, and `Render`, the token loop as a method proved equal to the rendering function.

Two facts of the code shape the contracts:
- `TableRow::Less` reads `_columns[_by_column]` of both rows with no bounds check, so `Less` requires both rows to have that column.
- `paint` applies the colour again on every call, so painting twice colours twice.

A `char` in this model stands for one byte of a `std::string`. So `|val|` is `val.size()`, and `StringLess` compares the bytes as `unsigned char`, as `std::string`'s `<` does.

External things are parameters of the model:
- `zypp::str::asString` is a function parameter of type `K -> string`. The count uses the canonical decimal text `NatToDecimal`.
- The colour transformation `ColorString(s, cc).str()` is a parameter `string -> string`.
- The data getter of the renderer is a parameter `Tag -> string`. `DummyGet`, the tool's default getter, returns the tag's name.
- `Table::defaultStyle` is a constructor parameter.

`Tables.PropertyTableClient` checks that the contracts can be used: it calls `add("Repos", {"a", "b", "c"})` and then `paint`, and from the contracts alone derives the single row `Repos | 3` with the three detail lines, and then the coloured count.

## Model

| member | source | states |
|---|---|---|
| `Decimal.NatToDecimal` | src/Table.h:239 | the text of the count is non-empty, all digits, has no leading zero, and is one digit exactly for values below 10 |
| `Decimal.DecimalRoundTrip` | src/Table.h:239 | reading the decimal text of `n` back gives `n` |
| `Decimal.DecimalValue` | tools/queryformat/test.cc:112 | definition of the base-10 value of a digit string (`strtoul`); its properties are `DecimalRoundTrip` and `LeadingZeros` |
| `Decimal.LeadingZeros` | tools/queryformat/test.cc:112 | leading zeros do not change the value read from a digit string |
| `Tables.StringLessIrreflexive` | src/Table.h:77-79 | no string is below itself under `std::string`'s `<` |
| `Tables.StringLessTransitive` | src/Table.h:77-79 | string `<` is transitive |
| `Tables.StringLessTotal` | src/Table.h:77-79 | any two different strings are ordered one way or the other |
| `Tables.StringLess` | src/Table.h:78 | definition of `std::string`'s `<`; its properties are `StringLessIrreflexive`, `StringLessTransitive` and `StringLessTotal` |
| `Tables.Less` | src/Table.h:73-80 | definition of the comparator on column k, defined only where both rows have column k; its properties are `LessIrreflexive`, `LessTransitive` and `LessIncomparable` |
| `Tables.LessIrreflexive` | src/Table.h:73-80 | `Less(k)` never holds of a row and itself, given column k exists |
| `Tables.LessTransitive` | src/Table.h:73-80 | `Less(k)` is transitive on rows that have column k |
| `Tables.LessIncomparable` | src/Table.h:73-80 | two rows are incomparable under `Less(k)` iff their column k is equal, so `Less(k)` is a strict weak ordering |
| `Tables.TableRow.constructor` | src/Table.h:54-56 | a new row has no columns and no details |
| `Tables.TableRow.Add` | src/Table.h:58 | appends one column and leaves the details unchanged |
| `Tables.TableRow.AddDetail` | src/Table.h:60 | appends one detail line and leaves the columns unchanged |
| `Tables.TableRow.Cols` | src/Table.h:63 | definition: the number of columns; `Put` states that it grows by one per `<<` |
| `Tables.TableRow.Put` | src/Table.h:95-101 | `tr << val` appends exactly the text of `val` as one column, so the column count grows by one; the details are untouched |
| `Tables.Table.constructor` | src/Table.h:141 | a new table has no header, no rows, is empty, and has the default style |
| `Tables.Table.Add` | src/Table.h:174-178 | `table << tr` appends a copy of the row at the end, keeps all earlier rows and the header, and leaves the table non-empty |
| `Tables.Table.SetHeader` | src/Table.h:180-184 | installs the header and keeps the rows, so `empty()` is unchanged: emptiness counts body rows only (src/Table.h:126) |
| `Tables.Table.Empty` | src/Table.h:126 | definition: no body rows; `Table.Add` makes it false and `Table.SetHeader` leaves it unchanged, so the header does not count |
| `Tables.Table.SetLineStyle` | src/Table.h:129 | sets the style and changes nothing else |
| `Tables.RangeRow` | src/Table.h:222-248 | definition of the row the range `add` builds; its properties are `RangeRowEmpty`, `RangeRowSingle`, `RangeRowMany` and `RangeRowHasTwoColumns`, and `PropertyTable.AddRange` is proved to append it |
| `Tables.RangeRowEmpty` | src/Table.h:244-246 | an empty range gives columns exactly `[key, ""]` and no details |
| `Tables.RangeRowSingle` | src/Table.h:241-242 | a one-element range gives columns `[key, v]` and no details |
| `Tables.RangeRowMany` | src/Table.h:230-239 | with 1 < n < 2^32 values: two columns, key first, the second is a digit string whose value is n, and the details are the values in order |
| `Tables.RangeRowHasTwoColumns` | src/Table.h:225-246 | every range row has exactly two columns with the key first, and no details when there is at most one value |
| `Tables.WithLastCell` | src/Table.h:270-271 | replacing the last cell keeps the column count, every other cell and the details |
| `Tables.SortedDetailsDistinct` | src/Table.h:254-256 | a row built from a `std::set` lists each element once |
| `Tables.PropertyTable.constructor` | src/Table.h:206-207 | the table is fresh, empty, and drawn in the colon style; `Valid()` also holds: every row has exactly two columns |
| `Tables.PropertyTable.Add` | src/Table.h:212-214 | appends exactly the row `[text of key, text of value]` with no details; earlier rows and the header are kept |
| `Tables.PropertyTable.AddBool` | src/Table.h:216-218 | appends exactly `[key, "Yes"]` for true and `[key, "No"]` for false |
| `Tables.PropertyTable.AddRange` | src/Table.h:222-248 | the counting loop appends exactly one row, `RangeRow(key, values)`, at the end; the loop's counter equals the number of values modulo 2^32 |
| `Tables.PropertyTable.Lst` | src/Table.h:250-262 | `lst` and the `std::list`/`std::vector` overloads append `RangeRow` of the elements in order |
| `Tables.PropertyTable.AddSet` | src/Table.h:254-256 | the `std::set` overload appends `RangeRow` of the elements in ascending order |
| `Tables.PropertyTable.Paint` | src/Table.h:266-274 | with `cond` false nothing changes; with `cond` true only the last cell of the last row changes, to its coloured form; needs only a non-empty table, since `Valid()` gives every row two columns, and keeps `Valid()` |
| `QueryFormat.LeftAdjust` | tools/queryformat/test.cc:110 | definition: the text starts with `-`; its properties are in `RenderTag` and `LeftAdjustPadsWithSpaces` |
| `QueryFormat.WidthDigits` | tools/queryformat/test.cc:111 | the digits after the optional `-`: non-empty and all digits, as the parser guarantees |
| `QueryFormat.Width` | tools/queryformat/test.cc:112 | definition: the value of those digits; its properties are in `RenderTag` and `ZeroFlagKeepsWidth` |
| `QueryFormat.PadChar` | tools/queryformat/test.cc:114 | definition of the pad character; its properties are `PadCharIsZero`, `LeftAdjustPadsWithSpaces` and `LeftAdjustZeroIsDigit` |
| `QueryFormat.RenderTag` | tools/queryformat/test.cc:105-123 | no width: the value unchanged; with a width the length is max of the value length and the width; a value at least as long as the width is unchanged; left-adjusted: the value then spaces; otherwise the pad characters then the value |
| `QueryFormat.LeftAdjustPadsWithSpaces` | tools/queryformat/test.cc:110-122 | a left-adjusted tag writes exactly the value followed by spaces up to the width (none when the value is at least as long) |
| `QueryFormat.LeftAdjustZeroIsDigit` | tools/queryformat/test.cc:110-114 | after `-`, a `0` is only a leading digit of the width: `%-015{…}` and `%-15{…}` write the same text for every value |
| `QueryFormat.PadCharIsZero` | tools/queryformat/test.cc:110-114 | the pad character is `'0'` exactly when the field-width text itself starts with `0`: `%015` pads with zeros, `%15` and `%-015` with spaces |
| `QueryFormat.ZeroFlagKeepsWidth` | tools/queryformat/test.cc:112-114 | `0` followed by the digits d has the same width as d, and pads with zeros |
| `QueryFormat.DummyGet` | tools/queryformat/test.cc:19-24 | definition of the default data getter: the tag's name; its property is `SampleFormatOutput` |
| `QueryFormat.RenderTokens` | tools/queryformat/test.cc:79-98 | definition of a token list's output; its properties are `RenderTokensAppend`, `RenderTokensIsConcat` and `RenderTokensIgnoresIndex` |
| `QueryFormat.RenderToken` | tools/queryformat/test.cc:100-135 | definition of one token's output; its properties are `StringInPlace`, `ConditionalInvisible` and `ArrayRendersThreeCopies` |
| `QueryFormat.RenderFormat` | tools/queryformat/test.cc:79-98 | definition of a format's output; `Render` is proved to return it |
| `QueryFormat.RenderTokensAppend` | tools/queryformat/test.cc:79-98 | rendering a concatenation of token lists is the concatenation of their renderings |
| `QueryFormat.RenderTokensIsConcat` | tools/queryformat/test.cc:81-97 | a format's output is its first token's output, then the output of the rest |
| `QueryFormat.StringInPlace` | tools/queryformat/test.cc:101-102 | a string token writes exactly its value at its place |
| `QueryFormat.ConditionalInvisible` | tools/queryformat/test.cc:134-135 | removing a conditional token does not change the output |
| `QueryFormat.RenderTokensIgnoresIndex` | tools/queryformat/test.cc:105-123 | the array index passed down does not change the output, because tags do not use it |
| `QueryFormat.ArrayRendersThreeCopies` | tools/queryformat/test.cc:126-131 | an array writes its sub-format for indices 0, 1 and 2: three identical copies |
| `QueryFormat.SampleTokenOutputs` | tools/queryformat/test.cc:182 | with the dummy getter, `%15{name}`, `%015{version}`, `%-15{release}`, `%-015{arch}` and the array `[%{requirenevrs}\n]` write the expected padded text |
| `QueryFormat.SampleFormatOutput` | tools/queryformat/test.cc:182 | the whole sample format of `main` renders to the expected line, then three `requirenevrs` lines |
| `QueryFormat.Render` | tools/queryformat/test.cc:79-98 | the loop over the tokens returns exactly `RenderFormat` of the format |

## Left out

- `Table::dumpTo`, `dumpRule`, `TableRow::dumpTo`, `dumbDumpTo` and `dumpDetails`: their bodies are in `Table.cc`, which this model does not cover. The stream operators (src/Table.h:186-190, 277-278) only call `dumpTo`, so they are left out with it.
- `Table::sort`, `wrap`, `allowAbbrev` and `margin`: their bodies are in `Table.cc`, which this model does not cover. The width, wrap and abbreviation fields (`_max_col`, `_max_width`, `_width`, `_screen_width`, `_abbrev_col`, `_margin`, `_force_break_after`, `_do_wrap`) are not modelled either.
- `TableRow::add`, `addDetail` and `cols`, the `Table` constructor, `Table::add`, `setHeader` and `lineStyle` (src/Table.h:58, 60, 63, 123-124, 129, 141) are declared in the header, but their bodies are in `Table.cc`. The model gives them their evident meaning: append a cell or a row, count the cells, assign the header or the style.
- `Tables.Table.SetLineStyle` does no range check on the style. Any such check in `Table.cc` is not modelled, because the model's `LineStyle` has no `_End` value to check against.
- `Tables.Table.Add` keeps only the stored rows. The width update `updateColWidths` that `add` performs is not modelled, because its body is in `Table.cc`, which this model does not cover.
- `Tables.Table.SetHeader` does not model the width update either, for the same reason.
- `TableHeader` is modelled as a plain `TableRow`: it adds nothing but its type.
- The accessors `header()`, `rows()` and `columns()` are direct field access in the model. `Cols` has no contract beyond its body.
- `ColorString`/`ColorContext` internals: colouring is the parameter `colored`.
- Gettext translation: `"Yes"` and `"No"` are constants.
- `zypp::str::asString`: a function parameter for keys and scalar values. Range elements are taken as strings, since `addDetail` takes a string.
- `Tables.PropertyTable.AddSet` takes the set as its strictly sorted element sequence, which is the order in which a `std::set` is iterated. Building that sequence from the set is not modelled.
- The query-format parser, `Parser.h` and the contents of a conditional token: tokens are a datatype, and a conditional carries nothing because it writes nothing.
- `QueryFormat.RenderTag` reads the width with unbounded naturals. `strtoul`'s saturation at `ULONG_MAX` for very long digit strings is not modelled.
- Field widths that the parser would reject are excluded by the type `FieldWidthText`: an optional `-`, then at least one digit.
- `DataGetter`, `process`, `main`, the package pool, system loading, the `MOUT`/`DOUT` streams and the exception handling: these are I/O and CLI plumbing. The data getter is a parameter.
- Each `char` stands for one byte, so the model has no multi-byte text: in the code, `%3{x}` with a two-byte UTF-8 value gets one pad byte, and the model says the same of a two-`char` value.
- `QueryFormat.RenderTag` does not model the `std::length_error` that `std::string(fw - val.size(), padchar)` throws when the width exceeds `max_size()`. The model pads to any width.
- Unicode display width and terminal output.
