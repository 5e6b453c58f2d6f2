# csv2fritz in Dafny

This project models `csv2fritz.py`. That script converts a contact table,
read with pandas, into the phonebook XML that a FritzBox router imports. The
model covers the conversion logic beneath the I/O:

- **Phone numbers** (`numbers2xml`, `number2xml`). The three phone fields of
  a row are visited in the fixed order home, mobile, work. Fields that are
  missing or read as NaN are skipped and counted in `index_shift`. Every
  other field becomes a `<number>` element with id `index - index_shift`,
  the type of its position, and `prio="1"` only for id 0. A present field
  that `float()` rejects raises `ValueError`, which aborts the conversion.
- **Contacts** (`contact2xml`). The display name joins the present cells
  among `entry[1:3]` with one space. The unique id is `entry[0]`. The phone
  fields are `entry[3:6]`.
- **Document** (`csv2fritzbox` without its file read and write). There is one
  contact fragment per row, in row order. The fragments are joined with
  `"\n"` inside the `<phonebooks><phonebook>` envelope.
- **The four templates**, written out as string concatenation.

Files:

- `text.dfy` (module `Text`): `Option`, Python's clamped slicing, `str.join`
  with its shape lemmas, and the decimal text that `format` writes for an integer, with its
  read-back lemma.
- `csv2fritz.dfy` (module `Csv2Fritz`): the data model, the templates, the
  reference definitions, and the methods for the two loops and for
  `contact2xml`.
- `properties.dfy` (module `Csv2FritzProperties`): the guarantees, stated
  as lemmas.

How the source's data appears in the model:

- **Rows.** A row is what `itertuples(name=None)` yields: the frame index,
  then the cells (`Entry(index, cells)`, so `entry[1 + i]` is `cells[i]`).
- **Cells.** A cell is `Option<string>`. `None` is a missing cell, which
  pandas stores as a float NaN.
- **Float parsing.** `float(text)` is a parameter
  `parse: string -> FloatReading` with three outcomes: it raises, it gives
  NaN, or it gives another value.
- **Clock.** The clock is a parameter. In the source, `time()` is read once
  per contact, so row `k` gets the reading `clock(k)`.

In these places the code does something its column layout does not
suggest; the model follows the code:

- `<uniqueid>` holds the frame index, not the first CSV column. pandas
  numbers the rows 0, 1, 2, …, so row k's fragment carries uniqueid k and
  the fragments of distinct rows differ (`ContactsOfDistinctRowsDiffer`,
  `DocumentHasOneContactPerRow`). The name comes from CSV columns 0–1 and
  the phones from CSV columns 2–4.
- A present phone text that does not parse as a float is an error
  (`ValueError`), not an absent number.
- A table with fewer than five columns is not out of range. The slices are
  clamped, and the declared count then goes wrong (see Findings).
- The modification time is read anew for each contact.

## Model

| member | source | states |
|---|---|---|
| `Csv2Fritz.XmlTemplate` | csv2fritz.py:24-30 | The `XML_TEMPLATE` literal with its one hole, `{contacts}`. The text matches lines 24-30 byte for byte, and the literal adds 108 characters around the contacts. |
| `Csv2Fritz.ContactTemplate` | csv2fritz.py:32-45 | The `CONTACT_TEMPLATE` literal with its holes name, telephony, mod_time and unique_id, in that order. It is cut into `RealNamePart`, `ContactMiddle` and `UniqueIdPart`. The text matches lines 32-45 byte for byte, and the literal adds 225 characters. |
| `Csv2Fritz.TelephonyTemplate` | csv2fritz.py:47-51 | The `TELEPHONY_TEMPLATE` literal with its holes num_count and numbers. The text matches lines 47-51 byte for byte, and the literal adds 38 characters. |
| `Csv2Fritz.NumberTemplate` | csv2fritz.py:53-55 | The `NUMBER_TEMPLATE` literal with its four holes type, prio, id and number. The text matches line 54 byte for byte, and the literal adds 41 characters. |
| `Csv2Fritz.NumberToXml` | csv2fritz.py:106-112 | `number2xml` fills `NUMBER_TEMPLATE` with the lower-case type name, prio `"1"` for id 0 and `"0"` otherwise, the id in decimal, and the number text unchanged. |
| `Csv2Fritz.TelephonyXml` | csv2fritz.py:82-103 | The reference telephony block, with the corrected count. It fails exactly when some phone field makes `float` raise, and then carries the first such field's text. Otherwise it fills `TELEPHONY_TEMPLATE` with the number of emitted entries and their newline-joined elements. |
| `Csv2Fritz.TelephonyXmlAsWritten` | csv2fritz.py:100-103 | The block as line 101 writes it. It fails on the same fields as `TelephonyXml`, with the same error. Otherwise it declares the number of surviving fields plus the number of phone fields the slice lacks (3 minus its length), so it overstates the count by one for every phone column the table lacks. |
| `Csv2Fritz.NumbersToXml` | csv2fritz.py:82-103 | `numbers2xml` with the corrected count. It runs the `index_shift` loop (`CollectNumbers`), declares the number of elements the loop emitted, and returns exactly the reference block. Survivors get ids `index - index_shift`, which are 0..k-1 in field order, each with the type of its position; surviving numbers are emitted and skipped fields are not; the block declares `nid` equal to the number of entries; the first field that `float` rejects gives `ValueError` with its text. |
| `Csv2Fritz.NumbersToXmlAsWritten` | csv2fritz.py:82-103 | `numbers2xml` exactly as written, declaring `3 - index_shift`. It runs the same loop and returns exactly `TelephonyXmlAsWritten`, so the Findings row applies to it. |
| `Csv2Fritz.CollectNumbers` | csv2fritz.py:90-96 | The `enumerate` loop with its `index_shift`. It stops with `ValueError` carrying the text of the first field `float` rejects. Otherwise it returns exactly the reference list of `<number>` elements, and the number of skipped fields as the final `index_shift`. |
| `Csv2Fritz.Skipped` | csv2fritz.py:90-96 | The final `index_shift`. It is at most the number of phone fields, and it is 0 exactly when every field survives. `SkippedPlusKept` ties it to `Kept`. |
| `Csv2Fritz.Survives` | csv2fritz.py:93 | The loop's test: the field is present and `float` gives a value that is not NaN. `Kept`, `Skipped` and `Numbered` are stated in terms of it. |
| `Csv2Fritz.RaisesAt` | csv2fritz.py:93 | `float(number)` raises on a present field. `FirstRaise` finds the first such field. |
| `Csv2Fritz.Kept` | csv2fritz.py:92-96 | Lists the surviving positions: each one is in range and survives, they strictly increase, and every surviving field is listed. |
| `Csv2Fritz.FirstRaise` | csv2fritz.py:92-93 | Gives the first field on which `float` raises, with none before it; `None` means no field raises. |
| `Csv2Fritz.Numbered` | csv2fritz.py:92-94 | Gives one numbered entry per kept position. |
| `Csv2Fritz.NumberedSnoc` | csv2fritz.py:92-96 | One more loop pass: a surviving field appends one entry, with the type of its position and the id `index - index_shift`. Any other field appends nothing. |
| `Csv2Fritz.RenderNumbers` | csv2fritz.py:94 | `number2xml` on every entry: one element per entry, in entry order. |
| `Csv2Fritz.TypeAt` | csv2fritz.py:84-88 | The `number_name` table: position 0, 1 and 2 give home, mobile and work. It has no contract of its own. `Position` is its inverse, and `Position`'s contract states `TypeAt(Position(t)) == t` for every type. |
| `Csv2Fritz.TypeName` | csv2fritz.py:106-108 | `ntype.lower()` of the table's names, which are already lower case. |
| `Csv2Fritz.Prio` | csv2fritz.py:111 | `prio=1 if id == 0 else 0`. `PrioOnlyFirst` states what this means for a block. |
| `Csv2Fritz.Position` | csv2fritz.py:84-88 | Inverts the `number_name` table: type to position 0, 1 or 2. |
| `Csv2Fritz.SkippedPlusKept` | csv2fritz.py:90-96 | Each field is either emitted or counted in `index_shift`. |
| `Csv2FritzProperties.EntriesFollowFields` | csv2fritz.py:84-96 | Entry k has id k. Its type names a position that holds its text and survives. Positions strictly increase along the entries, so relative order is kept. Every surviving field appears. |
| `Csv2FritzProperties.PrioOnlyFirst` | csv2fritz.py:106-112 | `prio` is 1 exactly for id 0. The number of entries with prio 1 is 0 when none survive and 1 otherwise. |
| `Csv2FritzProperties.ThreeFields` | csv2fritz.py:92-96 | On a full phone slice, spells out the kept positions and the first raising field, field by field. |
| `Csv2FritzProperties.AllThreePresent` | csv2fritz.py:90-103 | With three numeric fields, the entries are home/0, mobile/1, work/2 and the block declares 3. |
| `Csv2FritzProperties.OneAbsent` | csv2fritz.py:90-103 | With one field missing, the other two keep their types and order, get ids 0 and 1, and the block declares 2. |
| `Csv2FritzProperties.NoneSurvive` | csv2fritz.py:90-103 | With no survivor, there are no entries, the number list is empty, and `nid="0"`. |
| `Csv2FritzProperties.NothingKept` | csv2fritz.py:92-96 | No surviving field means no kept position. |
| `Csv2FritzProperties.AsWrittenCountIffThreeFields` | csv2fritz.py:100-102 | `3 - index_shift` equals the number of entries if and only if the phone slice has three fields. On such slices, the block as written equals the corrected one. |
| `Csv2FritzProperties.NarrowTableOverstatesCount` | csv2fritz.py:73-102 | On a three-column row, the block as written declares `nid="3"` for one number. The corrected block declares `nid="1"`. |
| `Csv2FritzProperties.SingleNumericField` | csv2fritz.py:90-103 | A slice holding one numeric field gives one entry. As written, its block declares `nid="3"`; the corrected block declares `nid="1"`. Both hold the same one element. |
| `Csv2FritzProperties.PaddingKeepsBlock` | csv2fritz.py:73-103 | A one-field phone slice padded with two missing cells gives the same corrected block as the bare slice. |
| `Csv2FritzProperties.PaddingChangesWrittenCount` | csv2fritz.py:100-102 | For one numeric field: as written, the bare slice declares `nid="3"`, while the slice padded with two missing cells declares `nid="1"`. Both list the same one element. |
| `Text.Join` | csv2fritz.py:102 | `str.join`: no parts give the empty text, otherwise the parts with the separator between neighbours. It has no contract of its own; `JoinEnds` and `JoinLength` state its shape. |
| `Text.JoinEnds` | csv2fritz.py:102 | Joining no parts gives the empty text. Otherwise the join starts with the first part and ends with the last. |
| `Text.JoinLength` | csv2fritz.py:102 | A join of n parts is as long as the parts together plus n - 1 separators. |
| `Text.Slice` | csv2fritz.py:72-73 | Python slicing: the length is clamped to the sequence, and element i is `s[lo + i]`. |
| `Csv2Fritz.PhoneSlice` | csv2fritz.py:73 | `entry[3:6]` has at most three fields. On a row with at least five cells, it is exactly cells 2..4. |
| `Csv2Fritz.Present` | csv2fritz.py:72 | The filter `if not type(item) is float`, which keeps the present cells in order. Its contract says it never returns more cells than it was given; `DisplayName` spells out the name built from them. |
| `Csv2Fritz.DisplayName` | csv2fritz.py:72 | The present cells among `entry[1:3]`, of which there are at most two, joined by one space. None gives the empty name, one gives that cell, and two give `first + " " + last`. |
| `Csv2FritzProperties.DisplayNameCases` | csv2fritz.py:72 | Both name parts present: `first + " " + last`. Only one present: that part alone, with no stray space. None present: the empty name. |
| `Csv2Fritz.ContactXml` | csv2fritz.py:69-79 | The reference contact fragment. A failed telephony block is passed through. Otherwise `CONTACT_TEMPLATE` is filled with the display name, the block, the clock reading and the row index, both in decimal. |
| `Csv2Fritz.ContactToXml` | csv2fritz.py:69-79 | Returns exactly the reference contact fragment, with the telephony block built by the `numbers2xml` loop. `ContactFailsIffRaise` states when that fragment fails. |
| `Csv2FritzProperties.ContactFailsIffRaise` | csv2fritz.py:73-76 | A contact fails exactly when a phone field raises, and the error carries the first such field's text. |
| `Csv2FritzProperties.ContactCarriesNameAndId` | csv2fritz.py:32-45 | A contact fragment starts with the display name inside `<realName>`. It ends with the row index in decimal inside `<uniqueid>`. |
| `Csv2FritzProperties.JaneDoeExample` | csv2fritz.py:69-112 | The row (7, Jane, Doe, 5551234, missing, 5559999) gives name "Jane Doe" and uniqueid "7". Its block declares `nid="2"` and lists home/prio 1/id 0 and then work/prio 0/id 1. |
| `Csv2Fritz.Collect` | csv2fritz.py:60-62 | The loop either collects every row's fragment, one per row in row order, or stops with the error of the first failing row. Both directions of "all rows succeed" are stated. |
| `Csv2Fritz.ContactResults` | csv2fritz.py:61-62 | `contact2xml(c)` for every row tuple. It has one result per row; `DocumentHasOneContactPerRow` states that fragment k is row k's contact. |
| `Csv2Fritz.RowToXml` | csv2fritz.py:61-62 | One pass of the row loop. A failing row makes the whole document that row's error; otherwise the collected fragments grow by that row's fragment. |
| `Csv2Fritz.CollectFirstErr` | csv2fritz.py:61-62 | Once a row fails after successful rows, the conversion fails with that row's error. |
| `Csv2Fritz.DocumentXml` | csv2fritz.py:57-64 | The reference document. It collects the fragment of every row (k, row k), with clock reading `clock(k)`. It then either wraps their newline-join in `XML_TEMPLATE` or gives the first failing row's error. |
| `Csv2Fritz.Csv2FritzBox` | csv2fritz.py:57-64 | The row loop and envelope return exactly the reference document: row k becomes `contact2xml` of (k, row k), the fragments are newline-joined in row order inside `XML_TEMPLATE`, or the result is the first error. |
| `Csv2FritzProperties.DocumentHasOneContactPerRow` | csv2fritz.py:57-64 | A successful document equals the envelope around the newline-joined fragments. There are exactly as many fragments as rows, fragment k is row k's contact, and the fragments of distinct rows differ. |
| `Csv2FritzProperties.ContactsOfDistinctRowsDiffer` | csv2fritz.py:69-79 | Two successful contacts from rows with different indices are different texts, because each ends with its own index inside `<uniqueid>`. |
| `Csv2FritzProperties.RowResultsFail` | csv2fritz.py:61-62 | A row's fragment fails exactly when its phone slice has a raising field. |
| `Csv2FritzProperties.DocumentFailsIffSomeFieldRaises` | csv2fritz.py:57-64 | The conversion fails if and only if some row has a phone field that `float` rejects. |
| `Csv2FritzProperties.DocumentReportsFirstRaise` | csv2fritz.py:57-64 | A failed conversion reports the first raising field of the first row that has one. |
| `Text.Decimal` | csv2fritz.py:106-112 | Integer formatting gives a non-empty string of decimal digits with no leading zero. |
| `Text.DecimalRoundTrip` | csv2fritz.py:77 | Reading the digits back gives the number, so the index can be recovered from `<uniqueid>`. |
| `Text.DecimalInjective` | csv2fritz.py:71-77 | Two numbers render the same text if and only if they are equal. |

## Left out

- `pd.read_csv` and `itertuples` (csv2fritz.py:58-61) are a foreign library. The input is a sequence of already parsed rows of optional string cells, and the frame index is the row position.
- `float()` and `math.isnan` (csv2fritz.py:93) are not modelled. Their outcome on a present text is the `parse` parameter.
- `int(time())` (csv2fritz.py:78) reads the wall clock. It is the `clock` parameter, read once per row.
- Writing the output file (csv2fritz.py:66-67) and the argparse entry point (csv2fritz.py:114-121) are I/O and CLI plumbing.
- `print(index_shift)` (csv2fritz.py:98) is debug output with no effect on the result.
- `ntype.lower()` (csv2fritz.py:108) is modelled by the already lower-case names `home`, `mobile` and `work`.
- XML escaping: the source performs none and the model adds none. Nothing is claimed about the well-formedness of the output.
- Idempotence of the conversion: every operation is a deterministic function of the rows, `parse` and the clock readings, so there is no separate lemma.
- Uniform row width: the model accepts rows of any length and does not model pandas padding them to a common width. Padding a phone slice with missing cells leaves the corrected block unchanged, because the corrected count ignores missing fields (`PaddingKeepsBlock`). It does change `TelephonyXmlAsWritten`: for one present number `p`, `[Some(p)]` declares `nid="3"` but `[Some(p), None, None]` declares `nid="1"` (`PaddingChangesWrittenCount`). This is why the Findings input is a table that is three columns wide, and not a short row in a wider table.

## Findings

| source | as written | input that shows it | evidently intended | confidence | as-written member | corrected member |
|---|---|---|---|---|---|---|
| csv2fritz.py:100-102 | `num_count=3-index_shift` assumes the phone slice `entry[3:6]` has three fields | A table with three columns (first name, last name, one phone). The slice holds one field, so a present number gives `nid="3"` with one `<number>`. | `nid` equals the number of emitted `<number>` elements (`len(xml_numbers)`) | medium, not executed | `Csv2FritzProperties.NarrowTableOverstatesCount` | `Csv2Fritz.NumbersToXml` |

`Csv2Fritz.TelephonyXmlAsWritten` is the block as line 101 writes it, and
`Csv2Fritz.NumbersToXmlAsWritten` is the loop that writes it.
`Csv2Fritz.NumbersToXml` and the rest of the model declare the number of
emitted entries instead. `AsWrittenCountIffThreeFields` shows that the two
agree on every table with at least five columns.
