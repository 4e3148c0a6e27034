# svd_lookup in Dafny

A model of the core of `svd_lookup`. The tool converts an Arm CMSIS-SVD
device description into a four-table SQLite store (`mpus`, `peripherals`,
`registers`, `fields`). It then reads the store back and prints a
peripheral's registers and bit fields in three ways:

- as assembler `.equ` definitions;
- as Forth constants, in a flat form and in a structured `registers … end-registers` form;
- as readable text.

The model has one module per part of the program:

- `Common`: the option and result types. It also holds `Walk`, a Go
  `for … { if err != nil { return } }` loop as a value, with its generic
  lemmas.
- `Text`: the Go and SQLite string primitives the code relies on:
  - `strings.ToLower`, `Contains`, `Replace(…, 1)` and `Split`;
  - `strconv.Atoi` and `ParseUint(_, 16, 32)`;
  - `%08X` formatting and `filepath.Ext`;
  - SQLite `LIKE` and the BINARY collation.
- `Store` (`svd2db/db_helpers.go`): the store as a class `Db` with one
  sequence of rows per table. The row at index i has id i + 1. Also
  `db_insert` and the guard of `db_createdb`.
- `Ingest` (`svd2db/svd2db.go`): the converter. It has the bit-position
  normaliser, `insertField`, `insertRegister`, `insertPeripheral` with its
  name → id map, `Convert`, and the default output name.
- `Query`: the order-keeping filter (SQL `WHERE`, `slices.DeleteFunc`) and a
  stable insertion sort (SQL `ORDER BY`, `sort.Slice`).
- `Lookup` (`internal/svd_lookup.go`):
  - `fetch_peripheral_by_name`, `fetch_peripheral`, `fetch_registers`,
    `fetch_fields` and `collect_registers`;
  - `IntPow`;
  - `lookupFile` and `lookupInNearestDir` over a set of existing paths.
- `Render`: what the three printers share. This is the register filter and
  the masks computed through `IntPow`.
- `GenAsm` (`internal/gen_asm.go`), `GenForth` (`internal/gen_forth.go`) and
  `Display` (`internal/display.go`): the printers.

Every operation that changes state or loops in the Go code is an imperative
method here:

- `Db.Insert` appends to a table.
- The converter's methods drive a `Db`.
- The `fetch_*` methods scan rows in a loop.
- `collect_registers` stores each register's fields in place.
- The printers append lines in nested loops.

Each such method is proved to produce exactly what a specification function
describes. The properties of the program are then lemmas about those
functions.

A printer's output is its sequence of printed lines together with a `Status`.
The status records how the call ended:

- `Done`;
- `Failed(msg)` when a Go `error` is returned;
- `Panicked(reason)` for a slice bound or a negative shift count;
- `Hangs` for `IntPow` with a negative exponent, whose loop never ends.

The store, the MPU name, the `verbose` and `Addwords` flags, the result of
`fetch_peripherals_like` and the set of existing files are parameters.
Failures of the database driver itself are parameters in only three places:

- `Store.Db.Insert` takes a `Fault`;
- `Lookup.FetchRegisters` and `Lookup.FetchFields` take a `ReadFault`.

The converter and `collect_registers` call these with no fault.

## Model

| member | source | states |
|---|---|---|
| Text.ToLower | internal/gen_asm.go:54 | the lower-cased string has the same length and maps every character through ASCII lower-casing |
| Text.IndexOf | internal/gen_asm.go:54 | `strings.Index`: a result is an occurrence with none before it; no result means no occurrence anywhere |
| Text.ReplaceFirstAt | svd2db/svd2db.go:78 | `strings.Replace(s, from, to, 1)` replaces exactly the first occurrence |
| Text.Split | svd2db/svd2db.go:208 | `strings.Split` always yields at least one part |
| Text.Repeat | svd2db/db_helpers.go:68 | `strings.Repeat(s, n)` has length n·|s| |
| Text.AtoiItoa | svd2db/svd2db.go:197-216 | `Atoi` reads back every int64 printed in decimal |
| Text.AtoiAcceptsOnlyDecimal | svd2db/svd2db.go:197-213 | `Atoi` accepts only an optional sign followed by decimal digits |
| Text.AtoiPadded | svd2db/svd2db.go:197-216 | every token `strconv.Atoi` accepts (no sign, `+` or `-`, any leading zeros, then the decimal rendering of n in range) reads as n, or −n after `-`: `+5` is 5, `007` is 7, `-0` is 0 |
| Text.AtoiSigned | svd2db/svd2db.go:197-216 | a sign followed by in-range decimal digits reads as their value, negated after `-` |
| Text.PaddedDigits | svd2db/svd2db.go:197-216 | leading zeros in front of the decimal rendering of n leave a digit string whose value is still n |
| Text.Atoi | svd2db/svd2db.go:197-216 | `strconv.Atoi`: a result fits in an int64, comes from a non-empty text whose characters after the first are decimal digits, and is negative only after a `-` |
| Text.Hex08 | internal/gen_asm.go:78 | `%08X` prints at least 8 hex digits and nothing else |
| Text.ParseHex32 | internal/gen_forth.go:142 | a parsed value of `ParseUint(_, 16, 32)` fits in 32 bits |
| Text.ParseHex32Value | internal/gen_forth.go:142 | the parse succeeds exactly on a non-empty run of hex digits whose value fits in 32 bits, and yields that value |
| Text.Hex08RoundTrip | internal/gen_forth.go:148 | what `%08X` prints for a 32-bit value, `ParseUint(_, 16, 32)` reads back unchanged |
| Text.Hex08Width | internal/gen_forth.go:166 | `%08X` of a 32-bit value is exactly eight digits wide |
| Text.NameLeTotal | internal/svd_lookup.go:404 | the BINARY collation of `ORDER BY name` is total |
| Text.NameLeTransitive | internal/svd_lookup.go:404 | the BINARY collation of `ORDER BY name` is transitive |
| Text.Like | internal/svd_lookup.go:386 | SQLite `LIKE` without ESCAPE: a matching string has at least as many characters as the pattern has characters other than `%` |
| Text.NameLike | internal/svd_lookup.go:386 | `lower(name) LIKE lower(?)`: when the lower-cased pattern has no wildcard, a name matches exactly when it equals the pattern up to case |
| Text.LikeLiteral | internal/svd_lookup.go:386 | a `LIKE` pattern without `%` or `_` matches exactly itself |
| Text.LikeSelf | internal/svd_lookup.go:386 | every string matches itself used as a `LIKE` pattern |
| Text.LikeEmptyPercent | internal/svd_lookup.go:386 | a string that matches itself as a pattern still matches it with `%` put in front |
| Text.LikeAnyRun | internal/svd_lookup.go:386 | `%` alone matches every name |
| Text.LikePrefix | internal/svd_lookup.go:386 | `prefix%` matches exactly the names that start with the prefix |
| Text.LikeUnderscore | internal/svd_lookup.go:386 | `_` matches exactly one character, whatever it is, then the rest of the pattern must match the rest of the string |
| Text.NameLikeIgnoresCase | internal/svd_lookup.go:386 | `lower(name) LIKE lower(?)` does not depend on the case of the name or of the pattern |
| Text.Ext | svd2db/svd2db.go:78 | `filepath.Ext` is a suffix of the path that is empty or starts with its only `.` and holds no `/` |
| Text.ExtOfName | svd2db/svd2db.go:78 | the extension of `stem.ext` is `.ext` |
| Store.NameTakenAt | svd2db/db_helpers.go:38-39 | a name is taken exactly when some stored row holds it in its name column (the UNIQUE test) |
| Store.InsertSuccess | svd2db/db_helpers.go:75-89 | a successful insert appends exactly the row to its own table, touches no other table, and returns the new row's id, which is at least 1 |
| Store.InsertFailure | svd2db/db_helpers.go:63-88 | a failing begin, prepare, exec, id or commit step returns id 0 with an error and leaves every table unchanged |
| Store.FirstInsertIsOne | svd2db/db_helpers.go:80-89 | the first row inserted into a fresh table gets id 1 |
| Store.OrderExists | svd2db/db_helpers.go:56-59 | every map has an iteration order that lists each key exactly once |
| Store.RepeatCount | svd2db/db_helpers.go:68 | `Repeat("?,", n)` holds n `?` and n commas |
| Store.PlaceholderCount | svd2db/db_helpers.go:52-68 | n columns get exactly n `?` placeholders, separated by n − 1 commas |
| Store.ColumnNames | svd2db/db_helpers.go:61 | the column list names the keys one for one, in iteration order |
| Store.BindAt | svd2db/db_helpers.go:75 | binding distinct columns to values sets exactly those columns, each to its own value |
| Store.BindRecovers | svd2db/db_helpers.go:56-75 | whatever the map's iteration order, binding the collected values to the collected keys rebuilds the map |
| Store.BuildInsert | svd2db/db_helpers.go:51-68 | the loop collects keys in iteration order and values from the same entries; the statement has one placeholder per map entry and binding rebuilds the map |
| Store.Db.constructor | svd2db/db_helpers.go:37-48 | a fresh store has the schema and no rows |
| Store.Db.Append | svd2db/db_helpers.go:85-89 | a commit appends the row to its table and changes nothing else |
| Store.Db.Insert | svd2db/db_helpers.go:51-90 | `db_insert` has exactly the effect and result of `InsertOutcome` (new id on success, id 0 and no change on failure) |
| Store.Db.Execute | svd2db/db_helpers.go:63-89 | the transaction steps stop at the first failure, with the effect and result of `InsertOutcome` |
| Store.CreateDb | svd2db/db_helpers.go:24-49 | creating fails, with "database file … already exists", exactly when the file exists; otherwise the store is fresh and empty |
| Ingest.OffsetWidthWins | svd2db/svd2db.go:196-205 | with bitOffset and bitWidth both set, they are used as they are, even when a bitRange is also present |
| Ingest.NormalizeBits | svd2db/svd2db.go:193-225 | bits come only from bitOffset with bitWidth or from a bitRange, the offset fits in an int64, and "no valid bit info" is reported exactly when neither is present and lsb and msb are not both set |
| Ingest.SplitTwo | svd2db/svd2db.go:208 | splitting `hi:lo` on `:` gives the two numbers |
| Ingest.BitRangeForm | svd2db/svd2db.go:206-218 | bitRange `<o>hi:lo<c>` gives (lo, hi − lo + 1) whatever the enclosing characters and whether or not hi ≥ lo |
| Ingest.EquivalentEncodings | svd2db/svd2db.go:196-218 | `[19:16]`, bitOffset 16/bitWidth 4, and the latter next to a bitRange all give (16, 4) |
| Ingest.RejectedEncodings | svd2db/svd2db.go:197-225 | lsb/msb alone, no bit information, and a hexadecimal bitOffset are errors |
| Ingest.OptionalColumns | svd2db/svd2db.go:115-191 | description and reset_value are set in a row exactly when the document's value is non-empty, and then hold it; derived_from_id is set exactly when a target id was found |
| Ingest.BadFieldWritesNothing | svd2db/svd2db.go:194-225 | a field whose bits cannot be normalised writes no row and returns that error |
| Ingest.FieldEffect | svd2db/svd2db.go:185-237 | one field touches only the fields table and on success appends exactly its normalised row |
| Ingest.FieldsFrame | svd2db/svd2db.go:174-180 | a register's fields never touch the mpus, peripherals or registers tables |
| Ingest.FieldsInOrder | svd2db/svd2db.go:174-180 | when all of a register's fields go in, they are appended in document order, each under the register's id |
| Ingest.RegisterEffect | svd2db/svd2db.go:155-183 | a register leaves mpus and peripherals alone and on success adds exactly its own registers row |
| Ingest.RegistersFrame | svd2db/svd2db.go:143-150 | a peripheral's registers never touch the mpus or peripherals tables |
| Ingest.RegistersInOrder | svd2db/svd2db.go:143-150 | a non-derived peripheral's registers are appended in document order, all under its id |
| Ingest.ForwardReferenceFails | svd2db/svd2db.go:122-130 | a derivedFrom naming a peripheral not yet inserted fails before anything is written for it |
| Ingest.StopsAtFirstError | svd2db/svd2db.go:101-105 | the first failing peripheral ends the conversion: later ones are never processed |
| Ingest.PeripheralKeepsMpus | svd2db/svd2db.go:112-153 | a peripheral never changes the mpus table |
| Ingest.PeripheralRowAdded | svd2db/svd2db.go:115-141 | a successful peripheral, derived or not, adds exactly its row and enters its new id in the map under its name |
| Ingest.PeripheralNamed | svd2db/svd2db.go:135-141 | the names of the peripherals rows grow by exactly this peripheral's name |
| Ingest.AppendKeepsIds | svd2db/svd2db.go:141 | appending a named row and mapping the name to its id keeps every map entry pointing at the row of that name |
| Ingest.PeripheralKeepsIds | svd2db/svd2db.go:135-141 | a successful peripheral keeps the name → id map valid |
| Ingest.DerivedPeripheral | svd2db/svd2db.go:121-150 | a derived peripheral stores derived_from_id = the id of the row named by derivedFrom, and inserts no registers or fields |
| Ingest.PeripheralsKeepMap | svd2db/svd2db.go:97-105 | Convert's loop keeps the map valid from the empty map on |
| Ingest.ConvertShape | svd2db/svd2db.go:90-105 | a successful conversion stores one mpus row and one peripherals row per peripheral, in document order |
| Ingest.PeripheralRegisters | svd2db/svd2db.go:112-150 | a successful peripheral appends exactly its own registers rows under its new id; a derived one appends none |
| Ingest.RegistersUpTo | svd2db/svd2db.go:101-105 | from an empty store, after k successful peripherals there are k peripherals rows and the registers rows of exactly those peripherals, in order |
| Ingest.ConvertRegisters | svd2db/svd2db.go:90-105 | after a successful conversion, the registers table is the registers of every non-derived peripheral, peripheral by peripheral in document order, each under its peripheral's id (the i-th peripheral has id i + 1) |
| Ingest.ExplicitOutputName | svd2db/svd2db.go:76-81 | an explicit output name is used as given |
| Ingest.DefaultOutputName | svd2db/svd2db.go:76-78 | `chip.svd` becomes `chip.db` |
| Ingest.FirstOccurrenceReplaced | svd2db/svd2db.go:78 | for a dot-free start `a` and any middle part `b` (dots and slashes included), only the first `.svd` is replaced: `a.svd` + `b` + `.svd` becomes `a.db` + `b` + `.svd` |
| Ingest.DirectoryExample | svd2db/svd2db.go:78 | `a.svd.d/b.svd` becomes `a.db.d/b.svd`: the extension inside the directory name is the one replaced |
| Ingest.NoExtensionPrefixed | svd2db/svd2db.go:78 | a name without extension gets `.db` in front of it |
| Ingest.OutputNameSwapsExtension | svd2db/svd2db.go:78 | when the extension occurs only at the end, the default name swaps it for `.db` |
| Ingest.InsertField | svd2db/svd2db.go:185-237 | `insertField` has exactly the effect and error of `IngestField` |
| Ingest.InsertRegister | svd2db/svd2db.go:155-183 | `insertRegister` has exactly the effect and error of `IngestRegister` |
| Ingest.InsertPeripheral | svd2db/svd2db.go:112-153 | `insertPeripheral` has exactly the effect, map update and error of `IngestPeripheral` |
| Ingest.InsertPeripherals | svd2db/svd2db.go:97-105 | the peripheral loop, from an empty map, has exactly the effect of `IngestPeripherals` |
| Ingest.Convert | svd2db/svd2db.go:62-110 | the output name is the default or the given one; an existing file is refused; otherwise the fresh store ends as `ConvertOutcome` describes |
| Query.Filter | internal/gen_asm.go:53-55 | a filter is no longer than its input |
| Query.FilterMembers | internal/gen_asm.go:53-55 | a filter keeps exactly the elements that pass |
| Query.FilterSnoc | internal/gen_asm.go:24-29 | a filter keeps the relative order of the elements |
| Query.FilterNone | internal/gen_asm.go:58-60 | a filter that rejects every element leaves nothing |
| Query.FilterFirst | internal/svd_lookup.go:386-387 | the first kept element is the first element of the input that passes (`QueryRow` keeps the first match) |
| Query.InsertBy | internal/gen_forth.go:134-138 | inserting adds exactly one element |
| Query.SortBy | internal/gen_forth.go:134-138 | sorting is a permutation |
| Query.InsertBySorted | internal/gen_forth.go:134-138 | inserting into a sorted sequence keeps it sorted |
| Query.SortBySorted | internal/svd_lookup.go:404 | under a total preorder the result is sorted |
| Query.SortByKeeps | internal/svd_lookup.go:404 | sorting neither adds nor drops an element |
| Lookup.Numbered | svd2db/db_helpers.go:38-41 | row i of a table has the AUTOINCREMENT id i + 1 |
| Lookup.ScanText | internal/svd_lookup.go:414 | scanning into a `string` succeeds exactly on a non-NULL text cell and yields its text |
| Lookup.ScanNullText | internal/svd_lookup.go:414 | scanning into `sql.Null[string]` gives None exactly for NULL, else the text |
| Lookup.ScanInt | internal/svd_lookup.go:439 | scanning into an `int` succeeds exactly on a non-NULL integer cell and yields its value |
| Lookup.ScanNullInt | internal/svd_lookup.go:387 | scanning into `sql.Null[int]` gives None exactly for NULL, else the integer |
| Lookup.ScanPeripheral | internal/svd_lookup.go:386-389 | a scanned peripheral carries its row's id, name, base address and derived_from, and no registers yet |
| Lookup.ScanRegister | internal/svd_lookup.go:414 | a scanned register carries its row's id, name and address offset, and no fields yet |
| Lookup.ScanField | internal/svd_lookup.go:439 | a scanned field carries its row's name, num_bits and bit_offset |
| Lookup.Wrap | internal/svd_lookup.go:416 | `fmt.Errorf("…: %w")` keeps success and prefixes an error with its context |
| Lookup.ScanAllOk | internal/svd_lookup.go:412-419 | a successful row loop has one element per row, each the scan of its row |
| Lookup.ScanAllFailedPrefix | internal/svd_lookup.go:412-417 | once a prefix of rows fails, the whole loop fails the same way |
| Lookup.ScanAllFirstError | internal/svd_lookup.go:412-417 | the loop fails with the message of the first failing row |
| Lookup.ScanAllPrefixOk | internal/svd_lookup.go:412-418 | rows that all scan give a successful loop |
| Lookup.ScanAllStep | internal/svd_lookup.go:412-418 | one more good row extends a successful loop by its element |
| Lookup.ScanAllFailedStep | internal/svd_lookup.go:412-417 | a failing row after a good prefix fails the whole loop with its message |
| Lookup.ScanAllErr | internal/svd_lookup.go:437-442 | a failed loop fails with the message of one of its rows |
| Lookup.CellLeTotal | internal/svd_lookup.go:404 | SQLite's order of cells (NULL, integers, text) is total |
| Lookup.CellLeTransitive | internal/svd_lookup.go:404 | SQLite's order of cells is transitive |
| Lookup.OrderByIsPreorder | internal/svd_lookup.go:430 | every `ORDER BY` column gives a valid sort order |
| Lookup.PeripheralById | internal/svd_lookup.go:393-401 | a peripheral `fetch_peripheral` returns carries the id asked for, which has a row; an id with no row gives `sql: no rows` |
| Lookup.PeripheralByName | internal/svd_lookup.go:383-390 | `fetch_peripheral_by_name`: a found peripheral is a stored row whose name matches the pattern; an empty table gives `sql.ErrNoRows` |
| Lookup.ByNameFound | internal/svd_lookup.go:383-391 | a peripheral found by name is stored under its id, has a name LIKE the pattern, and no earlier row matches |
| Lookup.ScanIsNotNoRows | internal/svd_lookup.go:386-388 | a scan failure is never reported as "no rows" |
| Lookup.ByNameNoRows | internal/svd_lookup.go:386-388 | the lookup reports "no rows" exactly when no stored name is LIKE the pattern |
| Lookup.ByNameIgnoresCase | internal/svd_lookup.go:386 | lower-casing the pattern changes nothing |
| Lookup.FetchRegisters | internal/svd_lookup.go:403-427 | for every driver fault, `fetch_registers` returns exactly `RegistersRead`: the query error; else the first scan error among the rows handed out; else the `rows.Err()` error; else the scanned rows of the peripheral, by name |
| Lookup.FetchFields | internal/svd_lookup.go:429-452 | for every driver fault, `fetch_fields` returns exactly `FieldsRead`: the query error; else the first scan error; else the `rows.Err()` error; else the scanned rows of the register, by bit offset |
| Lookup.Collected | internal/svd_lookup.go:243-270 | a collected peripheral has its register list |
| Lookup.CollectRegisters | internal/svd_lookup.go:243-270 | `collect_registers` returns exactly `Collected` |
| Lookup.FillFields | internal/svd_lookup.go:259-265 | setting `regs[i].fields` in place, register by register, gives the fields of every register or the first error |
| Lookup.AttachOne | internal/svd_lookup.go:260-264 | one round fetches a register's fields and stores them in it |
| Lookup.ScanInPlaceStep | internal/svd_lookup.go:259-265 | storing one result in place extends the done prefix and leaves the rest untouched |
| Lookup.RegistersSorted | internal/svd_lookup.go:404 | `fetch_registers` returns its registers in ascending name order |
| Lookup.InNumbered | svd2db/db_helpers.go:38-41 | a numbered record is the stored row under its id |
| Lookup.InWhere | internal/svd_lookup.go:404 | a record selected by `WHERE c = v` is a stored row whose cell c holds v |
| Lookup.RegisterFromRow | internal/svd_lookup.go:412-418 | register i is the scan of selected row i |
| Lookup.RegisterBelongs | internal/svd_lookup.go:404 | register i is stored with the peripheral id asked for |
| Lookup.RegistersBelong | internal/svd_lookup.go:404 | every register `fetch_registers` returns is stored with that peripheral id |
| Lookup.RegistersComplete | internal/svd_lookup.go:404-418 | every register stored with that peripheral id is returned |
| Lookup.FieldsSorted | internal/svd_lookup.go:430 | `fetch_fields` returns its fields in ascending bit-offset order |
| Lookup.FieldsCount | internal/svd_lookup.go:430-444 | `fetch_fields` returns one field per row stored with that register id |
| Lookup.RegistersError | internal/svd_lookup.go:406-424 | a failing register fetch names the peripheral id |
| Lookup.FieldsError | internal/svd_lookup.go:432-449 | a failing field fetch names the register id |
| Lookup.ReadRowsError | internal/svd_lookup.go:429-452 | for any row loop: a query fault gives the query error; without a fault the error is a scan error; a rows fault gives a scan error or the rows error |
| Lookup.WrappedPrefix | internal/svd_lookup.go:416 | a wrapped scan error starts with its context |
| Lookup.RegistersReadError | internal/svd_lookup.go:403-427 | a failing `fetch_registers` names the peripheral id under the step that failed. A query fault gives the "query" error; without a fault the error is a scan error; a rows fault gives a scan error or the "rows" error |
| Lookup.FieldsReadError | internal/svd_lookup.go:429-452 | the same for `fetch_fields`, except that, as written, a `rows.Err()` failure is reported as "failure in fetch_registers rows for id …" |
| Lookup.FieldsRowsFailure | internal/svd_lookup.go:446-449 | when every row scans, a `rows.Err()` failure is the result, wherever the rows stopped, and the rows already read are dropped |
| Lookup.FaultFreeReads | internal/svd_lookup.go:403-452 | without a driver fault the two fetches return the plain scans `RegistersOf` and `FieldsOf` that `collect_registers` relies on |
| Lookup.CollectKeepsIdentity | internal/svd_lookup.go:244-267 | the result keeps the looked-up peripheral's own id, alias, name, base address and description |
| Lookup.CollectReadsOwner | internal/svd_lookup.go:249-265 | the registers are those of the owner, the stored derived_from never followed further, each with its own fields |
| Lookup.CollectedAt | internal/svd_lookup.go:259-265 | collected register i is the owner's register i with its fields |
| Lookup.CollectOnlyOwner | internal/svd_lookup.go:249-255 | every collected register is stored under the owner's id |
| Lookup.CollectAllOwner | internal/svd_lookup.go:251-255 | every register stored under the owner's id is collected |
| Lookup.CollectSorted | internal/svd_lookup.go:255-265 | registers come back by ascending name, each with a field list by ascending bit offset |
| Lookup.CollectNotFound | internal/svd_lookup.go:244-247 | an unknown name fails with "Peripheral … not found: " and the lookup's error |
| Lookup.CollectRegistersFail | internal/svd_lookup.go:255-258 | a failing register fetch aborts with an error naming the owner's id |
| Lookup.CollectFieldsFail | internal/svd_lookup.go:259-263 | the first register whose field fetch fails aborts the collection, with an error naming its id |
| Lookup.IntPow | internal/svd_lookup.go:171-185 | exponentiation by squaring returns base^exp |
| Lookup.Candidate | internal/svd_lookup.go:100 | `path.Join` of an absolute directory and a name is an absolute path |
| Lookup.LookupFindsNearest | internal/svd_lookup.go:99-113 | a found file exists and sits in the nearest enclosing directory that holds one |
| Lookup.LookupFailsAtRoot | internal/svd_lookup.go:107-113 | the search fails, with the "not found … Starting at" message, exactly when no directory up to `/` holds the file |
| Render.Selected | internal/gen_asm.go:51-56 | the kept registers are exactly those whose lower-cased name contains the lower-cased pattern, and all of them for an empty pattern |
| Render.SelectedIgnoresCase | internal/gen_asm.go:54 | the case of the pattern does not matter |
| Render.UnshiftedMask | internal/gen_forth.go:94 | `IntPow(2, n) − 1` returns exactly when n ≥ 0 |
| Render.ShiftedMask | internal/gen_asm.go:77 | `(IntPow(2, n) − 1) << off` returns exactly when n ≥ 0 and off ≥ 0 |
| Render.ComputeShiftedMask | internal/gen_asm.go:77 | computing the mask with `IntPow`'s loop and the shift gives `ShiftedMask` |
| Render.ComputeUnshiftedMask | internal/gen_forth.go:94 | computing the mask with `IntPow`'s loop gives `UnshiftedMask` |
| Render.ShiftedMaskBits | internal/gen_asm.go:77 | the shifted mask sets exactly bits off … off+n−1 |
| GenAsm.BaseLines | internal/gen_asm.go:24-29 | one `.equ NAME_BASE, addr` line per peripheral, in order |
| GenAsm.FamilyPatternLength | internal/gen_asm.go:15-16 | replacing `_n` by `%` shortens the name by one |
| GenAsm.Expand | internal/gen_asm.go:15-35 | in multi mode the name collected is the `%` pattern |
| GenAsm.PrintFamilyBases | internal/gen_asm.go:23-30 | the family loop prints the base lines of exactly the numbered members, in order, and sets `multi` exactly when there is one |
| GenAsm.BaseLinesSnoc | internal/gen_asm.go:24-29 | one more peripheral adds its base line at the end |
| GenAsm.NoExpansionWithoutSuffix | internal/gen_asm.go:15 | a name not ending in `_n` is not expanded |
| GenAsm.FamilyPattern | internal/gen_asm.go:16 | for `stem_n` the pattern is `stem%` |
| GenAsm.FamilyLines | internal/gen_asm.go:17-30 | the family lines are the base lines of exactly the members whose name ends in a digit, in the order returned, and multi holds exactly when one exists |
| GenAsm.FamilyFallback | internal/gen_asm.go:32-34 | with no numbered member, `stem_n` falls back to `stem` with no base line printed yet |
| GenAsm.TimerFamily | internal/gen_asm.go:25 | TIM1, TIM2 and TIM10 are kept, TIMER_AUX is not |
| GenAsm.EquLines | internal/gen_asm.go:64-66 | one `.equ _REG, offset` line per register, in order |
| GenAsm.PrintField | internal/gen_asm.go:72-81 | one field prints as `PrintedField` describes |
| GenAsm.PrintFields | internal/gen_asm.go:72-81 | the field loop prints as the walk of `FieldStep` describes |
| GenAsm.PrintSection | internal/gen_asm.go:69-82 | one register's section prints as `SectionStep` describes |
| GenAsm.PrintSections | internal/gen_asm.go:69-83 | the section loop prints as the walk of `SectionStep` describes |
| GenAsm.PrintEqus | internal/gen_asm.go:64-66 | the offset loop appends the `.equ` lines of all registers |
| GenAsm.ExpandFamily | internal/gen_asm.go:14-35 | the family step as run gives `Expand` |
| GenAsm.PrintRegisters | internal/gen_asm.go:58-83 | the register part as run gives `AsmRegisters` |
| GenAsm.PrintCollected | internal/gen_asm.go:37-84 | everything after the family step as run gives `AsmCollected` |
| GenAsm.Generate | internal/gen_asm.go:11-87 | `GenAsm` prints and returns exactly `AsmOutput` |
| GenAsm.FieldStepSpec | internal/gen_asm.go:73-80 | a 1-bit field prints only `b_…, 1<<off`; a wider one prints the mask of bits off … off+n−1 and then the offset; a negative width hangs and a negative offset panics |
| GenAsm.FieldsWalk | internal/gen_asm.go:72-81 | fields that all print are printed one after the other |
| GenAsm.SectionStepSpec | internal/gen_asm.go:69-82 | a section whose fields all print is its header then its field lines; otherwise the section stops |
| GenAsm.SectionErrors | internal/gen_asm.go:77 | a section stops only in a hang or a panic |
| GenAsm.RegistersLayout | internal/gen_asm.go:58-83 | the heading, all `.equ` offset lines, then one section per register, in order |
| GenAsm.RegistersStop | internal/gen_asm.go:77 | a field that does not print ends the call in a hang or a panic |
| GenAsm.MaskExample | internal/gen_asm.go:76-79 | a 4-bit field at bit 8 prints `m_… 0x00000F00` and `o_… 8` |
| GenAsm.AsmSingle | internal/gen_asm.go:37-45 | a plain name prints one base line for the peripheral found, then its register part headed by the name given |
| GenAsm.AsmFamily | internal/gen_asm.go:43-62 | in multi mode the family base lines replace the single base line, and the heading names the `%` pattern |
| GenAsm.AsmNoneSelected | internal/gen_asm.go:51-60 | when no register matches, only the base line(s) are printed and nil is returned |
| GenAsm.AsmErrors | internal/gen_asm.go:18-41 | a failed family query prints nothing; a failed collection keeps the family lines and returns the wrapped error |
| GenForth.RegConsts | internal/gen_forth.go:74-77 | one `NAME_BASE off + constant pre_REG` line per register, in order |
| GenForth.PrintConstField | internal/gen_forth.go:88-97 | one field prints as `ConstField` describes |
| GenForth.PrintConstFields | internal/gen_forth.go:88-97 | the field loop prints as the walk of `ConstField` describes |
| GenForth.PrintConstSection | internal/gen_forth.go:80-98 | one register's section prints as `ConstSection` describes |
| GenForth.PrintConstSections | internal/gen_forth.go:80-99 | the section loop prints as the walk of `ConstSection` describes |
| GenForth.PrintRegConsts | internal/gen_forth.go:74-77 | the register loop appends all address constants |
| GenForth.PrintConsts | internal/gen_forth.go:53-100 | what `GenForthConsts` prints for a collected peripheral is `ConstsOf` |
| GenForth.GenerateConsts | internal/gen_forth.go:46-103 | `GenForthConsts` prints and returns exactly `ConstsOutput` |
| GenForth.DollarHex | internal/gen_forth.go:58 | the first `0x` becomes `$` |
| GenForth.ForthMaskExample | internal/gen_forth.go:94-95 | a 4-bit field at bit 8 prints the unshifted `$0000000F 8` |
| GenForth.ConstFieldSpec | internal/gen_forth.go:90-96 | a 1-bit field gives `1 off lshift constant`, never a 2constant; another non-negative width gives its all-ones mask and offset; a negative width hangs |
| GenForth.ConstFieldsWalk | internal/gen_forth.go:88-97 | fields with non-negative widths print one line each, in order |
| GenForth.ConstSectionSpec | internal/gen_forth.go:80-98 | a section is its comment then its field lines, or hangs on a negative width |
| GenForth.ConstsLayout | internal/gen_forth.go:53-100 | the support words if asked, the base constant, one address constant per selected register, then one section per selected register |
| GenForth.ConstsHang | internal/gen_forth.go:94 | a negative width anywhere in the selected registers hangs the program |
| GenForth.ConstsShortName | internal/gen_forth.go:60 | a name shorter than three characters panics right after the base constant |
| GenForth.ConstFieldShift | internal/gen_forth.go:88-97 | lines already printed stay in front of a field's line |
| GenForth.ConstSectionShift | internal/gen_forth.go:80-99 | lines already printed stay in front of a section |
| GenForth.ConstsAfterShift | internal/gen_forth.go:58-100 | lines printed before the base constant stay in front of everything after it |
| GenForth.ConstsPreamble | internal/gen_forth.go:53-56 | `Addwords` puts `modify-reg` in front and changes nothing else |
| GenForth.PrintEntry | internal/gen_forth.go:141-153 | one register of the layout as run gives `RegEntry` |
| GenForth.PrintEntries | internal/gen_forth.go:141-153 | the layout loop, from address 0, prints as the walk of `RegEntry` describes |
| GenForth.PrintRegsField | internal/gen_forth.go:160-168 | one field prints as `RegsField` describes |
| GenForth.PrintRegsFields | internal/gen_forth.go:160-168 | the field loop prints as the walk of `RegsField` describes |
| GenForth.PrintRegsSection | internal/gen_forth.go:157-169 | one register's section prints as `RegsSection` describes |
| GenForth.PrintRegsSections | internal/gen_forth.go:157-170 | the section loop prints as the walk of `RegsSection` describes |
| GenForth.PrintRegsLayout | internal/gen_forth.go:141-170 | the layout, `end-registers` and the sections as run give `RegsLayout` |
| GenForth.PrintRegs | internal/gen_forth.go:112-171 | what `GenForthRegs` prints for a collected peripheral is `RegsOf` |
| GenForth.GenerateRegs | internal/gen_forth.go:105-174 | `GenForthRegs` prints and returns exactly `RegsOutput` |
| GenForth.OffsetLeIsPreorder | internal/gen_forth.go:134-138 | the offset comparison is a valid sort order |
| GenForth.RegsOrder | internal/gen_forth.go:134-138 | the registers are laid out in ascending numeric offset, and they are exactly the selected registers |
| GenForth.EntriesWalk | internal/gen_forth.go:141-153 | over parsing offsets, each register gets a `drop` to its offset exactly when it differs from the running address, then its `reg` line |
| GenForth.EntryAdvance | internal/gen_forth.go:141-153 | one more register extends the layout by its entry and moves the address to its offset + 4 |
| GenForth.EntryStep | internal/gen_forth.go:147-152 | the step of register i, reached at its running address, prints its entry and sets the address to its offset + 4 |
| GenForth.DropExample | internal/gen_forth.go:147-151 | offsets 0x00, 0x04, 0x0C give one `drop`, before 0x0C |
| GenForth.ParseFailureStops | internal/gen_forth.go:142-145 | the first offset that does not parse stops the layout with "Unable to parse hex …", after the earlier entries |
| GenForth.EntriesThenSections | internal/gen_forth.go:141-157 | when every offset parses, all entries precede `end-registers`, which precedes the field sections |
| GenForth.SortSingle | internal/gen_forth.go:134-138 | a single register is sorted as it is |
| GenForth.RegsShortOffset | internal/gen_forth.go:134-145 | an offset shorter than two characters panics right after `registers` |
| GenForth.RegsNoneSelected | internal/gen_forth.go:119-154 | with no register selected, `registers` is followed directly by `end-registers` |
| GenForth.RegsShortName | internal/gen_forth.go:120 | a name shorter than two characters panics right after `registers` |
| GenForth.RegsFieldSpec | internal/gen_forth.go:161-167 | a 1-bit field is one `off bit constant` word; a wider one is the 2constant of 2^n − 1 and the offset; a negative width hangs |
| GenForth.MaskDigitsReadBack | internal/gen_forth.go:165-166 | for a width n ≤ 32 other than 1, the `2constant` line carries the mask in exactly eight hex digits after `$`, and `ParseUint(_, 16, 32)` reads them back as 2^n − 1 |
| GenForth.MaskConstDigits | internal/gen_forth.go:166 | the eight digits after `$` in a `2constant` line read back as its 32-bit mask |
| GenForth.BitWordExample | internal/gen_forth.go:162-163 | bit 5 of CR.EN prints `5 bit constant b_CR_EN` |
| GenForth.RegEntryShift | internal/gen_forth.go:141-153 | lines already printed stay in front of a layout entry |
| GenForth.RegsFieldShift | internal/gen_forth.go:160-168 | lines already printed stay in front of a field's line |
| GenForth.RegsSectionShift | internal/gen_forth.go:157-169 | lines already printed stay in front of a section |
| GenForth.RegsLayoutShift | internal/gen_forth.go:141-170 | lines already printed stay in front of the whole layout |
| GenForth.RegsAfterShift | internal/gen_forth.go:119-170 | lines already printed stay in front of everything after `registers` |
| GenForth.RegsPreamble | internal/gen_forth.go:112-115 | `Addwords` puts the register-definition words in front and changes nothing else |
| Display.PrintField | internal/display.go:53-61 | one field prints as `FieldEntry` describes |
| Display.PrintFields | internal/display.go:53-61 | the field loop prints as the walk of `FieldEntry` describes |
| Display.PrintRegister | internal/display.go:45-62 | one register prints as `RegisterEntry` describes |
| Display.PrintListing | internal/display.go:45-63 | the register loop prints as `Listing` describes |
| Display.Display | internal/display.go:10-67 | `Display` prints and returns exactly `DisplayOutput` |
| Display.AliasNameById | internal/display.go:22-26 | the alias note names the peripheral `fetch_peripheral` returns, and is empty for an id with no row |
| Display.FieldMaskBits | internal/display.go:59 | the printed mask has exactly bits off … off+n−1 set |
| Display.FieldEntrySpec | internal/display.go:54-60 | a field whose mask computes prints its line; a negative width hangs; a negative offset panics |
| Display.FieldsLayout | internal/display.go:53-61 | fields whose masks compute print one line each, in order |
| Display.FieldsStop | internal/display.go:53-61 | the fields stop only in a hang or a panic, and do stop at a mask that does not compute |
| Display.RegisterEntrySpec | internal/display.go:45-62 | a register prints its line then one line per field, or stops in a hang or a panic |
| Display.ListingLayout | internal/display.go:45-63 | when every mask computes, the listing is each register's lines in turn and nil is returned |
| Display.ListingStatus | internal/display.go:45-66 | the listing ends normally exactly when every mask computes, otherwise in a hang or a panic, never with an error value |
| Display.RegisterKeeps | internal/display.go:46-50 | earlier lines stay in front and the register's own line comes next |
| Display.ListingPrefix | internal/display.go:45-50 | the listing starts with the lines before it, then the first register's line |
| Display.ShownStatus | internal/display.go:29-32 | an error value exactly when the collection failed, wrapped with the peripheral's name |
| Display.DisplayStatus | internal/display.go:10-66 | an unknown name prints only the title and returns "No peripheral with name like: …"; an error value comes exactly from that or a failed collection; otherwise the call ends normally or in a hang or a panic after its head |
| Display.DisplayAlias | internal/display.go:18-26 | a derived peripheral prints its own name and base address, then `Has the same registers as <target>` |
| Display.DisplayFirstRegister | internal/display.go:18-50 | a peripheral that is not derived has no alias note: its first selected register follows the base address |
| Display.DisplayListing | internal/display.go:35-63 | when every mask computes, the head is followed by exactly the registers whose name contains the pattern (ignoring case), in order, and nil is returned |
| Display.MaskExample | internal/display.go:59-60 | a 1-bit field at bit 3 prints `mask: 0x00000008` |
| Display.DescriptionsWhenVerbose | internal/display.go:46-58 | descriptions appear only when verbose, after ` - `; a null reset value prints as the empty string |

## Left out

- XML decoding, `os.ReadFile`, `sql.Open` and the schema `Exec` are not modelled (svd2db/svd2db.go:63-74, svd2db/db_helpers.go:32-46). The parsed device is a datatype and the store starts empty. `os.Stat` is replaced by a set of existing file names.
- The "Processing Peripheral" progress line (svd2db/svd2db.go:113) is console output with no effect on the store, so it is not modelled.
- `cmd/*.go` (the command-line wiring) is not part of this model.
- `OpenDatabase`, `CloseDatabase`, `FindUpwards` with `os.Getwd`, and the `SetSearchPath`/`SetDatabase`/`SetVerbose` globals are left out. They are process I/O. `verbose` and `Addwords` are parameters.
- `getMPU`, `List`, `Dump`, `Registers`, `fetch_peripherals` and the `String` methods (internal/svd_lookup.go:57-84, 161-169, 272-381) only read and print. They are left out. The MPU name is a parameter of `Display.Display`.
- The `Display` at internal/svd_lookup.go:187-240 is a second definition of the function in internal/display.go, and the package cannot hold both. Only the display.go version is modelled. The other filters with `continue` instead of `DeleteFunc`, which prints the same lines.
- `fetch_peripherals_like` is not part of this model. `GenAsm.Generate` takes its result as a parameter (`LikeQuery`), with no assumption about order.
- GenAsm.Generate: the family base lines and the collected registers come from two separate queries. The model does not relate them beyond what the Go code does.
- Lookup.IntPow: requires a non-negative exponent. For a negative one the Go loop never ends, because `exp >>= 1` stops at −1. The callers' models (`Render.UnshiftedMask`, `Render.ShiftedMask`) record that case as `Hangs` without calling the method.
- Store.Db.Insert: requires a non-empty map. With an empty one, `strings.Repeat` gets the count −1 and panics. Every caller passes at least the name column.
- Store.BuildInsert: requires a non-empty map, for the same reason as `Store.Db.Insert`.
- Integers are unbounded. Go's 64-bit `int` wraps for masks with num_bits + bit_offset ≥ 63, and `%08X` of a negative value is not modelled.
- GenForth.RegsOrder: `sort.Slice` is not stable, while the model's `SortBy` is. Registers with equal numeric offsets may come out in another order in Go. Only "sorted by offset and a permutation of the selection" is claimed.
- Lookup.RegistersSorted: SQLite does not fix the order of rows with equal names (or equal bit offsets for `Lookup.FieldsSorted`). The model keeps id order for ties. Only the ascending order is claimed.
- The iteration order of a Go map is left open. `Store.Db.Insert` picks some order (`Store.OrderExists`), and `Store.BindRecovers` shows the result does not depend on it.
- Failures of the database driver are a `Fault` parameter of `Store.Db.Insert` and a `ReadFault` parameter of `Lookup.FetchRegisters` and `Lookup.FetchFields`. Disk and locking behaviour is not modelled.
- Ingest.Convert: it and the other `Ingest` members always insert with `NoFault`. A driver failure inside `db_insert` during a conversion, and the error svd2db then returns, is stated only for `Store.Db.Insert` on its own.
- Lookup.CollectRegisters: it reads with `NoReadFault`. The query and `rows.Err()` failures of its fetches are modelled only in `Lookup.FetchRegisters` and `Lookup.FetchFields`, so the printers never show them.
- Lookup.PeripheralByName: the query at internal/svd_lookup.go:386 has no `ORDER BY`, so SQLite does not fix which row `QueryRow` returns when a pattern matches several names. The model takes the first match in id order, which is what a full scan of the table gives, since `lower(name)` cannot use the UNIQUE index.
- Lookup.ScanText: an integer cell scanned into a `string` is an error here, while `database/sql` would convert it. The converter never stores an integer in a text column.
- Error texts of `database/sql` scans are modelled by fixed strings, not the driver's exact messages. A SQLite constraint failure in `db_insert` is the step constructor `ExecFailed`, which carries no text.
- Ingest.IngestError: the errors the converter builds with `fmt.Errorf` (svd2db/svd2db.go:66-233) are constructors such as `BadBitOffset(token)`, `NotYetEntered(name, derivedFrom)` and `InsertFailed(table, name, cause)`, not their Go texts. A `bitRange` too short to slice, or without a `:`, makes Go panic at run time (svd2db/svd2db.go:208-213). The model returns the value `BitRangePanic` instead of ending the process.
- Store.DbError: the errors `db_insert` returns (svd2db/db_helpers.go:65-87) are reduced to the step that failed (`BeginFailed` … `CommitFailed`). The driver's message wrapped by `%w` is not kept.
- GenForth.ParseFailureStops: the `strconv.NumError` text is approximated. The offending text is quoted without Go's escaping of special characters.
- Panic messages are abstracted to "slice bounds out of range" and "negative shift amount". The indices Go adds to them are not modelled.
- `lookupFile`: the file name is treated as a literal path. Glob metacharacters are not modelled, and the start directory must be a clean absolute path given as its list of elements.
- Text.ToLower: lower-casing is ASCII-only (Go's `strings.ToLower` also folds non-ASCII letters). Strings are sequences of characters, not UTF-8 bytes.
- The Forth support words (internal/gen_forth.go:12-41) are constant strings. Each one is printed as a single element of the output, together with the `Println` after it.
