# comma — a Dafny model of the `comma` CSV session library

`comma` wraps Python's `csv` module in two objects. A `CommaRow` is one
record of text fields, with an optional header (the column names) and
parser/serializer callbacks registered by position or by column name; it is
read by index, by name, by slice, as a list or as a dict, and assigned in
place. A `Comma` session opens a CSV file (or takes an open file object),
decides what it reads and where it writes — a memory buffer copied over the
file on close when it reads and writes the same file, the file itself
otherwise, or the file itself with the input moved to a backup copy —
settles the dialect and whether the first line is a header, yields the data
lines as rows and writes rows back. `make_backup` derives a backup name by
inserting a date suffix before the file's extension, steps past names that
are taken, and is meant to copy the file there (as written it never gets
that far; see "## Findings").

The model (Dafny 4.11) is split into modules that follow the source:

- `Common` — `Option`/`Result`, the Python exceptions the core raises, the
  messages it raises them with, Python's negative indexes (`PyIndex`) and
  `in` on strings.
- `Dialects` — `CommaDialect` and the dialect record.
- `Slices` — `range` and `slice.indices`, i.e. what `range(n)[a:b:c]` selects.
- `Rows` — the row as a value (`Row`, with `Parse`, `Serialize`, `Get`,
  `AsList`, `AsDict`, `Set`) and the `CommaRow` class whose `row` field is
  updated in place.
- `Files` — the file system as a map from path to records (`FileStore`).
- `Backup` — `make_backup`: name derivation, the collision loop, the copy,
  and the function as written.
- `Session` — the `Comma` class: stream set-up, sniffing defaults, header
  consumption, the `header` property, `next`, `write_header`, `write_row`
  and `close`.
- `Usage` — whole sessions from open to close: write then read back, edit in
  place, edit with a backup.

Values are text throughout: a parsed or native value is a `string` and a
callback is a `string -> string`. Records are already split into fields; the
byte-level CSV codec is below the model. The clock and the `csv.Sniffer`
verdict are parameters.

Three behaviours of the code a reader may not expect, which the model keeps:

- a header with a repeated name resolves that name to its LAST position
  (the name index is built left to right);
- a path without a '.' gets the suffix appended AND a trailing '.'
  (`notes` → `notes_<suffix>.`), and a path whose only '.' leads it loses
  that '.' (`.env` → `env_<suffix>.`);
- a path that exists but is not read is opened with "w", so it is emptied
  even when writing was not asked for.

## Model

| member | source | states |
|---|---|---|
| Common.PyIndex | comma/comma.py:53 | an integer index is valid exactly when -n <= i < n, and then denotes the position congruent to it modulo n |
| Slices.Range | comma/comma.py:109 | `range(start, stop, step)` lists integers from `start` inclusive up to but excluding `stop`, strictly increasing for a positive step and strictly decreasing for a negative one |
| Slices.RangeIsProgression | comma/comma.py:109 | the k-th integer `range(start, stop, step)` lists is start + k·step, and the next one in the progression would no longer be before `stop` |
| Slices.SliceIndices | comma/comma.py:109 | `range(n)[a:b:c]` raises exactly when the step is zero; otherwise every selected position is a valid index of the row, increasing for a positive step and decreasing for a negative one |
| Slices.SliceIsProgression | comma/comma.py:109 | the selected positions form a progression with step c; it starts at the position a valid `a` names (at 0 or n-1 by direction when `a` is missing), stays before the position a valid `b` names, and runs to the end of the row when `b` is missing |
| Slices.SliceReachesStop | comma/comma.py:109 | with a valid stop the slice runs up to it: one more step after the last selected position reaches or passes the stop, and with a valid start too the slice is empty exactly when the start is at or past the stop in the step's direction |
| Slices.RangeUpByOne | comma/comma.py:109 | a unit-step range from a to b lists a, a+1, ..., b-1 |
| Slices.FullSliceIsEveryIndex | comma/comma.py:89 | `[:]` on `range(n)` selects every position 0..n-1 in order |
| Slices.ReverseSliceIsEveryIndexBackwards | comma/comma.py:109 | `[::-1]` on `range(n)` selects every position from n-1 down to 0 |
| Slices.RangeDownByOne | comma/comma.py:109 | a step -1 range from a down to b lists a, a-1, ..., b+1 |
| Rows.HeaderIndex | comma/comma.py:41-42 | `header_dict` has exactly the header's names as keys, maps each to a position holding that name, and no later position holds it (last occurrence wins) |
| Rows.Row.Parse | comma/comma.py:52-66 | `_parse(i)` fails exactly when i is out of range (IndexError) or a parser dict meets a missing header (TypeError from subscripting None) |
| Rows.Row.Serialize | comma/comma.py:68-83 | `_serialize(i, data)` fails exactly when a serializer dict meets a missing header, with the named-access ValueError |
| Rows.Row.ParseEach | comma/comma.py:109 | mapping `_parse` over positions succeeds exactly when every position parses, and then yields each parsed value in order; a failure is the failure of some position |
| Rows.Row.Get | comma/comma.py:101-110 | `row[key]`: an integer succeeds exactly for a valid Python index unless a parser dict lacks a header; a name needs a header holding it and a missing one raises KeyError; only a slice yields a list; any other key raises a bare TypeError |
| Rows.Row.AsList | comma/comma.py:88-89 | `list()` can fail only for a parser dict without header, and then with TypeError |
| Rows.Row.DictPrefix | comma/comma.py:94 | the dict comprehension over the first n positions raises IndexError exactly when the header is shorter than n; otherwise its keys are the names among the first n header entries, each mapped to the parsed value at that name's last position among them |
| Rows.Row.AsDict | comma/comma.py:91-94 | `dict()` fails exactly without a header (ValueError) or when the row is longer than its header; its keys are names of the header |
| Rows.Row.Store | comma/comma.py:114 | `self.row[i] = text` raises TypeError on a tuple row and IndexError for an index out of range, and otherwise replaces exactly the field Python's index i names by `text` |
| Rows.Row.Set | comma/comma.py:112-121 | `row[key] = value` as intended: another kind of key raises TypeError; an integer key fails exactly for a serializer dict without header, a tuple row or an index out of range, and otherwise the field the index names holds `_serialize(i, value)` and every other field is unchanged; any key keeps length, header and callbacks |
| Rows.Row.SetAsWritten | comma/comma.py:112-121 | as written, an integer key raises the missing-argument TypeError, so only a name can ever be assigned |
| Rows.Row.SerializePrefix | comma/comma.py:50 | the constructor's comprehension fails exactly when there is a value to serialize and a serializer dict meets a missing header; otherwise position i holds `_serialize(i, value_i)` |
| Rows.Unpack | comma/comma.py:31-39 | a list gives the fields and the given header; a dict gives its keys as the header and its values as tuple fields, position by position, and fails exactly when empty |
| Rows.Build | comma/comma.py:26-50 | both or neither of text row and native row raise the "exactly one" ValueError; a built row keeps the callbacks, and one built from native values is a list |
| Rows.BuildNeedsExactlyOneRow | comma/comma.py:27-28 | building a row raises the "exactly one" ValueError if and only if both or neither of text row and native row are given |
| Rows.TextRowKeepsItsFields | comma/comma.py:31-39 | a text list keeps its fields and the header given; a text dict supplies its own header and fields (as a tuple) and fails only when empty |
| Rows.NativeRowStoresSerializedText | comma/comma.py:47-50 | a native list stores `_serialize(i, value_i)` at every position, same length and order, and fails only when a serializer dict meets a missing header on a non-empty row |
| Rows.NativeDictStoresSerializedText | comma/comma.py:35-50 | a native dict takes its keys, in order, as the header (the header argument is ignored), stores at each position `_serialize(i, value)` of the value under that key, and fails only when empty |
| Rows.PlainNativeRowKeepsItsValues | comma/comma.py:47-50 | without serializers, a native row stores exactly its values |
| Rows.ParseResolution | comma/comma.py:52-66 | at a valid position, `_parse` applies the list parser at that position if the list reaches it, the dict parser under the column's name if there is one, otherwise returns the raw text; a dict without header raises TypeError |
| Rows.ParseFromTheEnd | comma/comma.py:53-59 | a negative index reads the field counted from the end through the parser counted from the end of the parser list |
| Rows.SerializeResolution | comma/comma.py:68-83 | `_serialize` applies the list serializer at the position, the dict serializer under the column's name, or none; a dict without header raises ValueError |
| Rows.AsListIsEveryField | comma/comma.py:88-89 | `list()` has one parsed value per field in field order, and fails only for a parser dict without header on a non-empty row |
| Rows.SliceIsParsedPositions | comma/comma.py:108-109 | a slice key yields the parsed values at exactly the positions the slice selects, in its order; a zero step raises ValueError |
| Rows.NamedAccessNeedsHeader | comma/comma.py:76-77 | without a header, `dict()`, `row[name]`, `row[name] = v` and a serializer dict raise the named-access ValueError, and a parser dict raises TypeError |
| Rows.NamedGetIsPositionalGet | comma/comma.py:104-107 | `row[name]` is `row[i]` for the position `header_dict` gives the name |
| Rows.DistinctNamesReadTheirPosition | comma/comma.py:41-42 | with distinct header names, `row[header[j]]` is `row[j]` |
| Rows.RepeatedNameResolvesToLastPosition | comma/comma.py:42 | the header `id, name, id` resolves `id` to position 2 |
| Rows.AsDictAgreesWithNamedGet | comma/comma.py:91-94 | when header and row have the same length, `dict()` succeeds, its keys are the header's names, and each maps to `row[name]` |
| Rows.AsDictKeys | comma/comma.py:91-94 | `dict()` raises exactly when the row is longer than its header; otherwise its keys are exactly the names at the row's positions |
| Rows.RaggedRowRaisesPastLastField | comma/comma.py:101-107 | a column the header names but the row lacks raises IndexError by position and by name |
| Rows.SetByNameTouchesOneField | comma/comma.py:115-119 | setting by name succeeds exactly when the row is a list and long enough; then only the name's position changes, to the serialized value |
| Rows.SetThenGetRoundTrip | comma/comma.py:112-114 | with an inverse pair of positional parser and serializer at a non-negative position, setting a position and reading it gives the value back, and no other position reads differently |
| Rows.SetThenGetByName | comma/comma.py:60-82 | with a header and an inverse pair of parser and serializer keyed by the position's column name, setting the position succeeds and reading it gives the value back, and no other position reads differently |
| Rows.SerializedRowParsesBack | comma/comma.py:52-89 | a row holding the serialization of each value reads back, as `list()` through positional parsers undoing the positional serializers, exactly those values |
| Rows.NativeRowReadsBack | comma/comma.py:26-89 | a row built from native values with positional serializers is a list row with the given header, and its `list()` through inverse parsers gives back the values |
| Rows.SerializedRowParsesBackByName | comma/comma.py:52-89 | a row holding the name-keyed serialization of each value reads, as `list()` through name-keyed parsers, each value serialized and parsed under its column's name (raw where the name has no callback or the position is past the header), so it reads the values exactly when every column reads back |
| Rows.NativeRowReadsBackByName | comma/comma.py:26-89 | a row built from native values with name-keyed serializers is a list row with the given header, and its `list()` through name-keyed parsers gives back the values exactly when every column reads back |
| Rows.SetByIndexAsWrittenAlwaysFails | comma/comma.py:114 | as written, every integer-key assignment raises TypeError, even where the intended assignment succeeds; named keys behave as intended |
| Rows.CommaRow.New | comma/comma.py:26-50 | the constructor raises what building the row raises, and otherwise makes a fresh row object holding the built row |
| Rows.CommaRow.Length | comma/comma.py:85-86 | `len(row)` is the number of fields |
| Rows.CommaRow.GetItem | comma/comma.py:101-110 | `row[key]` answers as the row value's `Get` |
| Rows.CommaRow.List | comma/comma.py:88-89 | `list()` answers as the row value's `AsList` |
| Rows.CommaRow.Dict | comma/comma.py:91-94 | `dict()` answers as the row value's `AsDict` |
| Rows.CommaRow.SetItem | comma/comma.py:112-121 | assignment either raises and leaves the fields as they were, or replaces the row's state by the intended `Set` result |
| Backup.LastDot | comma/comma.py:255 | the position `rpartition('.')` splits at: -1 exactly when there is no '.', otherwise a '.' with none after it |
| Backup.RPartition | comma/comma.py:255 | `rpartition('.')`: the three parts concatenate to the input, the separator is "." or empty, the tail holds no '.', and an empty separator means no '.' anywhere and an empty head |
| Backup.SplitName | comma/comma.py:255-258 | the (name, ext) pair: a non-empty ext has a non-empty name and `name.ext` is the path; ext never holds a '.'; an empty ext comes from a path without '.', a leading '.' or a trailing '.' |
| Backup.DecimalString | comma/comma.py:263 | `str(x)` has at least one digit, at least two from 10 on |
| Backup.DecimalStringInjective | comma/comma.py:263 | distinct numbers have distinct decimal spellings |
| Backup.CandidatesDistinct | comma/comma.py:259-264 | the names the collision loop tries are pairwise distinct |
| Backup.DottedNameGetsSuffixBeforeExtension | comma/comma.py:255-260 | `stem.ext` with a non-empty stem and no '.' in ext splits into stem and ext, and its first candidate is `stem_<suffix>.ext` |
| Backup.UndottedNameGetsTrailingDot | comma/comma.py:255-260 | a path without '.' becomes `path_<suffix>.` |
| Backup.LeadingDotIsDropped | comma/comma.py:255-260 | a path whose only '.' is its first character loses it: `.rest` becomes `rest_<suffix>.` |
| Backup.Format | comma/comma.py:260-261 | `str.format` on the backup template fails only with the format error |
| Backup.FormatLiteral | comma/comma.py:260 | `str.format` leaves brace-free text unchanged |
| Backup.FormatFillsTheField | comma/comma.py:260 | a template with one `{}` between brace-free texts formats to those texts around the argument |
| Backup.TemplateGivesBackupPath | comma/comma.py:259-260 | for brace-free name and extension, the template yields `name_<suffix>.ext` |
| Backup.MakeBackupAsWritten | comma/comma.py:251-268 | as written, make_backup never returns; with neither a suffix nor a template it is strftime's TypeError |
| Backup.MakeBackupAsWrittenNeverCopies | comma/comma.py:251-268 | as written, make_backup raises TypeError when the first candidate is taken and NameError otherwise; it never copies |
| Backup.NoTemplateAsWrittenRaises | comma/comma.py:251-253 | as written, a None template reaches strftime and raises TypeError |
| Backup.BracedNameBreaksTemplate | comma/comma.py:259-260 | as written, `a{}.csv` makes the template `a{}_{}.csv`, which str.format rejects, while the intended first candidate is `a{}_<suffix>.csv` |
| Backup.RejectedTemplateRaises | comma/comma.py:259-261 | as written, whenever `str.format` rejects the template built from the file name, make_backup raises that error |
| Backup.SecondFieldIsRejected | comma/comma.py:259-261 | a template with two automatic `{}` fields given one argument is rejected by `str.format` |
| Backup.FreeBackupName | comma/comma.py:259-266 | the collision loop ends with the first candidate that is not an existing path, every earlier candidate existing |
| Backup.MakeBackup | comma/comma.py:251-268 | a missing original raises and changes nothing; otherwise the original's records are copied to the first free candidate and nothing else changes |
| Backup.FirstCandidateWhenFree | comma/comma.py:261-262 | when the plain `name_<suffix>.ext` is free, it is the backup name |
| Backup.FirstFreeIsUnique | comma/comma.py:259-266 | the backup name is determined by the existing paths, the name and the suffix |
| Backup.SecondBackupGetsLaterName | comma/comma.py:259-266 | backing up the same file again with the same suffix gives a different name, further along the candidates |
| Dialects.CommaDialectIsExcel | comma/comma.py:14-22 | the package's dialect has exactly the settings of Python's built-in `csv.excel` dialect |
| Session.Prepare | comma/comma.py:125-157 | readable/writeable from the path's existence or the handle's mode; a path that is not read is opened "w"; the output is the buffer exactly when reading and writing without backup, and the input comes from a backup exactly when reading and writing with one, so no file is read while it is written directly |
| Session.BackupInputMode | comma/comma.py:153 | the backup copy is opened in the file's mode without 'w', keeping every other mode character |
| Session.BackupStepAsWrittenAlwaysFails | comma/comma.py:148-153 | as written, a session asked for a backup always raises in the backup step; with `backup=True` it is strftime's TypeError |
| Session.Detect | comma/comma.py:160-170 | the caller's dialect and header flag win; the sniffer is used only for missing ones and only when sniffing with an input, and failing there raises csv.Error; otherwise the defaults are `CommaDialect` and "has a header" |
| Session.ConsumeHeader | comma/comma.py:188-192 | the first record becomes the header exactly when there is a header flag and a reader, reading then resumes after it, and an empty input raises StopIteration |
| Session.Flushed | comma/comma.py:239-249 | a buffer or an emptied file ends up holding exactly the written records, an appended file its old records followed by them, an overwritten file starts with them and keeps the rest of its old records only when it had more |
| Session.Comma.Open | comma/comma.py:124-195 | the file system changes only by emptying a path opened "w" or by the backup copy; the session's streams, dialect, header and reading position are those the set-up functions give, or set-up raises their error |
| Session.Comma.Header | comma/comma.py:197-200 | the `header` property yields the header data only while the session has a header |
| Session.Comma.SetHeader | comma/comma.py:202-205 | assigning `header` sets the header flag, and reading `header` then gives back what was assigned |
| Session.Comma.Next | comma/comma.py:213-219 | without a reader TypeError, after close ValueError, at the end StopIteration; otherwise a fresh text row of the next record with the session's header and callbacks, one record further |
| Session.Comma.WriteHeader | comma/comma.py:224-230 | no writer raises ValueError; no header flag writes nothing; a header flag without data raises csv.Error; otherwise the header is appended after the records written so far |
| Session.Comma.WriteRow | comma/comma.py:232-237 | no writer raises ValueError; a row that cannot be built raises its error; otherwise its serialized fields are appended after the records written so far |
| Session.Comma.Close | comma/comma.py:239-249 | as intended, the written records reach the file (a buffer replaces its contents) and the session is closed; nothing else changes |
| Session.Comma.CloseAsWritten | comma/comma.py:239-249 | as written, closing a buffered session raises TypeError and neither copies nor closes anything |
| Usage.WriteNewFile | comma/comma.py:124-249 | a session over a new path that is given a header, writes it and native rows, and closes leaves the file holding exactly the header followed by each row as `write_row` builds it with the session's serializers |
| Usage.ReadFile | comma/comma.py:188-219 | a read-only session with sniffing off takes the file's first record as the header and yields every later record in order, each row's `list()` parsed with the session's parsers |
| Usage.WriteThenRead | comma/comma.py:124-249 | a header and text rows written without callbacks by one session over a new path are read back, header and rows exactly, by a second session |
| Usage.ReadRest | comma/comma.py:213-219 | reading a session to its end from after the header yields every later record in order, each with its row's `list()` |
| Usage.WriteThenReadParsed | comma/comma.py:213-237 | native rows written through positional serializers and read back through parsers that undo them come back unchanged |
| Usage.WriteThenReadParsedByName | comma/comma.py:213-237 | native rows written through serializers keyed by column name and read back through name-keyed parsers that undo them come back unchanged, with the header |
| Usage.CopyEdited | comma/comma.py:213-237 | writing the header and then each record read back edited leaves the written records as the header followed by the edited records |
| Usage.EditInPlace | comma/comma.py:136-157 | with `close` as intended, reading every row and writing each back edited, through the buffer, leaves the file holding the header and the edited rows |
| Usage.EditWithBackup | comma/comma.py:148-153 | with the backup step as intended, editing leaves the original records in a new path and, record by record, the header and the edited rows in the file (which is overwritten from its start and never truncated, so its bytes match when each edited record is at least as long as the original) |

## Left out

- The CSV codec (quoting, escaping, line terminators of the dialect): records are already split into fields, and the dialect is only carried along.
- The `csv.Sniffer` heuristics: their verdict is the `Sniffer` parameter; which part of the file they read is not modelled.
- Real file I/O (`open`, `seek`, `truncate`, `os.path.exists`, `shutil.copyfile`): files are a map from path to records, a file object given to the session is assumed to be positioned at its start and to name an existing path.
- Session.Flushed: records written straight to a file reach it when the session is closed, not line by line; overwriting a file from its start (an "r+" handle, or the file after a backup) is modelled record by record, which matches the bytes only when each new record is as long as the one it replaces.
- The clock: `datetime.now().strftime(template)` is the `clock` parameter applied to the template.
- `str.format` beyond what the backup template can contain (conversions, format specs, named and numbered fields are all just a failure).
- `__repr__`, which only displays a row; `__iter__` and the Python 2 `next` alias, which behave as `__next__`.
- Passing a `CommaRow` or non-string values to `write_row`, and any non-string key or value beyond the kinds in `Key`: values are text.
- Rows.Row.DictPrefix: `dict()` returns a `map`, so the key order of Python's dict (each name where it first occurs among the row's positions) is not modelled; keys and values are.
- Rows.AsDictAgreesWithNamedGet: states the keys and values of `dict()`, not their insertion order, for the same reason.
- Rows.Row.AsDict: returns a `map`; its keys and values are those of `dict()`, but not their insertion order (header order), for the same reason.
- Rows.AsDictKeys: states the key set of `dict()`, not the order of its keys, for the same reason.
- Rows.SetThenGetRoundTrip: stated for non-negative positions; a negative index picks its parser and its serializer each counted from the end of its own list (Rows.ParseFromTheEnd), so which pair has to invert depends on three lengths.
- Usage.EditWithBackup: the file after a backup is opened "r+" and written from its start, and `close` truncates only the buffered case, so when edited records are shorter than the originals the old file's trailing bytes stay behind; the model states the outcome record by record.
- Rows.CommaRow.New: a text list is shared with the caller in Python, so assigning into the row changes the caller's list; the model copies.
- The top-level `comma.py` (a superseded draft outside the package) and `setup.py` (packaging metadata) are not part of this model.

## Findings

| source | as written | input that shows it | evidently intended | confidence | as-written member | corrected member |
|---|---|---|---|---|---|---|
| comma/comma.py:114 | `self._serialize(key)` omits the value, so every integer-key assignment raises TypeError | `row[0] = "x"` on any row | serialize `value` for that position and store it | not executed | Rows.SetByIndexAsWrittenAlwaysFails | Rows.Row.Set |
| comma/comma.py:150-151 | `backup=True` passes None as the template, and strftime(None) raises TypeError | `Comma(path, backup=True)` on an existing file | use make_backup's default template `%y%m%d` | not executed | Backup.NoTemplateAsWrittenRaises | Session.Comma.Open |
| comma/comma.py:153 | the session has no `mode`, so opening the backup raises AttributeError | a session with a truthy `backup` that reads and writes, once make_backup returns (as written it raises first) | open the backup in the file's mode without 'w' | not executed | Session.BackupStepAsWrittenAlwaysFails | Session.BackupInputMode |
| comma/comma.py:244 | the StringIO object is written instead of its contents, which raises TypeError, so a buffered edit never reaches the file | `close()` on a session that reads and writes a path | write the buffer's text over the file and truncate | not executed | Session.Comma.CloseAsWritten | Session.Comma.Close |
| comma/comma.py:263 | `suffix + "_" + x` adds an int to a str, so a taken first candidate raises TypeError | make_backup of `data.csv` when `data_<suffix>.csv` exists | try `<suffix>_1`, `<suffix>_2`, ... | not executed | Backup.MakeBackupAsWrittenNeverCopies | Backup.FreeBackupName |
| comma/comma.py:267 | `shutil` is never imported, so a free name raises NameError and nothing is copied | make_backup of `data.csv` when no backup exists | copy the original to the backup name | not executed | Backup.MakeBackupAsWrittenNeverCopies | Backup.MakeBackup |
| comma/comma.py:259-261 | the file name is pasted into a `str.format` template, so braces in it break the template | make_backup of `a{}.csv` | insert the suffix without interpreting the name | not executed | Backup.BracedNameBreaksTemplate | Backup.MakeBackup |
