/** Whole sessions, from opening to closing: what a file holds after a
    session writes it, and what a later session reads back. */
module Usage {
  import opened Common
  import opened Dialects
  import opened Rows
  import opened Files
  import opened Backup
  import opened Session

  /** Each record of `rows` passed through `edit`. */
  function EditAll(edit: Record -> Record, rows: seq<Record>): (r: seq<Record>)
    ensures |r| == |rows| && forall i :: 0 <= i < |rows| ==> r[i] == edit(rows[i])
  {
    seq(|rows|, i requires 0 <= i < |rows| => edit(rows[i]))
  }

  /** The clock of sessions that make no backup; it is never consulted. */
  function Unused(template: string): string
  {
    template
  }

  /** The records a new file holds after a session writes `header` and then
      each of `rows` as a native row: the header first, then at position
      k + 1 the text row `write_row` builds from `rows[k]` with the
      session's callbacks. */
  ghost predicate HoldsWritten(records: seq<Record>, header: Record, rows: seq<seq<string>>,
                               parsers: Callbacks, serializers: Callbacks)
  {
    |records| == |rows| + 1 && records[0] == header &&
    forall k :: 0 <= k < |rows| ==>
      Build(None, Some(Fields(rows[k])), Some(header), parsers, serializers)
        == Ok(Row(records[k + 1], Some(header), parsers, serializers, false))
  }

  /** One more row written keeps the records and the rows in step. */
  lemma {:induction false} HoldsWrittenStep(records: seq<Record>, header: Record, rows: seq<seq<string>>, i: nat,
                                            parsers: Callbacks, serializers: Callbacks, text: Record)
    requires i < |rows| && HoldsWritten(records, header, rows[..i], parsers, serializers)
    requires Build(None, Some(Fields(rows[i])), Some(header), parsers, serializers)
               == Ok(Row(text, Some(header), parsers, serializers, false))
    ensures HoldsWritten(records + [text], header, rows[..i + 1], parsers, serializers)
  {
    var after, done := records + [text], rows[..i + 1];
    forall k | 0 <= k < i + 1
      ensures Build(None, Some(Fields(done[k])), Some(header), parsers, serializers)
                == Ok(Row(after[k + 1], Some(header), parsers, serializers, false))
    {
      if k < i {
        assert done[k] == rows[..i][k];
      }
    }
  }

  /** A session over a path that does not exist yet, given a header and
      callbacks, writes the header and the rows and closes: the file then
      holds the header followed by each row as `write_row` serializes it. */
  method WriteNewFile(path: string, header: Record, rows: seq<seq<string>>,
                      parsers: Callbacks, serializers: Callbacks)
    returns (files: map<string, seq<Record>>)
    ensures files.Keys == {path}
    ensures HoldsWritten(files[path], header, rows, parsers, serializers)
  {
    var store := new FileStore(map[]);
    assert Prepare(Path(path), false, true, true, false).output == Some(Truncated);
    assert Detect(1024, false, None, None, Sniffer(None, None)) == Ok((CommaDialect, true));
    var started := Comma.Open(store, Path(path), true, true, NoBackup, None, None, 1024,
                              parsers, serializers, Sniffer(None, None), Unused);
    var writer := started.value;
    writer.SetHeader(Some(header));
    var _ := writer.WriteHeader();
    var i := 0;
    while i < |rows|
      invariant 0 <= i <= |rows|
      invariant writer.Valid() && !writer.closed && writer.output == Some(Truncated)
      invariant writer.headerData == Some(header) && writer.csvName == path
      invariant writer.parsers == parsers && writer.serializers == serializers
      invariant HoldsWritten(writer.written, header, rows[..i], parsers, serializers)
      invariant store.files == map[path := []]
    {
      NativeRowStoresSerializedText(rows[i], Some(header), parsers, serializers);
      var built := Build(None, Some(Fields(rows[i])), Some(header), parsers, serializers);
      assert built == Ok(Row(built.value.fields, Some(header), parsers, serializers, false));
      HoldsWrittenStep(writer.written, header, rows, i, parsers, serializers, built.value.fields);
      var _ := writer.WriteRow(Fields(rows[i]));
      i := i + 1;
    }
    assert rows[..i] == rows;
    var _ := writer.Close();
    files := store.files;
  }

  /** A read-only session with sniffing off and no dialect or header flag given, over
      a file with at least one record, takes the first record as the header
      and yields every later record, in order; `values` holds each row's
      `list()`, parsed with the session's parsers. */
  method ReadFile(files: map<string, seq<Record>>, path: string, parsers: Callbacks, serializers: Callbacks)
    returns (readHeader: Option<Record>, back: seq<Record>, values: seq<seq<string>>)
    requires path in files && |files[path]| >= 1
    ensures readHeader == Some(files[path][0])
    ensures back == files[path][1..]
    ensures ListedAs(back, values, readHeader, parsers, serializers)
  {
    var records := files[path];
    var store := new FileStore(files);
    assert Prepare(Path(path), true, true, false, false).output == None;
    assert ConsumeHeader(true, true, records) == Ok((Some(records[0]), 1));
    var started := Comma.Open(store, Path(path), true, false, NoBackup, None, None, 0,
                              parsers, serializers, Sniffer(None, None), Unused);
    var reader := started.value;
    back, values := ReadRest(reader);
    readHeader := reader.Header();
  }

  /** `values` holds the `list()` of each text row in `back`, read with
      `header` and the callbacks. */
  ghost predicate ListedAs(back: seq<Record>, values: seq<seq<string>>, header: Option<Record>,
                           parsers: Callbacks, serializers: Callbacks)
  {
    |values| == |back| &&
    forall k :: 0 <= k < |back| ==> Row(back[k], header, parsers, serializers, false).AsList() == Ok(values[k])
  }

  /** One more row read keeps the records and their lists in step. */
  lemma ListedAsStep(back: seq<Record>, values: seq<seq<string>>, header: Option<Record>,
                     parsers: Callbacks, serializers: Callbacks, text: Record, listed: seq<string>)
    requires ListedAs(back, values, header, parsers, serializers)
    requires Row(text, header, parsers, serializers, false).AsList() == Ok(listed)
    ensures ListedAs(back + [text], values + [listed], header, parsers, serializers)
  {
    var b, v := back + [text], values + [listed];
    forall k | 0 <= k < |b|
      ensures Row(b[k], header, parsers, serializers, false).AsList() == Ok(v[k])
    {
      if k < |back| {
        assert b[k] == back[k] && v[k] == values[k];
      }
    }
  }

  /** The reading loop of a session with header data: every record after
      the first, in order, with its row's parsed values. */
  method ReadRest(reader: Comma) returns (back: seq<Record>, values: seq<seq<string>>)
    requires reader.Valid() && reader.readable && !reader.closed && reader.headerData.Some?
    requires reader.cursor == 1
    modifies reader`cursor
    ensures reader.Valid() && reader.cursor == |reader.inputRecords|
    ensures back == reader.inputRecords[1..]
    ensures ListedAs(back, values, reader.headerData, reader.parsers, reader.serializers)
  {
    var records, header := reader.inputRecords, reader.headerData;
    back, values := [], [];
    var k := 1;
    while k < |records|
      invariant 1 <= k <= |records|
      invariant reader.Valid() && reader.cursor == k && reader.headerData == header
      invariant back == records[1..k]
      invariant ListedAs(back, values, header, reader.parsers, reader.serializers)
    {
      var text, listed := NextListed(reader);
      ListedAsStep(back, values, header, reader.parsers, reader.serializers, text, listed);
      back, values := back + [text], values + [listed];
      assert records[1..k + 1] == records[1..k] + [records[k]];
      k := k + 1;
    }
  }

  /** `next(session)` followed by the row's `list()`, in a session with
      header data: the record read and its parsed values. */
  method NextListed(reader: Comma) returns (text: Record, listed: seq<string>)
    requires reader.Valid() && reader.readable && !reader.closed && reader.headerData.Some?
    requires reader.cursor < |reader.inputRecords|
    modifies reader`cursor
    ensures reader.Valid() && reader.cursor == old(reader.cursor) + 1
    ensures text == reader.inputRecords[old(reader.cursor)]
    ensures Row(text, reader.headerData, reader.parsers, reader.serializers, false).AsList() == Ok(listed)
  {
    var next := reader.Next();
    var row := next.value;
    var got := row.List();
    text, listed := row.row, got.value;
  }

  /** Writing a header and text rows to a new path and reading the path
      back gives that header and exactly those rows. */
  method WriteThenRead(path: string, header: Record, rows: seq<Record>)
    returns (readHeader: Option<Record>, back: seq<Record>)
    ensures readHeader == Some(header)
    ensures back == rows
  {
    var files := WriteNewFile(path, header, rows, NoCallbacks, NoCallbacks);
    forall k | 0 <= k < |rows|
      ensures files[path][k + 1] == rows[k]
    {
      PlainNativeRowKeepsItsValues(rows[k], Some(header), NoCallbacks);
    }
    var values;
    readHeader, back, values := ReadFile(files, path, NoCallbacks, NoCallbacks);
    assert files[path][1..] == rows;
  }

  /** Native rows written through positional serializers and read back
      through parsers that undo them come back unchanged, each as the
      `list()` of the row read. */
  method WriteThenReadParsed(path: string, header: Record, rows: seq<seq<string>>,
                             ps: seq<Callback>, ss: seq<Callback>)
    returns (readHeader: Option<Record>, values: seq<seq<string>>)
    requires forall k :: 0 <= k < |rows| ==> Inverts(ps, ss, rows[k])
    ensures readHeader == Some(header)
    ensures values == rows
  {
    var files := WriteNewFile(path, header, rows, ByIndex(ps), ByIndex(ss));
    var back;
    readHeader, back, values := ReadFile(files, path, ByIndex(ps), ByIndex(ss));
    forall k | 0 <= k < |rows|
      ensures values[k] == rows[k]
    {
      NativeRowReadsBack(rows[k], Some(header), ps, ss);
      assert back[k] == files[path][k + 1];
    }
  }

  /** Native rows written through serializers keyed by column name and read
      back through name-keyed parsers come back unchanged when every column
      reads back. */
  method WriteThenReadParsedByName(path: string, header: Record, rows: seq<seq<string>>,
                                   pd: map<string, Callback>, sd: map<string, Callback>)
    returns (readHeader: Option<Record>, values: seq<seq<string>>)
    requires forall k :: 0 <= k < |rows| ==> ReadsBackByName(header, pd, sd, rows[k])
    ensures readHeader == Some(header)
    ensures values == rows
  {
    var files := WriteNewFile(path, header, rows, ByName(pd), ByName(sd));
    var back;
    readHeader, back, values := ReadFile(files, path, ByName(pd), ByName(sd));
    forall k | 0 <= k < |rows|
      ensures values[k] == rows[k]
    {
      NativeRowReadsBackByName(rows[k], header, pd, sd);
      assert back[k] == files[path][k + 1];
    }
  }

  /** The body of an edit: write the header, then read each data record
      and write it back edited. */
  method CopyEdited(session: Comma, header: Record, rows: seq<Record>, edit: Record -> Record)
    requires session.Valid() && session.readable && session.writeable && !session.closed
    requires session.inputRecords == [header] + rows && session.cursor == 1
    requires session.hasHeader && session.headerData == Some(header)
    requires session.serializers == NoCallbacks && session.written == []
    modifies session`cursor, session`written
    ensures session.Valid() && !session.closed
    ensures session.written == [header] + EditAll(edit, rows)
  {
    var _ := session.WriteHeader();
    var k := 0;
    while k < |rows|
      invariant 0 <= k <= |rows|
      invariant session.Valid() && session.cursor == k + 1 && !session.closed
      invariant session.headerData == Some(header)
      invariant session.written == [header] + EditAll(edit, rows[..k])
    {
      var next := session.Next();
      var fields := next.value.row;
      assert fields == rows[k];
      PlainNativeRowKeepsItsValues(edit(fields), Some(header), session.parsers);
      var _ := session.WriteRow(Fields(edit(fields)));
      assert EditAll(edit, rows[..k + 1]) == EditAll(edit, rows[..k]) + [edit(rows[k])];
      k := k + 1;
    }
    assert rows[..k] == rows;
  }

  /** Editing a file in place without a backup: a session that reads and
      writes the same path buffers its output, and after it writes the
      header and each edited row and closes (`close` as intended), the file
      holds exactly the header and the edited rows. */
  method EditInPlace(path: string, header: Record, rows: seq<Record>, edit: Record -> Record)
    returns (result: seq<Record>)
    ensures result == [header] + EditAll(edit, rows)
  {
    var store := new FileStore(map[path := [header] + rows]);
    assert Prepare(Path(path), true, true, true, false).output == Some(Buffered);
    assert Detect(0, true, None, None, Sniffer(None, None)).Ok?;
    assert ConsumeHeader(true, true, [header] + rows) == Ok((Some(header), 1));
    var started := Comma.Open(store, Path(path), true, true, NoBackup, None, None, 0,
                              NoCallbacks, NoCallbacks, Sniffer(None, None), Unused);
    var session := started.value;
    CopyEdited(session, header, rows, edit);
    var _ := session.Close();
    result := store.files[path];
  }

  /** Editing a file with a backup, with the backup step as intended: the
      original records are copied to a new path before anything is written,
      and after the same edit and a close the file holds the header and the
      edited rows, record by record. The file is overwritten from its start
      and never truncated, so its bytes match only when each edited record is
      at least as long as the one it replaces. */
  method EditWithBackup(path: string, header: Record, rows: seq<Record>, edit: Record -> Record,
                        clock: string -> string)
    returns (backup: string, saved: seq<Record>, edited: seq<Record>)
    ensures backup != path
    ensures saved == [header] + rows
    ensures edited == [header] + EditAll(edit, rows)
  {
    var original := map[path := [header] + rows];
    var store := new FileStore(original);
    assert Prepare(Path(path), true, true, true, true).fromBackup;
    assert Prepare(Path(path), true, true, true, true).output == Some(Overlaid);
    assert Detect(0, true, None, None, Sniffer(None, None)).Ok?;
    assert ConsumeHeader(true, true, [header] + rows) == Ok((Some(header), 1));
    var started := Comma.Open(store, Path(path), true, true, BackupDefault, None, None, 0,
                              NoCallbacks, NoCallbacks, Sniffer(None, None), clock);
    var session := started.value;
    backup := session.backupName.value;
    assert backup !in original && store.files == original[backup := [header] + rows] by {
      var p :| IsBackupOf(original, path, DefaultTemplate, clock, p) &&
               store.files == original[p := original[path]] && session.backupName == Some(p);
    }
    CopyEdited(session, header, rows, edit);
    var _ := session.Close();
    saved := store.files[backup];
    edited := store.files[path];
  }
}
