/** The `Comma` session of comma/comma.py: it opens a CSV file (or takes an
    open handle), decides which stream is read and which is written, settles
    the dialect and whether there is a header, yields the data rows as
    `CommaRow`s, collects written rows, and puts them into the file on close. */
module Session {
  import opened Common
  import opened Dialects
  import opened Rows
  import opened Files
  import opened Backup

  // Messages of the Python runtime and the csv module for the failures the
  // session runs into.
  const SniffFailedMsg := "Could not determine delimiter"
  const IterableExpectedMsg := "iterable expected, not NoneType"
  const WriteStringIOMsg := "write() argument must be str, not _io.StringIO"

  /** What the session is given: an open file object (its name and mode), or
      a path it opens itself. */
  datatype Source = Handle(name: string, mode: string) | Path(path: string) {
    function Name(): string {
      if Handle? then name else path
    }
  }

  /** The `backup` argument: None/False, True, or a strftime template. */
  datatype BackupOption = NoBackup | BackupDefault | BackupTemplate(template: string) {
    /** Python truthiness: the empty template is false. */
    predicate Truthy() {
      BackupDefault? || (BackupTemplate? && template != "")
    }
  }

  /** What csv.Sniffer concludes from the sample; None where it raises. */
  datatype Sniffer = Sniffer(dialect: Option<Dialect>, hasHeader: Option<bool>)

  /** Where written records end up: a memory buffer copied over the input on
      close, or the file itself — emptied when it was opened, appended to,
      or overwritten from its start. */
  datatype OutputKind = Buffered | Truncated | Appended | Overlaid

  /** The streams a session sets up. */
  datatype Plan = Plan(
    readable: bool,
    writeable: bool,
    mode: string,         // the mode the file is open in
    truncate: bool,       // the session itself opened the path with "w"
    output: Option<OutputKind>,
    fromBackup: bool)     // the input is a backup copy of the file

  /** The output kind of a session that writes the file directly. */
  function DirectKind(src: Source, mode: string): (k: OutputKind)
    ensures k != Buffered
  {
    if src.Path? then (if mode == "w" then Truncated else Overlaid)
    else if 'w' in mode then Truncated
    else if 'a' in mode then Appended
    else Overlaid
  }

  /** Readability, writeability, file mode and streams of a session over
      `src` (`present`: whether the path exists), before sniffing. */
  function Prepare(src: Source, present: bool, read: bool, write: bool, backupOn: bool): (p: Plan)
    ensures src.Path? ==> (p.readable <==> present && read) && p.writeable == write &&
                          p.mode == (if p.readable then "r+" else "w")
    ensures src.Handle? ==> p.mode == src.mode && (p.readable <==> read && 'r' in src.mode) &&
                            (p.writeable <==> write && (HasSubstring(src.mode, "r+") || 'w' in src.mode || 'a' in src.mode))
    ensures p.truncate <==> src.Path? && !p.readable
    ensures p.output.Some? <==> p.writeable
    ensures p.output == Some(Buffered) <==> p.readable && p.writeable && !backupOn
    ensures p.fromBackup <==> p.readable && p.writeable && backupOn
    // a stream is never read while the same file is written directly
    ensures p.readable && p.output.Some? && p.output != Some(Buffered) ==> p.fromBackup
  {
    var readable := if src.Path? then present && read else read && 'r' in src.mode;
    var writeable := if src.Path? then write
                     else write && (HasSubstring(src.mode, "r+") || 'w' in src.mode || 'a' in src.mode);
    var mode := if src.Handle? then src.mode else if readable then "r+" else "w";
    var output := if !writeable then None
                  else if readable && !backupOn then Some(Buffered)
                  else Some(DirectKind(src, mode));
    Plan(readable, writeable, mode, src.Path? && !readable, output, readable && writeable && backupOn)
  }

  /** The template the backup is named with: the given one, or make_backup's
      default when `backup` is just true. */
  function BackupTemplateFor(backup: BackupOption): string
  {
    if backup.BackupTemplate? then backup.template else DefaultTemplate
  }

  /** The mode the backup copy is opened in: the file's mode without 'w'. */
  function BackupInputMode(mode: string): (m: string)
    ensures 'w' !in m
    ensures forall c :: c != 'w' ==> (c in m <==> c in mode)
    ensures 'w' !in mode ==> m == mode
  {
    if mode == [] then []
    else if mode[0] == 'w' then BackupInputMode(mode[1..])
    else [mode[0]] + BackupInputMode(mode[1..])
  }

  /** The backup step of the constructor as written: `make_backup` gets the
      template only when `backup` is a string (None otherwise), and the mode
      of the backup copy is looked up on the session, which has no `mode`. */
  function BackupStepAsWritten(name: string, backup: BackupOption, clock: string -> string,
                               files: map<string, seq<Record>>): (r: Result<string>)
  {
    match MakeBackupAsWritten(name, if backup.BackupTemplate? then Some(backup.template) else None,
                              None, clock, files)
    case Err(e) => Err(e)
    case Ok(_) => Err(AttributeError("mode"))
  }

  /** As written, a session asked for a backup never gets past the backup
      step, whatever the file and the template. */
  lemma BackupStepAsWrittenAlwaysFails(name: string, backup: BackupOption, clock: string -> string,
                                       files: map<string, seq<Record>>)
    ensures BackupStepAsWritten(name, backup, clock, files).Err?
    ensures backup == BackupDefault ==>
              BackupStepAsWritten(name, backup, clock, files) == Err(TypeError(StrftimeNoneMsg))
  {
  }

  /** The dialect and header flag a session settles on. The caller's values
      win; the sniffer is asked only for what is missing, and only when
      sniffing is on and there is an input; otherwise the package dialect
      and "has a header" are the defaults. */
  function Detect(sniff: int, hasInput: bool, dialect: Option<Dialect>, hasHeader: Option<bool>,
                  sniffer: Sniffer): (r: Result<(Dialect, bool)>)
    ensures r.Ok? && dialect.Some? ==> r.value.0 == dialect.value
    ensures r.Ok? && hasHeader.Some? ==> r.value.1 == hasHeader.value
    ensures sniff == 0 || !hasInput ==> r == Ok((dialect.GetOr(CommaDialect), hasHeader.GetOr(true)))
    ensures sniff != 0 && hasInput && r.Ok? ==>
              (dialect.None? ==> sniffer.dialect == Some(r.value.0)) &&
              (hasHeader.None? ==> sniffer.hasHeader == Some(r.value.1))
    ensures r.Err? <==> sniff != 0 && hasInput &&
                        ((dialect.None? && sniffer.dialect.None?) || (hasHeader.None? && sniffer.hasHeader.None?))
    ensures r.Err? ==> r.error == CsvError(SniffFailedMsg)
  {
    if sniff != 0 && hasInput then
      var d :- if dialect.Some? then Ok(dialect.value)
               else if sniffer.dialect.Some? then Ok(sniffer.dialect.value)
               else Err(CsvError(SniffFailedMsg));
      var h :- if hasHeader.Some? then Ok(hasHeader.value)
               else if sniffer.hasHeader.Some? then Ok(sniffer.hasHeader.value)
               else Err(CsvError(SniffFailedMsg));
      Ok((d, h))
    else
      Ok((dialect.GetOr(CommaDialect), hasHeader.GetOr(true)))
  }

  /** Reading the header line: with a header and a reader, the first record
      becomes the header and reading resumes after it; an empty input raises
      StopIteration. Without a reader nothing is read. */
  function ConsumeHeader(hasHeader: bool, hasReader: bool, records: seq<Record>): (r: Result<(Option<Record>, nat)>)
    ensures r.Err? <==> hasHeader && hasReader && records == []
    ensures r.Err? ==> r.error == StopIteration
    ensures r.Ok? ==> r.value.1 <= |records| && (r.value.0.Some? <==> hasHeader && hasReader)
    ensures r.Ok? && r.value.0.Some? ==> r.value.0.value == records[0] && r.value.1 == 1
    ensures r.Ok? && r.value.0.None? ==> r.value.1 == 0
  {
    if hasHeader && hasReader then
      if records == [] then Err(StopIteration) else Ok((Some(records[0]), 1))
    else Ok((None, 0))
  }

  /** The records of `name`, or none when it does not exist. */
  function Current(files: map<string, seq<Record>>, name: string): seq<Record>
  {
    if name in files then files[name] else []
  }

  /** The file's records once the written ones are flushed into it. */
  function Flushed(kind: OutputKind, current: seq<Record>, written: seq<Record>): (r: seq<Record>)
    ensures kind == Appended ==> r == current + written
    ensures kind != Appended ==> |r| >= |written| && r[..|written|] == written
    ensures kind == Buffered || kind == Truncated ==> r == written
    ensures kind == Overlaid && |written| < |current| ==> r[|written|..] == current[|written|..]
    ensures kind == Overlaid && |written| >= |current| ==> r == written
  {
    match kind
    case Appended => current + written
    case Overlaid => if |written| < |current| then written + current[|written|..] else written
    case _ => written
  }

  /** `backup` names the first free backup candidate of `name` with the
      suffix the clock renders from `template`. */
  ghost predicate IsBackupOf(files: map<string, seq<Record>>, name: string, template: string,
                             clock: string -> string, backup: string)
  {
    IsFirstFree(files, SplitName(name).0, SplitName(name).1, clock(template), backup)
  }

  /** A `Comma` session. */
  class Comma {
    const store: FileStore
    const csvName: string
    const readable: bool
    const writeable: bool
    const bufferedOutput: bool
    const output: Option<OutputKind>
    const backupName: Option<string>
    /** The mode the input stream is open in. */
    const inputMode: string
    /** The records of the input stream, fixed when the session opens. */
    const inputRecords: seq<Record>
    const dialect: Dialect
    const parsers: Callbacks
    const serializers: Callbacks
    var hasHeader: bool
    var headerData: Option<Record>
    /** How many input records have been read. */
    var cursor: nat
    /** The records written so far, in order. */
    var written: seq<Record>
    var closed: bool

    ghost predicate Valid()
      reads this
    {
      cursor <= |inputRecords| &&
      (!readable ==> inputRecords == []) &&
      (output.Some? <==> writeable) &&
      (bufferedOutput <==> output == Some(Buffered))
    }

    constructor Init(store: FileStore, csvName: string, plan: Plan, backupName: Option<string>, inputMode: string,
                     inputRecords: seq<Record>, dialect: Dialect, hasHeader: bool,
                     headerData: Option<Record>, cursor: nat, parsers: Callbacks, serializers: Callbacks)
      requires cursor <= |inputRecords| && (!plan.readable ==> inputRecords == [])
      requires plan.output.Some? <==> plan.writeable
      ensures Valid()
      ensures this.store == store && this.csvName == csvName && this.backupName == backupName
      ensures this.inputMode == inputMode
      ensures readable == plan.readable && writeable == plan.writeable && output == plan.output
      ensures bufferedOutput == (plan.output == Some(Buffered))
      ensures this.inputRecords == inputRecords && this.dialect == dialect && this.hasHeader == hasHeader
      ensures this.headerData == headerData && this.cursor == cursor
      ensures this.parsers == parsers && this.serializers == serializers
      ensures written == [] && !closed
    {
      this.store := store;
      this.csvName := csvName;
      readable := plan.readable;
      writeable := plan.writeable;
      bufferedOutput := plan.output == Some(Buffered);
      output := plan.output;
      this.backupName := backupName;
      this.inputMode := inputMode;
      this.inputRecords := inputRecords;
      this.dialect := dialect;
      this.parsers := parsers;
      this.serializers := serializers;
      this.hasHeader := hasHeader;
      this.headerData := headerData;
      this.cursor := cursor;
      written := [];
      closed := false;
    }

    /** `Comma(_csv_file, read, write, backup, dialect, has_header, sniff,
        parsers, serializers)`, with the sniffer's verdict and the clock as
        parameters. A path the session does not read is opened with "w" and
        so emptied; with a backup, the file is copied to its first free
        backup name and read from there. */
    static method Open(store: FileStore, src: Source, read: bool, write: bool, backup: BackupOption,
                       dialect: Option<Dialect>, hasHeader: Option<bool>, sniff: int,
                       parsers: Callbacks, serializers: Callbacks, sniffer: Sniffer, clock: string -> string)
      returns (r: Result<Comma>)
      requires src.Handle? ==> src.name in store.files
      modifies store
      ensures var plan := Prepare(src, src.Name() in old(store.files), read, write, backup.Truthy());
              !plan.fromBackup ==>
                store.files == (if plan.truncate then old(store.files)[src.Name() := []] else old(store.files)) &&
                (r.Ok? ==> r.value.backupName == None)
      ensures var plan := Prepare(src, src.Name() in old(store.files), read, write, backup.Truthy());
              plan.fromBackup ==>
                exists p :: IsBackupOf(old(store.files), src.Name(), BackupTemplateFor(backup), clock, p) &&
                            store.files == old(store.files)[p := old(store.files)[src.Name()]] &&
                            (r.Ok? ==> r.value.backupName == Some(p))
      ensures var plan := Prepare(src, src.Name() in old(store.files), read, write, backup.Truthy());
              var records := if plan.readable then old(store.files)[src.Name()] else [];
              var d := Detect(sniff, plan.readable, dialect, hasHeader, sniffer);
              (d.Err? ==> r == Err(d.error)) &&
              (d.Ok? ==>
                var h := ConsumeHeader(d.value.1, plan.readable, records);
                (h.Err? ==> r == Err(h.error)) &&
                (h.Ok? ==>
                  r.Ok? && fresh(r.value) && r.value.Valid() &&
                  r.value.store == store && r.value.csvName == src.Name() &&
                  r.value.readable == plan.readable && r.value.writeable == plan.writeable &&
                  r.value.output == plan.output && r.value.inputRecords == records &&
                  r.value.inputMode == (if plan.fromBackup then BackupInputMode(plan.mode) else plan.mode) &&
                  r.value.dialect == d.value.0 && r.value.hasHeader == d.value.1 &&
                  r.value.headerData == h.value.0 && r.value.cursor == h.value.1 &&
                  r.value.parsers == parsers && r.value.serializers == serializers &&
                  r.value.written == [] && !r.value.closed))
    {
      var name := src.Name();
      var plan := Prepare(src, name in store.files, read, write, backup.Truthy());
      if plan.truncate {
        store.files := store.files[name := []];
      }
      var records: seq<Record> := if plan.readable then store.files[name] else [];
      var backupName: Option<string> := None;
      if plan.fromBackup {
        var made := MakeBackup(store, name, BackupTemplateFor(backup), None, clock);
        backupName := Some(made.value.1);
      }
      var d := Detect(sniff, plan.readable, dialect, hasHeader, sniffer);
      if d.Err? {
        r := Err(d.error);
        return;
      }
      var h := ConsumeHeader(d.value.1, plan.readable, records);
      if h.Err? {
        r := Err(h.error);
        return;
      }
      var inputMode := if plan.fromBackup then BackupInputMode(plan.mode) else plan.mode;
      var c := new Comma.Init(store, name, plan, backupName, inputMode, records, d.value.0, d.value.1,
                              h.value.0, h.value.1, parsers, serializers);
      r := Ok(c);
    }

    /** The `header` property: the header data, but only while the session
        has a header. */
    function Header(): (h: Option<Record>)
      reads this
      ensures h.Some? ==> hasHeader && h == headerData
      ensures hasHeader ==> h == headerData
    {
      if hasHeader then headerData else None
    }

    /** Assigning the `header` property: the session then has a header, and
        reading the property gives back what was assigned. */
    method SetHeader(h: Option<Record>)
      modifies this`hasHeader, this`headerData
      ensures hasHeader && headerData == h
      ensures Header() == h
    {
      hasHeader := true;
      headerData := h;
    }

    /** `next(session)`: the next input record as a text row carrying the
        session's header and callbacks. */
    method Next() returns (r: Result<CommaRow>)
      requires Valid()
      modifies this`cursor
      ensures Valid()
      ensures !readable ==> r == Err(TypeError(NotIteratorMsg)) && cursor == old(cursor)
      ensures readable && closed ==> r == Err(ValueError(ClosedFileMsg)) && cursor == old(cursor)
      ensures readable && !closed && old(cursor) == |inputRecords| ==> r == Err(StopIteration) && cursor == old(cursor)
      ensures readable && !closed && old(cursor) < |inputRecords| ==>
                r.Ok? && fresh(r.value) && cursor == old(cursor) + 1 &&
                r.value.State() == Row(inputRecords[old(cursor)], headerData, parsers, serializers, false)
    {
      if !readable {
        r := Err(TypeError(NotIteratorMsg));
      } else if closed {
        r := Err(ValueError(ClosedFileMsg));
      } else if cursor == |inputRecords| {
        r := Err(StopIteration);
      } else {
        var record := inputRecords[cursor];
        cursor := cursor + 1;
        TextRowKeepsItsFields(Fields(record), headerData, parsers, serializers);
        r := CommaRow.New(Some(Fields(record)), None, headerData, parsers, serializers);
      }
    }

    /** `write_header()`: writes the header data when the session has a
        header; a header flag without header data reaches the csv writer as
        None, which it rejects. */
    method WriteHeader() returns (r: Result<()>)
      requires Valid()
      modifies this`written
      ensures Valid()
      ensures !writeable ==> r == Err(ValueError(NotWriteableMsg)) && written == old(written)
      ensures writeable && !hasHeader ==> r == Ok(()) && written == old(written)
      ensures writeable && hasHeader && headerData.None? ==>
                r == Err(CsvError(IterableExpectedMsg)) && written == old(written)
      ensures writeable && hasHeader && headerData.Some? && closed ==>
                r == Err(ValueError(ClosedFileMsg)) && written == old(written)
      ensures writeable && hasHeader && headerData.Some? && !closed ==>
                r == Ok(()) && written == old(written) + [headerData.value]
    {
      if !writeable {
        r := Err(ValueError(NotWriteableMsg));
      } else if !hasHeader {
        r := Ok(());
      } else if headerData.None? {
        r := Err(CsvError(IterableExpectedMsg));
      } else if closed {
        r := Err(ValueError(ClosedFileMsg));
      } else {
        written := written + [headerData.value];
        r := Ok(());
      }
    }

    /** `write_row(data)`: builds a native row with the session's header and
        serializers and writes its text fields. */
    method WriteRow(data: RowData) returns (r: Result<()>)
      requires Valid()
      modifies this`written
      ensures Valid()
      ensures var b := Build(None, Some(data), headerData, parsers, serializers);
              (!writeable ==> r == Err(ValueError(NotWriteableMsg)) && written == old(written)) &&
              (writeable && b.Err? ==> r == Err(b.error) && written == old(written)) &&
              (writeable && b.Ok? && closed ==> r == Err(ValueError(ClosedFileMsg)) && written == old(written)) &&
              (writeable && b.Ok? && !closed ==> r == Ok(()) && written == old(written) + [b.value.fields])
    {
      if !writeable {
        r := Err(ValueError(NotWriteableMsg));
        return;
      }
      var b := Build(None, Some(data), headerData, parsers, serializers);
      if b.Err? {
        r := Err(b.error);
      } else if closed {
        r := Err(ValueError(ClosedFileMsg));
      } else {
        written := written + [b.value.fields];
        r := Ok(());
      }
    }

    /** `close()` as intended: the written records reach the file (a buffer
        replaces the file's content) and the streams are closed. Closing a
        buffered session twice raises, because the input is rewound after it
        was closed; otherwise closing again does nothing. */
    method Close() returns (r: Result<()>)
      requires Valid()
      modifies this`closed, store
      ensures Valid() && closed
      ensures bufferedOutput && old(closed) ==> r == Err(ValueError(ClosedFileMsg))
      ensures !(bufferedOutput && old(closed)) ==> r == Ok(())
      ensures !old(closed) && output.Some? ==>
                store.files == old(store.files)[csvName := Flushed(output.value, Current(old(store.files), csvName), written)]
      ensures old(closed) || output.None? ==> store.files == old(store.files)
    {
      if bufferedOutput && closed {
        r := Err(ValueError(ClosedFileMsg));
        return;
      }
      if !closed && output.Some? {
        store.files := store.files[csvName := Flushed(output.value, Current(store.files, csvName), written)];
      }
      closed := true;
      r := Ok(());
    }

    /** `close()` as written: a buffered session hands the buffer object
        itself to `write`, which raises TypeError before anything is copied
        or closed. */
    method CloseAsWritten() returns (r: Result<()>)
      requires Valid()
      modifies this`closed, store
      ensures Valid()
      ensures bufferedOutput ==> closed == old(closed) && store.files == old(store.files)
      ensures bufferedOutput && !old(closed) ==> r == Err(TypeError(WriteStringIOMsg))
      ensures bufferedOutput && old(closed) ==> r == Err(ValueError(ClosedFileMsg))
      ensures !bufferedOutput ==> r == Ok(()) && closed
      ensures !bufferedOutput && !old(closed) && output.Some? ==>
                store.files == old(store.files)[csvName := Flushed(output.value, Current(old(store.files), csvName), written)]
      ensures !bufferedOutput && (old(closed) || output.None?) ==> store.files == old(store.files)
    {
      if bufferedOutput {
        r := if closed then Err(ValueError(ClosedFileMsg)) else Err(TypeError(WriteStringIOMsg));
        return;
      }
      if !closed && output.Some? {
        store.files := store.files[csvName := Flushed(output.value, Current(store.files, csvName), written)];
      }
      closed := true;
      r := Ok(());
    }
  }
}
