/** The host process's IPC handlers and the module-level state they share
    (packages/main/src/index.ts:7-24, 54-87): the single database client
    `db`, the history file, `appendHistory`, and the `db.connect`,
    `db.query` and `history.list` handlers. Every call into the database
    client or the file system is a call outside the model; its outcome is an
    input, and the ghost `trace` records which such calls are made, in order. */
module MainProcess {
  import opened Wrappers
  import opened Ipc
  import opened HistoryLog
  import HistoryJson

  /** The file-system calls `appendHistory` and `history.list` make. */
  datatype FsOp = MakeDir | AppendFile | ReadFile | WriteFile

  /** Why a handler's promise rejects. */
  datatype HandlerError =
    | NotConnected                // `new Error('not connected')`
    | DbFailure(message: string)  // the database client's rejection, passed on
    | FsFailure(op: FsOp)         // a failed file-system call, passed on

  /** The outcomes of the four file-system calls of one `appendHistory`. */
  datatype FsOutcomes = FsOutcomes(mkdirOk: bool, appendOk: bool, readOk: bool, writeOk: bool)

  /** A call into code outside the model. */
  datatype ExternalCall =
    | ClientEnd
    | ClientConnect
    | ClientQuery(sql: string)
    | FsMakeDir
    | FsAppend(text: string)
    | FsRead
    | FsWrite(text: string)

  /** Where a database client is in its life, as far as the handlers can tell. */
  datatype ClientState = Created | Connected | ConnectFailed | Ended

  /** A `pg` client: the parameters it was built with, and the state the
      outcomes of its `connect` and `end` calls leave it in. */
  class Client {
    const params: DbConnectParams
    var state: ClientState

    /** `new Client({ host, port, database, user, password })`. */
    constructor (params: DbConnectParams)
      ensures this.params == params && state == Created
    {
      this.params := params;
      state := Created;
    }

    /** `client.end()`: the client is closed when it succeeds. */
    method End(outcome: Outcome<string>)
      modifies this
      ensures state == if outcome.Pass? then Ended else old(state)
    {
      if outcome.Pass? {
        state := Ended;
      }
    }

    /** `client.connect()`. */
    method Connect(outcome: Outcome<string>)
      modifies this
      ensures state == if outcome.Pass? then Connected else ConnectFailed
    {
      state := if outcome.Pass? then Connected else ConnectFailed;
    }
  }

  /** What one `appendHistory` call does: the history file afterwards, how
      the call settles, and the file-system calls it makes. */
  datatype AppendStep = AppendStep(file: Option<string>, outcome: Outcome<HandlerError>, calls: seq<ExternalCall>)

  /** `appendHistory` (index.ts:14-24) as a function of the file before it
      and the outcomes of its file-system calls: make the directory, append
      the record, re-read the file, and rewrite it with the last HISTORY_MAX
      lines when it holds more. The first failing call ends it. */
  function AppendHistoryStep(file: Option<string>, entry: HistoryEntry, io: FsOutcomes): AppendStep {
    var line := HistoryJson.Stringify(entry);
    var record := line + "\n";
    if !io.mkdirOk then AppendStep(file, Fail(FsFailure(MakeDir)), [FsMakeDir])
    else if !io.appendOk then AppendStep(file, Fail(FsFailure(AppendFile)), [FsMakeDir, FsAppend(record)])
    else
      var data := Appended(file, line);
      if !io.readOk then AppendStep(Some(data), Fail(FsFailure(ReadFile)), [FsMakeDir, FsAppend(record), FsRead])
      else if |LinesOf(data)| <= HISTORY_MAX then AppendStep(Some(data), Pass, [FsMakeDir, FsAppend(record), FsRead])
      else
        var text := Retained(data);
        if !io.writeOk then AppendStep(Some(data), Fail(FsFailure(WriteFile)), [FsMakeDir, FsAppend(record), FsRead, FsWrite(text)])
        else AppendStep(Some(text), Pass, [FsMakeDir, FsAppend(record), FsRead, FsWrite(text)])
  }

  /** `appendHistory` always starts by creating the directory and makes at
      most four calls. It settles exactly when the directory, the append and
      the re-read succeed and, if the file then holds more than HISTORY_MAX
      lines, the rewrite succeeds too; it calls `writeFile` exactly when that
      rewrite is due. */
  lemma AppendHistoryCalls(file: Option<string>, entry: HistoryEntry, io: FsOutcomes)
    ensures var r := AppendHistoryStep(file, entry, io);
      1 <= |r.calls| <= 4 && r.calls[0] == FsMakeDir
    ensures var r := AppendHistoryStep(file, entry, io);
      var rewrite := |LinesOf(Appended(file, HistoryJson.Stringify(entry)))| > HISTORY_MAX;
      && (r.outcome.Pass? <==> io.mkdirOk && io.appendOk && io.readOk && (!rewrite || io.writeOk))
      && (|r.calls| == 4 <==> io.mkdirOk && io.appendOk && io.readOk && rewrite)
    ensures var r := AppendHistoryStep(file, entry, io);
      |r.calls| == 4 ==> r.calls[3] == FsWrite(Retained(Appended(file, HistoryJson.Stringify(entry))))
  {
  }

  /** Whatever the file held before, a successful `appendHistory` leaves it
      holding between 1 and HISTORY_MAX lines, the new record ending the last
      one; a failed one leaves the file as it was, or with the record
      appended and not trimmed (so above HISTORY_MAX lines if it was full). */
  lemma AppendHistoryBound(file: Option<string>, entry: HistoryEntry, io: FsOutcomes)
    ensures var r := AppendHistoryStep(file, entry, io);
      r.outcome.Pass? ==> r.file.Some? && BoundedEndingWith(r.file.value, HistoryJson.Stringify(entry))
    ensures var r := AppendHistoryStep(file, entry, io);
      r.outcome.Fail? ==> r.file == file || r.file == Some(Appended(file, HistoryJson.Stringify(entry)))
  {
    var line := HistoryJson.Stringify(entry);
    if io.mkdirOk && io.appendOk && io.readOk {
      var data := Appended(file, line);
      var r := AppendHistoryStep(file, entry, io);
      if r.outcome.Pass? {
        assert r.file == Some(Retained(data));
        AppendRetained(file, line);
      }
    }
  }

  /** When every file-system call succeeds, `appendHistory` settles and
      leaves the file as the re-read of the appended text. */
  lemma AppendHistoryAllOk(file: Option<string>, entry: HistoryEntry, io: FsOutcomes)
    requires io.mkdirOk && io.appendOk && io.readOk && io.writeOk
    ensures var r := AppendHistoryStep(file, entry, io);
      r.outcome == Pass && r.file == Some(Retained(Appended(file, HistoryJson.Stringify(entry))))
  {
  }

  /** When every file-system call succeeds, `appendHistory` on a file holding
      the records of `entries` (or on no file, when `entries` is empty) leaves
      the file holding the records of the last HISTORY_MAX of `entries + [e]`,
      oldest first, the new one last. */
  lemma AppendHistoryToLog(entries: seq<HistoryEntry>, e: HistoryEntry, io: FsOutcomes)
    requires io.mkdirOk && io.appendOk && io.readOk && io.writeOk
    ensures var file := if entries == [] then None else Some(Serialize(Records(entries)));
      var r := AppendHistoryStep(file, e, io);
      && r.outcome == Pass
      && r.file == Some(Serialize(Records(Keep(entries + [e]))))
  {
    var file := if entries == [] then None else Some(Serialize(Records(entries)));
    var line := HistoryJson.Stringify(e);
    AppendHistoryAllOk(file, e, io);
    assert Appended(file, line) == Serialize(Records(entries)) + line + "\n";
    RecordsAreLogLines(entries);
    RecordsAreLogLines([e]);
    assert Records([e])[0] == line;
    AppendToLog(Records(entries), line);
    RecordsSnoc(entries, e);
    KeepRecords(entries + [e]);
  }

  /** While the file holds fewer than HISTORY_MAX records, `appendHistory`
      never calls `writeFile`, so the outcome of that call does not matter:
      once the directory, the append and the re-read succeed, the record is
      simply added after the existing ones. */
  lemma AppendHistoryBelowMax(entries: seq<HistoryEntry>, e: HistoryEntry, io: FsOutcomes)
    requires io.mkdirOk && io.appendOk && io.readOk && |entries| < HISTORY_MAX
    ensures var file := if entries == [] then None else Some(Serialize(Records(entries)));
      var r := AppendHistoryStep(file, e, io);
      && r.outcome == Pass
      && r.calls == [FsMakeDir, FsAppend(HistoryJson.Stringify(e) + "\n"), FsRead]
      && r.file == Some(Serialize(Records(entries + [e])))
  {
    var file := if entries == [] then None else Some(Serialize(Records(entries)));
    var line := HistoryJson.Stringify(e);
    var all := Records(entries) + [line];
    assert Appended(file, line) == Serialize(all) by {
      SerializeSnoc(Records(entries), line);
    }
    assert LinesOf(Serialize(all)) == all by {
      RecordsAreLogLines(entries);
      RecordsAreLogLines([e]);
      assert Records([e])[0] == line;
      LogLinesSnoc(Records(entries), line);
      LogRoundTrip(all);
    }
    RecordsSnoc(entries, e);
  }

  /** The host process: its module-level state and its IPC handlers. */
  class Host {
    /** `let db: any = null`: the one database client, if any. */
    var db: Client?
    /** The text of `history.log`; None while the file does not exist. */
    var historyFile: Option<string>
    /** Every call made to code outside the model, in order. */
    ghost var trace: seq<ExternalCall>
    /** The clients `db.connect` has replaced, oldest first. */
    ghost var retired: seq<Client>

    /** Bookkeeping for the ghost `retired` list only; no handler's
        behaviour depends on it. Clients are only ever replaced, never
        dropped: there are retired clients only once a client has been
        installed, and the current client is not among them. */
    ghost predicate Valid()
      reads this
    {
      && (db == null ==> retired == [])
      && (db != null ==> db !in retired)
    }

    /** No client that `db.connect` has replaced is still connected: then
        the current client is the only connected session. */
    ghost predicate SessionsReleased()
      reads this, retired
    {
      forall i :: 0 <= i < |retired| ==> retired[i].state != Connected
    }

    /** The process at start-up: no client, and whatever history file is on disk. */
    constructor (historyFile: Option<string>)
      ensures Valid() && SessionsReleased()
      ensures db == null && this.historyFile == historyFile
      ensures trace == [] && retired == []
    {
      db := null;
      this.historyFile := historyFile;
      trace := [];
      retired := [];
    }

    /** `appendHistory(sql)` with `timestamp` standing for
        `new Date().toISOString()`. */
    method AppendHistory(sql: string, timestamp: string, io: FsOutcomes) returns (r: Outcome<HandlerError>)
      modifies this`historyFile, this`trace
      ensures var step := AppendHistoryStep(old(historyFile), HistoryEntry(timestamp, sql), io);
        historyFile == step.file && trace == old(trace) + step.calls && r == step.outcome
      ensures r.Pass? ==> historyFile.Some? && 1 <= |LinesOf(historyFile.value)| <= HISTORY_MAX
    {
      var entry := HistoryEntry(timestamp, sql);
      ghost var step := AppendHistoryStep(historyFile, entry, io);
      trace := trace + [FsMakeDir];
      if !io.mkdirOk {
        return Fail(FsFailure(MakeDir));
      }
      var line := HistoryJson.Stringify(entry);
      var record := line + "\n";
      trace := trace + [FsAppend(record)];
      if !io.appendOk {
        assert trace == old(trace) + step.calls;
        return Fail(FsFailure(AppendFile));
      }
      var prior := historyFile.GetOr("");
      var data := prior + record;
      assert data == Appended(historyFile, line);
      historyFile := Some(data);
      trace := trace + [FsRead];
      if !io.readOk {
        assert trace == old(trace) + step.calls;
        return Fail(FsFailure(ReadFile));
      }
      var lines := JsText.Split(JsText.TrimEnd(data));
      if |lines| > HISTORY_MAX {
        var latest := lines[|lines| - HISTORY_MAX..];
        var text := JsText.Join(latest) + "\n";
        assert text == Retained(data);
        trace := trace + [FsWrite(text)];
        assert trace == old(trace) + step.calls;
        if !io.writeOk {
          return Fail(FsFailure(WriteFile));
        }
        historyFile := Some(text);
      } else {
        assert trace == old(trace) + step.calls;
      }
      AppendHistoryBound(old(historyFile), entry, io);
      return Pass;
    }

    /** The `db.connect` handler: end the current client, ignoring how that
        goes, install a new client for `params`, and connect it. A failed
        connect is passed on, and `db` stays the new, unconnected client. */
    method Connect(params: DbConnectParams, endOutcome: Outcome<string>, connectOutcome: Outcome<string>)
      returns (r: Result<string, HandlerError>)
      requires Valid()
      modifies this, db
      ensures Valid()
      ensures db != null && fresh(db) && db.params == params
      ensures db.state == if connectOutcome.Pass? then Connected else ConnectFailed
      ensures r == if connectOutcome.Pass? then Success("connected") else Failure(DbFailure(connectOutcome.error))
      ensures old(db) == null ==> retired == old(retired) && trace == old(trace) + [ClientConnect]
      ensures old(db) != null ==>
        && retired == old(retired) + [old(db)]
        && trace == old(trace) + [ClientEnd, ClientConnect]
        && old(db).state == if endOutcome.Pass? then Ended else old(db.state)
      ensures historyFile == old(historyFile)
      ensures old(SessionsReleased()) && (old(db) == null || endOutcome.Pass? || old(db.state) != Connected)
        ==> SessionsReleased()
    {
      if db != null {
        trace := trace + [ClientEnd];
        db.End(endOutcome);
        retired := retired + [db];
      }
      db := new Client(params);
      trace := trace + [ClientConnect];
      db.Connect(connectOutcome);
      if connectOutcome.Fail? {
        return Failure(DbFailure(connectOutcome.error));
      }
      return Success("connected");
    }

    /** The `db.query` handler: reject at once when there is no client; run
        the statement; record it in the history only once it has succeeded;
        resolve to its rows. A failure of the history append rejects the
        handler too, after the statement has run. */
    method Query<R>(sql: string, timestamp: string, queryOutcome: Result<R, string>, io: FsOutcomes)
      returns (r: Result<R, HandlerError>)
      requires Valid()
      modifies this`historyFile, this`trace
      ensures Valid()
      ensures db == null ==>
        r == Failure(NotConnected) && historyFile == old(historyFile) && trace == old(trace)
      ensures db != null && queryOutcome.Failure? ==>
        && r == Failure(DbFailure(queryOutcome.error))
        && historyFile == old(historyFile)
        && trace == old(trace) + [ClientQuery(sql)]
      ensures db != null && queryOutcome.Success? ==>
        var step := AppendHistoryStep(old(historyFile), HistoryEntry(timestamp, sql), io);
        && historyFile == step.file
        && trace == old(trace) + [ClientQuery(sql)] + step.calls
        && r == if step.outcome.Pass? then Success(queryOutcome.value) else Failure(step.outcome.error)
    {
      if db == null {
        return Failure(NotConnected);
      }
      trace := trace + [ClientQuery(sql)];
      if queryOutcome.Failure? {
        return Failure(DbFailure(queryOutcome.error));
      }
      var appended := AppendHistory(sql, timestamp, io);
      if appended.Fail? {
        return Failure(appended.error);
      }
      return Success(queryOutcome.value);
    }

    /** The `history.list` handler: read the file and list its entries; a
        missing or unreadable file, or any line that does not parse, gives
        the empty list, never an error. */
    method ListHistory(readOk: bool) returns (entries: seq<HistoryEntry>)
      modifies this`trace
      ensures trace == old(trace) + [FsRead]
      ensures entries == if readOk && historyFile.Some? then Listing(historyFile.value) else []
    {
      trace := trace + [FsRead];
      if !readOk || historyFile.None? {
        return [];
      }
      entries := Listing(historyFile.value);
    }
  }

  /** A failed `db.connect` does not take the host back to "not connected":
      a following `db.query` goes to the new, unconnected client and never
      rejects with 'not connected'. */
  method QueryAfterFailedConnect<R>(params: DbConnectParams, failure: string, sql: string, timestamp: string,
                                    queryOutcome: Result<R, string>, io: FsOutcomes)
    returns (r: Result<R, HandlerError>)
    ensures r != Failure(NotConnected)
    ensures queryOutcome.Failure? ==> r == Failure(DbFailure(queryOutcome.error))
  {
    var host := new Host(None);
    var connected := host.Connect(params, Pass, Fail(failure));
    r := host.Query(sql, timestamp, queryOutcome, io);
  }
}
