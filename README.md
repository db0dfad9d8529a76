# Query session and history log of the database client's host process

The desktop database client runs a privileged host process. It holds at most
one database client, in the module-level `db`. It serves three IPC handlers
to the UI:

- `db.connect` ends the current client, ignoring any failure, installs a new
  one and connects it.
- `db.query` rejects with `not connected` while there is no client.
  Otherwise it runs the statement and, once the statement has succeeded,
  records it in the query history. It then resolves to the rows.
- `history.list` reads the history back, one entry per non-empty line (a line of only spaces is kept, and then fails to parse).
  Any failure gives the empty list.

The history is `history.log`, with one `JSON.stringify({ timestamp, sql })`
record per line. `appendHistory` creates the directory, appends the record
and re-reads the file. When the file then holds more than `HISTORY_MAX = 500`
lines, it rewrites the file with the last 500.

The model has six modules:

- `Wrappers`: Option, Result and Outcome.
- `Ipc`: the records that cross the IPC boundary.
- `JsText`: the JavaScript string operations the code uses: `trimEnd`,
  `trimStart`/`trim` with ECMAScript's whitespace set, `split('\n')` and
  `join('\n')`.
- `HistoryJson`: `JSON.stringify` of a history entry, written out to the
  escape sequences, and `JSON.parse` for the lines it produces.
- `HistoryLog`: the history file as text, with the pure steps
  `appendHistory` and `history.list` take on that text.
- `MainProcess`: the host's state and handlers, as a class `Host` with
  the fields `db` and `historyFile`. The database client is a class
  `Client`, so that a new client is a fresh object.

Every call into `pg` or `fs` is outside the model. Its success or failure is
an input parameter, and a ghost `trace` records which calls are made, in
order. The timestamp (`new Date().toISOString()`) is an input too.

Three behaviours of the code are easy to expect otherwise, and the model
keeps them as the code has them:

- A failing history append rejects `db.query` after the statement has run,
  because the handler awaits `appendHistory` (index.ts:72). The rows of a
  statement that ran are then not returned.
- After a failed `db.connect`, `db` still holds the new, unconnected
  client (index.ts:58-65). A later `db.query` goes to that client and never
  rejects with `not connected` (`MainProcess.QueryAfterFailedConnect`), so
  "no successful connect" does not imply "not connected".
- The host process keeps no connection profiles and writes no diagnostics
  log; nothing in the model stands for them.

## Model

| member | source | states |
|---|---|---|
| JsText.TrimEnd | packages/main/src/index.ts:19 | `trimEnd` gives a prefix of the text that does not end in whitespace, and everything it removes is whitespace |
| JsText.Trim | packages/main/src/index.ts:80 | `trim` leaves no whitespace at either end, and leaves nothing exactly when the text is all whitespace; `JsText.TrimMiddle` states that it is the middle of the text |
| JsText.TrimMiddle | packages/main/src/index.ts:80 | `trim` gives a slice of the text with only whitespace before it and only whitespace after it |
| JsText.TrimStart | packages/main/src/index.ts:80 | the start half of `trim`: a suffix that does not start with whitespace, and everything removed is whitespace |
| JsText.Split | packages/main/src/index.ts:19 | `split('\n')` gives at least one piece, and no piece holds a newline |
| JsText.Join | packages/main/src/index.ts:22 | `join('\n')`: the pieces with one newline between neighbours; its meaning is stated by `JsText.JoinSplit`, `JsText.SplitJoin` and `JsText.JoinSnoc` |
| JsText.JoinSnoc | packages/main/src/index.ts:22 | joining one more piece adds a newline and that piece at the end |
| JsText.JoinSplit | packages/main/src/index.ts:19-22 | joining the pieces of a split with newlines gives the text back |
| JsText.SplitJoin | packages/main/src/index.ts:19-22 | splitting newline-joined pieces gives the pieces back, when none holds a newline |
| HistoryJson.EscapeChar | packages/main/src/index.ts:17 | how `JSON.stringify` writes one character: never a raw control character, never a bare quote |
| HistoryJson.Escape | packages/main/src/index.ts:17 | the escaped body of a JSON string holds no control character |
| HistoryJson.Stringify | packages/main/src/index.ts:15-17 | a stringified history entry is one line: it starts with `{`, ends with `}` and holds no newline or other control character |
| HistoryJson.UnescapeEscape | packages/main/src/index.ts:17 | decoding an escaped string body followed by its closing quote gives back the string and whatever follows |
| HistoryJson.Parse | packages/main/src/index.ts:83 | `JSON.parse` of one history line: the opening `{"timestamp":"`, a string, `,"sql":"`, a string and `}`, or a parse error; its meaning is stated by `HistoryJson.ParseStringify` |
| HistoryJson.ParseStringify | packages/main/src/index.ts:17 | `JSON.parse` of a stringified entry gives the entry back |
| HistoryLog.Keep | packages/main/src/index.ts:20-21 | `slice(-HISTORY_MAX)` under the length test: the suffix of length min(n, 500) |
| HistoryLog.NonEmpty | packages/main/src/index.ts:82 | `filter(Boolean)` keeps no empty line, keeps a string exactly when it is a non-empty line of the input, maps one line to itself or to nothing as it is non-empty or empty, and leaves lines without empty ones unchanged |
| HistoryLog.NonEmptyAppend | packages/main/src/index.ts:82 | filtering a concatenation is the concatenation of the filtered parts; with the one-line case this fixes the result: every non-empty line kept, as often as it occurs, in order |
| HistoryLog.ListedLines | packages/main/src/index.ts:79-82 | `data.trim().split('\n').filter(Boolean)`; for a file written by appends its value is stated by `HistoryLog.ListedLinesOfLog` |
| HistoryLog.ParseAll | packages/main/src/index.ts:83 | `map(JSON.parse)` succeeds exactly when every line parses, and then gives entry i for line i |
| HistoryLog.Listing | packages/main/src/index.ts:79-85 | one entry per non-empty line, in file order, when all lines parse; the empty list when any line fails |
| HistoryLog.LinesOf | packages/main/src/index.ts:19 | `data.trimEnd().split('\n')`; its value on rewritten and appended files is stated by `HistoryLog.RewriteRoundTrip` and `HistoryLog.LogRoundTrip` |
| HistoryLog.Appended | packages/main/src/index.ts:17 | the text after `appendFile(record + '\n')`, a missing file being created; `HistoryLog.SerializeSnoc` states it for a file written by appends |
| HistoryLog.SerializeSnoc | packages/main/src/index.ts:17 | appending one more record line to the file of some lines gives the file of those lines and the record |
| HistoryLog.Retained | packages/main/src/index.ts:19-22 | the text after the re-read and the conditional rewrite; its meaning is stated by `HistoryLog.RetainedLines` and `HistoryLog.RetainedLog` |
| HistoryLog.SerializeJoin | packages/main/src/index.ts:17 | a file of appended records is its lines joined by newlines, plus a final newline |
| HistoryLog.RewriteRoundTrip | packages/main/src/index.ts:19-22 | the rewritten `latest.join('\n') + '\n'`, re-read with `trimEnd().split('\n')`, gives `latest` again, when no line holds a newline and the last line does not end in whitespace |
| HistoryLog.RetainedLines | packages/main/src/index.ts:18-23 | for any text, after the re-read and the possible rewrite, the file holds at most 500 lines, and they are the last lines it held, in order |
| HistoryLog.AppendRetained | packages/main/src/index.ts:12-23 | whatever the file held before, appending a record and trimming leaves 1 to 500 lines, and the record ends the last one |
| HistoryLog.LogRoundTrip | packages/main/src/index.ts:17-19 | a file of well-formed records reads back as exactly those records |
| HistoryLog.RetainedLog | packages/main/src/index.ts:18-23 | re-reading and trimming a file of well-formed records gives the file of its last 500 records |
| HistoryLog.AppendToLog | packages/main/src/index.ts:17-23 | appending to a well-formed file gives exactly the file of the last 500 of the old records plus the new one; below 500 old records nothing is rewritten and the record is simply added at the end |
| HistoryLog.TrimLog | packages/main/src/index.ts:80 | `trim` removes only the final newline of a well-formed file |
| HistoryLog.ListedLinesOfLog | packages/main/src/index.ts:79-82 | `history.list` sees exactly the lines of a well-formed file |
| HistoryLog.ParseEach | packages/main/src/index.ts:83 | lines that each parse to the matching entry parse, together, to those entries |
| HistoryLog.RecordsAreLogLines | packages/main/src/index.ts:17 | every stringified entry is a well-formed line that parses back to the entry |
| HistoryLog.ParseRecords | packages/main/src/index.ts:83 | parsing the lines written for some entries gives those entries, in order |
| HistoryLog.ListingSerialize | packages/main/src/index.ts:76-87 | `history.list` on a file written by appends returns the appended entries, in order |
| HistoryLog.KeepSnoc | packages/main/src/index.ts:20-21 | trimming after each append gives the same lines as trimming once at the end |
| HistoryLog.AppendEntry | packages/main/src/index.ts:14-24 | one more successful append to a file of kept entries gives the file of the kept entries of the longer sequence |
| HistoryLog.LogAfterAppends | packages/main/src/index.ts:14-24 | after any number of successful appends to no file, the file holds the records of the last 500 entries, oldest first |
| HistoryLog.HistoryAfterAppends | packages/main/src/index.ts:14-24 | after N successful appends to no file, `history.list` returns the last min(N, 500) entries, in the order they were appended |
| MainProcess.AppendHistoryStep | packages/main/src/index.ts:14-24 | `appendHistory` as a function of the file and the call outcomes: the calls it makes, in order, the file after them and how it settles; its promises are `MainProcess.AppendHistoryCalls`, `MainProcess.AppendHistoryBound`, `MainProcess.AppendHistoryBelowMax` and `MainProcess.AppendHistoryToLog` |
| MainProcess.AppendHistoryCalls | packages/main/src/index.ts:16-23 | the first call is `mkdir`, at most four calls are made; it settles exactly when mkdir, append and re-read succeed and, if more than 500 lines were read, the rewrite succeeds; the fourth call, made exactly when more than 500 lines were read, is the `writeFile` of the rewritten text |
| MainProcess.AppendHistoryBelowMax | packages/main/src/index.ts:17-20 | below 500 old records, with mkdir, append and re-read succeeding, it settles whatever `writeFile` would do, calls exactly mkdir, append and read, and the file is the old records followed by the new one |
| MainProcess.AppendHistoryBound | packages/main/src/index.ts:14-24 | a successful `appendHistory` leaves 1 to 500 lines, with the new record ending the last; a failed one leaves the file as it was, or with the record appended and not trimmed |
| MainProcess.AppendHistoryAllOk | packages/main/src/index.ts:16-22 | when every file call succeeds, `appendHistory` settles, and the file is the trimmed re-read of the appended text |
| MainProcess.AppendHistoryToLog | packages/main/src/index.ts:14-24 | with every file call succeeding, appending to a file of records gives the file of the last 500 records of the old entries plus the new one |
| MainProcess.Client.constructor | packages/main/src/index.ts:58-64 | a new client keeps the connection parameters it was given, and it is not connected |
| MainProcess.Client.End | packages/main/src/index.ts:56 | `end()` closes the client when it succeeds, and otherwise leaves it as it was |
| MainProcess.Client.Connect | packages/main/src/index.ts:65 | `connect()` leaves the client connected or failed, according to its outcome |
| MainProcess.Host.constructor | packages/main/src/index.ts:8 | at start-up there is no client, and no external call has been made |
| MainProcess.Host.AppendHistory | packages/main/src/index.ts:14-24 | the imperative `appendHistory` has exactly the effect of its step function: the same file, the same calls in the same order, the same outcome; on success the file holds 1 to 500 lines |
| MainProcess.Host.Connect | packages/main/src/index.ts:54-67 | ends the old client (its state is Ended only if `end()` succeeded, and the failure is swallowed), installs a fresh client with the given parameters, connects it, and returns `connected` or the connect error; `db` is never reset to null; the history is untouched; if no replaced client was connected before the call, none is after it, provided the old client's `end()` succeeded or it was not connected; a swallowed `end()` failure on a connected client leaves it connected among the replaced ones |
| MainProcess.Host.Query | packages/main/src/index.ts:69-74 | with no client, rejects with `not connected`, calls nothing and changes nothing; a failed statement is passed on and the history is untouched; a successful one is appended to the history exactly as `appendHistory` does, and then resolves to its rows or to the append's failure |
| MainProcess.Host.ListHistory | packages/main/src/index.ts:76-87 | reads the file once; returns the listing of its text when the read succeeds, and the empty list when the file is missing or unreadable |
| MainProcess.QueryAfterFailedConnect | packages/main/src/index.ts:54-74 | after a failed `db.connect`, `db.query` never rejects with `not connected`, and a failed statement rejects with the database's error |

## Left out

- Electron window and app lifecycle (`createWindow`, `app.whenReady`, `activate`, `window-all-closed`) is process and UI plumbing, with no logic to model.
- Concurrency is not modelled. Each handler runs to completion before the next one starts. Two overlapping appends can interleave their read and rewrite in the real program, and the model does not capture that.
- The internals of `pg` (`connect`, `query`, `end`) and of `fs` (`mkdir`, `appendFile`, `readFile`, `writeFile`) are not modelled. Each call is a success or failure input. A failed write has no effect, so partial writes are not modelled.
- The rows of a query are an opaque type parameter. The SQL text is never interpreted.
- `new Date().toISOString()` is a timestamp input. Any string is accepted.
- File paths (`APPDATA_DIR`, `HISTORY_FILE`) are left out. There is one history file.
- `fs.readFile` with `utf8` decoding is not modelled: the file is modelled as a string of Unicode scalar values. JavaScript strings can hold lone UTF-16 surrogates, which a Dafny `char` cannot.
- HistoryJson.Parse accepts only the frame `JSON.stringify` writes for an entry: no whitespace, the key `timestamp` then the key `sql`, each with a string value, and nothing else; inside the two strings every JSON escape is decoded. A line that JavaScript's `JSON.parse` would read in another frame (another JSON value, reordered or extra keys, spaces) counts as a parse failure, so `history.list` returns the empty list where the real handler would return what it parsed.
- HistoryJson.ReadEscape refuses a `\u` escape that names a UTF-16 surrogate, because a Dafny `char` cannot hold one. `JSON.stringify` never writes such an escape for a scalar value.
- Connection profiles, table metadata and folder opening have channels declared in the shared IPC types (`profile.list`, `meta.tables`, `fs.openFolder`), but no handler in the host process. They are not modelled.
- Subprocess supervision and a diagnostics log have neither a channel nor a handler in the code. They are not modelled.
