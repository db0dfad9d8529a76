/** The query-history file (`history.log`): one JSON record per line, at most
    HISTORY_MAX lines kept (packages/main/src/index.ts:11-24, 76-87). The file
    is modelled as its text; these are the pure steps `appendHistory` and
    `history.list` take on that text. */
module HistoryLog {
  import opened Wrappers
  import opened Ipc
  import opened JsText
  import HistoryJson

  /** How many lines `appendHistory` keeps. */
  const HISTORY_MAX: nat := 500

  /** The lines that survive a trim: `lines.slice(-HISTORY_MAX)` when there
      are more than HISTORY_MAX, all of them otherwise. The result is the
      suffix of `lines` of length min(|lines|, HISTORY_MAX). */
  function Keep<T>(lines: seq<T>): (r: seq<T>)
    ensures |r| == if |lines| > HISTORY_MAX then HISTORY_MAX else |lines|
    ensures r == lines[|lines| - |r|..]
  {
    if |lines| > HISTORY_MAX then lines[|lines| - HISTORY_MAX..] else lines
  }

  /** A line as `appendHistory` writes it: non-empty, newline-free and without
      whitespace at either end, as every `JSON.stringify` of an object is. */
  predicate IsLogLine(line: string) {
    |line| > 0 && '\n' !in line && !IsWhitespace(line[0]) && !IsWhitespace(line[|line| - 1])
  }

  /** The text of a history file holding `lines`, each ended by a newline. */
  function Serialize(lines: seq<string>): string {
    if lines == [] then "" else Serialize(lines[..|lines| - 1]) + lines[|lines| - 1] + "\n"
  }

  /** `data.trimEnd().split('\n')`: the lines `appendHistory` counts. */
  function LinesOf(data: string): seq<string> {
    Split(TrimEnd(data))
  }

  /** The file text after `fs.appendFile(HISTORY_FILE, record + '\n')`; a
      missing file is created. */
  function Appended(file: Option<string>, record: string): string {
    file.GetOr("") + record + "\n"
  }

  /** The file text after `appendHistory` has re-read `data`: rewritten as
      `latest.join('\n') + '\n'` when it has more than HISTORY_MAX lines,
      left alone otherwise. */
  function Retained(data: string): string {
    var lines := LinesOf(data);
    if |lines| > HISTORY_MAX then Join(Keep(lines)) + "\n" else data
  }

  /** `.filter(Boolean)` on strings: the non-empty ones, in order. */
  function NonEmpty(lines: seq<string>): (r: seq<string>)
    ensures forall i :: 0 <= i < |r| ==> r[i] != ""
    ensures forall s :: s in r <==> s in lines && s != ""
    ensures (forall i :: 0 <= i < |lines| ==> lines[i] != "") ==> r == lines
    ensures |lines| == 1 ==> r == if lines[0] == "" then [] else lines
    decreases |lines|
  {
    if lines == [] then []
    else
      assert lines == [lines[0]] + lines[1..];
      (if lines[0] == "" then [] else [lines[0]]) + NonEmpty(lines[1..])
  }

  /** Filtering a concatenation filters each part and keeps them in order;
      with the one-line case of `NonEmpty`'s contract this fixes the filter:
      every non-empty line is kept, as often as it occurs, in file order. */
  lemma {:induction false} NonEmptyAppend(a: seq<string>, b: seq<string>)
    ensures NonEmpty(a + b) == NonEmpty(a) + NonEmpty(b)
    decreases |a|
  {
    if a == [] {
      assert a + b == b;
    } else {
      assert (a + b)[0] == a[0];
      assert (a + b)[1..] == a[1..] + b;
      NonEmptyAppend(a[1..], b);
    }
  }

  /** `.map((line) => JSON.parse(line))` where any failure throws: every line
      parsed, in order, or nothing at all. */
  function ParseAll(lines: seq<string>): (r: Option<seq<HistoryEntry>>)
    ensures r.Some? <==> forall i :: 0 <= i < |lines| ==> HistoryJson.Parse(lines[i]).Some?
    ensures r.Some? ==> |r.value| == |lines|
    ensures r.Some? ==> forall i :: 0 <= i < |lines| ==> HistoryJson.Parse(lines[i]) == Some(r.value[i])
    decreases |lines|
  {
    if lines == [] then Some([])
    else
      match (HistoryJson.Parse(lines[0]), ParseAll(lines[1..]))
      case (Some(e), Some(es)) => Some([e] + es)
      case _ => None
  }

  /** The lines `history.list` parses: `data.trim().split('\n').filter(Boolean)`. */
  function ListedLines(data: string): seq<string> {
    NonEmpty(Split(Trim(data)))
  }

  /** What `history.list` returns for file text `data`: one entry per
      non-empty line, in file order, when every such line parses; the empty
      list as soon as one does not. */
  function Listing(data: string): (r: seq<HistoryEntry>)
    ensures var lines := ListedLines(data);
      (forall i :: 0 <= i < |lines| ==> HistoryJson.Parse(lines[i]).Some?) ==>
        |r| == |lines| && forall i :: 0 <= i < |lines| ==> HistoryJson.Parse(lines[i]) == Some(r[i])
    ensures var lines := ListedLines(data);
      (exists i :: 0 <= i < |lines| && HistoryJson.Parse(lines[i]).None?) ==> r == []
  {
    match ParseAll(ListedLines(data))
    case Some(entries) => entries
    case None => []
  }

  /** The history records of `entries`, one stringified entry per line. */
  function Records(entries: seq<HistoryEntry>): (r: seq<string>)
    ensures |r| == |entries|
  {
    seq(|entries|, i requires 0 <= i < |entries| => HistoryJson.Stringify(entries[i]))
  }

  // ---------------------------------------------------------------------------
  // Lemmas

  /** Removing the newline that ends a file whose last character is not
      whitespace is all `trimEnd` does. */
  lemma TrimEndNewline(text: string)
    requires |text| > 0 && !IsWhitespace(text[|text| - 1])
    ensures TrimEnd(text + "\n") == text
  {
    assert (text + "\n")[..|text|] == text;
  }

  /** A non-empty file's text is its lines joined with newlines, plus one. */
  lemma {:induction false} SerializeJoin(lines: seq<string>)
    requires |lines| >= 1
    ensures Serialize(lines) == Join(lines) + "\n"
    decreases |lines|
  {
    if |lines| > 1 {
      var front := lines[..|lines| - 1];
      SerializeJoin(front);
      JoinSnoc(front, lines[|lines| - 1]);
      assert front + [lines[|lines| - 1]] == lines;
    } else {
      assert lines[..0] == [];
    }
  }

  /** The rewrite round trip: `latest.join('\n') + '\n'` read back with
      `trimEnd().split('\n')` gives `latest` again, when no line holds a
      newline and the last line ends in something other than whitespace. */
  lemma RewriteRoundTrip(latest: seq<string>)
    requires |latest| >= 1
    requires forall i :: 0 <= i < |latest| ==> '\n' !in latest[i]
    requires var last := latest[|latest| - 1]; |last| > 0 && !IsWhitespace(last[|last| - 1])
    ensures LinesOf(Join(latest) + "\n") == latest
  {
    JoinEnds(latest);
    TrimEndNewline(Join(latest));
    SplitJoin(latest);
  }

  /** After the re-read, the file holds at most HISTORY_MAX lines, and they
      are the last ones of what it held before, in order; this holds for any
      text, an all-whitespace one reading as one empty line. */
  lemma RetainedLines(data: string)
    ensures LinesOf(Retained(data)) == Keep(LinesOf(data))
    ensures |LinesOf(Retained(data))| <= HISTORY_MAX
  {
    var lines := LinesOf(data);
    if TrimEnd(data) == "" {
      assert Split("") == [""];
    } else if |lines| > HISTORY_MAX {
      SplitLast(TrimEnd(data));
      RewriteRoundTrip(Keep(lines));
    }
  }

  /** File text that reads back as 1 to HISTORY_MAX lines, the last of
      which ends with `record`. */
  predicate BoundedEndingWith(data: string, record: string) {
    var lines := LinesOf(data);
    && 1 <= |lines| <= HISTORY_MAX
    && var last := lines[|lines| - 1]; |record| <= |last| && last[|last| - |record|..] == record
  }

  /** Appending a record to ANY file text and trimming leaves at most
      HISTORY_MAX lines, and the record ends the last one. */
  lemma AppendRetained(file: Option<string>, record: string)
    requires IsLogLine(record)
    ensures BoundedEndingWith(Retained(Appended(file, record)), record)
  {
    var prefix := file.GetOr("");
    var data := Appended(file, record);
    assert data == (prefix + record) + "\n";
    TrimEndNewline(prefix + record);
    SplitSuffix(prefix, record);
    RetainedLines(data);
  }

  /** A well-formed non-empty file reads back as its lines. */
  lemma LogRoundTrip(lines: seq<string>)
    requires |lines| >= 1
    requires forall i :: 0 <= i < |lines| ==> IsLogLine(lines[i])
    ensures LinesOf(Serialize(lines)) == lines
  {
    SerializeJoin(lines);
    RewriteRoundTrip(lines);
  }

  /** Re-reading a well-formed non-empty file and trimming it gives the file
      of its last HISTORY_MAX lines. */
  lemma RetainedLog(lines: seq<string>)
    requires |lines| >= 1
    requires forall i :: 0 <= i < |lines| ==> IsLogLine(lines[i])
    ensures Retained(Serialize(lines)) == Serialize(Keep(lines))
  {
    LogRoundTrip(lines);
    if |lines| > HISTORY_MAX {
      SerializeJoin(Keep(lines));
    }
  }

  /** Appending to a well-formed file: the result is exactly the file of the
      last HISTORY_MAX lines of the old lines followed by the record; while
      the old file holds fewer than HISTORY_MAX lines nothing is rewritten
      and the record is simply added at the end. */
  lemma AppendToLog(lines: seq<string>, record: string)
    requires forall i :: 0 <= i < |lines| ==> IsLogLine(lines[i])
    requires IsLogLine(record)
    ensures Retained(Serialize(lines) + record + "\n") == Serialize(Keep(lines + [record]))
    ensures |lines| < HISTORY_MAX ==> Retained(Serialize(lines) + record + "\n") == Serialize(lines + [record])
  {
    SerializeSnoc(lines, record);
    LogLinesSnoc(lines, record);
    RetainedLog(lines + [record]);
  }

  /** The file of one more line is the old file with that line and a newline
      added. */
  lemma SerializeSnoc(lines: seq<string>, line: string)
    ensures Serialize(lines + [line]) == Serialize(lines) + line + "\n"
  {
    assert (lines + [line])[..|lines|] == lines;
  }

  /** Adding a well-formed line to well-formed lines keeps them well-formed. */
  lemma LogLinesSnoc(lines: seq<string>, line: string)
    requires forall i :: 0 <= i < |lines| ==> IsLogLine(lines[i])
    requires IsLogLine(line)
    ensures forall i :: 0 <= i < |lines + [line]| ==> IsLogLine((lines + [line])[i])
  {
  }

  /** `trim` takes from a well-formed non-empty file only its final newline. */
  lemma TrimLog(lines: seq<string>)
    requires |lines| >= 1
    requires forall i :: 0 <= i < |lines| ==> IsLogLine(lines[i])
    ensures Trim(Serialize(lines)) == Join(lines)
  {
    SerializeJoin(lines);
    JoinEnds(lines);
    TrimEndNewline(Join(lines));
  }

  /** `history.list` sees exactly the lines of a well-formed file. */
  lemma ListedLinesOfLog(lines: seq<string>)
    requires forall i :: 0 <= i < |lines| ==> IsLogLine(lines[i])
    ensures ListedLines(Serialize(lines)) == lines
  {
    if lines == [] {
      assert Split("") == [""];
    } else {
      assert Split(Trim(Serialize(lines))) == lines by {
        TrimLog(lines);
        SplitJoin(lines);
      }
    }
  }

  /** Every stringified entry is a well-formed log line that parses back to
      the entry. */
  lemma RecordsAreLogLines(entries: seq<HistoryEntry>)
    ensures forall i :: 0 <= i < |entries| ==> IsLogLine(Records(entries)[i])
    ensures forall i :: 0 <= i < |entries| ==> HistoryJson.Parse(Records(entries)[i]) == Some(entries[i])
  {
    forall i | 0 <= i < |entries|
      ensures HistoryJson.Parse(Records(entries)[i]) == Some(entries[i])
    {
      HistoryJson.ParseStringify(entries[i]);
    }
  }

  /** `history.list` on a well-formed file lists its lines' entries in order. */
  lemma ListingSerialize(entries: seq<HistoryEntry>)
    ensures Listing(Serialize(Records(entries))) == entries
  {
    var lines := Records(entries);
    assert ListedLines(Serialize(lines)) == lines by {
      RecordsAreLogLines(entries);
      ListedLinesOfLog(lines);
    }
    ParseRecords(entries);
  }

  /** Parsing the records of `entries` gives `entries` back. */
  lemma ParseRecords(entries: seq<HistoryEntry>)
    ensures ParseAll(Records(entries)) == Some(entries)
  {
    RecordsAreLogLines(entries);
    ParseEach(Records(entries), entries);
  }

  /** Lines that each parse to the matching entry parse, together, to the
      entries. */
  lemma {:induction false} ParseEach(lines: seq<string>, entries: seq<HistoryEntry>)
    requires |lines| == |entries|
    requires forall i :: 0 <= i < |lines| ==> HistoryJson.Parse(lines[i]) == Some(entries[i])
    ensures ParseAll(lines) == Some(entries)
    decreases |lines|
  {
    if lines != [] {
      ParseEach(lines[1..], entries[1..]);
      ParseAllCons(lines, entries[0], entries[1..]);
      assert [entries[0]] + entries[1..] == entries;
    }
  }

  /** One step of `ParseAll`: a parsed first line in front of the parsed rest. */
  lemma ParseAllCons(lines: seq<string>, e: HistoryEntry, es: seq<HistoryEntry>)
    requires |lines| > 0 && HistoryJson.Parse(lines[0]) == Some(e) && ParseAll(lines[1..]) == Some(es)
    ensures ParseAll(lines) == Some([e] + es)
  {
  }

  /** Stringifying one more entry adds its line at the end. */
  lemma RecordsSnoc(entries: seq<HistoryEntry>, e: HistoryEntry)
    ensures Records(entries + [e]) == Records(entries) + [HistoryJson.Stringify(e)]
  {
    var r, s := Records(entries + [e]), Records(entries) + [HistoryJson.Stringify(e)];
    assert |r| == |s|;
    forall i | 0 <= i < |r| ensures r[i] == s[i] {
      if i < |entries| {
        assert (entries + [e])[i] == entries[i];
      }
    }
  }

  /** Trimming commutes with stringifying the entries. */
  lemma KeepRecords(entries: seq<HistoryEntry>)
    ensures Records(Keep(entries)) == Keep(Records(entries))
  {
  }

  /** Trimming after each append is the same as trimming once at the end. */
  lemma KeepSnoc<T>(lines: seq<T>, x: T)
    ensures Keep(Keep(lines) + [x]) == Keep(lines + [x])
  {
    if |lines| > HISTORY_MAX {
      assert (Keep(lines) + [x])[1..] == lines[|lines| + 1 - HISTORY_MAX..] + [x];
    }
  }

  /** The file text after `appendHistory` has succeeded for each of `entries`
      in turn, starting with no file. */
  ghost function LogAfter(entries: seq<HistoryEntry>): string {
    if entries == [] then ""
    else Retained(Appended(Some(LogAfter(entries[..|entries| - 1])), HistoryJson.Stringify(entries[|entries| - 1])))
  }

  /** One more successful append to a file holding the kept entries of
      `entries` gives the file holding the kept entries of `entries + [e]`. */
  lemma AppendEntry(entries: seq<HistoryEntry>, e: HistoryEntry)
    ensures Retained(Appended(Some(Serialize(Records(Keep(entries)))), HistoryJson.Stringify(e)))
         == Serialize(Records(Keep(entries + [e])))
  {
    var kept := Records(Keep(entries));
    RecordsAreLogLines(Keep(entries));
    RecordsAreLogLines([e]);
    assert Records([e])[0] == HistoryJson.Stringify(e);
    AppendToLog(kept, HistoryJson.Stringify(e));
    RecordsSnoc(Keep(entries), e);
    KeepRecords(Keep(entries) + [e]);
    KeepSnoc(entries, e);
  }

  /** After any number of successful appends, starting with no file, the file
      holds the last HISTORY_MAX entries (all of them while there are fewer),
      oldest first, one per line. */
  lemma {:induction false} LogAfterAppends(entries: seq<HistoryEntry>)
    ensures LogAfter(entries) == Serialize(Records(Keep(entries)))
    decreases |entries|
  {
    if entries != [] {
      var front, e := entries[..|entries| - 1], entries[|entries| - 1];
      assert entries == front + [e];
      LogAfterAppends(front);
      AppendEntry(front, e);
    }
  }

  /** After N successful appends, `history.list` returns the last
      min(N, HISTORY_MAX) entries in the order they were appended. */
  lemma HistoryAfterAppends(entries: seq<HistoryEntry>)
    ensures Listing(LogAfter(entries)) == Keep(entries)
  {
    LogAfterAppends(entries);
    ListingSerialize(Keep(entries));
  }
}
