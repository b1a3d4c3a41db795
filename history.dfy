/** The server-side gesture history shared by every request of the serving
    process (gesture_history in api/flask_app.py and in app.py): a list capped
    at MAX_HISTORY, appended at the tail, evicted at the head, and exported
    as CSV text oldest first. */
module History {
  import opened Text

  const MAX_HISTORY: nat := 50

  /** A distance as the request handler reports it: round(cm, 1) of a
      non-negative float, kept as its count of tenths, or the integer 0 that
      stands in when no estimate was made. */
  datatype Distance = Cm(tenths: nat) | NoEstimate

  /** One retained detection. The timestamp is the ISO-8601 text taken from
      the clock when the entry was made. */
  datatype Entry = Entry(gesture: string, distance: Distance, timestamp: string)

  /** The text an f-string gives the distance: a float with one decimal, or
      the integer 0. */
  function DistanceText(d: Distance): (s: string)
    ensures ',' !in s && '\n' !in s
  {
    match d
    case Cm(t) => NatText(t / 10) + "." + [DigitChar(t % 10)]
    case NoEstimate => "0"
  }

  /** The history after one entry is recorded: appended at the tail, then the
      head dropped if the list has grown past the cap. */
  function AppendEvict<T>(history: seq<T>, e: T): (r: seq<T>)
    ensures |history| <= MAX_HISTORY ==> |r| == Min(|history| + 1, MAX_HISTORY)
    ensures 1 <= |r| <= |history| + 1 && r[|r| - 1] == e
    ensures r == (history + [e])[|history| + 1 - |r|..]
  {
    var grown := history + [e];
    if |grown| > MAX_HISTORY then grown[1..] else grown
  }

  function Min(a: int, b: int): int {
    if a < b then a else b
  }

  /** The last n elements of s (all of s when it is shorter). */
  function LastN<T>(s: seq<T>, n: nat): (r: seq<T>)
    ensures |r| == Min(|s|, n)
  {
    if |s| <= n then s else s[|s| - n..]
  }

  /** Records entries one after another, oldest first. */
  function AppendAll<T>(history: seq<T>, entries: seq<T>): seq<T>
    decreases |entries|
  {
    if entries == [] then history else AppendAll(AppendEvict(history, entries[0]), entries[1..])
  }

  /** Keeping the last n of a sequence does not depend on anything before a
      suffix that already holds at least n elements. */
  lemma LastNOfSuffix<T>(whole: seq<T>, k: nat, tail: seq<T>, n: nat)
    requires k <= |whole| && (|whole| - k >= n || k == 0)
    ensures LastN(whole[k..] + tail, n) == LastN(whole + tail, n)
  {
    if k > 0 {
      assert (whole + tail)[k..] == whole[k..] + tail;
    }
  }

  /** However many entries are recorded into a history within the cap, the
      result is exactly the newest MAX_HISTORY of them, oldest first. */
  lemma {:induction false} AppendAllKeepsNewest<T>(history: seq<T>, entries: seq<T>)
    requires |history| <= MAX_HISTORY
    ensures AppendAll(history, entries) == LastN(history + entries, MAX_HISTORY)
    decreases |entries|
  {
    if entries == [] {
      assert history + entries == history;
    } else {
      var e, rest := entries[0], entries[1..];
      var grown := history + [e];
      var next := AppendEvict(history, e);
      var k := |grown| - |next|;
      assert next == grown[k..];
      assert k == 0 || |next| == MAX_HISTORY;
      AppendAllKeepsNewest(next, rest);
      LastNOfSuffix(grown, k, rest, MAX_HISTORY);
      assert grown + rest == history + entries;
    }
  }

  /** Sixty detections into an empty history leave the last fifty. */
  lemma SixtyIntoFifty<T>(entries: seq<T>)
    requires |entries| == 60
    ensures AppendAll([], entries) == entries[10..]
  {
    AppendAllKeepsNewest([], entries);
    assert [] + entries == entries;
  }

  const HEADER := "timestamp,gesture,distance"

  /** One CSV row without its line break. Fields are not quoted. */
  function RowText(e: Entry): string {
    e.timestamp + "," + e.gesture + "," + DistanceText(e.distance)
  }

  function Rows(history: seq<Entry>): string {
    if history == [] then "" else RowText(history[0]) + "\n" + Rows(history[1..])
  }

  /** The exported log: the header line, then one line per entry in history
      order. */
  function Csv(history: seq<Entry>): string {
    HEADER + "\n" + Rows(history)
  }

  lemma {:induction false} RowsSnoc(history: seq<Entry>, e: Entry)
    ensures Rows(history + [e]) == Rows(history) + RowText(e) + "\n"
    decreases |history|
  {
    if history == [] {
      assert [] + [e] == [e];
    } else {
      assert (history + [e])[1..] == history[1..] + [e];
      RowsSnoc(history[1..], e);
    }
  }

  /** Neither text field carries a separator, as holds for an ISO-8601
      timestamp and for every label the classifier produces. */
  predicate PlainFields(e: Entry) {
    ',' !in e.timestamp && '\n' !in e.timestamp && ',' !in e.gesture && '\n' !in e.gesture
  }

  /** A row splits back into exactly its three fields. */
  lemma RowFields(e: Entry)
    requires PlainFields(e)
    ensures SplitOn(RowText(e), ',') == [e.timestamp, e.gesture, DistanceText(e.distance)]
  {
    var d := DistanceText(e.distance);
    SplitOnNoSeparator(d, ',');
    SplitOnFirst(e.gesture, ',', d);
    SplitOnFirst(e.timestamp, ',', e.gesture + "," + d);
    assert RowText(e) == e.timestamp + [','] + (e.gesture + [','] + d);
  }

  lemma {:induction false} RowsLines(history: seq<Entry>)
    requires forall i :: 0 <= i < |history| ==> PlainFields(history[i])
    ensures var lines := SplitOn(Rows(history), '\n');
      |lines| == |history| + 1 && lines[|history|] == "" &&
      forall i :: 0 <= i < |history| ==> lines[i] == RowText(history[i])
    decreases |history|
  {
    if history != [] {
      var row, tail := RowText(history[0]), history[1..];
      assert '\n' !in row;
      RowsLines(tail);
      SplitOnFirst(row, '\n', Rows(tail));
      assert Rows(history) == row + ['\n'] + Rows(tail);
      var lines, tailLines := SplitOn(Rows(history), '\n'), SplitOn(Rows(tail), '\n');
      assert lines == [row] + tailLines;
      forall i | 1 <= i < |history|
        ensures lines[i] == RowText(history[i])
      {
        assert lines[i] == tailLines[i - 1] && tail[i - 1] == history[i];
      }
    }
  }

  /** Reading the export back: splitting on line breaks gives the header, one
      line per entry in history order, and the empty text after the final
      break; each entry line splits into timestamp, gesture and distance. */
  lemma CsvRoundTrip(history: seq<Entry>)
    requires forall i :: 0 <= i < |history| ==> PlainFields(history[i])
    ensures var lines := SplitOn(Csv(history), '\n');
      |lines| == |history| + 2 && lines[0] == HEADER && lines[|history| + 1] == "" &&
      forall i :: 0 <= i < |history| ==>
        SplitOn(lines[i + 1], ',') == [history[i].timestamp, history[i].gesture, DistanceText(history[i].distance)]
  {
    SplitOnFirst(HEADER, '\n', Rows(history));
    RowsLines(history);
    forall i | 0 <= i < |history|
      ensures SplitOn(RowText(history[i]), ',') == [history[i].timestamp, history[i].gesture, DistanceText(history[i].distance)]
    {
      RowFields(history[i]);
    }
  }

  /** The process-wide history list. */
  class Log {
    var entries: seq<Entry>

    ghost predicate Valid()
      reads this
    {
      |entries| <= MAX_HISTORY
    }

    /** The list starts empty when the process starts. */
    constructor ()
      ensures Valid() && entries == []
    {
      entries := [];
    }

    /** Records one entry: append, then pop(0) if over the cap. */
    method Append(e: Entry)
      requires Valid()
      modifies this
      ensures Valid()
      ensures entries == AppendEvict(old(entries), e)
    {
      entries := entries + [e];
      if |entries| > MAX_HISTORY {
        entries := entries[1..];
      }
    }

    /** export_log: the header, then one row per entry accumulated in a loop.
        Reads the history and leaves it as it was. */
    method Export() returns (csv: string)
      ensures csv == Csv(entries)
    {
      csv := HEADER + "\n";
      var i := 0;
      while i < |entries|
        invariant 0 <= i <= |entries|
        invariant csv == HEADER + "\n" + Rows(entries[..i])
      {
        var e := entries[i];
        RowsSnoc(entries[..i], e);
        assert entries[..i + 1] == entries[..i] + [e];
        csv := csv + RowText(e) + "\n";
        i := i + 1;
      }
      assert entries[..i] == entries;
    }
  }
}
