/**
 The shell's command history: a list of at most ten command lines, oldest
 first, addressed from 1 when listed and recalled. The global `history`
 vector of the shell becomes an explicit value here, and each operation
 takes it and returns its successor.
 */
module HistoryStore {
  import opened Text
  import opened Numbers

  /** `HISTORY_SIZE`. */
  const Capacity: nat := 10

  type History = seq<string>

  /** `add_to_history`: when the history already holds `Capacity` entries the
      oldest is erased, then `cmd` is appended. */
  function AddToHistory(h: History, cmd: string): (h': History)
    ensures |h| <= Capacity ==> |h'| <= Capacity
    ensures |h'| > 0 && h'[|h'| - 1] == cmd
    ensures |h| < Capacity ==> h' == h + [cmd]
    ensures |h| == Capacity ==> |h'| == Capacity
    ensures |h| == Capacity ==> forall i :: 0 <= i < Capacity - 1 ==> h'[i] == h[i + 1]
  {
    if |h| == Capacity then h[1..] + [cmd] else h + [cmd]
  }

  /** The last `Capacity` entries of a log, or all of it when it is shorter. */
  function Recent(log: seq<string>): (h: History)
    ensures |h| <= Capacity
  {
    if |log| <= Capacity then log else log[|log| - Capacity..]
  }

  /** Records the commands one after the other. */
  function RecordAll(h: History, cmds: seq<string>): History
    decreases |cmds|
  {
    if cmds == [] then h else RecordAll(AddToHistory(h, cmds[0]), cmds[1..])
  }

  /** The history is always the most recent `Capacity` commands ever recorded:
      recording into the window of a log gives the window of the longer log. */
  lemma AddKeepsRecent(log: seq<string>, cmd: string)
    ensures AddToHistory(Recent(log), cmd) == Recent(log + [cmd])
  {
    var n := |log|;
    if n > Capacity {
      assert Recent(log)[1..] == log[n - Capacity + 1..];
      assert (log + [cmd])[n + 1 - Capacity..] == log[n - Capacity + 1..] + [cmd];
    } else if n == Capacity {
      assert (log + [cmd])[n + 1 - Capacity..] == log[1..] + [cmd];
    }
  }

  lemma SnocThenRest<T>(log: seq<T>, s: seq<T>)
    requires |s| > 0
    ensures log + [s[0]] + s[1..] == log + s
  {
  }

  lemma {:induction false} RecordAllKeepsRecent(log: seq<string>, cmds: seq<string>)
    ensures RecordAll(Recent(log), cmds) == Recent(log + cmds)
    decreases |cmds|
  {
    if cmds == [] {
      assert log + cmds == log;
    } else {
      AddKeepsRecent(log, cmds[0]);
      RecordAllKeepsRecent(log + [cmds[0]], cmds[1..]);
      SnocThenRest(log, cmds);
    }
  }

  /** A history within capacity is its own window. */
  lemma RecentOfHistory(h: History)
    requires |h| <= Capacity
    ensures Recent(h) == h
  {
  }

  /** The window after one more entry: a plain append below capacity, the
      oldest entry dropped at capacity. */
  lemma RecentOfOneMore(h: History, c: string)
    requires |h| <= Capacity
    ensures |h| < Capacity ==> Recent(h + [c]) == h + [c]
    ensures |h| == Capacity ==> Recent(h + [c]) == h[1..] + [c]
  {
    if |h| == Capacity {
      assert (h + [c])[1..] == h[1..] + [c];
    }
  }

  /** The window after two more entries: as many of the oldest entries go
      as the history has too few free places. */
  lemma RecentOfTwoMore(h: History, c: string, d: string)
    requires |h| <= Capacity
    ensures |h| <= Capacity - 2 ==> Recent(h + [c, d]) == h + [c, d]
    ensures |h| == Capacity - 1 ==> Recent(h + [c, d]) == h[1..] + [c, d]
    ensures |h| == Capacity ==> Recent(h + [c, d]) == h[2..] + [c, d]
  {
    if |h| == Capacity {
      assert (h + [c, d])[2..] == h[2..] + [c, d];
    } else if |h| == Capacity - 1 {
      assert (h + [c, d])[1..] == h[1..] + [c, d];
    }
  }

  /** One line of the `hist` listing: its 1-based number and the command. */
  datatype Row = Row(number: nat, text: string)

  /** The rows for `entries`, numbered upwards from `start` as the listing
      loop's counter does. */
  function ListFrom(entries: seq<string>, start: nat): (rows: seq<Row>)
    ensures |rows| == |entries|
    ensures forall k :: 0 <= k < |rows| ==> rows[k] == Row(start + k, entries[k])
    decreases |entries|
  {
    if entries == [] then [] else [Row(start, entries[0])] + ListFrom(entries[1..], start + 1)
  }

  /** `print_history` as a listing: entry `k` (from 0) is shown as number
      `k + 1`, oldest first. */
  function Listing(h: History): seq<Row> {
    ListFrom(h, 1)
  }

  /** The printed form of a row: two spaces, the number, a colon, a space and
      the command. */
  function RenderRow(row: Row): string {
    "  " + Decimal(row.number) + ": " + row.text
  }

  /** `get_command_from_history`: the entry a recall selector names, or the
      empty string when there is none. */
  function GetCommandFromHistory(h: History, selector: string): (r: string)
    ensures h == [] ==> r == ""
    ensures h != [] && selector == "" ==> r == h[|h| - 1]
    ensures selector != "" && Stoi(selector).Parsed? && 1 <= Stoi(selector).value <= |h|
            ==> r == h[Stoi(selector).value - 1]
    ensures selector != "" && !(Stoi(selector).Parsed? && 1 <= Stoi(selector).value <= |h|)
            ==> r == ""
    ensures r == "" || r in h
  {
    if h == [] then ""
    else if selector == "" then h[|h| - 1]
    else
      match Stoi(selector)
      case Parsed(n) => if 1 <= n <= |h| then h[n - 1] else ""
      case InvalidArgument => ""
      case OutOfRange => ""
  }

  /** Every number the listing shows recalls the entry shown beside it. */
  lemma ListedNumberRecalls(h: History, k: nat)
    requires |h| <= Capacity
    requires k < |h|
    ensures Listing(h)[k].text == h[k]
    ensures GetCommandFromHistory(h, Decimal(Listing(h)[k].number)) == h[k]
  {
    StoiOfDecimal(k + 1);
  }

  /** The printed row, given back to `stoi`, yields the row's number: the
      leading blanks are skipped and the colon ends the digits. */
  lemma RenderedRowNumber(row: Row)
    requires row.number <= IntMax
    ensures Stoi(RenderRow(row)) == Parsed(row.number)
  {
    var ws, ds, rest := "  ", Decimal(row.number), ": " + row.text;
    assert IsBlank(ws);
    assert rest[0] == ':';
    StoiAccepts(ws, "", ds, rest);
    assert ws + "" == ws;
    assert RenderRow(row) == ws + ds + rest;
  }

  /** A numeral followed by text that cannot continue it still selects by the
      numeral: "3x" recalls entry 3. */
  lemma RecallIgnoresTrailingText(h: History, n: nat, rest: string)
    requires 1 <= n <= |h| && n <= IntMax
    requires rest == [] || !IsDigit(rest[0])
    ensures GetCommandFromHistory(h, Decimal(n) + rest) == h[n - 1]
  {
    StoiIgnoresTrailingText(n, rest);
  }

  /** Position 0 and negative positions never select anything. */
  lemma RecallZeroOrNegativeFails(h: History, n: nat)
    ensures GetCommandFromHistory(h, Decimal(0)) == ""
    ensures GetCommandFromHistory(h, "-" + Decimal(n)) == ""
  {
    StoiOfDecimal(0);
    StoiOfNegative(n);
  }

  /** When no entry is empty, which the shell guarantees, an empty answer
      means exactly that the selector named nothing. */
  lemma RecallFoundIff(h: History, selector: string)
    requires forall i :: 0 <= i < |h| ==> h[i] != ""
    ensures GetCommandFromHistory(h, selector) != ""
        <==> h != [] && (selector == "" || (Stoi(selector).Parsed? && 1 <= Stoi(selector).value <= |h|))
  {
  }
}
