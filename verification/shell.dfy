/**
 The command resolver of the shell: what `execute_command` records and
 dispatches for one command, and what the main loop does with one input
 line (blank-line filter, recall check). Each step maps the history and a
 line to the next history and an `Action` saying what the shell does next;
 the process, directory and terminal effects themselves are not modelled.
 */
module Shell {
  import opened Text
  import opened Tokenizer
  import opened Numbers
  import opened HistoryStore

  datatype Option<T> = None | Some(value: T)

  /** What the shell does after handling a line. */
  datatype Action =
    | Nothing                            // a blank command: nothing happens
    | Exit                               // `exit`: the shell terminates
    | ListHistory(rows: seq<Row>)        // `hist`: the listing printed
    | ChangeDir(target: Option<string>)  // `cd`: to the argument, or to $HOME when None
    | Spawn(argv: seq<string>)           // any other command: fork and exec argv
    | RecallFailed                       // `r ...` whose selector named no entry

  datatype Outcome = Outcome(history: History, action: Action)

  /** `execute_command(cmd)`. `exit` returns before anything is recorded;
      every other non-blank command is appended before it is dispatched;
      `hist` and `cd` return right after acting; any other command passes
      the `args[0] != "hist"` guard, which always holds there, and is
      appended a second time before it is spawned. */
  function ExecuteCommand(h: History, cmd: string): (o: Outcome)
    ensures o.action == Nothing <==> Tokens(cmd) == []
    ensures o.action == Exit <==> Tokens(cmd) != [] && Tokens(cmd)[0] == "exit"
    ensures o.action == Nothing || o.action == Exit ==> o.history == h
    ensures o.action.ListHistory? ==> o.action.rows == Listing(o.history)
    ensures o.action.Spawn? ==> o.action.argv == Tokens(cmd)
    ensures !o.action.RecallFailed?
  {
    var args := Tokens(cmd);
    if args == [] then Outcome(h, Nothing)
    else if args[0] == "exit" then Outcome(h, Exit)
    else
      var h1 := AddToHistory(h, cmd);
      if args[0] == "hist" then Outcome(h1, ListHistory(Listing(h1)))
      else if args[0] == "cd" then Outcome(h1, ChangeDir(if |args| > 1 then Some(args[1]) else None))
      else
        var h2 := if args[0] != "hist" then AddToHistory(h1, cmd) else h1;
        Outcome(h2, Spawn(args))
  }

  /** The recording rule of `execute_command`, as the list of lines it
      appends for one command: none for a blank line or `exit`, one copy for
      `hist` and `cd`, two copies for everything else. */
  function Recordings(cmd: string): seq<string> {
    var args := Tokens(cmd);
    if args == [] || args[0] == "exit" then []
    else if args[0] == "hist" || args[0] == "cd" then [cmd]
    else [cmd, cmd]
  }

  /** Executing a command leaves the last `Capacity` lines of the history
      followed by what the recording rule appends. */
  lemma ExecuteRecords(h: History, cmd: string)
    requires |h| <= Capacity
    ensures ExecuteCommand(h, cmd).history == Recent(h + Recordings(cmd))
    ensures |ExecuteCommand(h, cmd).history| <= Capacity
  {
    RecentOfHistory(h);
    RecordAllKeepsRecent(h, Recordings(cmd));
    var args := Tokens(cmd);
    if args != [] && args[0] != "exit" {
      var h1 := AddToHistory(h, cmd);
      assert RecordAll(h, [cmd]) == h1 by {
        assert [cmd][1..] == [];
      }
      assert RecordAll(h1, [cmd]) == AddToHistory(h1, cmd) by {
        assert [cmd][1..] == [];
      }
      assert RecordAll(h, [cmd, cmd]) == RecordAll(h1, [cmd]) by {
        assert [cmd, cmd][1..] == [cmd];
      }
    } else {
      assert h + [] == h;
    }
  }

  /** `hist` and `cd` are appended exactly once: the oldest entry goes when
      the history is full, and below capacity it is a plain append. */
  lemma BuiltinRecordedOnce(h: History, cmd: string)
    requires Tokens(cmd) != [] && (Tokens(cmd)[0] == "hist" || Tokens(cmd)[0] == "cd")
    requires |h| <= Capacity
    ensures ExecuteCommand(h, cmd).history == Recent(h + [cmd])
    ensures |h| < Capacity ==> ExecuteCommand(h, cmd).history == h + [cmd]
    ensures |h| == Capacity ==> ExecuteCommand(h, cmd).history == h[1..] + [cmd]
  {
    ExecuteRecords(h, cmd);
    RecentOfOneMore(h, cmd);
  }

  /** Every other command is appended twice: with room for both copies it
      gains two trailing entries, one short of capacity it pushes out the
      oldest, and on a full history it pushes out the two oldest. */
  lemma ExternalRecordedTwice(h: History, cmd: string)
    requires Tokens(cmd) != []
    requires Tokens(cmd)[0] != "exit" && Tokens(cmd)[0] != "hist" && Tokens(cmd)[0] != "cd"
    requires |h| <= Capacity
    ensures ExecuteCommand(h, cmd).history == Recent(h + [cmd, cmd])
    ensures |h| <= Capacity - 2 ==> ExecuteCommand(h, cmd).history == h + [cmd, cmd]
    ensures |h| == Capacity - 1 ==> ExecuteCommand(h, cmd).history == h[1..] + [cmd, cmd]
    ensures |h| == Capacity ==> ExecuteCommand(h, cmd).history == h[2..] + [cmd, cmd]
    ensures ExecuteCommand(h, cmd).action == Spawn(Tokens(cmd))
  {
    ExecuteRecords(h, cmd);
    RecentOfTwoMore(h, cmd, cmd);
  }

  /** `hist` is recorded before it lists, so the listing ends with the `hist`
      line itself, numbered with the new length of the history. */
  lemma HistListsItself(h: History, cmd: string)
    requires Tokens(cmd) != [] && Tokens(cmd)[0] == "hist"
    requires |h| <= Capacity
    ensures var o := ExecuteCommand(h, cmd);
            && o.action.ListHistory?
            && |o.action.rows| == |o.history| > 0
            && o.action.rows[|o.history| - 1] == Row(|o.history|, cmd)
  {
  }

  /** `cd` goes to its first argument, or home when it has none. */
  lemma CdTarget(h: History, cmd: string)
    requires Tokens(cmd) != [] && Tokens(cmd)[0] == "cd"
    ensures ExecuteCommand(h, cmd).action
         == ChangeDir(if |Tokens(cmd)| > 1 then Some(Tokens(cmd)[1]) else None)
  {
  }

  /** The recall check of the main loop: the line starts with `r` and is
      either just `r` or has a space (a space, not any whitespace) next. */
  predicate IsRecallLine(line: string) {
    |line| > 0 && line[0] == 'r' && (|line| == 1 || line[1] == ' ')
  }

  /** The recall selector: everything after the first two characters. */
  function Selector(line: string): string
    requires IsRecallLine(line)
  {
    if |line| > 2 then line[2..] else ""
  }

  /** One pass of the main loop over an input line: blank lines are skipped;
      a recall line runs the recalled command through `execute_command` (or
      fails) and is itself never recorded; any other line is executed. */
  function ProcessLine(h: History, line: string): (o: Outcome)
    ensures o.action == RecallFailed ==> o.history == h && IsRecallLine(line)
    ensures IsBlank(line) ==> o == Outcome(h, Nothing)
  {
    if IsBlank(line) then Outcome(h, Nothing)
    else if IsRecallLine(line) then
      var cmd := GetCommandFromHistory(h, Selector(line));
      if cmd != "" then ExecuteCommand(h, cmd) else Outcome(h, RecallFailed)
    else ExecuteCommand(h, line)
  }

  /** A recall runs exactly the selected entry, as if it had been typed;
      a failed recall changes nothing. */
  lemma RecallRunsEntry(h: History, line: string)
    requires IsRecallLine(line)
    ensures var cmd := GetCommandFromHistory(h, Selector(line));
            ProcessLine(h, line) == if cmd == "" then Outcome(h, RecallFailed) else ExecuteCommand(h, cmd)
  {
    assert line[0] == 'r';
  }

  /** `r` alone re-executes the most recent entry. */
  lemma RecallLatest(h: History)
    requires h != [] && h[|h| - 1] != ""
    ensures ProcessLine(h, "r") == ExecuteCommand(h, h[|h| - 1])
  {
    RecallRunsEntry(h, "r");
  }

  /** The two characters in front of a recall selector. */
  lemma TwoThenRest<T>(a: T, b: T, s: seq<T>)
    ensures ([a, b] + s)[0] == a && ([a, b] + s)[1] == b
    ensures ([a, b] + s)[2..] == s
  {
  }

  /** `r `, then the selector. */
  lemma RecallLineOf(selector: string)
    ensures IsRecallLine("r " + selector) && Selector("r " + selector) == selector
  {
    assert "r " == ['r', ' '];
    TwoThenRest('r', ' ', selector);
  }

  /** `r ` followed by a number the listing shows re-executes that entry. */
  lemma RecallNumbered(h: History, k: nat)
    requires |h| <= Capacity
    requires 1 <= k <= |h|
    requires h[k - 1] != ""
    ensures ProcessLine(h, "r " + Decimal(k)) == ExecuteCommand(h, h[k - 1])
  {
    RecallLineOf(Decimal(k));
    ListedNumberRecalls(h, k - 1);
    RecallRunsEntry(h, "r " + Decimal(k));
  }

  /** `r` followed by two spaces selects " ", which `stoi` rejects: the
      recall fails rather than meaning "most recent". */
  lemma RecallWithBlankSelectorFails(h: History)
    ensures ProcessLine(h, "r  ") == Outcome(h, RecallFailed)
  {
    var line := "r  ";
    assert IsRecallLine(line);
    assert Selector(line) == " ";
    StoiRejects(" ", "", "");
    assert " " + "" + "" == " ";
    if h != [] {
      assert GetCommandFromHistory(h, " ") == "";
    }
    RecallRunsEntry(h, line);
    assert !IsBlank(line) by {
      assert !IsSpace(line[0]);
    }
  }

  /** A line the history can safely hold: it has a first token, that token is
      not `exit`, and the line is not a recall line. */
  predicate Recordable(line: string) {
    Tokens(line) != [] && Tokens(line)[0] != "exit" && !IsRecallLine(line)
  }

  /** What the shell keeps true of its history between lines. */
  predicate WellFormed(h: History) {
    |h| <= Capacity && forall i :: 0 <= i < |h| ==> Recordable(h[i])
  }

  lemma RecentElements(log: seq<string>)
    ensures forall x :: x in Recent(log) ==> x in log
  {
  }

  /** Executing a non-recall command keeps the history well formed. */
  lemma ExecutePreservesWellFormed(h: History, cmd: string)
    requires WellFormed(h)
    requires !IsRecallLine(cmd)
    ensures WellFormed(ExecuteCommand(h, cmd).history)
  {
    ExecuteRecords(h, cmd);
    var log := h + Recordings(cmd);
    RecentElements(log);
    var r := Recent(log);
    forall i | 0 <= i < |r|
      ensures Recordable(r[i])
    {
      assert r[i] in log;
      if r[i] !in h {
        assert r[i] in Recordings(cmd);
      } else {
        var j :| 0 <= j < |h| && h[j] == r[i];
      }
    }
  }

  /** Handling any line keeps the history well formed. */
  lemma ProcessLinePreservesWellFormed(h: History, line: string)
    requires WellFormed(h)
    ensures WellFormed(ProcessLine(h, line).history)
  {
    if !IsBlank(line) {
      if IsRecallLine(line) {
        var cmd := GetCommandFromHistory(h, Selector(line));
        if cmd != "" {
          var j :| 0 <= j < |h| && h[j] == cmd;
          ExecutePreservesWellFormed(h, cmd);
        }
      } else {
        ExecutePreservesWellFormed(h, line);
      }
    }
  }

  /** A recall line is never recorded, whether it succeeds or fails. */
  lemma RecallLineNotRecorded(h: History, line: string)
    requires WellFormed(h)
    requires IsRecallLine(line)
    ensures line !in ProcessLine(h, line).history
  {
    ProcessLinePreservesWellFormed(h, line);
  }

  /** A session: the history at the end, the action of each line handled,
      and whether it ended with `exit`. */
  datatype Session = Session(history: History, actions: seq<Action>, exited: bool)

  /** The main loop over a finite input; it stops at the first `Exit`, and
      end of input ends it without one. */
  function Run(h: History, lines: seq<string>): (s: Session)
    ensures |s.actions| <= |lines|
    ensures s.exited <==> Exit in s.actions
    decreases |lines|
  {
    if lines == [] then Session(h, [], false)
    else
      var o := ProcessLine(h, lines[0]);
      if o.action == Exit then Session(o.history, [Exit], true)
      else
        var rest := Run(o.history, lines[1..]);
        Session(rest.history, [o.action] + rest.actions, rest.exited)
  }

  /** A line that does not exit hands the rest of the input to the loop. */
  lemma RunContinues(h: History, lines: seq<string>)
    requires lines != [] && ProcessLine(h, lines[0]).action != Exit
    ensures var s := Run(ProcessLine(h, lines[0]).history, lines[1..]);
            Run(h, lines).history == s.history && Run(h, lines).exited == s.exited
  {
  }

  lemma {:induction false} RunPreservesWellFormed(h: History, lines: seq<string>)
    requires WellFormed(h)
    ensures WellFormed(Run(h, lines).history)
    decreases |lines|
  {
    if lines != [] {
      ProcessLinePreservesWellFormed(h, lines[0]);
      RunPreservesWellFormed(ProcessLine(h, lines[0]).history, lines[1..]);
    }
  }

  /** Whatever is typed, starting from the empty history: at most ten
      entries, and none is blank, an `exit` or a recall line. */
  lemma SessionHistoryInvariant(lines: seq<string>)
    ensures var h := Run([], lines).history;
            && |h| <= Capacity
            && forall i :: 0 <= i < |h| ==>
                 Tokens(h[i]) != [] && Tokens(h[i])[0] != "exit" && !IsRecallLine(h[i])
  {
    RunPreservesWellFormed([], lines);
  }

  /** A non-blank line that is not a recall line goes straight to
      `execute_command`. */
  lemma OrdinaryLine(h: History, line: string)
    requires Tokens(line) != [] && !IsRecallLine(line)
    ensures ProcessLine(h, line) == ExecuteCommand(h, line)
  {
    TokensEmptyIffBlank(line);
  }

  /** A line that exits ends the session with the history it leaves. */
  lemma RunExits(h: History, lines: seq<string>)
    requires lines != [] && ProcessLine(h, lines[0]).action == Exit
    ensures Run(h, lines).exited && Run(h, lines).history == ProcessLine(h, lines[0]).history
  {
  }

  /** A line the history can hold is not empty. */
  lemma RecordableNotEmpty(line: string)
    requires Recordable(line)
    ensures line != ""
  {
    assert Tokens("") == [];
  }

  /** A five-line session: a command `cmd`, `hist`, `r` (which re-runs the
      most recent entry, the `hist` line), `r 2` (which re-runs entry 2, the
      second copy of `cmd`) and `exit`. Every run of `cmd` is recorded twice,
      so the history before `exit` holds six entries, not three. */
  lemma RecallSession(cmd: string, histLine: string, recallLast: string, recallSecond: string,
                       exitLine: string)
    requires Recordable(cmd) && Tokens(cmd)[0] != "hist" && Tokens(cmd)[0] != "cd"
    requires Recordable(histLine) && Tokens(histLine)[0] == "hist"
    requires recallLast == "r" && recallSecond == "r " + Decimal(2)
    requires Tokens(exitLine) != [] && Tokens(exitLine)[0] == "exit"
    ensures var s := Run([], [cmd, histLine, recallLast, recallSecond, exitLine]);
            && s.exited
            && s.history == [cmd, cmd, histLine, histLine, cmd, cmd]
  {
    RecordableNotEmpty(cmd);
    RecordableNotEmpty(histLine);
    StepRunsCommand(cmd);
    StepListsHistory(cmd, histLine);
    StepRecallsLatest(cmd, histLine, recallLast);
    StepRecallsSecond(cmd, histLine, recallSecond);
    StepExits([cmd, cmd, histLine, histLine, cmd, cmd], exitLine);
    RunFive([], [cmd, cmd], [cmd, cmd, histLine], [cmd, cmd, histLine, histLine],
            [cmd, cmd, histLine, histLine, cmd, cmd], cmd, histLine, recallLast, recallSecond, exitLine);
  }

  /** Five lines of which only the last exits, each leading from one
      history to the next. */
  lemma RunFive(h0: History, h1: History, h2: History, h3: History, h4: History,
                a: string, b: string, c: string, d: string, e: string)
    requires ProcessLine(h0, a).history == h1 && ProcessLine(h0, a).action != Exit
    requires ProcessLine(h1, b).history == h2 && ProcessLine(h1, b).action != Exit
    requires ProcessLine(h2, c).history == h3 && ProcessLine(h2, c).action != Exit
    requires ProcessLine(h3, d).history == h4 && ProcessLine(h3, d).action != Exit
    requires ProcessLine(h4, e) == Outcome(h4, Exit)
    ensures Run(h0, [a, b, c, d, e]).exited && Run(h0, [a, b, c, d, e]).history == h4
  {
    var l4 := [e];
    var l3 := [d] + l4;
    var l2 := [c] + l3;
    var l1 := [b] + l2;
    var l0 := [a] + l1;
    RunExits(h4, l4);
    RunContinues(h3, l3);
    RunContinues(h2, l2);
    RunContinues(h1, l1);
    RunContinues(h0, l0);
    FiveLines(a, b, c, d, e);
  }

  /** A five-line input as the loop consumes it, one line at a time. */
  lemma FiveLines<T>(a: T, b: T, c: T, d: T, e: T)
    ensures [a, b, c, d, e] == [a] + ([b] + ([c] + ([d] + [e])))
  {
  }

  /** The first line of `RecallSession`: an external command, recorded twice. */
  lemma StepRunsCommand(cmd: string)
    requires Recordable(cmd) && Tokens(cmd)[0] != "hist" && Tokens(cmd)[0] != "cd"
    ensures ProcessLine([], cmd) == Outcome([cmd, cmd], Spawn(Tokens(cmd)))
  {
    OrdinaryLine([], cmd);
    ExternalRecordedTwice([], cmd);
  }

  /** The second line: `hist`, recorded once. */
  lemma StepListsHistory(cmd: string, histLine: string)
    requires Recordable(histLine) && Tokens(histLine)[0] == "hist"
    ensures ProcessLine([cmd, cmd], histLine).history == [cmd, cmd, histLine]
    ensures ProcessLine([cmd, cmd], histLine).action != Exit
  {
    OrdinaryLine([cmd, cmd], histLine);
    BuiltinRecordedOnce([cmd, cmd], histLine);
  }

  /** The third line: `r` re-runs the `hist` line, which is recorded once more. */
  lemma StepRecallsLatest(cmd: string, histLine: string, recallLast: string)
    requires cmd != "" && histLine != "" && recallLast == "r"
    requires Tokens(histLine) != [] && Tokens(histLine)[0] == "hist"
    ensures ProcessLine([cmd, cmd, histLine], recallLast).history == [cmd, cmd, histLine, histLine]
    ensures ProcessLine([cmd, cmd, histLine], recallLast).action != Exit
  {
    var h := [cmd, cmd, histLine];
    RecallLatest(h);
    BuiltinRecordedOnce(h, histLine);
  }

  /** The fourth line: `r 2` re-runs the command, which is recorded twice more. */
  lemma StepRecallsSecond(cmd: string, histLine: string, recallSecond: string)
    requires cmd != "" && histLine != "" && recallSecond == "r " + Decimal(2)
    requires Recordable(cmd) && Tokens(cmd)[0] != "hist" && Tokens(cmd)[0] != "cd"
    ensures ProcessLine([cmd, cmd, histLine, histLine], recallSecond).history
         == [cmd, cmd, histLine, histLine, cmd, cmd]
    ensures ProcessLine([cmd, cmd, histLine, histLine], recallSecond).action != Exit
  {
    var h := [cmd, cmd, histLine, histLine];
    RecallNumbered(h, 2);
    ExternalRecordedTwice(h, cmd);
  }

  lemma StepExits(h: History, exitLine: string)
    requires Tokens(exitLine) != [] && Tokens(exitLine)[0] == "exit"
    ensures !IsRecallLine(exitLine)
    ensures ProcessLine(h, exitLine) == Outcome(h, Exit)
  {
    FirstTokenStart(exitLine);
    assert "exit"[0] == 'e';
    OrdinaryLine(h, exitLine);
  }
}
