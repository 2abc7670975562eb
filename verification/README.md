# A model of the command history and dispatcher of a small Unix shell

`CSC360-Project1-Shell-Provide.cpp` is an interactive shell. Its main loop does four things. It reads a line and skips blank ones. It treats `r` and `r <n>` as recall commands that re-run an entry of the history. It passes every other line to `execute_command`. That function handles the built-ins `exit`, `hist` and `cd`, records commands in a ten-entry history, and forks and execs anything else.

This project models that logic as pure functions. The global `history` vector becomes an explicit `seq<string>` value. Each step maps a history and an input line to the next history and an `Action` that says what the shell does next:

- do nothing;
- exit;
- print the history listing;
- change directory, to an argument or home;
- spawn a program with an argument vector;
- report a failed recall.

Modules:

- `Text`: C whitespace (`isspace` in the "C" locale), digits, spans of whitespace, word and digit characters, decimal numerals, and generic sequence lemmas.
- `Tokenizer`: `parse_args`, the `stringstream >> token` split. Proved:
  - the tokens are exactly the maximal non-whitespace runs;
  - whitespace separates (`TokensSplit`);
  - joining the tokens with spaces and re-splitting gives them back (`TokensOfJoin`);
  - no character other than whitespace is lost (`TokensKeepContent`).
- `Numbers`: `std::stoi` in base 10. It skips leading whitespace, reads an optional sign and at least one digit, and ignores trailing text. Having no digit is `invalid_argument`. A value outside the 32-bit `int` range is `out_of_range`.
- `HistoryStore`: `add_to_history`, `print_history` (as a list of numbered rows and their printed form) and `get_command_from_history`.
- `Shell`:
  - `execute_command`;
  - the main loop's blank-line filter and recall check for one line;
  - a run of the loop over a finite list of input lines;
  - the history invariant the loop keeps.

## Behaviour the code has that its comments do not suggest

- Commands other than `exit`, `hist` and `cd` are recorded twice. `execute_command` calls `add_to_history` once before it dispatches, at line 115. It calls it again before spawning, at line 138, and the `args[0] != "hist"` guard there always holds. So `ls` once leaves `ls, ls` in the history (`Shell.ExternalRecordedTwice`, `Shell.RecallSession`). The model reproduces this.
- The recall check at line 55 needs a literal space after `r`. `r\t1` is not a recall line: it is executed as the command `r\t1`.
- The selector is `line.substr(2)`. `r` alone and `r ` (two characters) select the most recent entry. `r  ` (three characters) selects `" "`, which `stoi` rejects, so the recall fails (`Shell.RecallWithBlankSelectorFails`).
- `stoi` ignores trailing text, so `r 3x` recalls entry 3. It accepts leading whitespace and a sign, so `r  +2` recalls entry 2.
- A recalled command goes to `execute_command` directly. It is never checked again as a recall line, and the recall line itself is never recorded.
- `hist` is recorded before it lists. The listing therefore ends with the `hist` line itself.

## Model

| member | source | states |
|---|---|---|
| HistoryStore.AddToHistory | CSC360-Project1-Shell-Provide.cpp:180-185 | the history never exceeds 10 entries; the new command is always last; below capacity it is a plain append; at capacity the oldest entry is dropped and the others move down by one |
| HistoryStore.AddKeepsRecent | CSC360-Project1-Shell-Provide.cpp:179-185 | adding to the last-10 window of a log gives the last-10 window of the extended log |
| HistoryStore.RecordAllKeepsRecent | CSC360-Project1-Shell-Provide.cpp:179-185 | after any sequence of additions, the history is the last 10 commands recorded |
| HistoryStore.RecentOfTwoMore | CSC360-Project1-Shell-Provide.cpp:180-185 | two additions to a history with n entries push out max(0, n - 8) of the oldest entries |
| HistoryStore.ListFrom | CSC360-Project1-Shell-Provide.cpp:188-193 | the listing has one row per entry, in order; row k shows number start+k beside entry k |
| HistoryStore.RenderedRowNumber | CSC360-Project1-Shell-Provide.cpp:191 | the printed row "  n: cmd", read back by `stoi`, yields n |
| HistoryStore.GetCommandFromHistory | CSC360-Project1-Shell-Provide.cpp:196-219 | empty history gives ""; an empty selector gives the last entry; a parsed selector n in 1..size gives entry n; anything else (no digits, out of int range, out of bounds) gives ""; a non-empty result is always an entry |
| HistoryStore.ListedNumberRecalls | CSC360-Project1-Shell-Provide.cpp:188-208 | every number the listing shows, used as a selector, recalls the entry shown beside it |
| HistoryStore.RecallIgnoresTrailingText | CSC360-Project1-Shell-Provide.cpp:206-208 | a numeral followed by a non-digit still selects by the numeral |
| HistoryStore.RecallZeroOrNegativeFails | CSC360-Project1-Shell-Provide.cpp:207 | selectors 0 and -n select nothing |
| HistoryStore.RecallFoundIff | CSC360-Project1-Shell-Provide.cpp:196-219 | with no empty entries, the result is non-empty exactly when the history is non-empty and the selector is empty or a number in range |
| Numbers.Stoi | CSC360-Project1-Shell-Provide.cpp:206 | every parsed value lies in the 32-bit int range |
| Numbers.StoiAccepts | CSC360-Project1-Shell-Provide.cpp:206 | blanks, optional sign, digits and any text not starting with a digit convert to the signed value of the digits, or out_of_range when it does not fit |
| Numbers.StoiRejects | CSC360-Project1-Shell-Provide.cpp:206-212 | blanks and an optional sign followed by no digit are invalid_argument |
| Numbers.StoiOfDecimal | CSC360-Project1-Shell-Provide.cpp:206 | the numeral of any n up to INT_MAX converts back to n |
| Numbers.StoiIgnoresTrailingText | CSC360-Project1-Shell-Provide.cpp:206 | a numeral followed by a non-digit converts to the numeral's value |
| Numbers.StoiOfNegative | CSC360-Project1-Shell-Provide.cpp:206 | "-" followed by the numeral of n is -n when n is at most 2^31, otherwise out_of_range |
| Numbers.StoiOverflow | CSC360-Project1-Shell-Provide.cpp:206-215 | numerals above INT_MAX are out_of_range |
| Numbers.StoiExampleTrailing | CSC360-Project1-Shell-Provide.cpp:206 | "3x" converts to 3 |
| Numbers.StoiExampleBlanksAndSign | CSC360-Project1-Shell-Provide.cpp:206 | " \t+4" converts to 4 |
| Numbers.StoiRejectsExamples | CSC360-Project1-Shell-Provide.cpp:206-212 | "", "x3", "- 3" and " " are invalid_argument |
| Tokenizer.Tokens | CSC360-Project1-Shell-Provide.cpp:85-92 | every token is a non-empty run of non-whitespace characters |
| Tokenizer.TokensEmptyIffBlank | CSC360-Project1-Shell-Provide.cpp:50 | a line has no tokens exactly when the blank-line filter would skip it |
| Tokenizer.TokensSplit | CSC360-Project1-Shell-Provide.cpp:85-92 | the tokens of a + whitespace + b are the tokens of a followed by the tokens of b |
| Tokenizer.TokensOfWord | CSC360-Project1-Shell-Provide.cpp:85-92 | a single word splits into itself |
| Tokenizer.TokensOfJoin | CSC360-Project1-Shell-Provide.cpp:85-92 | joining words with single spaces and splitting again gives the words back |
| Tokenizer.TokensOfCollapsed | CSC360-Project1-Shell-Provide.cpp:85-92 | replacing any whitespace run between two texts by a single space does not change the tokens |
| Tokenizer.TokensOfTrimmed | CSC360-Project1-Shell-Provide.cpp:85-92 | leading and trailing whitespace does not change the tokens |
| Tokenizer.TokensKeepContent | CSC360-Project1-Shell-Provide.cpp:85-92 | the tokens laid end to end are exactly the non-whitespace characters of the line, in order |
| Tokenizer.FirstTokenStart | CSC360-Project1-Shell-Provide.cpp:55-67 | a line whose first character is not whitespace begins with its first token: the token is a prefix of the line |
| Shell.ExecuteCommand | CSC360-Project1-Shell-Provide.cpp:95-139 | no tokens means no action and an unchanged history; the first token `exit` means Exit with an unchanged history; `hist` lists the history it leaves; a spawned argv is the line's tokens; never a failed recall |
| Shell.ExecuteRecords | CSC360-Project1-Shell-Provide.cpp:95-139 | executing leaves the last 10 of: the old entries followed by nothing (blank, `exit`), one copy (`hist`, `cd`) or two copies (anything else) of the command |
| Shell.BuiltinRecordedOnce | CSC360-Project1-Shell-Provide.cpp:113-132 | `hist` and `cd` are appended exactly once: the new history is the last 10 of: the old entries followed by the command; below capacity a plain append, at capacity the oldest entry goes |
| Shell.ExternalRecordedTwice | CSC360-Project1-Shell-Provide.cpp:115-143 | any other command is appended twice: the new history is the last 10 of: the old entries followed by two copies; with two free places both are appended, with one the oldest entry goes, on a full history the two oldest go; the action is a spawn of its tokens |
| Shell.HistListsItself | CSC360-Project1-Shell-Provide.cpp:115-118 | the `hist` listing ends with the `hist` line, numbered with the new history size |
| Shell.CdTarget | CSC360-Project1-Shell-Provide.cpp:122-131 | `cd` targets its first argument, or home when it has none |
| Shell.ProcessLine | CSC360-Project1-Shell-Provide.cpp:49-68 | a blank line does nothing; a failed recall leaves the history unchanged and only comes from a recall line |
| Shell.RecallRunsEntry | CSC360-Project1-Shell-Provide.cpp:55-64 | a recall line runs exactly the selected entry through execute_command, or fails without change when none is selected |
| Shell.RecallLatest | CSC360-Project1-Shell-Provide.cpp:55-61 | `r` re-executes the most recent entry |
| Shell.RecallLineOf | CSC360-Project1-Shell-Provide.cpp:55-56 | "r " followed by any text is a recall line whose selector is that text |
| Shell.RecallNumbered | CSC360-Project1-Shell-Provide.cpp:55-61 | `r n` re-executes entry n |
| Shell.RecallWithBlankSelectorFails | CSC360-Project1-Shell-Provide.cpp:55-63 | `r` followed by two spaces fails and changes nothing |
| Shell.ExecutePreservesWellFormed | CSC360-Project1-Shell-Provide.cpp:95-139 | executing a non-recall line keeps the history within 10 entries, none blank, `exit` or a recall line |
| Shell.ProcessLinePreservesWellFormed | CSC360-Project1-Shell-Provide.cpp:49-68 | handling any line keeps that history invariant |
| Shell.RecallLineNotRecorded | CSC360-Project1-Shell-Provide.cpp:55-64 | a recall line never appears in the history after it is handled |
| Shell.StepExits | CSC360-Project1-Shell-Provide.cpp:105-111 | a line whose first token is `exit` is not a recall line and exits with the history unchanged |
| Shell.Run | CSC360-Project1-Shell-Provide.cpp:35-69 | the loop produces at most one action per line and has exited exactly when an Exit action occurred |
| Shell.RunPreservesWellFormed | CSC360-Project1-Shell-Provide.cpp:35-69 | over any input, the history invariant holds at the end |
| Shell.SessionHistoryInvariant | CSC360-Project1-Shell-Provide.cpp:35-69 | from the empty history, whatever is typed, the history holds at most 10 entries, each with a first token that is not `exit` and none a recall line |
| Shell.RecallSession | CSC360-Project1-Shell-Provide.cpp:35-69 | the session cmd, hist, r, r 2, exit ends with the history cmd, cmd, hist, hist, cmd, cmd |

## Left out

- Process creation: `fork`, `execvp`, `waitpid` and the child's error report and exit status (lines 143-175). A spawn is the `Spawn(argv)` action. Whether the program exists and what it returns lie outside the model.
- Changing directory: `chdir`, `getenv("HOME")` and the `cd failed` message (lines 122-131). `cd` is the `ChangeDir` action with its target.
- The SIGINT handler and its counter (lines 20, 32, 76-81), and the counter printed on exit (lines 72, 109). Signals are asynchronous and do not touch the history.
- Terminal I/O: the prompt with `getcwd` and the history size (lines 37-39), `getline` (line 42), the `Executing:` and error messages, and the `endl` that ends each listing line. The listing is modelled as rows of number and command. `HistoryStore.RenderRow` gives the printed text of a row without its trailing newline.
- End of input (lines 43-46) ends `Shell.Run` without an Exit action. `exit(0)` (line 110) is the Exit action, after which `Shell.Run` handles no further lines.
- `Shell.Run` models a finite input. The real loop runs until `exit` or end of input.
- `Tokenizer.Tokens`: the model works on `char` sequences. Characters outside the "C" locale's whitespace set are never whitespace, as in that locale.
- `Numbers.Stoi`: `long` is taken to be 64 bits. A value that overflows `long` is out of `int` range too, so both report out_of_range.
