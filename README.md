# Staged grading harness with an anti-cheat heuristic — a verified model

The harness grades a candidate `CustomerTransactionProcessor`. It loads a
customers table and a transactions table, cleans the transactions, merges
them with the customers and aggregates the spending by membership level. It
builds a report with one line per stage: a ✅ line when the stage's result
passes its structural checks, a ❌ line carrying the exception message when it
does not. A failed load ends the run after one line. Any later failure is
recorded and the run goes on. The last stage also asks a text heuristic,
`detect_hardcoded_return`, whether the aggregate operation's own source
returns the printed result as a literal. If it does, that stage fails.

The model takes the candidate as data: each operation is a function that
returns a value or raises a message. Its source text is optional, with
`None` when it cannot be retrieved. Tables are a column set plus rows of
optional cells.

- `Wrappers` (`wrappers.dfy`): the `Option` type.
- `Text` (`text.dfy`): the Python string operations the heuristic uses.
  These are `strip`, `lower`, one-character `replace` and the substring
  test `in`, over `seq<char>`.
- `Tables` (`tables.dfy`): the table model and the two counts the runner
  checks, missing cells and duplicate rows.
- `AntiCheat` (`anticheat.dfy`): the normalisations, the two checks of the
  heuristic (as the predicate `Hardcoded`), and the method with its search
  loop. Properties are stated about the predicate.
- `Runner` (`runner.dfy`): each try block as a function from what the
  candidate returned to report lines. It also has the whole report as the
  function `Report` and the imperative `TestStudentCode`. That method
  (with `LoadTables` and `RunStages` for its two halves) appends line
  after line, returns early on a failed load, keeps `merged` as a possibly
  unbound variable, and calls the heuristic's method. It is
  proved to produce `Report` and, as a ghost trace, the operations it
  invoked (`Invoked`).

Two features of `run_test.py` shape the model:

- Only the cleaning stage receives a copy of the raw transactions; merge
  receives the raw tables.
- The anti-cheat comparison is exact text matching, with its asymmetries.
  The quote swap is applied to the output only. The indirection check
  compares without the swap. `"return" + name` is a plain substring test.

## Model

| member | source | states |
|---|---|---|
| Text.Strip | run_test.py:10 | `strip()` yields no longer a text, made of characters of the input, that neither starts nor ends with whitespace |
| Text.StripKeepsVisible | run_test.py:10 | stripping loses no character that is not whitespace |
| Text.TrimStart | run_test.py:10 | the leading part removed is all whitespace and the rest is a suffix of the input not starting with whitespace |
| Text.TrimEnd | run_test.py:10 | the trailing part removed is all whitespace and the rest is a prefix of the input not ending with whitespace |
| Text.LowerChar | run_test.py:10 | an ASCII capital becomes its own lower-case letter (same position in the alphabet), every other character is unchanged, and the result is never a capital |
| Text.Lower | run_test.py:10-11 | `lower()` keeps the length and lower-cases position by position |
| Text.RemoveChar | run_test.py:10-11 | `replace(x, "")` leaves no `x` and never lengthens the text |
| Text.RemoveCharCounts | run_test.py:10-11 | deleting `x` keeps every other character exactly as often as it occurred |
| Text.RemoveCharAbsent | run_test.py:18 | deleting a character that does not occur changes nothing |
| Text.ReplaceChar | run_test.py:11 | `replace(a, b)` keeps the length, turns every `a` into `b` and keeps everything else |
| Text.ContainsIff | run_test.py:13 | the substring test holds exactly when the pattern starts at some position of the text |
| Text.ContainsSplit | run_test.py:13 | when `p + q` occurs, so do `p` and `q` |
| Text.StripAround | run_test.py:10 | stripping text around a piece with visible ends keeps that whole piece |
| Tables.NullCount | run_test.py:46 | the missing-cell count is zero exactly when no cell is missing |
| Tables.DuplicateCount | run_test.py:50 | the duplicate count is at most the number of rows and zero exactly when the rows are pairwise different |
| AntiCheat.Squeeze | run_test.py:10 | lower-casing and deleting spaces leaves no space and no capital, and adds no character other than a lower-case letter |
| AntiCheat.NormaliseSource | run_test.py:10 | the normalised source holds no space and no capital, and its other non-letter characters come from the source |
| AntiCheat.SpacelessLower | run_test.py:18 | the form compared by the indirection check holds no space and no capital |
| AntiCheat.SpacelessLowerFixes | run_test.py:18 | that form leaves text that already has no space and no capital unchanged |
| AntiCheat.NormaliseOutput | run_test.py:11 | the normalised output holds no space, no capital and no single quote |
| AntiCheat.QuoteSwapped | run_test.py:11 | a single quote in the printed output becomes a double quote in the normalised output |
| AntiCheat.DetectHardcodedReturn | run_test.py:8-22 | the method answers exactly the heuristic's verdict; it is false when the source text is unavailable and true whenever the direct check fires |
| AntiCheat.FindReturnedAssignment | run_test.py:16-20 | the loop finds a qualifying assignment exactly when one exists, with the printed form compared without the quote swap |
| AntiCheat.LiteralReturnFlagged | run_test.py:10-14 | a source whose text, ignoring case and spaces, holds `return` followed by the normalised output is flagged, whatever surrounds that text |
| AntiCheat.IndirectNeedsEmbeddedLiteral | run_test.py:16-19 | when the assignment search reports pieces of the source, the indirection check fires only if the printed form, without spaces and capitals, occurs in the source |
| AntiCheat.FlagNeedsEmbeddedLiteral | run_test.py:8-22 | under the same condition, a flagged source contains the normalised output, with or without the quote swap |
| AntiCheat.SingleQuotedOutputMissesDirect | run_test.py:10-13 | a printed output with a single quote never matches directly a source without a double quote |
| AntiCheat.ReturnNamePrefixQualifies | run_test.py:18 | `return` followed by any name that starts with the assigned variable's name qualifies |
| Runner.LoadStage | run_test.py:33-40 | loading succeeds exactly when both operations return data frames, and then yields those tables; otherwise the first raised message is reported, customers before transactions, and a failed type check reports an empty message |
| Runner.CleanLines | run_test.py:44-54 | one or two lines, the last being the Step 3 pass line or a cleaning failure; the Step 2 pass line appears exactly when the cleaned table has no missing cell, the Step 3 pass line exactly when also its rows are distinct; a raised exception, a non-frame (its `isnull` AttributeError), remaining nulls and remaining duplicates each give their own failure line with that message, the last one after the Step 2 pass line |
| Runner.MergeLine | run_test.py:56-65 | the Step 4 pass line appears exactly when merge returned a data frame with every merged column and a row; otherwise the merge failure line carries the raised message, the `columns` AttributeError of a non-frame, "Expected merged columns missing" or "Merged DataFrame is empty" |
| Runner.MergedBinding | run_test.py:57 | `merged` is bound exactly when merge returned, and then holds its value |
| Runner.CheckAggregate | run_test.py:67-72 | the aggregate passes exactly when it is a data frame with both output columns and a row, and the passing table is the returned one; a failure carries the raised message, the `columns` AttributeError of a non-frame, "Output columns missing" or "Empty result - possibly hardcoded" |
| Runner.AggregateLine | run_test.py:67-77 | the Step 5 pass line appears exactly when `merged` is bound, its aggregate passes the checks and the heuristic does not flag it; otherwise the failure line carries the unbound-`merged` message, the reason the checks give, or "Hardcoded return detected" for a flagged aggregate |
| Runner.AggregateStage | run_test.py:67-77 | the last try block prints `AggregateLine` and invokes the aggregate operation only when `merged` is bound |
| Runner.LoadTables | run_test.py:33-42 | the first try block yields `LoadStage`, invoking the transactions load exactly when the customers load returned, whatever it returned |
| Runner.StageLines | run_test.py:44-77 | the later stages add three or four lines, the merge line second to last |
| Runner.RunStages | run_test.py:44-77 | the clean, merge and aggregate blocks print `StageLines` and invoke clean and merge, then the aggregate exactly when merge returned |
| Runner.Report | run_test.py:31-77 | the report is one line exactly when loading failed, that line being the Step 1 failure with the load message; otherwise four or five lines opening with the Step 1 pass line |
| Runner.Invoked | run_test.py:33-68 | each operation is invoked at most once, in declaration order: a raising customers load stops everything, the transactions load follows whenever customers returned (even a non-frame), a failed load invokes nothing else, a successful one invokes clean and merge, and the aggregate comes last exactly when merge returned |
| Runner.TestStudentCode | run_test.py:31-79 | the method prints `Report` and invokes the operations `Invoked` lists |
| Runner.InReport | run_test.py:31-77 | a later stage's pass line is in the report exactly when the load succeeded and that stage printed it |
| Runner.ReportShape | run_test.py:38-77 | after a successful load the lines are Step 1 pass, the cleaning lines in their allowed forms, one Step 4 line and one Step 5 line |
| Runner.NullLineIff | run_test.py:44-48 | Step 2 passes exactly when the load succeeded and the cleaned table has no missing cell |
| Runner.DuplicateLineIff | run_test.py:44-52 | Step 3 passes exactly when, in addition, the cleaned rows are pairwise different |
| Runner.MergeLineIff | run_test.py:56-63 | Step 4 passes exactly when merge, given the raw tables, returned a frame with all merged columns and a row |
| Runner.AggregateLineIff | run_test.py:56-75 | Step 5 passes exactly when merge returned, the aggregate of its value passed the checks and the heuristic did not flag it |
| Runner.RunTwice | run_test.py:31-79 | two runs on the same candidate and inputs print the same report; this follows from modelling the candidate's operations as stateless functions (see Left out) |

## Left out

- Loading the candidate module with `importlib` and instantiating it (run_test.py:25-29). This is reflection, and its failures are not caught. The model starts from the candidate's operations.
- `inspect.getsource`: the model takes its result as an input. A failure to retrieve the source is `None`, which the heuristic's catch-all turns into "not hard-coded".
- `repr` of a data frame is an uninterpreted `Host.repr` and is taken never to raise.
- The `re.findall` assignment search (run_test.py:16) is an uninterpreted `Host.findAssignments` of the normalised source. Its regular-expression semantics are not modelled. `AntiCheat.IndirectNeedsEmbeddedLiteral` and `AntiCheat.FlagNeedsEmbeddedLiteral` assume only that it reports pieces of the source.
- pandas itself becomes an abstract table: column labels as a set and rows of optional cells. `isnull`, `duplicated`, `shape` and `.columns` become `NullCount`, `DuplicateCount`, the row count and the column set.
- Any object that is not a data frame is `Value.Other` with its type name. Asking it for a frame attribute raises CPython's `AttributeError` message. Duck-typed objects that do have such attributes are not modelled.
- Reading an unbound `merged` gives the `UnboundLocalError` message of CPython 3.11 and later. Older interpreters word it differently.
- `Text.Lower` folds ASCII letters only. Python's full Unicode case mapping is not modelled.
- A candidate operation cannot change its argument in place: tables are values. So the `.copy()` for cleaning (run_test.py:45) holds by construction, and the aliasing it guards against is not modelled.
- Exceptions that are not `Exception` subclasses escape the source's `except Exception` handlers. The model treats every raise as caught.
- Printing the report and the `__main__` path assembly (run_test.py:41, 79, 81-87) are left out. `TestStudentCode` returns the report lines instead.
- The code has no per-stage timeout, no exit status and no canonical serialisation; none is modelled.
- Assertions are taken to be enabled (no `python -O`), so the `assert isinstance(...)` checks of run_test.py:36-37 run, and the candidate is taken to have all five operations. Without the asserts a non-frame load would pass Step 1. With `calculate_total_by_membership` missing and merge raised, Python would report the missing attribute at run_test.py:68 rather than the unbound `merged`.
- Candidate operations are modelled as deterministic, stateless functions of their arguments. A real `CustomerTransactionProcessor` can keep state on `self` between calls, read the clock, use randomness or read files that change between runs, and state kept on `self` can alias `transactions_df` behind the `.copy()` (run_test.py:45). None of this is captured. `Runner.RunTwice` holds only because of this assumption and is not a property of the harness itself.
- Text.Strip: its ensures do not say that only whitespace is lost. `Text.StripKeepsVisible` states that separately.
- Text.RemoveChar: its ensures do not say that every other character is kept. `Text.RemoveCharCounts` and `Text.RemoveCharAbsent` state that separately.
- AntiCheat.NormaliseOutput: its ensures do not say that quotes become double quotes. `AntiCheat.QuoteSwapped` states that separately.
