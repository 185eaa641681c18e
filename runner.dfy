/** The staged runner `test_student_code`: load, clean, merge and aggregate
    through the candidate's operations, checking each result and building
    the report line by line. Load failure stops the run; every later stage
    failure is recorded and the run goes on. */
module Runner {
  import opened Wrappers
  import opened Text
  import opened Tables
  import opened AntiCheat

  /** What a candidate operation hands back: a data frame, or another
      Python object, known by its type name. */
  datatype Value = Frame(table: Table) | Other(typeName: string)

  /** A call of a candidate operation returns a value or raises an
      exception; `message` is `str(e)`. */
  datatype Outcome = Returned(value: Value) | Raised(message: string)

  /** The operations of the candidate object, as the runner invokes them. */
  datatype Capability =
    | LoadCustomers
    | LoadTransactions
    | CleanTransactionData
    | MergeData
    | CalculateTotalByMembership

  /** The loaded `CustomerTransactionProcessor`: its five operations, and the
      source text of the aggregate operation (`None` when it cannot be
      retrieved). */
  datatype Candidate = Candidate(
    loadCustomers: string -> Outcome,
    loadTransactions: string -> Outcome,
    cleanTransactionData: Table -> Outcome,
    mergeData: (Table, Table) -> Outcome,
    calculateTotalByMembership: Value -> Outcome,
    aggregateSource: Option<string>)

  /** What the interpreter provides on a produced table: its `repr`, and the
      assignment search of the anti-cheat heuristic. */
  datatype Host = Host(repr: Table -> string, findAssignments: string -> seq<Assignment>)

  /** The marks that open a passing and a failing report line. */
  const PassMark := "✅"
  const FailMark := "❌"

  const Step1Passed := PassMark + " Step 1:" + " Data loaded successfully"
  const Step1Failed := FailMark + " Step 1:" + " Data loading failed: "
  const Step2Passed := PassMark + " Step 2:" + " Null handling passed"
  const Step3Passed := PassMark + " Step 3:" + " Duplicate removal passed"
  const CleanFailed := FailMark + " Step 2/3:" + " Cleaning failed: "
  const Step4Passed := PassMark + " Step 4:" + " Merge operation successful"
  const MergeFailed := FailMark + " Step 4:" + " Merge failed: "
  const Step5Passed := PassMark + " Step 5:" + " Aggregation by MembershipLevel passed with anti-cheat"
  const AggregateFailed := FailMark + " Step 5:" + " Aggregation failed: "

  /** The message of the `AttributeError` raised when an object that is not
      a data frame is asked for `attribute`. */
  function AttributeError(typeName: string, attribute: string): string {
    "'" + typeName + "' object has no attribute '" + attribute + "'"
  }

  /** The message of the `UnboundLocalError` raised when `merged` is read
      after `merge_data` raised. */
  const UnboundMerged := "cannot access local variable 'merged' where it is not associated with a value"

  /** A report line that records a failure. */
  predicate IsFailure(line: string) {
    |line| > 0 && line[0] == FailMark[0]
  }

  lemma FailurePrefix(prefix: string, e: string)
    requires IsFailure(prefix)
    ensures IsFailure(prefix + e) && StartsWith(prefix + e, prefix)
  {
  }

  /** What the first try block yields: both raw tables, or the message of
      the first exception. */
  datatype Loaded = Loaded(customers: Table, transactions: Table) | LoadFailed(message: string)

  /** The first try block: customers are loaded before transactions, then
      both results are checked to be data frames; a failed
      `assert isinstance(...)` carries an empty message. */
  function LoadStage(c: Candidate, customersPath: string, transactionsPath: string): (r: Loaded)
    ensures r.Loaded? <==>
      && c.loadCustomers(customersPath).Returned? && c.loadCustomers(customersPath).value.Frame?
      && c.loadTransactions(transactionsPath).Returned? && c.loadTransactions(transactionsPath).value.Frame?
    ensures r.Loaded? ==>
      && r.customers == c.loadCustomers(customersPath).value.table
      && r.transactions == c.loadTransactions(transactionsPath).value.table
    ensures c.loadCustomers(customersPath).Raised? ==> r == LoadFailed(c.loadCustomers(customersPath).message)
    ensures c.loadCustomers(customersPath).Returned? && c.loadTransactions(transactionsPath).Raised? ==>
      r == LoadFailed(c.loadTransactions(transactionsPath).message)
    ensures c.loadCustomers(customersPath).Returned? && c.loadTransactions(transactionsPath).Returned? && r.LoadFailed? ==>
      r.message == ""
  {
    match c.loadCustomers(customersPath)
    case Raised(e) => LoadFailed(e)
    case Returned(customers) =>
      match c.loadTransactions(transactionsPath)
      case Raised(e) => LoadFailed(e)
      case Returned(transactions) =>
        if customers.Frame? && transactions.Frame? then Loaded(customers.table, transactions.table)
        else LoadFailed("")
  }

  /** The cleaned table is a data frame without a missing cell. */
  predicate CleanedWithoutNulls(cleaned: Outcome) {
    cleaned.Returned? && cleaned.value.Frame? && NoMissingCells(cleaned.value.table.rows)
  }

  /** The lines of the second try block, for what `clean_transaction_data`
      returned on its copy of the raw transactions: the Step 2 line is
      emitted once the null check passes, even if the duplicate check then
      fails. */
  function CleanLines(cleaned: Outcome): (lines: seq<string>)
    ensures 1 <= |lines| <= 2
    ensures lines[0] == Step2Passed || IsFailure(lines[0])
    ensures |lines| == 2 ==> lines[0] == Step2Passed && (lines[1] == Step3Passed || IsFailure(lines[1]))
    ensures lines[|lines| - 1] == Step3Passed || IsFailure(lines[|lines| - 1])
    ensures Step2Passed in lines <==> CleanedWithoutNulls(cleaned)
    ensures Step3Passed in lines <==> CleanedWithoutNulls(cleaned) && DistinctRows(cleaned.value.table.rows)
    ensures forall k :: 0 <= k < |lines| && IsFailure(lines[k]) ==> StartsWith(lines[k], CleanFailed)
    // The message each failure carries.
    ensures cleaned.Raised? ==> lines == [CleanFailed + cleaned.message]
    ensures cleaned.Returned? && cleaned.value.Other? ==>
      lines == [CleanFailed + AttributeError(cleaned.value.typeName, "isnull")]
    ensures cleaned.Returned? && cleaned.value.Frame? && !CleanedWithoutNulls(cleaned) ==>
      lines == [CleanFailed + "Nulls remain after cleaning"]
    ensures CleanedWithoutNulls(cleaned) && !DistinctRows(cleaned.value.table.rows) ==>
      lines == [Step2Passed, CleanFailed + "Duplicates still present after cleaning"]
  {
    FailurePrefix(CleanFailed, "Nulls remain after cleaning");
    FailurePrefix(CleanFailed, "Duplicates still present after cleaning");
    match cleaned
    case Raised(e) =>
      FailurePrefix(CleanFailed, e);
      [CleanFailed + e]
    case Returned(Other(typeName)) =>
      FailurePrefix(CleanFailed, AttributeError(typeName, "isnull"));
      [CleanFailed + AttributeError(typeName, "isnull")]
    case Returned(Frame(t)) =>
      if NullCount(t.rows) > 0 then [CleanFailed + "Nulls remain after cleaning"]
      else if DuplicateCount(t.rows) > 0 then [Step2Passed, CleanFailed + "Duplicates still present after cleaning"]
      else [Step2Passed, Step3Passed]
  }

  /** The merged table is a data frame with every merged column and a row. */
  predicate MergedWell(merged: Outcome) {
    merged.Returned? && merged.value.Frame? &&
    HasColumns(merged.value.table, MergedColumns) && IsNonEmpty(merged.value.table)
  }

  /** The line of the third try block, for what `merge_data` returned. */
  function MergeLine(merged: Outcome): (line: string)
    ensures line == Step4Passed <==> MergedWell(merged)
    ensures line != Step4Passed ==> IsFailure(line) && StartsWith(line, MergeFailed)
    // The message each failure carries.
    ensures merged.Raised? ==> line == MergeFailed + merged.message
    ensures merged.Returned? && merged.value.Other? ==>
      line == MergeFailed + AttributeError(merged.value.typeName, "columns")
    ensures merged.Returned? && merged.value.Frame? && !HasColumns(merged.value.table, MergedColumns) ==>
      line == MergeFailed + "Expected merged columns missing"
    ensures merged.Returned? && merged.value.Frame? && HasColumns(merged.value.table, MergedColumns)
            && !IsNonEmpty(merged.value.table) ==>
      line == MergeFailed + "Merged DataFrame is empty"
  {
    match merged
    case Raised(e) =>
      FailurePrefix(MergeFailed, e);
      MergeFailed + e
    case Returned(Other(typeName)) =>
      FailurePrefix(MergeFailed, AttributeError(typeName, "columns"));
      MergeFailed + AttributeError(typeName, "columns")
    case Returned(Frame(t)) =>
      FailurePrefix(MergeFailed, "Expected merged columns missing");
      FailurePrefix(MergeFailed, "Merged DataFrame is empty");
      if !(MergedColumns <= t.columns) then MergeFailed + "Expected merged columns missing"
      else if |t.rows| < 1 then MergeFailed + "Merged DataFrame is empty"
      else Step4Passed
  }

  /** The value `merged` holds after the third try block: unbound when
      `merge_data` raised. */
  function MergedBinding(merged: Outcome): (r: Option<Value>)
    ensures r.Some? <==> merged.Returned?
    ensures r.Some? ==> r.value == merged.value
  {
    if merged.Returned? then Some(merged.value) else None
  }

  /** The verdict of the structural checks on the aggregate. */
  datatype Checked = Passed(table: Table) | Failed(message: string)

  /** The first two checks of the last try block: a data frame with both
      output columns and at least one row. */
  function CheckAggregate(total: Outcome): (r: Checked)
    ensures r.Passed? <==>
      total.Returned? && total.value.Frame? &&
      HasColumns(total.value.table, AggregateColumns) && IsNonEmpty(total.value.table)
    ensures r.Passed? ==> total == Returned(Frame(r.table))
    // The reason each failure carries.
    ensures total.Raised? ==> r == Failed(total.message)
    ensures total.Returned? && total.value.Other? ==> r == Failed(AttributeError(total.value.typeName, "columns"))
    ensures total.Returned? && total.value.Frame? && !HasColumns(total.value.table, AggregateColumns) ==>
      r == Failed("Output columns missing")
    ensures total.Returned? && total.value.Frame? && HasColumns(total.value.table, AggregateColumns)
            && !IsNonEmpty(total.value.table) ==>
      r == Failed("Empty result - possibly hardcoded")
  {
    match total
    case Raised(e) => Failed(e)
    case Returned(Other(typeName)) => Failed(AttributeError(typeName, "columns"))
    case Returned(Frame(t)) =>
      if "MembershipLevel" !in t.columns || "TotalSpent" !in t.columns then Failed("Output columns missing")
      else if |t.rows| == 0 then Failed("Empty result - possibly hardcoded")
      else Passed(t)
  }

  /** The aggregate passes: the structural checks hold of the table it
      returned, and the heuristic does not find it hard-coded. */
  predicate AggregatedWell(c: Candidate, h: Host, merged: Value) {
    var checked := CheckAggregate(c.calculateTotalByMembership(merged));
    checked.Passed? && !Hardcoded(c.aggregateSource, h.repr(checked.table), h.findAssignments)
  }

  /** The line of the last try block, for the value `merged` holds. */
  function AggregateLine(c: Candidate, h: Host, merged: Option<Value>): (line: string)
    ensures line == Step5Passed <==> merged.Some? && AggregatedWell(c, h, merged.value)
    ensures line != Step5Passed ==> IsFailure(line) && StartsWith(line, AggregateFailed)
    // The message each failure carries.
    ensures merged.None? ==> line == AggregateFailed + UnboundMerged
    ensures merged.Some? && CheckAggregate(c.calculateTotalByMembership(merged.value)).Failed? ==>
      line == AggregateFailed + CheckAggregate(c.calculateTotalByMembership(merged.value)).message
    ensures merged.Some? && CheckAggregate(c.calculateTotalByMembership(merged.value)).Passed? &&
            Hardcoded(c.aggregateSource, h.repr(CheckAggregate(c.calculateTotalByMembership(merged.value)).table), h.findAssignments) ==>
      line == AggregateFailed + "Hardcoded return detected"
  {
    match merged
    case None =>
      FailurePrefix(AggregateFailed, UnboundMerged);
      AggregateFailed + UnboundMerged
    case Some(v) =>
      match CheckAggregate(c.calculateTotalByMembership(v))
      case Failed(e) =>
        FailurePrefix(AggregateFailed, e);
        AggregateFailed + e
      case Passed(t) =>
        FailurePrefix(AggregateFailed, "Hardcoded return detected");
        if Hardcoded(c.aggregateSource, h.repr(t), h.findAssignments) then AggregateFailed + "Hardcoded return detected"
        else Step5Passed
  }

  /** The last try block, run on the value `merged` holds: the aggregate
      operation is invoked only when `merged` is bound, and the heuristic
      only on an aggregate that passed the structural checks. */
  method AggregateStage(c: Candidate, h: Host, merged: Option<Value>)
    returns (line: string, ghost invoked: seq<Capability>)
    ensures line == AggregateLine(c, h, merged)
    ensures invoked == if merged.Some? then [CalculateTotalByMembership] else []
  {
    invoked := [];
    if merged.None? {
      return AggregateFailed + UnboundMerged, invoked;
    }
    invoked := [CalculateTotalByMembership];
    var total := c.calculateTotalByMembership(merged.value);
    match CheckAggregate(total) {
      case Failed(e) =>
        line := AggregateFailed + e;
      case Passed(t) =>
        var flagged := DetectHardcodedReturn(c.aggregateSource, h.repr(t), h.findAssignments);
        if flagged {
          line := AggregateFailed + "Hardcoded return detected";
        } else {
          line := Step5Passed;
        }
    }
  }

  /** The lines the clean, merge and aggregate stages add after a successful
      load: clean works on the raw transactions, merge on both raw tables,
      and the aggregate on whatever merge bound. */
  function StageLines(c: Candidate, h: Host, customers: Table, transactions: Table): (lines: seq<string>)
    ensures 3 <= |lines| <= 4
    ensures lines[|lines| - 2] == MergeLine(c.mergeData(transactions, customers))
  {
    var merged := c.mergeData(transactions, customers);
    CleanLines(c.cleanTransactionData(transactions)) + [MergeLine(merged), AggregateLine(c, h, MergedBinding(merged))]
  }

  /** The report of a run: the Step 1 line, and after a successful load the
      lines of the clean, merge and aggregate stages, in that order. Merge
      is given the raw tables, and the aggregate the merged value. */
  function Report(c: Candidate, h: Host, customersPath: string, transactionsPath: string): (r: seq<string>)
    ensures |r| == 1 <==> LoadStage(c, customersPath, transactionsPath).LoadFailed?
    ensures |r| == 1 ==> IsFailure(r[0]) && r[0] == Step1Failed + LoadStage(c, customersPath, transactionsPath).message
    ensures |r| != 1 ==> 4 <= |r| <= 5 && r[0] == Step1Passed
  {
    match LoadStage(c, customersPath, transactionsPath)
    case LoadFailed(e) =>
      FailurePrefix(Step1Failed, e);
      [Step1Failed + e]
    case Loaded(customers, transactions) =>
      [Step1Passed] + StageLines(c, h, customers, transactions)
  }

  /** The candidate operations a run invokes, in order: a load failure
      stops the run, and the aggregate is not invoked once merge raised. */
  ghost function Invoked(c: Candidate, customersPath: string, transactionsPath: string): (r: seq<Capability>)
    ensures |r| >= 1 && r[0] == LoadCustomers
    ensures |r| <= 5
    ensures forall i, j :: 0 <= i < j < |r| ==> r[i] != r[j]
    ensures c.loadCustomers(customersPath).Raised? ==> r == [LoadCustomers]
    ensures c.loadCustomers(customersPath).Returned? ==> |r| >= 2 && r[1] == LoadTransactions
    ensures LoadStage(c, customersPath, transactionsPath).LoadFailed? ==>
      CleanTransactionData !in r && MergeData !in r && CalculateTotalByMembership !in r
    ensures LoadStage(c, customersPath, transactionsPath).Loaded? ==>
      |r| >= 4 && r[..4] == [LoadCustomers, LoadTransactions, CleanTransactionData, MergeData]
      && (|r| == 4 || r[4] == CalculateTotalByMembership)
    ensures LoadStage(c, customersPath, transactionsPath).LoadFailed? ==> |r| <= 2
    ensures CalculateTotalByMembership in r <==>
      var loaded := LoadStage(c, customersPath, transactionsPath);
      loaded.Loaded? && c.mergeData(loaded.transactions, loaded.customers).Returned?
  {
    match LoadStage(c, customersPath, transactionsPath)
    case LoadFailed(_) =>
      if c.loadCustomers(customersPath).Raised? then [LoadCustomers] else [LoadCustomers, LoadTransactions]
    case Loaded(customers, transactions) =>
      [LoadCustomers, LoadTransactions, CleanTransactionData, MergeData]
        + if c.mergeData(transactions, customers).Returned? then [CalculateTotalByMembership] else []
  }

  /** The first try block, run: customers are loaded, then transactions,
      and only then are both checked to be data frames. */
  method LoadTables(c: Candidate, customersPath: string, transactionsPath: string)
    returns (loaded: Loaded, ghost invoked: seq<Capability>)
    ensures loaded == LoadStage(c, customersPath, transactionsPath)
    ensures invoked == if c.loadCustomers(customersPath).Raised? then [LoadCustomers]
                       else [LoadCustomers, LoadTransactions]
  {
    invoked := [LoadCustomers];
    var customers := c.loadCustomers(customersPath);
    if customers.Raised? {
      return LoadFailed(customers.message), invoked;
    }
    invoked := invoked + [LoadTransactions];
    var transactions := c.loadTransactions(transactionsPath);
    if transactions.Raised? {
      return LoadFailed(transactions.message), invoked;
    }
    if !customers.value.Frame? || !transactions.value.Frame? {
      return LoadFailed(""), invoked;
    }
    loaded := Loaded(customers.value.table, transactions.value.table);
  }

  /** The second, third and fourth try blocks, run one after the other on
      the loaded tables; `merged` stays unbound when merge raised. */
  method RunStages(c: Candidate, h: Host, customersDf: Table, transactionsDf: Table)
    returns (lines: seq<string>, ghost invoked: seq<Capability>)
    ensures lines == StageLines(c, h, customersDf, transactionsDf)
    ensures invoked == [CleanTransactionData, MergeData]
                       + if c.mergeData(transactionsDf, customersDf).Returned? then [CalculateTotalByMembership] else []
  {
    // `transactions_df.copy()`: a table is a value, so whatever the candidate
    // does with its copy cannot reach `transactionsDf`.
    invoked := [CleanTransactionData];
    var cleaned := c.cleanTransactionData(transactionsDf);
    lines := CleanLines(cleaned);

    var merged: Option<Value> := None;
    invoked := invoked + [MergeData];
    var mergeOutcome := c.mergeData(transactionsDf, customersDf);
    if mergeOutcome.Returned? {
      merged := Some(mergeOutcome.value);
    }
    lines := lines + [MergeLine(mergeOutcome)];

    var line;
    ghost var aggregateInvoked;
    line, aggregateInvoked := AggregateStage(c, h, merged);
    lines := lines + [line];
    invoked := invoked + aggregateInvoked;
  }

  /** `test_student_code`: the report it prints, and (ghost) the candidate
      operations it invokes. */
  method TestStudentCode(c: Candidate, h: Host, customersPath: string, transactionsPath: string)
    returns (report: seq<string>, ghost invoked: seq<Capability>)
    ensures report == Report(c, h, customersPath, transactionsPath)
    ensures invoked == Invoked(c, customersPath, transactionsPath)
  {
    report := [];
    var loaded;
    loaded, invoked := LoadTables(c, customersPath, transactionsPath);
    if loaded.LoadFailed? {
      report := report + [Step1Failed + loaded.message];
      return;
    }
    report := report + [Step1Passed];
    var lines;
    ghost var stagesInvoked;
    lines, stagesInvoked := RunStages(c, h, loaded.customers, loaded.transactions);
    report := report + lines;
    invoked := invoked + stagesInvoked;
  }

  /** A passing line of a later stage is in the report exactly when the load
      succeeded and one of the later stages printed it. */
  lemma InReport(c: Candidate, h: Host, customersPath: string, transactionsPath: string, line: string)
    requires !IsFailure(line) && line != Step1Passed
    ensures line in Report(c, h, customersPath, transactionsPath) <==>
      var loaded := LoadStage(c, customersPath, transactionsPath);
      loaded.Loaded? &&
      var merged := c.mergeData(loaded.transactions, loaded.customers);
      (line in CleanLines(c.cleanTransactionData(loaded.transactions))
       || line == MergeLine(merged) || line == AggregateLine(c, h, MergedBinding(merged)))
  {
  }

  /** After a successful load the report reads: the Step 1 pass line; both
      cleaning pass lines, or a cleaning failure possibly preceded by the
      Step 2 pass line; one Step 4 line; one Step 5 line. */
  lemma ReportShape(c: Candidate, h: Host, customersPath: string, transactionsPath: string)
    requires LoadStage(c, customersPath, transactionsPath).Loaded?
    ensures var r := Report(c, h, customersPath, transactionsPath);
      && r[0] == Step1Passed
      && (|r| == 5 ==> r[1] == Step2Passed && (r[2] == Step3Passed || StartsWith(r[2], CleanFailed)))
      && (|r| == 4 ==> StartsWith(r[1], CleanFailed))
      && (r[|r| - 2] == Step4Passed || StartsWith(r[|r| - 2], MergeFailed))
      && (r[|r| - 1] == Step5Passed || StartsWith(r[|r| - 1], AggregateFailed))
  {
  }

  /** The Step 2 line is printed exactly when the load succeeded and the
      cleaned table has no missing cell. */
  lemma NullLineIff(c: Candidate, h: Host, customersPath: string, transactionsPath: string)
    ensures Step2Passed in Report(c, h, customersPath, transactionsPath) <==>
      var loaded := LoadStage(c, customersPath, transactionsPath);
      loaded.Loaded? && CleanedWithoutNulls(c.cleanTransactionData(loaded.transactions))
  {
  }

  /** The Step 3 line is printed exactly when, in addition, the cleaned rows
      are pairwise different. */
  lemma DuplicateLineIff(c: Candidate, h: Host, customersPath: string, transactionsPath: string)
    ensures Step3Passed in Report(c, h, customersPath, transactionsPath) <==>
      var loaded := LoadStage(c, customersPath, transactionsPath);
      loaded.Loaded? &&
      var cleaned := c.cleanTransactionData(loaded.transactions);
      CleanedWithoutNulls(cleaned) && DistinctRows(cleaned.value.table.rows)
  {
    assert Step3Passed[7] != Step1Passed[7] && Step3Passed[7] != Step4Passed[7] && Step3Passed[7] != Step5Passed[7];
    InReport(c, h, customersPath, transactionsPath, Step3Passed);
  }

  /** The Step 4 line is printed exactly when merge, given the raw tables,
      returned a data frame with every merged column and at least one row. */
  lemma MergeLineIff(c: Candidate, h: Host, customersPath: string, transactionsPath: string)
    ensures Step4Passed in Report(c, h, customersPath, transactionsPath) <==>
      var loaded := LoadStage(c, customersPath, transactionsPath);
      loaded.Loaded? && MergedWell(c.mergeData(loaded.transactions, loaded.customers))
  {
  }

  /** The Step 5 line is printed exactly when merge returned, the aggregate
      of its value passed the structural checks, and the heuristic did not
      flag the aggregate operation. */
  lemma AggregateLineIff(c: Candidate, h: Host, customersPath: string, transactionsPath: string)
    ensures Step5Passed in Report(c, h, customersPath, transactionsPath) <==>
      var loaded := LoadStage(c, customersPath, transactionsPath);
      loaded.Loaded? &&
      var merged := c.mergeData(loaded.transactions, loaded.customers);
      merged.Returned? && AggregatedWell(c, h, merged.value)
  {
  }

  /** Two runs on the same candidate and inputs print the same report: a
      consequence of modelling the candidate's operations as functions of
      their arguments alone. */
  method RunTwice(c: Candidate, h: Host, customersPath: string, transactionsPath: string)
    returns (first: seq<string>, second: seq<string>)
    ensures first == second
  {
    ghost var invoked;
    first, invoked := TestStudentCode(c, h, customersPath, transactionsPath);
    second, invoked := TestStudentCode(c, h, customersPath, transactionsPath);
  }
}
