/**
 * dw-batch-export.py: walk the months from a start to an end, run the
 * single-month downloader for each month whose file is missing, record
 * each failure in a ledger, pause after every run, and stop after five
 * consecutive failures.
 */
module BatchExport {

  import opened Wrappers
  import opened Paths
  import opened Text
  import ExportSession

  // ---------------------------------------------------------------- month_range

  datatype Month = Month(year: int, month: int)

  /** Python's tuple order on `(year, month)`. */
  predicate Le(a: Month, b: Month) {
    a.year < b.year || (a.year == b.year && a.month <= b.month)
  }

  predicate Lt(a: Month, b: Month) {
    Le(a, b) && a != b
  }

  /** One step of the generator: the month goes up by one, and past 12 it rolls over to January of the next year. */
  function Next(d: Month): Month {
    if d.month + 1 > 12 then Month(d.year + 1, 1) else Month(d.year, d.month + 1)
  }

  /** What `month_range` yields from `d` up to `end`. */
  function MonthsFrom(d: Month, end: Month): seq<Month>
    decreases end.year - d.year, 12 - d.month
  {
    if Le(d, end) then [d] + MonthsFrom(Next(d), end) else []
  }

  /** The generator as a loop; its results, collected, are `MonthsFrom(start, end)`. */
  method MonthRange(start: Month, end: Month) returns (months: seq<Month>)
    ensures months == MonthsFrom(start, end)
  {
    months := [];
    var y, m := start.year, start.month;
    while Le(Month(y, m), end)
      invariant months + MonthsFrom(Month(y, m), end) == MonthsFrom(start, end)
      decreases end.year - y, 12 - m
    {
      months := months + [Month(y, m)];
      m := m + 1;
      if m > 12 {
        m := 1;
        y := y + 1;
      }
    }
  }

  /**
   * The months come out strictly ascending, starting at `d`, each one the
   * calendar successor of the one before, none beyond `end`, and none at
   * all when `d` is after `end`.
   */
  lemma {:induction false} MonthsFromOrder(d: Month, end: Month)
    ensures var ms := MonthsFrom(d, end);
            (ms == [] <==> !Le(d, end))
            && (ms != [] ==> ms[0] == d)
            && (forall i :: 0 <= i < |ms| ==> Le(d, ms[i]) && Le(ms[i], end))
            && (forall i :: 0 <= i < |ms| - 1 ==> ms[i + 1] == Next(ms[i]))
            && (forall i, j :: 0 <= i < j < |ms| ==> Lt(ms[i], ms[j]))
    decreases end.year - d.year, 12 - d.month
  {
    if Le(d, end) {
      var ms := MonthsFrom(d, end);
      var rest := MonthsFrom(Next(d), end);
      MonthsFromOrder(Next(d), end);
      assert ms == [d] + rest;
      forall i | 0 <= i < |ms|
        ensures Le(d, ms[i]) && Le(ms[i], end)
      {
        if i > 0 {
          assert ms[i] == rest[i - 1];
        }
      }
      forall i | 0 <= i < |ms| - 1
        ensures ms[i + 1] == Next(ms[i])
      {
        if i > 0 {
          assert ms[i] == rest[i - 1] && ms[i + 1] == rest[i];
        }
      }
      forall i, j | 0 <= i < j < |ms|
        ensures Lt(ms[i], ms[j])
      {
        assert ms[j] == rest[j - 1];
        if i > 0 {
          assert ms[i] == rest[i - 1];
        } else {
          assert Le(Next(d), rest[j - 1]);
        }
      }
    }
  }

  /** Months counted from year 0: `year * 12 + month`. */
  function Ordinal(d: Month): int {
    d.year * 12 + d.month
  }

  /** With both months in 1..12, `month_range` yields `Ordinal(end) - Ordinal(start) + 1` months, or none. */
  lemma {:induction false} MonthsFromCount(d: Month, end: Month)
    requires 1 <= d.month <= 12 && 1 <= end.month <= 12
    ensures |MonthsFrom(d, end)| == if Ordinal(d) <= Ordinal(end) then Ordinal(end) - Ordinal(d) + 1 else 0
    decreases end.year - d.year, 12 - d.month
  {
    assert Le(d, end) <==> Ordinal(d) <= Ordinal(end);
    if Le(d, end) {
      assert Ordinal(Next(d)) == Ordinal(d) + 1;
      MonthsFromCount(Next(d), end);
    }
  }

  // ---------------------------------------------------------------- polite_pause

  /**
   * `random.randint(lo, hi)` followed by `time.sleep`, with the random draw
   * as a parameter: the delay is `lo` plus the draw, capped at `hi`.
   * `randint` raises when `lo > hi`, and `sleep` raises on a negative
   * delay: both are None.
   */
  function PauseDelay(lo: int, hi: int, draw: nat): Option<nat> {
    if lo > hi then None
    else
      var delay := if lo + draw > hi then hi else lo + draw;
      if delay < 0 then None else Some(delay)
  }

  /** A delay lies in `[lo, hi]`, and every non-negative delay of that range is drawn by some draw. */
  lemma PauseDelayBounds(lo: int, hi: int, draw: nat)
    ensures PauseDelay(lo, hi, draw).Some? ==> lo <= PauseDelay(lo, hi, draw).value <= hi
    ensures PauseDelay(lo, hi, draw).Some? <==> lo <= hi && 0 <= hi && 0 <= lo + draw
    ensures forall delay: nat :: lo <= delay <= hi ==> PauseDelay(lo, hi, delay - lo) == Some(delay)
  {
  }

  const GrumpyPrefix: string := "grumpy (consecutive failures: "

  /** The reason logged with a grumpy pause: it carries the current count of consecutive failures. */
  function GrumpyReason(failures: nat): string {
    GrumpyPrefix + IntToString(failures) + ")"
  }

  /** The count can be read back out of the reason. */
  lemma GrumpyReasonCarriesCount(failures: nat)
    ensures var r := GrumpyReason(failures);
            |r| > |GrumpyPrefix| && r[..|GrumpyPrefix|] == GrumpyPrefix && r[|r| - 1] == ')'
            && ParseInt(r[|GrumpyPrefix|..|r| - 1]) == Some(failures)
  {
    var r := GrumpyReason(failures);
    assert r[|GrumpyPrefix|..|r| - 1] == IntToString(failures);
    ParseIntToString(failures);
  }

  // ---------------------------------------------------------------- record_failure

  /** One ledger row: `{year:04d},{month:02d},{timestamp},{exit_code}` and a newline. */
  function FailureLine(d: Month, timestamp: Timestamp, exitCode: int): string {
    FormatInt(d.year, 4) + "," + FormatInt(d.month, 2) + "," + timestamp + "," + IntToString(exitCode) + "\n"
  }

  /** A row ends in its only newline, splits on `,` into exactly four fields, and gives back the year, month, timestamp and exit code. */
  lemma FailureLineRoundTrip(d: Month, timestamp: Timestamp, exitCode: int)
    ensures var line := FailureLine(d, timestamp, exitCode);
            |line| > 0 && line[|line| - 1] == '\n' && '\n' !in line[..|line| - 1]
            && var fields := Split(line[..|line| - 1], ',');
               |fields| == 4
               && ParseInt(fields[0]) == Some(d.year) && ParseInt(fields[1]) == Some(d.month)
               && fields[2] == timestamp && ParseInt(fields[3]) == Some(exitCode)
  {
    var y, m, c := FormatInt(d.year, 4), FormatInt(d.month, 2), IntToString(exitCode);
    FormatHasNoSeparators(d.year, 4);
    FormatHasNoSeparators(d.month, 2);
    FormatHasNoSeparators(exitCode, 0);
    var line := FailureLine(d, timestamp, exitCode);
    assert line[..|line| - 1] == y + [','] + (m + [','] + (timestamp + [','] + c));
    SplitField(y, ',', m + [','] + (timestamp + [','] + c));
    SplitField(m, ',', timestamp + [','] + c);
    SplitField(timestamp, ',', c);
    SplitNoSep(c, ',');
    ParseFormatInt(d.year, 4);
    ParseFormatInt(d.month, 2);
    ParseIntToString(exitCode);
  }

  /** A ledger row before it is written out. */
  datatype Row = Row(month: Month, timestamp: Timestamp, exitCode: int)

  function RowLine(r: Row): string {
    FailureLine(r.month, r.timestamp, r.exitCode)
  }

  /** The ledger lines of `rows`, in order. */
  function Lines(rows: seq<Row>): (lines: seq<string>)
    ensures |lines| == |rows|
  {
    seq(|rows|, i requires 0 <= i < |rows| => RowLine(rows[i]))
  }

  lemma LinesAppend(a: seq<Row>, b: seq<Row>)
    ensures Lines(a + b) == Lines(a) + Lines(b)
  {
    assert forall i :: 0 <= i < |a| ==> (a + b)[i] == a[i];
    assert forall i :: |a| <= i < |a| + |b| ==> (a + b)[i] == b[i - |a|];
  }

  /**
   * The ledger file as its lines: `record_failure` opens it for appending,
   * so the lines already there stay and one line is added at the end.
   */
  class FailureLog {
    var lines: seq<string>

    constructor (lines: seq<string>)
      ensures this.lines == lines
    {
      this.lines := lines;
    }

    method RecordFailure(d: Month, timestamp: Timestamp, exitCode: int)
      modifies this
      ensures lines == old(lines) + [FailureLine(d, timestamp, exitCode)]
    {
      lines := lines + [FailureLine(d, timestamp, exitCode)];
    }
  }

  // ---------------------------------------------------------------- main

  /** The command line of the batch run; `interpreter` is `sys.executable`. */
  datatype Config = Config(start: Month, end: Month, cookieFile: string, journal: string, outdir: string,
                           normalMin: int, normalMax: int, grumpyMin: int, grumpyMax: int, interpreter: string)

  /** What the subprocess reports for a month: the downloader's exit code and whether the month's file exists afterwards. */
  datatype RunResult = RunResult(returnCode: int, created: bool)

  /**
   * What the loop cannot see: the files present when it starts, the
   * downloader's result per month, the clock read when a failure is
   * recorded, and the random draw behind each pause. A downloader run only
   * writes its own month's file, so the files of the months still to come
   * are those present at the start.
   */
  datatype World = World(existing: set<Path>, run: Month -> RunResult, clock: Month -> Timestamp, draws: Month -> nat)

  /** `outdir / f"dw_export_{journal or 'default'}_{year:04d}-{month:02d}.xml"`. */
  function OutFile(outdir: string, journal: string, d: Month): Path {
    [outdir, "dw_export_" + (if journal != "" then journal else "default") + "_"
             + FormatInt(d.year, 4) + "-" + FormatInt(d.month, 2) + ".xml"]
  }

  /** The downloader's command line; `--journal` is passed only for a non-empty journal. */
  function Command(cfg: Config, d: Month): seq<string> {
    [cfg.interpreter, "dw-downloader.py", "--year", IntToString(d.year), "--month", IntToString(d.month),
     "--cookie-file", cfg.cookieFile, "--outdir", cfg.outdir]
    + (if cfg.journal != "" then ["--journal", cfg.journal] else [])
  }

  /**
   * The downloader reads back exactly this month, cookie file, journal
   * and output directory from the command, and so saves to the very file
   * whose existence the batch driver tests.
   */
  lemma CommandTargetsOutFile(cfg: Config, d: Month)
    ensures var cmd := Command(cfg, d);
            ParseInt(cmd[3]) == Some(d.year) && ParseInt(cmd[5]) == Some(d.month)
            && var journal := if |cmd| > 11 then cmd[11] else "";
               journal == cfg.journal
               && OutFile(cfg.outdir, cfg.journal, d)
                  == ExportSession.OutputPath(ExportSession.Args(ParseInt(cmd[3]).value, ParseInt(cmd[5]).value,
                                                                 cmd[7], "", journal, cmd[9]))
  {
    ParseIntToString(d.year);
    ParseIntToString(d.month);
  }

  datatype Kind = Skipped | Succeeded | Failed

  /** How a month fares: skipped when its file exists, a success when the run returns 0 and the file then exists, otherwise a failure. */
  function Classify(cfg: Config, world: World, d: Month): Kind {
    if OutFile(cfg.outdir, cfg.journal, d) in world.existing then Skipped
    else if world.run(d).returnCode == 0 && world.run(d).created then Succeeded
    else Failed
  }

  /** Why the loop pauses: after a success, or after the given number of consecutive failures. */
  datatype Reason = Normal | Grumpy(failures: nat)

  /** The reason as `polite_pause` logs it. */
  function ReasonText(r: Reason): string {
    match r
    case Normal => "normal"
    case Grumpy(n) => GrumpyReason(n)
  }

  /** What the loop did: the downloader run for a month (its command line is `Command`), or a pause with its delay and reason. */
  datatype Event = Run(month: Month) | Pause(delay: nat, reason: Reason)

  /** How the batch ends: a return code, or the ValueError of a pause outside its range (the interpreter then exits with 1). */
  datatype Status = Exit(code: int) | BadPause

  function ExitCode(s: Status): int {
    if s.Exit? then s.code else 1
  }

  /** A run of the loop: how it ended, the failure counter at the end, the rows appended to the ledger, and the runs and pauses in order. */
  datatype Report = Report(status: Status, failures: nat, rows: seq<Row>, events: seq<Event>)

  function Prepend(events: seq<Event>, rows: seq<Row>, rest: Report): Report {
    rest.(rows := rows + rest.rows, events := events + rest.events)
  }

  /** What one month does: the loop stops with a report, or goes on with these events, these ledger rows and this counter. */
  datatype Step = Stop(report: Report) | Go(events: seq<Event>, rows: seq<Row>, failures: nat)

  /** The body of the loop for month `d` with `failures` consecutive failures so far. */
  function Visit(cfg: Config, world: World, d: Month, failures: nat): Step {
    match Classify(cfg, world, d)
    case Skipped => Go([], [], failures)
    case Succeeded =>
      (match PauseDelay(cfg.normalMin, cfg.normalMax, world.draws(d))
       case None => Stop(Report(BadPause, 0, [], [Run(d)]))
       case Some(delay) => Go([Run(d), Pause(delay, Normal)], [], 0))
    case Failed =>
      var n := failures + 1;
      var row := Row(d, world.clock(d), world.run(d).returnCode);
      (match PauseDelay(cfg.grumpyMin, cfg.grumpyMax, world.draws(d))
       case None => Stop(Report(BadPause, n, [row], [Run(d)]))
       case Some(delay) =>
         if n >= 5 then Stop(Report(Exit(3), n, [row], [Run(d), Pause(delay, Grumpy(n))]))
         else Go([Run(d), Pause(delay, Grumpy(n))], [row], n))
  }

  function VisitOf(cfg: Config, world: World): (Month, nat) -> Step {
    (d: Month, n: nat) => Visit(cfg, world, d, n)
  }

  /** A loop over `months` whose body is `visit`. */
  function Fold(visit: (Month, nat) -> Step, months: seq<Month>, failures: nat): Report
    decreases |months|
  {
    if months == [] then Report(Exit(0), failures, [], [])
    else
      match visit(months[0], failures)
      case Stop(r) => r
      case Go(events, rows, n) => Prepend(events, rows, Fold(visit, months[1..], n))
  }

  /** The loop over `months` with `failures` consecutive failures so far. */
  function Drive(cfg: Config, world: World, months: seq<Month>, failures: nat): Report {
    Fold(VisitOf(cfg, world), months, failures)
  }

  /** Specification of `main`. */
  function Batch(cfg: Config, world: World): Report {
    Drive(cfg, world, MonthsFrom(cfg.start, cfg.end), 0)
  }

  /** The events, ledger rows and counter a step leaves, whether it stops the loop or not. */
  function StepEvents(step: Step): seq<Event> {
    if step.Stop? then step.report.events else step.events
  }

  function StepRows(step: Step): seq<Row> {
    if step.Stop? then step.report.rows else step.rows
  }

  function StepFailures(step: Step): nat {
    if step.Stop? then step.report.failures else step.failures
  }

  /** The body of the loop in `main` for one month; `stop` is the return value when it leaves the loop. */
  method VisitMonth(cfg: Config, world: World, log: FailureLog, d: Month, failures: nat,
                    ghost start: seq<string>, ghost rows: seq<Row>)
    returns (stop: Option<Status>, events: seq<Event>, counter: nat, ghost step: Step)
    modifies log
    requires log.lines == start + Lines(rows)
    ensures step == VisitOf(cfg, world)(d, failures)
    ensures log.lines == start + Lines(rows + StepRows(step))
    ensures stop.Some? <==> step.Stop?
    ensures stop.Some? ==> stop.value == step.report.status
    ensures events == StepEvents(step) && counter == StepFailures(step)
    ensures log.lines == old(log.lines) + Lines(StepRows(step))
  {
    step := Visit(cfg, world, d, failures);
    LinesAppend(rows, StepRows(step));
    var outfile := OutFile(cfg.outdir, cfg.journal, d);
    if outfile in world.existing {
      return None, [], failures, step;
    }
    var result := world.run(d);
    if result.returnCode == 0 && result.created {
      var delay := PauseDelay(cfg.normalMin, cfg.normalMax, world.draws(d));
      if delay.None? {
        return Some(BadPause), [Run(d)], 0, step;
      }
      return None, [Run(d), Pause(delay.value, Normal)], 0, step;
    }
    log.RecordFailure(d, world.clock(d), result.returnCode);
    assert Lines([Row(d, world.clock(d), result.returnCode)]) == [FailureLine(d, world.clock(d), result.returnCode)];
    counter := failures + 1;
    var delay := PauseDelay(cfg.grumpyMin, cfg.grumpyMax, world.draws(d));
    if delay.None? {
      return Some(BadPause), [Run(d)], counter, step;
    }
    events := [Run(d), Pause(delay.value, Grumpy(counter))];
    if counter >= 5 {
      return Some(Exit(3)), events, counter, step;
    }
    stop := None;
  }

  /**
   * One turn of the loop in `main` at index `i`: what is left of the whole run `total` after
   * the ledger has grown from `start` by `rows` and the loop has emitted `events`.
   */
  method Turn(cfg: Config, world: World, log: FailureLog, months: seq<Month>, i: nat, failures: nat,
              events: seq<Event>, ghost rows: seq<Row>, ghost start: seq<string>, ghost total: Report)
    returns (stop: Option<Status>, events': seq<Event>, failures': nat, ghost rows': seq<Row>)
    modifies log
    requires i < |months|
    requires log.lines == start + Lines(rows)
    requires total == Prepend(events, rows, Fold(VisitOf(cfg, world), months[i..], failures))
    ensures log.lines == start + Lines(rows')
    ensures stop.Some? ==> total.status == stop.value && total.events == events' && total.rows == rows'
    ensures stop.None? ==> total == Prepend(events', rows', Fold(VisitOf(cfg, world), months[i + 1..], failures'))
  {
    var more: seq<Event>;
    ghost var step: Step;
    stop, more, failures', step := VisitMonth(cfg, world, log, months[i], failures, start, rows);
    TurnAdvance(VisitOf(cfg, world), months, i, failures, events, rows, total, step);
    rows' := rows + StepRows(step);
    events' := events + more;
  }

  /** The whole run `total` after the turn at index `i` has taken `step`. */
  lemma TurnAdvance(visit: (Month, nat) -> Step, months: seq<Month>, i: nat, failures: nat,
                    events: seq<Event>, rows: seq<Row>, total: Report, step: Step)
    requires i < |months| && total == Prepend(events, rows, Fold(visit, months[i..], failures))
    requires step == visit(months[i], failures)
    ensures step.Stop? ==> total.status == step.report.status && total.events == events + StepEvents(step)
                           && total.rows == rows + StepRows(step)
    ensures step.Go? ==> total == Prepend(events + StepEvents(step), rows + StepRows(step),
                                          Fold(visit, months[i + 1..], StepFailures(step)))
  {
    FoldFront(visit, months, i, failures);
  }

  /** `main`: the batch loop over the months, appending failures to `log`. */
  method BatchMain(cfg: Config, world: World, log: FailureLog) returns (status: Status, events: seq<Event>)
    modifies log
    ensures status == Batch(cfg, world).status && events == Batch(cfg, world).events
    ensures log.lines == old(log.lines) + Lines(Batch(cfg, world).rows)
  {
    var months := MonthRange(cfg.start, cfg.end);
    ghost var total := Batch(cfg, world);
    assert total == Fold(VisitOf(cfg, world), months[0..], 0);
    ghost var start := log.lines;
    var failures: nat := 0;
    events := [];
    ghost var rows: seq<Row> := [];
    var i := 0;
    while i < |months|
      invariant 0 <= i <= |months|
      invariant log.lines == start + Lines(rows)
      invariant total == Prepend(events, rows, Fold(VisitOf(cfg, world), months[i..], failures))
    {
      var stop: Option<Status>;
      stop, events, failures, rows := Turn(cfg, world, log, months, i, failures, events, rows, start, total);
      if stop.Some? {
        return stop.value, events;
      }
      i := i + 1;
    }
    assert months[i..] == [];
    return Exit(0), events;
  }

  /** One turn of the loop at index `i`. */
  lemma FoldFront(visit: (Month, nat) -> Step, months: seq<Month>, i: nat, failures: nat)
    requires i < |months|
    ensures Fold(visit, months[i..], failures)
            == match visit(months[i], failures)
               case Stop(r) => r
               case Go(events, rows, n) => Prepend(events, rows, Fold(visit, months[i + 1..], n))
  {
    assert months[i..][0] == months[i] && months[i..][1..] == months[i + 1..];
  }

  // ---------------------------------------------------------------- the loop as a fold

  /** The body stops the loop only with a status other than 0. */
  ghost predicate StopsAbnormally(visit: (Month, nat) -> Step) {
    forall d, n :: visit(d, n).Stop? ==> visit(d, n).report.status != Exit(0)
  }

  /** After the loop has stopped, months beyond the range make no difference: they are never visited. */
  lemma {:induction false} FoldLaterIgnored(visit: (Month, nat) -> Step, months: seq<Month>, later: seq<Month>, failures: nat)
    requires Fold(visit, months, failures).status != Exit(0)
    ensures Fold(visit, months + later, failures) == Fold(visit, months, failures)
    decreases |months|
  {
    assert (months + later)[0] == months[0] && (months + later)[1..] == months[1..] + later;
    match visit(months[0], failures)
    case Stop(_) =>
    case Go(_, _, n) =>
      FoldLaterIgnored(visit, months[1..], later, n);
  }

  /** A loop that went through `months` carries on into `later` with its counter, its events and its ledger rows in front. */
  lemma {:induction false} FoldAppend(visit: (Month, nat) -> Step, months: seq<Month>, later: seq<Month>, failures: nat)
    requires StopsAbnormally(visit) && Fold(visit, months, failures).status == Exit(0)
    ensures var r := Fold(visit, months, failures);
            Fold(visit, months + later, failures) == Prepend(r.events, r.rows, Fold(visit, later, r.failures))
    decreases |months|
  {
    if months == [] {
      assert months + later == later;
    } else {
      assert (months + later)[0] == months[0] && (months + later)[1..] == months[1..] + later;
      var step := visit(months[0], failures);
      if step.Go? {
        FoldAppend(visit, months[1..], later, step.failures);
      }
    }
  }

  lemma VisitStopsAbnormally(cfg: Config, world: World)
    ensures StopsAbnormally(VisitOf(cfg, world))
  {
    forall d, n | VisitOf(cfg, world)(d, n).Stop?
      ensures VisitOf(cfg, world)(d, n).report.status != Exit(0)
    {
      assert VisitOf(cfg, world)(d, n) == Visit(cfg, world, d, n);
    }
  }

  /** After the batch loop has stopped, later months are never visited. */
  lemma LaterMonthsIgnored(cfg: Config, world: World, months: seq<Month>, later: seq<Month>, failures: nat)
    requires Drive(cfg, world, months, failures).status != Exit(0)
    ensures Drive(cfg, world, months + later, failures) == Drive(cfg, world, months, failures)
  {
    FoldLaterIgnored(VisitOf(cfg, world), months, later, failures);
  }

  /** A batch loop that finished `months` goes on into `later` from where it stood. */
  lemma DriveAppend(cfg: Config, world: World, months: seq<Month>, later: seq<Month>, failures: nat)
    requires Drive(cfg, world, months, failures).status == Exit(0)
    ensures var r := Drive(cfg, world, months, failures);
            Drive(cfg, world, months + later, failures) == Prepend(r.events, r.rows, Drive(cfg, world, later, r.failures))
  {
    VisitStopsAbnormally(cfg, world);
    FoldAppend(VisitOf(cfg, world), months, later, failures);
  }

  // ---------------------------------------------------------------- the circuit breaker

  function StreakStep(failures: nat, k: Kind): nat {
    match k
    case Skipped => failures
    case Succeeded => 0
    case Failed => failures + 1
  }

  /** The consecutive-failure count after `ks`, read from the last month back: a success resets it, a skip leaves it as it was. */
  function Streak(ks: seq<Kind>, failures: nat): nat
    decreases |ks|
  {
    if ks == [] then failures else StreakStep(Streak(ks[..|ks| - 1], failures), ks[|ks| - 1])
  }

  /** Month `k` is a failure that brings the count to five. */
  predicate Trips(ks: seq<Kind>, failures: nat, k: int) {
    0 <= k < |ks| && ks[k] == Failed && Streak(ks[..k + 1], failures) == 5
  }

  lemma {:induction false} StreakFront(k: Kind, ks: seq<Kind>, failures: nat)
    ensures Streak([k] + ks, failures) == Streak(ks, StreakStep(failures, k))
    decreases |ks|
  {
    if ks == [] {
      assert [k][..0] == [];
    } else {
      var init := ks[..|ks| - 1];
      assert ([k] + ks)[..|ks|] == [k] + init;
      StreakFront(k, init, failures);
    }
  }

  /** Skips, successes and failures act on the counter as `Streak` says. */
  lemma StreakSnoc(ks: seq<Kind>, k: Kind, failures: nat)
    ensures Streak(ks + [k], failures) == StreakStep(Streak(ks, failures), k)
    ensures Streak(ks + [Skipped], failures) == Streak(ks, failures)
    ensures Streak(ks + [Succeeded], failures) == 0
    ensures Streak(ks + [Failed], failures) == Streak(ks, failures) + 1
  {
    assert (ks + [k])[..|ks|] == ks;
    assert (ks + [Skipped])[..|ks|] == ks;
    assert (ks + [Succeeded])[..|ks|] == ks;
    assert (ks + [Failed])[..|ks|] == ks;
  }

  predicate PausesValid(cfg: Config) {
    0 <= cfg.normalMin <= cfg.normalMax && 0 <= cfg.grumpyMin <= cfg.grumpyMax
  }

  /** The body stops the loop exactly at a failure that makes the count reach five, with 3, and otherwise moves the count by `StreakStep`. */
  predicate CountsAs(step: Step, k: Kind, failures: nat) {
    match step
    case Stop(r) => k == Failed && failures + 1 >= 5 && r.status == Exit(3)
    case Go(_, _, n) => n == StreakStep(failures, k) && !(k == Failed && failures + 1 >= 5)
  }

  ghost predicate Counting(visit: (Month, nat) -> Step, kind: Month -> Kind) {
    forall d, n :: CountsAs(visit(d, n), kind(d), n)
  }

  function KindsOf(kind: Month -> Kind, months: seq<Month>): (ks: seq<Kind>)
    ensures |ks| == |months| && forall i :: 0 <= i < |months| ==> ks[i] == kind(months[i])
  {
    seq(|months|, i requires 0 <= i < |months| => kind(months[i]))
  }

  /** A counting loop returns 3 exactly when some month brings the count to five, and otherwise 0 with the streak of the whole range. */
  lemma {:induction false} FoldTrips(visit: (Month, nat) -> Step, kind: Month -> Kind, months: seq<Month>, failures: nat)
    requires Counting(visit, kind) && failures < 5
    ensures var r := Fold(visit, months, failures);
            var ks := KindsOf(kind, months);
            (r.status == Exit(3) <==> exists k :: Trips(ks, failures, k))
            && (r.status != Exit(3) ==> r.status == Exit(0) && r.failures == Streak(ks, failures))
    decreases |months|
  {
    var ks := KindsOf(kind, months);
    if months != [] {
      var rest := months[1..];
      var kr := KindsOf(kind, rest);
      assert ks == [ks[0]] + kr;
      var next := StreakStep(failures, ks[0]);
      StreakFront(ks[0], [], failures);
      assert [ks[0]] + [] == ks[..1];
      assert CountsAs(visit(months[0], failures), ks[0], failures);
      if ks[0] == Failed && failures + 1 >= 5 {
        assert Trips(ks, failures, 0);
      } else {
        FoldTrips(visit, kind, rest, next);
        forall k | 0 < k <= |kr|
          ensures Streak(ks[..k + 1], failures) == Streak(kr[..k], next)
        {
          assert ks[..k + 1] == [ks[0]] + kr[..k];
          StreakFront(ks[0], kr[..k], failures);
        }
        if exists k :: Trips(ks, failures, k) {
          var k :| Trips(ks, failures, k);
          assert Trips(kr, next, k - 1);
        }
        if exists k :: Trips(kr, next, k) {
          var k :| Trips(kr, next, k);
          assert Trips(ks, failures, k + 1);
        }
      }
    }
  }

  function ClassifyOf(cfg: Config, world: World): Month -> Kind {
    d => Classify(cfg, world, d)
  }

  function Kinds(cfg: Config, world: World, months: seq<Month>): seq<Kind> {
    KindsOf(ClassifyOf(cfg, world), months)
  }

  /** With valid pause ranges a month stops the loop only as the fifth consecutive failure, and otherwise moves the counter as `StreakStep` does. */
  lemma VisitCounts(cfg: Config, world: World, d: Month, failures: nat)
    requires PausesValid(cfg)
    ensures CountsAs(Visit(cfg, world, d, failures), Classify(cfg, world, d), failures)
  {
    PauseDelayBounds(cfg.normalMin, cfg.normalMax, world.draws(d));
    PauseDelayBounds(cfg.grumpyMin, cfg.grumpyMax, world.draws(d));
  }

  /**
   * With valid pause ranges the batch loop returns 3 exactly when some
   * month is a failure that brings the consecutive count to five, and 0
   * otherwise, with the counter then equal to the streak of the whole range.
   */
  lemma DriveTrips(cfg: Config, world: World, months: seq<Month>, failures: nat)
    requires PausesValid(cfg) && failures < 5
    ensures var r := Drive(cfg, world, months, failures);
            var ks := Kinds(cfg, world, months);
            (r.status == Exit(3) <==> exists k :: Trips(ks, failures, k))
            && (r.status != Exit(3) ==> r.status == Exit(0) && r.failures == Streak(ks, failures))
  {
    forall d, n
      ensures CountsAs(VisitOf(cfg, world)(d, n), ClassifyOf(cfg, world)(d), n)
    {
      VisitCounts(cfg, world, d, n);
      assert VisitOf(cfg, world)(d, n) == Visit(cfg, world, d, n);
      assert ClassifyOf(cfg, world)(d) == Classify(cfg, world, d);
    }
    assert Counting(VisitOf(cfg, world), ClassifyOf(cfg, world));
    FoldTrips(VisitOf(cfg, world), ClassifyOf(cfg, world), months, failures);
    assert Drive(cfg, world, months, failures) == Fold(VisitOf(cfg, world), months, failures);
    assert Kinds(cfg, world, months) == KindsOf(ClassifyOf(cfg, world), months);
  }

  /** The example run F, F, F, F, S, F, F, F, F, F: the first nine months end normally, and the tenth trips the breaker. */
  const Example: seq<Kind> := [Failed, Failed, Failed, Failed, Succeeded, Failed, Failed, Failed, Failed, Failed]

  lemma StreakPrefix(ks: seq<Kind>, k: nat, failures: nat)
    requires k < |ks|
    ensures Streak(ks[..k + 1], failures) == StreakStep(Streak(ks[..k], failures), ks[k])
  {
    assert ks[..k + 1][..k] == ks[..k];
  }

  /** The streak along `Example`: 1, 2, 3, 4, 0, 1, 2, 3, 4, 5. */
  lemma ExampleStreaks()
    ensures forall k :: 0 <= k < 9 ==> !Trips(Example, 0, k)
    ensures Trips(Example, 0, 9)
  {
    var ks := Example;
    assert ks[..0] == [];
    StreakPrefix(ks, 0, 0);
    StreakPrefix(ks, 1, 0);
    StreakPrefix(ks, 2, 0);
    StreakPrefix(ks, 3, 0);
    StreakPrefix(ks, 4, 0);
    assert Streak(ks[..5], 0) == 0;
    StreakPrefix(ks, 5, 0);
    StreakPrefix(ks, 6, 0);
    StreakPrefix(ks, 7, 0);
    StreakPrefix(ks, 8, 0);
    assert Streak(ks[..9], 0) == 4;
    StreakPrefix(ks, 9, 0);
    forall k | 0 <= k < 9
      ensures !Trips(ks, 0, k)
    {
      if k < 4 {
        assert Streak(ks[..k + 1], 0) == k + 1 by {
          if k == 0 {} else if k == 1 {} else if k == 2 {} else {}
        }
      } else if k > 4 {
        assert Streak(ks[..k + 1], 0) == k - 4 by {
          if k == 5 {} else if k == 6 {} else if k == 7 {} else {}
        }
      }
    }
  }

  lemma TripsOnTenthMonth(cfg: Config, world: World, months: seq<Month>)
    requires PausesValid(cfg) && Kinds(cfg, world, months) == Example
    ensures Drive(cfg, world, months[..9], 0).status == Exit(0)
    ensures Drive(cfg, world, months, 0).status == Exit(3)
  {
    ExampleStreaks();
    DriveTrips(cfg, world, months, 0);
    var head := months[..9];
    var kh := Kinds(cfg, world, head);
    forall k | 0 <= k < 9
      ensures !Trips(kh, 0, k)
    {
      assert kh[..k + 1] == Example[..k + 1];
      assert !Trips(Example, 0, k);
    }
    DriveTrips(cfg, world, head, 0);
  }

  // ---------------------------------------------------------------- what the loop leaves behind

  /** Per-month pieces joined in month order, defined from the last month back. */
  function ConcatMonths<T>(months: seq<Month>, piece: Month -> seq<T>): seq<T>
    decreases |months|
  {
    if months == [] then [] else ConcatMonths(months[..|months| - 1], piece) + piece(months[|months| - 1])
  }

  lemma {:induction false} ConcatMonthsFront<T>(months: seq<Month>, piece: Month -> seq<T>)
    requires months != []
    ensures ConcatMonths(months, piece) == piece(months[0]) + ConcatMonths(months[1..], piece)
    decreases |months|
  {
    if |months| > 1 {
      var init := months[..|months| - 1];
      assert init[0] == months[0] && init[1..] == months[1..][..|months| - 2];
      ConcatMonthsFront(init, piece);
    } else {
      assert months[..0] == [] && months[1..] == [];
    }
  }

  /** The months the downloader was run for, in order. */
  function RunsOf(events: seq<Event>): seq<Month>
    decreases |events|
  {
    if events == [] then []
    else (if events[0].Run? then [events[0].month] else []) + RunsOf(events[1..])
  }

  lemma {:induction false} RunsOfAppend(a: seq<Event>, b: seq<Event>)
    ensures RunsOf(a + b) == RunsOf(a) + RunsOf(b)
    decreases |a|
  {
    if a == [] {
      assert a + b == b;
    } else {
      assert (a + b)[0] == a[0] && (a + b)[1..] == a[1..] + b;
      RunsOfAppend(a[1..], b);
    }
  }

  /** Each month the loop goes on from contributes `runs(d)` to the runs and `rows(d)` to the ledger. */
  ghost predicate Recording(visit: (Month, nat) -> Step, runs: Month -> seq<Month>, rows: Month -> seq<Row>) {
    forall d, n :: visit(d, n).Go? ==> RunsOf(visit(d, n).events) == runs(d) && visit(d, n).rows == rows(d)
  }

  lemma {:induction false} FoldRecord(visit: (Month, nat) -> Step, runs: Month -> seq<Month>, rows: Month -> seq<Row>,
                                      months: seq<Month>, failures: nat)
    requires StopsAbnormally(visit) && Recording(visit, runs, rows)
    requires Fold(visit, months, failures).status == Exit(0)
    ensures RunsOf(Fold(visit, months, failures).events) == ConcatMonths(months, runs)
    ensures Fold(visit, months, failures).rows == ConcatMonths(months, rows)
    decreases |months|
  {
    if months != [] {
      ConcatMonthsFront(months, runs);
      ConcatMonthsFront(months, rows);
      var step := visit(months[0], failures);
      FoldRecord(visit, runs, rows, months[1..], step.failures);
      RunsOfAppend(step.events, Fold(visit, months[1..], step.failures).events);
    }
  }

  /** The ledger row a month contributes: one for a failure, none otherwise. */
  function LedgerRow(cfg: Config, world: World): Month -> seq<Row> {
    d => if Classify(cfg, world, d) == Failed then [Row(d, world.clock(d), world.run(d).returnCode)] else []
  }

  /** The downloader run a month causes: one unless it is skipped. */
  function RunOf(cfg: Config, world: World): Month -> seq<Month> {
    d => if Classify(cfg, world, d) != Skipped then [d] else []
  }

  /** A month the loop goes on from has run the downloader unless skipped, and has its ledger row if it failed. */
  lemma VisitRecord(cfg: Config, world: World, d: Month, failures: nat)
    ensures Visit(cfg, world, d, failures).Go? ==>
              RunsOf(Visit(cfg, world, d, failures).events) == RunOf(cfg, world)(d)
              && Visit(cfg, world, d, failures).rows == LedgerRow(cfg, world)(d)
  {
    var step := Visit(cfg, world, d, failures);
    if step.Go? && Classify(cfg, world, d) != Skipped {
      var e := step.events;
      assert |e| == 2 && e[0] == Run(d) && e[1].Pause?;
      assert e[1..][1..] == [];
      assert RunsOf(e[1..]) == [];
    }
  }

  /**
   * A loop that finishes normally has run the downloader once for every
   * month whose file was missing, in order and for no other month, and
   * has appended exactly one ledger row per failed month, in order.
   */
  lemma FinishedRunLeavesRecord(cfg: Config, world: World, months: seq<Month>, failures: nat)
    requires Drive(cfg, world, months, failures).status == Exit(0)
    ensures RunsOf(Drive(cfg, world, months, failures).events) == ConcatMonths(months, RunOf(cfg, world))
    ensures Drive(cfg, world, months, failures).rows == ConcatMonths(months, LedgerRow(cfg, world))
  {
    VisitStopsAbnormally(cfg, world);
    forall d, n | VisitOf(cfg, world)(d, n).Go?
      ensures RunsOf(VisitOf(cfg, world)(d, n).events) == RunOf(cfg, world)(d)
              && VisitOf(cfg, world)(d, n).rows == LedgerRow(cfg, world)(d)
    {
      VisitRecord(cfg, world, d, n);
    }
    FoldRecord(VisitOf(cfg, world), RunOf(cfg, world), LedgerRow(cfg, world), months, failures);
  }

  /** A month whose file exists changes nothing: no run, no pause, no ledger row, and the counter is kept. */
  lemma SkipLeavesNoTrace(cfg: Config, world: World, d: Month, later: seq<Month>, failures: nat)
    requires OutFile(cfg.outdir, cfg.journal, d) in world.existing
    ensures Drive(cfg, world, [d] + later, failures) == Drive(cfg, world, later, failures)
  {
    assert ([d] + later)[1..] == later;
    assert VisitOf(cfg, world)(d, failures) == Go([], [], failures);
  }
}
