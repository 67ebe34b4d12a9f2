/** From runs to a submission's result: the case verdict, the fold over the cases and the
    built-in score (services/judge-worker/src/judge.rs). */
module Verdict {
  import opened Basics
  import opened OutputNormalizer

  const ACCEPTED := "ACCEPTED"
  const I32_MAX: int := 0x7fff_ffff

  /** A component's report; `status` after trimming and upper-casing. */
  datatype Report = Report(status: Option<string>, score: Option<int>, timeMs: Option<int>, memoryKb: Option<int>,
                           acceptedFlag: Option<bool>)
  {
    function StatusUpper(): Option<string> {
      if status.Some? && status.value != "" then status else None
    }

    function Accepted(): Option<bool> {
      if acceptedFlag.Some? then acceptedFlag
      else if StatusUpper().Some? then Some(StatusUpper().value == ACCEPTED || StatusUpper().value == "OK")
      else None
    }

    /** The report's status unless it reads as success. */
    function FailureStatus(): string {
      if StatusUpper().Some? && StatusUpper().value != "OK" && StatusUpper().value != ACCEPTED then StatusUpper().value
      else "WRONG_ANSWER"
    }

    function SuccessStatus(): string {
      if StatusUpper().Some? && StatusUpper().value != "OK" then StatusUpper().value else ACCEPTED
    }

    function ScoreOr(default: int): int {
      if score.Some? then score.value else default
    }
  }

  datatype RunStatus = RunOk | TimeLimitExceeded | MemoryLimitExceeded | OutputLimitExceeded | RuntimeError

  datatype Run = Run(status: RunStatus, timeMs: int, memoryKb: int)

  datatype CaseVerdict = CaseVerdict(status: string, score: int, timeMs: int, memoryKb: int)

  datatype Builtin = Interactive | Communication | Heuristic | DefaultTrim | OutputOnly | OtherBuiltin

  /** The checker: a custom component with the outcome of its own run, or a built-in one. */
  datatype Checker = Custom(run: RunStatus, report: Report) | Builtin(name: Builtin)

  function Measured(run: Run, report: Report, status: string, score: int): CaseVerdict {
    CaseVerdict(status, score,
                if report.timeMs.Some? then report.timeMs.value else run.timeMs,
                if report.memoryKb.Some? then report.memoryKb.value else run.memoryKb)
  }

  /** `verdict_from_sandbox`. */
  function FromSandbox(caseScore: int, run: Run, report: Report): CaseVerdict {
    if report.Accepted() == Some(false) then Measured(run, report, report.FailureStatus(), report.ScoreOr(0))
    else
      match run.status
      case RunOk => Measured(run, report, report.SuccessStatus(), report.ScoreOr(caseScore))
      case TimeLimitExceeded => CaseVerdict("TIME_LIMIT_EXCEEDED", 0, run.timeMs, run.memoryKb)
      case MemoryLimitExceeded => CaseVerdict("MEMORY_LIMIT_EXCEEDED", 0, run.timeMs, run.memoryKb)
      case OutputLimitExceeded => CaseVerdict("OUTPUT_LIMIT_EXCEEDED", 0, run.timeMs, run.memoryKb)
      case RuntimeError => CaseVerdict("RUNTIME_ERROR", 0, run.timeMs, run.memoryKb)
  }

  /** `run_custom_checker` after the component has run. */
  function FromChecker(caseScore: int, run: Run, checkerRun: RunStatus, report: Report): CaseVerdict {
    var accepted := if report.Accepted().Some? then report.Accepted().value else checkerRun == RunOk;
    if accepted then Measured(run, report, report.SuccessStatus(), report.ScoreOr(caseScore))
    else Measured(run, report, report.FailureStatus(), report.ScoreOr(0))
  }

  method RunDefaultTrimChecker(caseScore: int, run: Run, report: Report, actual: string, expected: string)
    returns (verdict: CaseVerdict)
    ensures verdict.status == if Normal(actual) == Normal(expected) then ACCEPTED else "WRONG_ANSWER"
    ensures verdict == Measured(run, report, verdict.status, if verdict.status == ACCEPTED then report.ScoreOr(caseScore) else 0)
  {
    var equal := DefaultTrimEqual(actual, expected);
    if equal { return Measured(run, report, ACCEPTED, report.ScoreOr(caseScore)); }
    return Measured(run, report, "WRONG_ANSWER", 0);
  }

  /** The report does not speak against the case. */
  ghost predicate Favourable(report: Report) {
    report.acceptedFlag != Some(false) && (report.status.None? || report.status.value in {"", "OK", "ACCEPTED"})
  }

  /** The report says nothing about the case. */
  ghost predicate Silent(report: Report) {
    report.acceptedFlag.None? && (report.status.None? || report.status.value == "")
  }

  /** The report rejects the case: by its flag, or without one by its status. */
  ghost predicate Rejects(report: Report) {
    report.acceptedFlag == Some(false)
    || (report.acceptedFlag.None? && report.status.Some? && report.status.value !in {"", "OK", "ACCEPTED"})
  }

  /** The verdict carries the report's own status and score, if it has one that is no success. */
  ghost predicate RejectedBy(verdict: CaseVerdict, report: Report) {
    && verdict.score == (if report.score.Some? then report.score.value else 0)
    && verdict.status == if report.status.Some? && report.status.value !in {"", "OK", "ACCEPTED"}
                         then report.status.value else "WRONG_ANSWER"
  }

  /** The measurements are the report's where it gives them, else those of the run. */
  ghost predicate MeasuredBy(verdict: CaseVerdict, run: Run, report: Report) {
    && verdict.timeMs == (if report.timeMs.Some? then report.timeMs.value else run.timeMs)
    && verdict.memoryKb == (if report.memoryKb.Some? then report.memoryKb.value else run.memoryKb)
  }

  lemma ReportSpelledOut(report: Report)
    ensures report.Accepted().None? <==> Silent(report)
    ensures report.Accepted() == Some(false) <==> Rejects(report)
    ensures report.Accepted() != Some(false) ==> (report.SuccessStatus() == ACCEPTED <==> Favourable(report))
  {
  }

  /** A report that rejects the case decides; else a failed run has its own status. */
  lemma SandboxSpelledOut(caseScore: int, run: Run, report: Report)
    ensures var verdict := FromSandbox(caseScore, run, report);
            && (verdict.status == ACCEPTED <==> run.status == RunOk && Favourable(report))
            && (verdict.status == ACCEPTED ==>
                  verdict.score == (if report.score.Some? then report.score.value else caseScore) && MeasuredBy(verdict, run, report))
            && (Rejects(report) ==> RejectedBy(verdict, report) && MeasuredBy(verdict, run, report))
            && (!Rejects(report) && run.status != RunOk ==>
                  verdict == CaseVerdict(StatusOfFailure(run.status), 0, run.timeMs, run.memoryKb))
  {
    ReportSpelledOut(report);
  }

  function StatusOfFailure(status: RunStatus): string
    requires status != RunOk
  {
    match status
    case TimeLimitExceeded => "TIME_LIMIT_EXCEEDED"
    case MemoryLimitExceeded => "MEMORY_LIMIT_EXCEEDED"
    case OutputLimitExceeded => "OUTPUT_LIMIT_EXCEEDED"
    case RuntimeError => "RUNTIME_ERROR"
  }

  lemma CheckerSpelledOut(caseScore: int, run: Run, checkerRun: RunStatus, report: Report)
    ensures var verdict := FromChecker(caseScore, run, checkerRun, report);
            && MeasuredBy(verdict, run, report)
            && (verdict.status == ACCEPTED <==> Favourable(report) && (Silent(report) ==> checkerRun == RunOk))
            && (verdict.status == ACCEPTED ==> verdict.score == if report.score.Some? then report.score.value else caseScore)
            && (Rejects(report) || (Silent(report) && checkerRun != RunOk) ==> RejectedBy(verdict, report))
  {
    ReportSpelledOut(report);
  }

  /** The checker lets the output pass. */
  ghost predicate Passes(checker: Checker, runner: Report, actual: string, expected: string) {
    match checker
    case Custom(checkerRun, report) => Favourable(report) && (Silent(report) ==> checkerRun == RunOk)
    case Builtin(Heuristic) => true
    case Builtin(Interactive) => !Silent(runner) || Normal(actual) == Normal(expected)
    case Builtin(Communication) => !Silent(runner) || Normal(actual) == Normal(expected)
    case Builtin(_) => Normal(actual) == Normal(expected)
  }

  /** `verdict_after_run`: a case is accepted exactly when its run ended well, the runner's
      report does not speak against it, and the checker lets the output pass. */
  method AfterRun(caseScore: int, run: Run, runner: Report, checker: Checker, actual: string, expected: string)
    returns (verdict: CaseVerdict)
    ensures verdict.status == ACCEPTED <==>
            run.status == RunOk && Favourable(runner) && Passes(checker, runner, actual, expected)
    ensures verdict.status == ACCEPTED ==>
              var score := (if checker.Custom? then checker.report else runner).score;
              verdict.score == if score.Some? then score.value else caseScore
    ensures verdict.status == ACCEPTED ==> MeasuredBy(verdict, run, if checker.Custom? then checker.report else runner)
    ensures Rejects(runner) ==> RejectedBy(verdict, runner) && MeasuredBy(verdict, run, runner)
    ensures run.status != RunOk && !Rejects(runner) ==>
              verdict == CaseVerdict(StatusOfFailure(run.status), 0, run.timeMs, run.memoryKb)
    ensures run.status == RunOk && Favourable(runner) && checker.Custom?
            && (Rejects(checker.report) || (Silent(checker.report) && checker.run != RunOk)) ==>
              RejectedBy(verdict, checker.report) && MeasuredBy(verdict, run, checker.report)
    ensures run.status == RunOk && Favourable(runner) && checker.Builtin? && !Passes(checker, runner, actual, expected) ==>
              verdict.status == "WRONG_ANSWER" && verdict.score == 0 && MeasuredBy(verdict, run, runner)
  {
    ReportSpelledOut(runner);
    SandboxSpelledOut(caseScore, run, runner);
    if checker.Custom? { CheckerSpelledOut(caseScore, run, checker.run, checker.report); }
    hide FromSandbox, FromChecker, StatusOfFailure, Favourable, Rejects, RejectedBy;
    verdict := FromSandbox(caseScore, run, runner);
    if verdict.status != ACCEPTED { return; }
    if checker.Custom? { return FromChecker(caseScore, run, checker.run, checker.report); }
    if (checker.name == Interactive || checker.name == Communication || checker.name == Heuristic) && runner.Accepted().Some? {
      if runner.Accepted().value {
        verdict := verdict.(score := runner.ScoreOr(caseScore), status := ACCEPTED);
      } else {
        verdict := verdict.(status := runner.FailureStatus(), score := runner.ScoreOr(0));
      }
      return;
    }
    if checker.name == DefaultTrim || checker.name == OutputOnly {
      verdict := RunDefaultTrimChecker(caseScore, run, runner, actual, expected);
      return;
    }
    if checker.name == Heuristic {
      verdict := verdict.(score := runner.ScoreOr(caseScore));
      return;
    }
    verdict := RunDefaultTrimChecker(caseScore, run, runner, actual, expected);
  }

  function Clamp(score: int): (r: int)
    ensures 0 <= r <= 100 && (0 <= score <= 100 ==> r == score)
    ensures (score < 0 ==> r == 0) && (score > 100 ==> r == 100)
  {
    if score < 0 then 0 else if score > 100 then 100 else score
  }

  /** The first case that is not accepted, or the number of cases. */
  function FirstFailure(cases: seq<CaseVerdict>): (i: nat)
    ensures i <= |cases|
    ensures forall j :: 0 <= j < i ==> cases[j].status == ACCEPTED
    ensures i < |cases| ==> cases[i].status != ACCEPTED
  {
    if cases == [] || cases[0].status != ACCEPTED then 0 else 1 + FirstFailure(cases[1..])
  }

  function SumScores(cases: seq<CaseVerdict>): int {
    if cases == [] then 0
    else SumScores(cases[..|cases|-1]) + if cases[|cases|-1].score > 0 then cases[|cases|-1].score else 0
  }

  /** The largest of zero and the values. */
  ghost predicate IsMax(m: int, values: seq<int>) {
    && m >= 0 && (forall i :: 0 <= i < |values| ==> values[i] <= m)
    && (m == 0 || m in values)
  }

  lemma MaxStep(m: int, values: seq<int>, x: int)
    requires IsMax(m, values)
    ensures IsMax(if x > m then x else m, values + [x])
  {
    assert x in values + [x] && forall v :: v in values ==> v in values + [x];
  }

  ghost function Times(cases: seq<CaseVerdict>): seq<int> {
    seq(|cases|, i requires 0 <= i < |cases| => cases[i].timeMs)
  }

  ghost function Memories(cases: seq<CaseVerdict>): seq<int> {
    seq(|cases|, i requires 0 <= i < |cases| => cases[i].memoryKb)
  }

  lemma MeasuresStep(cases: seq<CaseVerdict>, i: nat)
    requires i < |cases|
    ensures Times(cases[..i+1]) == Times(cases[..i]) + [cases[i].timeMs]
    ensures Memories(cases[..i+1]) == Memories(cases[..i]) + [cases[i].memoryKb]
  {
  }

  /** The fold over the cases in `judge_artifacts`, each verdict clamped as `with_paths` does. */
  method Judge(verdicts: seq<CaseVerdict>) returns (status: string, timeMs: int, memoryKb: int, cases: seq<CaseVerdict>)
    ensures |cases| == |verdicts|
    ensures forall i :: 0 <= i < |cases| ==> cases[i] == verdicts[i].(score := cases[i].score)
    ensures forall i :: 0 <= i < |cases| ==>
              cases[i].score == if verdicts[i].score < 0 then 0 else if verdicts[i].score > 100 then 100 else verdicts[i].score
    ensures status == ACCEPTED <==> forall i :: 0 <= i < |verdicts| ==> verdicts[i].status == ACCEPTED
    ensures status != ACCEPTED ==> FirstFailure(verdicts) < |verdicts| && status == verdicts[FirstFailure(verdicts)].status
    ensures IsMax(timeMs, Times(verdicts)) && IsMax(memoryKb, Memories(verdicts))
  {
    status, timeMs, memoryKb, cases := ACCEPTED, 0, 0, [];
    assert Judged(verdicts[..0], status, timeMs, memoryKb, cases);
    for i := 0 to |verdicts|
      invariant Judged(verdicts[..i], status, timeMs, memoryKb, cases)
    {
      hide Judged;
      JudgedStep(verdicts, i, status, timeMs, memoryKb, cases);
      var v := verdicts[i];
      if v.status != ACCEPTED && status == ACCEPTED {
        status := v.status;
      }
      timeMs := if v.timeMs > timeMs then v.timeMs else timeMs;
      memoryKb := if v.memoryKb > memoryKb then v.memoryKb else memoryKb;
      cases := cases + [v.(score := Clamp(v.score))];
    }
    assert verdicts[..|verdicts|] == verdicts;
    StatusMeans(status, verdicts);
  }

  /** The result for the cases so far. */
  ghost predicate Judged(verdicts: seq<CaseVerdict>, status: string, timeMs: int, memoryKb: int, cases: seq<CaseVerdict>) {
    && |cases| == |verdicts|
    && (forall i :: 0 <= i < |cases| ==> cases[i] == verdicts[i].(score := Clamp(verdicts[i].score)))
    && StatusOf(status, verdicts)
    && IsMax(timeMs, Times(verdicts)) && IsMax(memoryKb, Memories(verdicts))
  }

  lemma JudgedStep(verdicts: seq<CaseVerdict>, i: nat, status: string, timeMs: int, memoryKb: int, cases: seq<CaseVerdict>)
    requires i < |verdicts| && Judged(verdicts[..i], status, timeMs, memoryKb, cases)
    ensures var v := verdicts[i];
            Judged(verdicts[..i+1],
                   if v.status != ACCEPTED && status == ACCEPTED then v.status else status,
                   if v.timeMs > timeMs then v.timeMs else timeMs,
                   if v.memoryKb > memoryKb then v.memoryKb else memoryKb,
                   cases + [v.(score := Clamp(v.score))])
  {
    hide IsMax, Times, Memories, StatusOf;
    StatusStep(status, verdicts, i);
    MaxStep(timeMs, Times(verdicts[..i]), verdicts[i].timeMs);
    MaxStep(memoryKb, Memories(verdicts[..i]), verdicts[i].memoryKb);
    MeasuresStep(verdicts, i);
    assert verdicts[..i+1] == verdicts[..i] + [verdicts[i]];
  }

  /** ACCEPTED, or the status of the first failure. */
  ghost predicate StatusOf(status: string, cases: seq<CaseVerdict>) {
    var i := FirstFailure(cases);
    status == if i < |cases| then cases[i].status else ACCEPTED
  }

  lemma StatusStep(status: string, cases: seq<CaseVerdict>, i: nat)
    requires i < |cases| && StatusOf(status, cases[..i])
    ensures StatusOf(if cases[i].status != ACCEPTED && status == ACCEPTED then cases[i].status else status, cases[..i+1])
  {
    var a, b := cases[..i], cases[..i+1];
    assert b == a + [cases[i]];
    var p, q := FirstFailure(a), FirstFailure(b);
    assert p < i ==> b[p] == a[p];
    assert q < i ==> a[q] == b[q];
  }

  lemma StatusMeans(status: string, cases: seq<CaseVerdict>)
    requires StatusOf(status, cases)
    ensures status == ACCEPTED <==> forall i :: 0 <= i < |cases| ==> cases[i].status == ACCEPTED
    ensures status != ACCEPTED ==> FirstFailure(cases) < |cases| && status == cases[FirstFailure(cases)].status
  {
  }

  /** The built-in branch of `score_submission`; `None` where the `i32` sum overflows. */
  method Score(cases: seq<CaseVerdict>) returns (score: Option<int>)
    requires forall i :: 0 <= i < |cases| ==> 0 <= cases[i].score <= 100
    ensures score.None? <==> SumScores(cases) > I32_MAX
    ensures score.Some? ==> score.value == if SumScores(cases) > 100 then 100 else SumScores(cases)
    ensures |cases| <= 21_474_836 ==> score.Some?
    ensures score.Some? ==> 0 <= score.value <= 100
  {
    var sum := 0;
    for i := 0 to |cases|
      invariant sum == SumScores(cases[..i]) <= I32_MAX && 0 <= sum <= 100 * i
    {
      assert cases[..i+1][..i] == cases[..i];
      var points := if cases[i].score > 0 then cases[i].score else 0;
      if sum + points > I32_MAX {
        SumGrows(cases, i + 1);
        return None;
      }
      sum := sum + points;
    }
    assert cases[..|cases|] == cases;
    return Some(if sum > 100 then 100 else sum);
  }

  lemma {:induction false} SumGrows(cases: seq<CaseVerdict>, i: nat)
    requires i <= |cases|
    ensures SumScores(cases[..i]) <= SumScores(cases)
  {
    if i == |cases| {
      assert cases[..i] == cases;
    } else {
      SumGrows(cases[..|cases|-1], i);
      assert cases[..|cases|-1][..i] == cases[..i];
    }
  }

  lemma {:induction false} SumOfEqual(v: CaseVerdict, n: nat)
    requires v.score >= 0
    ensures SumScores(seq(n, _ => v)) == v.score * n
  {
    if n > 0 {
      assert seq(n, _ => v)[..n-1] == seq(n - 1, _ => v);
      SumOfEqual(v, n - 1);
    }
  }

  /** With one case more than the bound of `Score` the sum can overflow. */
  lemma OneCaseMoreCanOverflow()
    ensures exists cases: seq<CaseVerdict> ::
              |cases| == 21_474_837 && (forall i :: 0 <= i < |cases| ==> cases[i].score == 100) && SumScores(cases) > I32_MAX
  {
    var v := CaseVerdict(ACCEPTED, 100, 0, 0);
    var cases := seq(21_474_837, _ => v);
    SumOfEqual(v, 21_474_837);
    assert |cases| == 21_474_837 && SumScores(cases) > I32_MAX;
  }
}
