/** The execution of one claimed task in services/judge-worker/src/worker_link.rs: work, then one
    terminal report with retries, all under a lease heartbeat. A script tells for every poll of
    the biased `select!` whether the heartbeat task has ended and what else has become ready;
    every script is allowed, and a script that runs out stops the execution in the middle. */
module LeaseExecution {
  import opened Basics

  type Bytes = seq<int>

  datatype Task = Task(taskId: Bytes, leaseVersion: Bytes)

  datatype ReportKind = ResultReport | FailReport {
    function Name(): Bytes {
      match this
      case ResultReport => [114, 101, 115, 117, 108, 116]   // "result"
      case FailReport => [102, 97, 105, 108]                // "fail"
    }
  }

  datatype Answer = Accepted | Rejected | HttpError(status: nat) | Transport

  /** `terminal_report_error_retryable`. */
  predicate Retryable(a: Answer) {
    match a
    case Accepted => false
    case Rejected => false
    case HttpError(status) => status == 429 || 500 <= status < 600
    case Transport => true
  }

  /** What the work ends with, and the serialized body of the report it calls for, unless
      serializing fails. */
  datatype Work = Judged(body: Option<Bytes>) | Failed(body: Option<Bytes>)

  /** How the heartbeat task ended: asked to, with an error of its own, or without returning. */
  datatype Ended = Stopped | BeatFailed | JoinFailed

  datatype Poll = Poll(heartbeat: Option<Ended>, work: Option<Work>, answer: Option<Answer>, slept: bool)

  datatype TaskError =
    | LeaseLost(ended: Ended)
    | NotReported
    | WorkFailed(reported: bool)
    | HeartbeatFailed(ended: Ended)

  datatype TaskResult = TaskOk | TaskErr(error: TaskError)

  datatype Digest = Sha256(of: Bytes)

  datatype Key = Key(kind: ReportKind, digest: Digest)

  datatype Action =
    | HeartbeatSpawned
    | Worked
    | Attempt(kind: ReportKind, payload: Bytes, key: Key)
    | Answered(kind: ReportKind, answer: Answer)
    | HeartbeatLost
    | StopSent
    | HeartbeatJoined(ended: Ended)
    | Cleaned

  // ----- the idempotency key ------------------------------------------------------------

  function KeyBytes(task: Task, kind: ReportKind, payload: Bytes): Bytes {
    task.taskId + [0] + task.leaseVersion + [0] + kind.Name() + [0] + payload
  }

  /** `task_report_idempotency_key`. */
  function KeyOf(task: Task, kind: ReportKind, payload: Bytes): Key {
    Key(kind, Sha256(KeyBytes(task, kind, payload)))
  }

  /** Two reports share a key only if they are the same report of the same lease. The lease
      version is eight bytes and serialized JSON holds no zero byte, so the key is read from
      its end, whatever the task ids are. */
  lemma KeyIsInjective(t: Task, k: ReportKind, p: Bytes, t': Task, k': ReportKind, p': Bytes)
    requires 0 !in p && 0 !in p'
    requires |t.leaseVersion| == 8 && |t'.leaseVersion| == 8
    requires KeyOf(t, k, p) == KeyOf(t', k', p')
    ensures t == t' && k == k' && p == p'
  {
    var head, head' := t.taskId + [0] + t.leaseVersion, t'.taskId + [0] + t'.leaseVersion;
    assert KeyBytes(t, k, p) == head + ([0] + k.Name()) + [0] + p;
    assert KeyBytes(t', k', p') == head' + ([0] + k.Name()) + [0] + p';
    SplitAtLastZero(head + ([0] + k.Name()), p, head' + ([0] + k.Name()), p');
    SameSuffix(head, head', [0] + k.Name());
    SameTails(t.taskId + [0], t.leaseVersion, t'.taskId + [0], t'.leaseVersion);
    SameSuffix(t.taskId, t'.taskId, [0]);
  }

  lemma SplitAtLastZero(a: Bytes, x: Bytes, b: Bytes, y: Bytes)
    requires 0 !in x && 0 !in y && a + [0] + x == b + [0] + y
    ensures a == b && x == y
  {
    var s := a + [0] + x;
    assert s[|a|] == 0 && s[|b|] == 0;
    assert forall i :: |a| < i < |s| ==> s[i] == x[i - |a| - 1];
    assert forall i :: |b| < i < |s| ==> s[i] == y[i - |b| - 1];
    assert |a| == |b|;
    SameTails(a + [0], x, b + [0], y);
    SameSuffix(a, b, [0]);
  }

  lemma SameTails(a: Bytes, x: Bytes, b: Bytes, y: Bytes)
    requires |x| == |y| && a + x == b + y
    ensures a == b && x == y
  {
    var s := a + x;
    assert a == s[..|s| - |x|] && b == s[..|s| - |x|];
    assert x == s[|s| - |x|..] && y == s[|s| - |x|..];
  }

  lemma SameSuffix(a: Bytes, b: Bytes, x: Bytes)
    requires a + x == b + x
    ensures a == b
  {
    SameTails(a, x, b, x);
  }

  // ----- what must hold of every log ----------------------------------------------------

  /** Every attempt sends the same body under the same key. */
  ghost predicate SameReport(log: seq<Action>, task: Task, kind: ReportKind, payload: Bytes) {
    forall i :: 0 <= i < |log| ==>
      && (log[i].Attempt? ==> log[i] == Attempt(kind, payload, KeyOf(task, kind, payload)))
      && (log[i].Answered? ==> log[i].kind == kind)
  }

  ghost predicate Over(a: Action) {
    a.HeartbeatLost? || a.StopSent? || a.HeartbeatJoined? || a.Cleaned?
  }

  ghost predicate Reporting(a: Action) {
    a.Attempt? || a.Answered?
  }

  /** No work and no report once the heartbeat is known lost or was told to stop. */
  ghost predicate HeartbeatOutlives(log: seq<Action>) {
    forall i, j :: 0 <= i < j < |log| && Over(log[i]) ==> !Reporting(log[j]) && !log[j].Worked?
  }

  /** Too many requests, a server error, or no answer at all. */
  ghost predicate Temporary(a: Answer) {
    a == Transport || a == HttpError(429) || (a.HttpError? && 500 <= a.status <= 599)
  }

  /** Attempts are made one at a time, and another one only after a temporary failure. */
  ghost predicate OrderlyRetries(log: seq<Action>) {
    && (forall i :: 0 <= i < |log| && log[i].Answered? ==> i > 0 && log[i-1].Attempt?)
    && (forall i :: 0 <= i < |log| - 1 && log[i].Attempt? ==> log[i+1].Answered? || Over(log[i+1]))
    && (forall i, j :: 0 <= i < j < |log| && log[i].Answered? && log[j].Attempt? ==> Temporary(log[i].answer))
  }

  ghost predicate Accepting(log: seq<Action>, kind: ReportKind) {
    exists i :: 0 <= i < |log| && log[i] == Answered(kind, Accepted)
  }

  ghost predicate Orderly(log: seq<Action>, task: Task, kind: ReportKind, payload: Bytes) {
    && log != [] && log[0] == HeartbeatSpawned
    && SameReport(log, task, kind, payload) && HeartbeatOutlives(log) && OrderlyRetries(log)
  }

  ghost predicate Quiet(log: seq<Action>) {
    forall i :: 0 <= i < |log| ==> !Over(log[i])
  }

  /** One more action keeps the log orderly. */
  lemma Grow(log: seq<Action>, a: Action, task: Task, kind: ReportKind, payload: Bytes)
    requires Orderly(log, task, kind, payload) && !a.Worked?
    requires Reporting(a) ==> Quiet(log)
    requires log[|log|-1].Attempt? ==> a.Answered? || Over(a)
    requires a.Attempt? ==> a == Attempt(kind, payload, KeyOf(task, kind, payload))
    requires a.Attempt? ==> forall j :: 0 <= j < |log| && log[j].Answered? ==> Temporary(log[j].answer)
    requires a.Answered? ==> a.kind == kind && log[|log|-1].Attempt?
    ensures Orderly(log + [a], task, kind, payload)
    ensures Quiet(log) && !Over(a) ==> Quiet(log + [a])
    ensures Accepting(log + [a], kind) <==> Accepting(log, kind) || a == Answered(kind, Accepted)
  {
    var r := log + [a];
    assert r[|log|] == a && forall i :: 0 <= i < |log| ==> r[i] == log[i];
  }

  // ----- the execution --------------------------------------------------------------------

  datatype ReportOutcome = Acknowledged | Refused | Unserializable | Lost(ended: Ended) | Unfinished

  datatype Mode = Send | Await | Sleep

  function Payload(body: Option<Bytes>): Bytes {
    if body.Some? then body.value else []
  }

  /** Before poll `q` nothing happens that the last action waits for: an attempt waits for its
      answer, an answer for the delay after it. */
  ghost predicate Waits(script: seq<Poll>, p: nat, q: nat, last: Action)
    requires q <= |script|
  {
    forall i :: p < i < q ==> if last.Attempt? then script[i].answer.None? else !script[i].slept
  }

  /** The action `now` at poll `q` is what `was` at poll `p` has waited for. */
  ghost predicate Follows(script: seq<Poll>, p: nat, q: nat, was: Action, now: Action)
    requires q < |script|
  {
    && p < q && Waits(script, p, q, was)
    && if was.Attempt? then now.Answered? && script[q].answer == Some(now.answer)
       else was.Answered? && now.Attempt? && script[q].slept
  }

  /** The report's actions, from position `base` of the log on, happen at the polls `at`: the
      first attempt at once, and each later action at the first poll it can. Up to poll `used`
      the heartbeat goes on. */
  ghost predicate Timely(script: seq<Poll>, start: nat, used: nat, log: seq<Action>, base: nat, at: seq<nat>) {
    && start <= used <= |script| && base + |at| <= |log|
    && (forall i :: start <= i < used ==> script[i].heartbeat.None?)
    && (forall n :: 0 <= n < |at| ==> start <= at[n] < used)
    && (at != [] ==> at[0] == start && log[base].Attempt?)
    && (forall n :: 0 < n < |at| ==> Follows(script, at[n-1], at[n], log[base+n-1], log[base+n]))
  }

  /** And nothing more could have happened before poll `used`. */
  ghost predicate Current(script: seq<Poll>, start: nat, used: nat, log: seq<Action>, base: nat, at: seq<nat>)
    requires Timely(script, start, used, log, base, at)
  {
    if at == [] then used == start else Waits(script, at[|at|-1], used, log[base+|at|-1])
  }

  /** The log is up to date with the polls used, and the mode tells what it waits for. */
  ghost predicate UpToDate(script: seq<Poll>, start: nat, used: nat, log: seq<Action>, base: nat, at: seq<nat>, mode: Mode) {
    && |log| == base + |at| && Timely(script, start, used, log, base, at) && Current(script, start, used, log, base, at)
    && (mode == Send <==> at == [])
    && (mode == Await ==> log[|log|-1].Attempt?)
    && (mode == Sleep ==> log[|log|-1].Answered?)
  }

  /** One more action, at the poll after those used. */
  lemma Act(script: seq<Poll>, start: nat, used: nat, log: seq<Action>, base: nat, at: seq<nat>, mode: Mode, a: Action)
    requires UpToDate(script, start, used, log, base, at, mode)
    requires used < |script| && script[used].heartbeat.None?
    requires mode == Await ==> a.Answered? && script[used].answer == Some(a.answer)
    requires mode != Await ==> a.Attempt? && (mode == Sleep ==> script[used].slept)
    ensures UpToDate(script, start, used + 1, log + [a], base, at + [used], if a.Attempt? then Await else Sleep)
  {
    var log', at' := log + [a], at + [used];
    forall n | 0 < n < |at'| ensures Follows(script, at'[n-1], at'[n], log'[base+n-1], log'[base+n]) {
      if n < |at| { assert Follows(script, at[n-1], at[n], log[base+n-1], log[base+n]); }
    }
  }

  /** A poll at which nothing waited for happens. */
  lemma Idle(script: seq<Poll>, start: nat, used: nat, log: seq<Action>, base: nat, at: seq<nat>, mode: Mode)
    requires UpToDate(script, start, used, log, base, at, mode) && mode != Send
    requires used < |script| && script[used].heartbeat.None?
    requires if mode == Await then script[used].answer.None? else !script[used].slept
    ensures UpToDate(script, start, used + 1, log, base, at, mode)
  {
    hide Follows;
  }

  /** What comes after the report does not matter to it. */
  lemma StillTimely(script: seq<Poll>, start: nat, used: nat, log: seq<Action>, base: nat, at: seq<nat>, more: seq<Action>)
    requires Timely(script, start, used, log, base, at) && Current(script, start, used, log, base, at)
    requires base + |at| == |log|
    ensures Timely(script, start, used, log + more, base, at) && Current(script, start, used, log + more, base, at)
  {
    hide Follows, Waits;
    assert forall i :: 0 <= i < |log| ==> (log + more)[i] == log[i];
    forall n | 0 < n < |at| ensures Follows(script, at[n-1], at[n], (log + more)[base+n-1], (log + more)[base+n]) {
      assert Follows(script, at[n-1], at[n], log[base+n-1], log[base+n]);
    }
  }

  /** A report that is still going on: every answer so far was a temporary failure. */
  ghost predicate Retrying(log: seq<Action>, task: Task, kind: ReportKind, payload: Bytes) {
    && Orderly(log, task, kind, payload) && Quiet(log) && !Accepting(log, kind)
    && forall j :: 0 <= j < |log| && log[j].Answered? ==> Temporary(log[j].answer)
  }

  lemma Begin(task: Task, kind: ReportKind, payload: Bytes, script: seq<Poll>, start: nat, before: seq<Action>)
    requires start <= |script|
    requires before != [] && before[0] == HeartbeatSpawned && Quiet(before)
    requires forall i :: 0 <= i < |before| ==> !Reporting(before[i])
    ensures Retrying(before, task, kind, payload) && UpToDate(script, start, start, before, |before|, [], Send)
  {
  }

  lemma Attempting(log: seq<Action>, task: Task, kind: ReportKind, payload: Bytes)
    requires Retrying(log, task, kind, payload) && !log[|log|-1].Attempt?
    ensures Retrying(log + [Attempt(kind, payload, KeyOf(task, kind, payload))], task, kind, payload)
  {
    hide Orderly, Accepting, Quiet, KeyOf;
    Grow(log, Attempt(kind, payload, KeyOf(task, kind, payload)), task, kind, payload);
  }

  lemma Answering(log: seq<Action>, task: Task, kind: ReportKind, payload: Bytes, answer: Answer)
    requires Retrying(log, task, kind, payload) && log[|log|-1].Attempt?
    ensures var r := log + [Answered(kind, answer)];
            && Orderly(r, task, kind, payload) && Quiet(r) && (Accepting(r, kind) <==> answer == Accepted)
            && (Temporary(answer) ==> Retrying(r, task, kind, payload))
  {
    hide Orderly, Accepting, Quiet, KeyOf;
    Grow(log, Answered(kind, answer), task, kind, payload);
  }

  /** `submit_result` and `fail_task_with_retry` inside their `select!`: the heartbeat is
      polled before the report makes any progress. A body that cannot be serialized is an
      error before the first attempt. The report is given up only for a rejection or a status
      that is neither 429 nor a server error, and it goes on while the heartbeat does. */
  method Report(task: Task, kind: ReportKind, body: Option<Bytes>, script: seq<Poll>, start: nat, before: seq<Action>)
    returns (outcome: ReportOutcome, log: seq<Action>, used: nat, ghost at: seq<nat>)
    requires start <= |script|
    requires before != [] && before[0] == HeartbeatSpawned && Quiet(before)
    requires forall i :: 0 <= i < |before| ==> !Reporting(before[i])
    ensures Orderly(log, task, kind, Payload(body)) && before <= log
    ensures !outcome.Lost? ==> Quiet(log)
    ensures outcome == Acknowledged <==> Accepting(log, kind)
    ensures outcome == Acknowledged ==> log[|log|-1] == Answered(kind, Accepted)
    ensures outcome == Refused ==>
              && log[|log|-1].Answered?
              && var a := log[|log|-1].answer;
                 a == Rejected || (a.HttpError? && a.status != 429 && !(500 <= a.status <= 599))
    ensures outcome == Unserializable ==> body.None? && log == before
    ensures body.None? ==> at == []
    ensures body.None? ==> outcome == Unserializable || outcome.Lost? || outcome == Unfinished
    ensures Timely(script, start, used, log, |before|, at)
    ensures |log| == |before| + |at| + if outcome.Lost? then 2 else 0
    ensures outcome == Unfinished ==> used == |script| && Current(script, start, used, log, |before|, at)
    ensures outcome.Lost? ==>
              && used < |script| && script[used].heartbeat == Some(outcome.ended)
              && Current(script, start, used, log, |before|, at)
              && log[|log|-2] == HeartbeatLost && log[|log|-1] == Cleaned
  {
    hide Orderly, Accepting, Quiet, KeyOf, Timely, Current, Retrying, Waits, Follows;
    log, used, at := before, start, [];
    ghost var payload := Payload(body);
    var mode := Send;
    Begin(task, kind, payload, script, start, before);
    while used < |script|
      invariant before <= log && used <= |script| && Retrying(log, task, kind, payload)
      invariant UpToDate(script, start, used, log, |before|, at, mode)
      invariant body.None? ==> mode == Send
    {
      var poll := script[used];
      if poll.heartbeat.Some? {
        StillTimely(script, start, used, log, |before|, at, [HeartbeatLost, Cleaned]);
        log := LoseLease(log, task, kind, payload);
        return Lost(poll.heartbeat.value), log, used, at;
      }
      if body.None? {
        GoingOn(log, task, kind, payload);
        return Unserializable, log, used, at;
      }
      if mode == Send || (mode == Sleep && poll.slept) {
        var attempt := Attempt(kind, body.value, KeyOf(task, kind, body.value));
        Attempting(log, task, kind, payload);
        Act(script, start, used, log, |before|, at, mode, attempt);
        log, at, mode := log + [attempt], at + [used], Await;
      } else if mode == Await && poll.answer.Some? {
        var answer := poll.answer.value;
        Answering(log, task, kind, payload, answer);
        Act(script, start, used, log, |before|, at, mode, Answered(kind, answer));
        log, at, mode := log + [Answered(kind, answer)], at + [used], Sleep;
        if answer == Accepted { return Acknowledged, log, used + 1, at; }
        if !Retryable(answer) { return Refused, log, used + 1, at; }
      } else {
        Idle(script, start, used, log, |before|, at, mode);
      }
      used := used + 1;
    }
    GoingOn(log, task, kind, payload);
    return Unfinished, log, used, at;
  }

  lemma GoingOn(log: seq<Action>, task: Task, kind: ReportKind, payload: Bytes)
    requires Retrying(log, task, kind, payload)
    ensures Orderly(log, task, kind, payload) && Quiet(log) && !Accepting(log, kind)
  {
  }

  method LoseLease(before: seq<Action>, ghost task: Task, ghost kind: ReportKind, ghost payload: Bytes)
    returns (log: seq<Action>)
    requires Retrying(before, task, kind, payload)
    ensures log == before + [HeartbeatLost, Cleaned]
    ensures Orderly(log, task, kind, payload) && !Accepting(log, kind)
  {
    hide Orderly, Accepting;
    Grow(before, HeartbeatLost, task, kind, payload);
    Grow(before + [HeartbeatLost], Cleaned, task, kind, payload);
    assert before + [HeartbeatLost] + [Cleaned] == before + [HeartbeatLost, Cleaned];
    log := before + [HeartbeatLost, Cleaned];
  }

  /** `stop_lease_heartbeat`: once the terminal report was acknowledged, how the heartbeat ended
      no longer matters. */
  method StopLeaseHeartbeat(terminalAcknowledged: bool, ended: Ended) returns (r: TaskResult)
    ensures r == TaskOk <==> terminalAcknowledged || ended == Stopped
    ensures r.TaskErr? ==> r.error == HeartbeatFailed(ended)
  {
    var result := if ended == Stopped then TaskOk else TaskErr(HeartbeatFailed(ended));
    if terminalAcknowledged { return TaskOk; }
    return result;
  }

  /** The report as `execute_task_inner` sees it: its result, and whether the server acknowledged
      a terminal report. Reporting a failure never makes the task succeed. */
  function Reported(work: Work, outcome: ReportOutcome): (TaskResult, bool) {
    match work
    case Judged(_) => if outcome == Acknowledged then (TaskOk, true) else (TaskErr(NotReported), false)
    case Failed(_) => if outcome == Acknowledged then (TaskErr(WorkFailed(true)), true) else (TaskErr(WorkFailed(false)), false)
  }

  /** The server has answered for good, and not with an acceptance. */
  ghost predicate TurnedDown(log: seq<Action>) {
    exists i :: 0 <= i < |log| && log[i].Answered? && (log[i].answer == Rejected ||
      (log[i].answer.HttpError? && log[i].answer.status != 429 && !(500 <= log[i].answer.status <= 599)))
  }

  ghost predicate NoAttempt(log: seq<Action>) {
    forall i :: 0 <= i < |log| ==> !log[i].Attempt?
  }

  lemma Remains(before: seq<Action>, log: seq<Action>)
    requires before <= log && forall i :: |before| <= i < |log| ==> !log[i].Attempt?
    ensures TurnedDown(before) ==> TurnedDown(log)
    ensures NoAttempt(before) <==> NoAttempt(log)
  {
    assert forall i :: 0 <= i < |before| ==> log[i] == before[i];
  }

  /** The first work that gets done calls for a report of this kind with this body. */
  ghost predicate ReportsWork(script: seq<Poll>, kind: ReportKind, payload: Bytes) {
    exists i :: DoneAt(script, i) && script[i].work.value.body == Some(payload)
                && kind == if script[i].work.value.Judged? then ResultReport else FailReport
  }

  /** The work is done at this poll and not before. */
  ghost predicate DoneAt(script: seq<Poll>, i: int) {
    0 <= i < |script| && script[i].work.Some? && forall j :: 0 <= j < i ==> script[j].work.None?
  }

  ghost predicate HeartbeatEnds(script: seq<Poll>, ended: Ended) {
    exists i :: 0 <= i < |script| && script[i].heartbeat == Some(ended)
  }

  ghost predicate HeartbeatGoesOn(script: seq<Poll>, n: int) {
    forall i :: 0 <= i < n <= |script| ==> script[i].heartbeat.None?
  }

  /** The work, in a `select!` with the heartbeat. */
  method AwaitWork(script: seq<Poll>) returns (work: Option<Work>, i: nat, log: seq<Action>)
    ensures i <= |script| && log != [] && log[0] == HeartbeatSpawned && Quiet(log)
    ensures forall j :: 0 <= j < |log| ==> !Reporting(log[j])
    ensures HeartbeatGoesOn(script, i)
    ensures work.Some? ==> i > 0 && DoneAt(script, i - 1) && script[i-1].work == work
    ensures work.None? ==> forall j :: 0 <= j < i ==> script[j].work.None?
    ensures work.None? && i < |script| ==> script[i].heartbeat.Some?
  {
    log, work, i := [HeartbeatSpawned], None, 0;
    while work.None?
      invariant i <= |script| && log != [] && log[0] == HeartbeatSpawned && Quiet(log)
      invariant forall j :: 0 <= j < |log| ==> !Reporting(log[j])
      invariant HeartbeatGoesOn(script, i)
      invariant work.None? ==> forall j :: 0 <= j < i ==> script[j].work.None?
      invariant work.Some? ==> i > 0 && DoneAt(script, i - 1) && script[i-1].work == work
      decreases |script| - i
    {
      if i == |script| || script[i].heartbeat.Some? { return; }
      log := log + [Worked];
      work := script[i].work;
      i := i + 1;
    }
  }

  /** `execute_task_inner`. In every execution, however the heartbeat ends, it is spawned before
      anything else and outlives the report; all attempts send one report under one key, never
      a result and a failure both, and it is the report of the work done; none begins after the
      heartbeat is found lost; and it returns Ok exactly when the result report was accepted. A
      report is given up only when turned down for good or not serializable, and the execution
      goes on as long as the heartbeat does. */
  method Execute(task: Task, script: seq<Poll>, ended: Ended)
    returns (r: Option<TaskResult>, log: seq<Action>, kind: ReportKind, payload: Bytes)
    ensures Orderly(log, task, kind, payload)
    ensures r.Some? ==> (r.value == TaskOk <==> Accepting(log, ResultReport))
    ensures r.Some? && Accepting(log, FailReport) ==> r.value == TaskErr(WorkFailed(true))
    ensures r.Some? ==> log[|log|-1] == Cleaned
    ensures r.None? ==> Quiet(log)
    ensures !NoAttempt(log) ==> ReportsWork(script, kind, payload)
    ensures r == Some(TaskErr(NotReported)) || r == Some(TaskErr(WorkFailed(false))) ==> TurnedDown(log) || NoAttempt(log)
    ensures r.Some? && r.value.TaskErr? && r.value.error.LeaseLost? ==> HeartbeatEnds(script, r.value.error.ended)
    ensures r.None? ==> HeartbeatGoesOn(script, |script|)
    ensures r.None? && NoAttempt(log) ==> forall i :: 0 <= i < |script| - 1 ==> script[i].work.None?
  {
    hide Orderly, OrderlyRetries, HeartbeatOutlives, SameReport, Accepting, Quiet;
    kind, payload := ResultReport, [];
    var work, i;
    work, i, log := AwaitWork(script);
    Begin(task, kind, payload, script, i, log);
    GoingOn(log, task, kind, payload);
    if work.None? {
      if i == |script| { return None, log, kind, payload; }
      log := LoseLease(log, task, kind, payload);
      OneKind(log, task, kind, payload);
      return Some(TaskErr(LeaseLost(script[i].heartbeat.value))), log, kind, payload;
    }
    kind := if work.value.Judged? then ResultReport else FailReport;
    payload := Payload(work.value.body);
    var outcome, used;
    ghost var at;
    ghost var worked := log;
    outcome, log, used, at := Report(task, kind, work.value.body, script, i, log);
    Said(script, i, used, worked, log, at, outcome, work.value);
    if outcome == Unfinished { return None, log, kind, payload; }
    OneKind(log, task, kind, payload);
    if outcome.Lost? { return Some(TaskErr(LeaseLost(outcome.ended))), log, kind, payload; }
    var (report, terminalAcknowledged) := Reported(work.value, outcome);
    ghost var said := log;
    log := WindUp(log, ended, task, kind, payload);
    Remains(said, log);
    var stopped := StopLeaseHeartbeat(terminalAcknowledged, ended);
    if report.TaskErr? { return Some(report), log, kind, payload; }
    return Some(stopped), log, kind, payload;
  }

  /** What the outcome of a report tells about the execution. */
  lemma Said(script: seq<Poll>, start: nat, used: nat, before: seq<Action>, log: seq<Action>, at: seq<nat>,
             outcome: ReportOutcome, work: Work)
    requires 0 < start <= |script| && HeartbeatGoesOn(script, start) && DoneAt(script, start - 1) && script[start-1].work == Some(work)
    requires before <= log && forall j :: 0 <= j < |before| ==> !Reporting(before[j])
    requires Timely(script, start, used, log, |before|, at) && (work.body.None? ==> at == [])
    requires |log| == |before| + |at| + if outcome.Lost? then 2 else 0
    requires outcome == Unfinished ==> used == |script| && Current(script, start, used, log, |before|, at)
    requires outcome.Lost? ==> log[|log|-1] == Cleaned && log[|log|-2] == HeartbeatLost
    ensures !NoAttempt(log) ==>
              ReportsWork(script, if work.Judged? then ResultReport else FailReport, Payload(work.body))
    ensures outcome == Unfinished ==> HeartbeatGoesOn(script, |script|)
    ensures outcome == Unfinished && NoAttempt(log) ==> start == |script|
    ensures at == [] ==> NoAttempt(log)
  {
    hide Follows, Waits;
    assert forall j :: 0 <= j < |before| ==> log[j] == before[j];
    if work.body.Some? { assert DoneAt(script, start - 1); }
  }

  /** A log of one report holds no answer to the other kind. */
  lemma OneKind(log: seq<Action>, task: Task, kind: ReportKind, payload: Bytes)
    requires Orderly(log, task, kind, payload)
    ensures forall k :: k != kind ==> !Accepting(log, k)
  {
  }

  /** The heartbeat is told to stop and joined, and the directory removed. */
  method WindUp(before: seq<Action>, ended: Ended, ghost task: Task, ghost kind: ReportKind, ghost payload: Bytes)
    returns (log: seq<Action>)
    requires Orderly(before, task, kind, payload) && !before[|before|-1].Attempt?
    ensures Orderly(log, task, kind, payload)
    ensures forall k :: Accepting(log, k) <==> Accepting(before, k)
    ensures log == before + [StopSent, HeartbeatJoined(ended), Cleaned]
  {
    log := before + [StopSent, HeartbeatJoined(ended), Cleaned];
    assert forall i :: 0 <= i < |before| ==> log[i] == before[i];
    assert before + [StopSent] + [HeartbeatJoined(ended)] + [Cleaned] == log;
    Grow(before, StopSent, task, kind, payload);
    Grow(before + [StopSent], HeartbeatJoined(ended), task, kind, payload);
    Grow(before + [StopSent] + [HeartbeatJoined(ended)], Cleaned, task, kind, payload);
  }

  // ----- timing ---------------------------------------------------------------------------

  const MIN_DELAY := 0.010   // seconds

  function Min(a: real, b: real): real { if a <= b then a else b }

  function Max(a: real, b: real): real { if a >= b then a else b }

  /** `lease_heartbeat_delay`: a third of the configured or of the remaining lease time,
      whichever is less, but no less than ten milliseconds. */
  function HeartbeatDelay(configuredTtl: real, remaining: Option<real>): real {
    var configured := configuredTtl / 3.0;
    var server := if remaining.Some? && remaining.value >= 0.0 then remaining.value / 3.0 else configured;
    Max(Min(configured, server), MIN_DELAY)
  }

  /** The delay is a third of the configured or of the remaining lease time, no more than either,
      unless that is less than ten milliseconds. */
  lemma DelayIsTheLeast(configuredTtl: real, remaining: Option<real>)
    ensures var delay := HeartbeatDelay(configuredTtl, remaining);
            var known := remaining.Some? && remaining.value >= 0.0;
            && delay >= 0.010
            && (delay > 0.010 ==> delay == configuredTtl / 3.0 || (known && delay == remaining.value / 3.0))
            && (delay > 0.010 ==> delay <= configuredTtl / 3.0 && (known ==> delay <= remaining.value / 3.0))
            && (delay == 0.010 ==> configuredTtl / 3.0 <= 0.010 || (known && remaining.value / 3.0 <= 0.010))
  {
  }

  /** The delay leaves two thirds of the lease exactly while thirty milliseconds remain. */
  lemma DelayLeavesTwoThirds(configuredTtl: real, remaining: real)
    requires remaining >= 0.0
    ensures HeartbeatDelay(configuredTtl, Some(remaining)) <= remaining / 3.0 <==> remaining >= 0.030
  {
  }

  /** One heartbeat: how long until its answer arrived, and the expiry it granted, if any. */
  datatype Beat = Beat(roundTrip: real, expiry: Option<real>)

  /** Each answer grants a lease with at least thirty milliseconds left, and arrives within
      two thirds of what was left when its heartbeat was scheduled. */
  ghost predicate Prompt(configuredTtl: real, now: real, expiry: real, first: bool, beats: seq<Beat>)
    decreases |beats|
  {
    beats == [] ||
    var b := beats[0];
    var arrival := now + (if first then 0.0 else HeartbeatDelay(configuredTtl, Some(expiry - now))) + b.roundTrip;
    && 0.0 <= b.roundTrip < (expiry - now) * 2.0 / 3.0
    && b.expiry.Some? && b.expiry.value >= arrival + 0.030
    && Prompt(configuredTtl, arrival, b.expiry.value, false, beats[1..])
  }

  /** The answers so far: each before the lease expired, and each heartbeat sent as long after the
      answer before it as the delay says. */
  ghost predicate Beaten(configuredTtl: real, start: real, beats: seq<Beat>, times: seq<real>, expiries: seq<real>) {
    && |times| <= |beats| && |expiries| == |times| + 1
    && (forall i :: 0 <= i < |times| ==> times[i] < expiries[i] && Some(expiries[i+1]) == beats[i].expiry)
    && (times != [] ==> times[0] == start + beats[0].roundTrip)
    && (forall i :: 0 < i < |times| ==>
          && times[i-1] <= times[i]
          && times[i] == times[i-1] + HeartbeatDelay(configuredTtl, Some(expiries[i] - times[i-1])) + beats[i].roundTrip)
  }

  /** `lease_heartbeat_loop` against a prompt server: at every answer the lease is still
      unexpired, so it never lapses. */
  method HeartbeatLoop(configuredTtl: real, start: real, leaseExpiry: real, beats: seq<Beat>)
    returns (times: seq<real>, expiries: seq<real>)
    requires leaseExpiry - start >= 0.030
    requires Prompt(configuredTtl, start, leaseExpiry, true, beats)
    ensures |times| == |beats| && Beaten(configuredTtl, start, beats, times, expiries) && expiries[0] == leaseExpiry
  {
    hide HeartbeatDelay, Prompt, Beaten;
    var now, expiry, first := start, leaseExpiry, true;
    times, expiries := [], [leaseExpiry];
    NoBeat(configuredTtl, start, beats, leaseExpiry);
    for i := 0 to |beats|
      invariant expiry - now >= 0.030 && Prompt(configuredTtl, now, expiry, first, beats[i..])
      invariant |times| == i && |expiries| == i + 1 && expiries[0] == leaseExpiry && expiries[i] == expiry
      invariant if i > 0 then times[i-1] == now && !first else now == start && first
      invariant Beaten(configuredTtl, start, beats, times, expiries)
    {
      assert beats[i..][0] == beats[i] && beats[i..][1..] == beats[i+1..];
      BeatInTime(configuredTtl, now, expiry, first, beats[i..]);
      var delay := if first then 0.0 else HeartbeatDelay(configuredTtl, Some(expiry - now));
      now := now + delay + beats[i].roundTrip;
      OneMoreBeat(configuredTtl, start, beats, times, expiries, now, beats[i].expiry.value);
      times := times + [now];
      first := false;
      if beats[i].expiry.Some? { expiry := beats[i].expiry.value; }
      expiries := expiries + [expiry];
    }
  }

  lemma NoBeat(configuredTtl: real, start: real, beats: seq<Beat>, leaseExpiry: real)
    ensures Beaten(configuredTtl, start, beats, [], [leaseExpiry])
  {
  }

  /** The next answer of a prompt server comes before the lease expires and renews it. */
  lemma BeatInTime(configuredTtl: real, now: real, expiry: real, first: bool, beats: seq<Beat>)
    requires beats != [] && expiry - now >= 0.030 && Prompt(configuredTtl, now, expiry, first, beats)
    ensures var arrival := now + (if first then 0.0 else HeartbeatDelay(configuredTtl, Some(expiry - now))) + beats[0].roundTrip;
            && now <= arrival < expiry
            && beats[0].expiry.Some? && beats[0].expiry.value - arrival >= 0.030
            && Prompt(configuredTtl, arrival, beats[0].expiry.value, false, beats[1..])
  {
    DelayLeavesTwoThirds(configuredTtl, expiry - now);
    DelayIsTheLeast(configuredTtl, Some(expiry - now));
    hide HeartbeatDelay;
  }

  lemma OneMoreBeat(configuredTtl: real, start: real, beats: seq<Beat>, times: seq<real>, expiries: seq<real>, now: real, expiry: real)
    requires Beaten(configuredTtl, start, beats, times, expiries) && |times| < |beats|
    requires now < expiries[|times|] && Some(expiry) == beats[|times|].expiry
    requires times == [] ==> now == start + beats[0].roundTrip
    requires times != [] ==>
               var last := times[|times|-1];
               last <= now && now == last + HeartbeatDelay(configuredTtl, Some(expiries[|times|] - last)) + beats[|times|].roundTrip
    ensures Beaten(configuredTtl, start, beats, times + [now], expiries + [expiry])
  {
    hide HeartbeatDelay;
  }

  /** With less than thirty milliseconds left the ten millisecond floor wins, and an answer
      within two thirds of the rest can come too late. */
  lemma ShortLeaseCanLapse()
    ensures HeartbeatDelay(60.0, Some(0.015)) + 0.009 > 0.015 && 0.009 < 0.015 * 2.0 / 3.0
  {
  }
}
