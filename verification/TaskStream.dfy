/** The claim cycle of services/judge-worker/src/worker_link.rs: entries are read from a Redis
    stream, tasks are claimed over HTTP, and entries are acknowledged afterwards. Redis and the
    judge API answer as a script says, and every script is allowed. */
module TaskStream {
  import opened Basics

  datatype Entry = Entry(entryId: string, taskId: Option<string>, traceparent: Option<string>)

  datatype Lease = Lease(taskId: string, traceparent: Option<string>)

  /** One answer of the environment per question asked in a cycle. */
  datatype Cycle = Cycle(
    slots: nat,                      // free execution slots
    arriving: seq<Entry>,            // what a stream read returns, perhaps nothing
    claim: Option<seq<Lease>>,       // what claiming returns, nothing for an error
    acknowledged: bool)              // whether the acknowledgement succeeds

  datatype Action =
    | Read(entries: seq<Entry>)
    | Claim(taskIds: seq<string>, ok: bool)
    | Ack(entries: seq<Entry>, ok: bool)

  /** `stream_task_ids`. */
  function TaskIds(entries: seq<Entry>): seq<string> {
    if entries == [] then []
    else (if entries[0].taskId.Some? then [entries[0].taskId.value] else []) + TaskIds(entries[1..])
  }

  /** Every entry read so far, in order. */
  function AllRead(log: seq<Action>): seq<Entry> {
    if log == [] then [] else
      AllRead(log[..|log|-1]) + (if log[|log|-1].Read? then log[|log|-1].entries else [])
  }

  /** Every entry whose acknowledgement succeeded so far, in order. */
  function AllAcked(log: seq<Action>): seq<Entry> {
    if log == [] then [] else
      AllAcked(log[..|log|-1]) + (if log[|log|-1].Ack? && log[|log|-1].ok then log[|log|-1].entries else [])
  }

  /** Whether each claim so far succeeded, in order. */
  function Claims(log: seq<Action>): seq<bool> {
    if log == [] then [] else
      Claims(log[..|log|-1]) + (if log[|log|-1].Claim? then [log[|log|-1].ok] else [])
  }

  /** One claim for every cycle with a free slot. */
  function ClaimsDue(cycles: seq<Cycle>): seq<bool> {
    if cycles == [] then [] else
      var last := cycles[|cycles|-1];
      ClaimsDue(cycles[..|cycles|-1]) + (if last.slots > 0 then [last.claim.Some?] else [])
  }

  function LeaseIds(leases: seq<Lease>): seq<string> {
    seq(|leases|, i requires 0 <= i < |leases| => leases[i].taskId)
  }

  /** The task ids of every lease that a claim in a cycle with a free slot returns. */
  function TasksDue(cycles: seq<Cycle>): seq<string> {
    if cycles == [] then [] else
      var last := cycles[|cycles|-1];
      TasksDue(cycles[..|cycles|-1]) + (if last.slots > 0 && last.claim.Some? then LeaseIds(last.claim.value) else [])
  }

  /** Entries are acknowledged only right after a successful claim that carried exactly the
      task ids of those entries. */
  ghost predicate AckFollowsClaim(log: seq<Action>) {
    forall k :: 0 <= k < |log| && log[k].Ack? ==> k > 0 && log[k-1] == Claim(TaskIds(log[k].entries), true)
  }

  /** When a read returns something, every entry read before is already acknowledged. */
  ghost predicate ReadsOnlyWhenIdle(log: seq<Action>) {
    forall k :: 0 <= k < |log| && log[k].Read? ==> AllRead(log[..k]) == AllAcked(log[..k])
  }

  /** A claim names the tasks of everything that is pending. */
  ghost predicate ClaimsCoverPending(log: seq<Action>) {
    forall k :: 0 <= k < |log| && log[k].Claim? ==>
      |AllAcked(log[..k])| <= |AllRead(log[..k])|
      && log[k].taskIds == TaskIds(AllRead(log[..k])[|AllAcked(log[..k])|..])
  }

  /** Nothing is lost and nothing is invented: what was read is what was acknowledged,
      followed by what is pending. */
  ghost predicate Conserved(log: seq<Action>, pending: seq<Entry>) {
    AllRead(log) == AllAcked(log) + pending
  }

  ghost predicate AtLeastOnce(log: seq<Action>, pending: seq<Entry>) {
    Conserved(log, pending) && AckFollowsClaim(log) && ReadsOnlyWhenIdle(log) && ClaimsCoverPending(log)
  }

  function Append(log: seq<Action>, a: Action): (r: seq<Action>)
    ensures |r| == |log| + 1 && r[..|log|] == log && r[|log|] == a
  {
    log + [a]
  }

  lemma Earlier(log: seq<Action>, a: Action, k: nat)
    requires k < |log|
    ensures Append(log, a)[k] == log[k] && Append(log, a)[..k] == log[..k]
  {
  }

  lemma ExtendTotals(log: seq<Action>, a: Action)
    ensures AllRead(Append(log, a)) == AllRead(log) + (if a.Read? then a.entries else [])
    ensures AllAcked(Append(log, a)) == AllAcked(log) + (if a.Ack? && a.ok then a.entries else [])
    ensures Claims(Append(log, a)) == Claims(log) + (if a.Claim? then [a.ok] else [])
  {
    var r := Append(log, a);
    assert r[..|r|-1] == log && r[|r|-1] == a;
  }

  lemma ExtendAcks(log: seq<Action>, a: Action)
    requires AckFollowsClaim(log)
    requires a.Ack? ==> log != [] && log[|log|-1] == Claim(TaskIds(a.entries), true)
    ensures AckFollowsClaim(Append(log, a))
  {
    hide TaskIds;
    var r := Append(log, a);
    forall k | 0 <= k < |r| && r[k].Ack? ensures k > 0 && r[k-1] == Claim(TaskIds(r[k].entries), true) {
      if k < |log| { Earlier(log, a, k); }
      if 0 < k { Earlier(log, a, k - 1); }
    }
  }

  lemma ExtendReads(log: seq<Action>, a: Action)
    requires ReadsOnlyWhenIdle(log)
    requires a.Read? ==> AllRead(log) == AllAcked(log)
    ensures ReadsOnlyWhenIdle(Append(log, a))
  {
    hide AllRead, AllAcked;
    var r := Append(log, a);
    forall k | 0 <= k < |r| && r[k].Read? ensures AllRead(r[..k]) == AllAcked(r[..k]) {
      if k < |log| { Earlier(log, a, k); }
    }
  }

  lemma ExtendClaims(log: seq<Action>, a: Action)
    requires ClaimsCoverPending(log)
    requires a.Claim? ==> |AllAcked(log)| <= |AllRead(log)| && a.taskIds == TaskIds(AllRead(log)[|AllAcked(log)|..])
    ensures ClaimsCoverPending(Append(log, a))
  {
    hide AllRead, AllAcked, TaskIds;
    var r := Append(log, a);
    forall k | 0 <= k < |r| && r[k].Claim?
      ensures |AllAcked(r[..k])| <= |AllRead(r[..k])| && r[k].taskIds == TaskIds(AllRead(r[..k])[|AllAcked(r[..k])|..])
    {
      if k < |log| { Earlier(log, a, k); }
    }
  }

  /** One more action keeps what holds of all earlier positions. */
  lemma Extend(log: seq<Action>, a: Action)
    requires AckFollowsClaim(log) && ReadsOnlyWhenIdle(log) && ClaimsCoverPending(log)
    requires a.Ack? ==> log != [] && log[|log|-1] == Claim(TaskIds(a.entries), true)
    requires a.Read? ==> AllRead(log) == AllAcked(log)
    requires a.Claim? ==> |AllAcked(log)| <= |AllRead(log)| && a.taskIds == TaskIds(AllRead(log)[|AllAcked(log)|..])
    ensures var r := Append(log, a);
            && AckFollowsClaim(r) && ReadsOnlyWhenIdle(r) && ClaimsCoverPending(r)
            && AllRead(r) == AllRead(log) + (if a.Read? then a.entries else [])
            && AllAcked(r) == AllAcked(log) + (if a.Ack? && a.ok then a.entries else [])
            && Claims(r) == Claims(log) + (if a.Claim? then [a.ok] else [])
  {
    hide AckFollowsClaim, ReadsOnlyWhenIdle, ClaimsCoverPending, AllRead, AllAcked, Claims, TaskIds;
    ExtendTotals(log, a);
    ExtendAcks(log, a);
    ExtendReads(log, a);
    ExtendClaims(log, a);
  }

  class WorkerLink {
    var pending: seq<Entry>
    /** Without Redis the claim itself waits, and no stream is read. */
    const longPoll: bool
    ghost var log: seq<Action>

    constructor (longPoll: bool)
      ensures pending == [] && log == [] && this.longPoll == longPoll
    {
      this.longPoll, pending, log := longPoll, [], [];
    }

    ghost predicate Valid()
      reads this
    {
      AtLeastOnce(log, pending)
    }

    /** `acknowledge_pending_task_events`. */
    method AcknowledgePending(succeeds: bool) returns (ok: bool)
      requires Valid() && log != [] && log[|log|-1] == Claim(TaskIds(pending), true)
      modifies this
      ensures Valid()
      ensures log == old(log) + if old(pending) == [] then [] else [Ack(old(pending), succeeds)]
      ensures Claims(log) == Claims(old(log))
      ensures ok <==> old(pending) == [] || succeeds
      ensures pending == if ok then [] else old(pending)
    {
      hide AckFollowsClaim, ReadsOnlyWhenIdle, ClaimsCoverPending, AllRead, AllAcked, Claims, TaskIds;
      if pending == [] { return true; }
      Extend(log, Ack(pending, succeeds));
      log := Append(log, Ack(pending, succeeds));
      if !succeeds { return false; }
      pending := [];
      return true;
    }

    method WaitForTaskEvent(arriving: seq<Entry>)
      requires Valid()
      modifies this
      ensures Valid() && Claims(log) == Claims(old(log))
      ensures log == old(log) + if !longPoll && old(pending) == [] then [Read(arriving)] else []
      ensures pending == if !longPoll && old(pending) == [] then arriving else old(pending)
    {
      if !longPoll && pending == [] {
        Extend(log, Read(arriving));
        log := Append(log, Read(arriving));
        pending := arriving;
      }
    }

    method ClaimTasks(answer: Option<seq<Lease>>) returns (leases: Option<seq<Lease>>)
      requires Valid()
      modifies this`log
      ensures Valid() && leases == answer && log == old(log) + [Claim(TaskIds(pending), answer.Some?)]
      ensures Claims(log) == Claims(old(log)) + [answer.Some?]
    {
      assert AllRead(log)[|AllAcked(log)|..] == pending;
      Extend(log, Claim(TaskIds(pending), answer.Some?));
      log := Append(log, Claim(TaskIds(pending), answer.Some?));
      return answer;
    }

    /** `claim_task_cycle`. A task without its own trace context inherits the one of its
        stream entry. */
    method ClaimTaskCycle(c: Cycle) returns (tasks: Option<seq<Lease>>)
      requires Valid()
      modifies this
      ensures Valid() && Claims(log) == Claims(old(log)) + [c.claim.Some?]
      ensures var waiting := if !longPoll && old(pending) == [] then c.arriving else old(pending);
              && log == old(log) + (if !longPoll && old(pending) == [] then [Read(c.arriving)] else [])
                        + [Claim(TaskIds(waiting), c.claim.Some?)]
                        + (if c.claim.Some? && waiting != [] then [Ack(waiting, c.acknowledged)] else [])
              && pending == (if c.claim.Some? && c.acknowledged then [] else waiting)
              && (tasks.Some? <==> c.claim.Some?)
              && (tasks.Some? ==> |tasks.value| == |c.claim.value|)
              && (tasks.Some? ==> forall k :: 0 <= k < |tasks.value| ==> tasks.value[k] == Traced(c.claim.value[k], waiting))
    {
      hide AtLeastOnce, Claims, TaskIds;
      WaitForTaskEvent(c.arriving);
      tasks := ClaimTasks(c.claim);
      if tasks.None? { return; }
      var traced := [];
      for k := 0 to |tasks.value|
        invariant |traced| == k
        invariant forall j :: 0 <= j < k ==> traced[j] == Traced(tasks.value[j], pending)
      {
        traced := traced + [Traced(tasks.value[k], pending)];
      }
      var acknowledged := AcknowledgePending(c.acknowledged);
      return Some(traced);
    }

    /** `run_worker_link`: cycles forever; any finite prefix of that. Every entry ever read is
        acknowledged or still pending, is acknowledged only after a claim that carried its
        task id, and no entry is read while another one is pending. Every cycle with a free slot
        claims once, no other does, and every task claimed is started, in order. */
    method Run(cycles: seq<Cycle>) returns (started: seq<Lease>)
      requires Valid()
      modifies this
      ensures Valid()
      ensures old(log) <= log
      ensures Claims(log) == Claims(old(log)) + ClaimsDue(cycles)
      ensures LeaseIds(started) == TasksDue(cycles)
      ensures Clears(cycles) ==> pending == []
      ensures (forall i :: 0 <= i < |cycles| ==> cycles[i].slots == 0) ==> pending == old(pending) && log == old(log)
    {
      hide AtLeastOnce, Claims, ClaimsDue, TasksDue, LeaseIds, Clears, TaskIds;
      NothingDue();
      started := [];
      for i := 0 to |cycles|
        invariant Valid() && old(log) <= log
        invariant Claims(log) == Claims(old(log)) + ClaimsDue(cycles[..i])
        invariant LeaseIds(started) == TasksDue(cycles[..i])
        invariant Clears(cycles[..i]) ==> pending == []
        invariant (forall k :: 0 <= k < i ==> cycles[k].slots == 0) ==> pending == old(pending) && log == old(log)
      {
        MoreDue(cycles, i);
        if cycles[i].slots != 0 {
          var tasks := ClaimTaskCycle(cycles[i]);
          if tasks.Some? {
            Started(started, tasks.value, cycles[i].claim.value);
            started := started + tasks.value;
          }
        }
      }
      assert cycles[..|cycles|] == cycles;
    }
  }

  /** In the latest cycle with a free slot, claim and acknowledgement succeed. */
  ghost predicate Clears(cycles: seq<Cycle>) {
    cycles != [] &&
    var last := cycles[|cycles|-1];
    if last.slots > 0 then last.claim.Some? && last.acknowledged else Clears(cycles[..|cycles|-1])
  }

  lemma NothingDue()
    ensures ClaimsDue([]) == [] && TasksDue([]) == [] && LeaseIds([]) == [] && !Clears([])
  {
  }

  lemma MoreDue(cycles: seq<Cycle>, i: nat)
    requires i < |cycles|
    ensures var c := cycles[i];
            && ClaimsDue(cycles[..i+1]) == ClaimsDue(cycles[..i]) + (if c.slots > 0 then [c.claim.Some?] else [])
            && TasksDue(cycles[..i+1]) ==
               TasksDue(cycles[..i]) + (if c.slots > 0 && c.claim.Some? then LeaseIds(c.claim.value) else [])
            && (Clears(cycles[..i+1]) <==> if c.slots > 0 then c.claim.Some? && c.acknowledged else Clears(cycles[..i]))
  {
    hide LeaseIds;
    var done, next := cycles[..i], cycles[..i+1];
    assert next[..|next|-1] == done && next[|next|-1] == cycles[i];
  }

  lemma Started(before: seq<Lease>, tasks: seq<Lease>, claimed: seq<Lease>)
    requires |tasks| == |claimed| && forall k :: 0 <= k < |tasks| ==> tasks[k].taskId == claimed[k].taskId
    ensures LeaseIds(before + tasks) == LeaseIds(before) + LeaseIds(claimed)
  {
  }

  /** `traceparents_by_task_id`: the last entry with that task id that has a trace context. */
  function TraceOf(taskId: string, entries: seq<Entry>): Option<string> {
    if entries == [] then None
    else
      var last := entries[|entries|-1];
      if last.taskId == Some(taskId) && last.traceparent.Some? then last.traceparent
      else TraceOf(taskId, entries[..|entries|-1])
  }

  function Traced(lease: Lease, entries: seq<Entry>): Lease {
    if lease.traceparent.Some? then lease else lease.(traceparent := TraceOf(lease.taskId, entries))
  }

  /** A task keeps its own trace context, or has the one of the latest entry for it that has any. */
  lemma {:induction false} TraceIsTheLatest(lease: Lease, entries: seq<Entry>)
    ensures var traced := Traced(lease, entries);
            && traced.taskId == lease.taskId
            && (lease.traceparent.Some? ==> traced == lease)
            && (lease.traceparent.None? && traced.traceparent.None? ==>
                  forall e :: e in entries ==> e.taskId != Some(lease.taskId) || e.traceparent.None?)
            && (lease.traceparent.None? && traced.traceparent.Some? ==>
                  exists i :: 0 <= i < |entries| && entries[i] == Entry(entries[i].entryId, Some(lease.taskId), traced.traceparent)
                              && forall j :: i < j < |entries| ==> entries[j].taskId != Some(lease.taskId) || entries[j].traceparent.None?)
    decreases |entries|
  {
    if entries != [] && lease.traceparent.None? {
      var n := |entries| - 1;
      if entries[n].taskId == Some(lease.taskId) && entries[n].traceparent.Some? {
        assert entries[n] == Entry(entries[n].entryId, Some(lease.taskId), Traced(lease, entries).traceparent);
      } else {
        TraceIsTheLatest(lease, entries[..n]);
        assert forall i :: 0 <= i < n ==> entries[..n][i] == entries[i];
        assert entries == entries[..n] + [entries[n]];
      }
    }
  }

  /** The ids of a claim are those of the entries, in order. */
  lemma {:induction false} TaskIdsInOrder(entries: seq<Entry>, e: Entry)
    ensures TaskIds(entries + [e]) == TaskIds(entries) + if e.taskId.Some? then [e.taskId.value] else []
  {
    if entries == [] {
      assert entries + [e] == [e] && [e][1..] == [];
    } else {
      assert (entries + [e])[0] == entries[0] && (entries + [e])[1..] == entries[1..] + [e];
      TaskIdsInOrder(entries[1..], e);
    }
  }

  /** They are the ids of all entries and no others. */
  lemma {:induction false} TaskIdsOfEntries(entries: seq<Entry>, id: string)
    ensures id in TaskIds(entries) <==> exists e :: e in entries && e.taskId == Some(id)
  {
    if entries != [] {
      TaskIdsOfEntries(entries[1..], id);
      assert entries == [entries[0]] + entries[1..];
      assert forall e :: e in entries <==> e == entries[0] || e in entries[1..];
    }
  }

  /** So an entry whose task was never claimed is still pending after any run: it cannot have
      been acknowledged. */
  lemma AckedTasksWereClaimed(log: seq<Action>, pending: seq<Entry>, e: Entry)
    requires AtLeastOnce(log, pending) && e in AllAcked(log) && e.taskId.Some?
    ensures exists k :: 0 <= k < |log| && log[k].Claim? && log[k].ok && e.taskId.value in log[k].taskIds
  {
    var k := AckOf(log, e);
    TaskIdsOfEntries(log[k].entries, e.taskId.value);
    assert log[k-1].Claim? && log[k-1].ok && e.taskId.value in log[k-1].taskIds;
  }

  lemma {:induction false} AckOf(log: seq<Action>, e: Entry) returns (k: nat)
    requires e in AllAcked(log)
    ensures k < |log| && log[k].Ack? && log[k].ok && e in log[k].entries
    decreases |log|
  {
    var n := |log| - 1;
    if log[n].Ack? && log[n].ok && e in log[n].entries {
      k := n;
    } else {
      k := AckOf(log[..n], e);
    }
  }
}
