/** The job table: numbering, the current job, polling of background jobs. */
module Jobs {
  import opened Text
  import opened Kernel

  datatype Status = Running | Stopped | Done | Terminated

  datatype Job = Job(group: Pid, command: string, pids: seq<Pid>, status: Status, lastStatus: int, background: bool)
  {
    predicate Alive() { status == Running || status == Stopped }
  }

  /** The exit status that PySH reports for a raw wait status. */
  function ExitStatus(raw: Raw): int {
    match raw
    case Exited(code) => code
    case Signaled(signal) => 128 + signal
    case Unclassified => 1
  }

  // ---------------------------------------------------------- abstract tables

  /** The contents of a job table. */
  datatype Contents = Contents(jobs: map<nat, Job>, nextId: nat, current: Option<nat>)

  const EMPTY: Contents := Contents(map[], 1, None)

  function Add(t: Contents, job: Job): Contents {
    Contents(t.jobs[t.nextId := job], t.nextId + 1, Some(t.nextId))
  }

  function Update(t: Contents, id: nat, job: Job): Contents
    requires id in t.jobs
  {
    t.(jobs := t.jobs[id := job])
  }

  function RemoveDone(t: Contents): Contents {
    var left := map id | id in t.jobs && t.jobs[id].Alive() :: t.jobs[id];
    Contents(left, t.nextId, if t.current.Some? && t.current.value !in left then None else t.current)
  }

  /** Every way in which the shell changes its table. */
  datatype Change = AddJob(job: Job) | UpdateJob(id: nat, job: Job) | RemoveDoneJobs

  function Apply(t: Contents, c: Change): Contents {
    match c
    case AddJob(job) => Add(t, job)
    case UpdateJob(id, job) => if id in t.jobs then Update(t, id, job) else t
    case RemoveDoneJobs => RemoveDone(t)
  }

  function ApplyAll(t: Contents, cs: seq<Change>): Contents
    decreases |cs|
  {
    if cs == [] then t else ApplyAll(Apply(t, cs[0]), cs[1..])
  }

  /** Ids are below the next id, and the current job is the one with the greatest id, or none. */
  ghost predicate Numbered(t: Contents) {
    && (forall id :: id in t.jobs ==> 0 < id < t.nextId)
    && (t.current.Some? ==> t.current.value in t.jobs && forall id :: id in t.jobs ==> id <= t.current.value)
    && t.nextId > 0
  }

  ghost predicate GreatestAlive(t: Contents, r: Option<nat>) {
    match r
    case None => forall id :: id in t.jobs ==> !t.jobs[id].Alive()
    case Some(best) =>
      && best in t.jobs && t.jobs[best].Alive()
      && forall id :: id in t.jobs && t.jobs[id].Alive() ==> id <= best
  }

  lemma NumberedStep(t: Contents, c: Change)
    requires Numbered(t)
    ensures Numbered(Apply(t, c)) && t.nextId <= Apply(t, c).nextId
    ensures forall id :: id in Apply(t, c).jobs && id !in t.jobs ==> id >= t.nextId
  {
  }

  /** Whatever the shell does, ids stay unique, grow, and an id that was given up never comes back. */
  lemma {:induction false} NumberedAlways(cs: seq<Change>, i: nat)
    requires i <= |cs|
    ensures var t, t' := ApplyAll(EMPTY, cs[..i]), ApplyAll(EMPTY, cs);
            && Numbered(t) && Numbered(t') && t.nextId <= t'.nextId
            && forall id :: id < t.nextId && id !in t.jobs ==> id !in t'.jobs
  {
    NumberedFrom(EMPTY, cs[..i]);
    var t := ApplyAll(EMPTY, cs[..i]);
    NumberedFrom(t, cs[i..]);
    assert cs == cs[..i] + cs[i..];
    ApplyAllSplit(EMPTY, cs[..i], cs[i..]);
  }

  lemma {:induction false} NumberedFrom(t: Contents, cs: seq<Change>)
    requires Numbered(t)
    ensures Numbered(ApplyAll(t, cs)) && t.nextId <= ApplyAll(t, cs).nextId
    ensures forall id :: id < t.nextId && id !in t.jobs ==> id !in ApplyAll(t, cs).jobs
    decreases |cs|
  {
    if cs != [] {
      NumberedStep(t, cs[0]);
      NumberedFrom(Apply(t, cs[0]), cs[1..]);
    }
  }

  lemma {:induction false} ApplyAllSplit(t: Contents, a: seq<Change>, b: seq<Change>)
    ensures ApplyAll(t, a + b) == ApplyAll(ApplyAll(t, a), b)
    decreases |a|
  {
    if a == [] {
      assert a + b == b;
    } else {
      assert (a + b)[1..] == a[1..] + b;
      ApplyAllSplit(Apply(t, a[0]), a[1..], b);
    }
  }

  /** The id that `jobs` marks with `+`: the stored one, whether or not its job is alive. */
  function Marked(t: Contents): Option<nat> { t.current }

  /**
   * The mark in the listing and the job that `fg` would take agree exactly when the marked job is
   * alive, or when nothing is marked and nothing is alive.
   */
  lemma MarkAgrees(t: Contents, r: Option<nat>)
    requires Numbered(t) && GreatestAlive(t, r)
    ensures Marked(t) == r <==>
            if t.current.Some? then t.jobs[t.current.value].Alive() else forall id :: id in t.jobs ==> !t.jobs[id].Alive()
  {
  }

  /** They differ after two jobs were added and the second one has ended but was not removed yet. */
  lemma MarkDiffers(a: Job, b: Job)
    requires a.Alive()
    ensures var t := ApplyAll(EMPTY, [AddJob(a), AddJob(b), UpdateJob(2, b.(status := Done))]);
            Numbered(t) && Marked(t) == Some(2) && GreatestAlive(t, Some(1))
  {
    var cs := [AddJob(a), AddJob(b), UpdateJob(2, b.(status := Done))];
    assert cs[1..] == [AddJob(b), UpdateJob(2, b.(status := Done))];
    assert cs[1..][1..] == [cs[2]] && [cs[2]][1..] == [];
    var t1 := Add(EMPTY, a);
    var t2 := Add(t1, b);
    var t3 := Update(t2, 2, b.(status := Done));
    assert ApplyAll(t2, [cs[2]]) == ApplyAll(t3, []) == t3;
    assert ApplyAll(t1, cs[1..]) == t3 && ApplyAll(EMPTY, cs) == t3;
    assert t3.jobs[1] == a;
  }

  // -------------------------------------------------------------- the class

  class JobTable {
    var jobs: map<nat, Job>
    var nextId: nat
    var current: Option<nat>

    constructor ()
      ensures State() == EMPTY
    {
      jobs, nextId, current := map[], 1, None;
    }

    function State(): Contents
      reads this
    {
      Contents(jobs, nextId, current)
    }

    method AddJob(group: Pid, command: string, pids: seq<Pid>, background: bool) returns (id: nat)
      modifies this
      ensures id == old(nextId)
      ensures State() == Add(old(State()), Job(group, command, pids, Running, 0, background))
      ensures jobs == old(jobs)[id := Job(group, command, pids, Running, 0, background)]
      ensures nextId == old(nextId) + 1 && current == Some(id)
    {
      id := nextId;
      nextId := nextId + 1;
      jobs := jobs[id := Job(group, command, pids, Running, 0, background)];
      current := Some(id);
    }

    /** `mark_running`, `mark_stopped`: an unknown id is ignored. */
    method MarkStatus(id: nat, status: Status)
      modifies this`jobs
      ensures State() == if id in old(jobs) then Update(old(State()), id, old(jobs)[id].(status := status))
                         else old(State())
      ensures jobs == if id in old(jobs) then old(jobs)[id := old(jobs)[id].(status := status)] else old(jobs)
    {
      if id in jobs {
        jobs := jobs[id := jobs[id].(status := status)];
      }
    }

    /** `mark_done`, `mark_terminated` */
    method MarkEnded(id: nat, status: Status, lastStatus: int)
      modifies this`jobs
      ensures State() == if id in old(jobs)
                         then Update(old(State()), id, old(jobs)[id].(status := status, lastStatus := lastStatus))
                         else old(State())
      ensures jobs == if id in old(jobs) then old(jobs)[id := old(jobs)[id].(status := status, lastStatus := lastStatus)]
                      else old(jobs)
    {
      if id in jobs {
        jobs := jobs[id := jobs[id].(status := status, lastStatus := lastStatus)];
      }
    }

    method SetJob(id: nat, job: Job)
      requires id in jobs
      modifies this`jobs
      ensures State() == Update(old(State()), id, job)
    {
      jobs := jobs[id := job];
    }

    /** The current job, or else the last added job that is alive: always the alive job with the greatest id. */
    method GetCurrentJob() returns (r: Option<nat>)
      requires Numbered(State())
      ensures GreatestAlive(State(), r)
      ensures match r
              case None => forall id :: id in jobs ==> jobs[id].status == Done || jobs[id].status == Terminated
              case Some(best) =>
                && best in jobs && (jobs[best].status == Running || jobs[best].status == Stopped)
                && forall id :: id in jobs && (jobs[id].status == Running || jobs[id].status == Stopped) ==> id <= best
    {
      if current.Some? && current.value in jobs && jobs[current.value].Alive() {
        return current;
      }
      var todo := jobs.Keys;
      while todo != {}
        invariant todo <= jobs.Keys
        invariant forall id :: id in jobs && id !in todo ==> !jobs[id].Alive()
        decreases todo
      {
        var id := Greatest(todo);
        if jobs[id].Alive() {
          return Some(id);
        }
        todo := todo - {id};
      }
      r := None;
    }

    method RemoveDoneJobs() returns (done: set<nat>)
      modifies this
      ensures done == set id | id in old(jobs) && !old(jobs)[id].Alive()
      ensures State() == RemoveDone(old(State()))
      ensures done == set id | id in old(jobs) && (old(jobs)[id].status == Done || old(jobs)[id].status == Terminated)
      ensures jobs == old(jobs) - done && nextId == old(nextId)
      ensures current == if old(current).Some? && old(current).value !in jobs then None else old(current)
    {
      done := set id | id in jobs && !jobs[id].Alive();
      jobs := jobs - done;
      if current.Some? && current.value !in jobs {
        current := None;
      }
      assert jobs == RemoveDone(old(State())).jobs;
    }
  }

  method Greatest(s: set<nat>) returns (m: nat)
    requires s != {}
    ensures m in s && forall x :: x in s ==> x <= m
  {
    m :| m in s;
    var todo := s - {m};
    while todo != {}
      invariant todo < s && m in s && forall x :: x in s && x !in todo ==> x <= m
      decreases todo
    {
      var x :| x in todo;
      todo := todo - {x};
      if x > m {
        m := x;
      }
    }
  }

  // -------------------------------------------------- one poll of one job

  /** The pids that stay with a job after a poll. */
  function Remaining(pids: seq<Pid>, answers: seq<Poll>): (r: seq<Pid>)
    requires |pids| == |answers|
    ensures forall p :: p in r ==> p in pids
  {
    if pids == [] then []
    else
      var rest := Remaining(pids[1..], answers[1..]);
      if answers[0].Busy? || answers[0].Trouble? || answers[0].Paused? then [pids[0]] + rest else rest
  }

  /** The status of the last process that this poll collected. */
  function LastExit(answers: seq<Poll>, initial: int): int {
    if answers == [] then initial
    else
      var last := answers[|answers| - 1];
      if last.Ended? then ExitStatus(last.raw) else LastExit(answers[..|answers| - 1], initial)
  }

  function Polled(job: Job, answers: seq<Poll>): Job
    requires |job.pids| == |answers|
  {
    var left := Remaining(job.pids, answers);
    if Paused in answers then job.(status := Stopped, pids := left)
    else if left == [] then job.(status := Done, pids := left, lastStatus := LastExit(answers, job.lastStatus))
    else job.(pids := left)
  }

  /** An answer fits the children before and after: it is a collected status, or tells that nothing was there to collect. */
  ghost predicate Answered(pid: Pid, answer: Poll, before: set<Pid>, after: set<Pid>, collected: map<Pid, Raw>) {
    && (pid !in before ==> answer.Gone?)
    && (answer.Gone? ==> pid !in after)
    && (answer.Ended? ==> pid in before && pid !in after && pid in collected && collected[pid] == answer.raw)
  }

  /** Every process was asked, and only these were collected. */
  ghost predicate Consistent(pids: seq<Pid>, answers: seq<Poll>, before: set<Pid>, after: set<Pid>, collected: map<Pid, Raw>) {
    && |pids| == |answers| && after <= before
    && (forall i :: 0 <= i < |pids| ==> Answered(pids[i], answers[i], before, after, collected))
    && (forall i :: 0 <= i < |pids| && answers[i].Gone? && pids[i] in before ==> pids[i] in pids[..i])
    && (forall pid :: pid in before && pid !in after ==> pid in pids)
  }

  /** The statuses of processes that were reaped before are not touched. */
  ghost predicate Keeps(unreaped: set<Pid>, was: map<Pid, Raw>, now: map<Pid, Raw>) {
    forall pid :: pid in was && pid !in unreaped ==> pid in now && now[pid] == was[pid]
  }

  lemma {:induction false} RemainingSnoc(pids: seq<Pid>, answers: seq<Poll>, pid: Pid, answer: Poll)
    requires |pids| == |answers|
    ensures Remaining(pids + [pid], answers + [answer]) ==
            Remaining(pids, answers) + if answer.Busy? || answer.Trouble? || answer.Paused? then [pid] else []
  {
    if pids == [] {
      assert pids + [pid] == [pid] && answers + [answer] == [answer];
    } else {
      assert (pids + [pid])[1..] == pids[1..] + [pid] && (answers + [answer])[1..] == answers[1..] + [answer];
      RemainingSnoc(pids[1..], answers[1..], pid, answer);
    }
  }

  lemma LastExitSnoc(answers: seq<Poll>, answer: Poll, initial: int)
    ensures LastExit(answers + [answer], initial) ==
            if answer.Ended? then ExitStatus(answer.raw) else LastExit(answers, initial)
  {
    assert (answers + [answer])[..|answers|] == answers;
  }

  lemma ConsistentNone(children: set<Pid>, collected: map<Pid, Raw>)
    ensures Consistent([], [], children, children, collected)
  {
  }

  lemma ConsistentSnoc(pids: seq<Pid>, answers: seq<Poll>, pid: Pid, answer: Poll,
                       before: set<Pid>, now: set<Pid>, after: set<Pid>, was: map<Pid, Raw>, collected: map<Pid, Raw>)
    requires Consistent(pids, answers, before, now, was) && (answer.Gone? <==> pid !in now)
    requires if answer.Ended? then after == now - {pid} && collected == was[pid := answer.raw]
             else after == now && collected == was
    ensures Consistent(pids + [pid], answers + [answer], before, after, collected)
  {
    forall i | 0 <= i < |pids + [pid]|
      ensures Answered((pids + [pid])[i], (answers + [answer])[i], before, after, collected)
    {
      if i < |pids| {
        assert Answered(pids[i], answers[i], before, now, was);
      }
    }
    forall i | 0 <= i < |pids + [pid]| && (answers + [answer])[i].Gone? && (pids + [pid])[i] in before
      ensures (pids + [pid])[i] in (pids + [pid])[..i]
    {
      if i < |pids| {
        assert (pids + [pid])[..i] == pids[..i];
      } else {
        assert (pids + [pid])[..i] == pids;
      }
    }
  }

  /** The processes that stay, by position. */
  function StayAt(answers: seq<Poll>): (at: seq<nat>)
    ensures forall i :: i in at <==> 0 <= i < |answers| && (answers[i].Busy? || answers[i].Trouble? || answers[i].Paused?)
    ensures forall j, k :: 0 <= j < k < |at| ==> at[j] < at[k]
  {
    if answers == [] then []
    else
      var n := |answers| - 1;
      var earlier := StayAt(answers[..n]);
      assert forall k :: 0 <= k < |earlier| ==> earlier[k] in earlier;
      if answers[n].Busy? || answers[n].Trouble? || answers[n].Paused? then earlier + [n] else earlier
  }

  lemma {:induction false} StayersArePicked(pids: seq<Pid>, answers: seq<Poll>)
    requires |pids| == |answers|
    ensures PickedAt(pids, Remaining(pids, answers), StayAt(answers))
    decreases |pids|
  {
    hide Remaining, PickedAt;
    if pids == [] {
      NothingRemains();
    } else {
      var n := |pids| - 1;
      assert pids == pids[..n] + [pids[n]] && answers == answers[..n] + [answers[n]];
      RemainingSnoc(pids[..n], answers[..n], pids[n], answers[n]);
      StayersArePicked(pids[..n], answers[..n]);
      PickedMore(pids[..n], Remaining(pids[..n], answers[..n]), StayAt(answers[..n]), pids[n]);
      assert Remaining(pids[..n], answers[..n]) + [] == Remaining(pids[..n], answers[..n]);
    }
  }

  lemma NothingRemains()
    ensures PickedAt([], Remaining([], []), StayAt([]))
  {
  }

  lemma {:induction false} NoneStayIff(pids: seq<Pid>, answers: seq<Poll>)
    requires |pids| == |answers|
    ensures Remaining(pids, answers) == [] <==> forall a :: a in answers ==> a.Ended? || a.Gone?
    decreases |pids|
  {
    if pids != [] {
      NoneStayIff(pids[1..], answers[1..]);
      assert answers[0] in answers && forall a :: a in answers[1..] ==> a in answers;
      if answers[0].Ended? || answers[0].Gone? {
        assert Remaining(pids, answers) == Remaining(pids[1..], answers[1..]);
        assert forall a :: a in answers ==> a == answers[0] || a in answers[1..];
      }
    }
  }

  lemma {:induction false} LastExitIs(answers: seq<Poll>, initial: int)
    ensures (forall a :: a in answers ==> !a.Ended?) ==> LastExit(answers, initial) == initial
    ensures forall i :: 0 <= i < |answers| && answers[i].Ended? && (forall j :: i < j < |answers| ==> !answers[j].Ended?) ==>
                          LastExit(answers, initial) == match answers[i].raw
                                                        case Exited(code) => code
                                                        case Signaled(signal) => 128 + signal
                                                        case Unclassified => 1
  {
    if answers != [] {
      LastExitIs(answers[..|answers| - 1], initial);
    }
  }

  /**
   * What the answers of a poll make of a job. A stopped process stops the job, and otherwise the job
   * is over exactly if every process has ended or was gone; the processes that are left stay with it
   * in their order; a job that is over reports the last process that this poll collected.
   */
  lemma PolledMeans(job: Job, answers: seq<Poll>)
    requires |job.pids| == |answers|
    ensures var r := Polled(job, answers);
            && r.group == job.group && r.command == job.command && r.background == job.background
            && (Paused in answers ==> r.status == Stopped)
            && ((forall a :: a in answers ==> a.Ended? || a.Gone?) ==> r.status == Done)
            && (Paused !in answers && (exists a :: a in answers && (a.Busy? || a.Trouble?)) ==> r.status == job.status)
            && (exists at ::
                  && PickedAt(job.pids, r.pids, at)
                  && forall i :: 0 <= i < |answers| ==>
                       (i in at <==> answers[i].Busy? || answers[i].Trouble? || answers[i].Paused?))
            && ((exists a :: a in answers && (a.Busy? || a.Trouble? || a.Paused?)) ==> r.lastStatus == job.lastStatus)
            && ((forall a :: a in answers ==> a.Gone?) ==> r.lastStatus == job.lastStatus)
            && ((forall a :: a in answers ==> a.Ended? || a.Gone?) ==>
                  forall i :: 0 <= i < |answers| && answers[i].Ended? && (forall j :: i < j < |answers| ==> answers[j].Gone?) ==>
                                r.lastStatus == match answers[i].raw
                                                case Exited(code) => code
                                                case Signaled(signal) => 128 + signal
                                                case Unclassified => 1)
  {
    hide Remaining, LastExit;
    NoneStayIff(job.pids, answers);
    StayersArePicked(job.pids, answers);
    LastExitIs(answers, job.lastStatus);
    if a :| a in answers && (a.Busy? || a.Trouble? || a.Paused?) {
      assert !(a.Ended? || a.Gone?);
    }
  }

  /**
   * The body of the reaping loop: asks for every process of one job. A stopped process stops the
   * job; without one it is over exactly if every process has ended or was gone.
   */
  method PollJob(p: Process, job: Job) returns (job': Job, ghost answers: seq<Poll>)
    modifies p`unreaped, p`collected, p`asked, p`replies
    ensures p.asked == old(p.asked) + job.pids && p.replies == old(p.replies) + answers
    ensures Consistent(job.pids, answers, old(p.unreaped), p.unreaped, p.collected)
    ensures Keeps(old(p.unreaped), old(p.collected), p.collected)
    ensures job' == Polled(job, answers)
    ensures job'.status == if exists a :: a in answers && a.Paused? then Stopped
                           else if forall a :: a in answers ==> a.Ended? || a.Gone? then Done
                           else job.status
    ensures exists at :: PickedAt(job.pids, job'.pids, at) && |answers| == |job.pids|
                         && forall i :: 0 <= i < |answers| ==>
                              (i in at <==> answers[i].Busy? || answers[i].Trouble? || answers[i].Paused?)
    ensures (forall a :: a in answers ==> a.Ended? || a.Gone?) ==>
              forall i :: 0 <= i < |answers| && answers[i].Ended? && (forall j :: i < j < |answers| ==> answers[j].Gone?) ==>
                            job'.lastStatus == match answers[i].raw
                                               case Exited(code) => code
                                               case Signaled(signal) => 128 + signal
                                               case Unclassified => 1
  {
    hide Consistent, Answered, Remaining, LastExit, Polled, Keeps, PickedAt;
    var alive, lastExit, stopped;
    alive, lastExit, stopped, answers := AskAll(p, job);
    PolledIs(job, answers);
    PolledMeans(job, answers);
    if stopped {
      return job.(status := Stopped, pids := alive), answers;
    }
    job' := job.(pids := alive);
    if alive == [] {
      job' := job'.(status := Done, lastStatus := lastExit);
    }
  }

  /** The inner loop: who stays, the last collected status, and whether a process was stopped. */
  method AskAll(p: Process, job: Job) returns (alive: seq<Pid>, lastExit: int, stopped: bool, ghost answers: seq<Poll>)
    modifies p`unreaped, p`collected, p`asked, p`replies
    ensures p.asked == old(p.asked) + job.pids && p.replies == old(p.replies) + answers
    ensures Consistent(job.pids, answers, old(p.unreaped), p.unreaped, p.collected) && |answers| == |job.pids|
    ensures Keeps(old(p.unreaped), old(p.collected), p.collected)
    ensures alive == Remaining(job.pids, answers) && lastExit == LastExit(answers, job.lastStatus)
    ensures stopped <==> Paused in answers
  {
    assert Remaining([], []) == [] && LastExit([], job.lastStatus) == job.lastStatus;
    hide Consistent, Answered, Remaining, LastExit, Keeps;
    alive, answers := [], [];
    ConsistentNone(p.unreaped, p.collected);
    KeepsAll(p.unreaped, p.collected);
    lastExit, stopped := job.lastStatus, false;
    assert job.pids[..0] == [];
    for i := 0 to |job.pids|
      invariant |answers| == i && p.unreaped <= old(p.unreaped)
      invariant Consistent(job.pids[..i], answers, old(p.unreaped), p.unreaped, p.collected)
      invariant Keeps(old(p.unreaped), old(p.collected), p.collected)
      invariant alive == Remaining(job.pids[..i], answers)
      invariant p.asked == old(p.asked) + job.pids[..i] && p.replies == old(p.replies) + answers
      invariant lastExit == LastExit(answers, job.lastStatus)
      invariant stopped <==> Paused in answers
    {
      var pid := job.pids[i];
      label polling:
      var answer := p.PollPid(pid);
      ConsistentSnoc(job.pids[..i], answers, pid, answer, old(p.unreaped), old@polling(p.unreaped), p.unreaped,
                     old@polling(p.collected), p.collected);
      KeepsOne(old(p.unreaped), old(p.collected), old@polling(p.collected), p.collected, old@polling(p.unreaped), pid);
      assert job.pids[..i + 1] == job.pids[..i] + [pid];
      RemainingSnoc(job.pids[..i], answers, pid, answer);
      LastExitSnoc(answers, answer, job.lastStatus);
      answers := answers + [answer];
      match answer {
        case Gone =>
        case Trouble => alive := alive + [pid];
        case Busy => alive := alive + [pid];
        case Paused => stopped, alive := true, alive + [pid];
        case Ended(raw) => lastExit := ExitStatus(raw);
      }
    }
    assert job.pids[..|job.pids|] == job.pids;
  }

  lemma PolledIs(job: Job, answers: seq<Poll>)
    requires |job.pids| == |answers|
    ensures var left := Remaining(job.pids, answers);
            Polled(job, answers) ==
            if Paused in answers then job.(status := Stopped, pids := left)
            else if left == [] then job.(status := Done, pids := left, lastStatus := LastExit(answers, job.lastStatus))
            else job.(pids := left)
  {
  }

  lemma KeepsAll(unreaped: set<Pid>, collected: map<Pid, Raw>)
    ensures Keeps(unreaped, collected, collected)
  {
  }

  lemma KeepsOne(unreaped: set<Pid>, was: map<Pid, Raw>, before: map<Pid, Raw>, after: map<Pid, Raw>, left: set<Pid>, pid: Pid)
    requires Keeps(unreaped, was, before) && left <= unreaped
    requires after == before || (pid in left && pid in after && after == before[pid := after[pid]])
    ensures Keeps(unreaped, was, after)
  {
  }

  // ------------------------------------------------- one poll of the whole table

  /** A job is what these answers make of it, and the answers are what its processes had to tell. */
  ghost predicate PolledWith(before: Job, after: Job, answers: seq<Poll>, unreaped: set<Pid>, left: set<Pid>,
                             collected: map<Pid, Raw>) {
    && |answers| == |before.pids| && after == Polled(before, answers)
    && forall i :: 0 <= i < |answers| ==> Answered(before.pids[i], answers[i], unreaped, left, collected)
  }

  /** A job was polled by the calls from position `at` on. */
  ghost predicate PolledAt(before: Job, after: Job, asked: seq<Pid>, replies: seq<Poll>, at: nat,
                           unreaped: set<Pid>, left: set<Pid>, collected: map<Pid, Raw>) {
    && at + |before.pids| <= |asked| == |replies| && asked[at..at + |before.pids|] == before.pids
    && PolledWith(before, after, replies[at..at + |before.pids|], unreaped, left, collected)
  }

  /** The running jobs outside `rest` have been polled by these calls, all other jobs are as they were. */
  ghost predicate AllPolled(was: map<nat, Job>, now: map<nat, Job>, rest: set<nat>, asked: seq<Pid>, replies: seq<Poll>,
                            unreaped: set<Pid>, left: set<Pid>, collected: map<Pid, Raw>) {
    && now.Keys == was.Keys
    && forall id :: id in was ==>
         if id in rest || was[id].status != Running then now[id] == was[id]
         else exists at :: PolledAt(was[id], now[id], asked, replies, at, unreaped, left, collected)
  }

  lemma PolledEarlier(before: Job, after: Job, asked: seq<Pid>, replies: seq<Poll>, at: nat,
                      pids: seq<Pid>, answers: seq<Poll>, unreaped: set<Pid>, now: set<Pid>, left: set<Pid>,
                      collected: map<Pid, Raw>, collected': map<Pid, Raw>)
    requires PolledAt(before, after, asked, replies, at, unreaped, now, collected) && |pids| == |answers|
    requires left <= now <= unreaped && Keeps(now, collected, collected')
    ensures PolledAt(before, after, asked + pids, replies + answers, at, unreaped, left, collected')
  {
    hide Polled;
    var n := |before.pids|;
    assert (asked + pids)[at..at + n] == asked[at..at + n] && (replies + answers)[at..at + n] == replies[at..at + n];
  }

  lemma PolledNow(before: Job, after: Job, asked: seq<Pid>, replies: seq<Poll>, answers: seq<Poll>,
                  unreaped: set<Pid>, now: set<Pid>, left: set<Pid>, collected: map<Pid, Raw>)
    requires PolledWith(before, after, answers, now, left, collected) && |asked| == |replies| && now <= unreaped
    ensures PolledAt(before, after, asked + before.pids, replies + answers, |asked|, unreaped, left, collected)
  {
    hide Polled;
    var n := |before.pids|;
    assert (asked + before.pids)[|asked|..|asked| + n] == before.pids;
    assert (replies + answers)[|asked|..|asked| + n] == answers;
  }

  /** The poll of one job does not change what the polls before it have found. */
  lemma AllPolledStep(was: map<nat, Job>, now: map<nat, Job>, rest: set<nat>, id: nat, job: Job,
                      asked: seq<Pid>, replies: seq<Poll>, answers: seq<Poll>,
                      unreaped: set<Pid>, before: set<Pid>, left: set<Pid>, collected: map<Pid, Raw>, collected': map<Pid, Raw>)
    requires AllPolled(was, now, rest, asked, replies, unreaped, before, collected) && |asked| == |replies|
    requires id in rest && id in was && was[id].status == Running
    requires PolledWith(was[id], job, answers, before, left, collected') && left <= before <= unreaped
    requires Keeps(before, collected, collected')
    ensures AllPolled(was, now[id := job], rest - {id}, asked + was[id].pids, replies + answers, unreaped, left, collected')
  {
    hide PolledAt, PolledWith, Keeps;
    var now' := now[id := job];
    PolledNow(was[id], job, asked, replies, answers, unreaped, before, left, collected');
    assert now'[id] == job;
    assert PolledAt(was[id], now'[id], asked + was[id].pids, replies + answers, |asked|, unreaped, left, collected');
    assert |was[id].pids| == |answers| by { AsManyAnswers(was[id], job, answers, before, left, collected'); }
    forall other | other in was && other !in rest && was[other].status == Running
      ensures exists at ::
                PolledAt(was[other], now'[other], asked + was[id].pids, replies + answers, at, unreaped, left, collected')
    {
      var at :| PolledAt(was[other], now[other], asked, replies, at, unreaped, before, collected);
      PolledEarlier(was[other], now[other], asked, replies, at, was[id].pids, answers, unreaped, before, left,
                    collected, collected');
      assert other != id && now'[other] == now[other];
      assert PolledAt(was[other], now'[other], asked + was[id].pids, replies + answers, at, unreaped, left, collected');
    }
  }

  lemma AsManyAnswers(before: Job, after: Job, answers: seq<Poll>, unreaped: set<Pid>, left: set<Pid>, collected: map<Pid, Raw>)
    requires PolledWith(before, after, answers, unreaped, left, collected)
    ensures |before.pids| == |answers|
  {
  }

  /** Before the first poll, and when a job is passed over. */
  lemma NothingPolled(was: map<nat, Job>, unreaped: set<Pid>, collected: map<Pid, Raw>)
    ensures AllPolled(was, was, was.Keys, [], [], unreaped, unreaped, collected)
  {
  }

  lemma PassedOver(was: map<nat, Job>, now: map<nat, Job>, rest: set<nat>, id: nat, asked: seq<Pid>, replies: seq<Poll>,
                   unreaped: set<Pid>, left: set<Pid>, collected: map<Pid, Raw>)
    requires AllPolled(was, now, rest, asked, replies, unreaped, left, collected) && id in rest && id in was
    ensures now[id] == was[id]
    ensures was[id].status != Running ==> AllPolled(was, now, rest - {id}, asked, replies, unreaped, left, collected)
  {
    hide PolledAt;
  }

  /** The status of a job after its poll, told by the answers from position `at` on. */
  ghost predicate StatusTold(before: Job, status: Status, asked: seq<Pid>, replies: seq<Poll>, at: nat) {
    && at + |before.pids| <= |asked| == |replies| && asked[at..at + |before.pids|] == before.pids
    && status == if exists k :: at <= k < at + |before.pids| && replies[k].Paused? then Stopped
                 else if forall k :: at <= k < at + |before.pids| ==> replies[k].Ended? || replies[k].Gone? then Done
                 else Running
  }

  /** After the poll of the whole table each running job has the status that its own processes' answers tell. */
  lemma AllPolledMeans(was: map<nat, Job>, now: map<nat, Job>, asked: seq<Pid>, replies: seq<Poll>,
                       unreaped: set<Pid>, left: set<Pid>, collected: map<Pid, Raw>)
    requires AllPolled(was, now, {}, asked, replies, unreaped, left, collected)
    ensures now.Keys == was.Keys
    ensures forall id :: id in was && was[id].status == Running ==>
                           exists at :: StatusTold(was[id], now[id].status, asked, replies, at)
    ensures forall id :: id in was && was[id].status != Running ==> now[id] == was[id]
  {
    hide Polled;
    forall id | id in was && was[id].status == Running
      ensures exists at :: StatusTold(was[id], now[id].status, asked, replies, at)
    {
      var at :| PolledAt(was[id], now[id], asked, replies, at, unreaped, left, collected);
      StatusBetween(was[id], replies, at);
      assert StatusTold(was[id], now[id].status, asked, replies, at);
    }
  }

  lemma StatusBetween(job: Job, replies: seq<Poll>, at: nat)
    requires at + |job.pids| <= |replies| && job.status == Running
    ensures Polled(job, replies[at..at + |job.pids|]).status ==
            if exists k :: at <= k < at + |job.pids| && replies[k].Paused? then Stopped
            else if forall k :: at <= k < at + |job.pids| ==> replies[k].Ended? || replies[k].Gone? then Done
            else Running
  {
    var n := |job.pids|;
    var answers := replies[at..at + n];
    var r := Polled(job, answers);
    assert (Paused in answers ==> r.status == Stopped)
           && ((forall a :: a in answers ==> a.Ended? || a.Gone?) ==> r.status == Done)
           && (Paused !in answers && (exists a :: a in answers && (a.Busy? || a.Trouble?)) ==> r.status == Running) by {
      PolledMeans(job, answers);
    }
    hide Polled;
    forall k | at <= k < at + n
      ensures replies[k] in answers
    {
      assert answers[k - at] == replies[k];
    }
    forall a | a in answers
      ensures exists k :: at <= k < at + n && replies[k] == a
    {
      var j :| 0 <= j < n && answers[j] == a;
      assert replies[at + j] == a;
    }
  }

  // ----------------------------------------------- the status that fg reports

  /** The status of the last of these processes that there was to wait for, each being waited for once. */
  function LastCollected(pids: seq<Pid>, unreaped: set<Pid>, collected: map<Pid, Raw>): int
    requires forall pid :: pid in pids && pid in unreaped ==> pid in collected
  {
    if pids == [] then 0
    else
      var earlier, pid := pids[..|pids| - 1], pids[|pids| - 1];
      if pid in unreaped && pid !in earlier then ExitStatus(collected[pid]) else LastCollected(earlier, unreaped, collected)
  }

  lemma {:induction false} LastCollectedKept(pids: seq<Pid>, unreaped: set<Pid>, was: map<Pid, Raw>, now: map<Pid, Raw>)
    requires forall pid :: pid in pids && pid in unreaped ==> pid in was && pid in now && was[pid] == now[pid]
    ensures LastCollected(pids, unreaped, was) == LastCollected(pids, unreaped, now)
  {
    if pids != [] {
      LastCollectedKept(pids[..|pids| - 1], unreaped, was, now);
    }
  }

  /** It is the status of the last one that was there to wait for, and 0 if none was. */
  lemma {:induction false} LastCollectedIs(pids: seq<Pid>, unreaped: set<Pid>, collected: map<Pid, Raw>)
    requires forall pid :: pid in pids && pid in unreaped ==> pid in collected
    ensures (forall pid :: pid in pids ==> pid !in unreaped) ==> LastCollected(pids, unreaped, collected) == 0
    ensures forall i :: 0 <= i < |pids| && LastThere(pids, unreaped, i) ==>
              && pids[i] in collected
              && LastCollected(pids, unreaped, collected) == match collected[pids[i]]
                                                             case Exited(code) => code
                                                             case Signaled(signal) => 128 + signal
                                                             case Unclassified => 1
  {
    if pids != [] {
      var n := |pids| - 1;
      LastCollectedIs(pids[..n], unreaped, collected);
      forall i | 0 <= i < |pids| && LastThere(pids, unreaped, i)
        ensures pids[i] in unreaped && pids[i] in pids && (i == n ==> pids[n] !in pids[..n])
        ensures i < n ==> LastThere(pids[..n], unreaped, i) && (pids[n] !in unreaped || pids[n] in pids[..n])
      {
        if i < n {
          LastThereShorter(pids, unreaped, i);
        }
      }
    }
  }

  /** Process i is the last of these that there was to wait for. */
  ghost predicate LastThere(pids: seq<Pid>, unreaped: set<Pid>, i: nat)
    requires i < |pids|
  {
    && pids[i] in unreaped && pids[i] !in pids[..i]
    && forall j :: i < j < |pids| ==> pids[j] !in unreaped || pids[j] in pids[..j]
  }

  lemma LastThereShorter(pids: seq<Pid>, unreaped: set<Pid>, i: nat)
    requires i + 1 < |pids| && LastThere(pids, unreaped, i)
    ensures var n := |pids| - 1; LastThere(pids[..n], unreaped, i) && (pids[n] !in unreaped || pids[n] in pids[..n])
  {
    var n := |pids| - 1;
    assert forall j :: 0 <= j < n ==> pids[..n][..j] == pids[..j];
  }

  /** These processes have been waited for: of the children `before`, `now` are left, and this is the status so far. */
  ghost predicate Awaited(pids: seq<Pid>, before: set<Pid>, now: set<Pid>, collected: map<Pid, Raw>, status: int) {
    && now <= before
    && (forall pid :: pid in before && pid !in now ==> pid in pids && pid in collected)
    && (forall pid :: pid in pids ==> pid !in now)
    && status == LastCollected(pids, before, collected)
  }

  lemma AwaitedSoFar(pids: seq<Pid>, before: set<Pid>, now: set<Pid>, collected: map<Pid, Raw>, status: int)
    requires Awaited(pids, before, now, collected, status)
    ensures forall pid :: pid in before && pid !in now ==> pid in collected
    ensures forall pid :: pid in pids ==> pid !in now
    ensures (forall pid :: pid in pids && pid in before ==> pid in collected)
            && status == LastCollected(pids, before, collected)
  {
  }

  lemma AwaitedNone(before: set<Pid>, collected: map<Pid, Raw>)
    ensures Awaited([], before, before, collected, 0)
  {
  }

  lemma AwaitedGone(pids: seq<Pid>, pid: Pid, before: set<Pid>, now: set<Pid>, collected: map<Pid, Raw>, status: int)
    requires Awaited(pids, before, now, collected, status) && pid !in now
    ensures Awaited(pids + [pid], before, now, collected, status)
  {
    assert (pids + [pid])[..|pids|] == pids;
  }

  lemma AwaitedOne(pids: seq<Pid>, pid: Pid, before: set<Pid>, now: set<Pid>, was: map<Pid, Raw>, raw: Raw, status: int)
    requires Awaited(pids, before, now, was, status) && pid in now
    ensures Awaited(pids + [pid], before, now - {pid}, was[pid := raw], ExitStatus(raw))
  {
    assert (pids + [pid])[..|pids|] == pids;
    LastCollectedKept(pids, before, was, was[pid := raw]);
  }

  // ------------------------------------- which status a background job reports

  /** A job polled again and again, with the answers of each poll. */
  function PolledOften(job: Job, rounds: seq<seq<Poll>>): Option<Job>
    decreases |rounds|
  {
    if rounds == [] then Some(job)
    else if |rounds[0]| != |job.pids| || job.status != Running then None
    else PolledOften(Polled(job, rounds[0]), rounds[1..])
  }

  /** The codes of a poll with the last process's status replaced. */
  function WithLast(answers: seq<Poll>, raw: Raw): seq<Poll>
    requires answers != []
  {
    answers[|answers| - 1 := Ended(raw)]
  }

  lemma {:induction false} RemainingIgnoresCodes(pids: seq<Pid>, a: seq<Poll>, b: seq<Poll>)
    requires |pids| == |a| == |b|
    requires forall i :: 0 <= i < |a| ==> a[i] == b[i] || (a[i].Ended? && b[i].Ended?)
    ensures Remaining(pids, a) == Remaining(pids, b)
  {
    if pids != [] {
      RemainingIgnoresCodes(pids[1..], a[1..], b[1..]);
    }
  }

  lemma SameRemaining(job: Job, answers: seq<Poll>, raw: Raw)
    requires |job.pids| == |answers| > 0 && answers[|answers| - 1].Ended?
    ensures Remaining(job.pids, answers) == Remaining(job.pids, WithLast(answers, raw))
    ensures Paused !in answers ==> Paused !in WithLast(answers, raw)
  {
    RemainingIgnoresCodes(job.pids, answers, WithLast(answers, raw));
    assert forall i :: 0 <= i < |answers| && WithLast(answers, raw)[i] == Paused ==> answers[i] == Paused;
  }

  /** If the last stage is collected by an earlier poll, the job goes on the same way whatever its status was. */
  lemma EarlierStatusDropped(job: Job, first: seq<Poll>, later: seq<seq<Poll>>, raw: Raw)
    requires |job.pids| == |first| > 0 && first[|first| - 1].Ended?
    requires job.status == Running && Polled(job, first).status == Running
    ensures PolledOften(job, [first] + later) == PolledOften(job, [WithLast(first, raw)] + later)
  {
    SameRemaining(job, first, raw);
    assert ([first] + later)[1..] == later && ([WithLast(first, raw)] + later)[1..] == later;
  }

  /**
   * A background job whose last stage is collected by the poll `first` reports that stage's status,
   * whatever it is, exactly when this poll also ends the job.
   */
  lemma ReportsLastStage(job: Job, first: seq<Poll>, later: seq<seq<Poll>>)
    requires |job.pids| == |first| > 0 && first[|first| - 1].Ended? && job.status == Running
    requires var r := PolledOften(job, [first] + later); r.Some? && r.value.status == Done
    ensures (forall raw ::
               var r := PolledOften(job, [WithLast(first, raw)] + later);
               r.Some? && r.value.lastStatus == ExitStatus(raw))
            <==> later == []
  {
    assert ([first] + later)[1..] == later;
    if later == [] {
      forall raw
        ensures var r := PolledOften(job, [WithLast(first, raw)] + later);
                r.Some? && r.value.lastStatus == ExitStatus(raw)
      {
        SameRemaining(job, first, raw);
        assert ([WithLast(first, raw)] + later)[1..] == [];
        assert Paused !in first;
      }
    } else {
      EarlierStatusDropped(job, first, later, Exited(0));
      EarlierStatusDropped(job, first, later, Exited(1));
    }
  }

  /** A pipeline whose last stage fails with status 3 and is collected first is reported as a success. */
  lemma LastStatusDropped(job: Job)
    requires |job.pids| == 2 && job.status == Running
    ensures var r := PolledOften(job, [[Busy, Ended(Exited(3))], [Ended(Exited(0))]]);
            r.Some? && r.value.status == Done && r.value.lastStatus == 0
  {
    var first: seq<Poll>, second: seq<Poll> := [Busy, Ended(Exited(3))], [Ended(Exited(0))];
    assert [first, second][1..] == [second] && [second][1..] == [];
    assert job.pids == [job.pids[0], job.pids[1]] && job.pids[1..] == [job.pids[1]] && first[1..] == [Ended(Exited(3))];
    assert Remaining([job.pids[1]], [Ended(Exited(3))]) == [] by {
      assert [job.pids[1]][1..] == [] && [Ended(Exited(3))][1..] == [];
    }
    assert Remaining(job.pids, first) == [job.pids[0]];
    var job1 := Polled(job, first);
    assert job1.pids == [job.pids[0]] && job1.status == Running;
    assert Remaining(job1.pids, second) == [] by {
      assert job1.pids[1..] == [] && second[1..] == [];
    }
    assert LastExit(second, job1.lastStatus) == 0;
  }

  /**
   * A background command, a job of one process, reports the status of its process exactly if the
   * process is still there to be collected when the poll that ends the job comes; if somebody else
   * has collected it, the job ends with the status it had before.
   */
  lemma OwnStatusIff(job: Job, answer: Poll, pid: Pid, before: set<Pid>, after: set<Pid>, collected: map<Pid, Raw>)
    requires job.pids == [pid] && job.status == Running
    requires Consistent(job.pids, [answer], before, after, collected)
    ensures var r := Polled(job, [answer]);
            && (r.status == Done <==> answer.Ended? || pid !in before)
            && (answer.Ended? ==> pid in collected && r.lastStatus == ExitStatus(collected[pid]))
            && (!answer.Ended? ==> r.lastStatus == job.lastStatus)
            && (r.status == Done ==> (answer.Ended? <==> pid in before))
  {
    assert [pid][1..] == [] && [answer][1..] == [] && [answer][..0] == [];
    assert LastExit([answer], job.lastStatus) == if answer.Ended? then ExitStatus(answer.raw) else job.lastStatus;
    assert Remaining([pid], [answer]) == if answer.Busy? || answer.Trouble? || answer.Paused? then [pid] else [];
    assert Answered(job.pids[0], [answer][0], before, after, collected);
    assert [answer][0].Gone? ==> job.pids[0] !in before;
    assert Paused in [answer] <==> answer == Paused;
  }
}
