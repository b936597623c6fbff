/** Conservation of children: who answers for every forked process that was not waited for. */
module Accounting {
  import opened Text
  import opened Kernel
  import opened Jobs

  predicate Owns(jobs: map<nat, Job>, id: nat, pid: Pid) {
    id in jobs && pid in jobs[id].pids
  }

  /**
   * Every unreaped child belongs to an alive job or is exempt; no pid belongs to two jobs; a job
   * that is over has no unreaped process.
   */
  ghost predicate Accounted(unreaped: set<Pid>, jobs: map<nat, Job>, exempt: set<Pid>, nextPid: Pid) {
    && (forall pid :: pid in unreaped ==> pid < nextPid)
    && (forall pid :: pid in exempt ==> pid < nextPid)
    && (forall id: nat, pid: Pid :: Owns(jobs, id, pid) ==> pid < nextPid && pid !in exempt)
    && (forall pid :: pid in unreaped && pid !in exempt ==> exists id: nat :: Owns(jobs, id, pid))
    && (forall id: nat, pid: Pid :: Owns(jobs, id, pid) && pid in unreaped ==> jobs[id].Alive())
    && (forall a: nat, b: nat, pid: Pid :: Owns(jobs, a, pid) && Owns(jobs, b, pid) ==> a == b)
  }

  lemma Shrink(unreaped: set<Pid>, unreaped': set<Pid>, jobs: map<nat, Job>, exempt: set<Pid>, nextPid: Pid, nextPid': Pid)
    requires Accounted(unreaped, jobs, exempt, nextPid) && unreaped' <= unreaped && nextPid <= nextPid'
    ensures Accounted(unreaped', jobs, exempt, nextPid')
  {
  }

  lemma NewJob(unreaped: set<Pid>, jobs: map<nat, Job>, exempt: set<Pid>, nextPid: Pid, nextPid': Pid, id: nat, job: Job)
    requires Accounted(unreaped, jobs, exempt, nextPid) && id !in jobs && nextPid <= nextPid'
    requires job.Alive() && forall pid :: pid in job.pids ==> nextPid <= pid < nextPid'
    ensures Accounted(unreaped + SetOf(job.pids), jobs[id := job], exempt, nextPid')
  {
    var jobs' := jobs[id := job];
    assert forall i: nat, pid: Pid :: Owns(jobs', i, pid) <==> if i == id then pid in job.pids else Owns(jobs, i, pid);
    forall pid | pid in unreaped && pid !in exempt
      ensures exists i: nat :: Owns(jobs', i, pid)
    {
      var i :| Owns(jobs, i, pid);
      assert Owns(jobs', i, pid);
    }
    assert forall pid :: pid in job.pids ==> Owns(jobs', id, pid);
  }

  lemma NewExempt(unreaped: set<Pid>, jobs: map<nat, Job>, exempt: set<Pid>, nextPid: Pid, nextPid': Pid, extra: set<Pid>)
    requires Accounted(unreaped, jobs, exempt, nextPid) && nextPid <= nextPid'
    requires forall pid :: pid in extra ==> nextPid <= pid < nextPid'
    ensures Accounted(unreaped + extra, jobs, exempt + extra, nextPid')
  {
  }

  /** A job may lose processes that were reaped, and may end when all its processes were. */
  lemma Changed(unreaped: set<Pid>, unreaped': set<Pid>, jobs: map<nat, Job>, exempt: set<Pid>, nextPid: Pid, id: nat, job: Job)
    requires Accounted(unreaped, jobs, exempt, nextPid) && id in jobs && unreaped' <= unreaped
    requires forall pid :: pid in job.pids ==> pid in jobs[id].pids
    requires forall pid :: pid in jobs[id].pids && pid !in job.pids ==> pid !in unreaped'
    requires job.Alive() || forall pid :: pid in jobs[id].pids ==> pid !in unreaped'
    ensures Accounted(unreaped', jobs[id := job], exempt, nextPid)
  {
    assert forall pid: Pid :: pid in job.pids ==> Owns(jobs, id, pid);
    var jobs' := jobs[id := job];
    assert forall i: nat, pid: Pid :: Owns(jobs', i, pid) <==> if i == id then pid in job.pids else Owns(jobs, i, pid);
    forall pid | pid in unreaped' && pid !in exempt
      ensures exists i: nat :: Owns(jobs', i, pid)
    {
      var i :| Owns(jobs, i, pid);
      assert Owns(jobs', i, pid);
    }
  }

  /** Removing the jobs that are over loses no unreaped process. */
  lemma Removed(unreaped: set<Pid>, t: Contents, exempt: set<Pid>, nextPid: Pid)
    requires Accounted(unreaped, t.jobs, exempt, nextPid)
    ensures Accounted(unreaped, RemoveDone(t).jobs, exempt, nextPid)
  {
    var jobs' := RemoveDone(t).jobs;
    assert forall i: nat, pid: Pid :: Owns(jobs', i, pid) ==> Owns(t.jobs, i, pid);
    forall pid | pid in unreaped && pid !in exempt
      ensures exists i: nat :: Owns(jobs', i, pid)
    {
      var i :| Owns(t.jobs, i, pid);
      assert Owns(jobs', i, pid);
    }
  }

  /** A poll of a running job keeps every process that was not collected, and ends the job only without any. */
  lemma {:induction false} RemainingKeeps(pids: seq<Pid>, answers: seq<Poll>, i: nat)
    requires |pids| == |answers| && i < |pids|
    requires !answers[i].Ended? && !answers[i].Gone?
    ensures pids[i] in Remaining(pids, answers)
  {
    if i > 0 {
      RemainingKeeps(pids[1..], answers[1..], i - 1);
    }
  }

  lemma PolledIsAccounted(unreaped: set<Pid>, unreaped': set<Pid>, jobs: map<nat, Job>, exempt: set<Pid>, nextPid: Pid,
                          id: nat, answers: seq<Poll>, collected: map<Pid, Raw>)
    requires Accounted(unreaped, jobs, exempt, nextPid) && id in jobs && jobs[id].status == Running
    requires Consistent(jobs[id].pids, answers, unreaped, unreaped', collected)
    ensures Accounted(unreaped', jobs[id := Polled(jobs[id], answers)], exempt, nextPid)
  {
    var job, job' := jobs[id], Polled(jobs[id], answers);
    forall pid | pid in job.pids && pid !in job'.pids
      ensures pid !in unreaped'
    {
      var i :| 0 <= i < |job.pids| && job.pids[i] == pid;
      if !answers[i].Ended? && !answers[i].Gone? {
        RemainingKeeps(job.pids, answers, i);
      }
    }
    Changed(unreaped, unreaped', jobs, exempt, nextPid, id, job');
  }

  /** When jobs only lose processes and some jobs go, the processes of the jobs that went are reaped. */
  lemma RemovedAreReaped(unreaped: set<Pid>, jobs: map<nat, Job>, nextPid: Pid,
                         unreaped': set<Pid>, jobs': map<nat, Job>, nextPid': Pid, exempt: set<Pid>)
    requires Accounted(unreaped, jobs, exempt, nextPid) && Accounted(unreaped', jobs', exempt, nextPid')
    requires forall id: nat, pid: Pid :: Owns(jobs', id, pid) ==> Owns(jobs, id, pid)
    ensures forall id: nat, pid: Pid :: Owns(jobs, id, pid) && id !in jobs' ==> pid !in unreaped'
  {
  }
}
