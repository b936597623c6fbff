/** The shell as a whole: commands that start children, commands that handle jobs, and runs of both. */
module Shell {
  import opened Text
  import opened Kernel
  import opened Jobs
  import opened Accounting
  import opened Pipeline
  import PipeEnds
  import opened Redirect

  const SUCCESS := 0
  const COMMAND_NOT_FOUND := 127
  const CANNOT_EXECUTE := 126
  const STOPPED_STATUS := 148  // 128 + SIGTSTP

  ghost predicate NoGroupSignals(signals: seq<Signal>) {
    forall i :: 0 <= i < |signals| ==> signals[i].ToChild?
  }

  /** How a single external command ended for the shell. */
  datatype Fate =
    | NotStarted(reason: Reason, reported: bool)
    | Backgrounded(pid: Pid)
    | Finished(pid: Pid)
    | Suspended(pid: Pid)
    | Killed(pid: Pid)
    | Lost(pid: Pid)        // started, but restoring the descriptors failed

  /** Why there is no process: the redirections could not be set up, or `Popen` failed and they were left again. */
  datatype Reason = Unredirected(leaving: Leaving, error: Error) | Unavailable(answer: Spawned, clean: bool)

  datatype Birth = Begun(pid: Pid, clean: bool) | NotBegun(reason: Reason)

  function BirthOf(answer: Spawned, clean: bool): Birth {
    if answer.Child? then Begun(answer.pid, clean) else NotBegun(Unavailable(answer, clean))
  }

  /** The error that is handled: an error of the cleanup takes the place of the one before it. */
  function Raised(reason: Reason): Error {
    match reason
    case Unredirected(_, error) => error
    case Unavailable(NotFound, true) => NoEntry
    case Unavailable(NotExecutable, true) => Denied
    case _ => Unspecified
  }

  predicate OnlyStdin(actions: seq<Action>) {
    forall a :: a in actions ==> a.fd == 0
  }

  /** The status without a process; `reported` says that the redirections could be entered and left once more. */
  function StatusWithout(error: Error, actions: seq<Action>, reported: bool): int {
    match error
    case NoEntry => if OnlyStdin(actions) || reported then COMMAND_NOT_FOUND else GENERAL_ERROR
    case Denied => CANNOT_EXECUTE
    case Unspecified => GENERAL_ERROR
  }

  /** What can keep a command from starting: only opened files are missing or denied, and no actions cannot fail. */
  predicate Possible(reason: Reason, actions: seq<Action>) {
    match reason
    case Unredirected(leaving, error) =>
      && actions != []
      && (error != Unspecified ==> leaving == Clean && OpenCount(actions) > 0)
    case Unavailable(answer, clean) => !answer.Child? && (actions == [] ==> clean)
  }

  /** Status 127 would always mean that the command itself is missing. */
  ghost predicate MeansMissing(actions: seq<Action>, stable: bool) {
    forall reason, reported ::
      Possible(reason, actions) && (stable && reason.Unredirected? ==> !reported)
      && StatusWithout(Raised(reason), actions, reported) == COMMAND_NOT_FOUND
      ==> reason == Unavailable(NotFound, true)
  }

  /**
   * Status 127 means that the command itself is missing exactly if no redirection opens a file. If a
   * file that could not be opened cannot be opened a moment later either, it is enough that some
   * redirection is not of standard input, because the report of the missing command then fails.
   */
  lemma MeansMissingIff(actions: seq<Action>)
    ensures MeansMissing(actions, false) <==> OpenCount(actions) == 0
    ensures MeansMissing(actions, true) <==> OpenCount(actions) == 0 || !OnlyStdin(actions)
  {
    if OpenCount(actions) > 0 {
      var reason := Unredirected(Clean, NoEntry);
      assert Possible(reason, actions);
      assert StatusWithout(Raised(reason), actions, true) == COMMAND_NOT_FOUND;
      if OnlyStdin(actions) {
        assert StatusWithout(Raised(reason), actions, false) == COMMAND_NOT_FOUND;
      }
    }
  }

  /** The argument of `fg` and `bg`. */
  datatype JobArg = NoArg | JobNumber(id: nat) | NotANumber

  datatype Command =
    | RunPipeline(stages: seq<seq<Action>>, text: string, background: bool)
    | RunExternal(actions: seq<Action>, text: string, background: bool)
    | Fg(arg: JobArg)
    | Bg(arg: JobArg)
    | ListJobs
    | Prompt   // the reaping before an interactive prompt

  datatype How = SetupFailed | Launched | Waited(ending: Ending)

  /** How a wait of `fg` ended. */
  datatype Waiting = Over | Halted | Broken

  class Shell {
    const p: Process
    const table: JobTable
    const contained: bool          // inside a command substitution
    const tty: bool                // a terminal was opened for job control
    const home: Kernel.Table       // the descriptors the shell started with
    ghost var orphans: set<Pid>    // background children of a contained shell
    ghost var abandoned: set<Pid>  // children lost to a failed restoration of descriptors
    ghost var damaged: bool        // some restoration of descriptors has failed

    /** Conservation: every unreaped child is in exactly one alive job or is exempt. */
    ghost predicate Books()
      reads this`orphans, this`abandoned, this`damaged, p`unreaped, p`nextPid, table
    {
      && Accounted(p.unreaped, table.jobs, orphans + abandoned, p.nextPid)
      && Numbered(table.State())
      && (orphans != {} ==> contained)
      && (abandoned != {} ==> damaged)
    }

    /** A contained shell has no jobs and never touches groups or the terminal; otherwise the terminal comes back. */
    ghost predicate Groups()
      reads p`handovers, p`refusals, p`signals, p`foreground, table`jobs
    {
      && (contained ==> table.jobs == map[] && p.handovers == [] && p.refusals == 0 && NoGroupSignals(p.signals))
      && (p.refusals == 0 ==> p.foreground == p.shellGroup)
    }

    ghost predicate Descriptors()
      reads this`damaged, p`fds
    {
      STANDARD <= p.fds.Keys && (!damaged ==> p.fds == home)
    }

    ghost predicate Valid()
      reads this, p, table
    {
      Books() && Groups() && Descriptors()
    }

    constructor (p: Process, table: JobTable, contained: bool, tty: bool)
      requires STANDARD <= p.fds.Keys && table.State() == EMPTY
      requires p.unreaped == {} && p.handovers == [] && p.refusals == 0 && p.signals == [] && p.foreground == p.shellGroup
      ensures Valid() && this.p == p && this.table == table && this.contained == contained && this.tty == tty
      ensures orphans == abandoned == {} && !damaged
    {
      this.p, this.table, this.contained, this.tty, this.home := p, table, contained, tty, p.fds;
      orphans, abandoned, damaged := {}, {}, false;
    }

    // -------------------------------------------------------------- terminal

    /** Unless the terminal refused, this group had it last and the shell has it back. */
    ghost predicate Lent(group: Pid, before: seq<Pid>, refusals: nat)
      reads p`handovers, p`refusals
    {
      tty && p.refusals == refusals ==> p.handovers == before + [group, p.shellGroup]
    }

    method GiveTerminal(group: Option<Pid>) returns (handed: bool)
      requires contained ==> group == None
      modifies p`foreground, p`refusals, p`handovers
      ensures handed ==> group.Some?
      ensures contained ==> p.foreground == old(p.foreground) && p.refusals == old(p.refusals) && p.handovers == old(p.handovers)
      ensures !handed ==> p.foreground == old(p.foreground) && p.handovers == old(p.handovers)
      ensures handed ==> p.handovers == old(p.handovers) + [group.value] && p.refusals == old(p.refusals)
      ensures handed <==> tty && group.Some? && p.refusals == old(p.refusals)
      ensures old(p.refusals) <= p.refusals
    {
      handed := false;
      if tty && group.Some? {
        handed := p.Handover(group.value);
      }
    }

    method TakeTerminal(handed: bool)
      modifies p`foreground, p`refusals, p`handovers
      ensures handed && p.refusals == 0 ==> p.foreground == p.shellGroup
      ensures handed && p.refusals == old(p.refusals) ==> p.handovers == old(p.handovers) + [p.shellGroup]
      ensures !handed ==> p.foreground == old(p.foreground) && p.refusals == old(p.refusals) && p.handovers == old(p.handovers)
      ensures old(p.refusals) <= p.refusals
    {
      if handed {
        var _ := p.Handover(p.shellGroup);
      }
    }

    // -------------------------------------------------------------- pipelines

    /** What became of a pipeline: status, children, job table, signals, terminal. */
    ghost predicate Concluded(how: How, status: int, pids: seq<Pid>, command: string, background: bool, unreaped: set<Pid>,
                              was: Contents, exempt: set<Pid>, signals: seq<Signal>, handovers: seq<Pid>, refusals: nat)
      requires pids != [] || how.SetupFailed?
      reads this`orphans, p`unreaped, p`collected, p`signals, p`handovers, p`refusals, table
    {
      && p.unreaped == unreaped + (if how.Launched? then SetOf(pids) else {})
      && table.State() == (if how.Launched? && !contained then Add(was, Job(pids[0], command, pids, Running, 0, true)) else was)
      && orphans == exempt + (if how.Launched? && contained then SetOf(pids) else {})
      && match how
         case SetupFailed =>
           && status == GENERAL_ERROR && p.handovers == handovers && OnlyChildren(signals, p.signals, pids)
           && forall i :: 0 <= i < |pids| ==> ToChild(pids[i], "SIGTERM") in p.signals
         case Launched => background && status == SUCCESS && p.signals == signals && p.handovers == handovers
         case Waited(ending) =>
           && !background
           && (if ending == Cut then status == SIGINT_STATUS
               else pids[|pids| - 1] in p.collected && status == ExitStatus(p.collected[pids[|pids| - 1]]))
           && (contained ==> OnlyChildren(signals, p.signals, pids))
           && (!contained ==>
                 && Lent(pids[0], handovers, refusals)
                 && p.signals == signals + (if ending == Cut then [ToGroup(pids[0], "SIGINT")] else []))
    }

    /** The status of a pipeline in plain numbers, and the group of its stages. */
    lemma PipelineSays(how: How, status: int, pids: seq<Pid>, command: string, background: bool, unreaped: set<Pid>,
                       was: Contents, exempt: set<Pid>, signals: seq<Signal>, handovers: seq<Pid>, refusals: nat,
                       inherited: map<Pid, Kernel.Table>, entry: Kernel.Table, n: nat, base: nat, first: Pid, joined: bool)
      requires pids != [] || how.SetupFailed?
      requires Concluded(how, status, pids, command, background, unreaped, was, exempt, signals, handovers, refusals)
      requires Forked(inherited, p.groups, p.shellGroup, pids, GroupOf(pids, contained), entry, n, base, first)
      requires joined ==> Grouped(p.groups, pids, GroupOf(pids, contained))
      ensures match how
              case SetupFailed => status == 1
              case Launched => status == 0
              case Waited(Cut) => status == 130
              case Waited(Completed) =>
                && pids[|pids| - 1] in p.collected
                && status == match p.collected[pids[|pids| - 1]]
                             case Exited(code) => code
                             case Signaled(signal) => 128 + signal
                             case Unclassified => 1
      ensures forall i :: 0 <= i < |pids| ==>
                            && pids[i] in p.groups
                            && (contained ==> p.groups[pids[i]] == p.shellGroup)
                            && (joined && !contained ==> p.groups[pids[i]] == pids[0])
    {
      hide Inherits;
    }

    /**
     * A pipeline. Its descriptors are back on every path; a failed setup and a
     * foreground run leave no child; a background run leaves its stages to one new job, or to the
     * enclosing substitution if the shell is contained. A foreground pipeline reports the status of
     * its last stage.
     */
    method ExecutePipeline(stages: seq<seq<Action>>, command: string, background: bool)
      returns (status: int, ghost how: How, ghost pids: seq<Pid>, ghost run: seq<PipeEnds.World>)
      requires Valid() && stages != []
      modifies this`orphans, p, table
      ensures Valid() && p.fds == old(p.fds)
      ensures Forked(p.inherited, p.groups, p.shellGroup, pids, GroupOf(pids, contained),
                     old(p.fds), |stages|, old(p.nextPipe), old(p.nextPid))
      ensures Follows(PipeEnds.Setting(old(p.fds), stages, old(p.nextPipe)), run, !how.SetupFailed?, pids, p.inherited)
      ensures |pids| <= |stages| && (how.SetupFailed? <==> |pids| < |stages|)
      ensures old(p.faults) <= p.faults && (how.SetupFailed? <==> p.faults != old(p.faults)) && p.late == old(p.late)
      ensures p.interrupts == old(p.interrupts) + if how == Waited(Cut) then 1 else 0
      ensures p.ungrouped == old(p.ungrouped) ==> Grouped(p.groups, pids, GroupOf(pids, contained))
      ensures Concluded(how, status, pids, command, background, old(p.unreaped), old(table.State()), old(orphans),
                        old(p.signals), old(p.handovers), old(p.refusals))
      ensures match how
              case SetupFailed => status == 1
              case Launched => status == 0
              case Waited(Cut) => status == 130
              case Waited(Completed) =>
                && pids[|pids| - 1] in p.collected
                && status == match p.collected[pids[|pids| - 1]]
                             case Exited(code) => code
                             case Signaled(signal) => 128 + signal
                             case Unclassified => 1
      ensures forall i :: 0 <= i < |pids| ==>
                            && pids[i] in p.groups
                            && (contained ==> p.groups[pids[i]] == p.shellGroup)
                            && (!contained && p.ungrouped == old(p.ungrouped) ==> p.groups[pids[i]] == pids[0])
    {
      hide Accounted, Inherits, Forked, Numbered, Groups, Consecutive, Parented, Follows, Grouped, Concluded;
      ghost var c := PipeEnds.Setting(p.fds, stages, p.nextPipe);
      var ok, children, group, previous;
      ok, children, group, previous, run := ForkStages(p, |stages|, contained, c);
      pids := children;
      ParentedFollows(c, run, ok, p.fds, previous, children, p.inherited);
      assert Consecutive(children, old(p.nextPid)) by {
        ForkedInOrder(p.inherited, p.groups, p.shellGroup, children, group,
                      old(p.fds), |stages|, old(p.nextPipe), old(p.nextPid));
      }
      status, how := Conclude(ok, children, group, previous, command, background, old(p.unreaped), old(p.nextPid),
                              old(p.fds), old(p.nextPipe));
      PipelineSays(how, status, pids, command, background, old(p.unreaped), old(table.State()), old(orphans),
                   old(p.signals), old(p.handovers), old(p.refusals), p.inherited, old(p.fds), |stages|, old(p.nextPipe),
                   old(p.nextPid), p.ungrouped == old(p.ungrouped));
    }

    /** What follows the loop: cleanup, the background, or the wait. */
    method Conclude(ok: bool, children: seq<Pid>, group: Option<Pid>, previous: Option<Fd>, command: string, background: bool,
                    ghost unreaped: set<Pid>, ghost first: Pid, ghost entry: Kernel.Table, ghost base: nat)
      returns (status: int, ghost how: How)
      requires Accounted(unreaped, table.jobs, orphans + abandoned, first) && Numbered(table.State()) && Groups()
      requires (orphans != {} ==> contained) && (abandoned != {} ==> damaged)
      requires Consecutive(children, first) && p.nextPid == first + |children| && p.unreaped == unreaped + SetOf(children)
      requires p.fds == Before(entry, previous, |children|, base) && (previous.Some? ==> previous.value !in entry)
      requires ok ==> previous == None && p.fds == entry && children != []
      requires group == GroupOf(children, contained)
      modifies this`orphans, p`fds, p`unreaped, p`collected, p`signals, p`interrupts, p`stops
      modifies p`foreground, p`refusals, p`handovers, table
      ensures Books() && Groups() && p.fds == entry && (how.SetupFailed? <==> !ok)
      ensures p.interrupts == old(p.interrupts) + if how == Waited(Cut) then 1 else 0
      ensures Concluded(how, status, children, command, background, unreaped, old(table.State()), old(orphans),
                        old(p.signals), old(p.handovers), old(p.refusals))
    {
      hide Accounted, Numbered, Groups, Lent, Consecutive, Before;
      BookedApart(unreaped, table.jobs, orphans + abandoned, children, first);
      if !ok {
        how, status := SetupFailed, GENERAL_ERROR;
        AbortSetup(children, previous, entry, base);
        Shrink(unreaped, p.unreaped, table.jobs, orphans + abandoned, first, p.nextPid);
      } else if background {
        how, status := Launched, SUCCESS;
        Launch(children, group, command, unreaped, first);
      } else {
        ghost var ending;
        status, ending := RunForeground(children, group, first);
        how := Waited(ending);
        Shrink(unreaped, p.unreaped, table.jobs, orphans + abandoned, first, p.nextPid);
      }
    }

    lemma SignalsStay(before: seq<Signal>, after: seq<Signal>, pids: seq<Pid>)
      requires NoGroupSignals(before) && OnlyChildren(before, after, pids)
      ensures NoGroupSignals(after)
    {
      forall i | 0 <= i < |after|
        ensures after[i].ToChild?
      {
        if i < |before| {
          assert after[i] == after[..|before|][i];
        }
      }
    }

    /** The failure path: children are reaped and the last read end is closed. */
    method AbortSetup(children: seq<Pid>, previous: Option<Fd>, ghost entry: Kernel.Table, ghost base: nat)
      requires Groups() && (previous.Some? ==> previous.value !in entry)
      requires p.fds == Before(entry, previous, |children|, base)
      modifies p`fds, p`unreaped, p`collected, p`signals
      ensures Groups() && p.fds == entry && p.unreaped == old(p.unreaped) - SetOf(children)
      ensures OnlyChildren(old(p.signals), p.signals, children)
      ensures forall i :: 0 <= i < |children| ==> ToChild(children[i], "SIGTERM") in p.signals
    {
      hide NoGroupSignals;
      TerminateAndReap(p, children);
      CloseIfOpen(p, previous);
      if contained {
        SignalsStay(old(p.signals), p.signals, children);
      }
    }

    /** Terminal handover around the waits. */
    method RunForeground(children: seq<Pid>, group: Option<Pid>, ghost first: Pid) returns (status: int, ghost ending: Ending)
      requires Groups() && children != [] && Consecutive(children, first) && SetOf(children) <= p.unreaped
      requires contained ==> group == None
      modifies p`unreaped, p`collected, p`signals, p`interrupts, p`stops, p`foreground, p`refusals, p`handovers
      ensures p.interrupts == old(p.interrupts) + if ending == Cut then 1 else 0
      ensures Groups() && p.unreaped == old(p.unreaped) - SetOf(children)
      ensures ending == Completed ==>
                children[|children| - 1] in p.collected && status == ExitStatus(p.collected[children[|children| - 1]])
      ensures ending == Cut ==> status == SIGINT_STATUS
      ensures group == None ==> OnlyChildren(old(p.signals), p.signals, children)
      ensures group.Some? ==>
                && Lent(group.value, old(p.handovers), old(p.refusals))
                && p.signals == old(p.signals) + if ending == Cut then [ToGroup(group.value, "SIGINT")] else []
    {
      hide NoGroupSignals;
      var handed := GiveTerminal(group);
      status, ending := AwaitAll(p, children, group);
      TakeTerminal(handed);
      if contained {
        SignalsStay(old(p.signals), p.signals, children);
      }
    }

    lemma BookedApart(unreaped: set<Pid>, jobs: map<nat, Job>, exempt: set<Pid>, children: seq<Pid>, first: Pid)
      requires Accounted(unreaped, jobs, exempt, first) && Consecutive(children, first)
      ensures unreaped + SetOf(children) - SetOf(children) == unreaped
    {
    }

    /** Registers background children: as a job, or with the substitution that contains the shell. */
    method Launch(children: seq<Pid>, group: Option<Pid>, command: string, ghost unreaped: set<Pid>, ghost first: Pid)
      requires Accounted(unreaped, table.jobs, orphans + abandoned, first) && Numbered(table.State())
      requires Consecutive(children, first) && children != [] && p.nextPid == first + |children|
      requires p.unreaped == unreaped + SetOf(children) && Groups()
      requires (orphans != {} ==> contained) && (abandoned != {} ==> damaged)
      requires group == GroupOf(children, contained)
      modifies this`orphans, table
      ensures Books() && Groups()
      ensures table.State() == if contained then old(table.State())
                               else Add(old(table.State()), Job(children[0], command, children, Running, 0, true))
      ensures orphans == if contained then old(orphans) + SetOf(children) else old(orphans)
    {
      hide Accounted;
      if group == None {
        NewExempt(unreaped, table.jobs, orphans + abandoned, first, p.nextPid, SetOf(children));
        orphans := orphans + SetOf(children);
        assert old(orphans) + abandoned + SetOf(children) == orphans + abandoned;
      } else {
        var id := table.AddJob(group.value, command, children, true);
        NewJob(unreaped, old(table.jobs), orphans + abandoned, first, p.nextPid, id, table.jobs[id]);
        assert table.jobs[id].pids == children;
      }
    }

    // ------------------------------------------------------ external commands

    /** How failed calls and answers of `Popen` account for the outcome of an attempt to start a command. */
    ghost predicate Attempted(b: Birth, actions: seq<Action>, faults: nat, late: nat, errors: seq<Error>, launches: seq<Spawned>)
      reads p`faults, p`late, p`openErrors, p`launches
    {
      && late <= p.late
      && match b
         case Begun(pid, clean) =>
           && (clean <==> p.late == late) && p.faults - faults == p.late - late
           && p.launches == launches + [Child(pid)] && p.openErrors == errors
         case NotBegun(Unavailable(answer, clean)) =>
           && Possible(b.reason, actions)
           && (clean <==> p.late == late) && p.faults - faults == p.late - late + (if answer.SpawnFailed? then 1 else 0)
           && p.launches == launches + [answer] && p.openErrors == errors
         case NotBegun(Unredirected(leaving, error)) =>
           && Possible(b.reason, actions)
           && (leaving == Clean <==> p.late == late) && p.faults - faults == p.late - late + 1
           && p.launches == launches
           && (leaving == Clean ==> Blamed(Some(error), errors, p.openErrors))
    }

    /** Runs `Popen`, between entering and leaving the redirections of the command if there are any. */
    method SpawnRedirected(actions: seq<Action>) returns (b: Birth, ghost left: set<Pid>, ghost temps: set<Fd>)
      requires STANDARD <= p.fds.Keys && WellFormed(actions)
      modifies p`fds, p`serial, p`nextPid, p`unreaped, p`inherited, p`groups, p`faults, p`late, p`openErrors, p`launches
      ensures Attempted(b, actions, old(p.faults), old(p.late), old(p.openErrors), old(p.launches))
      ensures STANDARD <= p.fds.Keys && (p.late == old(p.late) ==> p.fds == old(p.fds))
      ensures old(p.nextPid) <= p.nextPid && (b.Begun? ==> old(p.nextPid) <= b.pid < p.nextPid)
      ensures left <= old(p.unreaped) && p.unreaped == left + if b.Begun? then {b.pid} else {}
      ensures b.Begun? ==>
                && b.pid in p.inherited
                && EnteredFrom(old(p.fds), p.inherited[b.pid], temps, None, None, actions, old(p.serial))
                && b.pid in p.groups && p.groups[b.pid] == p.shellGroup
    {
      hide EnteredFrom, Attempted;
      ghost var answer, clean;
      if actions == [] {
        NothingRedirected(p.fds, p.serial);
        temps := {};
        var said;
        said, left := PopenCommand();
        b, answer, clean := BirthOf(said, true), said, true;
      } else {
        var r := new Redirection(p);
        var entered := r.Enter(actions, None, None);
        if entered.Refused? {
          AttemptRefused(entered.leaving, entered.error, actions, old(p.faults), old(p.late), old(p.openErrors));
          return NotBegun(Unredirected(entered.leaving, entered.error)), p.unreaped, {};
        }
        b, left, temps, answer, clean :=
          SpawnBetween(r, old(p.fds), Target(old(p.fds), None, None, actions, old(p.serial)));
      }
      AttemptAnswered(answer, clean, actions, old(p.faults), old(p.late), old(p.launches));
    }

    lemma AttemptRefused(leaving: Leaving, error: Error, actions: seq<Action>, faults: nat, late: nat, errors: seq<Error>)
      requires late <= p.late && (leaving == Clean <==> p.late == late) && p.faults - faults == p.late - late + 1
      requires leaving == Clean ==> Blamed(Some(error), errors, p.openErrors)
      requires Possible(Unredirected(leaving, error), actions)
      ensures Attempted(NotBegun(Unredirected(leaving, error)), actions, faults, late, errors, p.launches)
    {
    }

    lemma AttemptAnswered(answer: Spawned, clean: bool, actions: seq<Action>, faults: nat, late: nat, launches: seq<Spawned>)
      requires late <= p.late && (clean <==> p.late == late) && p.launches == launches + [answer]
      requires p.faults - faults == p.late - late + (if answer.SpawnFailed? then 1 else 0)
      requires actions == [] ==> clean
      ensures Attempted(BirthOf(answer, clean), actions, faults, late, p.openErrors, launches)
    {
    }

    /** `Popen` inside the redirections, and leaving them. */
    method SpawnBetween(r: Redirection, ghost entry: Kernel.Table, ghost visible: Kernel.Table)
      returns (b: Birth, ghost left: set<Pid>, ghost temps: set<Fd>, ghost answer: Spawned, ghost clean: bool)
      requires r.p == p && r.Preparing(entry, visible) && r.saved.Keys == STANDARD && r.Settled()
      modifies r, p`fds, p`nextPid, p`unreaped, p`inherited, p`groups, p`faults, p`late, p`launches
      ensures temps == old(r.held).Keys
      ensures b == BirthOf(answer, clean) && p.launches == old(p.launches) + [answer]
      ensures old(p.late) <= p.late && (clean <==> p.late == old(p.late))
      ensures p.faults - old(p.faults) == p.late - old(p.late) + if answer.SpawnFailed? then 1 else 0
      ensures STANDARD <= p.fds.Keys && (p.late == old(p.late) ==> p.fds == entry)
      ensures old(p.nextPid) <= p.nextPid && (b.Begun? ==> old(p.nextPid) <= b.pid < p.nextPid)
      ensures left <= old(p.unreaped) && p.unreaped == left + if b.Begun? then {b.pid} else {}
      ensures b.Begun? ==>
                && b.pid in p.inherited && p.inherited[b.pid] == old(p.fds)
                && b.pid in p.groups && p.groups[b.pid] == p.shellGroup
    {
      hide Prepares;
      temps := r.held.Keys;
      var said;
      said, left := PopenCommand();
      var restored := LeaveRestored(r, entry, visible);
      b, answer, clean := BirthOf(said, restored), said, restored;
    }

    lemma NothingRedirected(t: Kernel.Table, serial: nat)
      requires STANDARD <= t.Keys
      ensures WellFormed([]) && EnteredFrom(t, t, {}, None, None, [], serial)
    {
      FoldNone(t, serial);
      assert t - {} == t;
    }

    /** `Popen` itself. */
    method PopenCommand() returns (answer: Spawned, ghost left: set<Pid>)
      modifies p`nextPid, p`unreaped, p`inherited, p`groups, p`faults, p`launches
      ensures p.faults == old(p.faults) + (if answer.SpawnFailed? then 1 else 0) && p.launches == old(p.launches) + [answer]
      ensures old(p.nextPid) <= p.nextPid && (answer.Child? ==> old(p.nextPid) <= answer.pid < p.nextPid)
      ensures left <= old(p.unreaped) && p.unreaped == left + if answer.Child? then {answer.pid} else {}
      ensures answer.Child? ==>
                && answer.pid in p.inherited && p.inherited[answer.pid] == p.fds
                && answer.pid in p.groups && p.groups[answer.pid] == p.shellGroup
    {
      p.ReapElsewhere();
      left := p.unreaped;
      answer := p.Spawn();
    }

    /** Leaving after an undisturbed body puts every descriptor back unless a call of the cleanup fails. */
    method LeaveRestored(r: Redirection, ghost entry: Kernel.Table, ghost visible: Kernel.Table) returns (clean: bool)
      requires r.p == p && r.Preparing(entry, visible) && r.saved.Keys == STANDARD && r.Settled()
      modifies r, p`fds, p`faults, p`late
      ensures old(p.late) <= p.late && (clean <==> p.late == old(p.late)) && p.faults - old(p.faults) == p.late - old(p.late)
      ensures STANDARD <= p.fds.Keys && (clean ==> p.fds == entry)
    {
      PreparesKeys(p.fds, r.saved, r.held, r.base, entry, visible);
      ghost var held := r.held;
      var leaving := r.Leave(entry, visible);
      if leaving == Clean {
        assert r.held == map[];
        assert p.fds - r.held.Keys == p.fds;
        PutBackWhole(visible, entry, STANDARD);
      }
      clean := leaving == Clean;
    }

    /** Enters and leaves the redirections once more, around an error message. */
    method ReportRedirected(actions: seq<Action>) returns (reported: bool)
      requires STANDARD <= p.fds.Keys && WellFormed(actions)
      modifies p`fds, p`serial, p`faults, p`late, p`openErrors
      ensures old(p.late) <= p.late && old(p.faults) <= p.faults && (reported <==> p.faults == old(p.faults))
      ensures old(p.openErrors) <= p.openErrors
      ensures STANDARD <= p.fds.Keys && (p.late == old(p.late) ==> p.fds == old(p.fds))
    {
      ghost var entry, serial := p.fds, p.serial;
      var r := new Redirection(p);
      var e := r.Enter(actions, None, None);
      if e.Refused? {
        return false;
      }
      reported := LeaveRestored(r, entry, Target(entry, None, None, actions, serial));
    }

    /** The wait of a foreground command: it ends, it is stopped and becomes a job, or it is interrupted. */
    method AwaitCommand(pid: Pid, command: string, ghost rest: set<Pid>, ghost before: Pid)
      returns (status: int, ghost fate: Fate)
      requires Accounted(rest, table.jobs, orphans + abandoned, before) && Numbered(table.State())
      requires p.unreaped == rest + {pid} && before <= pid < p.nextPid
      requires Groups() && (orphans != {} ==> contained) && (abandoned != {} ==> damaged)
      modifies p`unreaped, p`collected, p`signals, p`interrupts, p`stops, p`foreground, p`refusals, p`handovers, table
      ensures p.interrupts == old(p.interrupts) + (if fate.Killed? then 1 else 0)
              && p.stops == old(p.stops) + (if fate.Suspended? then 1 else 0)
      ensures Books() && Groups()
      ensures fate in {Finished(pid), Suspended(pid), Killed(pid)}
      ensures fate.Suspended? <==> pid in p.unreaped
      ensures fate.Suspended? ==>
                && !contained && status == STOPPED_STATUS == 148
                && table.State() == Add(old(table.State()), Job(pid, command, [pid], Stopped, 0, false))
      ensures fate.Finished? ==>
                && pid in p.collected && status == ExitStatus(p.collected[pid])
                && status == match p.collected[pid]
                             case Exited(code) => code
                             case Signaled(signal) => 128 + signal
                             case Unclassified => 1
      ensures fate.Killed? ==> status == SIGINT_STATUS == 130
      ensures if contained then p.handovers == old(p.handovers) else Lent(pid, old(p.handovers), old(p.refusals))
      ensures p.signals == old(p.signals) +
                           if !fate.Killed? then [] else [if contained then ToChild(pid, "SIGTERM") else ToGroup(pid, "SIGINT")]
      ensures !fate.Suspended? ==> table.State() == old(table.State())
      ensures p.unreaped == rest + if fate.Suspended? then {pid} else {}
    {
      hide Accounted, Numbered, Add, NoGroupSignals;
      FreshPid(rest, table.jobs, orphans + abandoned, before, pid);
      var group := if contained then None else Some(pid);
      var handed := GiveTerminal(group);
      var answer := p.WaitPid(pid, !contained);
      if answer.Collected? {
        status, fate := ExitStatus(answer.raw), Finished(pid);
        Shrink(rest, p.unreaped, table.jobs, orphans + abandoned, before, p.nextPid);
      } else if answer.ChildStopped? {
        Suspend(pid, command, rest, before);
        status, fate := STOPPED_STATUS, Suspended(pid);
      } else {
        p.Send(if contained then ToChild(pid, SIGTERM) else ToGroup(pid, SIGINT));
        OneMoreSignal(old(p.signals), pid, SIGTERM);
        p.Reap(pid);
        status, fate := SIGINT_STATUS, Killed(pid);
        Shrink(rest, p.unreaped, table.jobs, orphans + abandoned, before, p.nextPid);
      }
      TakeTerminal(handed);
    }

    lemma OneMoreSignal(signals: seq<Signal>, pid: Pid, name: string)
      ensures NoGroupSignals(signals) ==> NoGroupSignals(signals + [ToChild(pid, name)])
    {
    }

    /** A stopped foreground command becomes a job. */
    method Suspend(pid: Pid, command: string, ghost rest: set<Pid>, ghost before: Pid)
      requires Accounted(rest, table.jobs, orphans + abandoned, before) && Numbered(table.State())
      requires p.unreaped == rest + {pid} && before <= pid < p.nextPid
      requires (orphans != {} ==> contained) && (abandoned != {} ==> damaged)
      modifies table
      ensures Books()
      ensures table.State() == Add(old(table.State()), Job(pid, command, [pid], Stopped, 0, false))
    {
      hide Accounted;
      var id := table.AddJob(pid, command, [pid], false);
      table.MarkStatus(id, Stopped);
      NewJob(rest, old(table.jobs), orphans + abandoned, before, p.nextPid, id, table.jobs[id]);
      assert SetOf([pid]) == {pid};
      assert table.jobs == old(table.jobs)[id := table.jobs[id]];
    }

    lemma FreshPid(unreaped: set<Pid>, jobs: map<nat, Job>, exempt: set<Pid>, before: Pid, pid: Pid)
      requires Accounted(unreaped, jobs, exempt, before) && before <= pid
      ensures pid !in unreaped && unreaped + {pid} - {pid} == unreaped
    {
    }

    /** What `_run_external` does when there is no process: a missing command is reported through its redirections. */
    method ReportNotStarted(reason: Reason, actions: seq<Action>) returns (status: int, reported: bool)
      requires STANDARD <= p.fds.Keys && WellFormed(actions)
      modifies p`fds, p`serial, p`faults, p`late, p`openErrors
      ensures status == StatusWithout(Raised(reason), actions, reported)
      ensures Raised(reason) == NoEntry && !OnlyStdin(actions) ==> (reported <==> p.faults == old(p.faults))
      ensures match reason
              case Unavailable(NotFound, true) =>
                status == if (forall a :: a in actions ==> a.fd == 0) || p.faults == old(p.faults) then 127 else 1
              case Unavailable(NotExecutable, true) => status == 126
              case Unavailable(_, _) => status == 1
              case Unredirected(_, NoEntry) =>
                status == if (forall a :: a in actions ==> a.fd == 0) || p.faults == old(p.faults) then 127 else 1
              case Unredirected(_, Denied) => status == 126
              case Unredirected(_, Unspecified) => status == 1
      ensures old(p.late) <= p.late && old(p.openErrors) <= p.openErrors
      ensures STANDARD <= p.fds.Keys && (p.late == old(p.late) ==> p.fds == old(p.fds))
    {
      reported := false;
      match Raised(reason) {
        case NoEntry =>
          status := COMMAND_NOT_FOUND;
          if exists a :: a in actions && a.fd != 0 {
            reported := ReportRedirected(actions);
            if !reported {
              status := GENERAL_ERROR;
            }
          }
        case Denied => status := CANNOT_EXECUTE;
        case Unspecified => status := GENERAL_ERROR;
      }
    }

    /** The command was started with exactly the fold of its redirections, and in its own group unless contained. */
    ghost predicate Started(pid: Pid, entry: Kernel.Table, actions: seq<Action>, serial: nat)
      requires STANDARD <= entry.Keys && WellFormed(actions)
      reads p`inherited, p`groups
    {
      && pid in p.inherited && (exists temps :: EnteredFrom(entry, p.inherited[pid], temps, None, None, actions, serial))
      && pid in p.groups && (p.groups[pid] == p.shellGroup || (!contained && p.groups[pid] == pid))
    }

    lemma StartedWith(pid: Pid, entry: Kernel.Table, actions: seq<Action>, serial: nat, temps: set<Fd>)
      requires STANDARD <= entry.Keys && WellFormed(actions) && pid in p.inherited
      requires EnteredFrom(entry, p.inherited[pid], temps, None, None, actions, serial)
      requires pid in p.groups && (p.groups[pid] == p.shellGroup || (!contained && p.groups[pid] == pid))
      ensures Started(pid, entry, actions, serial)
    {
    }

    /** What became of a command: its status, the job table, the children of a contained shell, the terminal. */
    ghost predicate Fared(fate: Fate, status: int, command: string, background: bool,
                          was: Contents, exempt: set<Pid>, handovers: seq<Pid>, refusals: nat)
      reads this`orphans, p`collected, p`handovers, p`refusals, table
    {
      && (match fate
          case NotStarted(_, _) => true
          case Backgrounded(_) => background && status == SUCCESS
          case Finished(pid) => pid in p.collected && status == ExitStatus(p.collected[pid])
          case Suspended(_) => !contained && status == STOPPED_STATUS
          case Killed(_) => status == SIGINT_STATUS
          case Lost(_) => status == GENERAL_ERROR)
      && table.State() == (if fate.Suspended? then Add(was, Job(fate.pid, command, [fate.pid], Stopped, 0, false))
                           else if fate.Backgrounded? && !contained
                           then Add(was, Job(fate.pid, command, [fate.pid], Running, 0, true))
                           else was)
      && orphans == (if fate.Backgrounded? && contained then exempt + {fate.pid} else exempt)
      && (if (fate.Finished? || fate.Suspended? || fate.Killed?) && !contained then Lent(fate.pid, handovers, refusals)
          else p.handovers == handovers)
    }

    /** How failed calls and the answer of `Popen` account for what became of a command. */
    ghost predicate Explained(fate: Fate, status: int, actions: seq<Action>,
                              faults: nat, late: nat, errors: seq<Error>, launches: seq<Spawned>)
      reads p`faults, p`late, p`openErrors, p`launches
    {
      && late <= p.late
      && match fate
         case NotStarted(reason, reported) =>
           && Possible(reason, actions) && status == StatusWithout(Raised(reason), actions, reported)
           && p.launches == launches + (if reason.Unavailable? then [reason.answer] else [])
           && (reason.Unredirected? && reason.error != Unspecified ==>
                 |errors| < |p.openErrors| && p.openErrors[|errors|] == reason.error)
           && (Raised(reason) == NoEntry && !OnlyStdin(actions) ==>
                 (reported <==> p.faults == faults + if reason.Unredirected? then 1 else 0))
         case _ =>
           && p.launches == launches + [Child(fate.pid)]
           && (fate.Lost? <==> p.late != late) && (fate.Lost? <==> p.faults != faults)
    }

    /** `_run_external` */
    method ExecuteExternal(actions: seq<Action>, command: string, background: bool) returns (status: int, ghost fate: Fate)
      requires Valid() && WellFormed(actions)
      modifies this`orphans, this`abandoned, this`damaged, p, table
      ensures Valid() && (damaged <==> old(damaged) || p.late != old(p.late))
      ensures Explained(fate, status, actions, old(p.faults), old(p.late), old(p.openErrors), old(p.launches))
      ensures fate.NotStarted? ==> p.unreaped <= old(p.unreaped)
      ensures p.interrupts == old(p.interrupts) + (if fate.Killed? then 1 else 0)
              && p.stops == old(p.stops) + (if fate.Suspended? then 1 else 0)
      ensures !fate.NotStarted? ==>
                && old(p.nextPid) <= fate.pid && Started(fate.pid, old(p.fds), actions, old(p.serial))
                && (fate.pid in p.unreaped <==> fate.Backgrounded? || fate.Suspended? || fate.Lost?)
                && p.unreaped - {fate.pid} <= old(p.unreaped)
                && (!contained && !fate.Lost? && p.ungrouped == old(p.ungrouped) ==> p.groups[fate.pid] == fate.pid)
      ensures abandoned == if fate.Lost? then old(abandoned) + {fate.pid} else old(abandoned)
      ensures Fared(fate, status, command, background,
                    old(table.State()), old(orphans), old(p.handovers), old(p.refusals))
      ensures match fate
              case NotStarted(reason, reported) => StatusSays(reason, actions, reported, status)
              case Backgrounded(_) => status == 0
              case Finished(pid) =>
                && pid in p.collected
                && status == (match p.collected[pid]
                              case Exited(code) => code
                              case Signaled(signal) => 128 + signal
                              case Unclassified => 1)
              case Suspended(_) => status == 148
              case Killed(_) => status == 130
              case Lost(_) => status == 1
    {
      hide Accounted, EnteredFrom, Numbered, Started, Groups, Fared, Attempted, Explained, Books, Descriptors, Target;
      hide StatusSays, WellFormed;
      ghost var left, temps;
      var b;
      b, left, temps := AttemptCommand(actions);
      if b.NotBegun? {
        status, fate := GiveUp(b.reason, actions, old(p.faults), old(p.late), old(p.openErrors), old(p.launches));
        NothingRan(fate, status, command, background);
      } else {
        status, fate := Follow(b, actions, command, background, left, old(p.nextPid),
                               old(p.faults), old(p.late), old(p.openErrors), old(p.launches));
        StartedWith(b.pid, old(p.fds), actions, old(p.serial), temps);
      }
      FateSays(fate, status, command, background, old(table.State()), old(orphans), old(p.handovers), old(p.refusals), actions,
               old(p.faults), old(p.late), old(p.openErrors), old(p.launches));
    }

    /**
     * The status of a command that was not started: 127 if it is missing, or a file that it reads is,
     * 126 if it or such a file may not be used, and 1 for every other error. A missing one that could
     * not be reported through the redirections counts as 1 too.
     */
    ghost predicate StatusSays(reason: Reason, actions: seq<Action>, reported: bool, status: int) {
      status ==
      match reason
      case Unavailable(NotFound, true) => if (forall a :: a in actions ==> a.fd == 0) || reported then 127 else 1
      case Unavailable(NotExecutable, true) => 126
      case Unavailable(_, _) => 1
      case Unredirected(_, NoEntry) => if (forall a :: a in actions ==> a.fd == 0) || reported then 127 else 1
      case Unredirected(_, Denied) => 126
      case Unredirected(_, Unspecified) => 1
    }

    /** The status of a command in plain numbers. */
    lemma FateSays(fate: Fate, status: int, command: string, background: bool,
                   was: Contents, exempt: set<Pid>, handovers: seq<Pid>, refusals: nat, actions: seq<Action>,
                   faults: nat, late: nat, errors: seq<Error>, launches: seq<Spawned>)
      requires Fared(fate, status, command, background, was, exempt, handovers, refusals)
      requires Explained(fate, status, actions, faults, late, errors, launches)
      ensures match fate
              case NotStarted(reason, reported) => StatusSays(reason, actions, reported, status)
              case Backgrounded(_) => status == 0
              case Finished(pid) =>
                && pid in p.collected
                && status == (match p.collected[pid]
                              case Exited(code) => code
                              case Signaled(signal) => 128 + signal
                              case Unclassified => 1)
              case Suspended(_) => status == 148
              case Killed(_) => status == 130
              case Lost(_) => status == 1
    {
    }

    /** The attempt to start a command, and what it means for the books. */
    method AttemptCommand(actions: seq<Action>) returns (b: Birth, ghost left: set<Pid>, ghost temps: set<Fd>)
      requires Valid() && WellFormed(actions)
      modifies this`damaged
      modifies p`fds, p`serial, p`nextPid, p`unreaped, p`inherited, p`groups, p`faults, p`late, p`openErrors, p`launches
      ensures Attempted(b, actions, old(p.faults), old(p.late), old(p.openErrors), old(p.launches))
      ensures old(p.late) <= p.late && (b.Begun? ==> (b.clean <==> p.late == old(p.late)))
      ensures Descriptors() && Groups() && (damaged <==> old(damaged) || p.late != old(p.late))
      ensures STANDARD <= old(p.fds).Keys
      ensures left <= old(p.unreaped) && p.unreaped == left + if b.Begun? then {b.pid} else {}
      ensures Accounted(left, table.jobs, orphans + abandoned, old(p.nextPid)) && (b.NotBegun? ==> Books())
      ensures Numbered(table.State()) && (orphans != {} ==> contained) && (abandoned != {} || (b.Begun? && !b.clean) ==> damaged)
      ensures b.Begun? ==>
                && old(p.nextPid) <= b.pid < p.nextPid && b.pid in p.inherited
                && EnteredFrom(old(p.fds), p.inherited[b.pid], temps, None, None, actions, old(p.serial))
                && b.pid in p.groups && p.groups[b.pid] == p.shellGroup
    {
      hide Accounted, EnteredFrom, Numbered, Groups, Attempted;
      b, left, temps := SpawnRedirected(actions);
      AttemptedLate(b, actions, old(p.faults), old(p.late), old(p.openErrors), old(p.launches));
      damaged := damaged || p.late != old(p.late);
      Shrink(old(p.unreaped), left, table.jobs, orphans + abandoned, old(p.nextPid), old(p.nextPid));
      if b.NotBegun? {
        Shrink(left, left, table.jobs, orphans + abandoned, old(p.nextPid), p.nextPid);
        assert p.unreaped == left;
      }
    }

    lemma AttemptedLate(b: Birth, actions: seq<Action>, faults: nat, late: nat, errors: seq<Error>, launches: seq<Spawned>)
      requires Attempted(b, actions, faults, late, errors, launches)
      ensures late <= p.late && (b.Begun? ==> (b.clean <==> p.late == late))
    {
    }

    lemma BegunExplained(b: Birth, fate: Fate, status: int, actions: seq<Action>,
                         faults: nat, late: nat, errors: seq<Error>, launches: seq<Spawned>)
      requires Attempted(b, actions, faults, late, errors, launches) && b.Begun?
      requires !fate.NotStarted? && fate.pid == b.pid && (fate.Lost? <==> !b.clean)
      ensures Explained(fate, status, actions, faults, late, errors, launches)
    {
    }

    /** The path without a process. */
    method GiveUp(reason: Reason, actions: seq<Action>,
                  ghost faults: nat, ghost late: nat, ghost errors: seq<Error>, ghost launches: seq<Spawned>)
      returns (status: int, ghost fate: Fate)
      requires Attempted(NotBegun(reason), actions, faults, late, errors, launches)
      requires Books() && Descriptors() && WellFormed(actions)
      modifies this`damaged, p`fds, p`serial, p`faults, p`late, p`openErrors
      ensures Books() && Descriptors() && (damaged <==> old(damaged) || p.late != old(p.late)) && old(p.late) <= p.late
      ensures fate.NotStarted? && Explained(fate, status, actions, faults, late, errors, launches)
    {
      hide StatusWithout, OnlyStdin;
      var reported;
      status, reported := ReportNotStarted(reason, actions);
      damaged := damaged || p.late != old(p.late);
      fate := NotStarted(reason, reported);
    }

    lemma NothingRan(fate: Fate, status: int, command: string, background: bool)
      requires fate.NotStarted? || (fate.Lost? && status == GENERAL_ERROR)
      ensures Fared(fate, status, command, background, table.State(), orphans, p.handovers, p.refusals)
    {
    }

    /** What follows a successful `Popen`. */
    method Follow(b: Birth, actions: seq<Action>, command: string, background: bool, ghost left: set<Pid>, ghost first: Pid,
                  ghost faults: nat, ghost late: nat, ghost errors: seq<Error>, ghost launches: seq<Spawned>)
      returns (status: int, ghost fate: Fate)
      requires Attempted(b, actions, faults, late, errors, launches)
      requires b.Begun? && Accounted(left, table.jobs, orphans + abandoned, first) && Numbered(table.State()) && Groups()
      requires p.unreaped == left + {b.pid} && first <= b.pid < p.nextPid
      requires (orphans != {} ==> contained) && (abandoned != {} ==> damaged) && (!b.clean ==> damaged)
      requires b.pid in p.groups && p.groups[b.pid] == p.shellGroup
      modifies this`orphans, this`abandoned, p`groups, p`ungrouped, p`unreaped, p`collected, p`signals
      modifies p`interrupts, p`stops, p`foreground, p`refusals, p`handovers, table
      ensures Books() && Groups() && !fate.NotStarted? && fate.pid == b.pid && (fate.Lost? <==> !b.clean)
      ensures Explained(fate, status, actions, faults, late, errors, launches)
      ensures p.interrupts == old(p.interrupts) + (if fate.Killed? then 1 else 0)
              && p.stops == old(p.stops) + (if fate.Suspended? then 1 else 0)
      ensures b.pid in p.groups
      ensures p.groups[b.pid] == if contained || fate.Lost? || p.ungrouped != old(p.ungrouped) then p.shellGroup else b.pid
      ensures p.unreaped == left + (if fate.Backgrounded? || fate.Suspended? || fate.Lost? then {b.pid} else {})
      ensures b.pid !in left
      ensures abandoned == if fate.Lost? then old(abandoned) + {b.pid} else old(abandoned)
      ensures Fared(fate, status, command, background,
                    old(table.State()), old(orphans), old(p.handovers), old(p.refusals))
    {
      hide Accounted, Numbered, Add, Groups, Fared, Attempted, Explained;
      FreshPid(left, table.jobs, orphans + abandoned, first, b.pid);
      if b.clean {
        status, fate := Supervise(b.pid, command, background, left, first);
      } else {
        status, fate := GENERAL_ERROR, Lost(b.pid);
        Abandon(b.pid, left, first);
        NothingRan(fate, status, command, background);
      }
      BegunExplained(b, fate, status, actions, faults, late, errors, launches);
    }

    /** The group, and then the background or the wait. */
    method Supervise(pid: Pid, command: string, background: bool, ghost left: set<Pid>, ghost first: Pid)
      returns (status: int, ghost fate: Fate)
      requires Accounted(left, table.jobs, orphans + abandoned, first) && Numbered(table.State()) && Groups()
      requires p.unreaped == left + {pid} && first <= pid < p.nextPid
      requires (orphans != {} ==> contained) && (abandoned != {} ==> damaged)
      requires pid in p.groups && p.groups[pid] == p.shellGroup
      modifies this`orphans, p`groups, p`ungrouped, p`unreaped, p`collected, p`signals, p`interrupts, p`stops
      modifies p`foreground, p`refusals, p`handovers, table
      ensures p.interrupts == old(p.interrupts) + (if fate.Killed? then 1 else 0)
              && p.stops == old(p.stops) + (if fate.Suspended? then 1 else 0)
      ensures Books() && Groups()
      ensures pid in p.groups && p.groups[pid] == if contained || p.ungrouped != old(p.ungrouped) then p.shellGroup else pid
      ensures fate in {Backgrounded(pid), Finished(pid), Suspended(pid), Killed(pid)}
      ensures p.unreaped == left + if fate.Backgrounded? || fate.Suspended? then {pid} else {}
      ensures pid !in left
      ensures Fared(fate, status, command, background,
                    old(table.State()), old(orphans), old(p.handovers), old(p.refusals))
    {
      hide Accounted, Numbered, Add, Groups;
      FreshPid(left, table.jobs, orphans + abandoned, first, pid);
      if !contained {
        p.SetGroup(pid, pid);
      }
      if background {
        LaunchCommand(pid, command, left, first);
        return SUCCESS, Backgrounded(pid);
      }
      status, fate := AwaitCommand(pid, command, left, first);
    }

    /** A child that nobody waits for, because the error of the restoration comes first. */
    ghost method Abandon(pid: Pid, left: set<Pid>, first: Pid)
      requires Accounted(left, table.jobs, orphans + abandoned, first) && Numbered(table.State())
      requires p.unreaped == left + {pid} && first <= pid < p.nextPid
      requires (orphans != {} ==> contained) && damaged
      modifies this`abandoned
      ensures Books() && abandoned == old(abandoned) + {pid}
    {
      hide Accounted;
      NewExempt(left, table.jobs, orphans + abandoned, first, p.nextPid, {pid});
      abandoned := abandoned + {pid};
      assert orphans + old(abandoned) + {pid} == orphans + abandoned;
    }

    method LaunchCommand(pid: Pid, command: string, ghost left: set<Pid>, ghost first: Pid)
      requires Accounted(left, table.jobs, orphans + abandoned, first) && Numbered(table.State())
      requires p.unreaped == left + {pid} && first <= pid < p.nextPid
      requires Groups() && (orphans != {} ==> contained) && (abandoned != {} ==> damaged)
      modifies this`orphans, table
      ensures Books() && Groups()
      ensures table.State() == if contained then old(table.State())
                               else Add(old(table.State()), Job(pid, command, [pid], Running, 0, true))
      ensures orphans == if contained then old(orphans) + {pid} else old(orphans)
    {
      hide Accounted;
      if contained {
        NewExempt(left, table.jobs, orphans + abandoned, first, p.nextPid, {pid});
        orphans := orphans + {pid};
        assert old(orphans) + abandoned + {pid} == orphans + abandoned;
      } else {
        var id := table.AddJob(pid, command, [pid], true);
        NewJob(left, old(table.jobs), orphans + abandoned, first, p.nextPid, id, table.jobs[id]);
        assert SetOf([pid]) == {pid};
      }
    }

    // ------------------------------------------------------------ job control

    method ResolveJob(arg: JobArg) returns (id: Option<nat>)
      requires Numbered(table.State())
      ensures id.Some? ==> id.value in table.jobs
      ensures arg.NoArg? ==> GreatestAlive(table.State(), id)
      ensures arg.JobNumber? ==> id == if arg.id in table.jobs then Some(arg.id) else None
      ensures arg.NotANumber? ==> id == None
    {
      match arg
      case NoArg => id := table.GetCurrentJob();
      case JobNumber(n) => id := if n in table.jobs then Some(n) else None;
      case NotANumber => id := None;
    }

    /** What `fg` leaves behind for the job it waited for. */
    ghost predicate WaitedFor(id: nat, before: Job, unreaped: set<Pid>, status: int, waiting: Waiting)
      reads p`unreaped, p`collected, table`jobs
    {
      && id in table.jobs
      && if waiting == Halted then status == STOPPED_STATUS && table.jobs[id] == before.(status := Stopped)
         else
           && table.jobs[id] == before.(status := Done, lastStatus := status)
           && (forall pid :: pid in before.pids ==> pid !in p.unreaped)
           && (forall pid :: pid in before.pids && pid in unreaped ==> pid in p.collected)
           && status == if waiting == Broken then SIGINT_STATUS else LastCollected(before.pids, unreaped, p.collected)
    }

    /** A wait is broken off exactly by an interrupt and halted exactly by a stop. */
    ghost predicate WaitCounts(waiting: Waiting, interrupts: nat, stops: nat)
      reads p`interrupts, p`stops
    {
      && p.interrupts == interrupts + (if waiting == Broken then 1 else 0)
      && p.stops == stops + (if waiting == Halted then 1 else 0)
    }

    /** `fg`: waits for a job until it ends or stops; a job that was over stays over. */
    method Foreground(arg: JobArg) returns (status: int, ghost found: Option<nat>, ghost waiting: Waiting)
      requires Valid()
      modifies p`unreaped, p`collected, p`signals, p`interrupts, p`stops, p`foreground, p`refusals, p`handovers, table
      ensures Valid()
      ensures WaitCounts(waiting, old(p.interrupts), old(p.stops))
      ensures contained ==> found == None
      ensures found == None ==> status == 1 && table.State() == old(table.State()) && p.unreaped == old(p.unreaped)
                                && p.signals == old(p.signals) && p.handovers == old(p.handovers)
      ensures found.Some? ==>
                && found.value in old(table.jobs)
                && (old(table.jobs)[found.value].group > 0 ==>
                      Lent(old(table.jobs)[found.value].group, old(p.handovers), old(p.refusals)))
                && WaitedFor(found.value, old(table.jobs)[found.value], old(p.unreaped), status, waiting)
                && (var job := old(table.jobs)[found.value];
                    p.signals == old(p.signals)
                                 + (if job.status == Stopped && job.group > 0 then [ToGroup(job.group, "SIGCONT")] else [])
                                 + (if waiting == Broken && job.group > 0 then [ToGroup(job.group, "SIGINT")] else []))
                && table.State() == Update(old(table.State()), found.value, table.jobs[found.value])
                && (old(table.jobs)[found.value].status !in {Running, Stopped} ==> status == 0 && p.unreaped == old(p.unreaped))
                && WaitSays(old(table.jobs)[found.value].pids, old(p.unreaped), status, waiting)
      ensures arg.NoArg? ==> GreatestAlive(old(table.State()), found)
      ensures arg.JobNumber? ==> found == if arg.id in old(table.jobs) then Some(arg.id) else None
    {
      hide Accounted, GreatestAlive, Numbered, WaitedFor, Descriptors, Groups, Lent, WaitSays;
      var id := ResolveJob(arg);
      found, waiting := id, Over;
      if id == None {
        return 1, found, waiting;
      }
      status, waiting := ForegroundJob(id.value);
    }

    /** The job gets the terminal, goes on if it was stopped, and is waited for. */
    method ForegroundJob(id: nat) returns (status: int, ghost waiting: Waiting)
      requires Books() && Groups() && id in table.jobs
      modifies p`unreaped, p`collected, p`signals, p`interrupts, p`stops, p`foreground, p`refusals, p`handovers, table`jobs
      ensures Books() && Groups() && !contained && WaitCounts(waiting, old(p.interrupts), old(p.stops))
      ensures old(table.jobs)[id].group > 0 ==> Lent(old(table.jobs)[id].group, old(p.handovers), old(p.refusals))
      ensures WaitedFor(id, old(table.jobs)[id], old(p.unreaped), status, waiting)
      ensures var job := old(table.jobs)[id];
              p.signals == old(p.signals)
                           + (if job.status == Stopped && job.group > 0 then [ToGroup(job.group, "SIGCONT")] else [])
                           + (if waiting == Broken && job.group > 0 then [ToGroup(job.group, "SIGINT")] else [])
      ensures id in table.jobs && table.State() == Update(old(table.State()), id, table.jobs[id])
      ensures !old(table.jobs)[id].Alive() ==> status == 0 && p.unreaped == old(p.unreaped)
      ensures WaitSays(old(table.jobs)[id].pids, old(p.unreaped), status, waiting)
    {
      hide Accounted, NoGroupSignals, Numbered, WaitedFor, WaitCounts, WaitSays;
      var job := table.jobs[id];
      assert !contained;
      var handed := GiveTerminal(if job.group > 0 then Some(job.group) else None);
      if job.status == Stopped && job.group > 0 {
        p.Send(ToGroup(job.group, SIGCONT));
      }
      status, waiting := WaitForJob(id);
      TakeTerminal(handed);
      NumberedStep(old(table.State()), UpdateJob(id, table.jobs[id]));
    }

    /** `mark_running` and `_wait_for_job` */
    method WaitForJob(id: nat) returns (status: int, ghost waiting: Waiting)
      requires Accounted(p.unreaped, table.jobs, orphans + abandoned, p.nextPid) && id in table.jobs
      modifies p`unreaped, p`collected, p`signals, p`interrupts, p`stops, table`jobs
      ensures WaitCounts(waiting, old(p.interrupts), old(p.stops))
      ensures Accounted(p.unreaped, table.jobs, orphans + abandoned, p.nextPid)
      ensures id in table.jobs && WaitedFor(id, old(table.jobs)[id], old(p.unreaped), status, waiting)
      ensures p.signals == old(p.signals) +
                           if waiting == Broken && old(table.jobs)[id].group > 0
                           then [ToGroup(old(table.jobs)[id].group, "SIGINT")] else []
      ensures table.State() == Update(old(table.State()), id, table.jobs[id])
      ensures !old(table.jobs)[id].Alive() ==> status == 0 && p.unreaped == old(p.unreaped)
      ensures WaitSays(old(table.jobs)[id].pids, old(p.unreaped), status, waiting)
    {
      var job := table.jobs[id];
      var pids := job.pids;
      ghost var over := !job.Alive();
      assert over ==> forall pid :: pid in pids ==> pid !in p.unreaped by {
        assert forall pid: Pid :: pid in pids ==> Owns(table.jobs, id, pid);
      }
      hide Accounted, Awaited, LastCollected, WaitSays;
      table.MarkStatus(id, Running);
      var ending;
      status, ending := AwaitProcesses(pids, job.group);
      waiting := ending;
      if ending == Halted {
        table.MarkStatus(id, Stopped);
      } else {
        table.MarkEnded(id, Done, status);
      }
      Changed(old(p.unreaped), p.unreaped, old(table.jobs), orphans + abandoned, p.nextPid, id, table.jobs[id]);
      assert table.jobs == old(table.jobs)[id := table.jobs[id]];
    }

    /** The waits of `_wait_for_job` */
    method AwaitProcesses(pids: seq<Pid>, group: Pid) returns (status: int, waiting: Waiting)
      modifies p`unreaped, p`collected, p`signals, p`interrupts, p`stops
      ensures WaitCounts(waiting, old(p.interrupts), old(p.stops))
      ensures p.unreaped <= old(p.unreaped)
      ensures p.signals == old(p.signals) + if waiting == Broken && group > 0 then [ToGroup(group, "SIGINT")] else []
      ensures waiting == Halted ==> status == STOPPED_STATUS
      ensures waiting != Halted ==>
                && (forall pid :: pid in pids ==> pid !in p.unreaped)
                && (forall pid :: pid in pids && pid in old(p.unreaped) ==> pid in p.collected)
                && status == if waiting == Broken then SIGINT_STATUS else LastCollected(pids, old(p.unreaped), p.collected)
      ensures (forall pid :: pid in pids ==> pid !in old(p.unreaped)) ==>
                waiting == Over && status == 0 && p.unreaped == old(p.unreaped)
      ensures WaitSays(pids, old(p.unreaped), status, waiting)
    {
      hide Awaited, LastCollected, LastThere;
      ghost var gone := forall pid :: pid in pids ==> pid !in p.unreaped;
      status, waiting := 0, Over;
      AwaitedNone(p.unreaped, p.collected);
      for i := 0 to |pids|
        invariant p.signals == old(p.signals) && p.unreaped <= old(p.unreaped)
        invariant WaitCounts(Over, old(p.interrupts), old(p.stops))
        invariant Awaited(pids[..i], old(p.unreaped), p.unreaped, p.collected, status)
        invariant gone ==> status == 0 && p.unreaped == old(p.unreaped)
      {
        assert pids[..i + 1] == pids[..i] + [pids[i]];
        label waiting:
        var answer := p.WaitPid(pids[i], true);
        match answer {
          case NoChild =>
            AwaitedGone(pids[..i], pids[i], old(p.unreaped), p.unreaped, p.collected, status);
          case Collected(raw) =>
            AwaitedOne(pids[..i], pids[i], old(p.unreaped), old@waiting(p.unreaped), old@waiting(p.collected), raw, status);
            status := ExitStatus(raw);
          case ChildStopped =>
            return STOPPED_STATUS, Halted;
          case Interrupted =>
            AwaitedSoFar(pids[..i], old(p.unreaped), p.unreaped, p.collected, status);
            ReapInterrupted(group, pids);
            return SIGINT_STATUS, Broken;
        }
      }
      assert pids[..|pids|] == pids;
      AwaitedSoFar(pids, old(p.unreaped), p.unreaped, p.collected, status);
      LastCollectedIs(pids, old(p.unreaped), p.collected);
    }

    /**
     * The status of a wait in plain numbers: that of the last process that there was to wait for, 148
     * for a stop and 130 for an interrupt.
     */
    ghost predicate WaitSays(pids: seq<Pid>, unreaped: set<Pid>, status: int, waiting: Waiting)
      reads p`collected
    {
      match waiting
      case Halted => status == 148
      case Broken => status == 130
      case Over =>
        && ((forall pid :: pid in pids ==> pid !in unreaped) ==> status == 0)
        && forall i :: 0 <= i < |pids| && LastThere(pids, unreaped, i) ==>
             && pids[i] in p.collected
             && status == match p.collected[pids[i]]
                          case Exited(code) => code
                          case Signaled(signal) => 128 + signal
                          case Unclassified => 1
    }

    /** The interrupt handler of `_wait_for_job` */
    method ReapInterrupted(group: Pid, pids: seq<Pid>)
      modifies p`unreaped, p`collected, p`signals
      ensures p.unreaped == old(p.unreaped) - SetOf(pids)
      ensures forall pid :: pid in old(p.unreaped) && pid !in p.unreaped ==> pid in p.collected
      ensures forall pid :: pid in old(p.collected) ==> pid in p.collected
      ensures p.signals == old(p.signals) + if group > 0 then [ToGroup(group, "SIGINT")] else []
    {
      if group > 0 {
        p.Send(ToGroup(group, SIGINT));
      }
      for k := 0 to |pids|
        invariant p.unreaped == old(p.unreaped) - SetOf(pids[..k])
        invariant forall pid :: pid in old(p.unreaped) && pid !in p.unreaped ==> pid in p.collected
        invariant forall pid :: pid in old(p.collected) ==> pid in p.collected
        invariant p.signals == old(p.signals) + if group > 0 then [ToGroup(group, SIGINT)] else []
      {
        assert pids[..k + 1] == pids[..k] + [pids[k]];
        p.Reap(pids[k]);
      }
      assert pids[..|pids|] == pids;
    }

    /** `bg`: a stopped job goes on in the background; nothing is waited for. */
    method Background(arg: JobArg) returns (status: int, ghost found: Option<nat>)
      requires Valid()
      modifies p`signals, p`faults, table`jobs
      ensures Valid() && old(p.faults) <= p.faults
      ensures contained ==> found == None
      ensures found.Some? ==> found.value in old(table.jobs)
      ensures status == 0 <==>
                found.Some? && old(table.jobs)[found.value].status == Stopped && p.faults == old(p.faults)
      ensures status == 0 ==>
                && table.State() == Update(old(table.State()), found.value,
                                           old(table.jobs)[found.value].(status := Running, background := true))
      ensures status != 0 ==> status == 1 && table.State() == old(table.State())
      ensures p.signals == old(p.signals) +
                           if status == 0 && old(table.jobs)[found.value].group > 0
                           then [ToGroup(old(table.jobs)[found.value].group, "SIGCONT")] else []
      ensures arg.NoArg? ==> GreatestAlive(old(table.State()), found)
      ensures arg.JobNumber? ==> found == if arg.id in old(table.jobs) then Some(arg.id) else None
    {
      hide Accounted, NoGroupSignals, GreatestAlive, Numbered;
      var id := ResolveJob(arg);
      found := id;
      if id == None {
        return 1, found;
      }
      var job := table.jobs[id.value];
      if job.status != Stopped {
        return 1, found;
      }
      if job.group > 0 {
        var fails := p.Fails();
        if fails {
          return 1, found;
        }
        p.Send(ToGroup(job.group, SIGCONT));
      }
      Changed(p.unreaped, p.unreaped, table.jobs, orphans + abandoned, p.nextPid, id.value,
              job.(status := Running, background := true));
      NumberedStep(table.State(), UpdateJob(id.value, job.(status := Running, background := true)));
      table.MarkStatus(id.value, Running);
      table.SetJob(id.value, table.jobs[id.value].(background := true));
      assert table.jobs == old(table.jobs)[id.value := job.(status := Running, background := true)];
      status := 0;
    }

    // ---------------------------------------------------------------- polling

    /** `reap_background_jobs`: polls every running job. */
    method ReapBackgroundJobs() returns (ghost asked: seq<Pid>, ghost replies: seq<Poll>)
      requires Valid()
      modifies p`unreaped, p`collected, p`asked, p`replies, table`jobs
      ensures Valid() && p.unreaped <= old(p.unreaped)
      ensures p.asked == old(p.asked) + asked && p.replies == old(p.replies) + replies
      ensures AllPolled(old(table.jobs), table.jobs, {}, asked, replies, old(p.unreaped), p.unreaped, p.collected)
      ensures forall id, pid :: Owns(table.jobs, id, pid) ==> Owns(old(table.jobs), id, pid)
      ensures table.jobs.Keys == old(table.jobs).Keys
      ensures forall id :: id in table.jobs && old(table.jobs)[id].status == Running ==>
                             exists at :: StatusTold(old(table.jobs)[id], table.jobs[id].status, asked, replies, at)
      ensures forall id :: id in table.jobs && old(table.jobs)[id].status != Running ==> table.jobs[id] == old(table.jobs)[id]
    {
      hide Accounted, NoGroupSignals, Numbered, Polled, PolledWith, AllPolled, StatusTold;
      var todo := table.jobs.Keys;
      asked, replies := [], [];
      NothingPolled(table.jobs, p.unreaped, p.collected);
      while todo != {}
        invariant todo <= table.jobs.Keys && p.unreaped <= old(p.unreaped)
        invariant Accounted(p.unreaped, table.jobs, orphans + abandoned, p.nextPid) && Numbered(table.State())
        invariant forall id, pid :: Owns(table.jobs, id, pid) ==> Owns(old(table.jobs), id, pid)
        invariant table.current == old(table.current) && table.nextId == old(table.nextId)
        invariant table.jobs.Keys == old(table.jobs).Keys
        invariant AllPolled(old(table.jobs), table.jobs, todo, asked, replies, old(p.unreaped), p.unreaped, p.collected)
        invariant p.asked == old(p.asked) + asked && p.replies == old(p.replies) + replies && |asked| == |replies|
        decreases todo
      {
        var id :| id in todo;
        PassedOver(old(table.jobs), table.jobs, todo, id, asked, replies, old(p.unreaped), p.unreaped, p.collected);
        if table.jobs[id].status == Running {
          label polling:
          ghost var answers := ReapJob(id);
          AllPolledStep(old(table.jobs), old@polling(table.jobs), todo, id, table.jobs[id], asked, replies, answers,
                        old(p.unreaped), old@polling(p.unreaped), p.unreaped, old@polling(p.collected), p.collected);
          assert table.jobs == old@polling(table.jobs)[id := table.jobs[id]];
          asked, replies := asked + old(table.jobs)[id].pids, replies + answers;
        }
        todo := todo - {id};
      }
      AllPolledMeans(old(table.jobs), table.jobs, asked, replies, old(p.unreaped), p.unreaped, p.collected);
    }

    method ReapJob(id: nat) returns (ghost answers: seq<Poll>)
      requires Accounted(p.unreaped, table.jobs, orphans + abandoned, p.nextPid) && Numbered(table.State())
      requires id in table.jobs && table.jobs[id].status == Running
      modifies p`unreaped, p`collected, p`asked, p`replies, table`jobs
      ensures p.asked == old(p.asked) + old(table.jobs)[id].pids && p.replies == old(p.replies) + answers
      ensures |answers| == |old(table.jobs)[id].pids|
      ensures Accounted(p.unreaped, table.jobs, orphans + abandoned, p.nextPid) && Numbered(table.State())
      ensures id in table.jobs && table.State() == Update(old(table.State()), id, table.jobs[id]) && p.unreaped <= old(p.unreaped)
      ensures forall i, pid :: Owns(table.jobs, i, pid) ==> Owns(old(table.jobs), i, pid)
      ensures Keeps(old(p.unreaped), old(p.collected), p.collected)
      ensures PolledWith(old(table.jobs)[id], table.jobs[id], answers, old(p.unreaped), p.unreaped, p.collected)
    {
      hide Accounted;
      var job;
      job, answers := PollJob(p, table.jobs[id]);
      PolledIsAccounted(old(p.unreaped), p.unreaped, table.jobs, orphans + abandoned, p.nextPid, id, answers, p.collected);
      NumberedStep(table.State(), UpdateJob(id, job));
      table.SetJob(id, job);
    }

    /**
     * `jobs`: polls, lists, and removes exactly the jobs that are over; none of them has a live
     * process. A running job goes if this poll found all its processes ended or gone.
     */
    method ListAndRemoveJobs() returns (removed: set<nat>, ghost asked: seq<Pid>, ghost replies: seq<Poll>)
      requires Valid()
      modifies p`unreaped, p`collected, p`asked, p`replies, table
      ensures Valid() && p.unreaped <= old(p.unreaped)
      ensures p.asked == old(p.asked) + asked && p.replies == old(p.replies) + replies
      ensures removed <= old(table.jobs).Keys && table.jobs.Keys == old(table.jobs).Keys - removed
      ensures forall id, pid :: id in removed && Owns(old(table.jobs), id, pid) ==> pid !in p.unreaped
      ensures forall id :: id in removed && old(table.jobs)[id].status == Running ==>
                             exists at :: StatusTold(old(table.jobs)[id], Done, asked, replies, at)
      ensures forall id :: id in table.jobs && old(table.jobs)[id].status == Running ==>
                && table.jobs[id].status != Done
                && exists at :: StatusTold(old(table.jobs)[id], table.jobs[id].status, asked, replies, at)
      ensures forall id :: id in old(table.jobs) && old(table.jobs)[id].status != Running ==>
                && (id in removed <==> old(table.jobs)[id].status == Done || old(table.jobs)[id].status == Terminated)
                && (id !in removed ==> table.jobs[id] == old(table.jobs)[id])
    {
      hide Accounted, NoGroupSignals, Numbered, AllPolled;
      asked, replies := ReapBackgroundJobs();
      label polled:
      removed := table.RemoveDoneJobs();
      Removed(p.unreaped, old@polled(table.State()), orphans + abandoned, p.nextPid);
      NumberedStep(old@polled(table.State()), Change.RemoveDoneJobs);
      RemovedAreReaped(old(p.unreaped), old(table.jobs), old(p.nextPid), p.unreaped, table.jobs, p.nextPid, orphans + abandoned);
    }

    /** A background job that the poll before a prompt finds stopped is one that `bg` accepts. */
    method PromptThenBackground(id: nat)
      returns (status: int, ghost asked: seq<Pid>, ghost replies: seq<Poll>, ghost at: nat)
      requires Valid() && id in table.jobs && table.jobs[id].status == Running
      modifies p`unreaped, p`collected, p`asked, p`replies, p`signals, p`faults, table`jobs
      ensures Valid() && p.replies == old(p.replies) + replies
      ensures p.asked == old(p.asked) + asked && at + |old(table.jobs)[id].pids| <= |asked| == |replies|
      ensures asked[at..at + |old(table.jobs)[id].pids|] == old(table.jobs)[id].pids
      ensures status == 0 <==>
                && p.faults == old(p.faults)
                && exists k :: at <= k < at + |old(table.jobs)[id].pids| && replies[k].Paused?
    {
      hide Accounted, NoGroupSignals, Numbered, AllPolled, Groups, Descriptors;
      asked, replies := ReapBackgroundJobs();
      label polled:
      at :| StatusTold(old(table.jobs)[id], table.jobs[id].status, asked, replies, at);
      ghost var found;
      status, found := Background(JobNumber(id));
    }

    // -------------------------------------------------------------- whole runs

    /** Any run of commands, whatever the kernel answers: conservation, groups and descriptors always hold. */
    method RunAll(commands: seq<Command>) returns (statuses: seq<int>)
      requires Valid()
      requires forall c :: c in commands ==> (c.RunPipeline? ==> c.stages != []) && (c.RunExternal? ==> WellFormed(c.actions))
      modifies this`orphans, this`abandoned, this`damaged, p, table
      ensures Valid() && |statuses| == |commands|
      ensures old(p.late) <= p.late && (damaged <==> old(damaged) || p.late != old(p.late))
      ensures !damaged && !contained ==> p.fds == home && Accounted(p.unreaped, table.jobs, {}, p.nextPid)
    {
      statuses := [];
      for i := 0 to |commands|
        invariant Valid() && |statuses| == i
        invariant old(p.late) <= p.late && (damaged <==> old(damaged) || p.late != old(p.late))
      {
        var status := 0;
        ghost var how, fate, pids, run, found, waiting;
        assert commands[i] in commands;
        match commands[i] {
          case RunPipeline(stages, text, background) =>
            status, how, pids, run := ExecutePipeline(stages, text, background);
          case RunExternal(actions, text, background) => status, fate := ExecuteExternal(actions, text, background);
          case Fg(arg) => status, found, waiting := Foreground(arg);
          case Bg(arg) => status, found := Background(arg);
          case ListJobs => var _, _, _ := ListAndRemoveJobs();
          case Prompt => var _, _ := ReapBackgroundJobs();
        }
        statuses := statuses + [status];
      }
      if !damaged && !contained {
        assert orphans + abandoned == {};
      }
    }
  }
}
