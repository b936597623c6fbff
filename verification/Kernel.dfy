/** The operating system as one shell process sees it: descriptors, children, groups, the terminal. */
module Kernel {
  import opened Text

  type Fd = nat
  type Pid = nat

  datatype OpenMode = ReadOnly | Truncate | Append | Scratch(data: string)

  /** An open file description. Pipes are numbered in creation order. */
  datatype File =
    | Inherited(id: nat)
    | Opened(serial: nat, path: string, mode: OpenMode)
    | PipeRead(pipe: nat)
    | PipeWrite(pipe: nat)

  type Table = map<Fd, File>

  /** What `waitpid` reports for a child that has ended. */
  datatype Raw = Exited(code: nat) | Signaled(signal: nat) | Unclassified

  datatype Wait = Collected(raw: Raw) | ChildStopped | NoChild | Interrupted

  /** The answers of a non-blocking `waitpid`. */
  datatype Poll = Busy | Ended(raw: Raw) | Paused | Gone | Trouble

  /** What a failed call reports: `FileNotFoundError`, `PermissionError`, or any other `OSError`. */
  datatype Error = NoEntry | Denied | Unspecified

  datatype Attempt = Got(fd: Fd) | Failed(error: Error)

  datatype Spawned = Child(pid: Pid) | NotFound | NotExecutable | SpawnFailed

  datatype Signal = ToGroup(group: Pid, name: string) | ToChild(pid: Pid, name: string)

  const SIGINT := "SIGINT"
  const SIGTERM := "SIGTERM"
  const SIGKILL := "SIGKILL"
  const SIGCONT := "SIGCONT"

  /** The lowest descriptor from `from` on that is not in use. */
  function LowestFree(t: Table, from: Fd): (fd: Fd)
    ensures fd >= from && fd !in t
    ensures forall f: Fd {:trigger f in t} :: from <= f < fd ==> f in t
    decreases |t|
  {
    if from in t then
      var others := t - {from};
      assert others == map f | f in t && f != from :: t[f];
      var fd := LowestFree(others, from + 1);
      assert forall f: Fd :: from + 1 <= f < fd ==> f in others;
      assert forall f: Fd :: f in others ==> f in t;
      fd
    else from
  }

  class Process {
    var fds: Table
    var serial: nat                   // how many files were opened
    var nextPipe: nat
    var nextPid: Pid
    var unreaped: set<Pid>            // forked children not yet waited for
    var collected: map<Pid, Raw>      // statuses that waits have delivered
    var inherited: map<Pid, Table>    // what each child was forked with
    var groups: map<Pid, Pid>         // process group of each child
    const shellGroup: Pid
    var foreground: Pid               // foreground group of the terminal
    var refusals: nat                 // terminal handovers that failed
    var handovers: seq<Pid>           // groups that got the terminal, in order
    var signals: seq<Signal>
    var faults: nat                   // calls that failed
    var late: nat                     // calls that failed while something was being put back
    var openErrors: seq<Error>        // what failed `open` calls reported, in order
    var launches: seq<Spawned>        // what `Popen` answered, in order
    var ungrouped: nat                // `setpgid` calls that failed
    var interrupts: nat               // waits that an interrupt cut short
    var stops: nat                    // waits that found a stopped child
    var asked: seq<Pid>               // children asked for without blocking, in order
    var replies: seq<Poll>            // what was answered, in order

    /** A call that may fail and changes nothing else that is modelled. */
    method Fails() returns (fails: bool)
      modifies this`faults
      ensures faults == old(faults) + if fails then 1 else 0
    {
      fails := *;
      if fails {
        faults := faults + 1;
      }
    }

    // ------------------------------------------------------------ descriptors

    method Dup(source: Fd) returns (r: Option<Fd>)
      modifies this`fds, this`faults
      ensures faults == old(faults) + if r.Some? then 0 else 1
      ensures r.Some? ==> source in old(fds) && r.value == LowestFree(old(fds), 0)
                          && fds == old(fds)[r.value := old(fds)[source]]
      ensures r.None? ==> fds == old(fds)
    {
      var fails: bool := *;
      if fails || source !in fds {
        faults := faults + 1;
        return None;
      }
      var fd := LowestFree(fds, 0);
      fds := fds[fd := fds[source]];
      r := Some(fd);
    }

    method Dup2(source: Fd, target: Fd) returns (ok: bool)
      modifies this`fds, this`faults
      ensures faults == old(faults) + if ok then 0 else 1
      ensures ok ==> source in old(fds) && fds == old(fds)[target := old(fds)[source]]
      ensures !ok ==> fds == old(fds)
    {
      var fails: bool := *;
      if fails || source !in fds {
        faults := faults + 1;
        return false;
      }
      fds := fds[target := fds[source]];
      ok := true;
    }

    method Open(path: string, mode: OpenMode) returns (r: Attempt)
      modifies this`fds, this`serial, this`faults, this`openErrors
      ensures faults == old(faults) + if r.Got? then 0 else 1
      ensures openErrors == old(openErrors) + if r.Got? then [] else [r.error]
      ensures r.Got? ==> r.fd == LowestFree(old(fds), 0) && serial == old(serial) + 1
                         && fds == old(fds)[r.fd := Opened(old(serial), path, mode)]
      ensures r.Failed? ==> fds == old(fds) && serial == old(serial)
    {
      var fails := Fails();
      if fails {
        var error: Error := *;
        openErrors := openErrors + [error];
        return Failed(error);
      }
      var fd := LowestFree(fds, 0);
      fds := fds[fd := Opened(serial, path, mode)];
      serial := serial + 1;
      r := Got(fd);
    }

    /** The two calls of a cleanup that may fail: flushing, and putting a descriptor back. */
    method LateFails() returns (fails: bool)
      modifies this`faults, this`late
      ensures faults == old(faults) + (if fails then 1 else 0) && late == old(late) + (if fails then 1 else 0)
    {
      fails := Fails();
      if fails {
        late := late + 1;
      }
    }

    method LateDup2(source: Fd, target: Fd) returns (ok: bool)
      modifies this`fds, this`faults, this`late
      ensures faults == old(faults) + (if ok then 0 else 1) && late == old(late) + (if ok then 0 else 1)
      ensures ok ==> source in old(fds) && fds == old(fds)[target := old(fds)[source]]
      ensures !ok ==> fds == old(fds)
    {
      ok := Dup2(source, target);
      if !ok {
        late := late + 1;
      }
    }

    /** Closing a descriptor that is not open is an error, so it is ruled out here. */
    method Close(fd: Fd)
      requires fd in fds
      modifies this`fds
      ensures fds == old(fds) - {fd}
    {
      fds := fds - {fd};
    }

    method Pipe() returns (r: Option<(Fd, Fd)>)
      modifies this`fds, this`nextPipe, this`faults
      ensures faults == old(faults) + if r.Some? then 0 else 1
      ensures r.None? ==> fds == old(fds) && nextPipe == old(nextPipe)
      ensures r.Some? ==>
                && r.value.0 == LowestFree(old(fds), 0)
                && r.value.1 == LowestFree(old(fds)[r.value.0 := PipeRead(old(nextPipe))], 0)
                && fds == old(fds)[r.value.0 := PipeRead(old(nextPipe))][r.value.1 := PipeWrite(old(nextPipe))]
                && nextPipe == old(nextPipe) + 1
    {
      var fails := Fails();
      if fails {
        return None;
      }
      var readEnd := LowestFree(fds, 0);
      fds := fds[readEnd := PipeRead(nextPipe)];
      var writeEnd := LowestFree(fds, 0);
      fds := fds[writeEnd := PipeWrite(nextPipe)];
      nextPipe := nextPipe + 1;
      r := Some((readEnd, writeEnd));
    }

    // --------------------------------------------------------------- children

    /** Pids are never reused; the child gets a copy of the descriptor table. */
    method Fork() returns (r: Option<Pid>)
      modifies this`nextPid, this`unreaped, this`inherited, this`groups, this`faults
      ensures faults == old(faults) + if r.Some? then 0 else 1
      ensures r.None? ==> nextPid == old(nextPid) && unreaped == old(unreaped)
                          && inherited == old(inherited) && groups == old(groups)
      ensures r.Some? ==> r.value == old(nextPid) && nextPid == old(nextPid) + 1
                          && unreaped == old(unreaped) + {r.value}
                          && inherited == old(inherited)[r.value := fds]
                          && groups == old(groups)[r.value := shellGroup]
    {
      var fails := Fails();
      if fails {
        return None;
      }
      r := Some(nextPid);
      unreaped := unreaped + {nextPid};
      inherited := inherited[nextPid := fds];
      groups := groups[nextPid := shellGroup];
      nextPid := nextPid + 1;
    }

    /** `setpgid`, by the parent or by the child itself; refusals are ignored by every caller. */
    method SetGroup(pid: Pid, group: Pid)
      modifies this`groups, this`ungrouped
      ensures || (groups == old(groups)[pid := group] && ungrouped == old(ungrouped))
              || (groups == old(groups) && ungrouped == old(ungrouped) + 1)
    {
      var fails: bool := *;
      if fails {
        ungrouped := ungrouped + 1;
      } else {
        groups := groups[pid := group];
      }
    }

    method WaitPid(pid: Pid, untraced: bool) returns (r: Wait)
      modifies this`unreaped, this`collected, this`interrupts, this`stops
      ensures interrupts == old(interrupts) + if r.Interrupted? then 1 else 0
      ensures stops == old(stops) + if r.ChildStopped? then 1 else 0
      ensures r.NoChild? <==> pid !in old(unreaped)
      ensures r.ChildStopped? ==> untraced
      ensures r.Collected? ==> unreaped == old(unreaped) - {pid} && collected == old(collected)[pid := r.raw]
      ensures !r.Collected? ==> unreaped == old(unreaped) && collected == old(collected)
    {
      if pid !in unreaped {
        return NoChild;
      }
      var interrupted: bool := *;
      if interrupted {
        interrupts := interrupts + 1;
        return Interrupted;
      }
      var stopped: bool := *;
      if untraced && stopped {
        stops := stops + 1;
        return ChildStopped;
      }
      var raw: Raw := *;
      unreaped := unreaped - {pid};
      collected := collected[pid := raw];
      r := Collected(raw);
    }

    /** A blocking wait that no interrupt cuts short. */
    method Reap(pid: Pid)
      modifies this`unreaped, this`collected
      ensures unreaped == old(unreaped) - {pid}
      ensures pid !in old(unreaped) ==> collected == old(collected)
      ensures pid in old(unreaped) ==> pid in collected && collected == old(collected)[pid := collected[pid]]
    {
      if pid in unreaped {
        var raw: Raw := *;
        collected := collected[pid := raw];
      }
      unreaped := unreaped - {pid};
    }

    /** `waitpid(pid, WNOHANG | WUNTRACED)` */
    method PollPid(pid: Pid) returns (r: Poll)
      modifies this`unreaped, this`collected, this`asked, this`replies
      ensures asked == old(asked) + [pid] && replies == old(replies) + [r]
      ensures r.Gone? <==> pid !in old(unreaped)
      ensures r.Ended? ==> unreaped == old(unreaped) - {pid} && collected == old(collected)[pid := r.raw]
      ensures !r.Ended? ==> unreaped == old(unreaped) && collected == old(collected)
    {
      asked := asked + [pid];
      if pid !in unreaped {
        replies := replies + [Gone];
        return Gone;
      }
      r := *;
      if r.Gone? {
        r := Busy;
      }
      replies := replies + [r];
      if r.Ended? {
        unreaped := unreaped - {pid};
        collected := collected[pid := r.raw];
      }
    }

    /** `waitpid(pid, WNOHANG)` without stops, on a process that is or was a child. */
    method PollExit(pid: Pid) returns (r: Poll)
      modifies this`unreaped, this`collected
      ensures r.Gone? || r.Busy? || r.Ended?
      ensures r.Gone? <==> pid !in old(unreaped)
      ensures r.Ended? ==> unreaped == old(unreaped) - {pid} && collected == old(collected)[pid := r.raw]
      ensures !r.Ended? ==> unreaped == old(unreaped) && collected == old(collected)
    {
      if pid !in unreaped {
        return Gone;
      }
      var raw: Raw := *;
      var ended: bool := *;
      if !ended {
        return Busy;
      }
      unreaped := unreaped - {pid};
      collected := collected[pid := raw];
      r := Ended(raw);
    }

    /** What Python's `subprocess` does before it starts a process: it may reap earlier ones of its own. */
    method ReapElsewhere()
      modifies this`unreaped
      ensures unreaped <= old(unreaped)
    {
      var taken: set<Pid> := *;
      unreaped := unreaped - taken;
    }

    /** `Popen`: a child that cannot execute its program is reaped by `Popen` itself. */
    method Spawn() returns (r: Spawned)
      modifies this`nextPid, this`unreaped, this`inherited, this`groups, this`faults, this`launches
      ensures faults == old(faults) + if r.SpawnFailed? then 1 else 0
      ensures launches == old(launches) + [r]
      ensures nextPid >= old(nextPid)
      ensures r.Child? ==> r.pid == old(nextPid) && nextPid == old(nextPid) + 1
                           && unreaped == old(unreaped) + {r.pid}
                           && inherited == old(inherited)[r.pid := fds]
                           && groups == old(groups)[r.pid := shellGroup]
      ensures !r.Child? ==> unreaped == old(unreaped) && inherited == old(inherited) && groups == old(groups)
    {
      r := *;
      if r.Child? {
        r := Child(nextPid);
        unreaped := unreaped + {nextPid};
        inherited := inherited[nextPid := fds];
        groups := groups[nextPid := shellGroup];
      }
      if r.SpawnFailed? {
        faults := faults + 1;
      }
      launches := launches + [r];
      nextPid := nextPid + 1;
    }

    method Send(s: Signal)
      modifies this`signals
      ensures signals == old(signals) + [s]
    {
      signals := signals + [s];
    }

    /** `tcsetpgrp_safely` */
    method Handover(group: Pid) returns (ok: bool)
      modifies this`foreground, this`refusals, this`handovers
      ensures ok ==> foreground == group && refusals == old(refusals) && handovers == old(handovers) + [group]
      ensures !ok ==> foreground == old(foreground) && refusals == old(refusals) + 1 && handovers == old(handovers)
    {
      ok := *;
      if ok {
        foreground := group;
        handovers := handovers + [group];
      } else {
        refusals := refusals + 1;
      }
    }
  }
}
