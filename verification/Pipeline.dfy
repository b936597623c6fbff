/** The parent's side of a pipeline: forking the stages, waiting for them, cleaning up. */
module Pipeline {
  import opened Text
  import opened Kernel
  import Jobs
  import PipeEnds
  import opened ParentTrace

  const GENERAL_ERROR := 1
  const SIGINT_STATUS := 130

  /** `t` with one more descriptor, if there is one. */
  function Plus(t: Table, fd: Option<Fd>, f: File): Table {
    if fd.Some? then t[fd.value := f] else t
  }

  /** `count` pids, one after the other. */
  predicate Consecutive(pids: seq<Pid>, first: Pid) {
    forall i :: 0 <= i < |pids| ==> pids[i] == first + i
  }

  /** The pipe ends that stage `i` of `n` is forked with; pipe numbers start at `base`. */
  function StageEnds(i: nat, n: nat, base: nat): set<File> {
    (if i > 0 then {PipeRead(base + i - 1)} else {})
    + (if i + 1 < n then {PipeRead(base + i), PipeWrite(base + i)} else {})
  }

  /** A stage inherits the shell's descriptors and these pipe ends, nothing else. */
  ghost predicate Inherits(t: Table, entry: Table, i: nat, n: nat, base: nat) {
    && (forall fd :: fd in entry ==> fd in t && t[fd] == entry[fd])
    && t.Values == entry.Values + StageEnds(i, n, base)
  }

  lemma OneMoreValue(t: Table, fd: Fd, f: File)
    requires fd !in t
    ensures t[fd := f].Values == t.Values + {f}
  {
    assert forall x :: x in t ==> t[fd := f][x] == t[x];
    assert t[fd := f][fd] == f;
    forall v | v in t.Values
      ensures v in t[fd := f].Values
    {
      var x :| x in t && t[x] == v;
      assert t[fd := f][x] == v;
    }
  }

  /** A new pipe for stage `i` unless it is the last one. */
  method MakePipe(p: Process, last: bool) returns (ok: bool, readEnd: Option<Fd>, writeEnd: Option<Fd>)
    modifies p`fds, p`nextPipe, p`faults
    ensures p.faults == old(p.faults) + if ok then 0 else 1
    ensures !ok ==> p.fds == old(p.fds) && p.nextPipe == old(p.nextPipe)
    ensures ok && last ==> readEnd == writeEnd == None && p.fds == old(p.fds) && p.nextPipe == old(p.nextPipe)
    ensures ok && !last ==>
              && readEnd.Some? && writeEnd.Some? && readEnd != writeEnd
              && readEnd.value !in old(p.fds) && writeEnd.value !in old(p.fds)
              && p.fds == old(p.fds)[readEnd.value := PipeRead(old(p.nextPipe))][writeEnd.value := PipeWrite(old(p.nextPipe))]
              && p.nextPipe == old(p.nextPipe) + 1
  {
    ok, readEnd, writeEnd := true, None, None;
    if !last {
      var ends := p.Pipe();
      if ends == None {
        return false, None, None;
      }
      readEnd, writeEnd := Some(ends.value.0), Some(ends.value.1);
    }
  }

  method CloseIfOpen(p: Process, fd: Option<Fd>)
    requires fd.Some? ==> fd.value in p.fds
    modifies p`fds
    ensures p.fds == if fd.Some? then old(p.fds) - {fd.value} else old(p.fds)
  {
    if fd.Some? {
      p.Close(fd.value);
    }
  }

  lemma InheritsFrom(entry: Table, i: nat, n: nat, base: nat, previous: Option<Fd>, readEnd: Option<Fd>, writeEnd: Option<Fd>)
    requires i < n && (previous.Some? <==> i > 0) && (readEnd.Some? <==> i + 1 < n) && (writeEnd.Some? <==> i + 1 < n)
    requires previous.Some? ==> previous.value !in entry && previous != readEnd && previous != writeEnd
    requires readEnd.Some? ==> readEnd != writeEnd && readEnd.value !in entry && writeEnd.value !in entry
    ensures var t := Before(entry, previous, i, base);
            Inherits(Plus(Plus(t, readEnd, PipeRead(base + i)), writeEnd, PipeWrite(base + i)), entry, i, n, base)
  {
    var t := entry;
    if previous.Some? {
      OneMoreValue(t, previous.value, PipeRead(base + i - 1));
      t := t[previous.value := PipeRead(base + i - 1)];
    }
    if readEnd.Some? {
      OneMoreValue(t, readEnd.value, PipeRead(base + i));
      t := t[readEnd.value := PipeRead(base + i)];
      OneMoreValue(t, writeEnd.value, PipeWrite(base + i));
    }
  }

  /** What the parent's table leads to before stage `i`: its own files and the previous read end. */
  function Before(entry: Table, previous: Option<Fd>, i: nat, base: nat): Table {
    Plus(entry, previous, if i > 0 then PipeRead(base + i - 1) else PipeRead(0))
  }

  /** `pipe` and `fork` of one stage; a stage that cannot be forked leaves the descriptors as they were. */
  method ForkStage(p: Process, last: bool) returns (forked: Option<Pid>, readEnd: Option<Fd>, writeEnd: Option<Fd>)
    modifies p`fds, p`nextPipe, p`nextPid, p`unreaped, p`inherited, p`groups, p`faults
    ensures p.faults == old(p.faults) + if forked.Some? then 0 else 1
    ensures forked == None ==> p.fds == old(p.fds) && p.nextPid == old(p.nextPid) && p.unreaped == old(p.unreaped)
                               && p.inherited == old(p.inherited) && p.groups == old(p.groups)
    ensures (readEnd.Some? <==> writeEnd.Some?) && (last ==> readEnd == None)
    ensures readEnd.Some? ==> readEnd != writeEnd && readEnd.value !in old(p.fds) && writeEnd.value !in old(p.fds)
    ensures forked.Some? ==>
              && (readEnd.Some? <==> !last)
              && p.fds == Plus(Plus(old(p.fds), readEnd, PipeRead(old(p.nextPipe))), writeEnd, PipeWrite(old(p.nextPipe)))
              && (!last ==> p.nextPipe == old(p.nextPipe) + 1)
              && forked.value == old(p.nextPid) && p.nextPid == old(p.nextPid) + 1
              && p.unreaped == old(p.unreaped) + {forked.value}
              && p.inherited == old(p.inherited)[forked.value := p.fds]
              && p.groups == old(p.groups)[forked.value := p.shellGroup]
  {
    var ok;
    ok, readEnd, writeEnd := MakePipe(p, last);
    if !ok {
      return None, None, None;
    }
    forked := p.Fork();
    if forked == None {
      CloseIfOpen(p, readEnd);
      CloseIfOpen(p, writeEnd);
      assert p.fds == old(p.fds);
    }
  }

  /** The group that a started stage belongs to: the first stage leads it; a contained shell has none. */
  function GroupWith(group: Option<Pid>, contained: bool, pid: Pid): Option<Pid> {
    if contained || group.Some? then group else Some(pid)
  }

  method JoinGroup(p: Process, pid: Pid, contained: bool, group: Option<Pid>) returns (group': Option<Pid>)
    modifies p`groups, p`ungrouped
    ensures group' == GroupWith(group, contained, pid) && old(p.ungrouped) <= p.ungrouped
    ensures p.groups == if contained || p.ungrouped != old(p.ungrouped) then old(p.groups)
                        else old(p.groups)[pid := group'.value]
  {
    group' := group;
    if !contained {
      if group' == None {
        group' := Some(pid);
      }
      p.SetGroup(pid, group'.value);
    }
  }

  /** Closing the previous read end and the new write end leaves the parent with the next read end. */
  lemma AfterClosing(entry: Table, previous: Option<Fd>, readEnd: Option<Fd>, writeEnd: Option<Fd>, i: nat, base: nat)
    requires previous.Some? ==> previous.value !in entry && previous != readEnd && previous != writeEnd
    requires (readEnd.Some? <==> writeEnd.Some?)
    requires readEnd.Some? ==> readEnd != writeEnd && readEnd.value !in entry && writeEnd.value !in entry
    ensures var t := Plus(Plus(Before(entry, previous, i, base), readEnd, PipeRead(base + i)), writeEnd, PipeWrite(base + i));
            var t1 := if previous.Some? then t - {previous.value} else t;
            (if writeEnd.Some? then t1 - {writeEnd.value} else t1) == Plus(entry, readEnd, PipeRead(base + i))
  {
  }

  /** A stage that cannot be started: the pipe or the fork has failed. */
  lemma StartFails(c: PipeEnds.Setting, ws: seq<PipeEnds.World>, t: Table, i: nat, previous: Option<Fd>,
                   readEnd: Option<Fd>, writeEnd: Option<Fd>) returns (ws': seq<PipeEnds.World>)
    requires Tracks(c, ws, t, i, previous) && i < |c.stages|
    requires (readEnd.Some? <==> writeEnd.Some?) && (i + 1 == |c.stages| ==> readEnd == None)
    requires readEnd.Some? ==> readEnd != writeEnd && readEnd.value !in t && writeEnd.value !in t
    ensures Trace(c, ws') && Last(ws') == Last(ws).(point := PipeEnds.AtReap)
  {
    if i + 1 < |c.stages| && readEnd == None {
      ws' := PipeFails(c, ws);
    } else {
      ws' := ForkFails(c, ws, readEnd, writeEnd);
    }
  }

  /** The parent's table once it has closed what only the stage needs. */
  function Closed(t: Table, previous: Option<Fd>, writeEnd: Option<Fd>): Table {
    var t1 := if previous.Some? then t - {previous.value} else t;
    if writeEnd.Some? then t1 - {writeEnd.value} else t1
  }

  /** The parent's table when it forks stage `i`. */
  function AtFork(t: Table, readEnd: Option<Fd>, writeEnd: Option<Fd>, pipe: nat): Table {
    Plus(Plus(t, readEnd, PipeRead(pipe)), writeEnd, PipeWrite(pipe))
  }

  /** What one forked stage means for the stage, for the parent, and for its run of the step relation. */
  lemma StageForked(c: PipeEnds.Setting, ws: seq<PipeEnds.World>, t: Table, i: nat, previous: Option<Fd>,
                    readEnd: Option<Fd>, writeEnd: Option<Fd>) returns (ws': seq<PipeEnds.World>)
    requires i < |c.stages| && (previous.Some? <==> i > 0) && (previous.Some? ==> previous.value !in c.entry)
    requires t == Before(c.entry, previous, i, c.base) && Tracks(c, ws, t, i, previous)
    requires (readEnd.Some? <==> i + 1 < |c.stages|) && (writeEnd.Some? <==> i + 1 < |c.stages|)
    requires readEnd.Some? ==> readEnd != writeEnd && readEnd.value !in t && writeEnd.value !in t
    ensures var forked := AtFork(t, readEnd, writeEnd, c.base + i);
            && Inherits(forked, c.entry, i, |c.stages|, c.base)
            && Closed(forked, previous, writeEnd) == Before(c.entry, readEnd, i + 1, c.base)
            && (readEnd.Some? ==> readEnd.value !in c.entry)
            && Tracks(c, ws', Closed(forked, previous, writeEnd), i + 1, readEnd)
            && (forall k :: 0 <= k < i ==> Last(ws').stages[k] == Last(ws).stages[k])
            && Last(ws').stages[i].start == forked
  {
    InheritsFrom(c.entry, i, |c.stages|, c.base, previous, readEnd, writeEnd);
    AfterClosing(c.entry, previous, readEnd, writeEnd, i, c.base);
    hide Inherits;
    assert WithPipe(c, t, i, readEnd, writeEnd) == AtFork(t, readEnd, writeEnd, c.base + i);
    ws' := TracksIteration(c, ws, t, i, previous, readEnd, writeEnd);
  }

  /** What the parent does after a fork: the group, and closing what only the stage needs. */
  method FinishStage(p: Process, pid: Pid, contained: bool, group: Option<Pid>, previous: Option<Fd>, writeEnd: Option<Fd>)
    returns (group': Option<Pid>)
    requires (previous.Some? ==> previous.value in p.fds) && (writeEnd.Some? ==> writeEnd.value in p.fds)
    requires previous.Some? ==> previous != writeEnd
    modifies p`fds, p`groups, p`ungrouped
    ensures group' == GroupWith(group, contained, pid) && old(p.ungrouped) <= p.ungrouped
    ensures p.groups == if contained || p.ungrouped != old(p.ungrouped) then old(p.groups)
                        else old(p.groups)[pid := group'.value]
    ensures p.fds == Closed(old(p.fds), previous, writeEnd)
  {
    group' := JoinGroup(p, pid, contained, group);
    CloseIfOpen(p, previous);
    CloseIfOpen(p, writeEnd);
  }

  /**
   * One iteration of the loop. A stage that cannot be started leaves the descriptors as they were;
   * a started one has inherited exactly its ends, and the parent keeps only the next read end.
   */
  method StartStage(p: Process, i: nat, n: nat, previous: Option<Fd>, contained: bool, group: Option<Pid>,
                    ghost c: PipeEnds.Setting, ghost ws: seq<PipeEnds.World>)
    returns (started: Option<Pid>, next: Option<Fd>, group': Option<Pid>, ghost ws': seq<PipeEnds.World>)
    requires |c.stages| == n && Tracks(c, ws, p.fds, i, previous)
    requires i < n && (previous.Some? <==> i > 0) && p.nextPipe == c.base + i
    requires previous.Some? ==> previous.value !in c.entry
    requires p.fds == Before(c.entry, previous, i, c.base)
    modifies p`fds, p`nextPipe, p`nextPid, p`unreaped, p`inherited, p`groups, p`faults, p`ungrouped
    ensures p.faults == old(p.faults) + (if started.Some? then 0 else 1) && old(p.ungrouped) <= p.ungrouped
    ensures started == None ==> p.fds == old(p.fds) && p.nextPid == old(p.nextPid) && p.unreaped == old(p.unreaped)
                                && p.inherited == old(p.inherited) && p.groups == old(p.groups) && group' == group
    ensures started.Some? ==>
              && started.value == old(p.nextPid) && p.nextPid == old(p.nextPid) + 1
              && p.unreaped == old(p.unreaped) + {started.value}
              && (next.Some? <==> i + 1 < n) && (next.Some? ==> next.value !in c.entry && p.nextPipe == c.base + i + 1)
              && p.fds == Before(c.entry, next, i + 1, c.base)
              && group' == GroupWith(group, contained, started.value)
    ensures started == None ==> Trace(c, ws') && Last(ws') == Last(ws).(point := PipeEnds.AtReap)
    ensures started.Some? ==>
              && Tracks(c, ws', p.fds, i + 1, next)
              && (forall k :: 0 <= k < i ==> Last(ws').stages[k] == Last(ws).stages[k])
              && started.value in p.inherited && Last(ws').stages[i].start == p.inherited[started.value]
              && Inherits(p.inherited[started.value], c.entry, i, n, c.base)
              && p.inherited == old(p.inherited)[started.value := p.inherited[started.value]]
    ensures started.Some? ==>
              p.groups == old(p.groups)[started.value := if contained || p.ungrouped != old(p.ungrouped) then p.shellGroup
                                                         else group'.value]
  {
    hide Inherits, Tracks, Before, Trace;
    group' := group;
    var readEnd, writeEnd;
    started, readEnd, writeEnd := ForkStage(p, i + 1 == n);
    next := readEnd;
    if started == None {
      ws' := StartFails(c, ws, p.fds, i, previous, readEnd, writeEnd);
    } else {
      ws' := StageForked(c, ws, old(p.fds), i, previous, readEnd, writeEnd);
      assert previous.Some? ==> previous.value in old(p.fds) by { PreviousIsOpen(c.entry, previous, i, c.base); }
      group' := FinishStage(p, started.value, contained, group, previous, writeEnd);
    }
  }

  lemma NothingBefore(entry: Table, i: nat, base: nat)
    ensures Before(entry, None, i, base) == entry
  {
  }

  lemma PreviousIsOpen(entry: Table, previous: Option<Fd>, i: nat, base: nat)
    ensures previous.Some? ==> previous.value in Before(entry, previous, i, base)
  {
  }

  /** The stages forked so far: consecutive children in one group, each with its own ends. */
  ghost predicate Forked(inherited: map<Pid, Table>, groups: map<Pid, Pid>, shellGroup: Pid,
                         pids: seq<Pid>, group: Option<Pid>, entry: Table, n: nat, base: nat, first: Pid)
  {
    && Consecutive(pids, first)
    && (forall i :: 0 <= i < |pids| ==>
                      pids[i] in inherited && Inherits(inherited[pids[i]], entry, i, n, base))
    && (forall i :: 0 <= i < |pids| ==>
                      pids[i] in groups && (groups[pids[i]] == shellGroup || Some(groups[pids[i]]) == group))
  }

  /** Every stage is in the group. */
  ghost predicate Grouped(groups: map<Pid, Pid>, pids: seq<Pid>, group: Option<Pid>) {
    group.Some? ==> forall i :: 0 <= i < |pids| ==> pids[i] in groups && groups[pids[i]] == group.value
  }

  /** The group of the stages forked so far. */
  function GroupOf(pids: seq<Pid>, contained: bool): Option<Pid> {
    if contained || pids == [] then None else Some(pids[0])
  }

  lemma ForkedNone(inherited: map<Pid, Table>, groups: map<Pid, Pid>, shellGroup: Pid,
                   entry: Table, n: nat, base: nat, first: Pid)
    ensures Forked(inherited, groups, shellGroup, [], None, entry, n, base, first) && Grouped(groups, [], None)
  {
  }

  lemma ForkedInOrder(inherited: map<Pid, Table>, groups: map<Pid, Pid>, shellGroup: Pid,
                      pids: seq<Pid>, group: Option<Pid>, entry: Table, n: nat, base: nat, first: Pid)
    requires Forked(inherited, groups, shellGroup, pids, group, entry, n, base, first)
    ensures Consecutive(pids, first)
  {
  }

  lemma ForkedMore(inherited: map<Pid, Table>, t: Table, groups: map<Pid, Pid>, g: Pid, shellGroup: Pid,
                   pids: seq<Pid>, pid: Pid, group: Option<Pid>, group': Option<Pid>, entry: Table, n: nat, base: nat, first: Pid)
    requires Forked(inherited, groups, shellGroup, pids, group, entry, n, base, first) && pid == first + |pids|
    requires Inherits(t, entry, |pids|, n, base)
    requires (g == shellGroup || Some(g) == group') && (group.Some? ==> group' == group)
    ensures Forked(inherited[pid := t], groups[pid := g], shellGroup, pids + [pid], group', entry, n, base, first)
  {
    hide Inherits;
  }

  lemma GroupedMore(groups: map<Pid, Pid>, g: Pid, pids: seq<Pid>, pid: Pid, group: Option<Pid>, group': Option<Pid>)
    requires Grouped(groups, pids, group) && pid !in pids && (group.Some? ==> group' == group)
    requires group.None? && group'.Some? ==> pids == []
    requires group'.Some? ==> g == group'.value
    ensures Grouped(groups[pid := g], pids + [pid], group')
  {
  }

  lemma ForkedOneMore(pids: seq<Pid>, first: Pid, unreaped: set<Pid>, all: set<Pid>)
    requires Consecutive(pids, first) && all == unreaped + SetOf(pids)
    ensures Consecutive(pids + [first + |pids|], first)
    ensures all + {first + |pids|} == unreaped + SetOf(pids + [first + |pids|])
    ensures first + |pids| !in pids
  {
  }

  /** The parent has made a run of the step relation up to here; each stage has started with what its process inherited. */
  ghost predicate Parented(c: PipeEnds.Setting, ws: seq<PipeEnds.World>, point: PipeEnds.Point, t: Table,
                           previous: Option<Fd>, pids: seq<Pid>, inherited: map<Pid, Table>)
  {
    && Trace(c, ws) && Last(ws).point == point && Last(ws).parent == t && Last(ws).previous == previous
    && Last(ws).index == |Last(ws).stages| == |pids|
    && forall k :: 0 <= k < |pids| ==> pids[k] in inherited && Last(ws).stages[k].start == inherited[pids[k]]
  }

  /** The whole run up to the end of the loop. */
  ghost predicate Follows(c: PipeEnds.Setting, ws: seq<PipeEnds.World>, ok: bool, pids: seq<Pid>, inherited: map<Pid, Table>) {
    && ws != []
    && Parented(c, ws, if ok then PipeEnds.AtPipe else PipeEnds.AtReap, Last(ws).parent, Last(ws).previous, pids, inherited)
  }

  lemma ParentedFollows(c: PipeEnds.Setting, ws: seq<PipeEnds.World>, ok: bool, t: Table, previous: Option<Fd>,
                        pids: seq<Pid>, inherited: map<Pid, Table>)
    requires Parented(c, ws, if ok then PipeEnds.AtPipe else PipeEnds.AtReap, t, previous, pids, inherited)
    ensures Follows(c, ws, ok, pids, inherited)
  {
  }

  /** Where the shell holds no end of the new pipes, what the loop does is a run of the step relation. */
  lemma FollowsIsRun(c: PipeEnds.Setting, ws: seq<PipeEnds.World>, ok: bool, pids: seq<Pid>, inherited: map<Pid, Table>)
    requires c.Valid() && Follows(c, ws, ok, pids, inherited)
    ensures PipeEnds.Run(c, ws)
    ensures |Last(ws).stages| == |pids|
    ensures forall k :: 0 <= k < |pids| ==> pids[k] in inherited && Last(ws).stages[k].start == inherited[pids[k]]
  {
    TraceIsRun(c, ws);
  }

  lemma ParentedStart(c: PipeEnds.Setting, inherited: map<Pid, Table>)
    ensures Parented(c, [PipeEnds.World(c.entry, PipeEnds.AtPipe, 0, None, None, None, [])], PipeEnds.AtPipe, c.entry, None, [],
                     inherited)
  {
  }

  lemma ParentedMore(c: PipeEnds.Setting, ws: seq<PipeEnds.World>, ws': seq<PipeEnds.World>, t: Table, t': Table,
                     previous: Option<Fd>, next: Option<Fd>, pids: seq<Pid>, pid: Pid,
                     inherited: map<Pid, Table>, inherited': map<Pid, Table>)
    requires Parented(c, ws, PipeEnds.AtPipe, t, previous, pids, inherited) && pid !in pids
    requires Tracks(c, ws', t', |pids| + 1, next)
    requires forall k :: 0 <= k < |pids| ==> Last(ws').stages[k] == Last(ws).stages[k]
    requires pid in inherited' && Last(ws').stages[|pids|].start == inherited'[pid]
    requires forall p :: p in inherited && p != pid ==> p in inherited' && inherited'[p] == inherited[p]
    ensures Parented(c, ws', PipeEnds.AtPipe, t', next, pids + [pid], inherited')
  {
    hide Trace;
  }

  lemma ParentedFails(c: PipeEnds.Setting, ws: seq<PipeEnds.World>, ws': seq<PipeEnds.World>, t: Table,
                      previous: Option<Fd>, pids: seq<Pid>, inherited: map<Pid, Table>)
    requires Parented(c, ws, PipeEnds.AtPipe, t, previous, pids, inherited)
    requires Trace(c, ws') && Last(ws') == Last(ws).(point := PipeEnds.AtReap)
    ensures Parented(c, ws', PipeEnds.AtReap, t, previous, pids, inherited)
  {
    hide Trace;
  }

  /** The loop so far: what the stages and the group are, and the parent's run. */
  ghost predicate LoopState(c: PipeEnds.Setting, ws: seq<PipeEnds.World>, t: Table, previous: Option<Fd>, pids: seq<Pid>,
                            group: Option<Pid>, inherited: map<Pid, Table>, groups: map<Pid, Pid>, shellGroup: Pid,
                            first: Pid, joined: bool)
  {
    && Tracks(c, ws, t, |pids|, previous)
    && Parented(c, ws, PipeEnds.AtPipe, t, previous, pids, inherited)
    && Forked(inherited, groups, shellGroup, pids, group, c.entry, |c.stages|, c.base, first)
    && (joined ==> Grouped(groups, pids, group))
  }

  lemma LoopStateStart(c: PipeEnds.Setting, inherited: map<Pid, Table>, groups: map<Pid, Pid>, shellGroup: Pid, first: Pid)
    ensures LoopState(c, [PipeEnds.World(c.entry, PipeEnds.AtPipe, 0, None, None, None, [])], c.entry, None, [], None,
                      inherited, groups, shellGroup, first, true)
  {
    ForkedNone(inherited, groups, shellGroup, c.entry, |c.stages|, c.base, first);
    TracksStart(c);
    ParentedStart(c, inherited);
  }

  lemma LoopStateMore(c: PipeEnds.Setting, ws: seq<PipeEnds.World>, ws': seq<PipeEnds.World>, t: Table, t': Table,
                      previous: Option<Fd>, next: Option<Fd>, pids: seq<Pid>, group: Option<Pid>, group': Option<Pid>,
                      inherited: map<Pid, Table>, own: Table, groups: map<Pid, Pid>, g: Pid, shellGroup: Pid,
                      first: Pid, joined: bool, joined': bool)
    requires LoopState(c, ws, t, previous, pids, group, inherited, groups, shellGroup, first, joined)
    requires Tracks(c, ws', t', |pids| + 1, next)
    requires forall k :: 0 <= k < |pids| ==> Last(ws').stages[k] == Last(ws).stages[k]
    requires Last(ws').stages[|pids|].start == own && Inherits(own, c.entry, |pids|, |c.stages|, c.base)
    requires (g == shellGroup || Some(g) == group') && (group.Some? ==> group' == group)
    requires (group.None? && group'.Some? ==> pids == []) && (joined' ==> joined && (group'.Some? ==> g == group'.value))
    ensures var pid := first + |pids|;
            LoopState(c, ws', t', next, pids + [pid], group', inherited[pid := own], groups[pid := g], shellGroup, first, joined')
  {
    hide Inherits, Tracks, Parented, Grouped, Trace;
    var pid := first + |pids|;
    assert pid !in pids;
    hide Forked;
    ForkedMore(inherited, own, groups, g, shellGroup, pids, pid, group, group', c.entry, |c.stages|, c.base, first);
    ParentedMore(c, ws, ws', t, t', previous, next, pids, pid, inherited, inherited[pid := own]);
    if joined' {
      GroupedMore(groups, g, pids, pid, group, group');
    }
  }

  lemma LoopStateEnds(c: PipeEnds.Setting, ws: seq<PipeEnds.World>, t: Table, previous: Option<Fd>, pids: seq<Pid>,
                      group: Option<Pid>, inherited: map<Pid, Table>, groups: map<Pid, Pid>, shellGroup: Pid,
                      first: Pid, joined: bool)
    requires LoopState(c, ws, t, previous, pids, group, inherited, groups, shellGroup, first, joined)
    ensures Consecutive(pids, first) && Tracks(c, ws, t, |pids|, previous)
    ensures Parented(c, ws, PipeEnds.AtPipe, t, previous, pids, inherited)
    ensures Forked(inherited, groups, shellGroup, pids, group, c.entry, |c.stages|, c.base, first)
    ensures joined ==> Grouped(groups, pids, group)
  {
  }

  /** The invariant of the loop: `children` were there before it, and `joined` says that no `setpgid` has failed. */
  ghost predicate Looping(p: Process, contained: bool, pids: seq<Pid>, group: Option<Pid>, previous: Option<Fd>,
                          c: PipeEnds.Setting, ws: seq<PipeEnds.World>, first: Pid, children: set<Pid>, joined: bool)
    reads p
  {
    var i, n := |pids|, |c.stages|;
    && i <= n && (i < n ==> (previous.Some? <==> i > 0) && p.nextPipe == c.base + i)
    && (i == n ==> previous == None) && (previous.Some? ==> previous.value !in c.entry)
    && p.fds == Before(c.entry, previous, i, c.base)
    && LoopState(c, ws, p.fds, previous, pids, group, p.inherited, p.groups, p.shellGroup, first, joined)
    && p.nextPid == first + i && group == GroupOf(pids, contained)
    && p.unreaped == children + SetOf(pids)
  }

  lemma LoopingStart(p: Process, contained: bool, c: PipeEnds.Setting)
    requires c.entry == p.fds && c.base == p.nextPipe && c.stages != []
    ensures Looping(p, contained, [], None, None, c, [PipeEnds.World(c.entry, PipeEnds.AtPipe, 0, None, None, None, [])],
                    p.nextPid, p.unreaped, true)
  {
    LoopStateStart(c, p.inherited, p.groups, p.shellGroup, p.nextPid);
    NothingBefore(p.fds, 0, p.nextPipe);
    assert SetOf<Pid>([]) == {};
  }

  /** One turn of the loop. */
  method ForkNext(p: Process, contained: bool, pids: seq<Pid>, group: Option<Pid>, previous: Option<Fd>,
                  n: nat, ghost c: PipeEnds.Setting, ghost ws: seq<PipeEnds.World>,
                  ghost first: Pid, ghost children: set<Pid>, ghost joined: bool)
    returns (started: Option<Pid>, group': Option<Pid>, next: Option<Fd>, ghost ws': seq<PipeEnds.World>)
    requires Looping(p, contained, pids, group, previous, c, ws, first, children, joined) && |pids| < n == |c.stages|
    modifies p`fds, p`nextPipe, p`nextPid, p`unreaped, p`inherited, p`groups, p`faults, p`ungrouped
    ensures p.faults == old(p.faults) + (if started.Some? then 0 else 1) && old(p.ungrouped) <= p.ungrouped
    ensures started.Some? ==>
              Looping(p, contained, pids + [started.value], group', next, c, ws', first, children,
                      joined && p.ungrouped == old(p.ungrouped))
    ensures started == None ==> Stuck(p, contained, pids, group, previous, c, ws', first, children, joined)
  {
    hide Inherits, Tracks, Parented, Trace, Forked, Grouped, Before, Consecutive, LoopState;
    LoopStateEnds(c, ws, p.fds, previous, pids, group, p.inherited, p.groups, p.shellGroup, first, joined);
    ForkedOneMore(pids, first, children, p.unreaped);
    started, next, group', ws' := StartStage(p, |pids|, n, previous, contained, group, c, ws);
    if started == None {
      ParentedFails(c, ws, ws', p.fds, previous, pids, p.inherited);
    } else {
      LoopStateMore(c, ws, ws', old(p.fds), p.fds, previous, next, pids, group, group', old(p.inherited),
                    p.inherited[started.value], old(p.groups), p.groups[started.value], p.shellGroup, first,
                    joined, joined && p.ungrouped == old(p.ungrouped));
      assert GroupOf(pids + [started.value], contained) == group';
    }
  }

  /** A turn of the loop that fails leaves everything but the parent's run as it was. */
  ghost predicate Stuck(p: Process, contained: bool, pids: seq<Pid>, group: Option<Pid>, previous: Option<Fd>,
                        c: PipeEnds.Setting, ws: seq<PipeEnds.World>, first: Pid, children: set<Pid>, joined: bool)
    reads p
  {
    && p.fds == Before(c.entry, previous, |pids|, c.base) && (previous.Some? ==> previous.value !in c.entry)
    && Parented(c, ws, PipeEnds.AtReap, p.fds, previous, pids, p.inherited)
    && Forked(p.inherited, p.groups, p.shellGroup, pids, group, c.entry, |c.stages|, c.base, first)
    && (joined ==> Grouped(p.groups, pids, group))
    && p.nextPid == first + |pids| && group == GroupOf(pids, contained)
    && p.unreaped == children + SetOf(pids)
  }

  /** The loop that has come to its end. */
  lemma LoopingEnds(p: Process, contained: bool, pids: seq<Pid>, group: Option<Pid>, previous: Option<Fd>,
                    c: PipeEnds.Setting, ws: seq<PipeEnds.World>, first: Pid, children: set<Pid>, joined: bool)
    requires Looping(p, contained, pids, group, previous, c, ws, first, children, joined) && |pids| == |c.stages|
    ensures previous == None && p.fds == c.entry
    ensures Parented(c, ws, PipeEnds.AtPipe, p.fds, previous, pids, p.inherited)
    ensures Forked(p.inherited, p.groups, p.shellGroup, pids, group, c.entry, |c.stages|, c.base, first)
    ensures joined ==> Grouped(p.groups, pids, group)
    ensures p.nextPid == first + |pids| && group == GroupOf(pids, contained) && p.unreaped == children + SetOf(pids)
    ensures p.fds == Before(c.entry, previous, |pids|, c.base)
  {
    hide Parented, Forked, Grouped;
    LoopStateEnds(c, ws, p.fds, previous, pids, group, p.inherited, p.groups, p.shellGroup, first, joined);
    NothingBefore(c.entry, |pids|, c.base);
  }

  /** The whole loop. On success the shell's descriptors are what they were; on failure only one read end is left. */
  method ForkStages(p: Process, n: nat, contained: bool, ghost c: PipeEnds.Setting)
    returns (ok: bool, pids: seq<Pid>, group: Option<Pid>, previous: Option<Fd>, ghost ws: seq<PipeEnds.World>)
    requires n > 0 && c.entry == p.fds && |c.stages| == n && c.base == p.nextPipe
    modifies p`fds, p`nextPipe, p`nextPid, p`unreaped, p`inherited, p`groups, p`faults, p`ungrouped
    ensures old(p.faults) <= p.faults && (ok <==> p.faults == old(p.faults))
    ensures old(p.ungrouped) <= p.ungrouped && (p.ungrouped == old(p.ungrouped) ==> Grouped(p.groups, pids, group))
    ensures Forked(p.inherited, p.groups, p.shellGroup, pids, group, old(p.fds), n, old(p.nextPipe), old(p.nextPid))
    ensures |pids| <= n && p.nextPid == old(p.nextPid) + |pids| && group == GroupOf(pids, contained)
    ensures p.unreaped == old(p.unreaped) + SetOf(pids)
    ensures ok <==> |pids| == n
    ensures ok ==> previous == None && p.fds == old(p.fds)
    ensures previous.Some? ==> previous.value !in old(p.fds)
    ensures p.fds == Before(old(p.fds), previous, |pids|, old(p.nextPipe))
    ensures Parented(c, ws, if ok then PipeEnds.AtPipe else PipeEnds.AtReap, p.fds, previous, pids, p.inherited)
  {
    hide Parented, Forked, Grouped, Before, Looping, SetOf, GroupOf;
    ghost var first, children := p.nextPid, p.unreaped;
    pids, group, previous := [], None, None;
    ws := [PipeEnds.World(c.entry, PipeEnds.AtPipe, 0, None, None, None, [])];
    LoopingStart(p, contained, c);
    while |pids| < n
      invariant |pids| <= n && p.faults == old(p.faults) && old(p.ungrouped) <= p.ungrouped
      invariant Looping(p, contained, pids, group, previous, c, ws, first, children, p.ungrouped == old(p.ungrouped))
    {
      var started, group', next;
      started, group', next, ws :=
        ForkNext(p, contained, pids, group, previous, n, c, ws, first, children, p.ungrouped == old(p.ungrouped));
      if started == None {
        return false, pids, group, previous, ws;
      }
      pids, group, previous := pids + [started.value], group', next;
    }
    LoopingEnds(p, contained, pids, group, previous, c, ws, first, children, p.ungrouped == old(p.ungrouped));
    ok := true;
  }

  /** No signal was sent but to these children. */
  ghost predicate OnlyChildren(before: seq<Signal>, after: seq<Signal>, pids: seq<Pid>) {
    && |before| <= |after| && after[..|before|] == before
    && forall i :: |before| <= i < |after| ==> after[i].ToChild? && after[i].pid in pids
  }

  /** `_terminate_and_reap`: a failed setup leaves no child behind, running or not. */
  method TerminateAndReap(p: Process, pids: seq<Pid>)
    modifies p`unreaped, p`collected, p`signals
    ensures p.unreaped == old(p.unreaped) - SetOf(pids)
    ensures OnlyChildren(old(p.signals), p.signals, pids)
    ensures forall i :: 0 <= i < |pids| ==> ToChild(pids[i], "SIGTERM") in p.signals
    ensures |old(p.signals)| + |pids| <= |p.signals|
    ensures forall i :: |old(p.signals)| <= i < |old(p.signals)| + |pids| ==>
                          p.signals[i] == ToChild(pids[i - |old(p.signals)|], "SIGTERM")
    ensures forall i :: |old(p.signals)| + |pids| <= i < |p.signals| ==> p.signals[i].name == "SIGKILL"
  {
    for i := 0 to |pids|
      invariant p.unreaped == old(p.unreaped) && |p.signals| == |old(p.signals)| + i
      invariant forall k :: |old(p.signals)| <= k < |p.signals| ==> p.signals[k] == ToChild(pids[k - |old(p.signals)|], "SIGTERM")
      invariant OnlyChildren(old(p.signals), p.signals, pids)
    {
      p.Send(ToChild(pids[i], SIGTERM));
    }
    ghost var terminated := p.signals;
    var pending := pids;
    var ticks: nat := *;
    while pending != [] && ticks > 0
      invariant SetOf(pending) <= SetOf(pids) && p.signals == terminated
      invariant old(p.unreaped) - SetOf(pids) <= p.unreaped <= old(p.unreaped) - (SetOf(pids) - SetOf(pending))
      decreases ticks
    {
      pending := PollPending(p, pending);
      ticks := ticks - 1;
    }
    for i := 0 to |pending|
      invariant old(p.unreaped) - SetOf(pids) <= p.unreaped
      invariant p.unreaped <= old(p.unreaped) - (SetOf(pids) - SetOf(pending[i..]))
      invariant OnlyChildren(old(p.signals), p.signals, pids)
      invariant terminated <= p.signals && forall k :: |terminated| <= k < |p.signals| ==> p.signals[k].name == "SIGKILL"
    {
      assert pending[i] in SetOf(pending);
      assert SetOf(pending[i..]) == {pending[i]} + SetOf(pending[i + 1..]);
      p.Send(ToChild(pending[i], SIGKILL));
      p.Reap(pending[i]);
    }
    forall i | 0 <= i < |pids|
      ensures ToChild(pids[i], "SIGTERM") in p.signals
    {
      assert p.signals[|old(p.signals)| + i] == terminated[|old(p.signals)| + i];
    }
  }

  /** One round of non-blocking waits; those still running stay pending. */
  method PollPending(p: Process, pending: seq<Pid>) returns (running: seq<Pid>)
    modifies p`unreaped, p`collected
    ensures SetOf(running) <= SetOf(pending)
    ensures old(p.unreaped) - SetOf(pending) <= p.unreaped <= old(p.unreaped) - (SetOf(pending) - SetOf(running))
  {
    running := [];
    for i := 0 to |pending|
      invariant SetOf(running) <= SetOf(pending[..i])
      invariant old(p.unreaped) - SetOf(pending[..i]) <= p.unreaped
      invariant p.unreaped <= old(p.unreaped) - (SetOf(pending[..i]) - SetOf(running))
    {
      assert SetOf(pending[..i + 1]) == SetOf(pending[..i]) + {pending[i]} by {
        assert pending[..i + 1] == pending[..i] + [pending[i]];
      }
      var answer := p.PollExit(pending[i]);
      if answer.Busy? {
        assert SetOf(running + [pending[i]]) == SetOf(running) + {pending[i]};
        running := running + [pending[i]];
      }
    }
    assert pending[..|pending|] == pending;
  }

  datatype Ending = Completed | Cut

  /** The waits of a foreground pipeline; an interrupt is passed on and everything is still reaped. */
  method AwaitAll(p: Process, pids: seq<Pid>, group: Option<Pid>) returns (status: int, ghost ending: Ending)
    requires pids != [] && SetOf(pids) <= p.unreaped && forall i, j :: 0 <= i < j < |pids| ==> pids[i] != pids[j]
    modifies p`unreaped, p`collected, p`signals, p`interrupts, p`stops
    ensures p.unreaped == old(p.unreaped) - SetOf(pids)
    ensures p.interrupts == old(p.interrupts) + if ending == Cut then 1 else 0
    ensures ending == Completed ==>
              && p.signals == old(p.signals) && pids[|pids| - 1] in p.collected
              && status == Jobs.ExitStatus(p.collected[pids[|pids| - 1]])
              && status == match p.collected[pids[|pids| - 1]]
                           case Exited(code) => code
                           case Signaled(signal) => 128 + signal
                           case Unclassified => 1
    ensures ending == Cut ==> status == SIGINT_STATUS == 130
    ensures group == None ==> OnlyChildren(old(p.signals), p.signals, pids)
    ensures group == None && ending == Cut ==> ToChild(pids[|pids| - 1], "SIGINT") in p.signals
    ensures group.Some? && ending == Cut ==> p.signals == old(p.signals) + [ToGroup(group.value, "SIGINT")]
  {
    var i := 0;
    while i < |pids|
      invariant 0 <= i <= |pids| && p.signals == old(p.signals) && p.interrupts == old(p.interrupts)
      invariant p.unreaped == old(p.unreaped) - SetOf(pids[..i])
      invariant i > 0 ==> pids[i - 1] in p.collected
    {
      assert pids[i] in SetOf(pids) && pids[i] !in SetOf(pids[..i]);
      assert SetOf(pids[..i + 1]) == SetOf(pids[..i]) + {pids[i]} by {
        assert pids[..i + 1] == pids[..i] + [pids[i]];
      }
      var answer := p.WaitPid(pids[i], false);
      if !answer.Collected? {
        InterruptAll(p, pids, i, group);
        return SIGINT_STATUS, Cut;
      }
      i := i + 1;
    }
    assert pids[..|pids|] == pids;
    status, ending := Jobs.ExitStatus(p.collected[pids[|pids| - 1]]), Completed;
  }

  /** The handler of an interrupt that arrived while waiting for the `i`-th process. */
  method InterruptAll(p: Process, pids: seq<Pid>, i: nat, group: Option<Pid>)
    requires i < |pids|
    modifies p`unreaped, p`collected, p`signals
    ensures p.unreaped == old(p.unreaped) - SetOf(pids[i..])
    ensures group == None ==>
              && OnlyChildren(old(p.signals), p.signals, pids)
              && forall k :: i <= k < |pids| ==> ToChild(pids[k], "SIGINT") in p.signals
    ensures group.Some? ==> p.signals == old(p.signals) + [ToGroup(group.value, "SIGINT")]
  {
    if group.Some? {
      p.Send(ToGroup(group.value, SIGINT));
    } else {
      for k := i to |pids|
        invariant OnlyChildren(old(p.signals), p.signals, pids) && p.unreaped == old(p.unreaped)
        invariant forall j :: i <= j < k ==> ToChild(pids[j], SIGINT) in p.signals
      {
        p.Send(ToChild(pids[k], SIGINT));
      }
    }
    ghost var sent := p.signals;
    for k := i to |pids|
      invariant p.signals == sent
      invariant p.unreaped == old(p.unreaped) - SetOf(pids[i..k])
    {
      assert SetOf(pids[i..k + 1]) == SetOf(pids[i..k]) + {pids[k]} by {
        assert pids[i..k + 1] == pids[i..k] + [pids[k]];
      }
      p.Reap(pids[k]);
    }
    assert pids[i..|pids|] == pids[i..];
  }
}
