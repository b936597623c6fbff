/**
 * Setting up a pipeline, as a state machine: the parent's loop and the descriptor setup of every
 * stage take their steps in any order. Pipe k connects stage k to stage k + 1.
 */
module PipeEnds {
  import opened Text
  import opened Kernel
  import opened Redirect

  /** What a pipeline starts from: the shell's descriptors, the redirections of each stage, the number of the next pipe. */
  datatype Setting = Setting(entry: Table, stages: seq<seq<Action>>, base: nat)
  {
    ghost predicate Valid() {
      && STANDARD <= entry.Keys && Ends(this, entry) == {}
      && stages != [] && forall k :: 0 <= k < |stages| ==> WellFormed(stages[k])
    }
  }

  /** Where the parent is in its loop. */
  datatype Point =
    | AtPipe | AtFork | AtClosePrevious | AtCloseWrite  // one iteration
    | AtCloseNewRead | AtCloseNewWrite                  // fork failed
    | AtReap                                            // a failed setup waits for its children
    | AtFinally | Done

  /** How far a stage is: redirecting, closing the pipe descriptors, running, unwinding, gone. */
  datatype Phase = Entering | Closing(todo: seq<Fd>) | Running | Leaving | Dead

  /** A stage: its descriptors now, and its descriptors and variables when it was forked. */
  datatype Stage = Stage(table: Table, phase: Phase, start: Table,
                         previous: Option<Fd>, nextRead: Option<Fd>, nextWrite: Option<Fd>)

  datatype World = World(parent: Table, point: Point, index: nat,
                         previous: Option<Fd>, nextRead: Option<Fd>, nextWrite: Option<Fd>, stages: seq<Stage>)

  /** An end of a pipe of this pipeline. */
  predicate IsEnd(c: Setting, f: File) { (f.PipeRead? || f.PipeWrite?) && c.base <= f.pipe < c.base + |c.stages| }

  function ReadEnd(c: Setting, k: nat): File { PipeRead(c.base + k) }

  function WriteEnd(c: Setting, k: nat): File { PipeWrite(c.base + k) }

  /** The pipe ends of the pipeline that a table leads to. */
  function Ends(c: Setting, t: Table): set<File> {
    set f | f in t.Values && IsEnd(c, f)
  }

  function Drop(t: Table, fd: Option<Fd>): Table {
    if fd.Some? then t - {fd.value} else t
  }

  function Open(fd: Option<Fd>): seq<Fd> {
    if fd.Some? && fd.value > 2 then [fd.value] else []
  }

  // -------------------------------------------------------------------- steps

  ghost predicate Init(c: Setting, w: World) {
    w == World(c.entry, AtPipe, 0, None, None, None, [])
  }

  ghost predicate ParentStep(c: Setting, w: World, w': World) {
    var n := |c.stages|;
    match w.point
    case AtPipe =>
      if w.index >= n then w' == w.(point := AtFinally)
      else if w.index == n - 1 then w' == w.(point := AtFork)
      else
        || w' == w.(point := AtReap)
        || (&& w'.nextRead.Some? && w'.nextWrite.Some?
            && w'.nextRead.value !in w.parent && w'.nextWrite.value !in w.parent
            && w'.nextRead != w'.nextWrite
            && w' == w.(parent := w.parent[w'.nextRead.value := ReadEnd(c, w.index)]
                                          [w'.nextWrite.value := WriteEnd(c, w.index)],
                        nextRead := w'.nextRead, nextWrite := w'.nextWrite, point := AtFork))
    case AtFork =>
      || w' == w.(point := AtCloseNewRead)
      || w' == w.(point := AtClosePrevious,
                  stages := w.stages + [Stage(w.parent, Entering, w.parent, w.previous, w.nextRead, w.nextWrite)])
    case AtClosePrevious =>
      w' == w.(parent := Drop(w.parent, w.previous), previous := None, point := AtCloseWrite)
    case AtCloseWrite =>
      w' == w.(parent := Drop(w.parent, w.nextWrite), previous := w.nextRead,
               nextRead := None, nextWrite := None, index := w.index + 1, point := AtPipe)
    case AtCloseNewRead =>
      w' == w.(parent := Drop(w.parent, w.nextRead), nextRead := None, point := AtCloseNewWrite)
    case AtCloseNewWrite =>
      w' == w.(parent := Drop(w.parent, w.nextWrite), nextWrite := None, point := AtReap)
    case AtReap =>
      (forall k :: 0 <= k < |w.stages| ==> w.stages[k].phase == Dead) && w' == w.(point := AtFinally)
    case AtFinally =>
      w' == w.(parent := Drop(w.parent, w.previous), previous := None, point := Done)
    case Done => false
  }

  /** A process may duplicate, close and open descriptors and make pipes, but it gains no end of this pipeline that way. */
  ghost predicate Shuffled(c: Setting, t: Table, t': Table) {
    Ends(c, t') <= Ends(c, t)
  }

  ghost predicate StageStep(c: Setting, k: nat, s: Stage, s': Stage)
    requires c.Valid() && k < |c.stages|
  {
    || s' == s.(phase := Dead, table := map[])
    || match s.phase
       case Entering =>
         || (s' == s.(table := s'.table) && Shuffled(c, s.table, s'.table))
         || s' == s.(phase := Leaving)
         || (&& s' == s.(table := s'.table, phase := Closing(Open(s.previous) + Open(s.nextRead) + Open(s.nextWrite)))
             && Redirectable(s)
             && exists temps, serial ::
                  EnteredFrom(s.start, s'.table, temps, s.previous, s.nextWrite, c.stages[k], serial))
       case Closing(todo) =>
         if todo == [] then s' == s.(phase := Running)
         else s' == s.(phase := Closing(todo[1..]), table := s.table - {todo[0]})
       case Running =>
         || (s' == s.(table := s'.table) && Shuffled(c, s.table, s'.table))
         || s' == s.(phase := Leaving)
       case Leaving => s' == s.(table := s'.table) && Shuffled(c, s.table, s'.table)
       case Dead => false
  }

  ghost predicate Redirectable(s: Stage) {
    && STANDARD <= s.start.Keys
    && (s.previous.Some? ==> s.previous.value in s.start)
    && (s.nextWrite.Some? ==> s.nextWrite.value in s.start)
  }

  ghost predicate Next(c: Setting, w: World, w': World)
    requires c.Valid()
  {
    || ParentStep(c, w, w')
    || exists k :: 0 <= k < |w.stages| && StageMoves(c, w, w', k)
  }

  ghost predicate StageMoves(c: Setting, w: World, w': World, k: nat)
    requires c.Valid() && k < |w.stages|
  {
    && |w'.stages| == |w.stages| && k < |c.stages|
    && StageStep(c, k, w.stages[k], w'.stages[k])
    && w' == w.(stages := w.stages[k := w'.stages[k]])
  }

  ghost predicate Run(c: Setting, ws: seq<World>)
    requires c.Valid()
  {
    && ws != [] && Init(c, ws[0])
    && forall i :: 0 <= i < |ws| - 1 ==> Next(c, ws[i], ws[i + 1])
  }

  // --------------------------------------------------------------- invariants

  /** The ends that stage k may ever hold: those of its own pipe, and the read end of the one before. */
  function Allowed(c: Setting, k: nat): set<File> {
    {ReadEnd(c, k), WriteEnd(c, k)} + if k > 0 then {ReadEnd(c, k - 1)} else {}
  }

  /** `fd` is the only descriptor of `t` that leads to `f`. */
  ghost predicate OnlyAt(t: Table, f: File, fd: Option<Fd>) {
    forall x :: x in t && t[x] == f ==> Some(x) == fd
  }

  ghost predicate StageStart(c: Setting, k: nat, s: Stage) {
    && Redirectable(s)
    && (forall fd :: fd in STANDARD ==> !IsEnd(c, s.start[fd]))
    && Ends(c, s.start) <= Allowed(c, k)
    && OnlyAt(s.start, ReadEnd(c, k), s.nextRead)
    && (s.previous.Some? ==> k > 0 && s.start[s.previous.value] == ReadEnd(c, k - 1))
    && (s.nextRead.Some? ==> s.nextRead.value in s.start && s.nextRead.value > 2)
    && (s.nextWrite.Some? ==> s.start[s.nextWrite.value] == WriteEnd(c, k))
  }

  ghost predicate StageInv(c: Setting, k: nat, s: Stage) {
    && StageStart(c, k, s)
    && Ends(c, s.table) <= Allowed(c, k)
    && (s.phase.Closing? ==>
          && OnlyAt(s.table, ReadEnd(c, k), s.nextRead)
          && (s.nextRead.Some? && s.nextRead.value in s.table ==> s.nextRead.value in s.phase.todo))
    && (s.phase == Running ==> ReadEnd(c, k) !in s.table.Values)
    && (s.phase == Dead ==> s.table == map[])
  }

  /** The parent holds its own descriptors and the ends that its variables name, nothing else. */
  ghost predicate ParentInv(c: Setting, w: World) {
    && w.index <= |c.stages|
    && (w.previous.Some? ==> w.index > 0 && w.previous.value !in c.entry)
    && (w.nextRead.Some? ==> w.nextRead.value !in c.entry)
    && (w.nextWrite.Some? ==> w.nextWrite.value !in c.entry)
    && (w.previous.Some? ==> w.previous != w.nextRead && w.previous != w.nextWrite)
    && (w.nextRead.Some? ==> w.nextRead != w.nextWrite)
    && w.parent == Expected(c, w)
    && (w.point in {AtPipe, AtReap, AtFinally} ==> w.nextRead == None && w.nextWrite == None)
    && (w.point == AtPipe && w.index == |c.stages| ==> w.previous == None)
    && (w.point == AtFork ==> w.index < |c.stages|)
    && (w.point in {AtClosePrevious, AtCloseWrite} ==> w.index < |c.stages|)
    && (w.index == |c.stages| - 1 ==> w.nextRead == None)
    && (w.point == AtCloseWrite ==> w.previous == None)
    && (w.point == AtCloseNewWrite ==> w.nextRead == None)
    && (w.point == Done ==> w.previous == w.nextRead == w.nextWrite == None)
    && |w.stages| == w.index + if w.point in {AtClosePrevious, AtCloseWrite} then 1 else 0
  }

  function Expected(c: Setting, w: World): Table
    requires w.previous.Some? ==> w.index > 0
  {
    c.entry
    + (if w.previous.Some? then map[w.previous.value := ReadEnd(c, w.index - 1)] else map[])
    + (if w.nextRead.Some? then map[w.nextRead.value := ReadEnd(c, w.index)] else map[])
    + (if w.nextWrite.Some? then map[w.nextWrite.value := WriteEnd(c, w.index)] else map[])
  }

  ghost predicate Inv(c: Setting, w: World) {
    && ParentInv(c, w)
    && forall k :: 0 <= k < |w.stages| ==> StageInv(c, k, w.stages[k])
  }

  lemma InitInv(c: Setting, w: World)
    requires c.Valid() && Init(c, w)
    ensures Inv(c, w)
  {
  }

  lemma ParentInvStep(c: Setting, w: World, w': World)
    requires c.Valid() && ParentInv(c, w) && ParentStep(c, w, w')
    ensures ParentInv(c, w')
  {
    hide Ends;
    if w.point == AtPipe && w.index < |c.stages| - 1 {
      PipeStep(c, w, w');
    } else if w.point == AtFork {
      ForkStep(c, w, w');
    } else if w.point in {AtClosePrevious, AtFinally} {
      ClosePreviousStep(c, w, w');
    } else if w.point in {AtCloseWrite, AtCloseNewWrite} {
      CloseWriteStep(c, w, w');
    } else if w.point == AtCloseNewRead {
      assert w'.parent == Expected(c, w');
    }
  }

  lemma PipeStep(c: Setting, w: World, w': World)
    requires ParentInv(c, w) && ParentStep(c, w, w') && w.point == AtPipe && w.index < |c.stages| - 1
    ensures ParentInv(c, w')
  {
    hide Ends;
    if w'.nextRead.Some? {
      assert w'.parent == Expected(c, w');
    }
  }

  lemma ForkStep(c: Setting, w: World, w': World)
    requires ParentInv(c, w) && ParentStep(c, w, w') && w.point == AtFork
    ensures ParentInv(c, w')
  {
    assert Expected(c, w') == Expected(c, w);
  }

  lemma ClosePreviousStep(c: Setting, w: World, w': World)
    requires ParentInv(c, w) && ParentStep(c, w, w') && w.point in {AtClosePrevious, AtFinally}
    ensures ParentInv(c, w')
  {
    assert w'.parent == Expected(c, w');
  }

  lemma CloseWriteStep(c: Setting, w: World, w': World)
    requires ParentInv(c, w) && ParentStep(c, w, w') && w.point in {AtCloseWrite, AtCloseNewWrite}
    ensures ParentInv(c, w')
  {
    assert w'.parent == Expected(c, w');
  }

  lemma NoEndsOnEntry(c: Setting)
    requires c.Valid()
    ensures forall fd :: fd in c.entry ==> !IsEnd(c, c.entry[fd])
  {
    forall fd | fd in c.entry
      ensures !IsEnd(c, c.entry[fd])
    {
      assert c.entry[fd] in c.entry.Values && c.entry[fd] !in Ends(c, c.entry);
    }
  }

  /** What the parent holds when it forks is what the new stage may hold. */
  lemma ForkedStage(c: Setting, w: World)
    requires c.Valid() && ParentInv(c, w) && w.point == AtFork
    ensures StageInv(c, w.index, Stage(w.parent, Entering, w.parent, w.previous, w.nextRead, w.nextWrite))
  {
    NoEndsOnEntry(c);
    assert Ends(c, w.parent) <= Allowed(c, w.index);
  }

  /** After its redirections a stage leads to its own read end through `next_read` only. */
  lemma EnteredStage(c: Setting, k: nat, s: Stage, t: Table, temps: set<Fd>, serial: nat)
    requires c.Valid() && k < |c.stages| && StageStart(c, k, s)
    requires EnteredFrom(s.start, t, temps, s.previous, s.nextWrite, c.stages[k], serial)
    ensures Ends(c, t) <= Allowed(c, k) && OnlyAt(t, ReadEnd(c, k), s.nextRead)
  {
    hide Target;
    var target := Target(s.start, s.previous, s.nextWrite, c.stages[k], serial);
    var base := Base(s.start, s.previous, s.nextWrite);
    assert ReadEnd(c, k) !in base;
    forall f | f in base && IsEnd(c, f)
      ensures f in Allowed(c, k)
    {
      assert f in Ends(c, s.start);
    }
    forall fd | fd in t
      ensures t[fd] == ReadEnd(c, k) ==> Some(fd) == s.nextRead
      ensures IsEnd(c, t[fd]) ==> t[fd] in Allowed(c, k)
    {
      if fd !in temps && fd !in STANDARD {
        assert t[fd] == (t - temps)[fd] == target[fd] == s.start[fd];
        assert IsEnd(c, t[fd]) ==> t[fd] in Ends(c, s.start);
      } else if fd !in temps {
        assert t[fd] == (t - temps)[fd] == target[fd];
      }
    }
  }

  lemma StageInvStep(c: Setting, k: nat, s: Stage, s': Stage)
    requires c.Valid() && k < |c.stages| && StageInv(c, k, s) && StageStep(c, k, s, s')
    ensures StageInv(c, k, s')
  {
    hide EnteredFrom;
    if s'.phase == Dead {
    } else if s.phase == Entering && s'.phase.Closing? {
      var temps, serial :| EnteredFrom(s.start, s'.table, temps, s.previous, s.nextWrite, c.stages[k], serial);
      EnteredStage(c, k, s, s'.table, temps, serial);
    } else if s.phase.Closing? && s.phase.todo != [] {
      assert s'.table.Values <= s.table.Values;
      assert s.phase.todo == [s.phase.todo[0]] + s.phase.todo[1..];
    } else if s.phase.Closing? {
      assert forall fd :: fd in s.table ==> s.table[fd] != ReadEnd(c, k);
    } else if s.phase == Running {
      assert ReadEnd(c, k) in s'.table.Values ==> ReadEnd(c, k) in Ends(c, s'.table);
    }
  }

  lemma InvStep(c: Setting, w: World, w': World)
    requires c.Valid() && Inv(c, w) && Next(c, w, w')
    ensures Inv(c, w')
  {
    hide StageInv, StageStep, ParentInv;
    if ParentStep(c, w, w') {
      ParentInvStep(c, w, w');
      if w.point == AtFork && |w'.stages| > |w.stages| {
        ForkedStage(c, w);
        assert |w.stages| == w.index by { StageCount(c, w); }
      }
    } else {
      var k :| 0 <= k < |w.stages| && StageMoves(c, w, w', k);
      StageInvStep(c, k, w.stages[k], w'.stages[k]);
      assert ParentInv(c, w') by { ParentInvKept(c, w, w', k); }
    }
  }

  lemma StageCount(c: Setting, w: World)
    requires ParentInv(c, w) && w.point == AtFork
    ensures |w.stages| == w.index
  {
  }

  lemma ParentInvKept(c: Setting, w: World, w': World, k: nat)
    requires c.Valid() && ParentInv(c, w) && k < |w.stages| && StageMoves(c, w, w', k)
    ensures ParentInv(c, w')
  {
    hide StageStep;
  }

  lemma {:induction false} RunInv(c: Setting, ws: seq<World>, i: nat)
    requires c.Valid() && Run(c, ws) && i < |ws|
    ensures Inv(c, ws[i]) && |ws[i].stages| >= ws[i].index
  {
    hide Next;
    if i == 0 {
      InitInv(c, ws[0]);
    } else {
      RunInv(c, ws, i - 1);
      assert Next(c, ws[i - 1], ws[i - 1 + 1]);
      InvStep(c, ws[i - 1], ws[i]);
    }
  }

  // ----------------------------------------------------------------- theorems

  /** Some descriptor of the stage leads to `f`. */
  predicate StageHolds(w: World, k: nat, f: File)
  {
    k < |w.stages| && f in w.stages[k].table.Values
  }

  /** The ends that the parent holds belong to the pipes around its current index. */
  lemma ParentEnds(c: Setting, w: World, f: File)
    requires c.Valid() && ParentInv(c, w) && IsEnd(c, f) && f in w.parent.Values
    ensures f.PipeRead? ==> f.pipe + 1 == c.base + w.index || f.pipe == c.base + w.index
    ensures f.PipeWrite? ==> f.pipe == c.base + w.index
    ensures w.point != Done
  {
    NoEndsOnEntry(c);
  }

  /**
   * Ownership. In every interleaving and at every moment, the write end of pipe k is held only by
   * the parent and stage k, and its read end only by the parent, stage k and stage k + 1; a stage
   * that runs has given up its own read end.
   */
  lemma Ownership(c: Setting, ws: seq<World>, i: nat, k: nat, j: nat)
    requires c.Valid() && Run(c, ws) && i < |ws| && k < |c.stages|
    ensures StageHolds(ws[i], j, WriteEnd(c, k)) ==> j == k
    ensures StageHolds(ws[i], j, ReadEnd(c, k)) ==> j == k || j == k + 1
    ensures StageHolds(ws[i], j, ReadEnd(c, k)) && ws[i].stages[j].phase == Running ==> j == k + 1
  {
    RunInv(c, ws, i);
    if j < |ws[i].stages| {
      var s := ws[i].stages[j];
      assert StageInv(c, j, s);
      assert WriteEnd(c, k) in s.table.Values ==> WriteEnd(c, k) in Ends(c, s.table);
      assert ReadEnd(c, k) in s.table.Values ==> ReadEnd(c, k) in Ends(c, s.table);
    }
  }

  /**
   * End-of-file. Once the parent is past stage k, the pipe after stage k has a writer exactly as
   * long as stage k itself holds its write end; when stage k has exited there is none, so stage
   * k + 1 reads end-of-file.
   */
  lemma EndOfFile(c: Setting, ws: seq<World>, i: nat, k: nat)
    requires c.Valid() && Run(c, ws) && i < |ws| && k < ws[i].index
    ensures WriteEnd(c, k) !in ws[i].parent.Values
    ensures (exists j: nat :: StageHolds(ws[i], j, WriteEnd(c, k))) <==> StageHolds(ws[i], k, WriteEnd(c, k))
    ensures k < |ws[i].stages| && ws[i].stages[k].phase == Dead ==> !StageHolds(ws[i], k, WriteEnd(c, k))
  {
    RunInv(c, ws, i);
    if WriteEnd(c, k) in ws[i].parent.Values {
      ParentEnds(c, ws[i], WriteEnd(c, k));
    }
    forall j: nat | StageHolds(ws[i], j, WriteEnd(c, k))
      ensures j == k
    {
      Ownership(c, ws, i, k, j);
    }
    if k < |ws[i].stages| {
      assert StageInv(c, k, ws[i].stages[k]);
    }
  }

  /**
   * The other direction: when stage k runs and stage k + 1 has exited with the parent past it,
   * nobody reads the pipe between them any more, so stage k writes into a broken pipe.
   */
  lemma BrokenPipe(c: Setting, ws: seq<World>, i: nat, k: nat, j: nat)
    requires c.Valid() && Run(c, ws) && i < |ws| && k + 1 < ws[i].index && k + 1 < |ws[i].stages|
    requires ws[i].stages[k].phase == Running && ws[i].stages[k + 1].phase == Dead
    ensures ReadEnd(c, k) !in ws[i].parent.Values && !StageHolds(ws[i], j, ReadEnd(c, k))
  {
    RunInv(c, ws, i);
    if ReadEnd(c, k) in ws[i].parent.Values {
      ParentEnds(c, ws[i], ReadEnd(c, k));
    }
    Ownership(c, ws, i, k, j);
    assert StageInv(c, k + 1, ws[i].stages[k + 1]);
    assert StageInv(c, k, ws[i].stages[k]);
  }

  /** After a setup that failed the parent is past its wait only when all its stages are gone. */
  ghost predicate Swept(c: Setting, w: World) {
    w.point in {AtFinally, Done} && w.index < |c.stages| ==> forall k :: 0 <= k < |w.stages| ==> w.stages[k].phase == Dead
  }

  lemma SweptStep(c: Setting, w: World, w': World)
    requires c.Valid() && Swept(c, w) && Next(c, w, w')
    ensures Swept(c, w')
  {
    hide EnteredFrom, Ends;
  }

  lemma {:induction false} RunSwept(c: Setting, ws: seq<World>, i: nat)
    requires c.Valid() && Run(c, ws) && i < |ws|
    ensures Swept(c, ws[i])
  {
    hide Next, Swept;
    if i == 0 {
      assert Swept(c, ws[0]) by { NothingToSweep(c, ws[0]); }
    } else {
      RunSwept(c, ws, i - 1);
      assert Next(c, ws[i - 1], ws[i - 1 + 1]);
      SweptStep(c, ws[i - 1], ws[i]);
    }
  }

  lemma NothingToSweep(c: Setting, w: World)
    requires Init(c, w)
    ensures Swept(c, w)
  {
  }

  // ------------------------------------------------------------------- wiring

  /** Which variables are set when, and what a stage that is about to run has on its standard descriptors. */
  ghost predicate Linked(c: Setting, w: World) {
    var n := |c.stages|;
    && (w.point in {AtPipe, AtFork, AtClosePrevious} && w.index < n ==> (w.previous.Some? <==> w.index > 0))
    && (w.point in {AtFork, AtClosePrevious, AtCloseWrite} ==>
          (w.nextRead.Some? <==> w.index + 1 < n) && (w.nextWrite.Some? <==> w.index + 1 < n))
    && StagesLinked(c, w.stages)
  }

  ghost predicate StagesLinked(c: Setting, stages: seq<Stage>) {
    |stages| <= |c.stages| && forall k :: 0 <= k < |stages| ==> StageLinked(c, k, stages[k])
  }

  ghost predicate StageLinked(c: Setting, k: nat, s: Stage)
    requires k < |c.stages|
  {
    && (s.previous.Some? <==> k > 0) && (s.nextWrite.Some? <==> k + 1 < |c.stages|)
    && (forall fd :: fd in c.entry ==> fd in s.start && s.start[fd] == c.entry[fd])
    && (s.phase.Closing? ==> Wired(c, k, s) && forall fd :: fd in s.phase.todo ==> fd > 2)
    && (s.phase.Closing? ==> ToClose(s, s.previous) && ToClose(s, s.nextRead) && ToClose(s, s.nextWrite))
  }

  /** The descriptor of this variable is closed or will be. */
  predicate ToClose(s: Stage, fd: Option<Fd>)
    requires s.phase.Closing?
  {
    fd.Some? && fd.value in s.table && fd.value > 2 ==> fd.value in s.phase.todo
  }

  ghost predicate Wired(c: Setting, k: nat, s: Stage)
    requires k < |c.stages|
  {
    exists t, temps, serial ::
      && Redirectable(s) && WellFormed(c.stages[k])
      && EnteredFrom(s.start, t, temps, s.previous, s.nextWrite, c.stages[k], serial)
      && forall fd :: fd in STANDARD && fd in t ==> fd in s.table && s.table[fd] == t[fd]
  }

  lemma WiredStill(c: Setting, k: nat, s: Stage, s': Stage)
    requires k < |c.stages| && Wired(c, k, s)
    requires s' == s.(table := s'.table, phase := s'.phase)
    requires forall fd :: fd in STANDARD && fd in s.table ==> fd in s'.table && s'.table[fd] == s.table[fd]
    ensures Wired(c, k, s')
  {
    hide EnteredFrom;
  }

  lemma WiredAtFirst(c: Setting, k: nat, s: Stage, s': Stage)
    requires c.Valid() && k < |c.stages| && s.phase == Entering && s'.phase.Closing? && StageStep(c, k, s, s')
    ensures Wired(c, k, s')
  {
    hide EnteredFrom, Ends;
    var temps, serial :| EnteredFrom(s.start, s'.table, temps, s.previous, s.nextWrite, c.stages[k], serial);
    assert WellFormed(c.stages[k]);
  }

  lemma StageLinkedStep(c: Setting, k: nat, s: Stage, s': Stage)
    requires c.Valid() && k < |c.stages| && StageInv(c, k, s) && StageLinked(c, k, s) && StageStep(c, k, s, s')
    ensures StageLinked(c, k, s')
  {
    hide EnteredFrom, Ends, StageInv, Wired, Shuffled, Redirectable;
    if s'.phase.Closing? && s.phase == Entering {
      WiredAtFirst(c, k, s, s');
    } else if s'.phase.Closing? {
      ClosingOne(c, k, s, s');
    }
  }

  lemma ClosingOne(c: Setting, k: nat, s: Stage, s': Stage)
    requires k < |c.stages| && StageLinked(c, k, s) && s.phase.Closing? && s.phase.todo != []
    requires s' == s.(phase := Closing(s.phase.todo[1..]), table := s.table - {s.phase.todo[0]})
    ensures StageLinked(c, k, s')
  {
    hide Wired;
    assert s.phase.todo == [s.phase.todo[0]] + s.phase.todo[1..];
    assert s.phase.todo[0] in s.phase.todo && forall fd :: fd in s'.phase.todo ==> fd in s.phase.todo;
    WiredStill(c, k, s, s');
  }

  lemma ParentLinkedStep(c: Setting, w: World, w': World)
    requires c.Valid() && ParentInv(c, w) && Linked(c, w) && ParentStep(c, w, w')
    ensures Linked(c, w')
  {
    hide Wired, Ends;
    assert |w'.stages| <= |c.stages|;
    if w.point == AtFork && |w'.stages| > |w.stages| {
      assert forall k :: 0 <= k < |w.stages| ==> w'.stages[k] == w.stages[k];
      assert |w.stages| == w.index;
      ExpectedKeeps(c, w);
    } else {
      assert w'.stages == w.stages;
    }
  }

  lemma ExpectedKeeps(c: Setting, w: World)
    requires ParentInv(c, w)
    ensures forall fd :: fd in c.entry ==> fd in w.parent && w.parent[fd] == c.entry[fd]
  {
  }

  lemma StagesLinkedMove(c: Setting, w: World, w': World, k: nat)
    requires c.Valid() && StagesLinked(c, w.stages) && k < |w.stages| && StageMoves(c, w, w', k) && StageInv(c, k, w.stages[k])
    ensures StagesLinked(c, w'.stages)
  {
    hide StageInv, StageStep, StageLinked;
    StageLinkedStep(c, k, w.stages[k], w'.stages[k]);
    forall j | 0 <= j < |w'.stages|
      ensures StageLinked(c, j, w'.stages[j])
    {
      assert StageLinked(c, j, w.stages[j]);
    }
  }

  lemma StageLinkedMove(c: Setting, w: World, w': World, k: nat)
    requires c.Valid() && Inv(c, w) && Linked(c, w) && k < |w.stages| && StageMoves(c, w, w', k)
    ensures Linked(c, w')
  {
    hide StageInv, StageStep, ParentInv, StagesLinked;
    StagesLinkedMove(c, w, w', k);
  }

  lemma LinkedStep(c: Setting, w: World, w': World)
    requires c.Valid() && Inv(c, w) && Linked(c, w) && Next(c, w, w')
    ensures Linked(c, w')
  {
    hide Inv, Linked, StageMoves, ParentStep;
    if ParentStep(c, w, w') {
      assert ParentInv(c, w) by { InvParent(c, w); }
      ParentLinkedStep(c, w, w');
    } else {
      var k :| 0 <= k < |w.stages| && StageMoves(c, w, w', k);
      StageLinkedMove(c, w, w', k);
    }
  }

  lemma InvParent(c: Setting, w: World)
    requires Inv(c, w)
    ensures ParentInv(c, w)
  {
    hide ParentInv;
  }

  lemma {:induction false} RunLinked(c: Setting, ws: seq<World>, i: nat)
    requires c.Valid() && Run(c, ws) && i < |ws|
    ensures Linked(c, ws[i])
  {
    hide Next, Linked;
    if i == 0 {
      assert Linked(c, ws[0]) by { NothingLinked(c, ws[0]); }
    } else {
      RunLinked(c, ws, i - 1);
      RunInv(c, ws, i - 1);
      assert Next(c, ws[i - 1], ws[i - 1 + 1]);
      LinkedStep(c, ws[i - 1], ws[i]);
    }
  }

  lemma NothingLinked(c: Setting, w: World)
    requires Init(c, w)
    ensures Linked(c, w)
  {
  }

  /** The table with which a stage came out of its redirections, and what it came from. */
  lemma Entry(c: Setting, ws: seq<World>, i: nat, k: nat) returns (t: Table, temps: set<Fd>, serial: nat)
    requires c.Valid() && Run(c, ws) && i < |ws| && k < |ws[i].stages| && ws[i].stages[k].phase.Closing?
    ensures k < |c.stages| && WellFormed(c.stages[k]) && Redirectable(ws[i].stages[k])
    ensures var s := ws[i].stages[k];
            && EnteredFrom(s.start, t, temps, s.previous, s.nextWrite, c.stages[k], serial)
            && (forall fd :: fd in STANDARD && fd in t ==> fd in s.table && s.table[fd] == t[fd])
            && (forall fd :: fd in STANDARD ==> s.start[fd] == c.entry[fd])
            && (s.previous.Some? <==> k > 0) && (k > 0 ==> s.start[s.previous.value] == PipeRead(c.base + k - 1))
            && (s.nextWrite.Some? <==> k + 1 < |c.stages|)
            && (k + 1 < |c.stages| ==> s.nextWrite != Some(0) && s.start[s.nextWrite.value] == PipeWrite(c.base + k))
  {
    hide Next, EnteredFrom, Ends;
    RunInv(c, ws, i);
    RunLinked(c, ws, i);
    var s := ws[i].stages[k];
    assert StageInv(c, k, s) && StageLinked(c, k, s);
    t, temps, serial :|
      && Redirectable(s) && WellFormed(c.stages[k])
      && EnteredFrom(s.start, t, temps, s.previous, s.nextWrite, c.stages[k], serial)
      && forall fd :: fd in STANDARD && fd in t ==> fd in s.table && s.table[fd] == t[fd];
  }

  /**
   * The wiring. From the end of its redirections until it runs, a stage that redirects its input
   * nowhere else reads the pipe before it, and one that redirects its output nowhere else writes the
   * pipe after it; the first stage reads and the last one writes where the shell does.
   */
  lemma Wiring(c: Setting, ws: seq<World>, i: nat, k: nat)
    requires c.Valid() && Run(c, ws) && i < |ws| && k < |ws[i].stages| && ws[i].stages[k].phase.Closing?
    ensures k < |c.stages| && STANDARD <= ws[i].stages[k].table.Keys
    ensures (forall a :: a in c.stages[k] ==> a.fd != 0) ==>
              ws[i].stages[k].table[0] == if k > 0 then PipeRead(c.base + k - 1) else c.entry[0]
    ensures (forall a :: a in c.stages[k] ==> a.fd != 1) ==>
              ws[i].stages[k].table[1] == if k + 1 < |c.stages| then PipeWrite(c.base + k) else c.entry[1]
    ensures (forall a :: a in c.stages[k] ==> a.fd != 2) ==> ws[i].stages[k].table[2] == c.entry[2]
  {
    hide Next, Run, EnteredFrom, Ends;
    var s := ws[i].stages[k];
    var t, temps, serial := Entry(c, ws, i, k);
    Unredirected(s.start, t, temps, s.previous, s.nextWrite, c.stages[k], serial);
  }

  /** When a stage is about to run it has closed all the pipe descriptors that it was forked with. */
  lemma ForkedEndsClosed(c: Setting, ws: seq<World>, i: nat, k: nat)
    requires c.Valid() && Run(c, ws) && i < |ws| && k < |ws[i].stages| && ws[i].stages[k].phase == Closing([])
    ensures forall fd :: fd in ws[i].stages[k].start && fd in ws[i].stages[k].table && fd > 2 ==>
                           !IsEnd(c, ws[i].stages[k].start[fd])
  {
    hide Next, Run, Wired, Ends;
    RunInv(c, ws, i);
    RunLinked(c, ws, i);
    RunForked(c, ws, i);
    var s := ws[i].stages[k];
    assert StageLinked(c, k, s) && OnlyVariables(c, s);
  }

  /** Only the three variables lead a new stage to pipe ends. */
  ghost predicate OnlyVariables(c: Setting, s: Stage) {
    forall fd :: fd in s.start && IsEnd(c, s.start[fd]) ==> Some(fd) in {s.previous, s.nextRead, s.nextWrite}
  }

  lemma {:induction false} RunForked(c: Setting, ws: seq<World>, i: nat)
    requires c.Valid() && Run(c, ws) && i < |ws|
    ensures forall k :: 0 <= k < |ws[i].stages| ==> OnlyVariables(c, ws[i].stages[k])
  {
    hide Next, OnlyVariables;
    if i > 0 {
      RunForked(c, ws, i - 1);
      RunInv(c, ws, i - 1);
      assert Next(c, ws[i - 1], ws[i - 1 + 1]);
      forall k | 0 <= k < |ws[i].stages|
        ensures OnlyVariables(c, ws[i].stages[k])
      {
        ForkedStep(c, ws[i - 1], ws[i], k);
      }
    }
  }

  lemma ForkedStep(c: Setting, w: World, w': World, k: nat)
    requires c.Valid() && Inv(c, w) && Next(c, w, w') && k < |w'.stages|
    requires k < |w.stages| ==> OnlyVariables(c, w.stages[k])
    ensures OnlyVariables(c, w'.stages[k])
  {
    hide Inv, ParentStep, StageMoves, OnlyVariables;
    if ParentStep(c, w, w') {
      assert ParentInv(c, w) by { InvParent(c, w); }
      NewStage(c, w, w', k);
    } else {
      var j :| 0 <= j < |w.stages| && StageMoves(c, w, w', j);
      StartStays(c, w, w', j, k);
    }
  }

  lemma NewStage(c: Setting, w: World, w': World, k: nat)
    requires c.Valid() && ParentInv(c, w) && ParentStep(c, w, w') && k < |w'.stages|
    ensures if k < |w.stages| then w'.stages[k] == w.stages[k] else OnlyVariables(c, w'.stages[k])
  {
    hide Ends;
    NoEndsOnEntry(c);
  }

  lemma StartStays(c: Setting, w: World, w': World, j: nat, k: nat)
    requires c.Valid() && j < |w.stages| && StageMoves(c, w, w', j) && k < |w'.stages|
    requires k < |w.stages| ==> OnlyVariables(c, w.stages[k])
    ensures OnlyVariables(c, w'.stages[k])
  {
    hide EnteredFrom, Shuffled, Redirectable;
  }

  /**
   * A redirection in a stage overrides the pipe; `2>&1` with no earlier redirection of descriptor 1
   * sends the errors into the pipe after the stage.
   */
  lemma RedirectedStage(c: Setting, ws: seq<World>, i: nat, k: nat, m: nat)
    requires c.Valid() && Run(c, ws) && i < |ws| && k < |ws[i].stages| && ws[i].stages[k].phase.Closing?
    requires k < |c.stages| && m < |c.stages[k]|
    requires forall j :: m < j < |c.stages[k]| ==> c.stages[k][j].fd != c.stages[k][m].fd
    ensures {0, 1, 2} <= ws[i].stages[k].table.Keys && c.stages[k][m].fd in {0, 1, 2}
    ensures var t := ws[i].stages[k].table;
            match c.stages[k][m] {
              case ReadOnto(fd, path) => t[fd].Opened? && t[fd].path == path && t[fd].mode == ReadOnly
              case WriteOnto(fd, path, append) =>
                t[fd].Opened? && t[fd].path == path && t[fd].mode == if append then Append else Truncate
              case DataOnto(fd, data) => t[fd].Opened? && t[fd].mode == Scratch(data)
              case DupOnto(fd, source) =>
                && source in {0, 1, 2}
                && ((forall j :: m < j < |c.stages[k]| ==> c.stages[k][j].fd != source) ==> t[fd] == t[source])
                && ((forall j :: 0 <= j < m ==> c.stages[k][j].fd != source) ==>
                      t[fd] ==
                      if source == 0 && k > 0 then PipeRead(c.base + k - 1)
                      else if source == 1 && k + 1 < |c.stages| then PipeWrite(c.base + k)
                      else c.entry[source])
            }
  {
    hide Next, Run, EnteredFrom, Ends, OpenCount;
    var s := ws[i].stages[k];
    var t, temps, serial := Entry(c, ws, i, k);
    Redirected(s.start, t, temps, s.previous, s.nextWrite, c.stages[k], serial, m);
  }

  /**
   * The parent's table. When the loop is through, and when a failed setup is over, the parent has
   * exactly the descriptors it started with; a failed setup is over only when all its stages are gone.
   */
  lemma ParentRestored(c: Setting, ws: seq<World>, i: nat)
    requires c.Valid() && Run(c, ws) && i < |ws|
    requires ws[i].point == Done || (ws[i].index == |c.stages| && ws[i].point == AtPipe)
    ensures ws[i].parent == c.entry
    ensures ws[i].index < |c.stages| ==> forall k :: 0 <= k < |ws[i].stages| ==> ws[i].stages[k].phase == Dead
  {
    RunInv(c, ws, i);
    RunSwept(c, ws, i);
    assert ws[i].parent == Expected(c, ws[i]);
  }
}
