/** Runs of the pipeline's step relation in which only the parent moves, built one iteration of its loop at a time. */
module ParentTrace {
  import opened Text
  import opened Kernel
  import opened PipeEnds

  ghost predicate Trace(c: Setting, ws: seq<World>) {
    ws != [] && Init(c, ws[0]) && forall i :: 0 <= i < |ws| - 1 ==> ParentStep(c, ws[i], ws[i + 1])
  }

  function Last(ws: seq<World>): World
    requires ws != []
  {
    ws[|ws| - 1]
  }

  lemma TraceIsRun(c: Setting, ws: seq<World>)
    requires c.Valid() && Trace(c, ws)
    ensures Run(c, ws)
  {
    hide ParentStep, Init;
  }

  lemma TraceMore(c: Setting, ws: seq<World>, w: World)
    requires Trace(c, ws) && ParentStep(c, Last(ws), w)
    ensures Trace(c, ws + [w]) && Last(ws + [w]) == w
  {
    hide ParentStep, Init;
    var all := ws + [w];
    forall i | 0 <= i < |all| - 1
      ensures ParentStep(c, all[i], all[i + 1])
    {
      if i < |ws| - 1 {
        assert all[i] == ws[i] && all[i + 1] == ws[i + 1];
      }
    }
  }

  /** The table with the new pipe of stage `i`, if there is one. */
  function WithPipe(c: Setting, t: Table, i: nat, readEnd: Option<Fd>, writeEnd: Option<Fd>): Table {
    var t1 := if readEnd.Some? then t[readEnd.value := ReadEnd(c, i)] else t;
    if writeEnd.Some? then t1[writeEnd.value := WriteEnd(c, i)] else t1
  }

  /** The new pipe of a stage: two unused descriptors, or none for the last stage. */
  predicate NewPipe(c: Setting, w: World, readEnd: Option<Fd>, writeEnd: Option<Fd>) {
    && w.index < |c.stages|
    && (readEnd.Some? <==> w.index + 1 < |c.stages|) && (writeEnd.Some? <==> w.index + 1 < |c.stages|)
    && (readEnd.Some? ==> readEnd != writeEnd && readEnd.value !in w.parent && writeEnd.value !in w.parent)
  }

  /** At the head of the loop, with no new pipe yet. */
  predicate AtHead(w: World) {
    w.point == AtPipe && w.nextRead == None && w.nextWrite == None
  }

  function Piped(c: Setting, w: World, readEnd: Option<Fd>, writeEnd: Option<Fd>): World {
    w.(parent := WithPipe(c, w.parent, w.index, readEnd, writeEnd), nextRead := readEnd, nextWrite := writeEnd, point := AtFork)
  }

  lemma PipeStepTaken(c: Setting, w: World, readEnd: Option<Fd>, writeEnd: Option<Fd>)
    requires AtHead(w) && NewPipe(c, w, readEnd, writeEnd)
    ensures ParentStep(c, w, Piped(c, w, readEnd, writeEnd))
  {
  }

  function NewStage(w: World): Stage {
    Stage(w.parent, Entering, w.parent, w.previous, w.nextRead, w.nextWrite)
  }

  /** The world after a whole iteration from `w`. */
  function Iterated(c: Setting, w: World, readEnd: Option<Fd>, writeEnd: Option<Fd>): World {
    var t := WithPipe(c, w.parent, w.index, readEnd, writeEnd);
    World(Drop(Drop(t, w.previous), writeEnd), AtPipe, w.index + 1, readEnd, None, None,
          w.stages + [Stage(t, Entering, t, w.previous, readEnd, writeEnd)])
  }

  /** An iteration that forks its stage is four steps of the parent. */
  lemma Iterate(c: Setting, ws: seq<World>, readEnd: Option<Fd>, writeEnd: Option<Fd>) returns (ws': seq<World>)
    requires Trace(c, ws) && AtHead(Last(ws)) && NewPipe(c, Last(ws), readEnd, writeEnd)
    ensures Trace(c, ws') && Last(ws') == Iterated(c, Last(ws), readEnd, writeEnd)
  {
    var w := Last(ws);
    hide Trace, WithPipe;
    PipeStepTaken(c, w, readEnd, writeEnd);
    var w1 := Piped(c, w, readEnd, writeEnd);
    TraceMore(c, ws, w1);
    var w2 := w1.(point := AtClosePrevious, stages := w1.stages + [NewStage(w1)]);
    TraceMore(c, ws + [w1], w2);
    var w3 := w2.(parent := Drop(w2.parent, w2.previous), previous := None, point := AtCloseWrite);
    TraceMore(c, ws + [w1] + [w2], w3);
    var w4 := Iterated(c, w, readEnd, writeEnd);
    TraceMore(c, ws + [w1] + [w2] + [w3], w4);
    ws' := ws + [w1] + [w2] + [w3] + [w4];
  }

  /** A `pipe` that fails leads to the cleanup. */
  lemma PipeFails(c: Setting, ws: seq<World>) returns (ws': seq<World>)
    requires Trace(c, ws) && AtHead(Last(ws)) && Last(ws).index + 1 < |c.stages|
    ensures Trace(c, ws') && Last(ws') == Last(ws).(point := AtReap)
  {
    var w := Last(ws).(point := AtReap);
    hide Trace;
    TraceMore(c, ws, w);
    ws' := ws + [w];
  }

  /** A `fork` that fails leads to the cleanup as well, after the new pipe is closed. */
  lemma ForkFails(c: Setting, ws: seq<World>, readEnd: Option<Fd>, writeEnd: Option<Fd>) returns (ws': seq<World>)
    requires Trace(c, ws) && AtHead(Last(ws)) && NewPipe(c, Last(ws), readEnd, writeEnd)
    ensures Trace(c, ws') && Last(ws') == Last(ws).(point := AtReap)
  {
    var w := Last(ws);
    hide Trace;
    PipeStepTaken(c, w, readEnd, writeEnd);
    var w1 := Piped(c, w, readEnd, writeEnd);
    TraceMore(c, ws, w1);
    var w2 := w1.(point := AtCloseNewRead);
    TraceMore(c, ws + [w1], w2);
    var w3 := w2.(parent := Drop(w2.parent, w2.nextRead), nextRead := None, point := AtCloseNewWrite);
    TraceMore(c, ws + [w1] + [w2], w3);
    var w4 := w.(point := AtReap);
    assert w4.parent == Drop(w3.parent, w3.nextWrite);
    TraceMore(c, ws + [w1] + [w2] + [w3], w4);
    ws' := ws + [w1] + [w2] + [w3] + [w4];
  }

  /** The parent is at the head of its loop with these descriptors and variables, and so many stages are forked. */
  ghost predicate Tracks(c: Setting, ws: seq<World>, t: Table, i: nat, previous: Option<Fd>) {
    && Trace(c, ws) && AtHead(Last(ws))
    && Last(ws).parent == t && Last(ws).index == i == |Last(ws).stages| && Last(ws).previous == previous
  }

  lemma TracksStart(c: Setting)
    ensures Tracks(c, [World(c.entry, AtPipe, 0, None, None, None, [])], c.entry, 0, None)
  {
  }

  /** The same iteration, as the parent's descriptors and variables go through it. */
  lemma TracksIteration(c: Setting, ws: seq<World>, t: Table, i: nat, previous: Option<Fd>,
                        readEnd: Option<Fd>, writeEnd: Option<Fd>) returns (ws': seq<World>)
    requires Tracks(c, ws, t, i, previous) && NewPipe(c, Last(ws), readEnd, writeEnd)
    ensures var forked := WithPipe(c, t, i, readEnd, writeEnd);
            && Tracks(c, ws', Drop(Drop(forked, previous), writeEnd), i + 1, readEnd)
            && |Last(ws').stages| == |Last(ws).stages| + 1
            && (forall k :: 0 <= k < |Last(ws).stages| ==> Last(ws').stages[k] == Last(ws).stages[k])
            && Last(ws').stages[i] == Stage(forked, Entering, forked, previous, readEnd, writeEnd)
  {
    ws' := Iterate(c, ws, readEnd, writeEnd);
  }
}
