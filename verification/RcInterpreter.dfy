/** The line-oriented interpreter of `rc.py`: it re-scans its lines for every block it enters. */
module RcInterpreter {
  import opened Text
  import opened RcSyntax
  import opened RcSemantics

  /** How a call ends: with a status, or with the `ValueError` of a malformed construct. */
  datatype Outcome = Status(code: int) | Raised

  datatype Run<S> = Run(world: World<S>, outcome: Outcome)
  {
    /** What the `try` around a block makes of the run. */
    function Contained(): (World<S>, int) {
      match outcome
      case Status(code) => (world, code)
      case Raised => Fault(world)
    }
  }

  // ----------------------------------------------------- specification functions

  function Interpret<S>(h: Host<S>, lines: seq<string>, last: int, w: World<S>): Run<S>
    decreases |lines|, 2, 0
  {
    if lines == [] then Run(w, Status(last))
    else if Strip(lines[0]) == "" then Interpret(h, lines[1..], last, w)
    else if FirstWord(lines[0]) in OPENERS then
      match BlockLength(lines)
      case None => Run(w, Raised)
      case Some(n) =>
        var (w', status) := RunBlock(h, lines[..n], w).Contained();
        Interpret(h, lines[n..], status, w')
    else
      var (w', status) := RunCommand(h, lines[0], w);
      Interpret(h, lines[1..], status, w')
  }

  function RunBlock<S>(h: Host<S>, block: seq<string>, w: World<S>): Run<S>
    requires |block| >= 2
    decreases |block|, 1, 0
  {
    var word := FirstWord(block[0]);
    if word == "if" then RunIf(h, block, w)
    else if word == "for" then RunFor(h, block, w)
    else RunWhile(h, block, w)
  }

  function RunIf<S>(h: Host<S>, block: seq<string>, w: World<S>): Run<S>
    requires |block| >= 2
    decreases |block|, 0, 0
  {
    match SplitBranches(block)
    case None => Run(w, Raised)
    case Some((condition, b)) =>
      match h.test(condition, w.state)
      case Malformed => Run(w, Raised)
      case Holds => Interpret(h, b.thn, 0, w)
      case Fails => if b.els.Some? then Interpret(h, b.els.value, 0, w) else Run(w, Status(0))
  }

  /** The lines between `do` and the closer; None if there is no `do`. */
  function LoopBody(block: seq<string>): (r: Option<seq<string>>)
    requires |block| >= 2
    ensures r.Some? ==> |r.value| + 2 < |block|
  {
    var inner := block[1..|block| - 1];
    if inner == [] || Strip(inner[0]) != "do" then None else Some(inner[1..])
  }

  function RunFor<S>(h: Host<S>, block: seq<string>, w: World<S>): Run<S>
    requires |block| >= 2
    decreases |block|, 0, 0
  {
    match ForHeader(h.words, block[0])
    case None => Run(w, Raised)
    case Some((name, items)) =>
      match LoopBody(block)
      case None => Run(w, Raised)
      case Some(body) => RunItems(h, name, items, body, 0, w)
  }

  function RunItems<S>(h: Host<S>, name: string, items: seq<string>, body: seq<string>, last: int, w: World<S>): Run<S>
    decreases |body|, 3, |items|
  {
    if items == [] then Run(w, Status(last))
    else
      var r := Interpret(h, body, 0, w.(state := h.bind(name, items[0], w.state)));
      match r.outcome
      case Raised => r
      case Status(code) => RunItems(h, name, items[1..], body, code, r.world)
  }

  function RunWhile<S>(h: Host<S>, block: seq<string>, w: World<S>): Run<S>
    requires |block| >= 2
    decreases |block|, 0, 0
  {
    match Condition(block[0], "while")
    case None => Run(w, Raised)
    case Some(condition) =>
      match LoopBody(block)
      case None => Run(w, Raised)
      case Some(body) => RunRounds(h, condition, body, 0, 0, w)
  }

  function RunRounds<S>(h: Host<S>, condition: string, body: seq<string>, guard: nat, last: int, w: World<S>): Run<S>
    requires guard <= WHILE_ITER_LIMIT
    decreases |body|, 3, WHILE_ITER_LIMIT - guard
  {
    match h.test(condition, w.state)
    case Malformed => Run(w, Raised)
    case Fails => Run(w, Status(last))
    case Holds =>
      if guard + 1 > WHILE_ITER_LIMIT then Run(w.Note(LimitReached), Status(1))
      else
        var r := Interpret(h, body, 0, w);
        match r.outcome
        case Raised => r
        case Status(code) => RunRounds(h, condition, body, guard + 1, code, r.world)
  }

  // ------------------------------------------------------------------ the loops

  method InterpretLines<S>(h: Host<S>, lines: seq<string>, start: World<S>) returns (w: World<S>, outcome: Outcome)
    ensures Run(w, outcome) == Interpret(h, lines, 0, start)
    decreases |lines|, 2, 0
  {
    hide FirstWord, Strip, RunBlock, BlockLength;
    w := start;
    var idx, n := 0, |lines|;
    var lastStatus := 0;
    assert lines[0..] == lines;
    while idx < n
      invariant 0 <= idx <= n == |lines|
      invariant Interpret(h, lines, 0, start) == Interpret(h, lines[idx..], lastStatus, w)
    {
      var line := lines[idx];
      assert lines[idx..][1..] == lines[idx + 1..];
      if Strip(line) == "" {
        idx := idx + 1;
        continue;
      }
      if FirstWord(line) in OPENERS {
        var block, end, ok := CollectBlock(lines, idx);
        if !ok {
          return w, Raised;
        }
        assert lines[idx..][..end - idx] == block && lines[idx..][end - idx..] == lines[end..];
        var w', status := RunBlockLines(h, block, w);
        if status == Raised {
          w, lastStatus := w'.Note(Complaint), 1;
        } else {
          w, lastStatus := w', status.code;
        }
        idx := end;
        continue;
      }
      var reply := h.run(line, w.state);
      w := World(reply.state, w.log + [Call(line)]);
      if reply.status.Some? {
        lastStatus := reply.status.value;
      } else {
        w, lastStatus := w.Note(Complaint), 1;
      }
      idx := idx + 1;
    }
    outcome := Status(lastStatus);
  }

  method RunBlockLines<S>(h: Host<S>, block: seq<string>, start: World<S>) returns (w: World<S>, outcome: Outcome)
    requires |block| >= 2
    ensures Run(w, outcome) == RunBlock(h, block, start)
    decreases |block|, 1, 0
  {
    var word := FirstWord(block[0]);
    if word == "if" {
      w, outcome := RunIfBlock(h, block, start);
    } else if word == "for" {
      w, outcome := RunForBlock(h, block, start);
    } else {
      w, outcome := RunWhileBlock(h, block, start);
    }
  }

  method RunIfBlock<S>(h: Host<S>, block: seq<string>, start: World<S>) returns (w: World<S>, outcome: Outcome)
    requires |block| >= 2
    ensures Run(w, outcome) == RunIf(h, block, start)
    decreases |block|, 0, 0
  {
    var condition, b, ok := SplitIfBlock(block);
    if !ok {
      return start, Raised;
    }
    var test := h.test(condition, start.state);
    if test == Malformed {
      return start, Raised;
    }
    if test == Holds {
      w, outcome := InterpretLines(h, b.thn, start);
    } else if b.els.Some? {
      w, outcome := InterpretLines(h, b.els.value, start);
    } else {
      w, outcome := start, Status(0);
    }
  }

  method RunForBlock<S>(h: Host<S>, block: seq<string>, start: World<S>) returns (w: World<S>, outcome: Outcome)
    requires |block| >= 2
    ensures Run(w, outcome) == RunFor(h, block, start)
    decreases |block|, 0, 0
  {
    var header, inner := ForHeader(h.words, block[0]), LoopBody(block);
    if header == None || inner == None {
      return start, Raised;
    }
    var (name, items) := header.value;
    w := start;
    var lastStatus := 0;
    for i := 0 to |items|
      invariant RunFor(h, block, start) == RunItems(h, name, items[i..], inner.value, lastStatus, w)
    {
      assert items[i..][1..] == items[i + 1..];
      w := w.(state := h.bind(name, items[i], w.state));
      var w', status := InterpretLines(h, inner.value, w);
      if status == Raised {
        return w', Raised;
      }
      w, lastStatus := w', status.code;
    }
    outcome := Status(lastStatus);
  }

  method RunWhileBlock<S>(h: Host<S>, block: seq<string>, start: World<S>) returns (w: World<S>, outcome: Outcome)
    requires |block| >= 2
    ensures Run(w, outcome) == RunWhile(h, block, start)
    decreases |block|, 0, 0
  {
    var condition, inner := Condition(block[0], "while"), LoopBody(block);
    if condition == None || inner == None {
      return start, Raised;
    }
    w := start;
    var lastStatus, guard := 0, 0;
    var test := h.test(condition.value, w.state);
    while test == Holds
      invariant 0 <= guard <= WHILE_ITER_LIMIT
      invariant test == h.test(condition.value, w.state)
      invariant RunWhile(h, block, start) == RunRounds(h, condition.value, inner.value, guard, lastStatus, w)
      decreases WHILE_ITER_LIMIT - guard
    {
      guard := guard + 1;
      if guard > WHILE_ITER_LIMIT {
        return w.Note(LimitReached), Status(1);
      }
      var w', status := InterpretLines(h, inner.value, w);
      if status == Raised {
        return w', Raised;
      }
      w, lastStatus := w', status.code;
      test := h.test(condition.value, w.state);
    }
    outcome := if test == Malformed then Raised else Status(lastStatus);
  }
}
