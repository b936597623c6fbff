/** Consequences for whole runs: executor calls, while loops, and when the interpreter raises. */
module RcBounds {
  import opened Text
  import opened RcSyntax
  import opened RcSemantics
  import opened RcInterpreter
  import RcMeaning

  // ------------------------------------------------------------ executor calls

  function Calls(log: seq<Event>): nat {
    if log == [] then 0 else Calls(log[..|log| - 1]) + if log[|log| - 1].Call? then 1 else 0
  }

  function Max(a: nat, b: nat): nat { if a > b then a else b }

  /** Most executor calls a program can make: `for` items and the while limit multiply through nesting. */
  function Cost(words: string -> Option<seq<string>>, p: seq<Stmt>): nat {
    if p == [] then 0 else CostStmt(words, p[0]) + Cost(words, p[1..])
  }

  function CostStmt(words: string -> Option<seq<string>>, s: Stmt): nat {
    match s
    case Command(_) => 1
    case If(_, _, thn, els, _) => Max(Cost(words, thn), if els.Else? then Cost(words, els.body) else 0)
    case For(header, _, body, _) =>
      (match ForHeader(words, header)
       case None => 0
       case Some((_, items)) => |items| * Cost(words, body))
    case While(_, _, body, _) => WHILE_ITER_LIMIT * Cost(words, body)
  }

  lemma CallsNote<S>(w: World<S>, e: Event)
    ensures Calls(w.Note(e).log) == Calls(w.log) + if e.Call? then 1 else 0
  {
    assert (w.log + [e])[..|w.log| + 1 - 1] == w.log;
  }

  lemma CommandCalls<S>(h: Host<S>, line: string, w: World<S>)
    ensures Calls(RunCommand(h, line, w).0.log) == Calls(w.log) + 1
  {
    var reply := h.run(line, w.state);
    CallsNote(w, Call(line));
    CallsNote(World(reply.state, w.log + [Call(line)]), Complaint);
    assert World(reply.state, w.log + [Call(line)]).log == w.Note(Call(line)).log;
  }

  lemma {:induction false} ProgramCalls<S>(h: Host<S>, p: seq<Stmt>, last: int, w: World<S>)
    ensures Calls(Exec(h, p, last, w).0.log) <= Calls(w.log) + Cost(h.words, p)
    decreases p, 0
  {
    if p != [] {
      StmtCalls(h, p[0], w);
      var (w', status) := ExecStmt(h, p[0], w);
      ProgramCalls(h, p[1..], status, w');
    }
  }

  lemma {:induction false} StmtCalls<S>(h: Host<S>, s: Stmt, w: World<S>)
    ensures Calls(ExecStmt(h, s, w).0.log) <= Calls(w.log) + CostStmt(h.words, s)
    decreases s, 0
  {
    hide ForHeader, Condition;
    CallsNote(w, Complaint);
    match s
    case Command(line) =>
      CommandCalls(h, line, w);
    case If(_, _, thn, els, _) =>
      ProgramCalls(h, thn, 0, w);
      if els.Else? {
        ProgramCalls(h, els.body, 0, w);
      }
    case For(header, _, body, _) =>
      if ForHeader(h.words, header).Some? {
        var (name, items) := ForHeader(h.words, header).value;
        ItemsCalls(h, name, items, body, 0, w);
      }
    case While(header, _, body, _) =>
      if Condition(header, "while").Some? {
        RoundsCalls(h, Condition(header, "while").value, body, 0, 0, w);
      }
  }

  lemma {:induction false} ItemsCalls<S>(h: Host<S>, name: string, items: seq<string>, body: seq<Stmt>,
                                         last: int, w: World<S>)
    ensures Calls(ExecItems(h, name, items, body, last, w).0.log) <= Calls(w.log) + |items| * Cost(h.words, body)
    decreases body, 1, |items|
  {
    if items != [] {
      var w1 := w.(state := h.bind(name, items[0], w.state));
      ProgramCalls(h, body, 0, w1);
      var (w', status) := Exec(h, body, 0, w1);
      ItemsCalls(h, name, items[1..], body, status, w');
      OneMore(|items| - 1, Cost(h.words, body));
    }
  }

  lemma OneMore(n: nat, cost: nat)
    ensures (n + 1) * cost == n * cost + cost
  {
  }

  lemma {:induction false} RoundsCalls<S>(h: Host<S>, condition: string, body: seq<Stmt>, rounds: nat,
                                          last: int, w: World<S>)
    requires rounds <= WHILE_ITER_LIMIT
    ensures Calls(ExecWhile(h, condition, body, rounds, last, w).0.log) <=
            Calls(w.log) + (WHILE_ITER_LIMIT - rounds) * Cost(h.words, body)
    decreases body, 1, WHILE_ITER_LIMIT - rounds
  {
    hide Exec, Cost, Calls;
    CallsNote(w, Complaint);
    CallsNote(w, LimitReached);
    if rounds < WHILE_ITER_LIMIT {
      ProgramCalls(h, body, 0, w);
      var (w', status) := Exec(h, body, 0, w);
      RoundsCalls(h, condition, body, rounds + 1, status, w');
      OneMore(WHILE_ITER_LIMIT - rounds - 1, Cost(h.words, body));
    }
  }

  /** The line interpreter makes at most `Cost` executor calls. */
  lemma InterpreterCalls<S>(h: Host<S>, p: seq<Stmt>, w: World<S>)
    requires AllWellFormed(p)
    ensures Calls(Interpret(h, Print(p), 0, w).world.log) <= Calls(w.log) + Cost(h.words, p)
  {
    RcMeaning.MeaningPreserved(h, p, w);
    ProgramCalls(h, p, 0, w);
  }

  // --------------------------------------------- calls on arbitrary lines

  /** The same bound read off arbitrary lines, malformed ones included. */
  function LineCost(words: string -> Option<seq<string>>, lines: seq<string>): nat
    decreases |lines|, 2
  {
    if lines == [] then 0
    else if Strip(lines[0]) == "" then LineCost(words, lines[1..])
    else if FirstWord(lines[0]) in OPENERS then
      match BlockLength(lines)
      case None => 0
      case Some(n) => BlockCost(words, lines[..n]) + LineCost(words, lines[n..])
    else 1 + LineCost(words, lines[1..])
  }

  function Times(n: nat, cost: nat): nat { n * cost }

  function BlockCost(words: string -> Option<seq<string>>, block: seq<string>): nat
    requires |block| >= 2
    decreases |block|, 1
  {
    var word := FirstWord(block[0]);
    if word == "if" then BranchCost(words, block) else Times(LoopCount(words, word, block[0]), BodyCost(words, block))
  }

  function BranchCost(words: string -> Option<seq<string>>, block: seq<string>): nat
    requires |block| >= 2
    decreases |block|, 0
  {
    match SplitBranches(block)
    case None => 0
    case Some((_, b)) => Max(LineCost(words, b.thn), if b.els.Some? then LineCost(words, b.els.value) else 0)
  }

  function BodyCost(words: string -> Option<seq<string>>, block: seq<string>): nat
    requires |block| >= 2
    decreases |block|, 0
  {
    match LoopBody(block)
    case None => 0
    case Some(body) => LineCost(words, body)
  }

  /** How often the body of a loop can run. */
  function LoopCount(words: string -> Option<seq<string>>, word: string, header: string): nat {
    if word != "for" then WHILE_ITER_LIMIT
    else
      match ForHeader(words, header)
      case None => 0
      case Some((_, items)) => |items|
  }

  /** The interpreter makes at most `LineCost` executor calls, whatever lines it is given. */
  lemma {:induction false} LineCalls<S>(h: Host<S>, lines: seq<string>, last: int, w: World<S>)
    ensures Calls(Interpret(h, lines, last, w).world.log) <= Calls(w.log) + LineCost(h.words, lines)
    decreases |lines|, 2, 0
  {
    hide FirstWord, Strip, BlockLength, RunBlock, BlockCost, Calls;
    if lines != [] {
      if Strip(lines[0]) == "" {
        LineCalls(h, lines[1..], last, w);
      } else if FirstWord(lines[0]) in OPENERS {
        if BlockLength(lines).Some? {
          var n := BlockLength(lines).value;
          BlockCalls(h, lines[..n], w);
          var (w', status) := RunBlock(h, lines[..n], w).Contained();
          LineCalls(h, lines[n..], status, w');
        }
      } else {
        CommandCalls(h, lines[0], w);
        var (w', status) := RunCommand(h, lines[0], w);
        LineCalls(h, lines[1..], status, w');
      }
    }
  }

  lemma {:induction false} BlockCalls<S>(h: Host<S>, block: seq<string>, w: World<S>)
    requires |block| >= 2
    ensures Calls(RunBlock(h, block, w).Contained().0.log) <= Calls(w.log) + BlockCost(h.words, block)
    decreases |block|, 1, 0
  {
    hide FirstWord, Strip, SplitBranches, LoopBody, Condition, ForHeader, LineCost, Calls, Interpret;
    CallsNote(RunBlock(h, block, w).world, Complaint);
    var word := FirstWord(block[0]);
    if word == "if" {
      if SplitBranches(block).Some? {
        var b := SplitBranches(block).value.1;
        LineCalls(h, b.thn, 0, w);
        if b.els.Some? {
          LineCalls(h, b.els.value, 0, w);
        }
      }
    } else if LoopBody(block).Some? {
      var body := LoopBody(block).value;
      if word == "for" {
        if ForHeader(h.words, block[0]).Some? {
          var (name, items) := ForHeader(h.words, block[0]).value;
          ItemLineCalls(h, name, items, body, 0, w);
        }
      } else if Condition(block[0], "while").Some? {
        RoundLineCalls(h, Condition(block[0], "while").value, body, 0, 0, w);
      }
    }
  }

  lemma {:induction false} ItemLineCalls<S>(h: Host<S>, name: string, items: seq<string>, body: seq<string>,
                                            last: int, w: World<S>)
    ensures Calls(RunItems(h, name, items, body, last, w).world.log) <= Calls(w.log) + |items| * LineCost(h.words, body)
    decreases |body|, 3, |items|
  {
    hide Interpret, LineCost, Calls;
    if items != [] {
      var w1 := w.(state := h.bind(name, items[0], w.state));
      LineCalls(h, body, 0, w1);
      var r := Interpret(h, body, 0, w1);
      if r.outcome.Status? {
        ItemLineCalls(h, name, items[1..], body, r.outcome.code, r.world);
      }
      OneMore(|items| - 1, LineCost(h.words, body));
    }
  }

  lemma {:induction false} RoundLineCalls<S>(h: Host<S>, condition: string, body: seq<string>, guard: nat,
                                             last: int, w: World<S>)
    requires guard <= WHILE_ITER_LIMIT
    ensures Calls(RunRounds(h, condition, body, guard, last, w).world.log) <=
            Calls(w.log) + (WHILE_ITER_LIMIT - guard) * LineCost(h.words, body)
    decreases |body|, 3, WHILE_ITER_LIMIT - guard
  {
    hide Interpret, LineCost, Calls;
    CallsNote(w, LimitReached);
    if guard < WHILE_ITER_LIMIT {
      LineCalls(h, body, 0, w);
      var r := Interpret(h, body, 0, w);
      if r.outcome.Status? {
        RoundLineCalls(h, condition, body, guard + 1, r.outcome.code, r.world);
      }
      OneMore(WHILE_ITER_LIMIT - guard - 1, LineCost(h.words, body));
    }
  }

  /** On printed programs this bound is no larger than the one of the program. */
  lemma {:induction false} LineCostOfPrinted(words: string -> Option<seq<string>>, p: seq<Stmt>, rest: seq<string>)
    requires AllWellFormed(p)
    ensures LineCost(words, Print(p) + rest) <= Cost(words, p) + LineCost(words, rest)
    decreases p, 1
  {
    hide FirstWord, Strip, LineCost;
    if p == [] {
      assert Print(p) + rest == rest;
    } else {
      assert Print(p) + rest == PrintStmt(p[0]) + (Print(p[1..]) + rest);
      LineCostOfStmt(words, p[0], Print(p[1..]) + rest);
      LineCostOfPrinted(words, p[1..], rest);
    }
  }

  lemma {:induction false} LineCostOfStmt(words: string -> Option<seq<string>>, s: Stmt, rest: seq<string>)
    requires WellFormed(s)
    ensures LineCost(words, PrintStmt(s) + rest) <= CostStmt(words, s) + LineCost(words, rest)
    decreases s, 1
  {
    hide FirstWord, Strip, BlockCost, CostStmt;
    var lines := PrintStmt(s) + rest;
    if s.Command? {
      assert lines[1..] == rest;
      CommandCost(words, s);
    } else {
      RcMeaning.BlockOfPrinted(s, rest);
      assert lines[..|PrintStmt(s)|] == PrintStmt(s) && lines[|PrintStmt(s)|..] == rest;
      RcMeaning.OpenerIsNotBlank(lines[0]);
      BlockCostOfStmt(words, s);
    }
  }

  lemma CommandCost(words: string -> Option<seq<string>>, s: Stmt)
    requires s.Command?
    ensures CostStmt(words, s) == 1
  {
  }

  lemma {:induction false} BlockCostOfStmt(words: string -> Option<seq<string>>, s: Stmt)
    requires WellFormed(s) && !s.Command?
    ensures |PrintStmt(s)| >= 2 && BlockCost(words, PrintStmt(s)) <= CostStmt(words, s)
    decreases s, 0
  {
    hide FirstWord, Strip, Condition, ForHeader, LineCost, Cost, SplitBranches, LoopBody;
    match s
    case Command(_) =>
    case If(header, thenLine, thn, els, fiLine) =>
      RcMeaning.BranchesOfPrinted(s);
      LineCostAlone(words, thn);
      if els.Else? {
        LineCostAlone(words, els.body);
      }
    case For(header, doLine, body, doneLine) =>
      RcMeaning.LoopBodyOfPrinted(header, doLine, body, doneLine);
      LineCostAlone(words, body);
      TimesGrows(LoopCount(words, "for", header), LineCost(words, Print(body)), Cost(words, body));
    case While(header, doLine, body, doneLine) =>
      RcMeaning.LoopBodyOfPrinted(header, doLine, body, doneLine);
      LineCostAlone(words, body);
      TimesGrows(WHILE_ITER_LIMIT, LineCost(words, Print(body)), Cost(words, body));
  }

  lemma {:induction false} LineCostAlone(words: string -> Option<seq<string>>, p: seq<Stmt>)
    requires AllWellFormed(p)
    ensures LineCost(words, Print(p)) <= Cost(words, p)
    decreases p, 2
  {
    LineCostOfPrinted(words, p, []);
    assert Print(p) + [] == Print(p);
  }

  lemma TimesGrows(n: nat, a: nat, b: nat)
    requires a <= b
    ensures n * a <= n * b
  {
  }

  // ---------------------------------------------------------------- while loops

  /** World and status after `n` runs of a loop body. */
  function Rounds<S>(h: Host<S>, body: seq<Stmt>, n: nat, w: World<S>): (World<S>, int) {
    if n == 0 then (w, 0) else Exec(h, body, 0, Rounds(h, body, n - 1, w).0)
  }

  /** The condition holds before each of the first `n` rounds. */
  ghost predicate HoldsFor<S>(h: Host<S>, condition: string, body: seq<Stmt>, n: nat, w: World<S>) {
    forall k :: 0 <= k < n ==> h.test(condition, Rounds(h, body, k, w).0.state) == Holds
  }

  lemma {:induction false} WhileReaches<S>(h: Host<S>, condition: string, body: seq<Stmt>, n: nat, w: World<S>)
    requires n <= WHILE_ITER_LIMIT && HoldsFor(h, condition, body, n, w)
    ensures var (w', status) := Rounds(h, body, n, w);
            ExecWhile(h, condition, body, 0, 0, w) == ExecWhile(h, condition, body, n, status, w')
  {
    if n > 0 {
      WhileReaches(h, condition, body, n - 1, w);
      var w1 := Rounds(h, body, n - 1, w).0;
      assert h.test(condition, w1.state) == Holds;
    }
  }

  /**
   * What a while loop does, for every loop: it runs its body for as long as the condition holds,
   * but never more than the limit; it ends with the last status, with status 1 after a malformed
   * condition, and with status 1 and a report when the condition still holds at the limit.
   */
  lemma WhileMeaning<S>(h: Host<S>, condition: string, body: seq<Stmt>, n: nat, w: World<S>)
    requires n <= 10_000 && HoldsFor(h, condition, body, n, w)
    ensures var (w', status) := Rounds(h, body, n, w);
            var result := ExecWhile(h, condition, body, 0, 0, w);
            match h.test(condition, w'.state)
            case Fails => result == (w', status)
            case Malformed => result == (w'.Note(Complaint), 1)
            case Holds => n == 10_000 ==> result == (w'.Note(LimitReached), 1)
  {
    WhileReaches(h, condition, body, n, w);
  }

  // ------------------------------------------------------ when errors escape

  /** Every block at the outermost level is closed by its own closer. */
  predicate WellBlocked(lines: seq<string>) {
    if lines == [] then true
    else if FirstWord(lines[0]) in OPENERS then
      BlockLength(lines).Some? && WellBlocked(lines[BlockLength(lines).value..])
    else WellBlocked(lines[1..])
  }

  /**
   * The loader's promise never to raise is kept exactly when the outermost blocks are well formed,
   * whatever the executor does: a malformed block is collected outside the `try`.
   */
  lemma {:induction false} RaisesIffMalformed<S>(h: Host<S>, lines: seq<string>, last: int, w: World<S>)
    ensures Interpret(h, lines, last, w).outcome == Raised <==> !WellBlocked(lines)
    decreases |lines|
  {
    hide FirstWord, Strip, RunBlock, BlockLength;
    if lines != [] {
      if Strip(lines[0]) == "" {
        BlankHasNoWord(lines[0]);
        RaisesIffMalformed(h, lines[1..], last, w);
      } else if FirstWord(lines[0]) in OPENERS {
        if BlockLength(lines).Some? {
          var n := BlockLength(lines).value;
          var (w', status) := RunBlock(h, lines[..n], w).Contained();
          RaisesIffMalformed(h, lines[n..], status, w');
        }
      } else {
        var (w', status) := RunCommand(h, lines[0], w);
        RaisesIffMalformed(h, lines[1..], status, w');
      }
    }
  }

  lemma BlankHasNoWord(line: string)
    requires Strip(line) == ""
    ensures FirstWord(line) == ""
  {
  }

  /** An unclosed block makes the interpreter raise. */
  lemma UnclosedBlockRaises<S>(h: Host<S>, w: World<S>)
    ensures Interpret(h, ["if x", "then"], 0, w).outcome == Raised
  {
    assert FirstWord("if x") == "if";
    assert FirstWord("then") == "then";
    assert CloseAt(["then"], 1) == None;
    assert ["if x", "then"][1..] == ["then"];
    RaisesIffMalformed(h, ["if x", "then"], 0, w);
  }

  /** A line that block collection takes for a command. */
  predicate CommandLine(line: string) {
    Strip(line) != "" && FirstWord(line) !in {"if", "for", "while"} && Strip(line) !in {"fi", "done", "else", "else:"}
  }

  /** A well-formed statement, except that `line` may also stand for a command in it. */
  predicate WellFormedWith(line: string, s: Stmt) {
    match s
    case Command(l) => l == line || WellFormed(s)
    case If(header, thenLine, thn, els, fiLine) =>
      && FirstWord(header) == "if" && Strip(thenLine) == "then" && Strip(fiLine) == "fi"
      && AllWellFormedWith(line, thn)
      && (els.Else? ==> Strip(els.line) in {"else", "else:"} && AllWellFormedWith(line, els.body))
    case For(header, doLine, body, doneLine) =>
      && FirstWord(header) == "for" && Strip(doLine) == "do" && Strip(doneLine) == "done" && AllWellFormedWith(line, body)
    case While(header, doLine, body, doneLine) =>
      && FirstWord(header) == "while" && Strip(doLine) == "do" && Strip(doneLine) == "done" && AllWellFormedWith(line, body)
  }

  predicate AllWellFormedWith(line: string, p: seq<Stmt>) {
    p != [] ==> WellFormedWith(line, p[0]) && AllWellFormedWith(line, p[1..])
  }

  /** Branch splitting gives the branches of this `if` back. */
  predicate Recovered(s: Stmt)
    requires s.If?
  {
    SplitBranches(PrintStmt(s)) ==
    match Condition(s.header, "if")
    case None => None
    case Some(c) => Some((c, Branches(Print(s.thn), if s.els.Else? then Some(Print(s.els.body)) else None)))
  }

  /**
   * A command line is transparent to branch splitting in every program exactly if its first word is
   * no closer, although block collection only looks at whole lines.
   */
  lemma TransparentIff(line: string)
    requires CommandLine(line)
    ensures (forall s: Stmt :: s.If? && WellFormedWith(line, s) ==> Recovered(s)) <==> FirstWord(line) !in {"fi", "done"}
  {
    hide FirstWord, Strip, Recovered, WellFormed;
    if FirstWord(line) !in {"fi", "done"} {
      forall s: Stmt | s.If? && WellFormedWith(line, s)
        ensures Recovered(s)
      {
        IsWellFormed(line, s);
        RcMeaning.BranchesOfPrinted(s);
        assert Recovered(s) by { RecoveredIs(s); }
      }
    } else {
      NotRecovered(line);
    }
  }

  lemma RecoveredIs(s: Stmt)
    requires s.If? && WellFormed(s)
    ensures Recovered(s)
  {
    hide WellFormed, SplitBranches;
    RcMeaning.BranchesOfPrinted(s);
  }

  lemma {:induction false} IsWellFormed(line: string, s: Stmt)
    requires CommandLine(line) && FirstWord(line) !in {"fi", "done"} && WellFormedWith(line, s)
    ensures WellFormed(s)
    decreases s, 0
  {
    hide FirstWord, Strip;
    match s
    case Command(_) =>
    case If(_, _, thn, els, _) =>
      AreWellFormed(line, thn);
      if els.Else? {
        AreWellFormed(line, els.body);
      }
    case For(_, _, body, _) => AreWellFormed(line, body);
    case While(_, _, body, _) => AreWellFormed(line, body);
  }

  lemma {:induction false} AreWellFormed(line: string, p: seq<Stmt>)
    requires CommandLine(line) && FirstWord(line) !in {"fi", "done"} && AllWellFormedWith(line, p)
    ensures AllWellFormed(p)
    decreases p, 0
  {
    hide CommandLine, FirstWord;
    if p != [] {
      IsWellFormed(line, p[0]);
      AreWellFormed(line, p[1..]);
    }
  }

  /** The program in which such a line does harm: an `if` with an else-branch inside an `if` without one. */
  function Inner(line: string): Stmt {
    If("if b", "then", [Command(line)], Else("else", [Command("c")]), "fi")
  }

  function Outer(line: string): Stmt {
    If("if b", "then", [Inner(line)], NoElse, "fi")
  }

  lemma OuterWellFormed(line: string)
    requires CommandLine(line)
    ensures WellFormedWith(line, Outer(line))
  {
    Keywords();
    hide FirstWord, Strip, CommandLine;
    var c := Command("c");
    assert WellFormed(c);
    assert [c][1..] == [] && [Command(line)][1..] == [] && [Inner(line)][1..] == [];
    assert AllWellFormedWith(line, []);
    assert WellFormedWith(line, c) && WellFormedWith(line, Command(line));
    assert AllWellFormedWith(line, [c]);
    assert AllWellFormedWith(line, [Command(line)]);
    assert WellFormedWith(line, Inner(line));
  }

  lemma PrintOne(s: Stmt)
    ensures Print([s]) == PrintStmt(s)
  {
    assert [s][1..] == [] && PrintStmt(s) + [] == PrintStmt(s);
  }

  lemma NotRecovered(line: string)
    requires CommandLine(line) && FirstWord(line) in {"fi", "done"}
    ensures exists s: Stmt :: s.If? && WellFormedWith(line, s) && !Recovered(s)
  {
    hide WellFormedWith, Recovered;
    OuterWellFormed(line);
    OuterSplitsWrong(line);
  }

  /** Splitting a block that is given by its header, its inner lines and its closer. */
  lemma SplitOf(header: string, inner: seq<string>, fi: string, condition: string)
    requires Condition(header, "if") == Some(condition) && Strip("then") == "then"
    ensures SplitBranches([header] + (["then"] + inner) + [fi]) ==
            Some((condition, ScanBranches(inner, 0, Branches([], None))))
  {
    hide Strip, ScanBranches, Condition;
    var block := [header] + (["then"] + inner) + [fi];
    assert block[1..|block| - 1] == ["then"] + inner;
    assert (["then"] + inner)[1..] == inner;
  }

  lemma PrintOuter(line: string)
    ensures PrintStmt(Outer(line)) == ["if b"] + (["then"] + PrintStmt(Inner(line))) + ["fi"]
  {
    PrintOne(Inner(line));
  }

  lemma OuterSplitsWrong(line: string)
    requires CommandLine(line) && FirstWord(line) in {"fi", "done"}
    ensures !Recovered(Outer(line))
  {
    hide FirstWord, Strip, ScanBranches, SplitBranches, Condition, Print, PrintStmt, CommandLine, Inner;
    Keywords();
    FirstWordCloserMisleads(line);
    assert "" + ("if" + " " + "" + "b") + "" == "if b";
    ConditionOfHeader("", "if", "", "b", "", "");
    PrintOuter(line);
    SplitOf("if b", PrintStmt(Inner(line)), "fi", "b");
  }

  /** Branch splitting takes the line for a closer, so the `else` of the inner `if` becomes the branch of the outer one. */
  lemma FirstWordCloserMisleads(line: string)
    requires CommandLine(line) && FirstWord(line) in {"fi", "done"}
    ensures ScanBranches(PrintStmt(Inner(line)), 0, Branches([], None)) ==
            Branches(["if b", "then", line], Some(["c", "fi"]))
  {
    Keywords();
    hide FirstWord, Strip, ScanBranches;
    PrintOne(Command(line));
    PrintOne(Command("c"));
    var afterElse := ["c"] + ["fi"];
    var afterThen := [line] + (["else"] + afterElse);
    assert PrintStmt(Inner(line)) == ["if b"] + (["then"] + afterThen);
    var b := Branches(["if b"] + ["then"] + [line], None);
    RcMeaning.ScanStep("if b", ["then"] + afterThen, 0, Branches([], None));
    RcMeaning.ScanStep("then", afterThen, 1, Branches([] + ["if b"], None));
    RcMeaning.ScanStep(line, ["else"] + afterElse, 1, Branches([] + ["if b"] + ["then"], None));
    ElseStep("else", afterElse, b);
    LastTwo("c", "fi", b.(els := Some([])));
    assert [] + ["if b"] == ["if b"] && ["if b"] + ["then"] + [line] == ["if b", "then", line];
    assert [] + ["c"] + ["fi"] == ["c", "fi"];
  }

  /** An `else` at depth zero starts the else-branch. */
  lemma ElseStep(line: string, rest: seq<string>, b: Branches)
    requires FirstWord(line) !in OPENERS + CLOSERS && Strip(line) in ELSES
    ensures ScanBranches([line] + rest, 0, b) == ScanBranches(rest, 0, b.(els := Some([])))
  {
    hide FirstWord, Strip;
    assert ([line] + rest)[1..] == rest;
  }

  lemma LastTwo(x: string, y: string, b: Branches)
    requires NextDepth(x, 0) == NextDepth(y, 0) == 0 && Strip(x) !in ELSES && Strip(y) !in ELSES
    ensures ScanBranches([x] + [y], 0, b) == b.Add([x]).Add([y])
  {
    hide FirstWord, Strip;
    RcMeaning.ScanStep(x, [y] + [], 0, b);
    RcMeaning.ScanStep(y, [], 0, b.Add([x]));
    assert [y] + [] == [y];
  }

  lemma Literal(word: string, rest: string)
    requires word != "" && forall i :: 0 <= i < |word| ==> !IsSpace(word[i])
    requires rest == "" || (IsSpace(rest[0]) && !IsSpace(rest[|rest| - 1]))
    ensures Strip(word + rest) == word + rest && FirstWord(word + rest) == word
  {
    TrimmedIsStripped(word + rest);
    WordOf(word, rest);
  }

  lemma Keywords()
    ensures FirstWord("if b") == "if" && FirstWord("then") == "then" && Strip("then") == "then"
    ensures Strip("if b") == "if b"
    ensures FirstWord("else") == Strip("else") == "else" && FirstWord("c") == Strip("c") == "c"
    ensures FirstWord("fi") == Strip("fi") == "fi"
  {
    hide FirstWord, Strip;
    Literal("if", " b");
    Literal("then", "");
    Literal("else", "");
    Literal("fi", "");
    Literal("c", "");
    assert "if" + " b" == "if b";
    assert "then" + "" == "then" && "else" + "" == "else" && "fi" + "" == "fi" && "c" + "" == "c";
  }
}
