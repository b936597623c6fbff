/** The line interpreter, run on the printed lines of a structured program, has its big-step meaning. */
module RcMeaning {
  import opened Text
  import opened RcSyntax
  import opened RcSemantics
  import opened RcInterpreter

  // ------------------------------------------------- printed text is balanced

  function Later(n: nat, o: Option<nat>): Option<nat> {
    match o case None => None case Some(m) => Some(n + m)
  }

  /** A line that cannot end the block at this depth is stepped over. */
  lemma CloseAtStep(line: string, rest: seq<string>, depth: nat)
    requires depth > 0 && depth + Delta(line) > 0
    ensures CloseAt([line] + rest, depth) == Later(1, CloseAt(rest, depth + Delta(line)))
  {
    hide FirstWord, Strip;
    assert ([line] + rest)[1..] == rest;
  }

  lemma KeywordHasNoSpace(word: string)
    requires word in {"then", "do", "fi", "done", "else", "else:"}
    ensures forall i :: 0 <= i < |word| ==> !IsSpace(word[i])
  {
  }

  /** A keyword line is its own first word. */
  lemma KeywordLine(line: string)
    requires Strip(line) in {"then", "do", "fi", "done", "else", "else:"}
    ensures FirstWord(line) == Strip(line)
    ensures Delta(line) == if Strip(line) in CLOSERS then -1 else 0
  {
    var word := Strip(line);
    KeywordHasNoSpace(word);
    WordOf(word, "");
    assert word + "" == word;
    hide Strip, Word;
  }

  lemma {:induction false} CloseAtStmt(s: Stmt, rest: seq<string>, depth: nat)
    requires WellFormed(s) && depth > 0
    ensures CloseAt(PrintStmt(s) + rest, depth) == Later(|PrintStmt(s)|, CloseAt(rest, depth))
    decreases s, 1
  {
    hide FirstWord, Strip, CloseAt, Print;
    match s
    case Command(line) =>
      CloseAtStep(line, rest, depth);
    case If(header, thenLine, thn, els, fiLine) =>
      var inner := IfInner(s);
      assert PrintStmt(s) + rest == [header] + (inner + ([fiLine] + rest));
      CloseAtStep(header, inner + ([fiLine] + rest), depth);
      CloseAtInner(s, [fiLine] + rest, depth + 1);
      KeywordLine(fiLine);
      CloseAtStep(fiLine, rest, depth + 1);
    case For(header, doLine, body, doneLine) =>
      CloseAtLoop(header, doLine, body, doneLine, rest, depth);
    case While(header, doLine, body, doneLine) =>
      CloseAtLoop(header, doLine, body, doneLine, rest, depth);
  }

  /** The lines of an `if` between its header and its `fi`. */
  function IfInner(s: Stmt): seq<string>
    requires s.If?
  {
    [s.thenLine] + Print(s.thn) + PrintElse(s.els)
  }

  lemma {:induction false} CloseAtInner(s: Stmt, rest: seq<string>, depth: nat)
    requires s.If? && WellFormed(s) && depth > 0
    ensures CloseAt(IfInner(s) + rest, depth) == Later(|IfInner(s)|, CloseAt(rest, depth))
    decreases s, 0
  {
    hide FirstWord, Strip, CloseAt, Print;
    var tail := PrintElse(s.els) + rest;
    assert IfInner(s) + rest == [s.thenLine] + (Print(s.thn) + tail);
    KeywordLine(s.thenLine);
    CloseAtStep(s.thenLine, Print(s.thn) + tail, depth);
    CloseAtProgram(s.thn, tail, depth);
    CloseAtElse(s.els, rest, depth);
  }

  lemma {:induction false} CloseAtElse(els: ElsePart, rest: seq<string>, depth: nat)
    requires els.Else? ==> Strip(els.line) in ELSES && AllWellFormed(els.body)
    requires depth > 0
    ensures CloseAt(PrintElse(els) + rest, depth) == Later(|PrintElse(els)|, CloseAt(rest, depth))
    decreases els, 0
  {
    hide FirstWord, Strip, CloseAt, AllWellFormed, Print;
    if els.Else? {
      KeywordLine(els.line);
      assert PrintElse(els) + rest == [els.line] + (Print(els.body) + rest);
      CloseAtStep(els.line, Print(els.body) + rest, depth);
      CloseAtProgram(els.body, rest, depth);
    } else {
      assert PrintElse(els) + rest == rest;
    }
  }

  lemma {:induction false} CloseAtLoop(header: string, doLine: string, body: seq<Stmt>, doneLine: string,
                                       rest: seq<string>, depth: nat)
    requires FirstWord(header) in OPENERS && Strip(doLine) == "do" && Strip(doneLine) == "done"
    requires AllWellFormed(body) && depth > 0
    ensures CloseAt([header, doLine] + Print(body) + [doneLine] + rest, depth) ==
            Later(|Print(body)| + 3, CloseAt(rest, depth))
    decreases body, 1
  {
    hide FirstWord, Strip, CloseAt, WellFormed, AllWellFormed, Print;
    assert [header, doLine] + Print(body) + [doneLine] + rest ==
           [header] + ([doLine] + (Print(body) + ([doneLine] + rest)));
    KeywordLine(doLine);
    KeywordLine(doneLine);
    CloseAtStep(header, [doLine] + (Print(body) + ([doneLine] + rest)), depth);
    CloseAtStep(doLine, Print(body) + ([doneLine] + rest), depth + 1);
    CloseAtProgram(body, [doneLine] + rest, depth + 1);
    CloseAtStep(doneLine, rest, depth + 1);
  }

  lemma {:induction false} CloseAtProgram(p: seq<Stmt>, rest: seq<string>, depth: nat)
    requires AllWellFormed(p) && depth > 0
    ensures CloseAt(Print(p) + rest, depth) == Later(|Print(p)|, CloseAt(rest, depth))
    decreases p, 0
  {
    hide FirstWord, Strip, CloseAt;
    if p == [] {
      assert Print(p) + rest == rest;
    } else {
      assert Print(p) + rest == PrintStmt(p[0]) + (Print(p[1..]) + rest);
      CloseAtStmt(p[0], Print(p[1..]) + rest, depth);
      CloseAtProgram(p[1..], rest, depth);
    }
  }

  /** Collecting inverts printing: the block of a printed statement is exactly its own lines. */
  lemma BlockOfPrinted(s: Stmt, rest: seq<string>)
    requires WellFormed(s) && !s.Command?
    ensures Opens((PrintStmt(s) + rest)[0])
    ensures BlockLength(PrintStmt(s) + rest) == Some(|PrintStmt(s)|)
  {
    hide FirstWord, Strip, CloseAt, BlockLength, Print, PrintElse;
    match s
    case Command(_) =>
    case If(header, thenLine, thn, els, fiLine) => IfBlock(s, rest);
    case For(header, doLine, body, doneLine) => LoopBlock(header, doLine, body, doneLine, rest);
    case While(header, doLine, body, doneLine) => LoopBlock(header, doLine, body, doneLine, rest);
  }

  lemma IfBlock(s: Stmt, rest: seq<string>)
    requires s.If? && WellFormed(s)
    ensures BlockLength(PrintStmt(s) + rest) == Some(|PrintStmt(s)|)
  {
    hide FirstWord, Strip, CloseAt, Print, PrintElse, BlockLength;
    var lines := [s.header] + (IfInner(s) + ([s.fiLine] + rest));
    assert PrintStmt(s) == [s.header] + IfInner(s) + [s.fiLine];
    assert PrintStmt(s) + rest == lines;
    CloseAtInner(s, [s.fiLine] + rest, 1);
    LastLineCloses(s.fiLine, rest);
    BlockLengthIs(s.header, IfInner(s) + ([s.fiLine] + rest), |IfInner(s)| + 1);
  }

  lemma BlockLengthIs(header: string, rest: seq<string>, n: nat)
    requires CloseAt(rest, 1) == Some(n) && Strip(rest[n - 1]) == Closer(FirstWord(header))
    ensures BlockLength([header] + rest) == Some(n + 1)
  {
    hide FirstWord, Strip, CloseAt;
    assert ([header] + rest)[1..] == rest;
  }

  lemma LastLineCloses(line: string, rest: seq<string>)
    requires Strip(line) in CLOSERS
    ensures CloseAt([line] + rest, 1) == Some(1)
  {
    hide FirstWord, Strip;
    KeywordLine(line);
  }

  lemma LoopBlock(header: string, doLine: string, body: seq<Stmt>, doneLine: string, rest: seq<string>)
    requires FirstWord(header) in {"for", "while"} && Strip(doLine) == "do" && Strip(doneLine) == "done"
    requires AllWellFormed(body)
    ensures BlockLength([header, doLine] + Print(body) + [doneLine] + rest) == Some(|Print(body)| + 3)
  {
    hide FirstWord, Strip, Print;
    var lines := [header, doLine] + Print(body) + [doneLine] + rest;
    assert lines[1..] == [doLine] + (Print(body) + ([doneLine] + rest));
    KeywordLine(doLine);
    CloseAtStep(doLine, Print(body) + ([doneLine] + rest), 1);
    CloseAtProgram(body, [doneLine] + rest, 1);
    LastLineCloses(doneLine, rest);
  }

  // ----------------------------------------------- branches are recovered

  lemma ScanStep(line: string, rest: seq<string>, depth: nat, b: Branches)
    requires !(NextDepth(line, depth) == 0 && Strip(line) in ELSES)
    ensures ScanBranches([line] + rest, depth, b) == ScanBranches(rest, NextDepth(line, depth), b.Add([line]))
  {
    hide FirstWord, Strip;
    assert ([line] + rest)[1..] == rest;
  }

  lemma AddAdd(b: Branches, x: seq<string>, y: seq<string>)
    ensures b.Add(x).Add(y) == b.Add(x + y)
  {
    assert b.thn + x + y == b.thn + (x + y);
    if b.els.Some? {
      assert b.els.value + x + y == b.els.value + (x + y);
    }
  }

  /** At any depth a printed statement is appended whole: an inner `else` stays inside. */
  lemma {:induction false} ScanStmt(s: Stmt, rest: seq<string>, depth: nat, b: Branches)
    requires WellFormed(s)
    ensures ScanBranches(PrintStmt(s) + rest, depth, b) == ScanBranches(rest, depth, b.Add(PrintStmt(s)))
    decreases s, 1
  {
    hide FirstWord, Strip;
    match s
    case Command(line) =>
      ScanStep(line, rest, depth, b);
    case If(header, thenLine, thn, els, fiLine) =>
      var inner := IfInner(s);
      assert PrintStmt(s) + rest == [header] + (inner + ([fiLine] + rest));
      ScanStep(header, inner + ([fiLine] + rest), depth, b);
      ScanInner(s, [fiLine] + rest, depth + 1, b.Add([header]));
      AddAdd(b, [header], inner);
      KeywordLine(fiLine);
      ScanStep(fiLine, rest, depth + 1, b.Add([header] + inner));
      AddAdd(b, [header] + inner, [fiLine]);
      assert PrintStmt(s) == [header] + inner + [fiLine];
    case For(header, doLine, body, doneLine) =>
      ScanLoop(header, doLine, body, doneLine, rest, depth, b);
    case While(header, doLine, body, doneLine) =>
      ScanLoop(header, doLine, body, doneLine, rest, depth, b);
  }

  lemma {:induction false} ScanInner(s: Stmt, rest: seq<string>, depth: nat, b: Branches)
    requires s.If? && WellFormed(s) && depth > 0
    ensures ScanBranches(IfInner(s) + rest, depth, b) == ScanBranches(rest, depth, b.Add(IfInner(s)))
    decreases s, 0
  {
    hide FirstWord, Strip;
    var tail := PrintElse(s.els) + rest;
    assert IfInner(s) + rest == [s.thenLine] + (Print(s.thn) + tail);
    KeywordLine(s.thenLine);
    ScanStep(s.thenLine, Print(s.thn) + tail, depth, b);
    ScanProgram(s.thn, tail, depth, b.Add([s.thenLine]));
    AddAdd(b, [s.thenLine], Print(s.thn));
    ScanElse(s.els, rest, depth, b.Add([s.thenLine] + Print(s.thn)));
    AddAdd(b, [s.thenLine] + Print(s.thn), PrintElse(s.els));
  }

  lemma {:induction false} ScanElse(els: ElsePart, rest: seq<string>, depth: nat, b: Branches)
    requires els.Else? ==> Strip(els.line) in ELSES && AllWellFormed(els.body)
    requires depth > 0
    ensures ScanBranches(PrintElse(els) + rest, depth, b) == ScanBranches(rest, depth, b.Add(PrintElse(els)))
    decreases els, 0
  {
    hide FirstWord, Strip;
    if els.Else? {
      KeywordLine(els.line);
      assert PrintElse(els) + rest == [els.line] + (Print(els.body) + rest);
      ScanStep(els.line, Print(els.body) + rest, depth, b);
      ScanProgram(els.body, rest, depth, b.Add([els.line]));
      AddAdd(b, [els.line], Print(els.body));
    } else {
      assert PrintElse(els) + rest == rest;
      AddNothing(b);
    }
  }

  lemma AddNothing(b: Branches)
    ensures b.Add([]) == b
  {
    assert b.thn + [] == b.thn;
    if b.els.Some? {
      assert b.els.value + [] == b.els.value;
    }
  }

  lemma {:induction false} ScanLoop(header: string, doLine: string, body: seq<Stmt>, doneLine: string,
                                    rest: seq<string>, depth: nat, b: Branches)
    requires FirstWord(header) in OPENERS && Strip(doLine) == "do" && Strip(doneLine) == "done"
    requires AllWellFormed(body)
    ensures var lines := [header, doLine] + Print(body) + [doneLine];
            ScanBranches(lines + rest, depth, b) == ScanBranches(rest, depth, b.Add(lines))
    decreases body, 1
  {
    hide FirstWord, Strip;
    var front := [header] + [doLine];
    assert [header, doLine] + Print(body) + [doneLine] + rest ==
           [header] + ([doLine] + (Print(body) + ([doneLine] + rest)));
    KeywordLine(doLine);
    KeywordLine(doneLine);
    ScanStep(header, [doLine] + (Print(body) + ([doneLine] + rest)), depth, b);
    ScanStep(doLine, Print(body) + ([doneLine] + rest), depth + 1, b.Add([header]));
    AddAdd(b, [header], [doLine]);
    ScanProgram(body, [doneLine] + rest, depth + 1, b.Add(front));
    AddAdd(b, front, Print(body));
    ScanStep(doneLine, rest, depth + 1, b.Add(front + Print(body)));
    AddAdd(b, front + Print(body), [doneLine]);
    assert [header, doLine] + Print(body) + [doneLine] == front + Print(body) + [doneLine];
  }

  lemma {:induction false} ScanProgram(p: seq<Stmt>, rest: seq<string>, depth: nat, b: Branches)
    requires AllWellFormed(p)
    ensures ScanBranches(Print(p) + rest, depth, b) == ScanBranches(rest, depth, b.Add(Print(p)))
    decreases p, 0
  {
    hide FirstWord, Strip;
    if p == [] {
      assert Print(p) + rest == rest;
      AddNothing(b);
    } else {
      assert Print(p) + rest == PrintStmt(p[0]) + (Print(p[1..]) + rest);
      ScanStmt(p[0], Print(p[1..]) + rest, depth, b);
      ScanProgram(p[1..], rest, depth, b.Add(PrintStmt(p[0])));
      AddAdd(b, PrintStmt(p[0]), Print(p[1..]));
    }
  }

  /** Splitting inverts printing: exactly the then- and else-lines of this `if` come back. */
  lemma BranchesOfPrinted(s: Stmt)
    requires s.If? && WellFormed(s)
    ensures SplitBranches(PrintStmt(s)) ==
            match Condition(s.header, "if")
            case None => None
            case Some(c) => Some((c, Branches(Print(s.thn), if s.els.Else? then Some(Print(s.els.body)) else None)))
  {
    hide FirstWord, Strip, Condition;
    var block := PrintStmt(s);
    var inner := block[1..|block| - 1][1..];
    var b := Branches([], None);
    assert inner == Print(s.thn) + PrintElse(s.els);
    ScanProgram(s.thn, PrintElse(s.els), 0, b);
    assert b.Add(Print(s.thn)) == Branches(Print(s.thn), None);
    if s.els.Else? {
      KeywordLine(s.els.line);
      assert PrintElse(s.els)[1..] == Print(s.els.body) + [];
      var b' := Branches(Print(s.thn), Some([]));
      ScanProgram(s.els.body, [], 0, b');
      assert [] + Print(s.els.body) == Print(s.els.body);
      assert b'.Add(Print(s.els.body)) == Branches(Print(s.thn), Some(Print(s.els.body)));
    }
  }

  // -------------------------------------------------- meaning preservation

  /** The run that ended in this world with this status. */
  function Ended<S>(r: (World<S>, int)): Run<S> {
    Run(r.0, Status(r.1))
  }

  lemma {:induction false} InterpretProgram<S>(h: Host<S>, p: seq<Stmt>, rest: seq<string>, last: int, w: World<S>)
    requires AllWellFormed(p)
    ensures var (w', status) := Exec(h, p, last, w);
            Interpret(h, Print(p) + rest, last, w) == Interpret(h, rest, status, w')
    decreases p, 0
  {
    hide FirstWord, Strip;
    if p == [] {
      assert Print(p) + rest == rest;
    } else {
      assert Print(p) + rest == PrintStmt(p[0]) + (Print(p[1..]) + rest);
      var (w', status) := ExecStmt(h, p[0], w);
      InterpretStmt(h, p[0], Print(p[1..]) + rest, last, w);
      InterpretProgram(h, p[1..], rest, status, w');
    }
  }

  lemma {:induction false} InterpretStmt<S>(h: Host<S>, s: Stmt, rest: seq<string>, last: int, w: World<S>)
    requires WellFormed(s)
    ensures var (w', status) := ExecStmt(h, s, w);
            Interpret(h, PrintStmt(s) + rest, last, w) == Interpret(h, rest, status, w')
    decreases s, 1
  {
    hide FirstWord, Strip, ExecStmt, RunBlock;
    var lines := PrintStmt(s) + rest;
    if s.Command? {
      assert lines[1..] == rest;
      assert ExecStmt(h, s, w) == RunCommand(h, s.line, w) by { CommandMeaning(h, s, w); }
    } else {
      BlockOfPrinted(s, rest);
      assert lines[..|PrintStmt(s)|] == PrintStmt(s) && lines[|PrintStmt(s)|..] == rest;
      OpenerIsNotBlank(lines[0]);
      BlockMeaning(h, s, w);
    }
  }

  lemma OpenerIsNotBlank(line: string)
    requires FirstWord(line) in OPENERS
    ensures Strip(line) != ""
  {
  }

  lemma CommandMeaning<S>(h: Host<S>, s: Stmt, w: World<S>)
    requires s.Command?
    ensures ExecStmt(h, s, w) == RunCommand(h, s.line, w)
  {
  }

  lemma {:induction false} BlockMeaning<S>(h: Host<S>, s: Stmt, w: World<S>)
    requires WellFormed(s) && !s.Command?
    ensures RunBlock(h, PrintStmt(s), w).Contained() == ExecStmt(h, s, w)
    decreases s, 0
  {
    hide FirstWord, Strip, Condition, ForHeader;
    match s
    case Command(_) =>
    case If(header, thenLine, thn, els, fiLine) =>
      BranchesOfPrinted(s);
      InterpretAlone(h, thn, w);
      if els.Else? {
        InterpretAlone(h, els.body, w);
      }
    case For(header, doLine, body, doneLine) =>
      LoopBodyOfPrinted(header, doLine, body, doneLine);
      match ForHeader(h.words, header) {
        case None =>
        case Some((name, items)) => ItemsMeaning(h, name, items, body, 0, w);
      }
    case While(header, doLine, body, doneLine) =>
      LoopBodyOfPrinted(header, doLine, body, doneLine);
      match Condition(header, "while") {
        case None =>
        case Some(condition) => RoundsMeaning(h, condition, body, 0, 0, w);
      }
  }

  lemma {:induction false} InterpretAlone<S>(h: Host<S>, p: seq<Stmt>, w: World<S>)
    requires AllWellFormed(p)
    ensures Interpret(h, Print(p), 0, w) == Ended(Exec(h, p, 0, w))
    decreases p, 1
  {
    InterpretProgram(h, p, [], 0, w);
    assert Print(p) + [] == Print(p);
  }

  lemma LoopBodyOfPrinted(header: string, doLine: string, body: seq<Stmt>, doneLine: string)
    requires Strip(doLine) == "do"
    ensures LoopBody([header, doLine] + Print(body) + [doneLine]) == Some(Print(body))
  {
    hide Strip;
    var block := [header, doLine] + Print(body) + [doneLine];
    assert block[1..|block| - 1][1..] == Print(body);
  }

  lemma {:induction false} ItemsMeaning<S>(h: Host<S>, name: string, items: seq<string>, body: seq<Stmt>,
                                           last: int, w: World<S>)
    requires AllWellFormed(body)
    ensures RunItems(h, name, items, Print(body), last, w) == Ended(ExecItems(h, name, items, body, last, w))
    decreases body, 2, |items|
  {
    hide Interpret;
    if items != [] {
      var w1 := w.(state := h.bind(name, items[0], w.state));
      InterpretAlone(h, body, w1);
      var (w', status) := Exec(h, body, 0, w1);
      ItemsMeaning(h, name, items[1..], body, status, w');
    }
  }

  lemma {:induction false} RoundsMeaning<S>(h: Host<S>, condition: string, body: seq<Stmt>, rounds: nat,
                                            last: int, w: World<S>)
    requires AllWellFormed(body) && rounds <= WHILE_ITER_LIMIT
    ensures RunRounds(h, condition, Print(body), rounds, last, w).Contained() ==
            ExecWhile(h, condition, body, rounds, last, w)
    decreases body, 2, WHILE_ITER_LIMIT - rounds
  {
    hide Interpret;
    if h.test(condition, w.state) == Holds && rounds < WHILE_ITER_LIMIT {
      InterpretAlone(h, body, w);
      var (w', status) := Exec(h, body, 0, w);
      RoundsMeaning(h, condition, body, rounds + 1, status, w');
    }
  }

  /**
   * Meaning preservation. On the printed lines of any structured program the line interpreter
   * ends in the state, with the executor calls, the reports and the status of the big-step
   * semantics, and it never raises.
   */
  lemma MeaningPreserved<S>(h: Host<S>, p: seq<Stmt>, w: World<S>)
    requires AllWellFormed(p)
    ensures Interpret(h, Print(p), 0, w) == Ended(Exec(h, p, 0, w))
  {
    InterpretAlone(h, p, w);
  }
}
