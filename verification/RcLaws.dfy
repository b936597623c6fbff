/**
 * What the interpreter does with each construct, told by the texts of the lines: which lines open,
 * separate and close a block, and what a command, an `if` and a `for` leave behind.
 */
module RcLaws {
  import opened Text
  import opened RcSyntax
  import opened RcSemantics
  import opened RcInterpreter
  import RcMeaning
  import RcBounds

  // ----------------------------------------------------------- separating lines

  /** A line that no part of the interpreter takes for the start or the end of a block. */
  predicate Inside(line: string) {
    FirstWord(line) !in {"if", "for", "while", "fi", "done"}
  }

  lemma AddToThen(x: seq<string>, y: seq<string>)
    ensures Branches(x, None).Add(y) == Branches(x + y, None)
    ensures Branches(x, Some([])).Add(y) == Branches(x, Some(y))
  {
    assert [] + y == y;
  }

  lemma ScanOverLine(thn: seq<Stmt>, line: string, els: seq<Stmt>)
    requires AllWellFormed(thn) && AllWellFormed(els) && Inside(line)
    ensures ScanBranches(Print(thn) + ([line] + Print(els)), 0, Branches([], None)) ==
            if Strip(line) in {"else", "else:"} then Branches(Print(thn), Some(Print(els)))
            else Branches(Print(thn) + [line] + Print(els), None)
  {
    hide FirstWord, Strip, Print;
    RcMeaning.ScanProgram(thn, [line] + Print(els), 0, Branches([], None));
    AddToThen([], Print(thn));
    assert [] + Print(thn) == Print(thn);
    var b := Branches(Print(thn), None);
    assert Print(els) + [] == Print(els) && ([line] + Print(els))[1..] == Print(els);
    if Strip(line) in {"else", "else:"} {
      RcMeaning.ScanProgram(els, [], 0, b.(els := Some([])));
      AddToThen(Print(thn), Print(els));
    } else {
      RcMeaning.ScanStep(line, Print(els), 0, b);
      AddToThen(Print(thn), [line]);
      RcMeaning.ScanProgram(els, [], 0, Branches(Print(thn) + [line], None));
      AddToThen(Print(thn) + [line], Print(els));
    }
  }

  /**
   * Exactly the lines `else` and `else:` separate the branches of an `if`, and exactly a line `then`
   * starts them. Any other line that neither opens nor closes a block stays in the then-branch.
   */
  lemma SeparatorIff(header: string, thenLine: string, thn: seq<Stmt>, line: string, els: seq<Stmt>, fiLine: string)
    requires AllWellFormed(thn) && AllWellFormed(els) && Inside(line) && Condition(header, "if").Some?
    ensures var block := [header, thenLine] + (Print(thn) + ([line] + Print(els))) + [fiLine];
            var condition := Condition(header, "if").value;
            && (SplitBranches(block).Some? <==> Strip(thenLine) == "then")
            && (SplitBranches(block) == Some((condition, Branches(Print(thn), Some(Print(els)))))
                <==> Strip(thenLine) == "then" && (Strip(line) == "else" || Strip(line) == "else:"))
            && (SplitBranches(block) == Some((condition, Branches(Print(thn) + [line] + Print(els), None)))
                <==> Strip(thenLine) == "then" && Strip(line) != "else" && Strip(line) != "else:")
  {
    hide FirstWord, Strip, Print, ScanBranches, Condition, Inside;
    var inner := Print(thn) + ([line] + Print(els));
    var block := [header, thenLine] + inner + [fiLine];
    assert block[1..|block| - 1] == [thenLine] + inner && ([thenLine] + inner)[1..] == inner;
    ScanOverLine(thn, line, els);
  }

  // -------------------------------------------------------- opening and closing

  /** A line by itself makes the interpreter raise exactly if its first word opens a block. */
  lemma LoneOpenerIff<S>(h: Host<S>, line: string, last: int, w: World<S>)
    requires Strip(line) != ""
    ensures Interpret(h, [line], last, w).outcome == Raised <==>
            FirstWord(line) == "if" || FirstWord(line) == "for" || FirstWord(line) == "while"
  {
    hide FirstWord, Strip, RunBlock;
    assert [line][1..] == [];
  }

  /**
   * A program between a header and a line that opens nothing is collected as one block exactly if
   * that line is `fi` after `if`, or `done` after `for` and `while`.
   */
  lemma CloserIff(header: string, body: seq<Stmt>, line: string)
    requires FirstWord(header) in {"if", "for", "while"} && AllWellFormed(body)
    requires FirstWord(line) !in {"if", "for", "while"}
    ensures var block := [header] + (Print(body) + [line]);
            BlockLength(block) == Some(|block|) <==>
            if FirstWord(header) == "if" then Strip(line) == "fi" else Strip(line) == "done"
  {
    hide FirstWord, Strip, Print;
    var block := [header] + (Print(body) + [line]);
    assert block[1..] == Print(body) + [line] && [line][1..] == [];
    RcMeaning.CloseAtProgram(body, [line], 1);
    assert CloseAt([line], 1) == if Strip(line) in {"fi", "done"} then Some(1) else None;
  }

  /** The body of a loop starts after a line `do` and nothing else. */
  lemma DoIff(header: string, doLine: string, body: seq<string>, doneLine: string)
    ensures LoopBody([header, doLine] + body + [doneLine]) == if Strip(doLine) == "do" then Some(body) else None
  {
    hide Strip;
    var block := [header, doLine] + body + [doneLine];
    assert block[1..|block| - 1] == [doLine] + body && ([doLine] + body)[1..] == body;
  }

  // ------------------------------------------------------------------- meanings

  /** Blank lines leave everything as it is. */
  lemma BlankMeaning<S>(h: Host<S>, line: string, rest: seq<string>, last: int, w: World<S>)
    requires Strip(line) == ""
    ensures Interpret(h, [line] + rest, last, w) == Interpret(h, rest, last, w)
  {
    hide FirstWord, Strip;
    assert ([line] + rest)[1..] == rest;
  }

  /**
   * A line that opens no block goes to the executor once, as it stands, and the rest runs in the
   * state that leaves; its status is the executor's, or 1 with a report if the executor raises.
   */
  lemma CommandMeaning<S>(h: Host<S>, line: string, rest: seq<string>, last: int, w: World<S>)
    requires Strip(line) != "" && FirstWord(line) !in {"if", "for", "while"}
    ensures var reply := h.run(line, w.state);
            Interpret(h, [line] + rest, last, w) ==
            match reply.status
            case Some(status) => Interpret(h, rest, status, World(reply.state, w.log + [Call(line)]))
            case None => Interpret(h, rest, 1, World(reply.state, w.log + [Call(line), Complaint]))
  {
    hide FirstWord, Strip, RunBlock;
    assert ([line] + rest)[1..] == rest;
    assert w.log + [Call(line)] + [Complaint] == w.log + [Call(line), Complaint];
  }

  /** Without lines the status is the one passed on, at the start 0. */
  lemma EndMeaning<S>(h: Host<S>, last: int, w: World<S>)
    ensures Interpret(h, [], last, w) == Run(w, Status(last))
  {
  }

  /**
   * An `if` with both branches runs the lines up to `else` if its condition holds and those after
   * it if not; with a malformed condition it runs neither, and reports and counts as status 1.
   */
  lemma IfElseMeaning<S>(h: Host<S>, header: string, condition: string, thenLine: string, thn: seq<Stmt>, line: string,
                         els: seq<Stmt>, fiLine: string, last: int, w: World<S>)
    requires FirstWord(header) == "if" && Condition(header, "if") == Some(condition)
    requires Strip(thenLine) == "then" && Strip(line) in {"else", "else:"} && Strip(fiLine) == "fi"
    requires AllWellFormed(thn) && AllWellFormed(els)
    ensures Interpret(h, [header, thenLine] + Print(thn) + ([line] + Print(els)) + [fiLine], last, w) ==
            match h.test(condition, w.state)
            case Holds => Interpret(h, Print(thn), 0, w)
            case Fails => Interpret(h, Print(els), 0, w)
            case Malformed => Run(World(w.state, w.log + [Complaint]), Status(1))
  {
    hide FirstWord, Strip, Print, Condition, Interpret, Exec;
    var s := If(header, thenLine, thn, Else(line, els), fiLine);
    RcMeaning.InterpretAlone(h, thn, w);
    RcMeaning.InterpretAlone(h, els, w);
    OneStatement(h, s, last, w);
  }

  /** An `if` without `else` runs its lines or does nothing, with status 0. */
  lemma IfMeaning<S>(h: Host<S>, header: string, condition: string, thenLine: string, thn: seq<Stmt>, fiLine: string,
                     last: int, w: World<S>)
    requires FirstWord(header) == "if" && Condition(header, "if") == Some(condition)
    requires Strip(thenLine) == "then" && Strip(fiLine) == "fi" && AllWellFormed(thn)
    ensures Interpret(h, [header, thenLine] + Print(thn) + [] + [fiLine], last, w) ==
            match h.test(condition, w.state)
            case Holds => Interpret(h, Print(thn), 0, w)
            case Fails => Run(w, Status(0))
            case Malformed => Run(World(w.state, w.log + [Complaint]), Status(1))
  {
    hide FirstWord, Strip, Print, Condition, Interpret, Exec;
    RcMeaning.InterpretAlone(h, thn, w);
    OneStatement(h, If(header, thenLine, thn, NoElse, fiLine), last, w);
  }

  lemma OneStatement<S>(h: Host<S>, s: Stmt, last: int, w: World<S>)
    requires WellFormed(s)
    ensures Interpret(h, PrintStmt(s), last, w) == RcMeaning.Ended(ExecStmt(h, s, w))
  {
    hide WellFormed, PrintStmt, ExecStmt, Interpret;
    var (w', status) := ExecStmt(h, s, w);
    RcMeaning.InterpretStmt(h, s, [], last, w);
    EndMeaning(h, status, w');
    assert PrintStmt(s) + [] == PrintStmt(s);
  }

  /** The world and status after the body of a `for` has run for the first `n` items. */
  function AfterItems<S>(h: Host<S>, name: string, items: seq<string>, body: seq<Stmt>, n: nat, w: World<S>): Run<S>
    requires n <= |items|
  {
    if n == 0 then Run(w, Status(0))
    else
      var before := AfterItems(h, name, items, body, n - 1, w).world;
      Interpret(h, Print(body), 0, World(h.bind(name, items[n - 1], before.state), before.log))
  }

  lemma {:induction false} ItemsFrom<S>(h: Host<S>, name: string, items: seq<string>, body: seq<Stmt>, n: nat, w: World<S>)
    requires AllWellFormed(body) && n <= |items|
    ensures var r := AfterItems(h, name, items, body, n, w);
            && r.outcome.Status?
            && ExecItems(h, name, items, body, 0, w) == ExecItems(h, name, items[n..], body, r.outcome.code, r.world)
  {
    hide Interpret, Exec;
    if n == 0 {
      assert items[0..] == items;
    } else {
      ItemsFrom(h, name, items, body, n - 1, w);
      var before := AfterItems(h, name, items, body, n - 1, w).world;
      assert items[n - 1..][0] == items[n - 1] && items[n - 1..][1..] == items[n..];
      RcMeaning.InterpretAlone(h, body, World(h.bind(name, items[n - 1], before.state), before.log));
    }
  }

  /**
   * A `for` binds its variable to the items from the first to the last, each time runs all of its
   * body, and ends with the status of the last round, or 0 without items.
   */
  lemma ForMeaning<S>(h: Host<S>, header: string, name: string, items: seq<string>, doLine: string, body: seq<Stmt>,
                      doneLine: string, last: int, w: World<S>)
    requires FirstWord(header) == "for" && ForHeader(h.words, header) == Some((name, items))
    requires Strip(doLine) == "do" && Strip(doneLine) == "done" && AllWellFormed(body)
    ensures Interpret(h, [header, doLine] + Print(body) + [doneLine], last, w) == AfterItems(h, name, items, body, |items|, w)
  {
    hide FirstWord, Strip, Print, ForHeader, Interpret, AfterItems;
    OneStatement(h, For(header, doLine, body, doneLine), last, w);
    ItemsFrom(h, name, items, body, |items|, w);
    assert items[|items|..] == [];
  }

  /**
   * A `while` runs its body for as long as its condition holds, at most ten thousand times; it ends
   * with the status of the last round, with status 1 and a report if the condition is malformed, and
   * with status 1 and a warning if it still holds after the last round.
   */
  lemma WhileLoopMeaning<S>(h: Host<S>, header: string, condition: string, doLine: string, body: seq<Stmt>, doneLine: string,
                            n: nat, last: int, w: World<S>)
    requires FirstWord(header) == "while" && Condition(header, "while") == Some(condition)
    requires Strip(doLine) == "do" && Strip(doneLine) == "done" && AllWellFormed(body)
    requires n <= 10_000 && RcBounds.HoldsFor(h, condition, body, n, w)
    ensures var (w', status) := RcBounds.Rounds(h, body, n, w);
            var r := Interpret(h, [header, doLine] + Print(body) + [doneLine], last, w);
            match h.test(condition, w'.state)
            case Fails => r == Run(w', Status(status))
            case Malformed => r == Run(World(w'.state, w'.log + [Complaint]), Status(1))
            case Holds => n == 10_000 ==> r == Run(World(w'.state, w'.log + [LimitReached]), Status(1))
  {
    hide FirstWord, Strip, Print, Condition, Interpret, RcBounds.HoldsFor, RcBounds.Rounds, ExecWhile;
    OneStatement(h, While(header, doLine, body, doneLine), last, w);
    RcBounds.WhileMeaning(h, condition, body, n, w);
  }

  /** A loop or an `if` whose header cannot be read runs nothing: a report and status 1. */
  lemma MalformedHeaderMeaning<S>(h: Host<S>, s: Stmt, last: int, w: World<S>)
    requires WellFormed(s)
    requires match s {
               case Command(_) => false
               case If(header, _, _, _, _) => Condition(header, "if") == None
               case For(header, _, _, _) => ForHeader(h.words, header) == None
               case While(header, _, _, _) => Condition(header, "while") == None
             }
    ensures Interpret(h, PrintStmt(s), last, w) == Run(World(w.state, w.log + [Complaint]), Status(1))
  {
    hide WellFormed, PrintStmt, Condition, ForHeader, Interpret;
    OneStatement(h, s, last, w);
  }

  /** Without a line `then` after the header of an `if`, or `do` after that of a loop, the block runs nothing. */
  lemma MissingKeywordMeaning<S>(h: Host<S>, header: string, body: seq<Stmt>, closer: string, last: int, w: World<S>)
    requires FirstWord(header) in {"if", "for", "while"} && AllWellFormed(body)
    requires Strip(closer) == if FirstWord(header) == "if" then "fi" else "done"
    requires body == [] || Strip(PrintStmt(body[0])[0]) !in {"then", "do"}
    ensures Interpret(h, [header] + (Print(body) + [closer]), last, w) == Run(World(w.state, w.log + [Complaint]), Status(1))
  {
    hide FirstWord, Strip, Condition, ForHeader, Print, BlockLength, CloseAt, ScanBranches;
    var block := [header] + (Print(body) + [closer]);
    assert FirstWord(closer) !in {"if", "for", "while"} by { RcMeaning.KeywordLine(closer); }
    CloserIff(header, body, closer);
    RcMeaning.OpenerIsNotBlank(header);
    var inner := block[1..|block| - 1];
    assert inner == Print(body);
    assert inner == [] || Strip(inner[0]) !in {"then", "do"} by { FirstPrinted(body); }
    assert block[..|block|] == block && block[|block|..] == [];
    assert RunBlock(h, block, w) == Run(w, Raised);
  }

  lemma FirstPrinted(body: seq<Stmt>)
    ensures body == [] ==> Print(body) == []
    ensures body != [] ==> Print(body) != [] && Print(body)[0] == PrintStmt(body[0])[0]
  {
  }

  /** A malformed block inside a block ends that one at once: no further branch, item or round is run. */
  lemma MalformedBodyStops<S>(h: Host<S>, block: seq<string>, body: seq<string>, condition: string,
                              name: string, items: seq<string>, w: World<S>)
    requires |block| >= 2 && LoopBody(block) == Some(body) && !RcBounds.WellBlocked(body)
    ensures ForHeader(h.words, block[0]) == Some((name, items)) && items != [] ==>
              RunFor(h, block, w) == Interpret(h, body, 0, World(h.bind(name, items[0], w.state), w.log))
              && RunFor(h, block, w).outcome == Raised
    ensures Condition(block[0], "while") == Some(condition) && h.test(condition, w.state) == Holds ==>
              RunWhile(h, block, w) == Interpret(h, body, 0, w) && RunWhile(h, block, w).outcome == Raised
  {
    hide Strip, Condition, ForHeader, Interpret, LoopBody, RcBounds.WellBlocked;
    RcBounds.RaisesIffMalformed(h, body, 0, w);
    if ForHeader(h.words, block[0]) == Some((name, items)) && items != [] {
      RcBounds.RaisesIffMalformed(h, body, 0, World(h.bind(name, items[0], w.state), w.log));
    }
  }

  // ------------------------------------------------------------------- an example

  lemma ExampleWords()
    ensures FirstWord("if [ -z foo ]") == "if" && Condition("if [ -z foo ]", "if") == Some("[ -z foo ]")
    ensures FirstWord("    skipped=true") == Strip("    skipped=true") == "skipped=true"
    ensures FirstWord("    chosen=true") == Strip("    chosen=true") == "chosen=true"
    ensures Strip("then") == "then" && Strip("else:") == "else:" && Strip("fi") == "fi"
  {
    hide FirstWord, Strip, Condition;
    RcBounds.Literal("if", " [ -z foo ]");
    assert "if" + " [ -z foo ]" == "if [ -z foo ]";
    Indented("skipped=true");
    Indented("chosen=true");
    assert "    " + "skipped=true" == "    skipped=true" && "    " + "chosen=true" == "    chosen=true";
    RcBounds.Literal("then", "");
    RcBounds.Literal("else:", "");
    RcBounds.Literal("fi", "");
    assert "then" + "" == "then" && "else:" + "" == "else:" && "fi" + "" == "fi";
    ConditionOfHeader("", "if", "", "[ -z foo ]", "", "");
    assert "" + ("if" + " " + "" + "[ -z foo ]") + "" == "if [ -z foo ]";
  }

  lemma Indented(word: string)
    requires word != "" && forall i :: 0 <= i < |word| ==> !IsSpace(word[i])
    ensures FirstWord("    " + word) == Strip("    " + word) == word
  {
    StripPadded("    ", word, "");
    assert "    " + word + "" == "    " + word;
    WordOf(word, "");
    assert word + "" == word;
  }

  /** The file of `tests/test_rc_interpreter.py:87-99`, normalized: only the line after `else:` runs. */
  lemma ElseColonExample<S>(h: Host<S>, w: World<S>)
    requires h.test("[ -z foo ]", w.state) == Fails
    ensures Interpret(h, ["if [ -z foo ]", "then", "    skipped=true", "else:", "    chosen=true", "fi"], 0, w)
            == Interpret(h, ["    chosen=true"], 0, w)
    ensures var reply := h.run("    chosen=true", w.state);
            reply.status == Some(0) ==>
              Interpret(h, ["    chosen=true"], 0, w) == Run(World(reply.state, w.log + [Call("    chosen=true")]), Status(0))
  {
    hide Interpret, FirstWord, Strip, Condition;
    ExampleWords();
    var thn, els := [Command("    skipped=true")], [Command("    chosen=true")];
    RcBounds.PrintOne(thn[0]);
    RcBounds.PrintOne(els[0]);
    assert WellFormed(thn[0]) && WellFormed(els[0]) && thn[1..] == [] && els[1..] == [];
    IfElseMeaning(h, "if [ -z foo ]", "[ -z foo ]", "then", thn, "else:", els, "fi", 0, w);
    assert ["if [ -z foo ]", "then"] + ["    skipped=true"] + (["else:"] + ["    chosen=true"]) + ["fi"]
           == ["if [ -z foo ]", "then", "    skipped=true", "else:", "    chosen=true", "fi"];
    CommandMeaning(h, "    chosen=true", [], 0, w);
    assert ["    chosen=true"] + [] == ["    chosen=true"];
    EndMeaning(h, 0, World(h.run("    chosen=true", w.state).state, w.log + [Call("    chosen=true")]));
  }
}
