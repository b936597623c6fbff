/** Command chains: the one-pass loop over a flat chain against evaluation of AND-OR trees. */
module Chain {
  import opened Text

  datatype Operator = AndThen | OrElse | Semicolon | Ampersand | NoOperator

  /** A command with the operator that follows it. */
  datatype Element = Element(command: string, operator: Operator)

  /** Runs one command, given its background flag and `$?`. */
  type Runner<!S> = (string, bool, S, int) -> (S, int)

  /** The shell state, `$?`, and the commands run so far. */
  datatype World<S> = World(state: S, lastStatus: int, log: seq<(string, bool)>)

  function RunOne<S>(run: Runner<S>, command: string, background: bool, w: World<S>): (World<S>, int) {
    var (state, status) := run(command, background, w.state, w.lastStatus);
    (World(state, status, w.log + [(command, background)]), status)
  }

  // ----------------------------------------------------------- AND-OR trees

  /** `&&` and `||` have equal precedence and associate to the left. */
  datatype Tree = Leaf(command: string) | And(left: Tree, command: string) | Or(left: Tree, command: string)

  /** A tree with its terminator; `&` makes only the last command of the tree run in the background. */
  datatype Item = Item(tree: Tree, terminator: Operator)

  function Eval<S>(run: Runner<S>, t: Tree, background: bool, w: World<S>): (World<S>, int) {
    match t
    case Leaf(command) => RunOne(run, command, background, w)
    case And(left, command) =>
      var (w', status) := Eval(run, left, false, w);
      if status == 0 then RunOne(run, command, background, w') else (w', status)
    case Or(left, command) =>
      var (w', status) := Eval(run, left, false, w);
      if status != 0 then RunOne(run, command, background, w') else (w', status)
  }

  /** Evaluates the items in turn; the status is that of the last one. */
  function EvalItems<S>(run: Runner<S>, items: seq<Item>, status: int, w: World<S>): (World<S>, int)
    decreases |items|
  {
    if items == [] then (w, status)
    else
      var (w', status') := Eval(run, items[0].tree, items[0].terminator == Ampersand, w);
      EvalItems(run, items[1..], status', w')
  }

  // ----------------------------------------------------- flat chains and trees

  function FlattenTree(t: Tree, operator: Operator): seq<Element> {
    match t
    case Leaf(command) => [Element(command, operator)]
    case And(left, command) => FlattenTree(left, AndThen) + [Element(command, operator)]
    case Or(left, command) => FlattenTree(left, OrElse) + [Element(command, operator)]
  }

  function Flatten(items: seq<Item>): seq<Element> {
    if items == [] then [] else FlattenTree(items[0].tree, items[0].terminator) + Flatten(items[1..])
  }

  /** No element dangles at the end; the parser rejects such chains. */
  predicate WellEnded(chain: seq<Element>) {
    chain != [] ==> chain[|chain| - 1].operator !in {AndThen, OrElse}
  }

  predicate ProperItems(items: seq<Item>) {
    forall i :: 0 <= i < |items| ==> items[i].terminator !in {AndThen, OrElse}
  }

  /** A tree that waits for its next command, and the operator before that command. */
  datatype Pending = Nothing | After(left: Tree, operator: Operator)

  function Extend(p: Pending, command: string): Tree {
    if p == Nothing then Leaf(command)
    else if p.operator == AndThen then And(p.left, command)
    else Or(p.left, command)
  }

  function Parse(p: Pending, chain: seq<Element>): (items: seq<Item>)
    ensures ProperItems(items)
    decreases |chain|
  {
    if chain == [] then []
    else
      var t := Extend(p, chain[0].command);
      if chain[0].operator in {AndThen, OrElse} then Parse(After(t, chain[0].operator), chain[1..])
      else [Item(t, chain[0].operator)] + Parse(Nothing, chain[1..])
  }

  function FlattenPending(p: Pending): seq<Element> {
    if p == Nothing then [] else FlattenTree(p.left, p.operator)
  }

  /** What the next element adds to what was read before it. */
  lemma FlattenExtend(p: Pending, e: Element)
    requires p.After? ==> p.operator in {AndThen, OrElse}
    ensures FlattenTree(Extend(p, e.command), e.operator) == FlattenPending(p) + [e]
  {
    assert p == Nothing ==> FlattenPending(p) + [e] == [e];
  }

  lemma FlattenFirst(item: Item, rest: seq<Item>)
    ensures Flatten([item] + rest) == FlattenTree(item.tree, item.terminator) + Flatten(rest)
  {
    assert ([item] + rest)[1..] == rest;
  }

  /** Parsing is faithful: flattening the parsed items gives the chain back. */
  lemma {:induction false} FlattenParse(p: Pending, chain: seq<Element>)
    requires WellEnded(chain) && (p.After? ==> chain != [] && p.operator in {AndThen, OrElse})
    ensures Flatten(Parse(p, chain)) == FlattenPending(p) + chain
    decreases |chain|
  {
    if chain == [] {
      assert FlattenPending(p) + chain == [];
    } else {
      hide FlattenTree, Flatten, Extend, FlattenPending;
      var e, t := chain[0], Extend(p, chain[0].command);
      FlattenExtend(p, e);
      assert FlattenPending(p) + [e] + chain[1..] == FlattenPending(p) + chain;
      if e.operator in {AndThen, OrElse} {
        FlattenParse(After(t, e.operator), chain[1..]);
        PendingIs(After(t, e.operator));
      } else {
        FlattenParse(Nothing, chain[1..]);
        PendingIs(Nothing);
        FlattenFirst(Item(t, e.operator), Parse(Nothing, chain[1..]));
        assert [] + chain[1..] == chain[1..];
      }
    }
  }

  lemma PendingIs(p: Pending)
    ensures FlattenPending(p) == if p == Nothing then [] else FlattenTree(p.left, p.operator)
  {
  }

  /** Flat chains name their trees: parsing what was flattened gives the items back. */
  lemma {:induction false} ParseFlattenTree(t: Tree, operator: Operator, rest: seq<Element>)
    ensures Parse(Nothing, FlattenTree(t, operator) + rest) ==
            if operator in {AndThen, OrElse} then Parse(After(t, operator), rest)
            else [Item(t, operator)] + Parse(Nothing, rest)
    decreases t
  {
    hide Parse;
    var command := t.command;
    var e := Element(command, operator);
    if t.Leaf? {
      assert FlattenTree(t, operator) == [e];
      ParseOne(Nothing, e, rest);
    } else {
      var before := if t.And? then AndThen else OrElse;
      ParseFlattenTree(t.left, before, [e] + rest);
      assert FlattenTree(t, operator) == FlattenTree(t.left, before) + [e];
      assert FlattenTree(t, operator) + rest == FlattenTree(t.left, before) + ([e] + rest);
      ParseOne(After(t.left, before), e, rest);
    }
  }

  lemma ParseOne(p: Pending, e: Element, rest: seq<Element>)
    ensures var t := Extend(p, e.command);
            Parse(p, [e] + rest) ==
            if e.operator in {AndThen, OrElse} then Parse(After(t, e.operator), rest)
            else [Item(t, e.operator)] + Parse(Nothing, rest)
  {
    assert ([e] + rest)[1..] == rest;
  }

  lemma {:induction false} ParseFlatten(items: seq<Item>)
    requires ProperItems(items)
    ensures Parse(Nothing, Flatten(items)) == items
    decreases |items|
  {
    if items != [] {
      ParseFlattenTree(items[0].tree, items[0].terminator, Flatten(items[1..]));
      ParseFlatten(items[1..]);
      assert items == [items[0]] + items[1..];
    }
  }

  // ----------------------------------------------------------------- the loop

  function RunsNext(operator: Operator, status: int): bool {
    if operator == AndThen then status == 0 else if operator == OrElse then status != 0 else true
  }

  /** The loop from a given point on. */
  function Loop<S>(run: Runner<S>, chain: seq<Element>, status: int, runNext: bool, w: World<S>): (World<S>, int)
    decreases |chain|
  {
    if chain == [] then (w, status)
    else
      var e := chain[0];
      var (w', status') := if runNext then RunOne(run, e.command, e.operator == Ampersand, w) else (w, status);
      Loop(run, chain[1..], status', RunsNext(e.operator, status'), w')
  }

  /** What was evaluated before the rest of the chain: nothing yet, or the left part of a tree. */
  function EvalPending<S>(run: Runner<S>, p: Pending, status: int, w: World<S>): (World<S>, int) {
    if p == Nothing then (w, status) else Eval(run, p.left, false, w)
  }

  lemma {:induction false} LoopIsEval<S>(run: Runner<S>, p: Pending, chain: seq<Element>, status: int, w: World<S>)
    requires WellEnded(chain) && (p.After? ==> chain != [] && p.operator in {AndThen, OrElse})
    ensures var (w1, status1) := EvalPending(run, p, status, w);
            Loop(run, chain, status1, p == Nothing || RunsNext(p.operator, status1), w1) ==
            EvalItems(run, Parse(p, chain), status, w)
    decreases |chain|
  {
    if chain != [] {
      var e, t := chain[0], Extend(p, chain[0].command);
      var background := e.operator == Ampersand;
      var (w1, status1) := EvalPending(run, p, status, w);
      var runNext := p == Nothing || RunsNext(p.operator, status1);
      var (w2, status2) := if runNext then RunOne(run, e.command, background, w1) else (w1, status1);
      assert Eval(run, t, background, w) == (w2, status2);
      if e.operator in {AndThen, OrElse} {
        LoopIsEval(run, After(t, e.operator), chain[1..], status, w);
      } else {
        LoopIsEval(run, Nothing, chain[1..], status2, w2);
        var rest := Parse(Nothing, chain[1..]);
        assert ([Item(t, e.operator)] + rest)[1..] == rest;
      }
    }
  }

  /** For every list of AND-OR trees the loop over its flat form runs the same commands to the same end. */
  lemma LoopOfFlattened<S>(run: Runner<S>, items: seq<Item>, w: World<S>)
    requires ProperItems(items)
    ensures Loop(run, Flatten(items), 0, true, w) == EvalItems(run, items, 0, w)
  {
    FlattenEnds(items);
    LoopIsEval(run, Nothing, Flatten(items), 0, w);
    ParseFlatten(items);
  }

  lemma {:induction false} FlattenEnds(items: seq<Item>)
    requires ProperItems(items)
    ensures WellEnded(Flatten(items)) && (items != [] ==> Flatten(items) != [])
    decreases |items|
  {
    if items != [] {
      var t := items[0].tree;
      assert FlattenTree(t, items[0].terminator) != []
             && FlattenTree(t, items[0].terminator)[|FlattenTree(t, items[0].terminator)| - 1].operator == items[0].terminator;
      FlattenEnds(items[1..]);
    }
  }

  /** `&&` after a status other than 0 and `||` after status 0 skip the element behind them. */
  predicate Skipped(chain: seq<Element>, i: nat, status: int)
    requires i < |chain|
  {
    && i > 0
    && ((chain[i - 1].operator == AndThen && status != 0) || (chain[i - 1].operator == OrElse && status == 0))
  }

  /**
   * One turn of the chain: a skipped element changes nothing; any other runs once, in the background
   * exactly if `&` follows it, sees the status of the last command that ran as `$?`, and its own
   * status is the next one.
   */
  ghost predicate Turn<S>(run: Runner<S>, chain: seq<Element>, i: nat, before: World<S>, was: int, after: World<S>, now: int)
    requires i < |chain|
  {
    if Skipped(chain, i, was) then after == before && now == was
    else
      && run(chain[i].command, chain[i].operator == Ampersand, before.state, before.lastStatus) == (after.state, now)
      && after.lastStatus == now
      && after.log == before.log + [(chain[i].command, chain[i].operator == Ampersand)]
  }

  /**
   * The loop of `_execute_impl` over a parsed chain; `worlds` and `statuses` are what it has before
   * each element and at the end.
   */
  method RunChain<S>(run: Runner<S>, chain: seq<Element>, start: World<S>)
    returns (w: World<S>, status: int, ghost worlds: seq<World<S>>, ghost statuses: seq<int>)
    ensures (w, status) == Loop(run, chain, 0, true, start)
    ensures WellEnded(chain) ==> (w, status) == EvalItems(run, Parse(Nothing, chain), 0, start)
    ensures |worlds| == |statuses| == |chain| + 1 && worlds[0] == start && statuses[0] == 0
    ensures worlds[|chain|] == w && statuses[|chain|] == status
    ensures forall i :: 0 <= i < |chain| ==> Turn(run, chain, i, worlds[i], statuses[i], worlds[i + 1], statuses[i + 1])
  {
    hide Turn;
    w, status := start, 0;
    worlds, statuses := [start], [0];
    var runNext := true;
    assert chain[0..] == chain;
    for i := 0 to |chain|
      invariant Loop(run, chain, 0, true, start) == Loop(run, chain[i..], status, runNext, w)
      invariant |worlds| == |statuses| == i + 1 && worlds[0] == start && statuses[0] == 0
      invariant worlds[i] == w && statuses[i] == status
      invariant i < |chain| ==> (runNext <==> !Skipped(chain, i, status))
      invariant forall k :: 0 <= k < i ==> Turn(run, chain, k, worlds[k], statuses[k], worlds[k + 1], statuses[k + 1])
    {
      var e := chain[i];
      assert chain[i..][1..] == chain[i + 1..];
      if runNext {
        var isBackground := e.operator == Ampersand;
        var result := run(e.command, isBackground, w.state, w.lastStatus);
        status := result.1;
        w := World(result.0, status, w.log + [(e.command, isBackground)]);
      }
      TurnTaken(run, chain, i, worlds[i], statuses[i], w, status);
      worlds, statuses := worlds + [w], statuses + [status];
      if e.operator == AndThen {
        runNext := status == 0;
      } else if e.operator == OrElse {
        runNext := status != 0;
      } else {
        runNext := true;
      }
    }
    if WellEnded(chain) {
      LoopIsEval(run, Nothing, chain, 0, start);
    }
  }

  lemma TurnTaken<S>(run: Runner<S>, chain: seq<Element>, i: nat, before: World<S>, was: int, after: World<S>, now: int)
    requires i < |chain|
    requires var (w, status) := if Skipped(chain, i, was) then (before, was)
                                else RunOne(run, chain[i].command, chain[i].operator == Ampersand, before);
             after == w && now == status
    ensures Turn(run, chain, i, before, was, after, now)
  {
  }

  /** The last command of a tree gets its turn. */
  predicate LastRuns<S>(run: Runner<S>, t: Tree, w: World<S>) {
    match t
    case Leaf(_) => true
    case And(left, _) => Eval(run, left, false, w).1 == 0
    case Or(left, _) => Eval(run, left, false, w).1 != 0
  }

  /** Of the commands that an item runs, exactly its last command runs in the background, if it gets its turn at all. */
  lemma {:induction false} BackgroundIffLast<S>(run: Runner<S>, t: Tree, background: bool, w: World<S>)
    ensures var log := Eval(run, t, background, w).0.log;
            && |w.log| < |log| && log[..|w.log|] == w.log
            && (forall k :: |w.log| <= k < |log| ==> (log[k].1 <==> background && LastRuns(run, t, w) && k == |log| - 1))
            && (LastRuns(run, t, w) ==> log[|log| - 1].0 == t.command)
  {
    if !t.Leaf? {
      BackgroundIffLast(run, t.left, false, w);
    }
  }

  /** `a && b &` runs only `b` in the background: all commands of an `&` item do so exactly if it is a single command. */
  lemma AllInBackgroundIff<S>(run: Runner<S>, t: Tree, w: World<S>)
    ensures var log := Eval(run, t, true, w).0.log;
            && |w.log| < |log| && ((forall k :: |w.log| <= k < |log| ==> log[k].1) <==> t.Leaf?)
  {
    BackgroundIffLast(run, t, true, w);
    if !t.Leaf? {
      BackgroundIffLast(run, t.left, false, w);
      var before := Eval(run, t.left, false, w).0.log;
      assert !before[|w.log|].1 && before[|w.log|] == Eval(run, t, true, w).0.log[|w.log|];
    }
  }
}
