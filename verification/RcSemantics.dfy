/** Structured rc programs, how they are laid out in lines, and what they mean. */
module RcSemantics {
  import opened Text
  import opened RcSyntax

  const WHILE_ITER_LIMIT: nat := 10_000

  // ------------------------------------------------------------ the environment

  /** What one call of the executor does; `status` is None when it raises. */
  datatype Reply<S> = Reply(state: S, status: Option<int>)

  datatype Test = Holds | Fails | Malformed

  /** The shell around the interpreter: executor, condition test, loop-variable assignment, `shlex.split`. */
  datatype Host<!S> = Host(
    run: (string, S) -> Reply<S>,
    test: (string, S) -> Test,
    bind: (string, string, S) -> S,
    words: string -> Option<seq<string>>)

  datatype Event =
    | Call(line: string)  // the executor was called
    | Complaint           // an error was printed and execution went on
    | LimitReached        // a while loop was cut off

  datatype World<S> = World(state: S, log: seq<Event>)
  {
    function Note(e: Event): World<S> { this.(log := log + [e]) }
  }

  /** Runs one command line; an executor that raises is reported and counts as status 1. */
  function RunCommand<S>(h: Host<S>, line: string, w: World<S>): (World<S>, int) {
    var reply := h.run(line, w.state);
    var w' := World(reply.state, w.log + [Call(line)]);
    match reply.status
    case Some(status) => (w', status)
    case None => (w'.Note(Complaint), 1)
  }

  // -------------------------------------------------------- structured programs

  /** A concrete syntax tree: each block keeps its own lines, so every layout is covered. */
  datatype Stmt =
    | Command(line: string)
    | If(header: string, thenLine: string, thn: seq<Stmt>, els: ElsePart, fiLine: string)
    | For(header: string, doLine: string, body: seq<Stmt>, doneLine: string)
    | While(header: string, doLine: string, body: seq<Stmt>, doneLine: string)

  datatype ElsePart = NoElse | Else(line: string, body: seq<Stmt>)

  /** Command lines avoid the control keywords and keyword lines hold their keyword. */
  predicate WellFormed(s: Stmt) {
    match s
    case Command(line) =>
      && Strip(line) != ""
      && FirstWord(line) !in {"if", "for", "while", "fi", "done"}
      && Strip(line) !in {"fi", "done", "else", "else:"}
    case If(header, thenLine, thn, els, fiLine) =>
      && FirstWord(header) == "if" && Strip(thenLine) == "then" && Strip(fiLine) == "fi"
      && AllWellFormed(thn)
      && (els.Else? ==> Strip(els.line) in {"else", "else:"} && AllWellFormed(els.body))
    case For(header, doLine, body, doneLine) =>
      && FirstWord(header) == "for" && Strip(doLine) == "do" && Strip(doneLine) == "done"
      && AllWellFormed(body)
    case While(header, doLine, body, doneLine) =>
      && FirstWord(header) == "while" && Strip(doLine) == "do" && Strip(doneLine) == "done"
      && AllWellFormed(body)
  }

  predicate AllWellFormed(p: seq<Stmt>) {
    p != [] ==> WellFormed(p[0]) && AllWellFormed(p[1..])
  }

  /** The normalized lines of a statement. */
  function PrintStmt(s: Stmt): seq<string> {
    match s
    case Command(line) => [line]
    case If(header, thenLine, thn, els, fiLine) => [header, thenLine] + Print(thn) + PrintElse(els) + [fiLine]
    case For(header, doLine, body, doneLine) => [header, doLine] + Print(body) + [doneLine]
    case While(header, doLine, body, doneLine) => [header, doLine] + Print(body) + [doneLine]
  }

  function PrintElse(els: ElsePart): seq<string> {
    match els
    case NoElse => []
    case Else(line, body) => [line] + Print(body)
  }

  function Print(p: seq<Stmt>): seq<string> {
    if p == [] then [] else PrintStmt(p[0]) + Print(p[1..])
  }

  // ---------------------------------------------------------- big-step semantics

  /** A control error is reported and the statement counts as status 1. */
  function Fault<S>(w: World<S>): (World<S>, int) {
    (w.Note(Complaint), 1)
  }

  function Exec<S>(h: Host<S>, p: seq<Stmt>, last: int, w: World<S>): (World<S>, int)
    decreases p, 0
  {
    if p == [] then (w, last)
    else
      var (w', status) := ExecStmt(h, p[0], w);
      Exec(h, p[1..], status, w')
  }

  function ExecStmt<S>(h: Host<S>, s: Stmt, w: World<S>): (World<S>, int)
    decreases s, 0
  {
    match s
    case Command(line) => RunCommand(h, line, w)
    case If(header, _, thn, els, _) =>
      (match Condition(header, "if")
       case None => Fault(w)
       case Some(condition) =>
         match h.test(condition, w.state)
         case Malformed => Fault(w)
         case Holds => Exec(h, thn, 0, w)
         case Fails => if els.Else? then Exec(h, els.body, 0, w) else (w, 0))
    case For(header, _, body, _) =>
      (match ForHeader(h.words, header)
       case None => Fault(w)
       case Some((name, items)) => ExecItems(h, name, items, body, 0, w))
    case While(header, _, body, _) =>
      (match Condition(header, "while")
       case None => Fault(w)
       case Some(condition) => ExecWhile(h, condition, body, 0, 0, w))
  }

  function ExecItems<S>(h: Host<S>, name: string, items: seq<string>, body: seq<Stmt>, last: int, w: World<S>):
    (World<S>, int)
    decreases body, 1, items
  {
    if items == [] then (w, last)
    else
      var (w', status) := Exec(h, body, 0, w.(state := h.bind(name, items[0], w.state)));
      ExecItems(h, name, items[1..], body, status, w')
  }

  /** `rounds` is how often the body has run. */
  function ExecWhile<S>(h: Host<S>, condition: string, body: seq<Stmt>, rounds: nat, last: int, w: World<S>):
    (World<S>, int)
    requires rounds <= WHILE_ITER_LIMIT
    decreases body, 1, WHILE_ITER_LIMIT - rounds
  {
    match h.test(condition, w.state)
    case Malformed => Fault(w)
    case Fails => (w, last)
    case Holds =>
      if rounds == WHILE_ITER_LIMIT then (w.Note(LimitReached), 1)
      else
        var (w', status) := Exec(h, body, 0, w);
        ExecWhile(h, condition, body, rounds + 1, status, w')
  }
}
