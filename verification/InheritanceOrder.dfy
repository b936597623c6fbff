/** The value of every resolved name on every graph of bases, and when it depends on the dictionary order. */
module InheritanceOrder {
  import opened Text
  import opened Inheritance
  import opened InheritanceLaws

  // ------------------------------------------------------------- lines of names

  /** The edge of a cycle that leads to its reported name is cut: the reported name was still being resolved. */
  ghost predicate Cut<D>(s: Scheme<D>, g: Graph<D>, ds: seq<Diagnostic>, n: Name) {
    OnCycle(s, g, n) && Next(s, g, n).Some? && Cycle(Next(s, g, n).value) in ds
  }

  /** The base that `n` is merged over. */
  ghost function Under<D>(s: Scheme<D>, g: Graph<D>, ds: seq<Diagnostic>, n: Name): Option<Name> {
    if Cut(s, g, ds, n) then None else Next(s, g, n)
  }

  /** Within `k` steps from `n` upwards there is no base to merge over any more. */
  ghost predicate Stops<D>(s: Scheme<D>, g: Graph<D>, ds: seq<Diagnostic>, n: Name, k: nat)
    decreases k
  {
    Under(s, g, ds, n) == None || (k > 0 && Stops(s, g, ds, Under(s, g, ds, n).value, k - 1))
  }

  /** The names whose definitions are merged for `n`, nearest first; `k` bounds their number. */
  ghost function Line<D>(s: Scheme<D>, g: Graph<D>, ds: seq<Diagnostic>, n: Name, k: nat): (line: seq<Name>)
    ensures line != [] && line[0] == n
    decreases k
  {
    if k == 0 || Under(s, g, ds, n) == None then [n] else [n] + Line(s, g, ds, Under(s, g, ds, n).value, k - 1)
  }

  /** The definitions of a line merged, the farthest over the empty one. */
  function MergeLine<D>(s: Scheme<D>, g: Graph<D>, line: seq<Name>): D
    requires line != [] && forall n :: n in line ==> n in g
  {
    s.merge(if |line| == 1 then s.empty else MergeLine(s, g, line[1..]), g[line[0]])
  }

  lemma {:induction false} LineInGraph<D>(s: Scheme<D>, g: Graph<D>, ds: seq<Diagnostic>, n: Name, k: nat)
    requires n in g
    ensures forall m :: m in Line(s, g, ds, n, k) ==> m in g
    decreases k
  {
    if k > 0 && Under(s, g, ds, n).Some? {
      LineInGraph(s, g, ds, Under(s, g, ds, n).value, k - 1);
    }
  }

  /** The farthest name of a line that has come to its end. */
  ghost function End<D>(s: Scheme<D>, g: Graph<D>, ds: seq<Diagnostic>, n: Name, k: nat): Name {
    var line := Line(s, g, ds, n, k);
    line[|line| - 1]
  }

  lemma {:induction false} EndReached<D>(s: Scheme<D>, g: Graph<D>, ds: seq<Diagnostic>, n: Name, k: nat)
    requires Stops(s, g, ds, n, k)
    ensures Reaches(s, g, n, End(s, g, ds, n, k)) && Under(s, g, ds, End(s, g, ds, n, k)) == None
    decreases k
  {
    assert Up(s, g, n, 0) == Some(n);
    if Under(s, g, ds, n).Some? {
      var b := Under(s, g, ds, n).value;
      EndReached(s, g, ds, b, k - 1);
      var j: nat :| Up(s, g, b, j) == Some(End(s, g, ds, b, k - 1));
      assert Up(s, g, n, j + 1) == Some(End(s, g, ds, b, k - 1));
    }
  }

  // -------------------------------------------------------- what one call merges

  /** Each name of the path is merged over the next one, and the last one over `under`. */
  ghost predicate Merges<D>(s: Scheme<D>, g: Graph<D>, resolved: map<Name, D>, p: seq<Name>, under: D) {
    && (forall m :: m in p ==> m in g && m in resolved)
    && (forall i :: 0 <= i < |p| - 1 ==> resolved[p[i]] == s.merge(resolved[p[i + 1]], g[p[i]]))
    && (p != [] ==> resolved[p[|p| - 1]] == s.merge(under, g[p[|p| - 1]]))
  }

  lemma MergesCons<D>(s: Scheme<D>, g: Graph<D>, resolved: map<Name, D>, n: Name, q: seq<Name>, under: D)
    requires Merges(s, g, resolved, q, under) && n in g && n !in q
    ensures var base := if q == [] then under else resolved[q[0]];
            Merges(s, g, resolved[n := s.merge(base, g[n])], [n] + q, under)
  {
    var base := if q == [] then under else resolved[q[0]];
    var p, resolved' := [n] + q, resolved[n := s.merge(base, g[n])];
    forall i | 0 <= i < |p| - 1
      ensures resolved'[p[i]] == s.merge(resolved'[p[i + 1]], g[p[i]])
    {
      assert p[i + 1] == q[i];
      if i > 0 {
        assert p[i] == q[i - 1];
      }
    }
    assert q != [] ==> p[|p| - 1] == q[|q| - 1];
  }

  /** A call merges along its path, over a value that it found or over the empty one. */
  lemma {:induction false} PathValues<D>(s: Scheme<D>, g: Graph<D>, st: State<D>, visiting: set<Name>, n: Name) returns (under: D)
    requires n in g && visiting <= g.Keys
    ensures var (st', r) := Resolve(s, g, st, visiting, n);
            var (p, end) := Path(s, g, st.resolved.Keys, visiting, n);
            && Merges(s, g, st'.resolved, p, under)
            && r == (if p == [] then under else st'.resolved[p[0]])
            && if end != Known then under == s.empty
               else if p == [] then n in st.resolved && under == st.resolved[n]
               else
                 var b := Next(s, g, p[|p| - 1]);
                 b.Some? && b.value in st.resolved && under == st.resolved[b.value]
    decreases g.Keys - visiting
  {
    hide Merges, BadBase;
    if n in st.resolved {
      under := st.resolved[n];
      NoMerges(s, g, st.resolved, under);
    } else if n in visiting {
      under := s.empty;
      NoMerges(s, g, st.resolved, under);
    } else if Next(s, g, n).Some? {
      var b := Next(s, g, n).value;
      under := PathValues(s, g, st, visiting + {n}, b);
      PathFacts(s, g, st.resolved.Keys, visiting + {n}, b);
      MergesCons(s, g, Resolve(s, g, st, visiting + {n}, b).0.resolved, n,
                 Path(s, g, st.resolved.Keys, visiting + {n}, b).0, under);
    } else {
      under := s.empty;
      NoMerges(s, g, st.resolved, under);
      MergesCons(s, g, st.resolved, n, [], under);
      assert [n] + [] == [n];
    }
  }

  lemma NoMerges<D>(s: Scheme<D>, g: Graph<D>, resolved: map<Name, D>, under: D)
    ensures Merges(s, g, resolved, [], under)
  {
  }

  lemma {:induction false} UpTimes<D>(s: Scheme<D>, g: Graph<D>, b: Name, k: nat, t: nat)
    requires Up(s, g, b, k) == Some(b)
    ensures Up(s, g, b, t * k) == Some(b)
    decreases t
  {
    if t > 0 {
      UpTimes(s, g, b, k, t - 1);
      UpAdd(s, g, b, (t - 1) * k, k);
      assert (t - 1) * k + k == t * k;
    }
  }

  /** On a cycle a name has one predecessor. */
  lemma SamePredecessor<D>(s: Scheme<D>, g: Graph<D>, x: Name, y: Name)
    requires OnCycle(s, g, x) && OnCycle(s, g, y) && Next(s, g, x) == Next(s, g, y)
    ensures x == y
  {
    CycleStep(s, g, x);
    var b := Next(s, g, x).value;
    var k: nat :| k > 0 && Up(s, g, x, k) == Some(x);
    var j: nat :| j > 0 && Up(s, g, y, j) == Some(y);
    CycleFrom(s, g, x, b, k, j);
    CycleFrom(s, g, y, b, j, k);
    assert (j - 1) * k + (k - 1) == (k - 1) * j + (j - 1);
  }

  lemma CycleFrom<D>(s: Scheme<D>, g: Graph<D>, x: Name, b: Name, k: nat, j: nat)
    requires Next(s, g, x) == Some(b) && k > 0 && j > 0 && Up(s, g, x, k) == Some(x)
    ensures Up(s, g, b, (j - 1) * k + (k - 1)) == Some(x)
  {
    assert Up(s, g, b, k - 1) == Some(x);
    assert Up(s, g, b, 0) == Some(b);
    assert Up(s, g, x, 1) == Some(b);
    UpAdd(s, g, b, k - 1, 1);
    UpTimes(s, g, b, k, j - 1);
    UpAdd(s, g, b, (j - 1) * k, k - 1);
  }

  // ------------------------------------------------------------ local equations

  /** The value of a name is its definition merged over the value of the name under it. */
  ghost predicate Solves<D>(s: Scheme<D>, g: Graph<D>, ds: seq<Diagnostic>, resolved: map<Name, D>, m: Name)
    requires m in resolved && m in g
  {
    match Under(s, g, ds, m)
    case None => resolved[m] == s.merge(s.empty, g[m])
    case Some(b) => b in resolved && resolved[m] == s.merge(resolved[b], g[m])
  }

  ghost predicate Solved<D>(s: Scheme<D>, g: Graph<D>, ds: seq<Diagnostic>, resolved: map<Name, D>) {
    forall m :: m in resolved ==> m in g && Solves(s, g, ds, resolved, m) && exists k: nat :: Stops(s, g, ds, m, k)
  }

  /** A name that was resolved before keeps what is under it. */
  lemma UnderOld<D>(s: Scheme<D>, g: Graph<D>, known: set<Name>, ds: seq<Diagnostic>, n: Name, m: Name)
    requires n in g && m in known && Closed(s, g, known)
    ensures Under(s, g, ds + Reported(Path(s, g, known, {}, n).1), m) == Under(s, g, ds, m)
  {
    var end := Path(s, g, known, {}, n).1;
    if end.Loop? {
      LoopIsCycle(s, g, known, n);
      assert Next(s, g, m).Some? ==> Next(s, g, m).value != end.name;
    }
    assert forall d :: d in ds + Reported(end) <==> d in ds || d in Reported(end);
  }

  /** Inside the path the next name is under a name. */
  lemma UnderInside<D>(s: Scheme<D>, g: Graph<D>, known: set<Name>, ds: seq<Diagnostic>, n: Name, i: nat)
    requires n in g && Closed(s, g, known) && CyclesReported(s, g, known, ds)
    requires i + 1 < |Path(s, g, known, {}, n).0|
    ensures var (p, end) := Path(s, g, known, {}, n); Under(s, g, ds + Reported(end), p[i]) == Some(p[i + 1])
  {
    PathFacts(s, g, known, {}, n);
    var (p, end) := Path(s, g, known, {}, n);
    var ds' := ds + Reported(end);
    assert p[i] in p && p[i + 1] in p && Next(s, g, p[i]) == Some(p[i + 1]);
    if Cut(s, g, ds', p[i]) {
      assert Cycle(p[i + 1]) in Reported(end);
      LastOnCycle(s, g, known, n);
      SamePredecessor(s, g, p[i], p[|p| - 1]);
      assert false;
    }
  }

  /** If a path ends by looping, its last name is on the cycle. */
  lemma LastOnCycle<D>(s: Scheme<D>, g: Graph<D>, known: set<Name>, n: Name)
    requires n in g && Path(s, g, known, {}, n).1.Loop?
    ensures var (p, end) := Path(s, g, known, {}, n);
            p != [] && OnCycle(s, g, p[|p| - 1]) && Next(s, g, p[|p| - 1]) == Some(end.name)
  {
    PathFacts(s, g, known, {}, n);
    LoopIsCycle(s, g, known, n);
    var (p, end) := Path(s, g, known, {}, n);
    var i :| 0 <= i < |p| && p[i] == end.name;
    ChainReaches(s, g, p, i, |p| - 1);
    CycleBack(s, g, end.name, |p| - 1 - i);
  }

  /** What is under the last name of a path. */
  lemma UnderLast<D>(s: Scheme<D>, g: Graph<D>, known: set<Name>, ds: seq<Diagnostic>, n: Name)
    requires n in g && Closed(s, g, known) && CyclesReported(s, g, known, ds) && Path(s, g, known, {}, n).0 != []
    ensures var (p, end) := Path(s, g, known, {}, n);
            Under(s, g, ds + Reported(end), p[|p| - 1]) == if end == Known then Next(s, g, p[|p| - 1]) else None
  {
    PathFacts(s, g, known, {}, n);
    var (p, end) := Path(s, g, known, {}, n);
    var last := p[|p| - 1];
    assert last in p;
    if end == Known {
      if OnCycle(s, g, last) {
        var b := Next(s, g, last).value;
        assert Up(s, g, b, 0) == Some(b);
        assert Up(s, g, last, 1) == Some(b);
        CycleIsKnown(s, g, known, last, b);
        assert false;
      }
    } else if end.Loop? {
      LastOnCycle(s, g, known, n);
      assert (ds + Reported(end))[|ds|] == Cycle(end.name);
    }
  }

  lemma SolvedStep<D>(s: Scheme<D>, g: Graph<D>, st: State<D>, n: Name)
    requires n in g && Closed(s, g, st.resolved.Keys)
    requires CyclesReported(s, g, st.resolved.Keys, st.diagnostics)
    requires Solved(s, g, st.diagnostics, st.resolved)
    ensures var st' := Resolve(s, g, st, {}, n).0; Solved(s, g, st'.diagnostics, st'.resolved)
  {
    hide CyclesReported, Path, Resolve, Cut;
    var known := st.resolved.Keys;
    var st' := Resolve(s, g, st, {}, n).0;
    var (p, end) := Path(s, g, known, {}, n);
    ResolvePath(s, g, st, {}, n);
    PathFacts(s, g, known, {}, n);
    forall m | m in known
      ensures m in g && Solves(s, g, st'.diagnostics, st'.resolved, m) && exists k: nat :: Stops(s, g, st'.diagnostics, m, k)
    {
      OldSolved(s, g, st, n, m);
    }
    if p != [] {
      forall i | 0 <= i < |p|
        ensures Solves(s, g, st'.diagnostics, st'.resolved, p[i]) && exists k: nat :: Stops(s, g, st'.diagnostics, p[i], k)
      {
        NewSolved(s, g, st, n, i);
      }
    }
  }

  lemma OldSolved<D>(s: Scheme<D>, g: Graph<D>, st: State<D>, n: Name, m: Name)
    requires n in g && Closed(s, g, st.resolved.Keys) && m in st.resolved
    requires Solved(s, g, st.diagnostics, st.resolved)
    ensures var st' := Resolve(s, g, st, {}, n).0;
            m in g && m in st'.resolved && Solves(s, g, st'.diagnostics, st'.resolved, m)
            && exists k: nat :: Stops(s, g, st'.diagnostics, m, k)
  {
    hide Path, Resolve, Cut;
    var known := st.resolved.Keys;
    ResolvePath(s, g, st, {}, n);
    PathFacts(s, g, known, {}, n);
    UnderOld(s, g, known, st.diagnostics, n, m);
    var k: nat :| Stops(s, g, st.diagnostics, m, k);
    StopsOld(s, g, known, st.diagnostics, n, m, k);
  }

  lemma {:induction false} StopsOld<D>(s: Scheme<D>, g: Graph<D>, known: set<Name>, ds: seq<Diagnostic>, n: Name, m: Name, k: nat)
    requires n in g && m in known && Closed(s, g, known) && Stops(s, g, ds, m, k)
    ensures Stops(s, g, ds + Reported(Path(s, g, known, {}, n).1), m, k)
    decreases k
  {
    UnderOld(s, g, known, ds, n, m);
    if Under(s, g, ds, m).Some? {
      StopsOld(s, g, known, ds, n, Under(s, g, ds, m).value, k - 1);
    }
  }

  lemma {:induction false} NewSolved<D>(s: Scheme<D>, g: Graph<D>, st: State<D>, n: Name, i: nat)
    requires n in g && Closed(s, g, st.resolved.Keys)
    requires CyclesReported(s, g, st.resolved.Keys, st.diagnostics)
    requires Solved(s, g, st.diagnostics, st.resolved)
    requires i < |Path(s, g, st.resolved.Keys, {}, n).0|
    ensures var st' := Resolve(s, g, st, {}, n).0;
            var m := Path(s, g, st.resolved.Keys, {}, n).0[i];
            && m in g && m in st'.resolved && Solves(s, g, st'.diagnostics, st'.resolved, m)
            && exists k: nat :: Stops(s, g, st'.diagnostics, m, k)
    decreases |Path(s, g, st.resolved.Keys, {}, n).0| - i
  {
    hide Path, Resolve, Cut, CyclesReported;
    var known, ds := st.resolved.Keys, st.diagnostics;
    var st' := Resolve(s, g, st, {}, n).0;
    var (p, end) := Path(s, g, known, {}, n);
    ResolvePath(s, g, st, {}, n);
    var _ := PathValues(s, g, st, {}, n);
    PathFacts(s, g, known, {}, n);
    assert p[i] in p;
    if i + 1 < |p| {
      UnderInside(s, g, known, ds, n, i);
      NewSolved(s, g, st, n, i + 1);
      var k: nat :| Stops(s, g, st'.diagnostics, p[i + 1], k);
      assert Stops(s, g, st'.diagnostics, p[i], k + 1);
    } else {
      UnderLast(s, g, known, ds, n);
      if end == Known {
        var b := Next(s, g, p[i]).value;
        OldSolved(s, g, st, n, b);
        var k: nat :| Stops(s, g, st'.diagnostics, b, k);
        assert Stops(s, g, st'.diagnostics, p[i], k + 1);
      } else {
        assert Stops(s, g, st'.diagnostics, p[i], 0);
      }
    }
  }

  lemma {:induction false} EachSolved<D>(s: Scheme<D>, g: Graph<D>, st: State<D>, order: seq<Name>)
    requires forall n :: n in order ==> n in g
    requires Closed(s, g, st.resolved.Keys)
    requires CyclesReported(s, g, st.resolved.Keys, st.diagnostics)
    requires Solved(s, g, st.diagnostics, st.resolved)
    ensures var st' := ResolveEach(s, g, st, order);
            Solved(s, g, st'.diagnostics, st'.resolved) && st.diagnostics <= st'.diagnostics
    decreases |order|
  {
    hide Closed, CyclesReported, Solved, Path, Resolve;
    if order != [] {
      var n, known := order[0], st.resolved.Keys;
      ResolvePath(s, g, st, {}, n);
      PathClosed(s, g, known, n);
      CyclesStep(s, g, known, st.diagnostics, n);
      SolvedStep(s, g, st, n);
      EachSolved(s, g, Resolve(s, g, st, {}, n).0, order[1..]);
    }
  }

  lemma {:induction false} LineValue<D>(s: Scheme<D>, g: Graph<D>, ds: seq<Diagnostic>, resolved: map<Name, D>, n: Name, k: nat)
    requires n in resolved && Solved(s, g, ds, resolved) && Stops(s, g, ds, n, k)
    ensures var line := Line(s, g, ds, n, k);
            (forall m :: m in line ==> m in g) && resolved[n] == MergeLine(s, g, line)
    decreases k
  {
    LineInGraph(s, g, ds, n, k);
    if Under(s, g, ds, n).Some? {
      var b := Under(s, g, ds, n).value;
      LineValue(s, g, ds, resolved, b, k - 1);
      assert Line(s, g, ds, n, k)[1..] == Line(s, g, ds, b, k - 1);
    }
  }

  /**
   * The value of every name, on every graph and in every dictionary order: the definitions on its
   * chain of bases merged, up to the end of the chain or to the edge cut at the reported name of a cycle.
   */
  lemma ValueOnEveryGraph<D>(s: Scheme<D>, g: Graph<D>, order: seq<Name>, n: Name)
    requires SetOf(order) == g.Keys && n in g
    ensures var st := ResolveEach(s, g, State(map[], []), order);
            && n in st.resolved
            && (exists k: nat :: Stops(s, g, st.diagnostics, n, k))
            && forall k: nat :: Stops(s, g, st.diagnostics, n, k) ==>
                  var line := Line(s, g, st.diagnostics, n, k);
                  (forall m :: m in line ==> m in g) && st.resolved[n] == MergeLine(s, g, line)
  {
    assert forall m :: m in order ==> m in SetOf(order);
    EverythingReported(s, g, order);
    EachSolved(s, g, State(map[], []), order);
    var st := ResolveEach(s, g, State(map[], []), order);
    forall k: nat | Stops(s, g, st.diagnostics, n, k)
      ensures var line := Line(s, g, st.diagnostics, n, k);
              (forall m :: m in line ==> m in g) && st.resolved[n] == MergeLine(s, g, line)
    {
      LineValue(s, g, st.diagnostics, st.resolved, n, k);
    }
  }

  // -------------------------------------------------- does the order matter?

  /** An order in which a dictionary may list its names. */
  ghost predicate Lists<D>(g: Graph<D>, order: seq<Name>) {
    SetOf(order) == g.Keys && forall i, j :: 0 <= i < j < |order| ==> order[i] != order[j]
  }

  /** What is reported when the names are resolved in this order. */
  function Reports<D>(s: Scheme<D>, g: Graph<D>, order: seq<Name>): seq<Diagnostic>
    requires SetOf(order) == g.Keys
  {
    assert forall n :: n in order ==> n in SetOf(order);
    ResolveEach(s, g, State(map[], []), order).diagnostics
  }

  /** The chain of bases ends. */
  ghost predicate Ends<D>(s: Scheme<D>, g: Graph<D>, n: Name) {
    exists k: nat :: Up(s, g, n, k) == None
  }

  /** The chain of bases runs into a name that is its own base. */
  ghost predicate RunsIntoSelf<D>(s: Scheme<D>, g: Graph<D>, n: Name) {
    exists m :: Reaches(s, g, n, m) && Next(s, g, m) == Some(m)
  }

  /** In every order the same definitions are merged for the name. */
  ghost predicate OrderIrrelevant<D>(s: Scheme<D>, g: Graph<D>, n: Name) {
    forall a: seq<Name>, b: seq<Name>, j: nat, k: nat ::
      Lists(g, a) && Lists(g, b) && Stops(s, g, Reports(s, g, a), n, j) && Stops(s, g, Reports(s, g, b), n, k)
      ==> Line(s, g, Reports(s, g, a), n, j) == Line(s, g, Reports(s, g, b), n, k)
  }

  /** Of two names that are reached, one reaches the other. */
  lemma Comparable<D>(s: Scheme<D>, g: Graph<D>, n: Name, x: Name, y: Name)
    requires Reaches(s, g, n, x) && Reaches(s, g, n, y)
    ensures Reaches(s, g, x, y) || Reaches(s, g, y, x)
  {
    var i: nat :| Up(s, g, n, i) == Some(x);
    var j: nat :| Up(s, g, n, j) == Some(y);
    if i <= j {
      UpAdd(s, g, n, i, j - i);
    } else {
      UpAdd(s, g, n, j, i - j);
    }
  }

  /** Names on cycles that are reached from the same name are on the same cycle. */
  lemma SameCycle<D>(s: Scheme<D>, g: Graph<D>, n: Name, x: Name, y: Name)
    requires Reaches(s, g, n, x) && Reaches(s, g, n, y) && OnCycle(s, g, x) && OnCycle(s, g, y)
    ensures Reaches(s, g, x, y)
  {
    Comparable(s, g, n, x, y);
    if Reaches(s, g, y, x) {
      var k: nat :| Up(s, g, y, k) == Some(x);
      CycleBack(s, g, y, k);
    }
  }

  lemma {:induction false} GroundedUp<D>(s: Scheme<D>, g: Graph<D>, n: Name, k: nat, j: nat)
    requires Up(s, g, n, k) == None && Up(s, g, n, j).Some?
    ensures j < k && Up(s, g, Up(s, g, n, j).value, k - j) == None
    decreases j
  {
    if j > 0 {
      GroundedUp(s, g, Next(s, g, n).value, k - 1, j - 1);
    }
  }

  lemma {:induction false} SameLines<D>(s: Scheme<D>, g: Graph<D>, a: seq<Diagnostic>, b: seq<Diagnostic>,
                                              n: Name, j: nat, k: nat)
    requires forall m :: Reaches(s, g, n, m) ==> Under(s, g, a, m) == Under(s, g, b, m)
    requires Stops(s, g, a, n, j) && Stops(s, g, b, n, k)
    ensures Line(s, g, a, n, j) == Line(s, g, b, n, k)
    decreases j
  {
    assert Up(s, g, n, 0) == Some(n);
    if Under(s, g, a, n).Some? {
      var next := Under(s, g, a, n).value;
      forall m | Reaches(s, g, next, m)
        ensures Reaches(s, g, n, m)
      {
        var i: nat :| Up(s, g, next, i) == Some(m);
        assert Up(s, g, n, i + 1) == Some(m);
      }
      SameLines(s, g, a, b, next, j - 1, k - 1);
    }
  }

  /** Where a chain ends nothing is cut. */
  lemma NothingCut<D>(s: Scheme<D>, g: Graph<D>, ds: seq<Diagnostic>, n: Name, m: Name)
    requires Ends(s, g, n) && Reaches(s, g, n, m)
    ensures Under(s, g, ds, m) == Next(s, g, m)
  {
    var k: nat :| Up(s, g, n, k) == None;
    var j: nat :| Up(s, g, n, j) == Some(m);
    GroundedUp(s, g, n, k, j);
    GroundedIsOffCycle(s, g, m, k - j);
  }

  lemma {:induction false} SelfStays<D>(s: Scheme<D>, g: Graph<D>, m: Name, k: nat)
    requires Next(s, g, m) == Some(m)
    ensures Up(s, g, m, k) == Some(m)
    decreases k
  {
    if k > 0 {
      SelfStays(s, g, m, k - 1);
    }
  }

  /** On a chain that runs into a self-base only the self-base is cut, in every order. */
  lemma OnlySelfCut<D>(s: Scheme<D>, g: Graph<D>, order: seq<Name>, n: Name, self: Name, m: Name)
    requires SetOf(order) == g.Keys && Reaches(s, g, n, self) && Next(s, g, self) == Some(self) && Reaches(s, g, n, m)
    ensures Under(s, g, Reports(s, g, order), m) == if m == self then None else Next(s, g, m)
  {
    hide ResolveEach;
    var ds := Reports(s, g, order);
    SelfStays(s, g, self, 1);
    assert OnCycle(s, g, self);
    if m == self {
      EverythingReported(s, g, order);
      var i :| 0 <= i < |ds| && IsReportOf(s, g, ds[i], self);
      var k: nat :| Up(s, g, self, k) == Some(ds[i].name);
      SelfStays(s, g, self, k);
      assert ds[i] == Cycle(self);
    } else if OnCycle(s, g, m) {
      SameCycle(s, g, n, self, m);
      var k: nat :| Up(s, g, self, k) == Some(m);
      SelfStays(s, g, self, k);
      assert false;
    }
  }

  lemma EndingIsIrrelevant<D>(s: Scheme<D>, g: Graph<D>, n: Name)
    requires Ends(s, g, n) || RunsIntoSelf(s, g, n)
    ensures OrderIrrelevant(s, g, n)
  {
    hide Stops, Line, Under, Reports, Ends;
    forall a: seq<Name>, b: seq<Name>, j: nat, k: nat
      | Lists(g, a) && Lists(g, b) && Stops(s, g, Reports(s, g, a), n, j) && Stops(s, g, Reports(s, g, b), n, k)
      ensures Line(s, g, Reports(s, g, a), n, j) == Line(s, g, Reports(s, g, b), n, k)
    {
      forall m | Reaches(s, g, n, m)
        ensures Under(s, g, Reports(s, g, a), m) == Under(s, g, Reports(s, g, b), m)
      {
        if Ends(s, g, n) {
          NothingCut(s, g, Reports(s, g, a), n, m);
          NothingCut(s, g, Reports(s, g, b), n, m);
        } else {
          var self :| Reaches(s, g, n, self) && Next(s, g, self) == Some(self);
          OnlySelfCut(s, g, a, n, self, m);
          OnlySelfCut(s, g, b, n, self, m);
        }
      }
      SameLines(s, g, Reports(s, g, a), Reports(s, g, b), n, j, k);
    }
  }

  // ------------------------------------------------ two orders that differ

  lemma {:induction false} Listing(names: set<Name>) returns (order: seq<Name>)
    ensures SetOf(order) == names && forall i, j :: 0 <= i < j < |order| ==> order[i] != order[j]
  {
    if names == {} {
      order := [];
    } else {
      var x :| x in names;
      var rest := Listing(names - {x});
      assert forall y :: y in rest ==> y in SetOf(rest);
      order := [x] + rest;
      assert SetOf(order) == {x} + SetOf(rest);
    }
  }

  /** A dictionary may list any of its names first. */
  lemma ListedFirst<D>(g: Graph<D>, x: Name) returns (order: seq<Name>)
    requires x in g
    ensures Lists(g, order) && order != [] && order[0] == x
  {
    var rest := Listing(g.Keys - {x});
    assert forall y :: y in rest ==> y in SetOf(rest);
    order := [x] + rest;
    assert SetOf(order) == {x} + SetOf(rest);
  }

  lemma {:induction false} ReportsStay<D>(s: Scheme<D>, g: Graph<D>, st: State<D>, order: seq<Name>)
    requires forall n :: n in order ==> n in g
    ensures st.diagnostics <= ResolveEach(s, g, st, order).diagnostics
    decreases |order|
  {
    hide Path, Resolve;
    if order != [] {
      ResolvePath(s, g, st, {}, order[0]);
      ReportsStay(s, g, Resolve(s, g, st, {}, order[0]).0, order[1..]);
    }
  }

  /** If a name on a cycle is listed first, its cycle is reported by this name. */
  lemma FirstReported<D>(s: Scheme<D>, g: Graph<D>, x: Name, order: seq<Name>)
    requires SetOf(order) == g.Keys && order != [] && order[0] == x && OnCycle(s, g, x) && x in g
    ensures Cycle(x) in Reports(s, g, order)
  {
    hide Path, Resolve;
    assert forall n :: n in order ==> n in SetOf(order);
    var st: State<D> := State(map[], []);
    var (p, end) := Path(s, g, {}, {}, x);
    assert st.resolved.Keys == {};
    PathFacts(s, g, {}, {}, x);
    NewCycle(s, g, {}, x, x);
    LoopIsCycle(s, g, {}, x);
    LastOnCycle(s, g, {}, x);
    var i :| 0 <= i < |p| && p[i] == end.name;
    if i > 0 {
      ChainReaches(s, g, p, 0, i - 1);
      CycleBack(s, g, x, i - 1);
      SamePredecessor(s, g, p[i - 1], p[|p| - 1]);
      assert false;
    }
    ResolvePath(s, g, st, {}, x);
    var st1 := Resolve(s, g, st, {}, x).0;
    assert st1.diagnostics == [Cycle(x)];
    ReportsStay(s, g, st1, order[1..]);
    assert ResolveEach(s, g, st, order) == ResolveEach(s, g, st1, order[1..]);
    assert Reports(s, g, order)[0] == st1.diagnostics[0];
  }

  /** A line that does not end with its chain ends before the reported name of a cycle. */
  lemma EndIsCut<D>(s: Scheme<D>, g: Graph<D>, ds: seq<Diagnostic>, n: Name, k: nat)
    requires !Ends(s, g, n) && Stops(s, g, ds, n, k)
    ensures Reaches(s, g, n, End(s, g, ds, n, k)) && Cut(s, g, ds, End(s, g, ds, n, k))
  {
    EndReached(s, g, ds, n, k);
    var m := End(s, g, ds, n, k);
    var j: nat :| Up(s, g, n, j) == Some(m);
    UpAdd(s, g, n, j, 1);
    assert Up(s, g, n, j + 1).Some?;
  }

  /** If a name of the cycle is listed first, the line ends just before this name. */
  lemma EndBeforeFirst<D>(s: Scheme<D>, g: Graph<D>, order: seq<Name>, n: Name, x: Name, k: nat)
    requires SetOf(order) == g.Keys && order != [] && order[0] == x && x in g
    requires OnCycle(s, g, x) && Reaches(s, g, n, x) && !Ends(s, g, n) && Stops(s, g, Reports(s, g, order), n, k)
    ensures Next(s, g, End(s, g, Reports(s, g, order), n, k)) == Some(x)
  {
    hide ResolveEach;
    var ds := Reports(s, g, order);
    var m := End(s, g, ds, n, k);
    EndIsCut(s, g, ds, n, k);
    FirstReported(s, g, x, order);
    SameCycle(s, g, n, m, x);
    var c := Next(s, g, m).value;
    assert Up(s, g, c, 0) == Some(c);
    assert Up(s, g, m, 1) == Some(c);
    EverythingReported(s, g, order);
    assert m in g;
    var i :| 0 <= i < |ds| && ds[i] == Cycle(x);
    var j :| 0 <= j < |ds| && ds[j] == Cycle(c);
    assert IsReportOf(s, g, ds[i], m) && IsReportOf(s, g, ds[j], m);
  }

  lemma StopsSomewhere<D>(s: Scheme<D>, g: Graph<D>, order: seq<Name>, n: Name) returns (k: nat)
    requires SetOf(order) == g.Keys && n in g
    ensures Stops(s, g, Reports(s, g, order), n, k)
  {
    ValueOnEveryGraph(s, g, order, n);
    k :| Stops(s, g, Reports(s, g, order), n, k);
  }

  lemma LoopingIsRelevant<D>(s: Scheme<D>, g: Graph<D>, n: Name)
    requires n in g && !Ends(s, g, n) && !RunsIntoSelf(s, g, n)
    ensures !OrderIrrelevant(s, g, n)
  {
    hide Stops, Line, Reports, Ends;
    var o := ListedFirst(g, n);
    var k := StopsSomewhere(s, g, o, n);
    var m := End(s, g, Reports(s, g, o), n, k);
    EndIsCut(s, g, Reports(s, g, o), n, k);
    var c := Next(s, g, m).value;
    CycleStep(s, g, m);
    assert Up(s, g, c, 0) == Some(c);
    assert Up(s, g, m, 1) == Some(c);
    ReachesTransitively(s, g, n, m, c);
    var a := ListedFirst(g, c);
    var b := ListedFirst(g, m);
    var j := StopsSomewhere(s, g, a, n);
    var l := StopsSomewhere(s, g, b, n);
    EndBeforeFirst(s, g, a, n, c, j);
    EndBeforeFirst(s, g, b, n, m, l);
    assert Line(s, g, Reports(s, g, a), n, j) != Line(s, g, Reports(s, g, b), n, l);
  }

  /**
   * The dictionary order has no influence on which definitions are merged for a name exactly if its
   * chain of bases ends, or runs into a name that is its own base.
   */
  lemma OrderIrrelevantIff<D>(s: Scheme<D>, g: Graph<D>, n: Name)
    requires n in g
    ensures OrderIrrelevant(s, g, n) <==> Ends(s, g, n) || RunsIntoSelf(s, g, n)
  {
    hide OrderIrrelevant, Ends, RunsIntoSelf;
    if Ends(s, g, n) || RunsIntoSelf(s, g, n) {
      EndingIsIrrelevant(s, g, n);
    } else {
      LoopingIsRelevant(s, g, n);
    }
  }

  /** Under this condition the value itself is the same in every order. */
  lemma SameValue<D>(s: Scheme<D>, g: Graph<D>, a: seq<Name>, b: seq<Name>, n: Name)
    requires Lists(g, a) && Lists(g, b) && n in g && (Ends(s, g, n) || RunsIntoSelf(s, g, n))
    ensures var ra, rb := ResolveEach(s, g, State(map[], []), a).resolved, ResolveEach(s, g, State(map[], []), b).resolved;
            n in ra && n in rb && ra[n] == rb[n]
  {
    hide Stops, Line, Ends, ResolveEach, MergeLine;
    EndingIsIrrelevant(s, g, n);
    ValueOnEveryGraph(s, g, a, n);
    ValueOnEveryGraph(s, g, b, n);
    var j: nat :| Stops(s, g, Reports(s, g, a), n, j);
    var k: nat :| Stops(s, g, Reports(s, g, b), n, k);
  }
}
