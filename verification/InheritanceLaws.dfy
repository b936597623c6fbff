/** What the resolver guarantees for every graph of bases, cyclic or not, in every dictionary order. */
module InheritanceLaws {
  import opened Text
  import opened Inheritance

  // --------------------------------------------------- the names one call visits

  datatype End = Known | Loop(name: Name) | Bad(name: Name) | Root

  /** The unresolved names from `n` upwards, and why they stop. */
  function Path<D>(s: Scheme<D>, g: Graph<D>, known: set<Name>, visiting: set<Name>, n: Name): (seq<Name>, End)
    requires n in g && visiting <= g.Keys
    decreases g.Keys - visiting
  {
    if n in known then ([], Known)
    else if n in visiting then ([], Loop(n))
    else
      match Next(s, g, n)
      case None => ([n], if BadBase(s, g, n) then Bad(n) else Root)
      case Some(b) =>
        var (p, end) := Path(s, g, known, visiting + {n}, b);
        ([n] + p, end)
  }

  function Reported(end: End): seq<Diagnostic> {
    match end
    case Loop(n) => [Cycle(n)]
    case Bad(n) => [UnknownBase(n)]
    case _ => []
  }

  /** A call resolves exactly the names on its path and reports exactly its end. */
  lemma {:induction false} ResolvePath<D>(s: Scheme<D>, g: Graph<D>, st: State<D>, visiting: set<Name>, n: Name)
    requires n in g && visiting <= g.Keys
    ensures var (st', r) := Resolve(s, g, st, visiting, n);
            var (p, end) := Path(s, g, st.resolved.Keys, visiting, n);
            && st'.resolved.Keys == st.resolved.Keys + SetOf(p)
            && st'.diagnostics == st.diagnostics + Reported(end)
            && (forall m :: m in st.resolved && m !in p ==> st'.resolved[m] == st.resolved[m])
    decreases g.Keys - visiting
  {
    var (p, end) := Path(s, g, st.resolved.Keys, visiting, n);
    if n !in st.resolved && n !in visiting && Next(s, g, n).Some? {
      var b := Next(s, g, n).value;
      ResolvePath(s, g, st, visiting + {n}, b);
      var (q, end') := Path(s, g, st.resolved.Keys, visiting + {n}, b);
      assert SetOf([n] + q) == {n} + SetOf(q);
    } else if n !in st.resolved && n !in visiting {
      assert SetOf([n]) == {n};
    }
  }

  /** The names of a path are new, distinct and follow one another. */
  ghost predicate Chain<D>(s: Scheme<D>, g: Graph<D>, p: seq<Name>) {
    && (forall i :: 0 <= i < |p| ==> p[i] in g)
    && (forall i :: 0 <= i < |p| - 1 ==> Next(s, g, p[i]) == Some(p[i + 1]))
    && (forall i, j :: 0 <= i < j < |p| ==> p[i] != p[j])
  }

  lemma {:induction false} PathFacts<D>(s: Scheme<D>, g: Graph<D>, known: set<Name>, visiting: set<Name>, n: Name)
    requires n in g && visiting <= g.Keys
    ensures var (p, end) := Path(s, g, known, visiting, n);
            && Chain(s, g, p) && (p != [] ==> p[0] == n)
            && (forall m :: m in p ==> m !in known && m !in visiting)
            && (n !in known && n !in visiting ==> p != [])
    ensures var (p, end) := Path(s, g, known, visiting, n);
            match end
            case Known => if p == [] then n in known else Next(s, g, p[|p| - 1]).Some? && Next(s, g, p[|p| - 1]).value in known
            case Loop(c) => (c in visiting || c in p) && if p == [] then c == n else Next(s, g, p[|p| - 1]) == Some(c)
            case Bad(x) => p != [] && x == p[|p| - 1] && BadBase(s, g, x)
            case Root => p != [] && Next(s, g, p[|p| - 1]) == None && !BadBase(s, g, p[|p| - 1])
    ensures var (p, end) := Path(s, g, known, visiting, n);
            forall i :: 0 <= i < |p| && BadBase(s, g, p[i]) ==> end == Bad(p[i])
    decreases g.Keys - visiting
  {
    if n !in known && n !in visiting && Next(s, g, n).Some? {
      var b := Next(s, g, n).value;
      PathFacts(s, g, known, visiting + {n}, b);
      var (q, end') := Path(s, g, known, visiting + {n}, b);
      assert forall m :: m in [n] + q <==> m == n || m in q;
    }
  }

  lemma {:induction false} ChainReaches<D>(s: Scheme<D>, g: Graph<D>, p: seq<Name>, i: nat, j: nat)
    requires Chain(s, g, p) && i <= j < |p|
    ensures Up(s, g, p[i], j - i) == Some(p[j]) && Reaches(s, g, p[i], p[j])
    decreases j - i
  {
    if i < j {
      ChainReaches(s, g, p, i + 1, j);
      assert Next(s, g, p[i]) == Some(p[i + 1]);
    }
  }

  // ------------------------------------------------------- reports, exactly once

  /** The diagnostic is about the cycle that `m` is on. */
  ghost predicate IsReportOf<D>(s: Scheme<D>, g: Graph<D>, d: Diagnostic, m: Name) {
    d.Cycle? && Reaches(s, g, m, d.name)
  }

  ghost predicate CycleReportedOnce<D>(s: Scheme<D>, g: Graph<D>, ds: seq<Diagnostic>, m: Name) {
    exists i :: 0 <= i < |ds| && IsReportOf(s, g, ds[i], m)
                && forall j :: 0 <= j < |ds| && IsReportOf(s, g, ds[j], m) ==> j == i
  }

  ghost predicate BadBaseReportedOnce(ds: seq<Diagnostic>, m: Name) {
    exists i :: 0 <= i < |ds| && ds[i] == UnknownBase(m) && forall j :: 0 <= j < |ds| && ds[j] == UnknownBase(m) ==> j == i
  }

  ghost predicate Closed<D>(s: Scheme<D>, g: Graph<D>, known: set<Name>) {
    forall m :: m in known ==> m in g && (Next(s, g, m).Some? ==> Next(s, g, m).value in known)
  }

  /** What holds between top-level calls. */
  ghost predicate CyclesReported<D>(s: Scheme<D>, g: Graph<D>, known: set<Name>, ds: seq<Diagnostic>) {
    && (forall m :: m in known && OnCycle(s, g, m) ==> CycleReportedOnce(s, g, ds, m))
    && (forall i :: 0 <= i < |ds| && ds[i].Cycle? ==> ds[i].name in known && OnCycle(s, g, ds[i].name))
  }

  ghost predicate BadBasesReported<D>(s: Scheme<D>, g: Graph<D>, known: set<Name>, ds: seq<Diagnostic>) {
    && (forall m :: m in known && BadBase(s, g, m) ==> BadBaseReportedOnce(ds, m))
    && (forall i :: 0 <= i < |ds| && ds[i].UnknownBase? ==> ds[i].name in known && BadBase(s, g, ds[i].name))
  }

  lemma {:induction false} ClosedUp<D>(s: Scheme<D>, g: Graph<D>, known: set<Name>, m: Name, k: nat)
    requires Closed(s, g, known) && m in known && Up(s, g, m, k).Some?
    ensures Up(s, g, m, k).value in known
    decreases k
  {
    if k > 0 {
      ClosedUp(s, g, known, Next(s, g, m).value, k - 1);
    }
  }

  lemma ClosedReach<D>(s: Scheme<D>, g: Graph<D>, known: set<Name>, m: Name, x: Name)
    requires Closed(s, g, known) && m in known && Reaches(s, g, m, x)
    ensures x in known
  {
    var k: nat :| Up(s, g, m, k) == Some(x);
    ClosedUp(s, g, known, m, k);
  }

  /** Something on a cycle that reaches a known name is itself known. */
  lemma CycleIsKnown<D>(s: Scheme<D>, g: Graph<D>, known: set<Name>, m: Name, x: Name)
    requires Closed(s, g, known) && x in known && OnCycle(s, g, m) && Reaches(s, g, m, x)
    ensures m in known
  {
    var k: nat :| Up(s, g, m, k) == Some(x);
    CycleBack(s, g, m, k);
    ClosedReach(s, g, known, x, m);
  }

  lemma PathClosed<D>(s: Scheme<D>, g: Graph<D>, known: set<Name>, n: Name)
    requires n in g && Closed(s, g, known)
    ensures Closed(s, g, known + SetOf(Path(s, g, known, {}, n).0))
  {
    PathFacts(s, g, known, {}, n);
    var (p, end) := Path(s, g, known, {}, n);
    forall m | m in p && Next(s, g, m).Some?
      ensures Next(s, g, m).value in known + SetOf(p)
    {
      var i :| 0 <= i < |p| && p[i] == m;
      assert i < |p| - 1 ==> Next(s, g, p[i]) == Some(p[i + 1]);
    }
  }

  /** A new name is on a cycle only if the path ends by looping, and then it leads to the reported name. */
  lemma NewCycle<D>(s: Scheme<D>, g: Graph<D>, known: set<Name>, n: Name, m: Name)
    requires n in g && Closed(s, g, known)
    requires m in Path(s, g, known, {}, n).0 && OnCycle(s, g, m)
    ensures var end := Path(s, g, known, {}, n).1; end.Loop? && Reaches(s, g, m, end.name)
  {
    hide Path, Chain, BadBase;
    PathFacts(s, g, known, {}, n);
    var (p, end) := Path(s, g, known, {}, n);
    var i :| 0 <= i < |p| && p[i] == m;
    var last := p[|p| - 1];
    ChainReaches(s, g, p, i, |p| - 1);
    CycleBack(s, g, m, |p| - 1 - i);
    CycleStep(s, g, last);
    var b := Next(s, g, last).value;
    assert Reaches(s, g, last, b) by {
      assert Up(s, g, b, 0) == Some(b);
      assert Up(s, g, last, 1) == Some(b);
    }
    ReachesTransitively(s, g, m, last, b);
    if end == Known {
      CycleIsKnown(s, g, known, m, b);
    }
  }

  /** The name that a loop reports is on the cycle, and new. */
  lemma LoopIsCycle<D>(s: Scheme<D>, g: Graph<D>, known: set<Name>, n: Name)
    requires n in g && Path(s, g, known, {}, n).1.Loop?
    ensures var c := Path(s, g, known, {}, n).1.name; OnCycle(s, g, c) && c !in known && c in Path(s, g, known, {}, n).0
  {
    PathFacts(s, g, known, {}, n);
    var (p, end) := Path(s, g, known, {}, n);
    var i :| 0 <= i < |p| && p[i] == end.name;
    ChainReaches(s, g, p, i, |p| - 1);
    UpAdd(s, g, p[i], |p| - 1 - i, 1);
    assert Up(s, g, end.name, 0) == Some(end.name);
    assert Up(s, g, p[|p| - 1], 1) == Some(end.name);
    assert Up(s, g, end.name, |p| - 1 - i + 1) == Some(end.name);
  }

  lemma CyclesStep<D>(s: Scheme<D>, g: Graph<D>, known: set<Name>, ds: seq<Diagnostic>, n: Name)
    requires n in g && Closed(s, g, known) && CyclesReported(s, g, known, ds)
    ensures var (p, end) := Path(s, g, known, {}, n);
            CyclesReported(s, g, known + SetOf(p), ds + Reported(end))
  {
    var (p, end) := Path(s, g, known, {}, n);
    var ds' := ds + Reported(end);
    if end.Loop? {
      LoopIsCycle(s, g, known, n);
    }
    forall m | m in known + SetOf(p) && OnCycle(s, g, m)
      ensures CycleReportedOnce(s, g, ds', m)
    {
      if m in known {
        OldCycleReported(s, g, known, ds, ds', end, m);
      } else {
        NewCycle(s, g, known, n, m);
        NewCycleReported(s, g, known, ds, end.name, m);
      }
    }
    forall i | 0 <= i < |ds'| && ds'[i].Cycle?
      ensures ds'[i].name in known + SetOf(p) && OnCycle(s, g, ds'[i].name)
    {
      if i < |ds| {
        assert ds'[i] == ds[i];
      }
    }
  }

  lemma OldCycleReported<D>(s: Scheme<D>, g: Graph<D>, known: set<Name>, ds: seq<Diagnostic>, ds': seq<Diagnostic>,
                            end: End, m: Name)
    requires Closed(s, g, known) && CyclesReported(s, g, known, ds) && ds' == ds + Reported(end)
    requires end.Loop? ==> end.name !in known
    requires m in known && OnCycle(s, g, m)
    ensures CycleReportedOnce(s, g, ds', m)
  {
    var i :| 0 <= i < |ds| && IsReportOf(s, g, ds[i], m)
             && forall j :: 0 <= j < |ds| && IsReportOf(s, g, ds[j], m) ==> j == i;
    forall j | 0 <= j < |ds'| && IsReportOf(s, g, ds'[j], m)
      ensures j == i
    {
      if j < |ds| {
        assert ds'[j] == ds[j];
      } else {
        ClosedReach(s, g, known, m, ds'[j].name);
      }
    }
    assert ds'[i] == ds[i];
  }

  lemma NewCycleReported<D>(s: Scheme<D>, g: Graph<D>, known: set<Name>, ds: seq<Diagnostic>, c: Name, m: Name)
    requires Closed(s, g, known) && CyclesReported(s, g, known, ds)
    requires m !in known && OnCycle(s, g, m) && Reaches(s, g, m, c)
    ensures CycleReportedOnce(s, g, ds + [Cycle(c)], m)
  {
    var ds' := ds + [Cycle(c)];
    assert IsReportOf(s, g, ds'[|ds|], m);
    forall j | 0 <= j < |ds'| && IsReportOf(s, g, ds'[j], m)
      ensures j == |ds|
    {
      if j < |ds| {
        assert ds'[j] == ds[j];
        CycleIsKnown(s, g, known, m, ds[j].name);
      }
    }
  }

  lemma BadBasesStep<D>(s: Scheme<D>, g: Graph<D>, known: set<Name>, ds: seq<Diagnostic>, n: Name)
    requires n in g && BadBasesReported(s, g, known, ds)
    ensures var (p, end) := Path(s, g, known, {}, n);
            BadBasesReported(s, g, known + SetOf(p), ds + Reported(end))
  {
    var (p, end) := Path(s, g, known, {}, n);
    var ds' := ds + Reported(end);
    PathFacts(s, g, known, {}, n);
    hide Path, BadBase;
    forall m | m in known + SetOf(p) && BadBase(s, g, m)
      ensures BadBaseReportedOnce(ds', m)
    {
      if m in known {
        OldBadBase(ds, Reported(end), m);
      } else {
        assert end == Bad(m);
        NewBadBase(ds, m);
      }
    }
    forall i | 0 <= i < |ds'| && ds'[i].UnknownBase?
      ensures ds'[i].name in known + SetOf(p) && BadBase(s, g, ds'[i].name)
    {
      assert i < |ds| ==> ds'[i] == ds[i];
    }
  }

  lemma OldBadBase(ds: seq<Diagnostic>, more: seq<Diagnostic>, m: Name)
    requires BadBaseReportedOnce(ds, m) && UnknownBase(m) !in more
    ensures BadBaseReportedOnce(ds + more, m)
  {
    var i :| 0 <= i < |ds| && ds[i] == UnknownBase(m) && forall j :: 0 <= j < |ds| && ds[j] == UnknownBase(m) ==> j == i;
    assert (ds + more)[i] == ds[i];
    assert forall j :: |ds| <= j < |ds + more| ==> (ds + more)[j] in more;
    forall j | 0 <= j < |ds + more| && (ds + more)[j] == UnknownBase(m)
      ensures j == i
    {
      assert j < |ds| ==> (ds + more)[j] == ds[j];
    }
  }

  lemma NewBadBase(ds: seq<Diagnostic>, m: Name)
    requires UnknownBase(m) !in ds
    ensures BadBaseReportedOnce(ds + [UnknownBase(m)], m)
  {
    var ds' := ds + [UnknownBase(m)];
    assert ds'[|ds|] == UnknownBase(m);
    assert forall j :: 0 <= j < |ds| ==> ds'[j] in ds;
  }

  lemma {:induction false} EachReported<D>(s: Scheme<D>, g: Graph<D>, st: State<D>, order: seq<Name>)
    requires forall n :: n in order ==> n in g
    requires Closed(s, g, st.resolved.Keys)
    requires CyclesReported(s, g, st.resolved.Keys, st.diagnostics)
    requires BadBasesReported(s, g, st.resolved.Keys, st.diagnostics)
    ensures var st' := ResolveEach(s, g, st, order);
            && Closed(s, g, st'.resolved.Keys)
            && CyclesReported(s, g, st'.resolved.Keys, st'.diagnostics)
            && BadBasesReported(s, g, st'.resolved.Keys, st'.diagnostics)
            && st.resolved.Keys <= st'.resolved.Keys
            && forall n :: n in order ==> n in st'.resolved
    decreases |order|
  {
    hide Closed, CyclesReported, BadBasesReported, Path, Resolve;
    if order != [] {
      var n := order[0];
      var known := st.resolved.Keys;
      ResolvePath(s, g, st, {}, n);
      PathClosed(s, g, known, n);
      CyclesStep(s, g, known, st.diagnostics, n);
      BadBasesStep(s, g, known, st.diagnostics, n);
      PathFacts(s, g, known, {}, n);
      EachReported(s, g, Resolve(s, g, st, {}, n).0, order[1..]);
    }
  }

  /**
   * For every graph of bases and every dictionary order: each definition is resolved; every cycle is
   * reported exactly once, by the name of one of its members; every bad base is reported exactly
   * once; and nothing else is reported.
   */
  lemma EverythingReported<D>(s: Scheme<D>, g: Graph<D>, order: seq<Name>)
    requires SetOf(order) == g.Keys
    ensures var st := ResolveEach(s, g, State(map[], []), order);
            && st.resolved.Keys == g.Keys
            && (forall m :: m in g && OnCycle(s, g, m) ==> CycleReportedOnce(s, g, st.diagnostics, m))
            && (forall m :: m in g && BadBase(s, g, m) ==> BadBaseReportedOnce(st.diagnostics, m))
            && (forall d :: d in st.diagnostics ==>
                              d.name in g && if d.Cycle? then OnCycle(s, g, d.name) else BadBase(s, g, d.name))
  {
    assert forall n :: n in order ==> n in SetOf(order);
    assert forall n :: n in g ==> n in SetOf(order);
    EachReported(s, g, State(map[], []), order);
    var st := ResolveEach(s, g, State(map[], []), order);
    assert forall m :: m in st.resolved.Keys ==> m in g;
  }

  // -------------------------------------------------------- resolved values

  /** The definitions from the far end of the chain of `n` down to `n`, merged; `k` bounds its length. */
  function Merged<D>(s: Scheme<D>, g: Graph<D>, n: Name, k: nat): D
    requires n in g
    decreases k
  {
    match Next(s, g, n)
    case None => s.merge(s.empty, g[n])
    case Some(b) => s.merge(if k == 0 then s.empty else Merged(s, g, b, k - 1), g[n])
  }

  /** Every resolved name whose chain ends has the merged value, for every bound on the chain. */
  ghost predicate ValuesMerged<D>(s: Scheme<D>, g: Graph<D>, resolved: map<Name, D>) {
    forall m, k: nat {:trigger Up(s, g, m, k), m in resolved} ::
      m in resolved && Up(s, g, m, k) == None ==> m in g && resolved[m] == Merged(s, g, m, k)
  }

  /** Everything being visited leads to `n`, so a visited `n` is on a cycle. */
  ghost predicate LeadsTo<D>(s: Scheme<D>, g: Graph<D>, visiting: set<Name>, n: Name) {
    forall v :: v in visiting ==> exists k: nat :: k > 0 && Up(s, g, v, k) == Some(n)
  }

  lemma LeadsOn<D>(s: Scheme<D>, g: Graph<D>, visiting: set<Name>, n: Name)
    requires LeadsTo(s, g, visiting, n) && Next(s, g, n).Some?
    ensures LeadsTo(s, g, visiting + {n}, Next(s, g, n).value)
  {
    var b := Next(s, g, n).value;
    assert Up(s, g, b, 0) == Some(b);
    assert Up(s, g, n, 1) == Some(b);
    forall v | v in visiting
      ensures exists k: nat :: k > 0 && Up(s, g, v, k) == Some(b)
    {
      var k: nat :| k > 0 && Up(s, g, v, k) == Some(n);
      UpAdd(s, g, v, k, 1);
      assert Up(s, g, v, k + 1) == Some(b);
    }
  }

  lemma MergedStep<D>(s: Scheme<D>, g: Graph<D>, resolved: map<Name, D>, n: Name, base: D)
    requires n in g && ValuesMerged(s, g, resolved)
    requires Next(s, g, n) == None ==> base == s.empty
    requires Next(s, g, n).Some? ==>
               forall k: nat :: Up(s, g, Next(s, g, n).value, k) == None ==> base == Merged(s, g, Next(s, g, n).value, k)
    ensures ValuesMerged(s, g, resolved[n := s.merge(base, g[n])])
    ensures forall k: nat :: Up(s, g, n, k) == None ==> s.merge(base, g[n]) == Merged(s, g, n, k)
  {
    forall k: nat | Up(s, g, n, k) == None
      ensures s.merge(base, g[n]) == Merged(s, g, n, k)
    {
      if Next(s, g, n).Some? {
        assert Up(s, g, Next(s, g, n).value, k - 1) == None;
      }
    }
  }

  lemma {:induction false} ResolveValue<D>(s: Scheme<D>, g: Graph<D>, st: State<D>, visiting: set<Name>, n: Name)
    requires n in g && visiting <= g.Keys
    requires ValuesMerged(s, g, st.resolved) && LeadsTo(s, g, visiting, n)
    ensures var (st', r) := Resolve(s, g, st, visiting, n);
            && ValuesMerged(s, g, st'.resolved)
            && forall k: nat :: Up(s, g, n, k) == None ==> r == Merged(s, g, n, k)
    decreases g.Keys - visiting
  {
    hide ValuesMerged, LeadsTo, Merged;
    if n in st.resolved {
      assert forall k: nat :: Up(s, g, n, k) == None ==> st.resolved[n] == Merged(s, g, n, k) by {
        StoredValue(s, g, st.resolved, n);
      }
    } else if n in visiting {
      assert forall k: nat :: Up(s, g, n, k).Some? by { VisitedIsCyclic(s, g, visiting, n); }
    } else if Next(s, g, n).Some? {
      var b := Next(s, g, n).value;
      LeadsOn(s, g, visiting, n);
      ResolveValue(s, g, st, visiting + {n}, b);
      var (st1, base) := Resolve(s, g, st, visiting + {n}, b);
      MergedStep(s, g, st1.resolved, n, base);
    } else {
      MergedStep(s, g, st.resolved, n, s.empty);
    }
  }

  lemma StoredValue<D>(s: Scheme<D>, g: Graph<D>, resolved: map<Name, D>, n: Name)
    requires n in g && n in resolved && ValuesMerged(s, g, resolved)
    ensures forall k: nat :: Up(s, g, n, k) == None ==> resolved[n] == Merged(s, g, n, k)
  {
  }

  lemma VisitedIsCyclic<D>(s: Scheme<D>, g: Graph<D>, visiting: set<Name>, n: Name)
    requires LeadsTo(s, g, visiting, n) && n in visiting
    ensures forall k: nat :: Up(s, g, n, k).Some?
  {
    assert OnCycle(s, g, n);
    forall k: nat
      ensures Up(s, g, n, k).Some?
    {
      CycleBack(s, g, n, k);
    }
  }

  lemma {:induction false} EachValue<D>(s: Scheme<D>, g: Graph<D>, st: State<D>, order: seq<Name>)
    requires forall n :: n in order ==> n in g
    requires ValuesMerged(s, g, st.resolved)
    ensures ValuesMerged(s, g, ResolveEach(s, g, st, order).resolved)
    decreases |order|
  {
    hide ValuesMerged;
    if order != [] {
      assert LeadsTo(s, g, {}, order[0]);
      ResolveValue(s, g, st, {}, order[0]);
      EachValue(s, g, Resolve(s, g, st, {}, order[0]).0, order[1..]);
    }
  }

  /**
   * A definition whose chain of bases ends is resolved to the merge of its chain, so its value does
   * not depend on the dictionary order.
   */
  lemma ValueOfGrounded<D>(s: Scheme<D>, g: Graph<D>, order: seq<Name>, n: Name, k: nat)
    requires SetOf(order) == g.Keys && n in g && Up(s, g, n, k) == None
    ensures var st := ResolveEach(s, g, State(map[], []), order);
            n in st.resolved && st.resolved[n] == Merged(s, g, n, k)
  {
    assert forall m :: m in order ==> m in SetOf(order);
    EverythingReported(s, g, order);
    EachValue(s, g, State(map[], []), order);
  }

  ghost predicate MergeKeeps<D(!new)>(s: Scheme<D>, g: Graph<D>, keeps: D -> bool) {
    keeps(s.empty) && forall base: D, m: Name :: m in g && keeps(base) ==> keeps(s.merge(base, g[m]))
  }

  lemma MergeKeepsAt<D(!new)>(s: Scheme<D>, g: Graph<D>, keeps: D -> bool, base: D, n: Name)
    requires MergeKeeps(s, g, keeps) && keeps(base) && n in g
    ensures keeps(s.merge(base, g[n]))
  {
  }

  /** What every merge keeps holds of every resolved definition, on cycles too. */
  lemma {:induction false} ResolvedKeep<D(!new)>(s: Scheme<D>, g: Graph<D>, st: State<D>, visiting: set<Name>, n: Name,
                                                 keeps: D -> bool)
    requires n in g && visiting <= g.Keys
    requires MergeKeeps(s, g, keeps)
    requires forall m :: m in st.resolved ==> keeps(st.resolved[m])
    ensures var (st', r) := Resolve(s, g, st, visiting, n);
            keeps(r) && forall m :: m in st'.resolved ==> keeps(st'.resolved[m])
    decreases g.Keys - visiting
  {
    if n !in st.resolved && n !in visiting && Next(s, g, n).Some? {
      ResolvedKeep(s, g, st, visiting + {n}, Next(s, g, n).value, keeps);
      MergeKeepsAt(s, g, keeps, Resolve(s, g, st, visiting + {n}, Next(s, g, n).value).1, n);
    } else {
      MergeKeepsAt(s, g, keeps, s.empty, n);
    }
  }

  lemma {:induction false} EachKeeps<D(!new)>(s: Scheme<D>, g: Graph<D>, st: State<D>, order: seq<Name>, keeps: D -> bool)
    requires forall n :: n in order ==> n in g
    requires MergeKeeps(s, g, keeps)
    requires forall m :: m in st.resolved ==> keeps(st.resolved[m])
    ensures forall m :: m in ResolveEach(s, g, st, order).resolved ==> keeps(ResolveEach(s, g, st, order).resolved[m])
    decreases |order|
  {
    if order != [] {
      ResolvedKeep(s, g, st, {}, order[0], keeps);
      EachKeeps(s, g, Resolve(s, g, st, {}, order[0]).0, order[1..], keeps);
    }
  }

  /** A cycle of two: the name that is resolved first gets its base, the other one does not. */
  lemma TwoCycle<D>(s: Scheme<D>, g: Graph<D>, a: Name, b: Name)
    requires a != b && a in g && b in g && Next(s, g, a) == Some(b) && Next(s, g, b) == Some(a)
    ensures var resolved := ResolveEach(s, g, State(map[], []), [a, b]).resolved;
            && resolved.Keys == {a, b}
            && resolved[b] == s.merge(s.empty, g[b])
            && resolved[a] == s.merge(s.merge(s.empty, g[b]), g[a])
  {
    var st0: State<D> := State(map[], []);
    var st1 := State(map[], [Cycle(a)]);
    assert Resolve(s, g, st0, {a, b}, a) == (st1, s.empty) by { assert [] + [Cycle(a)] == [Cycle(a)]; }
    var vb := s.merge(s.empty, g[b]);
    assert {a} + {b} == {a, b};
    assert Resolve(s, g, st0, {a}, b) == (State(map[b := vb], [Cycle(a)]), vb);
    var va := s.merge(vb, g[a]);
    assert {} + {a} == {a};
    assert Resolve(s, g, st0, {}, a) == (State(map[b := vb][a := va], [Cycle(a)]), va);
    var st2 := State(map[b := vb][a := va], [Cycle(a)]);
    assert Resolve(s, g, st2, {}, b).0 == st2;
    assert [a, b][1..] == [b] && [b][1..] == [];
    assert ResolveEach(s, g, st2, [b]) == st2;
  }
}
