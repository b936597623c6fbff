/**
 * Inheritance of configuration profiles and themes: a memoized search over a graph in which every
 * definition names at most one base. Profiles and themes use the same search with their own merge.
 */
module Inheritance {
  import opened Text

  type Name = string

  /** What the `base` key of a definition says. */
  datatype Base = NoBase | Named(name: Name) | NotAName

  datatype Diagnostic = UnknownBase(name: Name) | Cycle(name: Name)

  /** Where a definition has its base, how it is merged over one, and what an empty one is. */
  datatype Scheme<!D> = Scheme(baseOf: D -> Base, merge: (D, D) -> D, empty: D)

  type Graph<D> = map<Name, D>

  // ------------------------------------------------------------------ the graph

  /** The base that the resolution of `n` follows. */
  function Next<D>(s: Scheme<D>, g: Graph<D>, n: Name): Option<Name> {
    if n in g && s.baseOf(g[n]).Named? && s.baseOf(g[n]).name in g then Some(s.baseOf(g[n]).name) else None
  }

  predicate BadBase<D>(s: Scheme<D>, g: Graph<D>, n: Name) {
    n in g && s.baseOf(g[n]) != NoBase && Next(s, g, n) == None
  }

  /** The ancestor `k` steps up. */
  function Up<D>(s: Scheme<D>, g: Graph<D>, n: Name, k: nat): Option<Name>
    decreases k
  {
    if k == 0 then Some(n)
    else
      match Next(s, g, n)
      case None => None
      case Some(b) => Up(s, g, b, k - 1)
  }

  ghost predicate OnCycle<D>(s: Scheme<D>, g: Graph<D>, n: Name) {
    exists k: nat :: k > 0 && Up(s, g, n, k) == Some(n)
  }

  ghost predicate Reaches<D>(s: Scheme<D>, g: Graph<D>, n: Name, m: Name) {
    exists k: nat :: Up(s, g, n, k) == Some(m)
  }

  lemma {:induction false} UpAdd<D>(s: Scheme<D>, g: Graph<D>, n: Name, j: nat, k: nat)
    requires Up(s, g, n, j).Some?
    ensures Up(s, g, n, j + k) == Up(s, g, Up(s, g, n, j).value, k)
    decreases j
  {
    if j > 0 {
      UpAdd(s, g, Next(s, g, n).value, j - 1, k);
    }
  }

  lemma ReachesTransitively<D>(s: Scheme<D>, g: Graph<D>, a: Name, b: Name, c: Name)
    requires Reaches(s, g, a, b) && Reaches(s, g, b, c)
    ensures Reaches(s, g, a, c)
  {
    var j: nat :| Up(s, g, a, j) == Some(b);
    var k: nat :| Up(s, g, b, k) == Some(c);
    UpAdd(s, g, a, j, k);
  }

  /** A step up from a cycle stays on it. */
  lemma CycleStep<D>(s: Scheme<D>, g: Graph<D>, n: Name)
    requires OnCycle(s, g, n)
    ensures Next(s, g, n).Some? && OnCycle(s, g, Next(s, g, n).value) && Reaches(s, g, Next(s, g, n).value, n)
  {
    var k: nat :| k > 0 && Up(s, g, n, k) == Some(n);
    var b := Next(s, g, n).value;
    assert Up(s, g, b, k - 1) == Some(n);
    UpAdd(s, g, b, k - 1, 1);
    assert Up(s, g, n, 1) == Some(b) by { assert Up(s, g, b, 0) == Some(b); }
    assert Up(s, g, b, k) == Some(b);
  }

  /** On a cycle everything that is reached reaches back. */
  lemma {:induction false} CycleBack<D>(s: Scheme<D>, g: Graph<D>, n: Name, k: nat)
    requires OnCycle(s, g, n)
    ensures Up(s, g, n, k).Some? && OnCycle(s, g, Up(s, g, n, k).value) && Reaches(s, g, Up(s, g, n, k).value, n)
    decreases k
  {
    if k == 0 {
      assert Up(s, g, n, 0) == Some(n);
    } else {
      CycleStep(s, g, n);
      var b := Next(s, g, n).value;
      CycleBack(s, g, b, k - 1);
      ReachesTransitively(s, g, Up(s, g, n, k).value, b, n);
    }
  }

  /** A chain that ends meets no cycle. */
  lemma GroundedIsOffCycle<D>(s: Scheme<D>, g: Graph<D>, n: Name, k: nat)
    requires Up(s, g, n, k) == None
    ensures !OnCycle(s, g, n)
  {
    if OnCycle(s, g, n) {
      CycleBack(s, g, n, k);
    }
  }

  // ------------------------------------------------------ specification functions

  datatype State<D> = State(resolved: map<Name, D>, diagnostics: seq<Diagnostic>)

  /** Resolution of one name while the names in `visiting` are being resolved. */
  function Resolve<D>(s: Scheme<D>, g: Graph<D>, st: State<D>, visiting: set<Name>, n: Name): (r: (State<D>, D))
    requires n in g && visiting <= g.Keys
    decreases g.Keys - visiting
  {
    if n in st.resolved then (st, st.resolved[n])
    else if n in visiting then (st.(diagnostics := st.diagnostics + [Cycle(n)]), s.empty)
    else
      var (st1, base) :=
        match Next(s, g, n)
        case Some(b) => Resolve(s, g, st, visiting + {n}, b)
        case None =>
          ((if BadBase(s, g, n) then st.(diagnostics := st.diagnostics + [UnknownBase(n)]) else st), s.empty);
      var merged := s.merge(base, g[n]);
      (st1.(resolved := st1.resolved[n := merged]), merged)
  }

  /** Resolution of every name in dictionary order. */
  function ResolveEach<D>(s: Scheme<D>, g: Graph<D>, st: State<D>, order: seq<Name>): State<D>
    requires forall n :: n in order ==> n in g
    decreases |order|
  {
    if order == [] then st
    else ResolveEach(s, g, Resolve(s, g, st, {}, order[0]).0, order[1..])
  }

  // ------------------------------------------------------------------ the class

  class Resolver<D> {
    const scheme: Scheme<D>
    const definitions: Graph<D>
    var resolved: map<Name, D>
    var visiting: set<Name>
    var diagnostics: seq<Diagnostic>

    constructor (scheme: Scheme<D>, definitions: Graph<D>)
      ensures this.scheme == scheme && this.definitions == definitions
      ensures Contents() == State(map[], []) && visiting == {}
    {
      this.scheme, this.definitions := scheme, definitions;
      resolved, visiting, diagnostics := map[], {}, [];
    }

    function Contents(): State<D>
      reads this
    {
      State(resolved, diagnostics)
    }

    /** The recursive closure `resolve`. */
    method ResolveName(name: Name) returns (r: D)
      requires name in definitions && visiting <= definitions.Keys
      modifies this
      ensures visiting == old(visiting)
      ensures (Contents(), r) == Resolve(scheme, definitions, old(Contents()), old(visiting), name)
      decreases definitions.Keys - visiting
    {
      if name in resolved {
        return resolved[name];
      }
      if name in visiting {
        diagnostics := diagnostics + [Cycle(name)];
        return scheme.empty;
      }
      visiting := visiting + {name};
      var base := scheme.empty;
      var declared := scheme.baseOf(definitions[name]);
      if declared != NoBase {
        if declared == NotAName || declared.name !in definitions {
          diagnostics := diagnostics + [UnknownBase(name)];
        } else {
          base := ResolveName(declared.name);
        }
      }
      r := scheme.merge(base, definitions[name]);
      visiting := visiting - {name};
      resolved := resolved[name := r];
    }

    /** `resolve_profiles` and `resolve_themes` after the definitions have been put together. */
    method ResolveAll(order: seq<Name>)
      requires forall n :: n in order ==> n in definitions
      requires visiting == {}
      modifies this
      ensures visiting == {}
      ensures Contents() == ResolveEach(scheme, definitions, old(Contents()), order)
    {
      assert order[0..] == order;
      for i := 0 to |order|
        invariant visiting == {}
        invariant forall n :: n in order[i..] ==> n in order
        invariant ResolveEach(scheme, definitions, old(Contents()), order) ==
                  ResolveEach(scheme, definitions, Contents(), order[i..])
      {
        assert order[i..][1..] == order[i + 1..];
        var _ := ResolveName(order[i]);
      }
    }
  }
}
