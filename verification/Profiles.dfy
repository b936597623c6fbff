/** Configuration values, and profiles with their section-wise merge. */
module Profiles {
  import opened Text
  import opened Inheritance
  import InheritanceLaws

  /** A configuration value: a string, a table, nothing (`None`), or something else. */
  datatype Value = Text(text: string) | Table(entries: map<string, Value>) | Nothing | Other(id: int)

  type Settings = map<string, Value>

  const BASE := "base"
  const SECTIONS := {"prompt", "editor", "completion", "history"}

  function Get(d: Settings, key: string): Option<Value> {
    if key in d then Some(d[key]) else None
  }

  function BaseOf(d: Settings): Base {
    match Get(d, BASE)
    case None => NoBase
    case Some(Nothing) => NoBase
    case Some(Text(name)) => Named(name)
    case Some(_) => NotAName
  }

  /** A table is laid over an older table; any other value replaces what was there. */
  function Overlay(older: Option<Value>, newer: Value): Value {
    if newer.Table? then
      Table((if older.Some? && older.value.Table? then older.value.entries else map[]) + newer.entries)
    else newer
  }

  /** `_merge_profile` */
  function MergeProfile(base: Settings, own: Settings): Settings {
    map key | key in base.Keys + (own.Keys - {BASE}) ::
      if key in own && key != BASE then
        if key in SECTIONS then Overlay(Get(base, key), own[key]) else own[key]
      else base[key]
  }

  /** The items of `own` outside `rest`. */
  function Except(own: Settings, rest: set<string>): Settings {
    map key | key in own && key !in rest :: own[key]
  }

  /** The loop of `_merge_profile`, in any order of the items. */
  method MergeProfileItems(base: Settings, own: Settings) returns (out: Settings)
    ensures out == MergeProfile(base, own)
    ensures out.Keys == base.Keys + (own.Keys - {"base"})
    ensures forall key :: key in out ==>
              out[key] ==
              if key !in own || key == "base" then base[key]
              else if key in {"prompt", "editor", "completion", "history"} && own[key].Table?
              then Table((if key in base && base[key].Table? then base[key].entries else map[]) + own[key].entries)
              else own[key]
  {
    hide MergeProfile;
    out := base;
    var todo := own.Keys;
    MergeNone(base);
    assert Except(own, own.Keys) == map[];
    while todo != {}
      invariant todo <= own.Keys
      invariant out == MergeProfile(base, Except(own, todo))
      decreases todo
    {
      var key :| key in todo;
      var value := own[key];
      if key in SECTIONS && value.Table? {
        var section := map[];
        if key in out && out[key].Table? {
          section := out[key].entries;
        }
        out := out[key := Table(section + value.entries)];
      } else if key != BASE {
        out := out[key := value];
      }
      MergeOneMore(base, own, todo, key);
      todo := todo - {key};
    }
    assert Except(own, {}) == own;
    MergeSays(base, own);
  }

  lemma MergeSays(base: Settings, own: Settings)
    ensures var out := MergeProfile(base, own);
            && out.Keys == base.Keys + (own.Keys - {"base"})
            && forall key :: key in out ==>
                 out[key] ==
                 if key !in own || key == "base" then base[key]
                 else if key in {"prompt", "editor", "completion", "history"} && own[key].Table?
                 then Table((if key in base && base[key].Table? then base[key].entries else map[]) + own[key].entries)
                 else own[key]
  {
  }

  lemma MergeNone(base: Settings)
    ensures MergeProfile(base, map[]) == base
  {
  }

  lemma MergeOneMore(base: Settings, own: Settings, todo: set<string>, key: string)
    requires key in todo && todo <= own.Keys
    ensures var before, after := MergeProfile(base, Except(own, todo)), MergeProfile(base, Except(own, todo - {key}));
            && Get(before, key) == Get(base, key)
            && after == if key == BASE then before
                        else before[key := if key in SECTIONS then Overlay(Get(base, key), own[key]) else own[key]]
  {
  }

  const PROFILES: Scheme<Settings> := Scheme(BaseOf, MergeProfile, map[])

  // ------------------------------------------------- lookup by nearest ancestor

  /** `n` gives the key of the section this value. */
  ghost predicate Defines(g: Graph<Settings>, n: Name, section: string, key: string, value: Value) {
    n in g && section in g[n] && g[n][section].Table? && Get(g[n][section].entries, key) == Some(value)
  }

  /** `n` leaves the key of the section to its base: no such section, or a table without the key. */
  ghost predicate Passes(g: Graph<Settings>, n: Name, section: string, key: string) {
    n in g && (section in g[n] ==> g[n][section].Table? && key !in g[n][section].entries)
  }

  /** The ancestor `j` steps up defines the key, and everything nearer passes it on. */
  ghost predicate NearestDefines(g: Graph<Settings>, n: Name, j: nat, section: string, key: string, value: Value) {
    && Up(PROFILES, g, n, j).Some? && Defines(g, Up(PROFILES, g, n, j).value, section, key, value)
    && forall i: nat :: i < j ==> Up(PROFILES, g, n, i).Some? && Passes(g, Up(PROFILES, g, n, i).value, section, key)
  }

  function Stored(d: Settings, section: string, key: string): Option<Value> {
    if section in d && d[section].Table? then Get(d[section].entries, key) else None
  }

  lemma StoredAfterMerge(base: Settings, own: Settings, section: string, key: string)
    requires section in {"prompt", "editor", "completion", "history"}
    ensures Stored(MergeProfile(base, own), section, key) ==
            if section !in own then Stored(base, section, key)
            else if !own[section].Table? then None
            else if key in own[section].entries then Some(own[section].entries[key])
            else Stored(base, section, key)
  {
    assert BASE !in SECTIONS;
  }

  lemma NearestStep(g: Graph<Settings>, n: Name, j: nat, section: string, key: string, value: Value)
    requires n in g
    ensures NearestDefines(g, n, j, section, key, value) <==>
            if j == 0 then Defines(g, n, section, key, value)
            else Passes(g, n, section, key) && Next(PROFILES, g, n).Some?
                 && NearestDefines(g, Next(PROFILES, g, n).value, j - 1, section, key, value)
  {
    hide Defines, Passes;
    assert Up(PROFILES, g, n, 0) == Some(n);
    if j > 0 {
      if Next(PROFILES, g, n).Some? {
        var b := Next(PROFILES, g, n).value;
        assert forall i: nat :: i > 0 ==> Up(PROFILES, g, n, i) == Up(PROFILES, g, b, i - 1);
        assert forall i: nat :: Up(PROFILES, g, b, i) == Up(PROFILES, g, n, i + 1);
      }
    }
  }

  lemma {:induction false} MergedLookup(g: Graph<Settings>, n: Name, k: nat, section: string, key: string, value: Value)
    requires n in g && section in {"prompt", "editor", "completion", "history"} && Up(PROFILES, g, n, k) == None
    ensures Stored(InheritanceLaws.Merged(PROFILES, g, n, k), section, key) == Some(value) <==>
            exists j: nat :: NearestDefines(g, n, j, section, key, value)
    decreases k
  {
    hide NearestDefines, MergeProfile;
    forall j: nat
      ensures NearestDefines(g, n, j, section, key, value) <==>
              if j == 0 then Defines(g, n, section, key, value)
              else Passes(g, n, section, key) && Next(PROFILES, g, n).Some?
                   && NearestDefines(g, Next(PROFILES, g, n).value, j - 1, section, key, value)
    {
      NearestStep(g, n, j, section, key, value);
    }
    if Next(PROFILES, g, n).Some? {
      var b := Next(PROFILES, g, n).value;
      MergedLookup(g, b, k - 1, section, key, value);
      StoredAfterMerge(InheritanceLaws.Merged(PROFILES, g, b, k - 1), g[n], section, key);
      if j: nat :| NearestDefines(g, b, j, section, key, value) {
        assert Passes(g, n, section, key) ==> NearestDefines(g, n, j + 1, section, key, value);
      }
    } else {
      StoredAfterMerge(map[], g[n], section, key);
    }
    assert Defines(g, n, section, key, value) ==> NearestDefines(g, n, 0, section, key, value);
  }

  /**
   * Every key of a section of a resolved profile comes from the nearest ancestor that defines it,
   * in whatever order the dictionary lists the profiles; a section that is not a table cuts the
   * inheritance of that section.
   */
  lemma SectionFromNearestAncestor(g: Graph<Settings>, order: seq<Name>, n: Name, k: nat,
                                   section: string, key: string, value: Value)
    requires SetOf(order) == g.Keys && n in g && Up(PROFILES, g, n, k) == None
    requires section in {"prompt", "editor", "completion", "history"}
    ensures var st := ResolveEach(PROFILES, g, State(map[], []), order);
            n in st.resolved &&
            (Stored(st.resolved[n], section, key) == Some(value) <==>
             exists j: nat :: NearestDefines(g, n, j, section, key, value))
  {
    InheritanceLaws.ValueOfGrounded(PROFILES, g, order, n, k);
    MergedLookup(g, n, k, section, key, value);
  }

  /** The ancestor `j` steps up has the key, and no nearer one has it. */
  ghost predicate NearestHas(g: Graph<Settings>, n: Name, j: nat, key: string, value: Value) {
    && Up(PROFILES, g, n, j).Some? && Up(PROFILES, g, n, j).value in g && Get(g[Up(PROFILES, g, n, j).value], key) == Some(value)
    && forall i: nat :: i < j ==>
         Up(PROFILES, g, n, i).Some? && Up(PROFILES, g, n, i).value in g && key !in g[Up(PROFILES, g, n, i).value]
  }

  lemma NearestHasStep(g: Graph<Settings>, n: Name, j: nat, key: string, value: Value)
    requires n in g
    ensures NearestHas(g, n, j, key, value) <==>
            if j == 0 then Get(g[n], key) == Some(value)
            else key !in g[n] && Next(PROFILES, g, n).Some? && NearestHas(g, Next(PROFILES, g, n).value, j - 1, key, value)
  {
    assert Up(PROFILES, g, n, 0) == Some(n);
    if j > 0 && Next(PROFILES, g, n).Some? {
      var b := Next(PROFILES, g, n).value;
      assert forall i: nat :: i > 0 ==> Up(PROFILES, g, n, i) == Up(PROFILES, g, b, i - 1);
      assert forall i: nat :: Up(PROFILES, g, b, i) == Up(PROFILES, g, n, i + 1);
    }
  }

  lemma {:induction false} MergedPlain(g: Graph<Settings>, n: Name, k: nat, key: string, value: Value)
    requires n in g && key !in {"prompt", "editor", "completion", "history", "base"} && Up(PROFILES, g, n, k) == None
    ensures Get(InheritanceLaws.Merged(PROFILES, g, n, k), key) == Some(value) <==>
            exists j: nat :: NearestHas(g, n, j, key, value)
    decreases k
  {
    hide NearestHas, MergeProfile;
    forall j: nat
      ensures NearestHas(g, n, j, key, value) <==>
              if j == 0 then Get(g[n], key) == Some(value)
              else key !in g[n] && Next(PROFILES, g, n).Some? && NearestHas(g, Next(PROFILES, g, n).value, j - 1, key, value)
    {
      NearestHasStep(g, n, j, key, value);
    }
    if Next(PROFILES, g, n).Some? {
      var b := Next(PROFILES, g, n).value;
      MergedPlain(g, b, k - 1, key, value);
      PlainAfterMerge(InheritanceLaws.Merged(PROFILES, g, b, k - 1), g[n], key);
      if j: nat :| NearestHas(g, b, j, key, value) {
        assert key !in g[n] ==> NearestHas(g, n, j + 1, key, value);
      }
    } else {
      PlainAfterMerge(map[], g[n], key);
    }
    assert Get(g[n], key) == Some(value) ==> NearestHas(g, n, 0, key, value);
  }

  lemma PlainAfterMerge(base: Settings, own: Settings, key: string)
    requires key !in {"prompt", "editor", "completion", "history", "base"}
    ensures Get(MergeProfile(base, own), key) == if key in own then Some(own[key]) else Get(base, key)
  {
  }

  /** Every other key of a resolved profile has the whole value of the nearest ancestor that has the key. */
  lemma PlainFromNearestAncestor(g: Graph<Settings>, order: seq<Name>, n: Name, k: nat, key: string, value: Value)
    requires SetOf(order) == g.Keys && n in g && Up(PROFILES, g, n, k) == None
    requires key !in {"prompt", "editor", "completion", "history", "base"}
    ensures var st := ResolveEach(PROFILES, g, State(map[], []), order);
            n in st.resolved &&
            (Get(st.resolved[n], key) == Some(value) <==> exists j: nat :: NearestHas(g, n, j, key, value))
  {
    InheritanceLaws.ValueOfGrounded(PROFILES, g, order, n, k);
    MergedPlain(g, n, k, key, value);
  }

  /** No `base` key survives resolution, on any graph. */
  lemma NoBaseSurvives(g: Graph<Settings>, order: seq<Name>)
    requires SetOf(order) == g.Keys
    ensures var st := ResolveEach(PROFILES, g, State(map[], []), order);
            st.resolved.Keys == g.Keys && forall n :: n in st.resolved ==> "base" !in st.resolved[n]
  {
    assert forall m :: m in order ==> m in SetOf(order);
    InheritanceLaws.EverythingReported(PROFILES, g, order);
    InheritanceLaws.EachKeeps(PROFILES, g, State(map[], []), order, d => BASE !in d);
  }

  // ------------------------------------------------------- resolving profiles

  /** `resolve_profiles`: user profiles replace built-in ones of the same name. */
  method ResolveProfiles(builtin: Graph<Settings>, user: Graph<Settings>, order: seq<Name>)
    returns (resolved: map<Name, Settings>, diagnostics: seq<Diagnostic>)
    requires SetOf(order) == builtin.Keys + user.Keys
    ensures State(resolved, diagnostics) == ResolveEach(PROFILES, builtin + user, State(map[], []), order)
    ensures resolved.Keys == builtin.Keys + user.Keys
    ensures forall n :: UnknownBase(n) in diagnostics <==>
              var own := if n in user then user[n] else if n in builtin then builtin[n] else map[];
              && "base" in own && own["base"] != Nothing
              && !(own["base"].Text? && (own["base"].text in builtin || own["base"].text in user))
  {
    var profiles := builtin + user;
    var r := new Resolver(PROFILES, profiles);
    assert forall m :: m in order ==> m in SetOf(order);
    r.ResolveAll(order);
    resolved, diagnostics := r.resolved, r.diagnostics;
    InheritanceLaws.EverythingReported(PROFILES, profiles, order);
    BadBases(PROFILES, profiles, diagnostics);
    forall n
      ensures BadBase(PROFILES, profiles, n) <==>
              n in profiles && "base" in profiles[n] && profiles[n]["base"] != Nothing
              && !(profiles[n]["base"].Text? && profiles[n]["base"].text in profiles)
    {
      BaseIsBad(profiles, n);
    }
  }

  lemma BaseIsBad(profiles: Graph<Settings>, n: Name)
    ensures BadBase(PROFILES, profiles, n) <==>
            n in profiles && "base" in profiles[n] && profiles[n]["base"] != Nothing
            && !(profiles[n]["base"].Text? && profiles[n]["base"].text in profiles)
  {
  }

  /** A bad base is reported exactly where there is one. */
  lemma BadBases<D>(s: Scheme<D>, g: Graph<D>, diagnostics: seq<Diagnostic>)
    requires forall m :: m in g && BadBase(s, g, m) ==> InheritanceLaws.BadBaseReportedOnce(diagnostics, m)
    requires forall d :: d in diagnostics ==> d.name in g && (d.UnknownBase? ==> BadBase(s, g, d.name))
    ensures forall n :: UnknownBase(n) in diagnostics <==> BadBase(s, g, n)
  {
  }

  /** On a cycle the result does depend on the order of the dictionary. */
  lemma CyclicValueDependsOnOrder()
    ensures var g: Graph<Settings> := map["a" := map[BASE := Text("b"), "x" := Other(1)], "b" := map[BASE := Text("a")]];
            var ab := ResolveEach(PROFILES, g, State(map[], []), ["a", "b"]).resolved;
            var ba := ResolveEach(PROFILES, g, State(map[], []), ["b", "a"]).resolved;
            "b" in ab && "b" in ba && "x" !in ab["b"] && "x" in ba["b"]
  {
    var g: Graph<Settings> := map["a" := map[BASE := Text("b"), "x" := Other(1)], "b" := map[BASE := Text("a")]];
    InheritanceLaws.TwoCycle(PROFILES, g, "a", "b");
    InheritanceLaws.TwoCycle(PROFILES, g, "b", "a");
  }
}
