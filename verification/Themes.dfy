/** Themes: the same inheritance with a two-level merge of colors and a rule for built-in names. */
module Themes {
  import opened Text
  import opened Inheritance
  import InheritanceLaws
  import opened Profiles

  const OVERRIDE := "override"
  const COLORS := "colors"

  function TableOf(v: Option<Value>): map<string, Value> {
    if v.Some? && v.value.Table? then v.value.entries else map[]
  }

  /** Color sections laid over older ones, each section over its older self. */
  function MergeColors(older: map<string, Value>, newer: map<string, Value>): map<string, Value> {
    map section | section in older.Keys + newer.Keys ::
      if section in newer then Overlay(Get(older, section), newer[section]) else older[section]
  }

  /** `_merge_theme` */
  function MergeTheme(base: Settings, own: Settings): Settings {
    map key | key in base.Keys + (own.Keys - {BASE, OVERRIDE}) ::
      if key in own && key !in {BASE, OVERRIDE} then
        if key == COLORS && own[key].Table? then Table(MergeColors(TableOf(Get(base, key)), own[key].entries)) else own[key]
      else base[key]
  }

  /** The inner loop over the color sections. */
  method MergeColorItems(older: map<string, Value>, newer: map<string, Value>) returns (colors: map<string, Value>)
    ensures colors == MergeColors(older, newer)
    ensures colors.Keys == older.Keys + newer.Keys
    ensures forall section :: section in colors ==>
              colors[section] ==
              if section !in newer then older[section]
              else if newer[section].Table?
              then Table((if section in older && older[section].Table? then older[section].entries else map[])
                         + newer[section].entries)
              else newer[section]
  {
    hide MergeColors;
    ColorsNone(older);
    assert Except(newer, newer.Keys) == map[];
    colors := older;
    var todo := newer.Keys;
    while todo != {}
      invariant todo <= newer.Keys
      invariant colors == MergeColors(older, Except(newer, todo))
      decreases todo
    {
      var name :| name in todo;
      var mapping := newer[name];
      if !mapping.Table? {
        colors := colors[name := mapping];
      } else {
        var section := map[];
        if name in colors && colors[name].Table? {
          section := colors[name].entries;
        }
        colors := colors[name := Table(section + mapping.entries)];
      }
      ColorsOneMore(older, newer, todo, name);
      todo := todo - {name};
    }
    assert Except(newer, {}) == newer;
    ColorsSay(older, newer);
  }

  lemma ColorsNone(older: map<string, Value>)
    ensures MergeColors(older, map[]) == older
  {
  }

  lemma ColorsOneMore(older: map<string, Value>, newer: map<string, Value>, todo: set<string>, name: string)
    requires name in todo && todo <= newer.Keys
    ensures var before, after := MergeColors(older, Except(newer, todo)), MergeColors(older, Except(newer, todo - {name}));
            && Get(before, name) == Get(older, name)
            && after == before[name := Overlay(Get(older, name), newer[name])]
  {
  }

  lemma ColorsSay(older: map<string, Value>, newer: map<string, Value>)
    ensures var colors := MergeColors(older, newer);
            && colors.Keys == older.Keys + newer.Keys
            && forall section :: section in colors ==>
                 colors[section] ==
                 if section !in newer then older[section]
                 else if newer[section].Table?
                 then Table((if section in older && older[section].Table? then older[section].entries else map[])
                            + newer[section].entries)
                 else newer[section]
  {
  }

  /** The outer loop of `_merge_theme`. */
  method MergeThemeItems(base: Settings, own: Settings) returns (out: Settings)
    ensures out == MergeTheme(base, own)
    ensures out.Keys == base.Keys + (own.Keys - {"base", "override"})
    ensures forall key :: key in out ==>
              if key !in own || key == "base" || key == "override" then out[key] == base[key]
              else if key == "colors" && own[key].Table?
              then out[key] == Table(MergeColors(if key in base && base[key].Table? then base[key].entries else map[],
                                                 own[key].entries))
              else out[key] == own[key]
  {
    hide MergeColors, MergeTheme;
    ThemeNone(base);
    assert Except(own, own.Keys) == map[];
    out := base;
    var todo := own.Keys;
    while todo != {}
      invariant todo <= own.Keys
      invariant out == MergeTheme(base, Except(own, todo))
      decreases todo
    {
      var key :| key in todo;
      var value := own[key];
      ThemeOneMore(base, own, todo, key);
      if key == COLORS && value.Table? {
        var colors := MergeColorItems(TableOf(Get(out, key)), value.entries);
        out := out[key := Table(colors)];
      } else if key !in {BASE, OVERRIDE} {
        out := out[key := value];
      }
      todo := todo - {key};
    }
    assert Except(own, {}) == own;
    ThemeSays(base, own);
  }

  lemma ThemeNone(base: Settings)
    ensures MergeTheme(base, map[]) == base
  {
  }

  lemma ThemeSays(base: Settings, own: Settings)
    ensures var out := MergeTheme(base, own);
            && out.Keys == base.Keys + (own.Keys - {"base", "override"})
            && forall key :: key in out ==>
                 if key !in own || key == "base" || key == "override" then out[key] == base[key]
                 else if key == "colors" && own[key].Table?
                 then out[key] == Table(MergeColors(if key in base && base[key].Table? then base[key].entries else map[],
                                                    own[key].entries))
                 else out[key] == own[key]
  {
    hide MergeColors;
  }

  lemma ThemeOneMore(base: Settings, own: Settings, todo: set<string>, key: string)
    requires key in todo && todo <= own.Keys
    ensures var before, after := MergeTheme(base, Except(own, todo)), MergeTheme(base, Except(own, todo - {key}));
            && Get(before, key) == Get(base, key)
            && after == if key in {BASE, OVERRIDE} then before
                        else if key == COLORS && own[key].Table?
                        then before[key := Table(MergeColors(TableOf(Get(base, key)), own[key].entries))]
                        else before[key := own[key]]
  {
    hide MergeColors;
  }

  const THEMES: Scheme<Settings> := Scheme(BaseOf, MergeTheme, map[])

  // ------------------------------------------------- lookup by nearest ancestor

  /** The color that settings give for a key of a color section. */
  function Color(d: Settings, section: string, key: string): Option<Value> {
    Get(TableOf(Get(TableOf(Get(d, "colors")), section)), key)
  }

  /** Neither `colors` nor the section is replaced by something that is not a table, and the key is not set. */
  ghost predicate PassesColor(g: Graph<Settings>, n: Name, section: string, key: string) {
    && n in g
    && ("colors" in g[n] ==>
          && g[n]["colors"].Table?
          && (section in g[n]["colors"].entries ==>
                g[n]["colors"].entries[section].Table? && key !in g[n]["colors"].entries[section].entries))
  }

  ghost predicate NearestColor(g: Graph<Settings>, n: Name, j: nat, section: string, key: string, value: Value) {
    && Up(THEMES, g, n, j).Some? && Up(THEMES, g, n, j).value in g
    && Color(g[Up(THEMES, g, n, j).value], section, key) == Some(value)
    && forall i: nat :: i < j ==> Up(THEMES, g, n, i).Some? && PassesColor(g, Up(THEMES, g, n, i).value, section, key)
  }

  lemma ColorAfterMerge(base: Settings, g: Graph<Settings>, n: Name, section: string, key: string)
    requires n in g
    ensures Color(MergeTheme(base, g[n]), section, key) ==
            if PassesColor(g, n, section, key) then Color(base, section, key) else Color(g[n], section, key)
    ensures PassesColor(g, n, section, key) ==> Color(g[n], section, key) == None
  {
    var own := g[n];
    var merged := MergeTheme(base, own);
    if COLORS in own && own[COLORS].Table? {
      var older, newer := TableOf(Get(base, COLORS)), own[COLORS].entries;
      assert merged[COLORS] == Table(MergeColors(older, newer));
      assert Get(MergeColors(older, newer), section) ==
             if section in newer then Some(Overlay(Get(older, section), newer[section])) else Get(older, section);
    } else {
      assert Get(merged, COLORS) == if COLORS in own then Some(own[COLORS]) else Get(base, COLORS);
    }
  }

  lemma NearestColorStep(g: Graph<Settings>, n: Name, j: nat, section: string, key: string, value: Value)
    requires n in g
    ensures NearestColor(g, n, j, section, key, value) <==>
            if j == 0 then Color(g[n], section, key) == Some(value)
            else PassesColor(g, n, section, key) && Next(THEMES, g, n).Some?
                 && NearestColor(g, Next(THEMES, g, n).value, j - 1, section, key, value)
  {
    hide PassesColor, Color;
    assert Up(THEMES, g, n, 0) == Some(n);
    if j > 0 && Next(THEMES, g, n).Some? {
      var b := Next(THEMES, g, n).value;
      assert forall i: nat :: i > 0 ==> Up(THEMES, g, n, i) == Up(THEMES, g, b, i - 1);
      assert forall i: nat :: Up(THEMES, g, b, i) == Up(THEMES, g, n, i + 1);
    }
  }

  lemma {:induction false} MergedColor(g: Graph<Settings>, n: Name, k: nat, section: string, key: string, value: Value)
    requires n in g && Up(THEMES, g, n, k) == None
    ensures Color(InheritanceLaws.Merged(THEMES, g, n, k), section, key) == Some(value) <==>
            exists j: nat :: NearestColor(g, n, j, section, key, value)
    decreases k
  {
    hide NearestColor, PassesColor, Color, MergeTheme;
    forall j: nat
      ensures NearestColor(g, n, j, section, key, value) <==>
              if j == 0 then Color(g[n], section, key) == Some(value)
              else PassesColor(g, n, section, key) && Next(THEMES, g, n).Some?
                   && NearestColor(g, Next(THEMES, g, n).value, j - 1, section, key, value)
    {
      NearestColorStep(g, n, j, section, key, value);
    }
    if Next(THEMES, g, n).Some? {
      var b := Next(THEMES, g, n).value;
      MergedColor(g, b, k - 1, section, key, value);
      ColorAfterMerge(InheritanceLaws.Merged(THEMES, g, b, k - 1), g, n, section, key);
      if j: nat :| NearestColor(g, b, j, section, key, value) {
        assert PassesColor(g, n, section, key) ==> NearestColor(g, n, j + 1, section, key, value);
      }
    } else {
      ColorAfterMerge(map[], g, n, section, key);
      NoColor(section, key);
    }
    assert Color(g[n], section, key) == Some(value) ==> NearestColor(g, n, 0, section, key, value);
  }

  lemma NoColor(section: string, key: string)
    ensures Color(map[], section, key) == None
  {
  }

  /** Every color of a resolved theme comes from the nearest ancestor that defines it. */
  lemma ColorFromNearestAncestor(g: Graph<Settings>, order: seq<Name>, n: Name, k: nat,
                                 section: string, key: string, value: Value)
    requires SetOf(order) == g.Keys && n in g && Up(THEMES, g, n, k) == None
    ensures var st := ResolveEach(THEMES, g, State(map[], []), order);
            n in st.resolved &&
            (Color(st.resolved[n], section, key) == Some(value) <==>
             exists j: nat :: NearestColor(g, n, j, section, key, value))
  {
    InheritanceLaws.ValueOfGrounded(THEMES, g, order, n, k);
    MergedColor(g, n, k, section, key, value);
  }

  /** Neither `base` nor `override` survives resolution, on any graph. */
  lemma NoBaseOrOverrideSurvives(g: Graph<Settings>, order: seq<Name>)
    requires SetOf(order) == g.Keys
    ensures var st := ResolveEach(THEMES, g, State(map[], []), order);
            st.resolved.Keys == g.Keys
            && forall n :: n in st.resolved ==> "base" !in st.resolved[n] && "override" !in st.resolved[n]
  {
    assert forall m :: m in order ==> m in SetOf(order);
    InheritanceLaws.EverythingReported(THEMES, g, order);
    InheritanceLaws.EachKeeps(THEMES, g, State(map[], []), order, d => BASE !in d && OVERRIDE !in d);
  }

  // ----------------------------------------------------------- built-in names

  /** A user theme is taken unless it has a built-in name without saying `override = true`. */
  predicate Accepted(builtin: Graph<Settings>, name: Name, theme: Settings, yes: Value) {
    name in builtin ==> Get(theme, OVERRIDE) == Some(yes)
  }

  /** The names whose user theme is taken. */
  function AcceptedNames(builtin: Graph<Settings>, user: Graph<Settings>, yes: Value): set<Name> {
    set n | n in user && Accepted(builtin, n, user[n], yes)
  }

  /** The names outside a set, in order. */
  function Outside(names: set<Name>, order: seq<Name>): (r: seq<Name>)
    ensures forall n :: n in r <==> n in order && n !in names
  {
    if order == [] then []
    else (if order[0] in names then [] else [order[0]]) + Outside(names, order[1..])
  }

  /** The user definitions with these names. */
  function Only<D>(user: map<Name, D>, names: set<Name>): map<Name, D> {
    map n | n in user && n in names :: user[n]
  }

  function AssembleFrom<D>(user: map<Name, D>, accepted: set<Name>, themes: map<Name, D>, order: seq<Name>): map<Name, D>
    requires forall n :: n in order ==> n in user
    decreases |order|
  {
    if order == [] then themes
    else AssembleFrom(user, accepted, if order[0] in accepted then themes[order[0] := user[order[0]]] else themes, order[1..])
  }

  lemma {:induction false} AssembleMeaning<D>(user: map<Name, D>, accepted: set<Name>, themes: map<Name, D>, order: seq<Name>)
    requires forall n :: n in order ==> n in user
    ensures AssembleFrom(user, accepted, themes, order) == themes + Only(user, accepted * SetOf(order))
    decreases |order|
  {
    if order == [] {
      assert themes + Only(user, accepted * SetOf(order)) == themes;
    } else {
      var next := if order[0] in accepted then themes[order[0] := user[order[0]]] else themes;
      AssembleMeaning(user, accepted, next, order[1..]);
      assert next + Only(user, accepted * SetOf(order[1..])) == themes + Only(user, accepted * SetOf(order));
    }
  }

  lemma AssembleStep<D>(user: map<Name, D>, accepted: set<Name>, themes: map<Name, D>, order: seq<Name>, i: nat)
    requires i < |order| && forall n :: n in order ==> n in user
    ensures var next := if order[i] in accepted then themes[order[i] := user[order[i]]] else themes;
            AssembleFrom(user, accepted, themes, order[i..]) == AssembleFrom(user, accepted, next, order[i + 1..])
    ensures Outside(accepted, order[i..]) ==
            (if order[i] in accepted then [] else [order[i]]) + Outside(accepted, order[i + 1..])
  {
    assert order[i..][1..] == order[i + 1..] && order[i..][0] == order[i];
  }

  /** Puts the definitions together; `yes` stands for the value True. Rejected names are reported in order. */
  method Assemble(builtin: Graph<Settings>, user: Graph<Settings>, order: seq<Name>, yes: Value)
    returns (themes: Graph<Settings>, rejected: seq<Name>)
    requires SetOf(order) == user.Keys
    ensures themes == builtin + Only(user, AcceptedNames(builtin, user, yes))
    ensures rejected == Outside(AcceptedNames(builtin, user, yes), order)
    ensures themes.Keys == builtin.Keys + user.Keys
    ensures forall n :: n in rejected <==>
                          n in builtin && n in user && !("override" in user[n] && user[n]["override"] == yes)
    ensures forall n :: n in themes ==> themes[n] == if n in user && n !in rejected then user[n] else builtin[n]
    ensures exists at :: PickedAt(order, rejected, at) && forall i :: 0 <= i < |order| && order[i] in rejected ==> i in at
  {
    hide AssembleFrom, Outside, Only, Get;
    ghost var accepted := AcceptedNames(builtin, user, yes);
    assert forall n :: n in order ==> n in SetOf(order);
    assert order[0..] == order && order[|order|..] == [];
    themes, rejected := builtin, [];
    for i := 0 to |order|
      invariant AssembleFrom(user, accepted, builtin, order) == AssembleFrom(user, accepted, themes, order[i..])
      invariant Outside(accepted, order) == rejected + Outside(accepted, order[i..])
    {
      var name := order[i];
      AssembleStep(user, accepted, themes, order, i);
      if name in builtin && Get(user[name], OVERRIDE) != Some(yes) {
        rejected := rejected + [name];
        continue;
      }
      assert name in accepted;
      themes := themes[name := user[name]];
    }
    AssembleEnd(user, accepted, themes);
    AssembleMeaning(user, accepted, builtin, order);
    assert accepted * SetOf(order) == accepted;
    AssembledSays(builtin, user, order, yes);
    OutsidePicked(accepted, order);
  }

  lemma AssembledSays(builtin: Graph<Settings>, user: Graph<Settings>, order: seq<Name>, yes: Value)
    requires SetOf(order) == user.Keys
    ensures var themes := builtin + Only(user, AcceptedNames(builtin, user, yes));
            var rejected := Outside(AcceptedNames(builtin, user, yes), order);
            && themes.Keys == builtin.Keys + user.Keys
            && (forall n :: n in rejected <==>
                              n in builtin && n in user && !("override" in user[n] && user[n]["override"] == yes))
            && forall n :: n in themes ==> themes[n] == if n in user && n !in rejected then user[n] else builtin[n]
  {
    assert forall n :: n in order <==> n in SetOf(order);
  }

  /** The positions of the names outside a set. */
  function OutsideAt(names: set<Name>, order: seq<Name>): (at: seq<nat>)
    ensures forall i :: i in at <==> 0 <= i < |order| && order[i] !in names
  {
    if order == [] then []
    else
      var n := |order| - 1;
      var earlier := OutsideAt(names, order[..n]);
      if order[n] in names then earlier else earlier + [n]
  }

  lemma {:induction false} OutsideSnoc(names: set<Name>, order: seq<Name>, last: Name)
    ensures Outside(names, order + [last]) == Outside(names, order) + if last in names then [] else [last]
  {
    if order == [] {
      assert order + [last] == [last] && [last][1..] == [];
    } else {
      assert (order + [last])[1..] == order[1..] + [last];
      OutsideSnoc(names, order[1..], last);
    }
  }

  /** The names outside a set are listed in order. */
  lemma {:induction false} OutsidePicked(names: set<Name>, order: seq<Name>)
    ensures PickedAt(order, Outside(names, order), OutsideAt(names, order))
    decreases |order|
  {
    if order != [] {
      var n := |order| - 1;
      assert order == order[..n] + [order[n]];
      OutsideSnoc(names, order[..n], order[n]);
      OutsidePicked(names, order[..n]);
      hide PickedAt, Outside;
      PickedMore(order[..n], Outside(names, order[..n]), OutsideAt(names, order[..n]), order[n]);
      assert Outside(names, order[..n]) + [] == Outside(names, order[..n]);
    }
  }

  lemma AssembleEnd<D>(user: map<Name, D>, accepted: set<Name>, themes: map<Name, D>)
    ensures AssembleFrom(user, accepted, themes, []) == themes && Outside(accepted, []) == []
  {
  }

  /** `resolve_themes`: the dictionary lists the built-in names first and then the new user names. */
  method ResolveThemes(builtin: Graph<Settings>, builtinOrder: seq<Name>,
                       user: Graph<Settings>, userOrder: seq<Name>, yes: Value)
    returns (resolved: map<Name, Settings>, diagnostics: seq<Diagnostic>, rejected: seq<Name>)
    requires SetOf(builtinOrder) == builtin.Keys && SetOf(userOrder) == user.Keys
    ensures var themes := builtin + Only(user, AcceptedNames(builtin, user, yes));
            var order := builtinOrder + Outside(builtin.Keys, userOrder);
            && SetOf(order) == themes.Keys == resolved.Keys
            && State(resolved, diagnostics) == ResolveEach(THEMES, themes, State(map[], []), order)
    ensures rejected == Outside(AcceptedNames(builtin, user, yes), userOrder)
    ensures resolved.Keys == builtin.Keys + user.Keys
    ensures forall n :: n in rejected <==>
                          n in builtin && n in user && !("override" in user[n] && user[n]["override"] == yes)
  {
    var themes;
    themes, rejected := Assemble(builtin, user, userOrder, yes);
    var order := builtinOrder + Outside(builtin.Keys, userOrder);
    ListedNames(builtin, builtinOrder, user, userOrder, yes);
    var r := new Resolver(THEMES, themes);
    assert forall m :: m in order ==> m in SetOf(order);
    r.ResolveAll(order);
    resolved, diagnostics := r.resolved, r.diagnostics;
    InheritanceLaws.EverythingReported(THEMES, themes, order);
  }

  lemma ListedNames(builtin: Graph<Settings>, builtinOrder: seq<Name>, user: Graph<Settings>, userOrder: seq<Name>, yes: Value)
    requires SetOf(builtinOrder) == builtin.Keys && SetOf(userOrder) == user.Keys
    ensures SetOf(builtinOrder + Outside(builtin.Keys, userOrder)) ==
            (builtin + Only(user, AcceptedNames(builtin, user, yes))).Keys
  {
    var order, themes := builtinOrder + Outside(builtin.Keys, userOrder), builtin + Only(user, AcceptedNames(builtin, user, yes));
    forall n
      ensures n in SetOf(order) <==> n in themes
    {
      assert n in builtinOrder <==> n in SetOf(builtinOrder);
      assert n in userOrder <==> n in SetOf(userOrder);
    }
  }
}
