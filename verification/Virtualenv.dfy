/** Native activation of Python virtual environments: snapshot, activation, restoration. */
module Virtualenv {
  import opened Text

  type Variables = map<string, string>

  /** The variables that activation touches. */
  const NAMES := {"PATH", "PYTHONHOME", "VIRTUAL_ENV"}

  type Snapshot = map<string, Option<string>>

  function Get(v: Variables, name: string): Option<string> {
    if name in v then Some(v[name]) else None
  }

  function Put(v: Variables, name: string, value: Option<string>): Variables {
    match value
    case None => v - {name}
    case Some(x) => v[name := x]
  }

  function Take(v: Variables): Snapshot {
    map name | name in NAMES :: Get(v, name)
  }

  // ------------------------------------------------------------ path lists

  /** `s.split(c)` */
  function SplitOn(s: string, c: char): (parts: seq<string>)
    ensures parts != []
    decreases |s|
  {
    if s == "" then [""]
    else
      var rest := SplitOn(s[1..], c);
      if s[0] == c then [""] + rest else [[s[0]] + rest[0]] + rest[1..]
  }

  /** `c.join(parts)` */
  function JoinOn(parts: seq<string>, c: char): string {
    if parts == [] then "" else if |parts| == 1 then parts[0] else parts[0] + [c] + JoinOn(parts[1..], c)
  }

  function Without(parts: seq<string>, part: string): (r: seq<string>)
    ensures part !in r && forall x :: x in r ==> x in parts
  {
    if parts == [] then []
    else (if parts[0] == part then [] else [parts[0]]) + Without(parts[1..], part)
  }

  /** PATH with the directory `bin` moved to the front. */
  function PathWith(path: string, bin: string): string {
    JoinOn([bin] + Without(SplitOn(path, ':'), bin), ':')
  }

  lemma {:induction false} SplitParts(s: string, c: char)
    ensures forall part :: part in SplitOn(s, c) ==> c !in part
    decreases |s|
  {
    if s != "" {
      SplitParts(s[1..], c);
      var rest := SplitOn(s[1..], c);
      assert rest[0] in rest && forall part :: part in rest[1..] ==> part in rest;
    }
  }

  lemma {:induction false} SplitJoined(part: string, rest: string, c: char)
    requires c !in part
    ensures SplitOn(part + [c] + rest, c) == [part] + SplitOn(rest, c)
  {
    var s := part + [c] + rest;
    if part == "" {
      assert s[1..] == rest;
    } else {
      assert s[1..] == part[1..] + [c] + rest;
      SplitJoined(part[1..], rest, c);
      assert [part[0]] + part[1..] == part;
    }
  }

  lemma {:induction false} SplitSingle(part: string, c: char)
    requires c !in part
    ensures SplitOn(part, c) == [part]
  {
    if part != "" {
      SplitSingle(part[1..], c);
      assert [part[0]] + part[1..] == part;
    }
  }

  /** Splitting undoes joining for parts without the separator. */
  lemma {:induction false} SplitJoin(parts: seq<string>, c: char)
    requires parts != [] && forall part :: part in parts ==> c !in part
    ensures SplitOn(JoinOn(parts, c), c) == parts
  {
    hide SplitOn;
    assert parts[0] in parts;
    if |parts| == 1 {
      SplitSingle(parts[0], c);
      assert parts == [parts[0]];
    } else {
      assert forall part :: part in parts[1..] ==> part in parts;
      SplitJoin(parts[1..], c);
      SplitJoined(parts[0], JoinOn(parts[1..], c), c);
      assert parts == [parts[0]] + parts[1..];
    }
  }

  /** `bin` is the first entry of the path and occurs in it once. */
  ghost predicate FirstAndOnce(path: string, bin: string) {
    var parts := SplitOn(path, ':');
    parts[0] == bin && bin !in parts[1..]
  }

  /** Activation puts the directory first, exactly once, unless its own name contains the separator. */
  lemma BinFirstAndOnce(path: string, bin: string)
    ensures FirstAndOnce(PathWith(path, bin), bin) <==> ':' !in bin
  {
    var parts := [bin] + Without(SplitOn(path, ':'), bin);
    SplitParts(path, ':');
    if ':' !in bin {
      SplitJoin(parts, ':');
      assert parts[1..] == Without(SplitOn(path, ':'), bin);
    } else {
      SplitParts(PathWith(path, bin), ':');
      var all := SplitOn(PathWith(path, bin), ':');
      assert all[0] in all;
    }
  }

  /** Every other entry of the path is kept, in order. */
  lemma OtherEntriesKept(path: string, bin: string)
    requires ':' !in bin
    ensures SplitOn(PathWith(path, bin), ':') == [bin] + Without(SplitOn(path, ':'), bin)
  {
    SplitParts(path, ':');
    SplitJoin([bin] + Without(SplitOn(path, ':'), bin), ':');
  }

  /** The positions of the entries other than `part`. */
  function OthersAt(parts: seq<string>, part: string): (at: seq<nat>)
    ensures forall i :: i in at <==> 0 <= i < |parts| && parts[i] != part
    ensures forall j, k :: 0 <= j < k < |at| ==> at[j] < at[k]
  {
    if parts == [] then []
    else
      var n := |parts| - 1;
      var earlier := OthersAt(parts[..n], part);
      assert forall k :: 0 <= k < |earlier| ==> earlier[k] in earlier;
      if parts[n] == part then earlier else earlier + [n]
  }

  lemma {:induction false} WithoutSnoc(parts: seq<string>, last: string, part: string)
    ensures Without(parts + [last], part) == Without(parts, part) + if last == part then [] else [last]
  {
    if parts == [] {
      assert parts + [last] == [last] && [last][1..] == [];
    } else {
      assert (parts + [last])[1..] == parts[1..] + [last];
      WithoutSnoc(parts[1..], last, part);
    }
  }

  lemma {:induction false} OthersArePicked(parts: seq<string>, part: string)
    ensures PickedAt(parts, Without(parts, part), OthersAt(parts, part))
    decreases |parts|
  {
    if parts != [] {
      var n := |parts| - 1;
      assert parts == parts[..n] + [parts[n]];
      WithoutSnoc(parts[..n], parts[n], part);
      OthersArePicked(parts[..n], part);
      hide PickedAt, Without;
      PickedMore(parts[..n], Without(parts[..n], part), OthersAt(parts[..n], part), parts[n]);
      assert Without(parts[..n], part) + [] == Without(parts[..n], part);
    }
  }

  /** Joining undoes splitting. */
  lemma {:induction false} JoinSplit(s: string, c: char)
    ensures JoinOn(SplitOn(s, c), c) == s
    decreases |s|
  {
    if s != "" {
      JoinSplit(s[1..], c);
      var rest := SplitOn(s[1..], c);
      if s[0] == c {
        assert ([""] + rest)[1..] == rest;
      } else {
        assert ([[s[0]] + rest[0]] + rest[1..])[1..] == rest[1..];
      }
    }
  }

  lemma {:induction false} NothingToDrop(parts: seq<string>, part: string)
    requires part !in parts
    ensures Without(parts, part) == parts
  {
    if parts != [] {
      NothingToDrop(parts[1..], part);
    }
  }

  /**
   * What becomes of a path: the directory comes first, then all other entries in their order; if the
   * directory was no entry, it is written before the old path.
   */
  lemma PathMeans(path: string, bin: string)
    ensures exists others, at ::
              && PickedAt(SplitOn(path, ':'), others, at)
              && (forall i :: 0 <= i < |SplitOn(path, ':')| ==> (i in at <==> SplitOn(path, ':')[i] != bin))
              && PathWith(path, bin) == JoinOn([bin] + others, ':')
    ensures bin !in SplitOn(path, ':') ==> PathWith(path, bin) == bin + ":" + path
    ensures path == bin ==> ':' !in bin ==> PathWith(path, bin) == bin
  {
    hide SplitOn, Without, JoinOn, PickedAt;
    var parts := SplitOn(path, ':');
    OthersArePicked(parts, bin);
    if bin !in parts {
      NothingToDrop(parts, bin);
      JoinSplit(path, ':');
      JoinedMore(bin, parts);
    }
    if path == bin && ':' !in bin {
      SplitSingle(bin, ':');
      AloneIsDropped(bin);
    }
  }

  lemma JoinedMore(first: string, rest: seq<string>)
    requires rest != []
    ensures JoinOn([first] + rest, ':') == first + ":" + JoinOn(rest, ':')
  {
    assert ([first] + rest)[1..] == rest;
  }

  lemma AloneIsDropped(part: string)
    ensures Without([part], part) == [] && JoinOn([part] + [], ':') == part
  {
    assert [part][1..] == [];
  }

  // ------------------------------------------------------- state and changes

  datatype State = State(env: Variables, locals: Variables, saved: Option<(Snapshot, Snapshot)>)

  /** `_set_exported_environment` and `_unset_exported_environment` */
  function SetExported(s: State, name: string, value: Option<string>): State {
    s.(env := Put(s.env, name, value), locals := Put(s.locals, name, value))
  }

  function PutAll(v: Variables, snapshot: Snapshot): Variables {
    map name | name in v.Keys + snapshot.Keys && (name in snapshot ==> snapshot[name].Some?) ::
      if name in snapshot then snapshot[name].value else v[name]
  }

  /** The snapshot put back: first the environment (with the locals), then the locals. */
  function Restored(s: State): State {
    if s.saved == None then s
    else s.(env := PutAll(s.env, s.saved.value.0), locals := PutAll(PutAll(s.locals, s.saved.value.0), s.saved.value.1))
  }

  /** The three variables set for an environment. */
  function PointedAt(s: State, root: string, bin: string): State {
    var path := PathWith(if "PATH" in s.env then s.env["PATH"] else "", bin);
    SetExported(SetExported(SetExported(s, "PATH", Some(path)), "VIRTUAL_ENV", Some(root)), "PYTHONHOME", None)
  }

  function Activated(s: State, root: string, bin: string): State {
    PointedAt(if s.saved == None then s.(saved := Some((Take(s.env), Take(s.locals)))) else Restored(s), root, bin)
  }

  function Deactivated(s: State): State {
    if s.saved == None then s else Restored(s).(saved := None)
  }

  /** `Rewrite` stands for everything else that commands do to the variables. */
  datatype Change =
    | Activate(root: string, bin: string)
    | Export(name: string, value: string)
    | Assign(name: string, value: string)
    | Rewrite(env: Variables, locals: Variables)

  function Apply(s: State, c: Change): State {
    match c
    case Activate(root, bin) => Activated(s, root, bin)
    case Export(name, value) => SetExported(s, name, Some(value))
    case Assign(name, value) => s.(locals := s.locals[name := value])
    case Rewrite(env, locals) => s.(env := env, locals := locals)
  }

  function ApplyAll(s: State, cs: seq<Change>): State
    decreases |cs|
  {
    if cs == [] then s else ApplyAll(Apply(s, cs[0]), cs[1..])
  }

  /** The two states agree on the variables that activation touches. */
  ghost predicate Agree(a: State, b: State) {
    forall name :: name in NAMES ==> Get(a.env, name) == Get(b.env, name) && Get(a.locals, name) == Get(b.locals, name)
  }

  ghost predicate SavedFrom(s: State, origin: State) {
    s.saved == Some((Take(origin.env), Take(origin.locals)))
  }

  lemma SnapshotStays(s: State, c: Change, origin: State)
    requires SavedFrom(s, origin)
    ensures SavedFrom(Apply(s, c), origin)
  {
    hide PathWith;
  }

  lemma ActivatedSaves(s: State, root: string, bin: string)
    requires s.saved == None
    ensures SavedFrom(Activated(s, root, bin), s)
  {
    hide PathWith;
  }

  lemma {:induction false} SnapshotStaysAll(s: State, cs: seq<Change>, origin: State)
    requires SavedFrom(s, origin)
    ensures SavedFrom(ApplyAll(s, cs), origin)
    decreases |cs|
  {
    if cs != [] {
      SnapshotStays(s, cs[0], origin);
      SnapshotStaysAll(Apply(s, cs[0]), cs[1..], origin);
    }
  }

  lemma RestoredAgrees(s: State, origin: State)
    requires SavedFrom(s, origin)
    ensures Agree(Restored(s), origin)
  {
  }

  /**
   * After a first activation and any run of activations and changes of variables, `deactivate` puts
   * PATH, PYTHONHOME and VIRTUAL_ENV back in environment and locals to what they were before.
   */
  lemma DeactivateRestores(s: State, root: string, bin: string, cs: seq<Change>)
    requires s.saved == None
    ensures var s' := Deactivated(ApplyAll(Activated(s, root, bin), cs));
            && Agree(s', s) && s'.saved == None
            && forall name :: name in {"PATH", "PYTHONHOME", "VIRTUAL_ENV"} ==>
                 && (name in s'.env <==> name in s.env) && (name in s.env ==> s'.env[name] == s.env[name])
                 && (name in s'.locals <==> name in s.locals) && (name in s.locals ==> s'.locals[name] == s.locals[name])
  {
    hide PathWith;
    SnapshotStaysAll(Activated(s, root, bin), cs, s);
    RestoredAgrees(ApplyAll(Activated(s, root, bin), cs), s);
    AgreeByName(Deactivated(ApplyAll(Activated(s, root, bin), cs)), s);
  }

  lemma AgreeByName(a: State, b: State)
    requires Agree(a, b)
    ensures forall name :: name in {"PATH", "PYTHONHOME", "VIRTUAL_ENV"} ==>
              && (name in a.env <==> name in b.env) && (name in b.env ==> a.env[name] == b.env[name])
              && (name in a.locals <==> name in b.locals) && (name in b.locals ==> a.locals[name] == b.locals[name])
  {
    forall name | name in {"PATH", "PYTHONHOME", "VIRTUAL_ENV"}
      ensures Get(a.env, name) == Get(b.env, name) && Get(a.locals, name) == Get(b.locals, name)
    {
      assert name in NAMES;
    }
  }

  /** Variables that activation does not touch go through activation and deactivation unchanged. */
  lemma OthersUntouched(s: State, root: string, bin: string, name: string)
    requires name !in {"PATH", "PYTHONHOME", "VIRTUAL_ENV"}
    requires s.saved.Some? ==> s.saved.value.0.Keys == s.saved.value.1.Keys == {"PATH", "PYTHONHOME", "VIRTUAL_ENV"}
    ensures Get(Activated(s, root, bin).env, name) == Get(s.env, name)
    ensures Get(Activated(s, root, bin).locals, name) == Get(s.locals, name)
    ensures Get(Deactivated(s).env, name) == Get(s.env, name) && Get(Deactivated(s).locals, name) == Get(s.locals, name)
  {
    hide PathWith;
  }

  /**
   * What an activation leaves: PATH with the directory before the other entries of the path that was
   * there before any activation, VIRTUAL_ENV with the root, and no PYTHONHOME; in both maps.
   */
  ghost predicate PointsTo(env: Variables, locals: Variables, before: Option<string>, root: string, bin: string) {
    var path := if before.Some? then before.value else "";
    && "PATH" in env && "PATH" in locals && env["PATH"] == locals["PATH"]
    && "VIRTUAL_ENV" in env && "VIRTUAL_ENV" in locals && env["VIRTUAL_ENV"] == locals["VIRTUAL_ENV"] == root
    && "PYTHONHOME" !in env && "PYTHONHOME" !in locals
    && (bin !in SplitOn(path, ':') ==> env["PATH"] == bin + ":" + path)
    && exists others, at ::
         && PickedAt(SplitOn(path, ':'), others, at)
         && (forall i :: 0 <= i < |SplitOn(path, ':')| ==> (i in at <==> SplitOn(path, ':')[i] != bin))
         && env["PATH"] == JoinOn([bin] + others, ':')
  }

  lemma ThreeSet(s: State, path: string, root: string)
    ensures var r := SetExported(SetExported(SetExported(s, "PATH", Some(path)), "VIRTUAL_ENV", Some(root)), "PYTHONHOME", None);
            && "PATH" in r.env && "PATH" in r.locals && r.env["PATH"] == r.locals["PATH"] == path
            && "VIRTUAL_ENV" in r.env && "VIRTUAL_ENV" in r.locals && r.env["VIRTUAL_ENV"] == r.locals["VIRTUAL_ENV"] == root
            && "PYTHONHOME" !in r.env && "PYTHONHOME" !in r.locals
  {
  }

  lemma PointedAtMeans(s: State, root: string, bin: string)
    ensures var r := PointedAt(s, root, bin);
            PointsTo(r.env, r.locals, if "PATH" in s.env then Some(s.env["PATH"]) else None, root, bin)
  {
    hide SplitOn, JoinOn, PathWith, PickedAt, SetExported;
    var path := if "PATH" in s.env then s.env["PATH"] else "";
    PathMeans(path, bin);
    ThreeSet(s, PathWith(path, bin), root);
  }

  /** An activation points to its root, starting from the path that the snapshot holds or, without one, from the path now. */
  lemma ActivatedMeans(s: State, root: string, bin: string)
    requires s.saved.Some? ==> "PATH" in s.saved.value.0 && "PATH" in s.saved.value.1
    ensures var r := Activated(s, root, bin);
            PointsTo(r.env, r.locals,
                     if s.saved.Some? then s.saved.value.0["PATH"] else if "PATH" in s.env then Some(s.env["PATH"]) else None,
                     root, bin)
  {
    hide PointedAt, PointsTo;
    if s.saved == None {
      PointedAtMeans(s.(saved := Some((Take(s.env), Take(s.locals)))), root, bin);
    } else {
      PointedAtMeans(Restored(s), root, bin);
    }
  }

  /** Any run that ends in an activation, after an earlier one, points to the last root, from the path before the first. */
  lemma LastActivationCounts(s: State, first: string, firstBin: string, cs: seq<Change>, root: string, bin: string)
    requires s.saved == None
    ensures var r := Activated(ApplyAll(Activated(s, first, firstBin), cs), root, bin);
            PointsTo(r.env, r.locals, if "PATH" in s.env then Some(s.env["PATH"]) else None, root, bin)
  {
    hide PointsTo, Activated, Apply, ApplyAll;
    ActivatedSaves(s, first, firstBin);
    SnapshotStaysAll(Activated(s, first, firstBin), cs, s);
    ActivatedMeans(ApplyAll(Activated(s, first, firstBin), cs), root, bin);
  }

  /** Activating again gives what activating that root first would have given. */
  lemma ReactivationForgets(s: State, cs: seq<Change>, first: string, firstBin: string, root: string, bin: string)
    requires s.saved == None
    ensures Agree(Activated(ApplyAll(Activated(s, first, firstBin), cs), root, bin), Activated(s, root, bin))
  {
    ActivatedSaves(s, first, firstBin);
    hide PathWith, PointedAt, Restored, Agree;
    var now := ApplyAll(Activated(s, first, firstBin), cs);
    SnapshotStaysAll(Activated(s, first, firstBin), cs, s);
    RestoredAgrees(now, s);
    var start := s.(saved := Some((Take(s.env), Take(s.locals))));
    assert Agree(Restored(now), start) by { SavedIsIrrelevant(Restored(now), s, start); }
    PointedAgree(Restored(now), start, root, bin);
  }

  lemma SavedIsIrrelevant(a: State, b: State, b': State)
    requires Agree(a, b) && b'.env == b.env && b'.locals == b.locals
    ensures Agree(a, b')
  {
  }

  lemma SetAgree(a: State, b: State, name: string, value: Option<string>)
    requires Agree(a, b)
    ensures Agree(SetExported(a, name, value), SetExported(b, name, value))
  {
  }

  lemma PointedAgree(a: State, b: State, root: string, bin: string)
    requires Agree(a, b)
    ensures Agree(PointedAt(a, root, bin), PointedAt(b, root, bin))
  {
    assert Get(a.env, "PATH") == Get(b.env, "PATH");
    hide PathWith, Agree, SetExported, Get;
    var path := Some(PathWith(if "PATH" in a.env then a.env["PATH"] else "", bin));
    SetAgree(a, b, "PATH", path);
    var a1, b1 := SetExported(a, "PATH", path), SetExported(b, "PATH", path);
    SetAgree(a1, b1, "VIRTUAL_ENV", Some(root));
    SetAgree(SetExported(a1, "VIRTUAL_ENV", Some(root)), SetExported(b1, "VIRTUAL_ENV", Some(root)), "PYTHONHOME", None);
  }

  // -------------------------------------------------------------- the class

  class ShellVariables {
    var env: Variables
    var locals: Variables
    var restoreEnvironment: Option<Snapshot>
    var restoreLocals: Option<Snapshot>

    ghost predicate Valid()
      reads this
    {
      && (restoreEnvironment.Some? <==> restoreLocals.Some?)
      && (restoreEnvironment.Some? ==> restoreEnvironment.value.Keys == restoreLocals.value.Keys == NAMES)
    }

    ghost function Contents(): State
      reads this
      requires Valid()
    {
      State(env, locals,
            if restoreEnvironment.Some? then Some((restoreEnvironment.value, restoreLocals.value)) else None)
    }

    constructor (env: Variables, locals: Variables)
      ensures Valid() && Contents() == State(env, locals, None)
    {
      this.env, this.locals := env, locals;
      restoreEnvironment, restoreLocals := None, None;
    }

    method SetVariable(name: string, value: Option<string>)
      requires Valid()
      modifies this`env, this`locals
      ensures Contents() == SetExported(old(Contents()), name, value)
      ensures env == if value.Some? then old(env)[name := value.value] else old(env) - {name}
      ensures locals == if value.Some? then old(locals)[name := value.value] else old(locals) - {name}
    {
      if value.Some? {
        env := env[name := value.value];
        locals := locals[name := value.value];
      } else {
        env := env - {name};
        locals := locals - {name};
      }
    }

    /** `_restore_virtualenv_environment`: two loops over the snapshots. */
    method Restore(clear: bool)
      requires Valid()
      modifies this
      ensures Valid()
      ensures Contents() == if clear && old(Contents()).saved.Some? then Restored(old(Contents())).(saved := None)
                            else Restored(old(Contents()))
    {
      if restoreEnvironment == None {
        return;
      }
      var snapshot, localSnapshot := restoreEnvironment.value, restoreLocals.value;
      var todo := snapshot.Keys;
      assert Part(snapshot, snapshot.Keys) == map[];
      while todo != {}
        invariant todo <= snapshot.Keys
        invariant restoreEnvironment == Some(snapshot) && restoreLocals == Some(localSnapshot)
        invariant env == PutAll(old(env), Part(snapshot, todo)) && locals == PutAll(old(locals), Part(snapshot, todo))
        decreases todo
      {
        var name :| name in todo;
        PutOneMore(old(env), snapshot, todo, name);
        PutOneMore(old(locals), snapshot, todo, name);
        SetVariable(name, snapshot[name]);
        todo := todo - {name};
      }
      assert Part(snapshot, {}) == snapshot;
      ghost var middle := locals;
      todo := localSnapshot.Keys;
      assert Part(localSnapshot, localSnapshot.Keys) == map[];
      while todo != {}
        invariant todo <= localSnapshot.Keys
        invariant restoreEnvironment == Some(snapshot) && restoreLocals == Some(localSnapshot)
        invariant env == PutAll(old(env), snapshot) && locals == PutAll(middle, Part(localSnapshot, todo))
        decreases todo
      {
        var name :| name in todo;
        PutOneMore(middle, localSnapshot, todo, name);
        locals := if localSnapshot[name] == None then locals - {name} else locals[name := localSnapshot[name].value];
        todo := todo - {name};
      }
      assert Part(localSnapshot, {}) == localSnapshot;
      if clear {
        restoreEnvironment, restoreLocals := None, None;
      }
    }

    /** `_activate_virtualenv` */
    method ActivateRoot(root: string, bin: string)
      requires Valid()
      modifies this
      ensures Valid() && Contents() == Activated(old(Contents()), root, bin)
      ensures PointsTo(env, locals,
                       if old(restoreEnvironment).Some? then old(restoreEnvironment).value["PATH"]
                       else if "PATH" in old(env) then Some(old(env)["PATH"]) else None,
                       root, bin)
    {
      hide PathWith, PointsTo;
      ActivatedMeans(Contents(), root, bin);
      if restoreEnvironment == None {
        restoreEnvironment, restoreLocals := Some(Take(env)), Some(Take(locals));
      } else {
        Restore(false);
      }
      var path := if "PATH" in env then env["PATH"] else "";
      SetVariable("PATH", Some(PathWith(path, bin)));
      SetVariable("VIRTUAL_ENV", Some(root));
      SetVariable("PYTHONHOME", None);
    }

    /** `deactivate` */
    method Deactivate()
      requires Valid()
      modifies this
      ensures Valid() && Contents() == Deactivated(old(Contents()))
      ensures old(restoreEnvironment) == None ==> env == old(env) && locals == old(locals)
      ensures restoreEnvironment == None
      ensures old(restoreEnvironment).Some? ==>
                forall name :: name in {"PATH", "PYTHONHOME", "VIRTUAL_ENV"} ==>
                  && Get(env, name) == old(restoreEnvironment).value[name]
                  && Get(locals, name) == old(restoreLocals).value[name]
    {
      if restoreEnvironment == None {
        return;
      }
      Restore(true);
    }
  }

  /** The entries of a snapshot outside `rest`. */
  function Part(snapshot: Snapshot, rest: set<string>): Snapshot {
    map name | name in snapshot && name !in rest :: snapshot[name]
  }

  lemma PutOneMore(v: Variables, snapshot: Snapshot, todo: set<string>, name: string)
    requires name in todo && todo <= snapshot.Keys
    ensures PutAll(v, Part(snapshot, todo - {name})) == Put(PutAll(v, Part(snapshot, todo)), name, snapshot[name])
  {
  }
}
