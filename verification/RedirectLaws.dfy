/** What the fold of redirections means descriptor by descriptor, and when saving and restoring works. */
module RedirectLaws {
  import opened Text
  import opened Kernel
  import opened Redirect

  // ------------------------------------------------ the last redirection wins

  /** The file that `fd` leads to after `actions`, traced back from the last redirection of `fd`. */
  function Trace(t: Table, actions: seq<Action>, serial: nat, fd: Fd): File
    requires STANDARD <= t.Keys && WellFormed(actions) && fd in t
    decreases |actions|
  {
    if actions == [] then t[fd]
    else
      var earlier, a := actions[..|actions| - 1], actions[|actions| - 1];
      assert a in actions && forall b :: b in earlier ==> b in actions;
      if a.fd != fd then Trace(t, earlier, serial, fd)
      else if a.DupOnto? then Trace(t, earlier, serial, a.source)
      else Opened(serial + OpenCount(earlier), PathOf(a), ModeOf(a))
  }

  lemma WellFormedPrefix(actions: seq<Action>, a: Action)
    requires WellFormed(actions + [a])
    ensures WellFormed(actions) && WellFormed([a])
    ensures actions != [] ==> WellFormed(actions[1..] + [a])
  {
    assert a in actions + [a];
    assert forall b :: b in actions ==> b in actions + [a];
    assert actions != [] ==> forall b :: b in actions[1..] + [a] ==> b in actions + [a];
  }

  lemma {:induction false} FoldLast(t: Table, actions: seq<Action>, a: Action, serial: nat)
    requires STANDARD <= t.Keys && WellFormed(actions + [a]) && WellFormed(actions) && WellFormed([a])
    ensures Fold(t, actions + [a], serial) == Apply(Fold(t, actions, serial), a, serial + OpenCount(actions))
    decreases |actions|
  {
    hide WellFormed, Apply, Fold, Opens, OpenCount;
    WellFormedPrefix(actions, a);
    FoldStep(t, actions + [a], serial);
    ApplyKeys(t, (actions + [a])[0], serial);
    if actions == [] {
      assert actions + [a] == [a] && [a][1..] == [];
      FoldNone(Apply(t, a, serial), serial + Opens(a));
      FoldNone(t, serial);
    } else {
      assert (actions + [a])[1..] == actions[1..] + [a];
      FoldStep(t, actions, serial);
      FoldLast(Apply(t, actions[0], serial), actions[1..], a, serial + Opens(actions[0]));
    }
  }

  lemma ApplyKeys(t: Table, a: Action, serial: nat)
    requires STANDARD <= t.Keys && WellFormed([a])
    ensures Apply(t, a, serial).Keys == t.Keys
  {
    assert a in [a];
  }

  lemma ApplyAt(t: Table, a: Action, serial: nat, fd: Fd)
    requires STANDARD <= t.Keys && WellFormed([a]) && fd in t
    ensures a.DupOnto? ==> a.source in t
    ensures Apply(t, a, serial).Keys == t.Keys
    ensures Apply(t, a, serial)[fd] ==
            if a.fd != fd then t[fd] else if a.DupOnto? then t[a.source] else Opened(serial, PathOf(a), ModeOf(a))
  {
    assert a in [a];
  }

  lemma TraceLast(t: Table, earlier: seq<Action>, a: Action, serial: nat, fd: Fd)
    requires STANDARD <= t.Keys && WellFormed(earlier + [a]) && WellFormed(earlier) && fd in t
    ensures a.DupOnto? ==> a.source in t
    ensures Trace(t, earlier + [a], serial, fd) ==
            if a.fd != fd then Trace(t, earlier, serial, fd)
            else if a.DupOnto? then Trace(t, earlier, serial, a.source)
            else Opened(serial + OpenCount(earlier), PathOf(a), ModeOf(a))
  {
    hide OpenCount;
    var actions := earlier + [a];
    assert a in actions;
    assert actions[..|actions| - 1] == earlier && actions[|actions| - 1] == a;
  }

  /** Every descriptor ends up where its last redirection sends it, duplications seeing the earlier ones. */
  lemma {:induction false} FoldTraces(t: Table, actions: seq<Action>, serial: nat, fd: Fd)
    requires STANDARD <= t.Keys && WellFormed(actions) && fd in t
    ensures Fold(t, actions, serial)[fd] == Trace(t, actions, serial, fd)
    decreases |actions|
  {
    if actions == [] {
      FoldNone(t, serial);
    } else {
      hide Fold, Trace, Apply, WellFormed, OpenCount;
      var earlier, a := actions[..|actions| - 1], actions[|actions| - 1];
      assert actions == earlier + [a];
      WellFormedPrefix(earlier, a);
      FoldLast(t, earlier, a, serial);
      TraceLast(t, earlier, a, serial, fd);
      ApplyAt(Fold(t, earlier, serial), a, serial + OpenCount(earlier), fd);
      FoldTraces(t, earlier, serial, fd);
      if a.DupOnto? {
        FoldTraces(t, earlier, serial, a.source);
      }
    }
  }

  // ----------------------------------------- standard descriptors closed at start

  /** `os.dup` without failures other than a closed source. */
  function DupStep(t: Table, fd: Fd): Option<(Table, Fd)> {
    if fd in t then Some((t[LowestFree(t, 0) := t[fd]], LowestFree(t, 0))) else None
  }

  /** Saves descriptors from `fd` up to 2; the duplicates made before a failure are kept. */
  function SaveFrom(t: Table, fd: Fd): (Table, seq<Fd>)
    decreases 3 - fd
  {
    if fd >= 3 then (t, [])
    else
      match DupStep(t, fd)
      case None => (t, [])
      case Some((t', copy)) =>
        var (t'', copies) := SaveFrom(t', fd + 1);
        (t'', [copy] + copies)
  }

  /** Restores descriptors from `fd` on out of their duplicates and closes these. */
  function RestoreFrom(t: Table, fd: Fd, copies: seq<Fd>): Table
    decreases copies
  {
    if copies == [] then t
    else if copies[0] in t then RestoreFrom(t[fd := t[copies[0]]] - {copies[0]}, fd + 1, copies[1..])
    else RestoreFrom(t - {copies[0]}, fd + 1, copies[1..])
  }

  /** The table after saving and restoring with nothing in between. */
  function SavedAndRestored(t: Table): Table {
    var (t', copies) := SaveFrom(t, 0);
    RestoreFrom(t', 0, copies)
  }

  lemma SaveAll(t: Table)
    requires 0 in t
    ensures var a := LowestFree(t, 0);
            var t1 := t[a := t[0]];
            1 in t1 ==>
              var b := LowestFree(t1, 0);
              var t2 := t1[b := t1[1]];
              2 in t2 ==>
                var c := LowestFree(t2, 0);
                SaveFrom(t, 0) == (t2[c := t2[2]], [a, b, c])
  {
    var a := LowestFree(t, 0);
    var t1 := t[a := t[0]];
    if 1 in t1 {
      var b := LowestFree(t1, 0);
      var t2 := t1[b := t1[1]];
      if 2 in t2 {
        var c := LowestFree(t2, 0);
        assert SaveFrom(t2[c := t2[2]], 3) == (t2[c := t2[2]], []);
        assert SaveFrom(t2, 2) == (t2[c := t2[2]], [c] + []);
        assert SaveFrom(t1, 1) == (t2[c := t2[2]], [b] + ([c] + []));
        assert [a] + ([b] + ([c] + [])) == [a, b, c];
      }
    }
  }

  lemma RestoreAll(t: Table, a: Fd, b: Fd, c: Fd)
    requires a in t && b in t && c in t && 0 < a && a != b && b != c && a != c && b > 1 && c > 2
    ensures var t1 := t[0 := t[a]] - {a};
            var t2 := t1[1 := t1[b]] - {b};
            RestoreFrom(t, 0, [a, b, c]) == t2[2 := t[c]] - {c}
  {
    hide LowestFree;
    var t1 := t[0 := t[a]] - {a};
    var t2 := t1[1 := t1[b]] - {b};
    assert [a, b, c][1..] == [b, c] && [b, c][1..] == [c] && [c][1..] == [];
    assert RestoreFrom(t, 0, [a, b, c]) == RestoreFrom(t1, 1, [b, c]);
    assert RestoreFrom(t1, 1, [b, c]) == RestoreFrom(t2, 2, [c]);
    assert RestoreFrom(t2, 2, [c]) == RestoreFrom(t2[2 := t2[c]] - {c}, 3, []);
  }

  /** Which duplicates `dup` yields when descriptor 0 is open. */
  lemma Duplicates(t: Table)
    requires 0 in t
    ensures var a := LowestFree(t, 0);
            var t1 := t[a := t[0]];
            && a > 0 && (1 !in t ==> a == 1) && (1 in t && 2 !in t ==> a == 2) && (1 in t && 2 in t ==> a > 2)
            && 1 in t1
            && var b := LowestFree(t1, 0);
               var t2 := t1[b := t1[1]];
               && b > 1 && b !in t && b != a && 2 in t2 && (2 in t1 ==> b > 2) && (2 !in t1 ==> b == 2)
               && var c := LowestFree(t2, 0); c > 2 && c !in t && c != a && c != b
  {
    var a := LowestFree(t, 0);
    var t1 := t[a := t[0]];
    assert 1 in t1;
    var b := LowestFree(t1, 0);
    var t2 := t1[b := t1[1]];
    assert 0 in t1 && 1 in t1 && 2 in t2;
    var c := LowestFree(t2, 0);
  }

  /** With the three standard descriptors open, saving and restoring changes nothing. */
  lemma RestoredWhenOpen(t: Table)
    requires STANDARD <= t.Keys
    ensures SavedAndRestored(t) == t
  {
    hide LowestFree;
    Duplicates(t);
    SaveAll(t);
    var a := LowestFree(t, 0);
    var t1 := t[a := t[0]];
    var b := LowestFree(t1, 0);
    var t2 := t1[b := t1[1]];
    var c := LowestFree(t2, 0);
    var t3 := t2[c := t2[2]];
    RestoreAll(t3, a, b, c);
    assert RestoreFrom(t3, 0, [a, b, c]) == t;
  }

  /** With descriptor 0 open but 1 or 2 closed, a closed descriptor comes back open. */
  lemma LeaksWhenClosed(t: Table)
    requires 0 in t && !(STANDARD <= t.Keys)
    ensures SavedAndRestored(t) != t
  {
    hide LowestFree;
    Duplicates(t);
    SaveAll(t);
    var a := LowestFree(t, 0);
    var t1 := t[a := t[0]];
    var b := LowestFree(t1, 0);
    var t2 := t1[b := t1[1]];
    var c := LowestFree(t2, 0);
    var t3 := t2[c := t2[2]];
    RestoreAll(t3, a, b, c);
    assert 1 in SavedAndRestored(t) && 2 in SavedAndRestored(t);
  }

  /**
   * Saving and restoring the standard descriptors gives the table back exactly when descriptor 0
   * is closed (nothing is saved then) or all three are open; otherwise `dup` takes a closed
   * standard number for a duplicate.
   */
  lemma RestoredIff(t: Table)
    ensures SavedAndRestored(t) == t <==> 0 !in t || STANDARD <= t.Keys
  {
    if 0 !in t {
      assert SaveFrom(t, 0) == (t, []);
    } else if STANDARD <= t.Keys {
      RestoredWhenOpen(t);
    } else {
      LeaksWhenClosed(t);
    }
  }
}
