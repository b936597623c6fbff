/** Ordered redirections of descriptors 0, 1 and 2, and their restoration. */
module Redirect {
  import opened Text
  import opened Kernel

  datatype Action =
    | DupOnto(fd: Fd, source: Fd)
    | DataOnto(fd: Fd, data: string)
    | ReadOnto(fd: Fd, path: string)
    | WriteOnto(fd: Fd, path: string, append: bool)

  const STANDARD: set<Fd> := {0, 1, 2}

  /** The parser only names the three standard descriptors. */
  predicate WellFormed(actions: seq<Action>) {
    forall a :: a in actions ==> a.fd in STANDARD && (a.DupOnto? ==> a.source in STANDARD)
  }

  // ------------------------------------------------------ what a command sees

  function ModeOf(a: Action): OpenMode
    requires !a.DupOnto?
  {
    match a
    case DataOnto(_, data) => Scratch(data)
    case ReadOnto(_, _) => ReadOnly
    case WriteOnto(_, _, append) => if append then Append else Truncate
  }

  function PathOf(a: Action): string
    requires !a.DupOnto?
  {
    if a.DataOnto? then "" else a.path
  }

  /** The shell-level effect of one redirection; the n-th opened file gets serial number `serial + n`. */
  function Apply(t: Table, a: Action, serial: nat): Table
    requires STANDARD <= t.Keys && WellFormed([a])
  {
    assert a in [a];
    if a.DupOnto? then t[a.fd := t[a.source]] else t[a.fd := Opened(serial, PathOf(a), ModeOf(a))]
  }

  function Opens(a: Action): nat { if a.DupOnto? then 0 else 1 }

  /** Redirections applied from left to right. */
  function Fold(t: Table, actions: seq<Action>, serial: nat): (r: Table)
    requires STANDARD <= t.Keys && WellFormed(actions)
    ensures r.Keys == t.Keys
    ensures forall fd :: fd in t && fd !in STANDARD ==> r[fd] == t[fd]
    decreases |actions|
  {
    if actions == [] then t
    else
      assert actions[0] in actions && forall a :: a in actions[1..] ==> a in actions;
      Fold(Apply(t, actions[0], serial), actions[1..], serial + Opens(actions[0]))
  }

  /** The pipe ends of a stage, put in place before its redirections. */
  function WithPipes(t: Table, stdin: Option<Fd>, stdout: Option<Fd>): (r: Table)
    requires STANDARD <= t.Keys
    requires (stdin.Some? ==> stdin.value in t) && (stdout.Some? ==> stdout.value in t)
    ensures r.Keys == t.Keys
    ensures forall fd :: fd in t && fd !in STANDARD ==> r[fd] == t[fd]
  {
    var t1 := if stdin.Some? then t[0 := t[stdin.value]] else t;
    if stdout.Some? then t1[1 := t1[stdout.value]] else t1
  }

  /** The table that the body of the context manager is promised. */
  function Target(t: Table, stdin: Option<Fd>, stdout: Option<Fd>, actions: seq<Action>, serial: nat): (r: Table)
    requires STANDARD <= t.Keys && WellFormed(actions)
    requires (stdin.Some? ==> stdin.value in t) && (stdout.Some? ==> stdout.value in t)
    ensures r.Keys == t.Keys
    ensures forall fd :: fd in t && fd !in STANDARD ==> r[fd] == t[fd]
  {
    Fold(WithPipes(t, stdin, stdout), actions, serial)
  }

  lemma FoldStep(t: Table, actions: seq<Action>, serial: nat)
    requires STANDARD <= t.Keys && WellFormed(actions) && actions != []
    ensures WellFormed([actions[0]]) && WellFormed(actions[1..])
    ensures Fold(t, actions, serial) == Fold(Apply(t, actions[0], serial), actions[1..], serial + Opens(actions[0]))
    ensures OpenCount(actions) == Opens(actions[0]) + OpenCount(actions[1..])
  {
  }

  lemma {:induction false} FoldUntouched(t: Table, actions: seq<Action>, serial: nat, fd: Fd)
    requires STANDARD <= t.Keys && WellFormed(actions) && fd in t
    requires forall a :: a in actions ==> a.fd != fd
    ensures Fold(t, actions, serial)[fd] == t[fd]
    decreases |actions|
  {
    if actions == [] {
      FoldNone(t, serial);
    } else {
      FoldStep(t, actions, serial);
      FoldUntouched(Apply(t, actions[0], serial), actions[1..], serial + Opens(actions[0]), fd);
    }
  }

  lemma WellFormedParts(actions: seq<Action>, i: nat)
    requires WellFormed(actions) && i < |actions|
    ensures WellFormed(actions[..i]) && WellFormed([actions[i]]) && WellFormed(actions[i + 1..])
  {
  }

  lemma {:induction false} FoldSplit(t: Table, actions: seq<Action>, serial: nat, i: nat)
    requires STANDARD <= t.Keys && WellFormed(actions) && i < |actions|
    ensures WellFormed(actions[..i]) && WellFormed([actions[i]]) && WellFormed(actions[i + 1..])
    ensures OpenCount(actions) == OpenCount(actions[..i]) + Opens(actions[i]) + OpenCount(actions[i + 1..])
    ensures var now := serial + OpenCount(actions[..i]);
            Fold(t, actions, serial) ==
            Fold(Apply(Fold(t, actions[..i], serial), actions[i], now), actions[i + 1..], now + Opens(actions[i]))
    decreases i
  {
    hide Apply, Opens, WellFormed, Fold, OpenCount;
    WellFormedParts(actions, i);
    FoldStep(t, actions, serial);
    if i == 0 {
      FoldNone(t, serial);
      assert actions[..0] == [];
    } else {
      WellFormedParts(actions, i);
      var first := Apply(t, actions[0], serial);
      ApplyKeeps(t, actions[0], serial);
      FoldSplit(first, actions[1..], serial + Opens(actions[0]), i - 1);
      FoldStep(t, actions[..i], serial);
      assert actions[..i][0] == actions[0] && actions[..i][1..] == actions[1..][..i - 1];
      assert actions[1..][i..] == actions[i + 1..];
    }
  }

  lemma ApplyKeeps(t: Table, a: Action, serial: nat)
    requires STANDARD <= t.Keys && WellFormed([a])
    ensures Apply(t, a, serial).Keys == t.Keys
  {
    assert a in [a];
  }

  lemma FoldNone(t: Table, serial: nat)
    requires STANDARD <= t.Keys
    ensures WellFormed([]) && Fold(t, [], serial) == t && OpenCount([]) == 0
  {
  }

  function OpenCount(actions: seq<Action>): nat {
    if actions == [] then 0 else Opens(actions[0]) + OpenCount(actions[1..])
  }

  // ------------------------------------------------------- the context manager

  datatype Leaving = Clean | FlushFailed | CloseFailed | RestoreFailed

  /** A refused redirection has been undone in this way, and this is the error that it raises. */
  datatype Entering = Entered | Refused(leaving: Leaving, error: Error)

  /** The error of a step is the one that `open` reported, or it comes from another call and is unspecified. */
  predicate Blamed(error: Option<Error>, before: seq<Error>, after: seq<Error>) {
    match error
    case None => after == before
    case Some(e) => after == before + [e] || (e == Unspecified && after == before)
  }

  /** `t` with the descriptors in `back` put back to what they were in `entry`. */
  function PutBack(t: Table, entry: Table, back: set<Fd>): Table
    requires back <= entry.Keys
  {
    map fd | fd in t :: if fd in back then entry[fd] else t[fd]
  }

  lemma PutBackOneMore(t: Table, entry: Table, back: set<Fd>, fd: Fd)
    requires back + {fd} <= entry.Keys && fd in t
    ensures PutBack(t, entry, back + {fd}) == PutBack(t, entry, back)[fd := entry[fd]]
  {
  }

  lemma PutBackWhole(t: Table, entry: Table, back: set<Fd>)
    requires back <= STANDARD <= entry.Keys == t.Keys
    requires forall fd :: fd in entry && fd !in STANDARD ==> t[fd] == entry[fd]
    requires back != STANDARD ==> t == entry
    ensures PutBack(t, entry, back) == entry
  {
  }

  /** What holds a temporary descriptor: `saved`, `opened`, `redirected_streams`, or nothing recorded yet. */
  datatype Holder = Saved(fd: Fd) | OpenedFile | Stream | Unrecorded

  /** The files that a redirection starts from: the standard ones and the pipe ends. */
  function Base(t: Table, stdin: Option<Fd>, stdout: Option<Fd>): set<File>
    requires STANDARD <= t.Keys
    requires (stdin.Some? ==> stdin.value in t) && (stdout.Some? ==> stdout.value in t)
  {
    {t[0], t[1], t[2]}
    + (if stdin.Some? then {t[stdin.value]} else {})
    + (if stdout.Some? then {t[stdout.value]} else {})
  }

  predicate Familiar(file: File, base: set<File>) {
    file.Opened? || file in base
  }

  /** The saved duplicates lead to the files that their descriptors had on entry. */
  ghost predicate Saves(t: Table, saved: map<Fd, Fd>, held: map<Fd, Holder>, entry: Table) {
    && (forall n :: n in saved ==> saved[n] in held && held[saved[n]] == Saved(n))
    && (forall fd :: fd in held && held[fd].Saved? ==>
                       held[fd].fd in saved && saved[held[fd].fd] == fd
                       && held[fd].fd in entry && fd in t && t[fd] == entry[held[fd].fd])
  }

  /** What is left when the streams, then the saved copies, then the opened files are given up. */
  lemma OnlyUnrecorded(before: map<Fd, Holder>, a: map<Fd, Holder>, b: map<Fd, Holder>, c: map<Fd, Holder>)
    requires a == map fd | fd in before && before[fd] != Stream :: before[fd]
    requires b == map fd | fd in a && !a[fd].Saved? :: a[fd]
    requires c == map fd | fd in b && b[fd] != OpenedFile :: b[fd]
    ensures c == map fd | fd in before && before[fd] == Unrecorded :: Unrecorded
  {
    assert forall fd :: fd in c <==> fd in before && before[fd] == Unrecorded;
  }

  /** Temporary descriptors are open; besides them the process sees `visible`. */
  ghost predicate Holds(t: Table, saved: map<Fd, Fd>, held: map<Fd, Holder>, entry: Table, visible: Table) {
    && saved.Keys <= STANDARD <= entry.Keys
    && STANDARD <= visible.Keys
    && held.Keys <= t.Keys
    && visible == t - held.Keys
    && Saves(t, saved, held, entry)
  }

  lemma HoldsRelease(t: Table, saved: map<Fd, Fd>, held: map<Fd, Holder>, entry: Table, visible: Table, fd: Fd)
    requires Holds(t, saved, held, entry, visible) && fd in held && !held[fd].Saved?
    ensures fd in t && Holds(t - {fd}, saved, held - {fd}, entry, visible)
  {
    assert (t - {fd}) - (held - {fd}).Keys == visible;
  }

  /** Setting up: what is visible differs from `entry` in redirected descriptors only. */
  ghost predicate Prepares(t: Table, saved: map<Fd, Fd>, held: map<Fd, Holder>, base: set<File>,
                           entry: Table, visible: Table) {
    && Holds(t, saved, held, entry, visible)
    && visible.Keys == entry.Keys
    && (forall fd :: fd in entry && fd !in STANDARD ==> visible[fd] == entry[fd])
    && (saved.Keys != STANDARD ==> visible == entry)
    && (forall fd :: fd in held ==> Familiar(t[fd], base))
    && (forall fd :: fd in STANDARD ==> Familiar(visible[fd], base))
  }

  lemma PreparesFacts(t: Table, saved: map<Fd, Fd>, held: map<Fd, Holder>, base: set<File>, entry: Table, visible: Table)
    requires Prepares(t, saved, held, base, entry, visible)
    ensures STANDARD <= visible.Keys == entry.Keys && held.Keys <= t.Keys && held.Keys !! visible.Keys
    ensures forall fd :: fd in visible ==> fd in t && t[fd] == visible[fd]
    ensures forall fd :: fd in STANDARD ==> Familiar(visible[fd], base)
  {
  }

  lemma PreparesKeys(t: Table, saved: map<Fd, Fd>, held: map<Fd, Holder>, base: set<File>, entry: Table, visible: Table)
    requires Prepares(t, saved, held, base, entry, visible)
    ensures STANDARD <= visible.Keys == entry.Keys
  {
  }

  lemma PreparesOnto(t: Table, saved: map<Fd, Fd>, held: map<Fd, Holder>, base: set<File>, entry: Table, visible: Table,
                     target: Fd, file: File)
    requires Prepares(t, saved, held, base, entry, visible)
    requires saved.Keys == STANDARD && target in STANDARD && Familiar(file, base)
    ensures Prepares(t[target := file], saved, held, base, entry, visible[target := file])
  {
    assert target in visible;
    assert t[target := file] - held.Keys == visible[target := file];
  }

  lemma PreparesHold(t: Table, saved: map<Fd, Fd>, held: map<Fd, Holder>, base: set<File>, entry: Table, visible: Table,
                     fd: Fd, file: File, holder: Holder)
    requires Prepares(t, saved, held, base, entry, visible)
    requires fd !in t && Familiar(file, base) && !holder.Saved?
    ensures Prepares(t[fd := file], saved, held[fd := holder], base, entry, visible)
  {
    assert t[fd := file] - held[fd := holder].Keys == visible;
  }

  lemma PreparesSave(t: Table, saved: map<Fd, Fd>, held: map<Fd, Holder>, base: set<File>, entry: Table,
                     n: Fd, fd: Fd)
    requires Prepares(t, saved, held, base, entry, entry)
    requires fd !in t && n in STANDARD && n !in saved
    ensures n in t && t[n] == entry[n]
    ensures Prepares(t[fd := t[n]], saved[n := fd], held[fd := Saved(n)], base, entry, entry)
  {
    assert n in t - held.Keys;
    assert t[fd := t[n]] - held[fd := Saved(n)].Keys == entry;
  }

  lemma PreparesRelease(t: Table, saved: map<Fd, Fd>, held: map<Fd, Holder>, base: set<File>, entry: Table, visible: Table,
                        fd: Fd)
    requires Prepares(t, saved, held, base, entry, visible)
    requires fd in held && !held[fd].Saved?
    ensures Prepares(t - {fd}, saved, held - {fd}, base, entry, visible)
  {
    assert (t - {fd}) - (held - {fd}).Keys == visible;
  }

  lemma PreparesFromStart(t: Table, stdin: Option<Fd>, stdout: Option<Fd>)
    requires STANDARD <= t.Keys
    requires (stdin.Some? ==> stdin.value in t) && (stdout.Some? ==> stdout.value in t)
    ensures Prepares(t, map[], map[], Base(t, stdin, stdout), t, t)
    ensures stdin.Some? ==> Familiar(t[stdin.value], Base(t, stdin, stdout))
    ensures stdout.Some? ==> Familiar(t[stdout.value], Base(t, stdin, stdout))
  {
    var held: map<Fd, Holder> := map[];
    assert t - held.Keys == t;
  }

  /** What entering achieves: the fold of the redirections, besides temporary descriptors of familiar files. */
  ghost predicate EnteredFrom(t: Table, t': Table, temps: set<Fd>,
                              stdin: Option<Fd>, stdout: Option<Fd>, actions: seq<Action>, serial: nat)
    requires STANDARD <= t.Keys && WellFormed(actions)
    requires (stdin.Some? ==> stdin.value in t) && (stdout.Some? ==> stdout.value in t)
  {
    && temps <= t'.Keys && temps !! t.Keys
    && t' - temps == Target(t, stdin, stdout, actions, serial)
    && (forall fd :: fd in temps ==> Familiar(t'[fd], Base(t, stdin, stdout)))
    && (forall fd :: fd in STANDARD ==> Familiar(Target(t, stdin, stdout, actions, serial)[fd], Base(t, stdin, stdout)))
  }

  /** The last redirection of a descriptor decides where it leads. */
  lemma LastDecides(t: Table, actions: seq<Action>, serial: nat, i: nat)
    requires STANDARD <= t.Keys && WellFormed(actions) && i < |actions|
    requires forall j :: i < j < |actions| ==> actions[j].fd != actions[i].fd
    ensures actions[i].fd in t
    ensures match actions[i] {
              case ReadOnto(fd, path) => Fold(t, actions, serial)[fd] == Opened(serial + OpenCount(actions[..i]), path, ReadOnly)
              case WriteOnto(fd, path, append) =>
                Fold(t, actions, serial)[fd]
                == Opened(serial + OpenCount(actions[..i]), path, if append then Append else Truncate)
              case DataOnto(fd, data) => Fold(t, actions, serial)[fd] == Opened(serial + OpenCount(actions[..i]), "", Scratch(data))
              case DupOnto(fd, source) =>
                && source in t
                && ((forall j :: 0 <= j < i ==> actions[j].fd != source) ==> Fold(t, actions, serial)[fd] == t[source])
                && ((forall j :: i < j < |actions| ==> actions[j].fd != source) ==>
                      Fold(t, actions, serial)[fd] == Fold(t, actions, serial)[source])
            }
  {
    hide Fold, OpenCount;
    assert actions[i] in actions;
    FoldSplit(t, actions, serial, i);
    var a, now := actions[i], serial + OpenCount(actions[..i]);
    var before := Fold(t, actions[..i], serial);
    ApplyKeeps(before, a, now);
    var after := Apply(before, a, now);
    FoldUntouched(after, actions[i + 1..], now + Opens(a), a.fd);
    if a.DupOnto? {
      if forall j :: 0 <= j < i ==> actions[j].fd != a.source {
        FoldUntouched(t, actions[..i], serial, a.source);
      }
      if forall j :: i < j < |actions| ==> actions[j].fd != a.source {
        FoldUntouched(after, actions[i + 1..], now + Opens(a), a.source);
      }
    }
  }

  /** A descriptor without a redirection leads to the pipe end passed for it, or where it led before. */
  lemma Unredirected(t: Table, t': Table, temps: set<Fd>, stdin: Option<Fd>, stdout: Option<Fd>, actions: seq<Action>, serial: nat)
    requires STANDARD <= t.Keys && WellFormed(actions)
    requires (stdin.Some? ==> stdin.value in t) && (stdout.Some? ==> stdout.value in t)
    requires EnteredFrom(t, t', temps, stdin, stdout, actions, serial)
    ensures t.Keys <= t'.Keys && forall fd :: fd in t && fd > 2 ==> t'[fd] == t[fd]
    ensures (forall a :: a in actions ==> a.fd != 0) ==> t'[0] == t[if stdin.Some? then stdin.value else 0]
    ensures (forall a :: a in actions ==> a.fd != 1) ==>
              t'[1] == t[if stdout.None? then 1 else if stdout.value == 0 && stdin.Some? then stdin.value else stdout.value]
    ensures (forall a :: a in actions ==> a.fd != 2) ==> t'[2] == t[2]
  {
    hide Fold;
    var wired := WithPipes(t, stdin, stdout);
    var target := Target(t, stdin, stdout, actions, serial);
    assert forall fd :: fd in target ==> fd in t' - temps && t'[fd] == target[fd];
    forall fd | fd in STANDARD && forall a :: a in actions ==> a.fd != fd
      ensures target[fd] == wired[fd]
    {
      FoldUntouched(wired, actions, serial, fd);
    }
  }

  /**
   * A redirected descriptor leads where its last redirection sends it. A duplicate of a descriptor
   * that no earlier redirection names is a duplicate of its pipe end, and it stays the same as its
   * source if no later redirection names that.
   */
  lemma Redirected(t: Table, t': Table, temps: set<Fd>, stdin: Option<Fd>, stdout: Option<Fd>, actions: seq<Action>, serial: nat,
                   i: nat)
    requires STANDARD <= t.Keys && WellFormed(actions)
    requires (stdin.Some? ==> stdin.value in t) && (stdout.Some? ==> stdout.value in t)
    requires EnteredFrom(t, t', temps, stdin, stdout, actions, serial)
    requires i < |actions| && forall j :: i < j < |actions| ==> actions[j].fd != actions[i].fd
    ensures t.Keys <= t'.Keys && actions[i].fd in {0, 1, 2}
    ensures var n := serial + OpenCount(actions[..i]);
            match actions[i] {
              case ReadOnto(fd, path) => t'[fd] == Opened(n, path, ReadOnly)
              case WriteOnto(fd, path, append) => t'[fd] == Opened(n, path, if append then Append else Truncate)
              case DataOnto(fd, data) => t'[fd] == Opened(n, "", Scratch(data))
              case DupOnto(fd, source) =>
                && source in {0, 1, 2}
                && ((forall j :: i < j < |actions| ==> actions[j].fd != source) ==> t'[fd] == t'[source])
                && ((forall j :: 0 <= j < i ==> actions[j].fd != source) ==>
                      t'[fd] ==
                      if source == 0 then t[if stdin.Some? then stdin.value else 0]
                      else if source == 2 || stdout.None? then t[source]
                      else t[if stdout.value == 0 && stdin.Some? then stdin.value else stdout.value])
            }
  {
    hide Fold, OpenCount;
    assert actions[i] in actions;
    var target := Target(t, stdin, stdout, actions, serial);
    assert forall fd :: fd in target ==> fd in t' - temps && t'[fd] == target[fd];
    LastDecides(WithPipes(t, stdin, stdout), actions, serial, i);
  }

  class Redirection {
    const p: Process
    var saved: map<Fd, Fd>
    var held: map<Fd, Holder>
    ghost var base: set<File>   // the files the redirection starts from

    constructor (p: Process)
      ensures this.p == p && saved == map[] && held == map[]
    {
      this.p := p;
      saved, held, base := map[], map[], {};
    }

    ghost predicate Holding(entry: Table, visible: Table)
      reads this, p`fds
    {
      Holds(p.fds, saved, held, entry, visible)
    }

    ghost predicate Preparing(entry: Table, visible: Table)
      reads this, p`fds
    {
      Prepares(p.fds, saved, held, base, entry, visible)
    }

    /** Everything that is held has been recorded. */
    ghost predicate Settled()
      reads this
    {
      forall fd :: fd in held ==> held[fd] != Unrecorded
    }

    // ---------------------------------------------------------------- setup

    /** Duplicates descriptors 0, 1 and 2. */
    method Save(ghost entry: Table) returns (ok: bool)
      requires Preparing(entry, entry) && Settled() && saved == map[]
      modifies this`saved, this`held, p`fds, p`faults
      ensures p.faults == old(p.faults) + if ok then 0 else 1
      ensures Preparing(entry, entry) && Settled()
      ensures ok ==> saved.Keys == STANDARD
    {
      hide Prepares;
      var fd := 0;
      while fd < 3
        invariant 0 <= fd <= 3 && forall n: Fd :: n in saved <==> n < fd
        invariant Preparing(entry, entry) && Settled() && p.faults == old(p.faults)
      {
        label before:
        var copy := p.Dup(fd);
        if copy == None {
          return false;
        }
        PreparesSave(old@before(p.fds), saved, held, base, entry, fd, copy.value);
        saved := saved[fd := copy.value];
        held := held[copy.value := Saved(fd)];
        fd := fd + 1;
      }
      ok := true;
    }

    /** `dup2` onto a standard descriptor. */
    method Onto(source: Fd, target: Fd, ghost entry: Table, ghost visible: Table) returns (ok: bool)
      requires Preparing(entry, visible) && saved.Keys == STANDARD && source in p.fds && target in STANDARD
      requires Familiar(p.fds[source], base)
      modifies p`fds, p`faults
      ensures p.faults == old(p.faults) + if ok then 0 else 1
      ensures ok ==> Preparing(entry, visible[target := old(p.fds)[source]])
      ensures !ok ==> Preparing(entry, visible)
    {
      hide Prepares, Familiar;
      ok := p.Dup2(source, target);
      if ok {
        PreparesOnto(old(p.fds), saved, held, base, entry, visible, target, old(p.fds)[source]);
      }
    }

    /** Opens the file of a redirection for a Python object or for the list of opened descriptors. */
    method OpenFile(a: Action, holder: Holder, ghost entry: Table, ghost visible: Table) returns (file: Attempt)
      requires Preparing(entry, visible) && saved.Keys == STANDARD && !a.DupOnto? && !holder.Saved?
      modifies this`held, p`fds, p`serial, p`faults, p`openErrors
      ensures p.faults == old(p.faults) + if file.Got? then 0 else 1
      ensures p.openErrors == old(p.openErrors) + if file.Got? then [] else [file.error]
      ensures Preparing(entry, visible)
      ensures file.Failed? ==> p.serial == old(p.serial) && held == old(held)
      ensures file.Got? ==>
                && file.fd in p.fds && p.fds[file.fd] == Opened(old(p.serial), PathOf(a), ModeOf(a))
                && p.serial == old(p.serial) + 1
                && file.fd !in old(held) && held == old(held)[file.fd := holder]
    {
      hide Prepares;
      file := p.Open(PathOf(a), ModeOf(a));
      if file.Got? {
        assert old(held).Keys <= old(p.fds).Keys by {
          PreparesFacts(old(p.fds), saved, held, base, entry, visible);
        }
        PreparesHold(old(p.fds), saved, held, base, entry, visible, file.fd, p.fds[file.fd], holder);
        held := held[file.fd := holder];
      }
    }

    /** The scratch file, once written and rewound, is duplicated and its Python object closed. */
    method CopyScratch(temp: Fd, ghost entry: Table, ghost visible: Table) returns (copy: Option<Fd>)
      requires Preparing(entry, visible) && saved.Keys == STANDARD && temp in held && held[temp] == Unrecorded
      requires temp in p.fds && Familiar(p.fds[temp], base)
      modifies this`held, p`fds, p`faults
      ensures p.faults == old(p.faults) + if copy.Some? then 0 else 1
      ensures Preparing(entry, visible)
      ensures copy.Some? ==> copy.value in p.fds && p.fds[copy.value] == old(p.fds)[temp]
                             && copy.value !in old(held) && held == old(held)[copy.value := OpenedFile] - {temp}
    {
      hide Prepares;
      PreparesFacts(p.fds, saved, held, base, entry, visible);
      copy := p.Dup(temp);
      if copy.Some? {
        PreparesHold(old(p.fds), saved, held, base, entry, visible, copy.value, p.fds[temp], OpenedFile);
        held := held[copy.value := OpenedFile];
        PreparesRelease(p.fds, saved, held, base, entry, visible, temp);
        p.Close(temp);
        held := held - {temp};
      }
    }

    /** One redirection. */
    method Perform(a: Action, ghost entry: Table, ghost visible: Table) returns (error: Option<Error>)
      requires Preparing(entry, visible) && saved.Keys == STANDARD && WellFormed([a])
      requires Settled()
      modifies this`held, p`fds, p`serial, p`faults, p`openErrors
      ensures p.faults == old(p.faults) + if error.None? then 0 else 1
      ensures Blamed(error, old(p.openErrors), p.openErrors)
      ensures error.Some? && error.value != Unspecified ==> Opens(a) > 0
      ensures error.None? ==>
                && p.serial == old(p.serial) + Opens(a) && Settled()
                && Preparing(entry, Apply(visible, a, old(p.serial)))
      ensures error.Some? ==> Preparing(entry, visible)
    {
      hide Prepares;
      assert a in [a];
      PreparesFacts(p.fds, saved, held, base, entry, visible);
      var ok := false;
      error := Some(Unspecified);
      match a {
        case DupOnto(fd, source) =>
          ok := Onto(source, fd, entry, visible);
        case DataOnto(fd, _) =>
          var temp := OpenFile(a, Unrecorded, entry, visible);
          if temp.Failed? {
            return Some(temp.error);
          }
          var lost := p.Fails();   // writing and rewinding it
          if !lost {
            var copy := CopyScratch(temp.fd, entry, visible);
            if copy.Some? {
              ok := Onto(copy.value, fd, entry, visible);
            }
          }
        case _ =>
          var file := OpenFile(a, OpenedFile, entry, visible);
          if file.Failed? {
            return Some(file.error);
          }
          ok := Onto(file.fd, a.fd, entry, visible);
      }
      if ok {
        error := None;
      }
    }

    /** The replaced `sys` streams: three more duplicates, recorded together once all exist. */
    method OpenStreams(ghost entry: Table, ghost visible: Table) returns (ok: bool)
      requires Preparing(entry, visible) && saved.Keys == STANDARD && Settled()
      modifies this`held, p`fds, p`faults
      ensures p.faults == old(p.faults) + if ok then 0 else 1
      ensures Preparing(entry, visible)
      ensures ok ==> Settled()
    {
      hide Prepares;
      for fd := 0 to 3
        invariant Preparing(entry, visible) && saved.Keys == STANDARD && p.faults == old(p.faults)
      {
        ok := OpenStream(fd, entry, visible);
        if !ok {
          return;
        }
      }
      Record(entry, visible);
      ok := true;
    }

    method OpenStream(fd: Fd, ghost entry: Table, ghost visible: Table) returns (ok: bool)
      requires Preparing(entry, visible) && fd in STANDARD
      modifies this`held, p`fds, p`faults
      ensures p.faults == old(p.faults) + if ok then 0 else 1
      ensures Preparing(entry, visible)
    {
      hide Prepares, Familiar;
      PreparesFacts(p.fds, saved, held, base, entry, visible);
      var copy := p.Dup(fd);
      ok := copy.Some?;
      if ok {
        PreparesHold(old(p.fds), saved, held, base, entry, visible, copy.value, visible[fd], Unrecorded);
        held := held[copy.value := Unrecorded];
      }
    }

    method Record(ghost entry: Table, ghost visible: Table)
      requires Preparing(entry, visible)
      modifies this`held
      ensures Preparing(entry, visible) && Settled()
    {
      held := map fd | fd in held :: if held[fd] == Unrecorded then Stream else held[fd];
      assert held.Keys == old(held).Keys;
    }

    /**
     * Entering: on success the process sees exactly the left-to-right fold of the redirections over
     * the pipe ends; on failure the table is the one it had on entry, unless the cleanup itself failed.
     */
    method Enter(actions: seq<Action>, stdin: Option<Fd>, stdout: Option<Fd>) returns (r: Entering)
      requires STANDARD <= p.fds.Keys && WellFormed(actions) && saved == map[] && held == map[]
      requires (stdin.Some? ==> stdin.value in p.fds) && (stdout.Some? ==> stdout.value in p.fds)
      modifies this, p`fds, p`serial, p`faults, p`late, p`openErrors
      ensures old(p.late) <= p.late && (r.Entered? ==> p.late == old(p.late) && p.openErrors == old(p.openErrors))
      ensures p.faults == old(p.faults) + if r.Entered? then 0 else 1 + (p.late - old(p.late))
      ensures r.Refused? ==>
                && (r.leaving == Clean <==> p.late == old(p.late))
                && old(p.openErrors) <= p.openErrors
                && (r.leaving == Clean ==> Blamed(Some(r.error), old(p.openErrors), p.openErrors))
                && (r.leaving != Clean ==> r.error == Unspecified)
                && (r.error != Unspecified ==> OpenCount(actions) > 0)
      ensures r.Entered? ==>
                && Preparing(old(p.fds), Target(old(p.fds), stdin, stdout, actions, old(p.serial)))
                && saved.Keys == STANDARD && Settled()
                && p.serial == old(p.serial) + OpenCount(actions)
                && EnteredFrom(old(p.fds), p.fds, held.Keys, stdin, stdout, actions, old(p.serial))
      ensures r.Entered? && (forall a :: a in actions ==> a.fd != 0) ==>
                0 in p.fds && p.fds[0] == old(p.fds)[if stdin.Some? then stdin.value else 0]
      ensures r.Entered? && (forall a :: a in actions ==> a.fd != 1) && stdout != Some(0) ==>
                1 in p.fds && p.fds[1] == old(p.fds)[if stdout.Some? then stdout.value else 1]
      ensures r.Entered? && (forall a :: a in actions ==> a.fd != 2) ==>
                2 in p.fds && p.fds[2] == old(p.fds)[2]
      ensures STANDARD <= p.fds.Keys
      ensures r.Refused? && r.leaving == Clean ==> p.fds == old(p.fds)
      ensures r.Refused? && r.leaving == RestoreFailed ==>
                && p.fds.Keys == old(p.fds).Keys
                && forall fd :: fd in p.fds && fd !in STANDARD ==> p.fds[fd] == old(p.fds)[fd]
    {
      hide Prepares, Holds, Target, WithPipes, Base, Fold, OpenCount, Familiar, EnteredFrom;
      ghost var entry := p.fds;
      var unflushed := p.Fails();
      if unflushed {
        return Refused(Clean, Unspecified);
      }
      ghost var visible;
      var error;
      error, visible := Setup(actions, stdin, stdout);
      if error.None? {
        AllSet(stdin, stdout, actions, entry, old(p.serial));
        return Entered;
      }
      var leaving := Undo(entry, visible);
      r := Refused(leaving, if leaving == Clean then error.value else Unspecified);
    }

    lemma AllSet(stdin: Option<Fd>, stdout: Option<Fd>, actions: seq<Action>, entry: Table, serial: nat)
      requires STANDARD <= entry.Keys && WellFormed(actions)
      requires (stdin.Some? ==> stdin.value in entry) && (stdout.Some? ==> stdout.value in entry)
      requires Preparing(entry, Target(entry, stdin, stdout, actions, serial)) && base == Base(entry, stdin, stdout)
      ensures EnteredFrom(entry, p.fds, held.Keys, stdin, stdout, actions, serial) && STANDARD <= p.fds.Keys
      ensures (forall a :: a in actions ==> a.fd != 0) ==> p.fds[0] == entry[if stdin.Some? then stdin.value else 0]
      ensures (forall a :: a in actions ==> a.fd != 1) && stdout != Some(0) ==>
                p.fds[1] == entry[if stdout.Some? then stdout.value else 1]
      ensures (forall a :: a in actions ==> a.fd != 2) ==> p.fds[2] == entry[2]
    {
      hide Target, Base;
      assert held.Keys !! entry.Keys;
      Unredirected(entry, p.fds, held.Keys, stdin, stdout, actions, serial);
    }

    /** What follows a failed setup: the `finally` part, and the end of the frame. */
    method Undo(ghost entry: Table, ghost visible: Table) returns (leaving: Leaving)
      requires Preparing(entry, visible)
      modifies this`saved, this`held, p`fds, p`faults, p`late
      ensures old(p.late) <= p.late && (leaving == Clean <==> p.late == old(p.late))
      ensures p.faults - old(p.faults) == p.late - old(p.late)
      ensures STANDARD <= p.fds.Keys
      ensures leaving == Clean ==> p.fds == entry
      ensures leaving == RestoreFailed ==>
                p.fds.Keys == entry.Keys && forall fd :: fd in p.fds && fd !in STANDARD ==> p.fds[fd] == entry[fd]
    {
      ghost var all := saved.Keys;
      leaving := Leave(entry, visible);
      DropUnrecorded();
      if leaving in {Clean, RestoreFailed} {
        assert held == map[];
        assert p.fds - held.Keys == p.fds;
        PutBackWhole(visible, entry, all);
      }
    }

    /** The `try` part of the context manager, up to the `yield`. */
    method Setup(actions: seq<Action>, stdin: Option<Fd>, stdout: Option<Fd>)
      returns (error: Option<Error>, ghost visible: Table)
      requires STANDARD <= p.fds.Keys && WellFormed(actions) && saved == map[] && held == map[]
      requires (stdin.Some? ==> stdin.value in p.fds) && (stdout.Some? ==> stdout.value in p.fds)
      modifies this, p`fds, p`serial, p`faults, p`openErrors
      ensures p.faults == old(p.faults) + if error.None? then 0 else 1
      ensures Blamed(error, old(p.openErrors), p.openErrors)
      ensures Preparing(old(p.fds), visible)
      ensures base == Base(old(p.fds), stdin, stdout)
      ensures error.Some? && error.value != Unspecified ==> OpenCount(actions) > 0
      ensures error.None? ==>
                && visible == Target(old(p.fds), stdin, stdout, actions, old(p.serial))
                && saved.Keys == STANDARD && Settled()
                && p.serial == old(p.serial) + OpenCount(actions)
    {
      hide Prepares, Familiar;
      ghost var entry := p.fds;
      base := Base(entry, stdin, stdout);
      PreparesFromStart(entry, stdin, stdout);
      error := Some(Unspecified);
      var ok := Save(entry);
      visible := entry;
      if !ok {
        return;
      }
      if stdin.Some? {
        PreparesFacts(p.fds, saved, held, base, entry, visible);
        ok := Onto(stdin.value, 0, entry, visible);
        if !ok {
          return;
        }
        visible := visible[0 := visible[stdin.value]];
      }
      if stdout.Some? {
        PreparesFacts(p.fds, saved, held, base, entry, visible);
        ok := Onto(stdout.value, 1, entry, visible);
        if !ok {
          return;
        }
        visible := visible[1 := visible[stdout.value]];
      }
      assert visible == WithPipes(entry, stdin, stdout);
      error, visible := PerformAll(actions, entry, visible);
      if error.None? {
        ok := OpenStreams(entry, visible);
        error := if ok then None else Some(Unspecified);
      }
    }

    method PerformAll(actions: seq<Action>, ghost entry: Table, ghost start: Table)
      returns (error: Option<Error>, ghost visible: Table)
      requires Preparing(entry, start) && saved.Keys == STANDARD && WellFormed(actions)
      requires Settled()
      modifies this`held, p`fds, p`serial, p`faults, p`openErrors
      ensures p.faults == old(p.faults) + if error.None? then 0 else 1
      ensures Blamed(error, old(p.openErrors), p.openErrors)
      ensures Preparing(entry, visible)
      ensures error.Some? && error.value != Unspecified ==> OpenCount(actions) > 0
      ensures error.None? ==>
                && visible == Fold(start, actions, old(p.serial)) && Settled()
                && p.serial == old(p.serial) + OpenCount(actions)
    {
      hide Prepares, Settled, Fold, Apply, OpenCount, WellFormed;
      PreparesKeys(p.fds, saved, held, base, entry, start);
      visible := start;
      assert actions[0..] == actions;
      for i := 0 to |actions|
        invariant Preparing(entry, visible) && Settled() && saved == old(saved)
        invariant p.faults == old(p.faults) && p.openErrors == old(p.openErrors)
        invariant STANDARD <= visible.Keys && WellFormed(actions[i..])
        invariant Fold(start, actions, old(p.serial)) == Fold(visible, actions[i..], p.serial)
        invariant old(p.serial) + OpenCount(actions) == p.serial + OpenCount(actions[i..]) && old(p.serial) <= p.serial
      {
        assert actions[i..][1..] == actions[i + 1..];
        FoldStep(visible, actions[i..], p.serial);
        ghost var next := Apply(visible, actions[i], p.serial);
        assert OpenCount(actions) >= Opens(actions[i]);
        error := Perform(actions[i], entry, visible);
        if error.Some? {
          return;
        }
        visible := next;
        PreparesKeys(p.fds, saved, held, base, entry, visible);
      }
      PreparesKeys(p.fds, saved, held, base, entry, visible);
      FoldNone(visible, p.serial);
      assert actions[|actions|..] == [];
      error := None;
    }

    // -------------------------------------------------------------- cleanup

    /** Closes the descriptors with this holder; `fallible` closes may raise after the first ones. */
    method CloseHeld(holder: Holder, fallible: bool, ghost entry: Table, ghost visible: Table) returns (ok: bool)
      requires Holding(entry, visible) && !holder.Saved?
      modifies this`held, p`fds, p`faults, p`late
      ensures p.faults == old(p.faults) + (if ok then 0 else 1) && p.late == old(p.late) + (if ok then 0 else 1)
      ensures Holding(entry, visible)
      ensures !fallible ==> ok
      ensures ok ==> held == map fd | fd in old(held) && old(held)[fd] != holder :: old(held)[fd]
    {
      hide Holds;
      var todo := set fd | fd in held && held[fd] == holder;
      while todo != {}
        invariant Holding(entry, visible) && p.faults == old(p.faults) && p.late == old(p.late)
        invariant todo == set fd | fd in held && held[fd] == holder
        invariant forall fd :: fd in held ==> fd in old(held) && held[fd] == old(held)[fd]
        invariant forall fd :: fd in old(held) && old(held)[fd] != holder ==> fd in held
        decreases todo
      {
        var fd :| fd in todo;
        HoldsRelease(p.fds, saved, held, entry, visible, fd);
        p.Close(fd);
        held := held - {fd};
        todo := todo - {fd};
        if fallible {
          var raised := p.LateFails();
          if raised {
            return false;
          }
        }
      }
      assert forall fd :: fd in held && held[fd] == holder ==> fd in todo;
      ok := true;
    }

    /** Puts the saved descriptors back; each duplicate is closed even if its `dup2` fails. */
    method Restore(ghost entry: Table, ghost visible: Table) returns (failed: bool, ghost back: set<Fd>)
      requires Holding(entry, visible)
      modifies this`saved, this`held, p`fds, p`faults, p`late
      ensures old(p.late) <= p.late && (failed <==> p.late != old(p.late))
      ensures p.faults - old(p.faults) == p.late - old(p.late)
      ensures back <= old(saved).Keys <= entry.Keys && (failed <==> back != old(saved).Keys)
      ensures Holding(entry, PutBack(visible, entry, back))
      ensures held == map fd | fd in old(held) && !old(held)[fd].Saved? :: old(held)[fd]
    {
      hide Saves;
      failed, back := false, {};
      var todo := saved.Keys;
      assert PutBack(visible, entry, {}) == visible;
      while todo != {}
        invariant todo == saved.Keys <= old(saved).Keys
        invariant back <= old(saved).Keys - todo && (failed <==> back != old(saved).Keys - todo)
        invariant old(p.late) <= p.late && (failed <==> p.late != old(p.late))
        invariant p.faults - old(p.faults) == p.late - old(p.late)
        invariant Holding(entry, PutBack(visible, entry, back))
        invariant forall fd :: fd in held ==> fd in old(held) && held[fd] == old(held)[fd]
        invariant forall fd :: fd in old(held) && !old(held)[fd].Saved? ==> fd in held
        decreases todo
      {
        var fd :| fd in todo;
        var ok := RestoreOne(fd, entry, PutBack(visible, entry, back));
        if ok {
          PutBackOneMore(visible, entry, back, fd);
          back := back + {fd};
        } else {
          failed := true;
        }
        todo := todo - {fd};
      }
      NoneSaved(entry, PutBack(visible, entry, back));
    }

    lemma NoneSaved(entry: Table, visible: Table)
      requires Holding(entry, visible) && saved == map[]
      ensures forall fd :: fd in held ==> !held[fd].Saved?
    {
    }

    method RestoreOne(fd: Fd, ghost entry: Table, ghost visible: Table) returns (ok: bool)
      requires Holding(entry, visible) && fd in saved
      modifies this`saved, this`held, p`fds, p`faults, p`late
      ensures p.faults == old(p.faults) + (if ok then 0 else 1) && p.late == old(p.late) + (if ok then 0 else 1)
      ensures saved == old(saved) - {fd} && held == old(held) - {old(saved)[fd]}
      ensures old(saved)[fd] in old(held) && old(held)[old(saved)[fd]] == Saved(fd)
      ensures Holding(entry, if ok then visible[fd := entry[fd]] else visible)
    {
      var copy := saved[fd];
      assert fd in visible;
      ok := p.LateDup2(copy, fd);
      p.Close(copy);
      saved := saved - {fd};
      held := held - {copy};
      assert p.fds - held.Keys == if ok then visible[fd := entry[fd]] else visible;
    }

    /** The `finally` part. */
    method Leave(ghost entry: Table, ghost visible: Table) returns (leaving: Leaving)
      requires Holding(entry, visible)
      modifies this`saved, this`held, p`fds, p`faults, p`late
      ensures old(p.late) <= p.late && (leaving == Clean <==> p.late == old(p.late))
      ensures p.faults - old(p.faults) == p.late - old(p.late)
      ensures held.Keys <= p.fds.Keys && held.Keys !! STANDARD && STANDARD <= p.fds.Keys
      ensures leaving == FlushFailed ==> p.fds == old(p.fds)
      ensures leaving == Clean ==> p.fds - held.Keys == PutBack(visible, entry, old(saved).Keys)
      ensures leaving == RestoreFailed ==>
                exists back :: back < old(saved).Keys && p.fds - held.Keys == PutBack(visible, entry, back)
      ensures leaving in {Clean, RestoreFailed} ==>
                held == map fd | fd in old(held) && old(held)[fd] == Unrecorded :: Unrecorded
    {
      hide Saves, PutBack;
      var unflushed := p.LateFails();
      if unflushed {
        return FlushFailed;
      }
      var ok := CloseHeld(Stream, true, entry, visible);
      if !ok {
        return CloseFailed;
      }
      ghost var a := held;
      var failed;
      ghost var back;
      failed, back := Restore(entry, visible);
      ghost var b := held;
      ok := CloseHeld(OpenedFile, false, entry, PutBack(visible, entry, back));
      OnlyUnrecorded(old(held), a, b, held);
      leaving := if failed then RestoreFailed else Clean;
    }

    /** Python closes the objects that only the frame still refers to. */
    method DropUnrecorded()
      requires held.Keys <= p.fds.Keys && held.Keys !! STANDARD
      modifies this`held, p`fds
      ensures STANDARD <= old(p.fds).Keys ==> STANDARD <= p.fds.Keys
      ensures held == map fd | fd in old(held) && old(held)[fd] != Unrecorded :: old(held)[fd]
      ensures p.fds - held.Keys == old(p.fds) - old(held).Keys
      ensures held.Keys <= p.fds.Keys
    {
      var todo := set fd | fd in held && held[fd] == Unrecorded;
      while todo != {}
        invariant held.Keys !! STANDARD && (STANDARD <= old(p.fds).Keys ==> STANDARD <= p.fds.Keys)
        invariant held.Keys <= p.fds.Keys && todo == set fd | fd in held && held[fd] == Unrecorded
        invariant forall fd :: fd in held ==> fd in old(held) && held[fd] == old(held)[fd]
        invariant forall fd :: fd in old(held) && old(held)[fd] != Unrecorded ==> fd in held
        invariant p.fds - held.Keys == old(p.fds) - old(held).Keys
        decreases todo
      {
        var fd :| fd in todo;
        p.Close(fd);
        held := held - {fd};
        todo := todo - {fd};
      }
      assert forall fd :: fd in held && held[fd] == Unrecorded ==> fd in todo;
    }
  }
}
