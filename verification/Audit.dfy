/** The append-only audit sink and the fan-out that feeds it. */
module Audit {
  import opened Text

  type Byte = bv8
  type Bytes = seq<Byte>

  /** The file and the sink in front of it. */
  datatype Sink = Sink(file: Bytes, open: bool, failed: bool)

  // ------------------------------------------------------ specification functions

  /**
   * How much of a line of this length gets written when successive writes take `counts` bytes and
   * the write after them fails.
   */
  function Accepted(length: nat, counts: seq<nat>): (r: nat)
    ensures r <= length
    decreases length
  {
    if length == 0 || counts == [] then 0
    else
      var n := if counts[0] == 0 then 1 else if counts[0] > length then length else counts[0];
      n + Accepted(length - n, counts[1..])
  }

  /** After these writes `left` bytes of a line of this length are left, whatever comes next. */
  ghost predicate Taken(length: nat, counts: seq<nat>, left: nat) {
    left <= length && forall more :: Accepted(length, counts + more) == length - left + Accepted(left, more)
  }

  lemma TakenNothing(length: nat)
    ensures Taken(length, [], length)
  {
    assert forall more: seq<nat> :: [] + more == more;
  }

  lemma TakenIsAccepted(length: nat, counts: seq<nat>, left: nat)
    requires Taken(length, counts, left)
    ensures Accepted(length, counts) == length - left
  {
    assert counts + [] == counts;
  }

  lemma TakenStep(length: nat, counts: seq<nat>, left: nat, n: nat)
    requires Taken(length, counts, left) && 0 < n <= left
    ensures Taken(length, counts + [n], left - n)
  {
    forall more
      ensures Accepted(length, counts + [n] + more) == length - left + n + Accepted(left - n, more)
    {
      assert counts + [n] + more == counts + ([n] + more);
      assert ([n] + more)[1..] == more;
    }
  }

  /** One event: a line is encoded and appended; an error ends the sink for good. */
  function Write<E>(encode: E -> Option<Bytes>, s: Sink, event: E, counts: seq<nat>): Sink {
    if s.failed || !s.open then s
    else
      match encode(event)
      case None => s
      case Some(line) =>
        var n := Accepted(|line|, counts);
        if n == |line| then s.(file := s.file + line)
        else Sink(s.file + line[..n], false, true)
  }

  function WriteAll<E>(encode: E -> Option<Bytes>, s: Sink, events: seq<(E, seq<nat>)>): Sink
    decreases |events|
  {
    if events == [] then s
    else WriteAll(encode, Write(encode, s, events[0].0, events[0].1), events[1..])
  }

  function Concat(lines: seq<Bytes>): Bytes {
    if lines == [] then [] else lines[0] + Concat(lines[1..])
  }

  lemma {:induction false} ConcatAppend(a: seq<Bytes>, b: seq<Bytes>)
    ensures Concat(a + b) == Concat(a) + Concat(b)
  {
    if a == [] {
      assert a + b == b;
    } else {
      assert (a + b)[1..] == a[1..] + b;
      ConcatAppend(a[1..], b);
    }
  }

  // ---------------------------------------------------------------- the law

  /** The lines of the events that were encoded, up to the first failure. */
  function Lines<E>(encode: E -> Option<Bytes>, s: Sink, events: seq<(E, seq<nat>)>): seq<Bytes>
    decreases |events|
  {
    if events == [] || s.failed || !s.open then []
    else
      var s' := Write(encode, s, events[0].0, events[0].1);
      match encode(events[0].0)
      case None => Lines(encode, s', events[1..])
      case Some(line) => [line] + Lines(encode, s', events[1..])
  }

  /** The lines with all but `n` bytes of the last one cut off. */
  function AllBut(lines: seq<Bytes>, n: nat): Bytes
    requires lines != [] && n <= |lines[|lines| - 1]|
  {
    Concat(lines[..|lines| - 1]) + lines[|lines| - 1][..n]
  }

  /** From `s` to `s'` these lines were appended; a failed sink may have cut the last one, and is closed. */
  ghost predicate Appended(s: Sink, s': Sink, lines: seq<Bytes>) {
    if !s'.failed then s'.file == s.file + Concat(lines) && s'.open == s.open
    else
      && lines != [] && !s'.open
      && exists n: nat | n < |lines[|lines| - 1]| :: s'.file == s.file + AllBut(lines, n)
  }

  /**
   * After any events, partial writes and failures the file holds its old content and then whole
   * encoded lines in order; only if the sink failed, the last line may be a proper prefix.
   */
  lemma {:induction false} AuditLaw<E>(encode: E -> Option<Bytes>, s: Sink, events: seq<(E, seq<nat>)>)
    requires !s.failed
    ensures Appended(s, WriteAll(encode, s, events), Lines(encode, s, events))
    decreases |events|
  {
    if events == [] || !s.open {
      ClosedStays(encode, s, events);
      assert s.file + [] == s.file;
    } else {
      var s1 := Write(encode, s, events[0].0, events[0].1);
      if s1.failed {
        ClosedStays(encode, s1, events[1..]);
        var line := encode(events[0].0).value;
        var lines, n := Lines(encode, s, events), Accepted(|line|, events[0].1);
        assert Lines(encode, s1, events[1..]) == [];
        assert lines == [line] && lines[..0] == [];
        assert AllBut(lines, n) == [] + line[..n] == line[..n];
      } else {
        AuditLaw(encode, s1, events[1..]);
        if encode(events[0].0).Some? {
          OneMoreLine(s, s1, encode(events[0].0).value, Lines(encode, s1, events[1..]), WriteAll(encode, s1, events[1..]));
        }
      }
    }
  }

  lemma OneMoreLine(s: Sink, s1: Sink, line: Bytes, lines: seq<Bytes>, s': Sink)
    requires s1.file == s.file + line && s1.open == s.open
    requires Appended(s1, s', lines)
    ensures Appended(s, s', [line] + lines)
  {
    var all := [line] + lines;
    assert all[1..] == lines;
    assert s.file + (line + Concat(lines)) == s.file + line + Concat(lines);
    if s'.failed {
      var n: nat :| n < |lines[|lines| - 1]| && s'.file == s1.file + AllBut(lines, n);
      assert all[..|all| - 1] == [line] + lines[..|lines| - 1];
      assert all[..|all| - 1][1..] == lines[..|lines| - 1];
      assert AllBut(all, n) == line + AllBut(lines, n);
      assert s.file + (line + AllBut(lines, n)) == s.file + line + AllBut(lines, n);
    }
  }

  /** A sink that failed or was closed writes nothing any more. */
  lemma {:induction false} ClosedStays<E>(encode: E -> Option<Bytes>, s: Sink, events: seq<(E, seq<nat>)>)
    requires s.failed || !s.open || events == []
    ensures WriteAll(encode, s, events) == s
    decreases |events|
  {
    if events != [] {
      ClosedStays(encode, s, events[1..]);
    }
  }

  // ------------------------------------------------------------------ the class

  class AuditLogSink<!E> {
    const encode: E -> Option<Bytes>
    var file: Bytes     // the contents of the opened file
    var open: bool      // `_fd is not None`
    var failed: bool
    var faults: nat     // writes and closes that failed

    constructor (encode: E -> Option<Bytes>, file: Bytes)
      ensures this.encode == encode && Contents() == Sink(file, true, false)
    {
      this.encode, this.file, open, failed, faults := encode, file, true, false, 0;
    }

    function Contents(): Sink
      reads this
    {
      Sink(file, open, failed)
    }

    /** `os.write`: an error, or at least one byte of the view appended. */
    method WriteSome(view: Bytes) returns (count: Option<nat>)
      requires view != []
      modifies this`file, this`faults
      ensures faults == old(faults) + if count.Some? then 0 else 1
      ensures count == None ==> file == old(file)
      ensures count.Some? ==> 0 < count.value <= |view| && file == old(file) + view[..count.value]
    {
      var n: int := *;
      if n <= 0 || n > |view| {
        faults := faults + 1;
        return None;
      }
      file := file + view[..n];
      count := Some(n);
    }

    /** `write_structured_event`; `raised` says that the event could not be encoded. */
    method WriteStructuredEvent(event: E) returns (raised: bool, ghost counts: seq<nat>)
      modifies this
      ensures Contents() == Write(encode, old(Contents()), event, counts)
      ensures failed != old(failed) <==> faults != old(faults)
      ensures raised <==> old(open) && !old(failed) && encode(event) == None
      ensures !old(open) || old(failed) || encode(event) == None ==> Contents() == old(Contents())
      ensures old(open) && !old(failed) && encode(event).Some? ==>
                if faults == old(faults) then open && !failed && file == old(file) + encode(event).value
                else !open && failed && exists n :: 0 <= n < |encode(event).value| && file == old(file) + encode(event).value[..n]
    {
      counts := [];
      if failed || !open {
        return false, counts;
      }
      var data := encode(event);
      if data == None {
        return true, counts;
      }
      counts := WriteLine(data.value);
      raised := false;
    }

    method WriteLine(line: Bytes) returns (ghost counts: seq<nat>)
      requires open && !failed
      modifies this
      ensures Contents() == var n := Accepted(|line|, counts);
                            if n == |line| then old(Contents()).(file := old(file) + line)
                            else Sink(old(file) + line[..n], false, true)
      ensures failed <==> faults != old(faults)
      ensures if failed then !open && exists n :: 0 <= n < |line| && file == old(file) + line[..n]
              else open && file == old(file) + line
    {
      hide Accepted, Taken;
      counts := [];
      var view := line;
      TakenNothing(|line|);
      assert file == old(file) + line[..0];
      while view != []
        invariant open && !failed && faults == old(faults)
        invariant |view| <= |line| && view == line[|line| - |view|..]
        invariant file == old(file) + line[..|line| - |view|]
        invariant Taken(|line|, counts, |view|)
        decreases |view|
      {
        TakenIsAccepted(|line|, counts, |view|);
        var written := WriteSome(view);
        if written == None {
          failed := true;
          Close();
          return;
        }
        var n := written.value;
        TakenStep(|line|, counts, |view|, n);
        assert line[..|line| - |view|] + view[..n] == line[..|line| - |view| + n];
        counts := counts + [n];
        view := view[n..];
      }
      TakenIsAccepted(|line|, counts, 0);
      assert line[..|line|] == line;
    }

    /** `close`: may be called again; a failing close marks the sink as failed. */
    method Close()
      modifies this`open, this`failed, this`faults
      ensures !open && old(faults) <= faults <= old(faults) + (if old(open) then 1 else 0)
      ensures failed <==> old(failed) || faults != old(faults)
    {
      if open {
        open := false;
        var fails: bool := *;
        if fails {
          failed, faults := true, faults + 1;
        }
      }
    }
  }

  // ------------------------------------------------------------------ fan-out

  /** How a sink takes an event: it works, it fails in a contained way, or a foreign error escapes. */
  datatype Outcome = Works | Fails | Escapes

  /** Any other sink: what it does to its own state, and how it takes the event. */
  type Handler<!E, !X> = (E, X) -> (X, Outcome)

  /** The sinks are called in order until an error escapes. */
  function CallAll<E, X>(hs: seq<Handler<E, X>>, xs: seq<X>, event: E): (r: (seq<X>, bool))
    requires |hs| == |xs|
    ensures |r.0| == |xs|
  {
    if hs == [] then (xs, false)
    else
      var (x, outcome) := hs[0](event, xs[0]);
      if outcome == Escapes then ([x] + xs[1..], true)
      else
        var (rest, escaped) := CallAll(hs[1..], xs[1..], event);
        ([x] + rest, escaped)
  }

  /** All sinks: the audit sink stands between `before` and `after`, which have their own states. */
  datatype Sinks<X> = Sinks(audit: Sink, xs: seq<X>, ys: seq<X>)

  function FanOut<E, X>(encode: E -> Option<Bytes>, before: seq<Handler<E, X>>, after: seq<Handler<E, X>>,
                        all: Sinks<X>, event: E, counts: seq<nat>): (r: (Sinks<X>, bool))
    requires |before| == |all.xs| && |after| == |all.ys|
    ensures |before| == |r.0.xs| && |after| == |r.0.ys|
  {
    var (xs, escaped) := CallAll(before, all.xs, event);
    if escaped then (all.(xs := xs), true)
    else
      var (ys, escaped') := CallAll(after, all.ys, event);
      (Sinks(Write(encode, all.audit, event, counts), xs, ys), escaped')
  }

  function Deliver<E, X>(encode: E -> Option<Bytes>, before: seq<Handler<E, X>>, after: seq<Handler<E, X>>,
                         all: Sinks<X>, events: seq<(E, seq<nat>)>): Sinks<X>
    requires |before| == |all.xs| && |after| == |all.ys|
    decreases |events|
  {
    if events == [] then all
    else Deliver(encode, before, after, FanOut(encode, before, after, all, events[0].0, events[0].1).0, events[1..])
  }

  /** The events that get past the first sinks: on the others one of these lets an error escape. */
  function Passed<E, X>(before: seq<Handler<E, X>>, xs: seq<X>, events: seq<(E, seq<nat>)>): seq<(E, seq<nat>)>
    requires |before| == |xs|
    decreases |events|
  {
    if events == [] then []
    else
      var (xs', escaped) := CallAll(before, xs, events[0].0);
      (if escaped then [] else [events[0]]) + Passed(before, xs', events[1..])
  }

  /**
   * Whatever the other sinks do, wherever they stand and however they fail, the audit file is what the
   * audit sink makes of the events that no sink before it has let escape; the sinks after it have no
   * influence at all.
   */
  lemma {:induction false} OthersDoNotMatter<E, X>(encode: E -> Option<Bytes>,
      before: seq<Handler<E, X>>, after: seq<Handler<E, X>>, all: Sinks<X>, events: seq<(E, seq<nat>)>)
    requires |before| == |all.xs| && |after| == |all.ys|
    ensures Deliver(encode, before, after, all, events).audit == WriteAll(encode, all.audit, Passed(before, all.xs, events))
    decreases |events|
  {
    if events != [] {
      var all' := FanOut(encode, before, after, all, events[0].0, events[0].1).0;
      OthersDoNotMatter(encode, before, after, all', events[1..]);
      var rest := Passed(before, all'.xs, events[1..]);
      assert [] + rest == rest && ([events[0]] + rest)[1..] == rest;
    }
  }

  /** The other way round: whatever the audit sink does, the sinks before it get every event. */
  lemma {:induction false} AuditDoesNotMatter<E, X>(encode: E -> Option<Bytes>,
      before: seq<Handler<E, X>>, after: seq<Handler<E, X>>, a: Sinks<X>, b: Sinks<X>, events: seq<(E, seq<nat>)>)
    requires |before| == |a.xs| && |after| == |a.ys| && a.xs == b.xs && a.ys == b.ys
    ensures var (a', b') := (Deliver(encode, before, after, a, events), Deliver(encode, before, after, b, events));
            a'.xs == b'.xs && a'.ys == b'.ys
    decreases |events|
  {
    if events != [] {
      AuditDoesNotMatter(encode, before, after, FanOut(encode, before, after, a, events[0].0, events[0].1).0,
                         FanOut(encode, before, after, b, events[0].0, events[0].1).0, events[1..]);
    }
  }

  /** `r` with these states in front. */
  function Behind<X>(done: seq<X>, r: (seq<X>, bool)): (seq<X>, bool) {
    (done + r.0, r.1)
  }

  lemma CallAllNext<E, X>(hs: seq<Handler<E, X>>, xs: seq<X>, event: E, i: nat, done: seq<X>)
    requires i < |hs| == |xs|
    ensures var (x, outcome) := hs[i](event, xs[i]);
            Behind(done, CallAll(hs[i..], xs[i..], event)) ==
            if outcome == Escapes then (done + [x] + xs[i + 1..], true)
            else Behind(done + [x], CallAll(hs[i + 1..], xs[i + 1..], event))
  {
    var (x, outcome) := hs[i](event, xs[i]);
    assert hs[i..][1..] == hs[i + 1..] && xs[i..][1..] == xs[i + 1..];
    assert done + ([x] + xs[i + 1..]) == done + [x] + xs[i + 1..];
    var rest := CallAll(hs[i + 1..], xs[i + 1..], event).0;
    assert done + ([x] + rest) == done + [x] + rest;
  }

  lemma CallAllEnds<E, X>(hs: seq<Handler<E, X>>, xs: seq<X>, event: E, done: seq<X>)
    requires |hs| == |xs|
    ensures Behind([], CallAll(hs[0..], xs[0..], event)) == CallAll(hs, xs, event)
    ensures Behind(done, CallAll(hs[|hs|..], xs[|hs|..], event)) == (done, false)
  {
    assert hs[0..] == hs && xs[0..] == xs;
    assert [] + CallAll(hs, xs, event).0 == CallAll(hs, xs, event).0;
    assert xs[|hs|..] == [] && done + [] == done;
  }

  /** The loop over some sinks. */
  method CallSinks<E, X>(hs: seq<Handler<E, X>>, xs: seq<X>, event: E) returns (xs': seq<X>, escaped: bool)
    requires |hs| == |xs|
    ensures (xs', escaped) == CallAll(hs, xs, event)
    ensures |xs'| == |xs| && (escaped <==> exists j :: 0 <= j < |hs| && hs[j](event, xs[j]).1 == Escapes)
    ensures forall i :: 0 <= i < |hs| ==>
              xs'[i] == if exists j :: 0 <= j < i && hs[j](event, xs[j]).1 == Escapes then xs[i] else hs[i](event, xs[i]).0
  {
    hide CallAll, Behind;
    xs' := [];
    CallAllEnds(hs, xs, event, xs');
    for i := 0 to |hs|
      invariant Behind(xs', CallAll(hs[i..], xs[i..], event)) == CallAll(hs, xs, event)
      invariant |xs'| == i && forall k :: 0 <= k < i ==> hs[k](event, xs[k]).1 != Escapes && xs'[k] == hs[k](event, xs[k]).0
    {
      CallAllNext(hs, xs, event, i, xs');
      var result := hs[i](event, xs[i]);
      xs' := xs' + [result.0];
      if result.1 == Escapes {
        return xs' + xs[i + 1..], true;
      }
    }
    CallAllEnds(hs, xs, event, xs');
    escaped := false;
  }

  /** `StructuredSinkFanOut.__call__` with the audit sink at one place among others. */
  method CallFanOut<E, X>(sink: AuditLogSink<E>, event: E, before: seq<Handler<E, X>>, xs: seq<X>,
                          after: seq<Handler<E, X>>, ys: seq<X>)
    returns (xs': seq<X>, ys': seq<X>, escaped: bool, ghost counts: seq<nat>)
    requires |before| == |xs| && |after| == |ys|
    modifies sink
    ensures (Sinks(sink.Contents(), xs', ys'), escaped) ==
            FanOut(sink.encode, before, after, Sinks(old(sink.Contents()), xs, ys), event, counts)
    ensures |xs'| == |xs| && |ys'| == |ys|
    ensures (exists j :: 0 <= j < |before| && before[j](event, xs[j]).1 == Escapes) ==>
              escaped && ys' == ys && sink.Contents() == old(sink.Contents())
    ensures (forall j :: 0 <= j < |before| ==> before[j](event, xs[j]).1 != Escapes) ==>
              && (forall i :: 0 <= i < |before| ==> xs'[i] == before[i](event, xs[i]).0)
              && (escaped <==> exists j :: 0 <= j < |after| && after[j](event, ys[j]).1 == Escapes)
              && (!escaped ==> forall i :: 0 <= i < |after| ==> ys'[i] == after[i](event, ys[i]).0)
              && (old(sink.open) && !old(sink.failed) && sink.encode(event).Some? && sink.faults == old(sink.faults) ==>
                    sink.file == old(sink.file) + sink.encode(event).value)
  {
    hide CallAll;
    counts, ys' := [], ys;
    xs', escaped := CallSinks(before, xs, event);
    if escaped {
      return;
    }
    var raised;
    raised, counts := sink.WriteStructuredEvent(event);
    ys', escaped := CallSinks(after, ys, event);
  }
}
