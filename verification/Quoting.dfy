/** One quoting automaton that the hand-written scanners of PySH are measured against. */
module Quoting {
  import opened Text

  /** `Bar` follows an unquoted `|` that is not the second half of `||`. */
  datatype Quote = Plain | Bar | Single | Double | Escaped | DoubleEscaped

  function Step(q: Quote, c: char): Quote {
    match q
    case Plain => if c == '\\' then Escaped else if c == '\'' then Single else if c == '"' then Double
                  else if c == '|' then Bar else Plain
    case Bar => if c == '\\' then Escaped else if c == '\'' then Single else if c == '"' then Double else Plain
    case Single => if c == '\'' then Plain else Single
    case Double => if c == '\\' then DoubleEscaped else if c == '"' then Plain else Double
    case Escaped => Plain
    case DoubleEscaped => Double
  }

  /** The state after reading `s` from state `q`. */
  function Run(q: Quote, s: string): Quote
    decreases |s|
  {
    if s == "" then q else Run(Step(q, s[0]), s[1..])
  }

  /** The state before position `i`. */
  function At(text: string, i: nat): Quote
    requires i <= |text|
  {
    Run(Plain, text[..i])
  }

  predicate Unquoted(q: Quote) { q == Plain || q == Bar }

  lemma {:induction false} RunSplit(q: Quote, a: string, b: string)
    ensures Run(q, a + b) == Run(Run(q, a), b)
    decreases |a|
  {
    if a == "" {
      assert a + b == b;
    } else {
      assert (a + b)[1..] == a[1..] + b;
      RunSplit(Step(q, a[0]), a[1..], b);
    }
  }

  lemma AtNext(text: string, i: nat)
    requires i < |text|
    ensures At(text, i + 1) == Step(At(text, i), text[i])
  {
    assert text[..i + 1] == text[..i] + [text[i]];
    RunSplit(Plain, text[..i], [text[i]]);
    assert [text[i]][1..] == "";
  }

  /** `s`, read in state `q`, starts with an unquoted `|` that is not part of `||`. */
  predicate LoneBar(q: Quote, s: string) {
    q == Plain && s != "" && s[0] == '|' && !(|s| > 1 && s[1] == '|')
  }

  predicate LonePipe(text: string, i: nat)
    requires i < |text|
  {
    LoneBar(At(text, i), text[i..])
  }

  // ------------------------------------------------------------------- stages

  /** Cuts `s`, read in state `q`, at its lone pipes; `current` is the stage read so far. */
  function Cut(q: Quote, s: string, current: string): (r: seq<string>)
    ensures |r| > 0
    decreases |s|
  {
    if s == "" then [current]
    else if LoneBar(q, s) then [current] + Cut(Step(q, s[0]), s[1..], "")
    else Cut(Step(q, s[0]), s[1..], current + [s[0]])
  }

  function StripAll(parts: seq<string>): (r: seq<string>)
    ensures |r| == |parts|
  {
    if parts == [] then [] else [Strip(parts[0])] + StripAll(parts[1..])
  }

  /** What splitting a command at its pipes means. */
  function Stages(command: string): seq<string> {
    if Strip(command) == "" then [] else StripAll(Cut(Plain, command, ""))
  }

  function Join(parts: seq<string>, separator: string): string
    requires parts != []
  {
    if |parts| == 1 then parts[0] else parts[0] + separator + Join(parts[1..], separator)
  }

  lemma {:induction false} CutJoins(q: Quote, s: string, current: string)
    ensures Join(Cut(q, s, current), "|") == current + s
    decreases |s|
  {
    if s == "" {
      assert current + s == current;
    } else if LoneBar(q, s) {
      var rest := Cut(Step(q, s[0]), s[1..], "");
      CutJoins(Step(q, s[0]), s[1..], "");
      assert ([current] + rest)[1..] == rest;
      assert current + "|" + ("" + s[1..]) == current + s;
    } else {
      CutJoins(Step(q, s[0]), s[1..], current + [s[0]]);
      assert current + [s[0]] + s[1..] == current + s;
    }
  }

  /** Nothing is lost or invented: the untrimmed stages joined by `|` are the command. */
  lemma SegmentsRejoin(command: string)
    ensures Join(Cut(Plain, command, ""), "|") == command
  {
    CutJoins(Plain, command, "");
    assert "" + command == command;
  }

  /** There is more than one piece exactly if there is a lone pipe. */
  lemma {:induction false} CutCount(q: Quote, s: string, current: string)
    ensures |Cut(q, s, current)| > 1 <==> exists i: nat :: i < |s| && LoneBar(Run(q, s[..i]), s[i..])
    decreases |s|
  {
    if s != "" {
      var q', t := Step(q, s[0]), s[1..];
      CutCount(q', t, if LoneBar(q, s) then "" else current + [s[0]]);
      forall i: nat | i < |t|
        ensures Run(q, s[..i + 1]) == Run(q', t[..i]) && s[i + 1..] == t[i..]
      {
        assert s[..i + 1][1..] == t[..i];
      }
      assert Run(q, s[..0]) == q && s[0..] == s;
      if LoneBar(q, s) {
        assert LoneBar(Run(q, s[..0]), s[0..]);
      } else if |Cut(q, s, current)| > 1 {
        var i: nat :| i < |t| && LoneBar(Run(q', t[..i]), t[i..]);
        assert LoneBar(Run(q, s[..i + 1]), s[i + 1..]);
      } else {
        forall i: nat | i < |s|
          ensures !LoneBar(Run(q, s[..i]), s[i..])
        {
          if i > 0 {
            assert !LoneBar(Run(q', t[..i - 1]), t[i - 1..]);
          }
        }
      }
    }
  }

  ghost predicate HasLonePipe(text: string) {
    exists i: nat :: i < |text| && LonePipe(text, i)
  }

  /** Scanner agreement: a text has an unquoted pipeline exactly if splitting gives more than one stage. */
  lemma PipelineIffStages(text: string)
    ensures HasLonePipe(text) <==> |Stages(text)| > 1
  {
    CutCount(Plain, text, "");
    if HasLonePipe(text) {
      var i: nat :| i < |text| && LonePipe(text, i);
      assert LoneBar(Run(Plain, text[..i]), text[i..]);
      NotBlank(text, i);
    }
    if |Stages(text)| > 1 {
      var i: nat :| i < |text| && LoneBar(Run(Plain, text[..i]), text[i..]);
      assert LonePipe(text, i);
    }
  }

  lemma {:induction false} TrimRightNotBlank(s: string, i: nat)
    requires i < |s| && !IsSpace(s[i])
    ensures i < |TrimRight(s)| && TrimRight(s) <= s
    decreases |s|
  {
    if IsSpace(s[|s| - 1]) {
      TrimRightNotBlank(s[..|s| - 1], i);
    }
  }

  lemma {:induction false} TrimLeftNotBlank(s: string, i: nat)
    requires i < |s| && !IsSpace(s[i])
    ensures exists k: nat :: k < |TrimLeft(s)| && !IsSpace(TrimLeft(s)[k])
    decreases |s|
  {
    if IsSpace(s[0]) {
      TrimLeftNotBlank(s[1..], i - 1);
      assert TrimLeft(s) == TrimLeft(s[1..]);
    } else {
      assert TrimLeft(s) == s;
    }
  }

  lemma NotBlank(s: string, i: nat)
    requires i < |s| && !IsSpace(s[i])
    ensures Strip(s) != ""
  {
    TrimLeftNotBlank(s, i);
    var k: nat :| k < |TrimLeft(s)| && !IsSpace(TrimLeft(s)[k]);
    TrimRightNotBlank(TrimLeft(s), k);
  }

  // -------------------------------------------------------------- round trip

  predicate NoLoneBar(q: Quote, s: string)
    decreases |s|
  {
    s != "" ==> !LoneBar(q, s) && NoLoneBar(Step(q, s[0]), s[1..])
  }

  /** A stage that does not leave a quote open. */
  predicate Closed(stage: string) {
    Run(Plain, stage) !in {Single, Double, DoubleEscaped}
  }

  /** A stage as the splitter returns it: trimmed, not empty, without a pipe of its own. */
  predicate ProperStage(stage: string) {
    stage != "" && Trimmed(stage) && NoLoneBar(Plain, stage)
  }

  /** A text without lone pipes is read through to what follows it. */
  lemma {:induction false} CutThrough(q: Quote, s: string, t: string, current: string)
    requires NoLoneBar(q, s) && t != "" && t[0] != '|'
    ensures Cut(q, s + t, current) == Cut(Run(q, s), t, current + s)
    decreases |s|
  {
    if s == "" {
      assert s + t == t && current + s == current;
    } else {
      assert (s + t)[1..] == s[1..] + t;
      assert LoneBar(q, s + t) == LoneBar(q, s);
      CutThrough(Step(q, s[0]), s[1..], t, current + [s[0]]);
      assert current + [s[0]] + s[1..] == current + s;
    }
  }

  lemma {:induction false} CutCurrent(q: Quote, s: string, current: string)
    ensures var r, r0 := Cut(q, s, current), Cut(q, s, "");
            r[0] == current + r0[0] && r[1..] == r0[1..]
    decreases |s|
  {
    if s != "" && !LoneBar(q, s) {
      CutCurrent(Step(q, s[0]), s[1..], current + [s[0]]);
      CutCurrent(Step(q, s[0]), s[1..], "" + [s[0]]);
      var r0 := Cut(Step(q, s[0]), s[1..], "");
      assert current + [s[0]] + r0[0] == current + ([s[0]] + r0[0]);
    }
  }

  /** An odd run of bars at the end would be a lone pipe, so it does not end a proper stage. */
  lemma {:induction false} NoBarAtEnd(q: Quote, s: string)
    requires NoLoneBar(q, s) && s != ""
    ensures Run(q, s) != Bar
    decreases |s|
  {
    if |s| == 1 {
      assert s[1..] == "";
    } else {
      NoBarAtEnd(Step(q, s[0]), s[1..]);
    }
  }

  lemma CutClosed(stage: string, rest: string)
    requires ProperStage(stage) && Closed(stage)
    ensures StripAll(Cut(Plain, stage + " | " + rest, "")) == [stage] + StripAll(Cut(Plain, rest, ""))
  {
    var t := " | " + rest;
    assert stage + " | " + rest == stage + t;
    CutThrough(Plain, stage, t, "");
    NoBarAtEnd(Plain, stage);
    var q := Run(Plain, stage);
    assert t[1..] == "| " + rest && ("| " + rest)[1..] == " " + rest && (" " + rest)[1..] == rest;
    assert "" + stage == stage;
    assert Cut(q, t, stage) == Cut(Plain, "| " + rest, stage + " ");
    assert Cut(Plain, "| " + rest, stage + " ") == [stage + " "] + Cut(Bar, " " + rest, "");
    assert Cut(Bar, " " + rest, "") == Cut(Plain, rest, "" + " ");
    StripPadded("", stage, " ");
    assert "" + stage + " " == stage + " ";
    var r, r0 := Cut(Plain, rest, "" + " "), Cut(Plain, rest, "");
    CutCurrent(Plain, rest, "" + " ");
    assert Strip(r[0]) == Strip(r0[0]) by { assert r[0][1..] == r0[0]; }
    assert ([stage + " "] + r)[1..] == r;
  }

  lemma StripLonger(stage: string, more: string)
    requires ProperStage(stage) && |more| >= 3 && more[1] == '|'
    ensures Strip(stage + more) != stage
  {
    var s := stage + more;
    assert TrimLeft(s) == s;
    TrimRightNotBlank(s, |stage| + 1);
  }

  lemma {:induction false} CutKeepsPrefix(q: Quote, s: string, current: string)
    ensures current <= Cut(q, s, current)[0]
    decreases |s|
  {
    if s != "" && !LoneBar(q, s) {
      CutKeepsPrefix(Step(q, s[0]), s[1..], current + [s[0]]);
    }
  }

  lemma CutOpen(stage: string, rest: string)
    requires ProperStage(stage) && !Closed(stage)
    ensures StripAll(Cut(Plain, stage + " | " + rest, ""))[0] != stage
  {
    var t := " | " + rest;
    assert stage + " | " + rest == stage + t;
    CutThrough(Plain, stage, t, "");
    var q := Run(Plain, stage);
    assert "" + stage == stage;
    var q1 := Step(q, ' ');
    assert t[1..] == "| " + rest && ("| " + rest)[1..] == " " + rest && (" " + rest)[1..] == rest;
    assert Cut(q, t, stage) == Cut(q1, "| " + rest, stage + " ");
    assert Cut(q1, "| " + rest, stage + " ") == Cut(q1, " " + rest, stage + " " + "|");
    assert Cut(q1, " " + rest, stage + " " + "|") == Cut(q1, rest, stage + " " + "|" + " ");
    var first := Cut(Plain, stage + " | " + rest, "")[0];
    CutKeepsPrefix(q1, rest, stage + " " + "|" + " ");
    var more := first[|stage|..];
    assert first == stage + more;
    StripLonger(stage, more);
  }

  /**
   * Joining stages by ` | ` and splitting gives them back exactly when no stage but the last
   * leaves a quote open.
   */
  lemma {:induction false} JoinSplitRoundTrip(stages: seq<string>)
    requires stages != [] && forall i :: 0 <= i < |stages| ==> ProperStage(stages[i])
    ensures StripAll(Cut(Plain, Join(stages, " | "), "")) == stages <==>
            forall i :: 0 <= i < |stages| - 1 ==> Closed(stages[i])
    decreases |stages|
  {
    hide Closed, ProperStage;
    var first, text := stages[0], Join(stages, " | ");
    if |stages| == 1 {
      CutWhole(first);
    } else {
      var rest := stages[1..];
      JoinSplitRoundTrip(rest);
      if Closed(first) {
        CutClosed(first, Join(rest, " | "));
        assert stages == [first] + rest;
        if forall i :: 0 <= i < |rest| - 1 ==> Closed(rest[i]) {
          forall i | 0 <= i < |stages| - 1
            ensures Closed(stages[i])
          {
            if i > 0 {
              assert stages[i] == rest[i - 1];
            }
          }
        } else {
          var i :| 0 <= i < |rest| - 1 && !Closed(rest[i]);
          assert stages[i + 1] == rest[i];
        }
      } else {
        CutOpen(first, Join(rest, " | "));
      }
    }
  }

  lemma {:induction false} CutNoBar(q: Quote, s: string, current: string)
    requires NoLoneBar(q, s)
    ensures Cut(q, s, current) == [current + s]
    decreases |s|
  {
    if s == "" {
      assert current + s == current;
    } else {
      CutNoBar(Step(q, s[0]), s[1..], current + [s[0]]);
      assert current + [s[0]] + s[1..] == current + s;
    }
  }

  lemma CutWhole(stage: string)
    requires ProperStage(stage)
    ensures StripAll(Cut(Plain, Join([stage], " | "), "")) == [stage]
  {
    CutNoBar(Plain, stage, "");
    assert "" + stage == stage;
    TrimmedIsStripped(stage);
  }

  /** The same for the splitter itself. */
  lemma SplitRoundTrip(stages: seq<string>)
    requires stages != [] && forall i :: 0 <= i < |stages| ==> ProperStage(stages[i])
    ensures Stages(Join(stages, " | ")) == stages <==> forall i :: 0 <= i < |stages| - 1 ==> Closed(stages[i])
  {
    var text := Join(stages, " | ");
    assert text[0] == stages[0][0] && ProperStage(stages[0]);
    NotBlank(text, 0);
    JoinSplitRoundTrip(stages);
  }
}
