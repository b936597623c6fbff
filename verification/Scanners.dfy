/** The quote-aware scanners of PySH, each proved to see what the common automaton sees. */
module Scanners {
  import opened Text
  import opened Quoting

  /** The characters that `\` escapes inside double quotes, for the scanners that know the difference. */
  const ESCAPABLE := {'"', '\\', '$', '`'}

  /**
   * The flags of a scanner at position `i` against the automaton. A scanner that does not take
   * `\x` for one unit inside double quotes is one character behind the automaton's escape.
   */
  ghost predicate InStep(text: string, i: nat, inSingle: bool, inDouble: bool) {
    && i <= |text|
    && (i < |text| ==>
          if inSingle then At(text, i) == Single
          else if inDouble then At(text, i) == Double || (At(text, i) == DoubleEscaped && text[i] !in ESCAPABLE)
          else At(text, i) == Plain || (At(text, i) == Bar && text[i] != '|'))
  }

  /** What is left to cut from position `i` on. */
  function CutFrom(text: string, i: nat, current: string): seq<string>
    requires i <= |text|
  {
    Cut(At(text, i), text[i..], current)
  }

  lemma CutFromNext(text: string, i: nat, current: string)
    requires i < |text|
    ensures CutFrom(text, i, current) ==
            if LonePipe(text, i) then [current] + CutFrom(text, i + 1, "") else CutFrom(text, i + 1, current + [text[i]])
  {
    AtNext(text, i);
    assert text[i..][1..] == text[i + 1..];
  }

  /** What the splitter does at a position: how far it moves, its next flags, whether it cuts. */
  datatype Move = Move(width: nat, inSingle: bool, inDouble: bool, cuts: bool)

  function SplitterMove(text: string, i: nat, inSingle: bool, inDouble: bool): (m: Move)
    requires i < |text|
    ensures 0 < m.width <= |text| - i && (m.cuts ==> m.width == 1)
  {
    var c, more := text[i], i + 1 < |text|;
    if inSingle then Move(1, c != '\'', inDouble, false)
    else if inDouble then
      if c == '\\' && more && text[i + 1] in ESCAPABLE then Move(2, false, true, false)
      else Move(1, false, c != '"', false)
    else if c == '\\' && more then Move(2, false, false, false)
    else if c == '\'' then Move(1, true, false, false)
    else if c == '"' then Move(1, false, true, false)
    else if c == '|' then
      if more && text[i + 1] == '|' then Move(2, false, false, false) else Move(1, false, false, true)
    else Move(1, false, false, false)
  }

  /** The bisimulation: every move keeps the scanner in step and reads the automaton's stages. */
  lemma MoveInStep(text: string, i: nat, inSingle: bool, inDouble: bool, buf: string)
    requires i < |text| && InStep(text, i, inSingle, inDouble) && !(inSingle && inDouble)
    ensures var m := SplitterMove(text, i, inSingle, inDouble);
            && InStep(text, i + m.width, m.inSingle, m.inDouble) && !(m.inSingle && m.inDouble)
            && CutFrom(text, i, buf) ==
               if m.cuts then [buf] + CutFrom(text, i + 1, "")
               else CutFrom(text, i + m.width, buf + text[i..i + m.width])
  {
    hide Cut, Run;
    var m := SplitterMove(text, i, inSingle, inDouble);
    AtNext(text, i);
    CutFromNext(text, i, buf);
    assert text[i..i + 1] == [text[i]];
    if i + 1 < |text| {
      AtNext(text, i + 1);
      CutFromNext(text, i + 1, buf + [text[i]]);
      assert text[i..][1] == text[i + 1];
    }
    if m.width == 2 {
      assert buf + text[i..i + 2] == buf + [text[i]] + [text[i + 1]];
    }
  }

  /** `split_unquoted_pipe_stages` */
  method SplitUnquotedPipeStages(command: string) returns (parts: seq<string>)
    ensures parts == Stages(command)
  {
    if Strip(command) == "" {
      return [];
    }
    hide StripAll, Cut, CutFrom, Strip, InStep;
    SplitterStart(command);
    parts := [];
    var buf := "";
    var inSingle, inDouble := false, false;
    var i, n := 0, |command|;
    while i < n
      invariant 0 <= i <= n == |command| && !(inSingle && inDouble)
      invariant InStep(command, i, inSingle, inDouble)
      invariant StripAll(Cut(Plain, command, "")) == parts + StripAll(CutFrom(command, i, buf))
      decreases n - i
    {
      var c := command[i];
      MoveInStep(command, i, inSingle, inDouble, buf);
      Slices(command, i);
      if inSingle {
        buf := buf + [c];
        if c == '\'' {
          inSingle := false;
        }
        i := i + 1;
        continue;
      }
      if inDouble {
        if c == '\\' && i + 1 < n && command[i + 1] in ESCAPABLE {
          buf := buf + ([c] + [command[i + 1]]);
          i := i + 2;
          continue;
        }
        buf := buf + [c];
        if c == '"' {
          inDouble := false;
        }
        i := i + 1;
        continue;
      }
      if c == '\\' && i + 1 < n {
        buf := buf + ([c] + [command[i + 1]]);
        i := i + 2;
        continue;
      }
      if c == '\'' {
        inSingle := true;
        buf := buf + [c];
        i := i + 1;
        continue;
      }
      if c == '"' {
        inDouble := true;
        buf := buf + [c];
        i := i + 1;
        continue;
      }
      if c == '|' {
        if i + 1 < n && command[i + 1] == '|' {
          buf := buf + ([c] + [command[i + 1]]);
          i := i + 2;
          continue;
        }
        StripAllCons(parts, buf, CutFrom(command, i + 1, ""));
        parts := parts + [Strip(buf)];
        buf := "";
        i := i + 1;
        continue;
      }
      buf := buf + [c];
      i := i + 1;
    }
    SplitterEnd(command, buf);
    parts := parts + [Strip(buf)];
  }

  lemma SplitterStart(command: string)
    ensures InStep(command, 0, false, false)
    ensures CutFrom(command, 0, "") == Cut(Plain, command, "")
  {
    assert command[0..] == command && command[..0] == "";
  }

  lemma SplitterEnd(command: string, buf: string)
    ensures StripAll(CutFrom(command, |command|, buf)) == [Strip(buf)]
  {
    assert command[|command|..] == "";
  }

  lemma StripAllCons(parts: seq<string>, part: string, rest: seq<string>)
    ensures parts + StripAll([part] + rest) == parts + [Strip(part)] + StripAll(rest)
  {
    assert ([part] + rest)[1..] == rest;
  }

  /** One or two characters of the text, as they are appended to the buffer. */
  lemma Slices(text: string, i: nat)
    requires i < |text|
    ensures text[i..i + 1] == [text[i]]
    ensures i + 1 < |text| ==> text[i..i + 2] == [text[i]] + [text[i + 1]]
  {
  }

  // ------------------------------------------------- searching for characters

  /** An unquoted occurrence of a target: a `|` counts only if it is not part of `||`. */
  predicate Hit(text: string, targets: set<char>, i: nat)
    requires i < |text|
  {
    && Unquoted(At(text, i)) && text[i] in targets
    && text[i] != '\'' && text[i] != '"' && (text[i] == '\\' ==> i + 1 == |text|)
    && (text[i] == '|' ==> LonePipe(text, i))
  }

  /** `_contains_unquoted_any`: here a backslash inside double quotes escapes any character. */
  method ContainsUnquotedAny(text: string, targets: set<char>) returns (found: bool)
    ensures found <==> exists i: nat :: i < |text| && Hit(text, targets, i)
  {
    var inSingle, inDouble := false, false;
    var i := 0;
    assert text[..0] == "";
    while i < |text|
      invariant 0 <= i <= |text| && !(inSingle && inDouble)
      invariant i < |text| ==>
                  if inSingle then At(text, i) == Single
                  else if inDouble then At(text, i) == Double
                  else At(text, i) == Plain || At(text, i) == Bar
      invariant i < |text| && At(text, i) == Bar ==> '|' !in targets
      invariant forall k: nat :: k < i ==> !Hit(text, targets, k)
      decreases |text| - i
    {
      var c := text[i];
      AtNext(text, i);
      if i + 1 < |text| {
        AtNext(text, i + 1);
        assert text[i..][1] == text[i + 1];
      }
      if inSingle {
        if c == '\'' {
          inSingle := false;
        }
        i := i + 1;
        continue;
      }
      if inDouble {
        if c == '\\' && i + 1 < |text| {
          i := i + 2;
          continue;
        }
        if c == '"' {
          inDouble := false;
        }
        i := i + 1;
        continue;
      }
      if c == '\\' && i + 1 < |text| {
        i := i + 2;
        continue;
      }
      if c == '\'' {
        inSingle := true;
      } else if c == '"' {
        inDouble := true;
      } else if c in targets {
        if c == '|' && i + 1 < |text| && text[i + 1] == '|' {
          i := i + 2;
          continue;
        }
        assert Hit(text, targets, i);
        return true;
      }
      i := i + 1;
    }
    found := false;
  }

  /** `_has_unquoted_pipeline` agrees with the splitter on every text. */
  method HasUnquotedPipeline(text: string) returns (found: bool)
    ensures found <==> HasLonePipe(text)
    ensures found <==> |Stages(text)| > 1
  {
    found := ContainsUnquotedAny(text, {'|'});
    PipelineIffStages(text);
    if found {
      var i: nat :| i < |text| && Hit(text, {'|'}, i);
      assert LonePipe(text, i);
    }
    if HasLonePipe(text) {
      var i: nat :| i < |text| && LonePipe(text, i);
      assert Hit(text, {'|'}, i);
    }
  }

  /** A backquote or `$(` that is neither single-quoted nor escaped. */
  predicate StartsSubstitution(text: string, i: nat)
    requires i < |text|
  {
    && At(text, i) in {Plain, Bar, Double}
    && (text[i] == '`' || (text[i] == '$' && i + 1 < |text| && text[i + 1] == '('))
  }

  /** `_contains_command_substitution` */
  method ContainsCommandSubstitution(text: string) returns (found: bool)
    ensures found <==> exists i: nat :: i < |text| && StartsSubstitution(text, i)
  {
    var inSingle, inDouble := false, false;
    var i := 0;
    assert text[..0] == "";
    while i < |text|
      invariant 0 <= i <= |text| && !(inSingle && inDouble)
      invariant i < |text| ==>
                  if inSingle then At(text, i) == Single
                  else if inDouble then At(text, i) == Double
                  else At(text, i) == Plain || At(text, i) == Bar
      invariant forall k: nat :: k < i ==> !StartsSubstitution(text, k)
      decreases |text| - i
    {
      var c := text[i];
      AtNext(text, i);
      if i + 1 < |text| {
        AtNext(text, i + 1);
      }
      if inSingle {
        if c == '\'' {
          inSingle := false;
        }
        i := i + 1;
        continue;
      }
      if c == '\\' && i + 1 < |text| {
        i := i + 2;
        continue;
      }
      if c == '\'' && !inDouble {
        inSingle := true;
        i := i + 1;
        continue;
      }
      if c == '"' {
        inDouble := !inDouble;
        i := i + 1;
        continue;
      }
      if c == '`' {
        assert StartsSubstitution(text, i);
        return true;
      }
      if c == '$' && i + 1 < |text| && text[i + 1] == '(' {
        assert StartsSubstitution(text, i);
        return true;
      }
      i := i + 1;
    }
    found := false;
  }

  // --------------------------------------------------------------- first word

  predicate Blank(text: string, i: nat)
    requires i < |text|
  {
    Unquoted(At(text, i)) && (text[i] == ' ' || text[i] == '\t')
  }

  /** `_split_first_word`: the text up to its first unquoted blank, and the rest. */
  method SplitFirstWord(text: string) returns (word: string, rest: string)
    ensures word + rest == text
    ensures forall k: nat :: k < |word| ==> !Blank(text, k)
    ensures rest != "" ==> Blank(text, |word|)
  {
    var inSingle, inDouble := false, false;
    var i, n := 0, |text|;
    assert text[..0] == "";
    while i < n
      invariant 0 <= i <= n == |text| && !(inSingle && inDouble)
      invariant i < |text| ==>
                  if inSingle then At(text, i) == Single
                  else if inDouble then At(text, i) == Double || (At(text, i) == DoubleEscaped && text[i] !in ESCAPABLE)
                  else At(text, i) == Plain || At(text, i) == Bar
      invariant forall k: nat :: k < i ==> !Blank(text, k)
      decreases n - i
    {
      var c := text[i];
      AtNext(text, i);
      if i + 1 < n {
        AtNext(text, i + 1);
      }
      if inSingle {
        if c == '\'' {
          inSingle := false;
        }
        i := i + 1;
        continue;
      }
      if inDouble {
        if c == '\\' && i + 1 < n && text[i + 1] in ESCAPABLE {
          i := i + 2;
          continue;
        }
        if c == '"' {
          inDouble := false;
        }
        i := i + 1;
        continue;
      }
      if c == '\\' && i + 1 < n {
        i := i + 2;
        continue;
      }
      if c == '\'' {
        inSingle := true;
        i := i + 1;
        continue;
      }
      if c == '"' {
        inDouble := true;
        i := i + 1;
        continue;
      }
      if c == ' ' || c == '\t' {
        break;
      }
      i := i + 1;
    }
    word, rest := text[..i], text[i..];
    assert word + rest == text;
  }
}
