/** Inline comments of rc files, and how their quoting relates to the quoting of the other scanners. */
module RcComments {
  import opened Text
  import opened Quoting

  // ------------------------------------------------------------ inline comments

  /** Where the inline comment of `line` starts, scanning from `i` with the given open quotes. */
  function CommentStart(line: string, i: nat, inSingle: bool, inDouble: bool): (r: Option<nat>)
    ensures r.Some? ==> i <= r.value < |line| && line[r.value] == '#'
    decreases |line| - i
  {
    if i >= |line| then None
    else
      var c := line[i];
      if inSingle then CommentStart(line, i + 1, c != '\'', inDouble)
      else if inDouble then
        if c == '\\' && i + 1 < |line| then CommentStart(line, i + 2, false, true)
        else CommentStart(line, i + 1, false, c != '"')
      else if c == '\'' then CommentStart(line, i + 1, true, false)
      else if c == '"' then CommentStart(line, i + 1, false, true)
      else if c == '#' && (i == 0 || line[i - 1] in " \t") then Some(i)
      else CommentStart(line, i + 1, false, false)
  }

  /** The quoting that comments respect: outside quotes a backslash is an ordinary character. */
  datatype Reading = Outside | InSingle | InDouble | AfterBackslash

  function ReadOn(q: Reading, c: char): Reading {
    match q
    case Outside => if c == '\'' then InSingle else if c == '"' then InDouble else Outside
    case InSingle => if c == '\'' then Outside else InSingle
    case InDouble => if c == '\\' then AfterBackslash else if c == '"' then Outside else InDouble
    case AfterBackslash => InDouble
  }

  /** The state before position `i`. */
  function ReadingAt(line: string, i: nat): Reading
    requires i <= |line|
  {
    if i == 0 then Outside else ReadOn(ReadingAt(line, i - 1), line[i - 1])
  }

  /** A `#` outside quotes that starts a word. */
  predicate StartsComment(line: string, i: nat)
    requires i < |line|
  {
    ReadingAt(line, i) == Outside && line[i] == '#' && WordStart(line, i)
  }

  predicate WordStart(line: string, i: nat)
    requires i < |line|
  {
    i == 0 || line[i - 1] in " \t"
  }

  ghost predicate FirstComment(line: string, r: Option<nat>) {
    match r
    case None => forall j: nat :: j < |line| ==> !StartsComment(line, j)
    case Some(i) => i < |line| && StartsComment(line, i) && forall j: nat :: j < i ==> !StartsComment(line, j)
  }

  /** The scan finds the first `#` outside quotes that starts a word. */
  lemma {:induction false} CommentStartIsFirst(line: string, i: nat, inSingle: bool, inDouble: bool)
    requires i <= |line| && forall j: nat :: j < i ==> !StartsComment(line, j)
    requires i < |line| ==> ReadingAt(line, i) == if inSingle then InSingle else if inDouble then InDouble else Outside
    requires !(inSingle && inDouble)
    ensures FirstComment(line, CommentStart(line, i, inSingle, inDouble))
    decreases |line| - i
  {
    if i < |line| {
      var c := line[i];
      assert ReadingAt(line, i + 1) == ReadOn(ReadingAt(line, i), c);
      if inSingle {
        CommentStartIsFirst(line, i + 1, c != '\'', inDouble);
      } else if inDouble {
        if c == '\\' && i + 1 < |line| {
          assert ReadingAt(line, i + 2) == ReadOn(ReadingAt(line, i + 1), line[i + 1]);
          CommentStartIsFirst(line, i + 2, false, true);
        } else {
          CommentStartIsFirst(line, i + 1, false, c != '"');
        }
      } else if c == '\'' {
        CommentStartIsFirst(line, i + 1, true, false);
      } else if c == '"' {
        CommentStartIsFirst(line, i + 1, false, true);
      } else if !(c == '#' && WordStart(line, i)) {
        CommentStartIsFirst(line, i + 1, false, false);
      }
    }
  }

  function WithoutComment(line: string): string {
    match CommentStart(line, 0, false, false)
    case None => line
    case Some(i) => TrimRight(line[..i])
  }

  method StripInlineComment(line: string) returns (r: string)
    ensures (forall i: nat :: i < |line| ==> !StartsComment(line, i)) ==> r == line
    ensures forall i: nat :: i < |line| && StartsComment(line, i) && (forall j: nat :: j < i ==> !StartsComment(line, j)) ==>
                               r == TrimRight(line[..i])
    ensures r == WithoutComment(line)
  {
    CommentStartIsFirst(line, 0, false, false);
    var inSingle, inDouble := false, false;
    var i := 0;
    while i < |line|
      invariant 0 <= i && !(inSingle && inDouble)
      invariant CommentStart(line, 0, false, false) == CommentStart(line, i, inSingle, inDouble)
      decreases |line| - i
    {
      var c := line[i];
      if inSingle {
        if c == '\'' {
          inSingle := false;
        }
      } else if inDouble {
        if c == '\\' && i + 1 < |line| {
          i := i + 2;
          continue;
        }
        if c == '"' {
          inDouble := false;
        }
      } else {
        if c == '\'' {
          inSingle := true;
        } else if c == '"' {
          inDouble := true;
        } else if c == '#' && (i == 0 || line[i - 1] in " \t") {
          return TrimRight(line[..i]);
        }
      }
      i := i + 1;
    }
    r := line;
  }

  /** Without quotes and `#` up to position `j`, the scan gets there. */
  lemma {:induction false} ScanPlain(line: string, i: nat, j: nat)
    requires i <= j <= |line| && forall k :: i <= k < j ==> line[k] !in "'\"#"
    ensures CommentStart(line, i, false, false) == CommentStart(line, j, false, false)
    decreases j - i
  {
    if i < j {
      ScanPlain(line, i + 1, j);
    }
  }

  lemma {:induction false} ScanQuoted(line: string, i: nat, j: nat, mark: char)
    requires i <= j < |line| && mark in "'\"" && line[j] == mark
    requires forall k :: i <= k < j ==> line[k] != mark && line[k] != '\\'
    ensures CommentStart(line, i, mark == '\'', mark == '"') == CommentStart(line, j + 1, false, false)
    decreases j - i
  {
    if i < j {
      ScanQuoted(line, i + 1, j, mark);
    }
  }

  lemma AtHash(line: string, i: nat)
    requires i < |line| && line[i] == '#'
    ensures CommentStart(line, i, false, false) ==
            if i == 0 || line[i - 1] == ' ' || line[i - 1] == '\t' then Some(i) else CommentStart(line, i + 1, false, false)
  {
    assert i > 0 ==> (line[i - 1] in " \t" <==> line[i - 1] == ' ' || line[i - 1] == '\t');
  }

  lemma NothingLeft(line: string)
    ensures CommentStart(line, |line|, false, false) == None
  {
  }

  /** After text without quotes a `#` starts a comment exactly at the start of the line or after a blank or tab. */
  lemma HashAfter(text: string, rest: string)
    requires forall c :: c in text ==> c !in "'\"#"
    requires '#' !in rest && '\'' !in rest && '"' !in rest
    ensures WithoutComment(text + "#" + rest) ==
            if text == "" || text[|text| - 1] == ' ' || text[|text| - 1] == '\t' then TrimRight(text) else text + "#" + rest
  {
    HashStart(text, rest);
    hide CommentStart, TrimRight;
    assert (text + "#" + rest)[..|text|] == text;
  }

  lemma HashStart(text: string, rest: string)
    requires forall c :: c in text ==> c !in "'\"#"
    requires '#' !in rest && '\'' !in rest && '"' !in rest
    ensures CommentStart(text + "#" + rest, 0, false, false) ==
            if text == "" || text[|text| - 1] == ' ' || text[|text| - 1] == '\t' then Some(|text|) else None
  {
    hide CommentStart;
    var line := text + "#" + rest;
    forall k | 0 <= k < |line|
      ensures line[k] == if k < |text| then text[k] else if k == |text| then '#' else rest[k - |text| - 1]
      ensures k != |text| ==> line[k] !in "'\"#"
    {
    }
    ScanPlain(line, 0, |text|);
    AtHash(line, |text|);
    ScanPlain(line, |text| + 1, |line|);
    NothingLeft(line);
  }

  /** A quoted text keeps its `#`. */
  lemma QuotedHashStays(text: string, mark: char, inner: string)
    requires (forall c :: c in text ==> c !in "'\"#") && mark in "'\"" && mark !in inner && '\\' !in inner
    ensures WithoutComment(text + [mark] + inner + [mark]) == text + [mark] + inner + [mark]
  {
    var line := text + [mark] + inner + [mark];
    assert forall k :: 0 <= k < |text| ==> line[k] == text[k];
    assert forall k :: |text| + 1 <= k < |line| - 1 ==> line[k] == inner[k - |text| - 1];
    ScanPlain(line, 0, |text|);
    ScanQuoted(line, |text| + 1, |line| - 1, mark);
  }

  // ------------------------------------------- comments and the shell's quoting

  /** Both scanners see the same open quote. */
  predicate SameQuoting(a: Reading, q: Quote) {
    match a
    case Outside => q == Plain || q == Bar || q == Escaped
    case InSingle => q == Single
    case InDouble => q == Double
    case AfterBackslash => q == DoubleEscaped
  }

  ghost predicate NoEscapedQuote(line: string) {
    forall i: nat :: i < |line| && At(line, i) == Escaped ==> line[i] != '\'' && line[i] != '"'
  }

  lemma {:induction false} SameQuotingUpTo(line: string, i: nat)
    requires i <= |line| && forall j: nat :: j < i && At(line, j) == Escaped ==> line[j] != '\'' && line[j] != '"'
    ensures SameQuoting(ReadingAt(line, i), At(line, i))
  {
    hide Run;
    if i == 0 {
      NothingRead(line);
    } else {
      SameQuotingUpTo(line, i - 1);
      AtNext(line, i - 1);
    }
  }

  lemma NothingRead(line: string)
    ensures At(line, 0) == Plain
  {
    assert line[..0] == "";
  }

  /**
   * The comment scan sees the same open quotes as the other scanners at every position exactly if no
   * quote is escaped outside quotes.
   */
  lemma CommentScanAgreesIff(line: string)
    ensures (forall i: nat :: i <= |line| ==> SameQuoting(ReadingAt(line, i), At(line, i))) <==> NoEscapedQuote(line)
  {
    hide Run;
    if NoEscapedQuote(line) {
      forall i: nat | i <= |line|
        ensures SameQuoting(ReadingAt(line, i), At(line, i))
      {
        SameQuotingUpTo(line, i);
      }
    } else {
      var i: nat :| i < |line| && At(line, i) == Escaped && (line[i] == '\'' || line[i] == '"');
      AtNext(line, i);
      if SameQuoting(ReadingAt(line, i), At(line, i)) {
        assert !SameQuoting(ReadingAt(line, i + 1), At(line, i + 1));
      }
    }
  }

  /** In such a line comments start exactly at the unquoted `#` that start a word. */
  lemma CommentsAreUnquoted(line: string, i: nat)
    requires NoEscapedQuote(line) && i < |line|
    ensures StartsComment(line, i) <==> Unquoted(At(line, i)) && line[i] == '#' && WordStart(line, i)
  {
    hide Run;
    SameQuotingUpTo(line, i);
    if i == 0 {
      NothingRead(line);
    } else {
      AtNext(line, i - 1);
    }
  }

  /** Otherwise an unquoted comment may be kept: here the escaped quote is taken for an opening one. */
  lemma EscapedQuoteHidesComment()
    ensures var line := "\\\" #"; Unquoted(At(line, 3)) && line[3] == '#' && WordStart(line, 3) && WithoutComment(line) == line
  {
    hide Run, CommentStart;
    var line := "\\\" #";
    NothingRead(line);
    AtNext(line, 0);
    AtNext(line, 1);
    AtNext(line, 2);
    assert ReadingAt(line, 1) == Outside && ReadingAt(line, 2) == InDouble && ReadingAt(line, 3) == InDouble;
    CommentStartIsFirst(line, 0, false, false);
  }
}
