/** From the text of an rc file to the normalized lines that the interpreter runs. */
module RcNormalize {
  import opened Text
  import opened RcSyntax
  import opened RcSemantics
  import opened RcInterpreter
  import opened RcComments
  import RcMeaning

  // ---------------------------------------------------------- keyword splitting

  function SplitKeyword(line: string, keyword: string): seq<string>
    requires EndsWith(line, "; " + keyword)
  {
    var head := TrimRight(line[..|line| - |keyword| - 2]);
    (if head != "" then [head] else []) + [keyword]
  }

  function NormalizeLine(raw: string): seq<string> {
    var line := TrimRight(WithoutComment(raw));
    if line == "" then []
    else if EndsWith(line, "; then") then SplitKeyword(line, "then")
    else if EndsWith(line, "; do") then SplitKeyword(line, "do")
    else [line]
  }

  function Normalize(lines: seq<string>): seq<string> {
    if lines == [] then [] else NormalizeLine(lines[0]) + Normalize(lines[1..])
  }

  const KEYWORDS := ["then", "do"]

  method NormalizeKeywordLines(lines: seq<string>) returns (normalized: seq<string>)
    ensures normalized == Normalize(lines)
  {
    hide NormalizeLine, CommentStart, TrimRight;
    normalized := [];
    assert lines[0..] == lines;
    for i := 0 to |lines|
      invariant Normalize(lines) == normalized + Normalize(lines[i..])
    {
      assert lines[i..][1..] == lines[i + 1..];
      var entries := LineEntries(lines[i]);
      normalized := normalized + entries;
    }
  }

  /** The entries that one raw line becomes. */
  method LineEntries(raw: string) returns (entries: seq<string>)
    ensures entries == NormalizeLine(raw)
  {
    var line := StripInlineComment(raw);
    line := TrimRight(line);
    if line == "" {
      return [];
    }
    entries := SplitLine(line);
  }

  /** The inner loop of normalization over the two keywords. */
  method SplitLine(line: string) returns (entries: seq<string>)
    requires line != ""
    ensures entries == if EndsWith(line, "; then") then SplitKeyword(line, "then")
                       else if EndsWith(line, "; do") then SplitKeyword(line, "do")
                       else [line]
  {
    hide TrimRight;
    assert "; " + "then" == "; then" && "; " + "do" == "; do";
    for k := 0 to 2
      invariant k > 0 ==> !EndsWith(line, "; then")
      invariant k > 1 ==> !EndsWith(line, "; do")
    {
      var marker := "; " + KEYWORDS[k];
      if EndsWith(line, marker) {
        var head := TrimRight(line[..|line| - |marker|]);
        return (if head != "" then [head] else []) + [KEYWORDS[k]];
      }
    }
    entries := [line];
  }

  // -------------------------------------------------------------- source text

  /** A line that normalization leaves alone. */
  predicate Untouched(line: string) {
    && line != "" && CommentStart(line, 0, false, false) == None
    && TrimRight(line) == line && !EndsWith(line, "; then") && !EndsWith(line, "; do")
  }

  /** A header to which `; then` or `; do` can be attached. */
  predicate PlainHeader(line: string) {
    line != "" && CommentStart(line, 0, false, false) == None && TrimRight(line) == line
  }

  /** Statements laid out the usual way: `if ...; then`, `for ...; do`, `while ...; do`. */
  predicate Usual(s: Stmt) {
    match s
    case Command(line) => Untouched(line)
    case If(header, thenLine, thn, els, fiLine) =>
      && PlainHeader(header) && thenLine == "then" && Untouched(fiLine)
      && AllUsual(thn) && (els.Else? ==> Untouched(els.line) && AllUsual(els.body))
    case For(header, doLine, body, doneLine) =>
      PlainHeader(header) && doLine == "do" && Untouched(doneLine) && AllUsual(body)
    case While(header, doLine, body, doneLine) =>
      PlainHeader(header) && doLine == "do" && Untouched(doneLine) && AllUsual(body)
  }

  predicate AllUsual(p: seq<Stmt>) {
    p != [] ==> Usual(p[0]) && AllUsual(p[1..])
  }

  /** The lines of the rc file that a user writes for a statement. */
  function SourceStmt(s: Stmt): seq<string> {
    match s
    case Command(line) => [line]
    case If(header, _, thn, els, fiLine) =>
      [header + "; then"] + Source(thn) + SourceElse(els) + [fiLine]
    case For(header, _, body, doneLine) => [header + "; do"] + Source(body) + [doneLine]
    case While(header, _, body, doneLine) => [header + "; do"] + Source(body) + [doneLine]
  }

  function SourceElse(els: ElsePart): seq<string> {
    match els
    case NoElse => []
    case Else(line, body) => [line] + Source(body)
  }

  function Source(p: seq<Stmt>): seq<string> {
    if p == [] then [] else SourceStmt(p[0]) + Source(p[1..])
  }

  lemma {:induction false} NormalizeAppend(a: seq<string>, b: seq<string>)
    ensures Normalize(a + b) == Normalize(a) + Normalize(b)
  {
    if a == [] {
      assert a + b == b;
    } else {
      assert (a + b)[1..] == a[1..] + b;
      NormalizeAppend(a[1..], b);
    }
  }

  lemma NormalizeOne(line: string)
    ensures Normalize([line]) == NormalizeLine(line)
  {
    assert [line][1..] == [];
  }

  lemma UntouchedLine(line: string)
    requires Untouched(line)
    ensures Normalize([line]) == [line]
  {
    NormalizeOne(line);
  }

  /** Text without `#` can be appended without creating a comment. */
  lemma {:induction false} CommentStartAppend(line: string, suffix: string, i: nat, inSingle: bool, inDouble: bool)
    requires CommentStart(line, i, inSingle, inDouble) == None && '#' !in suffix
    ensures CommentStart(line + suffix, i, inSingle, inDouble) == None
    decreases |line| - i
  {
    if i >= |line| {
      assert forall k :: |line| <= k < |line + suffix| ==> (line + suffix)[k] in suffix;
    } else {
      var c := line[i];
      assert (line + suffix)[i] == c;
      if inSingle {
        CommentStartAppend(line, suffix, i + 1, c != '\'', inDouble);
      } else if inDouble {
        if c == '\\' && i + 1 < |line| {
          CommentStartAppend(line, suffix, i + 2, false, true);
        } else if c == '\\' && i + 1 < |line + suffix| {
          CommentStartAppend(line, suffix, i + 2, false, true);
        } else {
          CommentStartAppend(line, suffix, i + 1, false, c != '"');
        }
      } else if c == '\'' {
        CommentStartAppend(line, suffix, i + 1, true, false);
      } else if c == '"' {
        CommentStartAppend(line, suffix, i + 1, false, true);
      } else {
        assert i > 0 ==> (line + suffix)[i - 1] == line[i - 1];
        CommentStartAppend(line, suffix, i + 1, false, false);
      }
    }
  }

  /** With `; then` or `; do` attached, a line ends in exactly that marker. */
  lemma MarkedLine(header: string, keyword: string)
    requires keyword in {"then", "do"}
    ensures var line := header + "; " + keyword;
            && line == header + ("; " + keyword)
            && line != "" && TrimRight(line) == line && line[..|line| - |keyword| - 2] == header
            && EndsWith(line, "; " + keyword) && (keyword == "do" ==> !EndsWith(line, "; then"))
  {
    var line := header + "; " + keyword;
    assert keyword == "do" ==> line[|line| - 1] == 'o';
  }

  /** A marker at the end of a header becomes a line of its own; blanks before it go. */
  lemma HeaderLine(header: string, gap: string, keyword: string)
    requires PlainHeader(header) && keyword in {"then", "do"} && AllSpace(gap)
    ensures Normalize([header + gap + "; " + keyword]) == [header, keyword]
  {
    hide CommentStart, TrimRight, EndsWith;
    assert '#' !in gap + "; " + keyword;
    CommentStartAppend(header, gap + "; " + keyword, 0, false, false);
    assert header + (gap + "; " + keyword) == header + gap + "; " + keyword;
    TrimRightMore(header, gap);
    MarkedLine(header + gap, keyword);
    assert "; " + "then" == "; then" && "; " + "do" == "; do";
    NormalizeOne(header + gap + "; " + keyword);
  }

  lemma {:induction false} TrimRightMore(s: string, pad: string)
    requires AllSpace(pad)
    ensures TrimRight(s + pad) == TrimRight(s)
    decreases |pad|
  {
    if pad == "" {
      assert s + pad == s;
    } else {
      assert (s + pad)[..|s + pad| - 1] == s + pad[..|pad| - 1];
      TrimRightMore(s, pad[..|pad| - 1]);
    }
  }

  lemma {:induction false} TrimRightTwice(s: string)
    ensures TrimRight(TrimRight(s)) == TrimRight(s)
    decreases |s|
  {
    if s != "" && IsSpace(s[|s| - 1]) {
      TrimRightTwice(s[..|s| - 1]);
    }
  }

  /** Blanks and a comment at the end of a line make no difference. */
  lemma TrailingGoes(line: string, pad: string, comment: string)
    requires forall c :: c in line ==> c !in "'\"#"
    requires pad != "" && forall c :: c in pad ==> c == ' ' || c == '\t'
    requires '#' !in comment && '\'' !in comment && '"' !in comment
    ensures Normalize([line + pad]) == Normalize([line]) == Normalize([line + pad + "#" + comment])
  {
    hide CommentStart, TrimRight, EndsWith;
    forall i | 0 <= i < |pad|
      ensures IsSpace(pad[i])
    {
      assert pad[i] in pad;
    }
    assert (line + pad)[|line + pad| - 1] == pad[|pad| - 1] && pad[|pad| - 1] in pad;
    HashAfter(line + pad, comment);
    ScanPlain(line, 0, |line|);
    ScanPlain(line + pad, 0, |line + pad|);
    NothingLeft(line);
    NothingLeft(line + pad);
    TrimRightMore(line, pad);
    TrimRightTwice(line);
    NormalizeOne(line);
    NormalizeOne(line + pad);
    NormalizeOne(line + pad + "#" + comment);
  }

  lemma {:induction false} NormalizeSourceStmt(s: Stmt)
    requires Usual(s)
    ensures Normalize(SourceStmt(s)) == PrintStmt(s)
    decreases s, 1
  {
    hide NormalizeLine, CommentStart, TrimRight;
    match s
    case Command(line) => UntouchedLine(line);
    case If(header, thenLine, thn, els, fiLine) =>
      HeaderLine(header, "", "then");
      assert header + "" + "; " + "then" == header + "; then";
      NormalizeSource(thn);
      NormalizeSourceElse(els);
      UntouchedLine(fiLine);
      NormalizeAppend([header + "; then"] + Source(thn) + SourceElse(els), [fiLine]);
      NormalizeAppend([header + "; then"] + Source(thn), SourceElse(els));
      NormalizeAppend([header + "; then"], Source(thn));
      assert PrintStmt(s) == [header, "then"] + Print(thn) + PrintElse(els) + [fiLine];
    case For(header, _, body, doneLine) => NormalizeLoop(header, body, doneLine);
    case While(header, _, body, doneLine) => NormalizeLoop(header, body, doneLine);
  }

  lemma {:induction false} NormalizeLoop(header: string, body: seq<Stmt>, doneLine: string)
    requires PlainHeader(header) && Untouched(doneLine) && AllUsual(body)
    ensures Normalize([header + "; do"] + Source(body) + [doneLine]) == [header, "do"] + Print(body) + [doneLine]
    decreases body, 2
  {
    hide NormalizeLine, CommentStart, TrimRight;
    HeaderLine(header, "", "do");
    assert header + "" + "; " + "do" == header + "; do";
    NormalizeSource(body);
    UntouchedLine(doneLine);
    NormalizeAppend([header + "; do"] + Source(body), [doneLine]);
    NormalizeAppend([header + "; do"], Source(body));
  }

  lemma {:induction false} NormalizeSourceElse(els: ElsePart)
    requires els.Else? ==> Untouched(els.line) && AllUsual(els.body)
    ensures Normalize(SourceElse(els)) == PrintElse(els)
    decreases els, 0
  {
    hide NormalizeLine, CommentStart, TrimRight;
    if els.Else? {
      UntouchedLine(els.line);
      NormalizeSource(els.body);
      NormalizeAppend([els.line], Source(els.body));
    }
  }

  lemma {:induction false} NormalizeSource(p: seq<Stmt>)
    requires AllUsual(p)
    ensures Normalize(Source(p)) == Print(p)
    decreases p, 1
  {
    if p != [] {
      NormalizeSourceStmt(p[0]);
      NormalizeSource(p[1..]);
      NormalizeAppend(SourceStmt(p[0]), Source(p[1..]));
    }
  }

  /** Blank lines and lines that hold only a comment are dropped. */
  lemma BlankLinesGo(pad: string, comment: string)
    requires forall c :: c in pad ==> c == ' ' || c == '\t'
    requires '#' !in comment && '\'' !in comment && '"' !in comment
    ensures Normalize([pad]) == [] && Normalize([pad + "#" + comment]) == []
  {
    hide CommentStart;
    forall i | 0 <= i < |pad|
      ensures IsSpace(pad[i])
    {
      assert pad[i] in pad;
    }
    hide TrimRight;
    TrimRightBlank(pad);
    TrimRightBlank("");
    assert pad != "" ==> pad[|pad| - 1] in pad;
    HashAfter(pad, comment);
    ScanPlain(pad, 0, |pad|);
    assert CommentStart(pad, |pad|, false, false) == None by { NothingLeft(pad); }
    NormalizeOne(pad);
    NormalizeOne(pad + "#" + comment);
  }

  lemma {:induction false} TrimRightBlank(s: string)
    requires AllSpace(s)
    ensures TrimRight(s) == ""
    decreases |s|
  {
    if s != "" {
      TrimRightBlank(s[..|s| - 1]);
    }
  }

  /** A marker without anything before it leaves the keyword alone. */
  lemma BareMarker(keyword: string)
    requires keyword in {"then", "do"}
    ensures Normalize(["; " + keyword]) == [keyword]
  {
    hide CommentStart, TrimRight, EndsWith;
    NothingLeft("");
    CommentStartAppend("", "; " + keyword, 0, false, false);
    assert "" + ("; " + keyword) == "; " + keyword == "" + "; " + keyword;
    MarkedLine("", keyword);
    TrimRightBlank("");
    assert "; " + "then" == "; then" && "; " + "do" == "; do";
    NormalizeOne("; " + keyword);
  }

  /** Loading the text of a program in its usual layout runs the program. */
  lemma SourceMeaning<S>(h: Host<S>, p: seq<Stmt>, w: World<S>)
    requires AllWellFormed(p) && AllUsual(p)
    ensures Interpret(h, Normalize(Source(p)), 0, w) == RcMeaning.Ended(Exec(h, p, 0, w))
  {
    NormalizeSource(p);
    RcMeaning.MeaningPreserved(h, p, w);
  }

  /** Normalizing and interpreting, as `execute_rc` does with the lines it has read. */
  method ExecuteLines<S>(h: Host<S>, lines: seq<string>, start: World<S>) returns (w: World<S>, outcome: Outcome)
    ensures Run(w, outcome) == Interpret(h, Normalize(lines), 0, start)
    ensures forall p :: AllWellFormed(p) && AllUsual(p) && lines == Source(p) ==>
                        Exec(h, p, 0, start).0 == w && outcome == Status(Exec(h, p, 0, start).1)
  {
    var normalized := NormalizeKeywordLines(lines);
    w, outcome := InterpretLines(h, normalized, start);
    forall p | AllWellFormed(p) && AllUsual(p) && lines == Source(p)
      ensures Exec(h, p, 0, start).0 == w && outcome == Status(Exec(h, p, 0, start).1)
    {
      SourceMeaning(h, p, start);
    }
  }
}
