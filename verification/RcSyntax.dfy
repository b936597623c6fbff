/** Line syntax of `~/.pyshrc`: headers, block collection and branch splitting. */
module RcSyntax {
  import opened Text

  const OPENERS := {"if", "for", "while"}
  const CLOSERS := {"fi", "done"}
  const ELSES := {"else", "else:"}

  // ------------------------------------------------------------------ headers

  function StripTrailingSemicolon(line: string): string {
    if EndsWith(line, ";") then TrimRight(line[..|line| - 1]) else line
  }

  /** The condition of an `if` or `while` header; None if the header is malformed. */
  function Condition(header: string, keyword: string): Option<string> {
    var text := Strip(header);
    if !StartsWith(text, keyword + " ") then None
    else Some(Strip(StripTrailingSemicolon(Strip(text[|keyword| + 1..]))))
  }

  predicate NameStart(c: char) {
    'a' <= c <= 'z' || 'A' <= c <= 'Z' || c == '_'
  }

  predicate IsName(s: string) {
    s != "" && NameStart(s[0]) && forall i :: 0 <= i < |s| ==> NameStart(s[i]) || '0' <= s[i] <= '9'
  }

  /** The loop variable and items of a `for` header; `words` stands for `shlex.split`. */
  function ForHeader(words: string -> Option<seq<string>>, header: string): Option<(string, seq<string>)> {
    var text := Strip(header);
    if !StartsWith(text, "for ") then None
    else
      var body := Strip(text[4..]);
      match Find(body, " in ")
      case None => None
      case Some(i) =>
        var name := Strip(body[..i]);
        if !IsName(name) then None
        else
          match words(Strip(StripTrailingSemicolon(body[i + 4..])))
          case None => None
          case Some(items) => Some((name, items))
  }

  /** A text that can be the condition or the items of a header. */
  predicate HeaderText(text: string) {
    text != "" && Trimmed(text) && text[|text| - 1] != ';'
  }

  /** Blanks and a semicolon after the text of a header go. */
  lemma TailGoes(text: string, gap: string)
    requires HeaderText(text) && AllSpace(gap)
    ensures Trimmed(text + gap + ";") && StripTrailingSemicolon(text) == text && StripTrailingSemicolon(text + gap + ";") == text
  {
    var ended := text + gap + ";";
    assert ended[..|ended| - 1] == text + gap && ended[|ended| - 1..] == ";";
    TrimRightPadded(text, gap);
  }

  /** The same when the text is itself preceded by blanks. */
  lemma PaddedTailGoes(left: string, text: string, gap: string)
    requires HeaderText(text) && AllSpace(left) && AllSpace(gap)
    ensures Strip(StripTrailingSemicolon(left + text)) == text && Strip(StripTrailingSemicolon(left + text + gap + ";")) == text
  {
    hide Strip;
    var plain, ended := left + text, left + text + gap + ";";
    assert ended[..|ended| - 1] == left + text + gap && ended[|ended| - 1..] == ";";
    assert plain[|plain| - 1] == text[|text| - 1];
    EndsOpen(left + text, gap);
    StripPadded(left, text, "");
    assert left + text + "" == left + text;
  }

  lemma {:induction false} EndsOpen(s: string, pad: string)
    requires AllSpace(pad) && s != "" && !IsSpace(s[|s| - 1])
    ensures TrimRight(s + pad) == s
  {
    if pad == "" {
      assert s + pad == s;
    } else {
      assert (s + pad)[..|s + pad| - 1] == s + pad[..|pad| - 1];
      EndsOpen(s, pad[..|pad| - 1]);
    }
  }

  /**
   * Reading a header gives back the condition it was written with, whatever blanks stand around it,
   * with or without a semicolon.
   */
  lemma ConditionOfHeader(left: string, keyword: string, mid: string, condition: string, gap: string, right: string)
    requires keyword in {"if", "while"} && HeaderText(condition)
    requires AllSpace(left) && AllSpace(mid) && AllSpace(gap) && AllSpace(right)
    ensures Condition(left + (keyword + " " + mid + condition) + right, keyword) == Some(condition)
    ensures Condition(left + (keyword + " " + mid + (condition + gap + ";")) + right, keyword) == Some(condition)
  {
    TailGoes(condition, gap);
    ConditionOne(left, keyword, mid, condition, right, condition);
    ConditionOne(left, keyword, mid, condition + gap + ";", right, condition);
  }

  lemma ConditionOne(left: string, keyword: string, mid: string, tail: string, right: string, condition: string)
    requires keyword in {"if", "while"} && tail != "" && Trimmed(tail) && AllSpace(left) && AllSpace(mid) && AllSpace(right)
    requires StripTrailingSemicolon(tail) == condition && Trimmed(condition)
    ensures Condition(left + (keyword + " " + mid + tail) + right, keyword) == Some(condition)
  {
    hide Strip, StripTrailingSemicolon;
    var text := keyword + " " + mid + tail;
    assert text[0] == keyword[0] && text[|text| - 1] == tail[|tail| - 1];
    StripPadded(left, text, right);
    assert text == (keyword + " ") + (mid + tail) && text[|keyword| + 1..] == mid + tail;
    StripPadded(mid, tail, "");
    assert mid + tail + "" == mid + tail;
    TrimmedIsStripped(condition);
  }

  /** Only the ` in ` after the blanks behind the name is found. */
  lemma {:induction false} FindAfterName(front: string, rest: string)
    requires forall i :: 0 <= i < |front| - 1 ==> !(front[i] == ' ' && front[i + 1] == 'i')
    ensures Find(front + " in " + rest, " in ") == Some(|front|)
  {
    var s := front + " in " + rest;
    if front == "" {
      assert s == " in " + rest;
    } else {
      assert s[0] == front[0] && s[1..] == front[1..] + " in " + rest;
      assert |front| == 1 ==> s[1] == ' ';
      assert |front| > 1 ==> s[1] == front[1];
      FindAfterName(front[1..], rest);
    }
  }

  /** A text without blanks. */
  predicate OneWord(s: string) {
    s != "" && forall i :: 0 <= i < |s| ==> !IsSpace(s[i])
  }

  /** A variable name: a letter or `_`, then letters, digits and `_`. */
  predicate Variable(s: string) {
    && OneWord(s) && !('0' <= s[0] <= '9')
    && forall i :: 0 <= i < |s| ==> 'a' <= s[i] <= 'z' || 'A' <= s[i] <= 'Z' || '0' <= s[i] <= '9' || s[i] == '_'
  }

  /**
   * Reading a `for` header gives back the variable and the items it was written with, whatever blanks
   * stand around them; a word that is no variable name is refused.
   */
  lemma ForHeaderOf(words: string -> Option<seq<string>>, left: string, name: string, text: string, gap: string, right: string)
    requires OneWord(name) && HeaderText(text) && AllSpace(left) && AllSpace(gap) && AllSpace(right)
    ensures var plain, ended := ForHeader(words, left + ("for " + gap + name + gap + " in " + (gap + text)) + right),
                                ForHeader(words, left + ("for " + gap + name + gap + " in " + (gap + text + gap + ";")) + right);
            plain == ended ==
            if !Variable(name) then None else match words(text) case None => None case Some(items) => Some((name, items))
  {
    hide ForHeader, Strip, StripTrailingSemicolon, IsName, OneWord;
    PaddedTailGoes(gap, text, gap);
    ForHeaderOne(words, left, name, gap, gap + text, text, right);
    ForHeaderOne(words, left, name, gap, gap + text + gap + ";", text, right);
  }

  lemma ForHeaderOne(words: string -> Option<seq<string>>, left: string, name: string, gap: string, tail: string, text: string,
                     right: string)
    requires OneWord(name) && tail != "" && !IsSpace(tail[|tail| - 1]) && Strip(StripTrailingSemicolon(tail)) == text
    requires AllSpace(left) && AllSpace(gap) && AllSpace(right)
    ensures ForHeader(words, left + ("for " + gap + name + gap + " in " + tail) + right) ==
            if !Variable(name) then None else match words(text) case None => None case Some(items) => Some((name, items))
  {
    var header, body := "for " + gap + name + gap + " in " + tail, name + gap + " in " + tail;
    hide ForHeader, Strip, StripTrailingSemicolon, Find, Trimmed, StartsWith, IsName, OneWord, Variable, AllSpace;
    NameIff(name);
    ForHeaderParts(name, gap, tail);
    BlanksAreNone();
    StripPadded(left, header, right);
    StripPadded(gap, body, "");
    assert gap + body + "" == gap + body;
    StripPadded("", name, gap);
    assert "" + name + gap == name + gap;
    FindAfterName(name + gap, tail);
    ForHeaderReads(words, left + header + right, header, body, |name + gap|, name, text);
  }

  lemma ForHeaderReads(words: string -> Option<seq<string>>, line: string, header: string, body: string, at: nat,
                       name: string, text: string)
    requires Strip(line) == header && StartsWith(header, "for ") && Strip(header[4..]) == body
    requires Find(body, " in ") == Some(at) && Strip(body[..at]) == name
    requires Strip(StripTrailingSemicolon(body[at + 4..])) == text
    ensures ForHeader(words, line) ==
            if !IsName(name) then None else match words(text) case None => None case Some(items) => Some((name, items))
  {
    hide Strip, StripTrailingSemicolon, Find, IsName;
  }

  lemma BlanksAreNone()
    ensures AllSpace("")
  {
  }

  lemma NameIff(name: string)
    requires OneWord(name)
    ensures IsName(name) <==> Variable(name)
  {
  }

  lemma ForHeaderParts(name: string, gap: string, tail: string)
    requires OneWord(name) && AllSpace(gap) && tail != "" && !IsSpace(tail[|tail| - 1])
    ensures var header, body := "for " + gap + name + gap + " in " + tail, name + gap + " in " + tail;
            && Trimmed(header) && Trimmed(body) && Trimmed(name) && header != "" && body != "" && name != ""
            && StartsWith(header, "for ") && header[4..] == gap + body
            && body[..|name + gap|] == name + gap && |name + gap| + 4 <= |body| && body[|name + gap| + 4..] == tail
    ensures forall i :: 0 <= i < |name + gap| - 1 ==> !((name + gap)[i] == ' ' && (name + gap)[i + 1] == 'i')
  {
    var header, body := "for " + gap + name + gap + " in " + tail, name + gap + " in " + tail;
    assert header == "for " + (gap + body);
    assert header[|header| - 1] == tail[|tail| - 1] && body[|body| - 1] == tail[|tail| - 1];
    assert body[0] == name[0];
    forall i | 0 <= i < |name + gap| - 1
      ensures !((name + gap)[i] == ' ' && (name + gap)[i + 1] == 'i')
    {
      if i + 1 < |name| {
        assert (name + gap)[i] == name[i];
      } else {
        assert (name + gap)[i + 1] == gap[i + 1 - |name|];
      }
    }
  }

  // --------------------------------------------------------- block collection

  predicate Opens(line: string) { FirstWord(line) in OPENERS }

  predicate Closes(line: string) { Strip(line) in CLOSERS }

  function Closer(word: string): string {
    if word == "if" then "fi" else "done"
  }

  /** How many of the `rest` lines it takes to bring nesting `depth` down to zero. */
  function CloseAt(rest: seq<string>, depth: nat): (r: Option<nat>)
    requires depth > 0
    ensures r.Some? ==> 0 < r.value <= |rest|
  {
    if rest == [] then None
    else if !Opens(rest[0]) && Closes(rest[0]) && depth == 1 then Some(1)
    else
      var depth' := if Opens(rest[0]) then depth + 1 else if Closes(rest[0]) then depth - 1 else depth;
      match CloseAt(rest[1..], depth')
      case None => None
      case Some(n) => Some(n + 1)
  }

  /** The length of the block that `lines[0]` opens; None if it is not closed, or closed by the wrong closer. */
  function BlockLength(lines: seq<string>): (r: Option<nat>)
    requires lines != []
    ensures r.Some? ==> 1 < r.value <= |lines|
  {
    match CloseAt(lines[1..], 1)
    case None => None
    case Some(n) => if Strip(lines[n]) == Closer(FirstWord(lines[0])) then Some(n + 1) else None
  }

  /** One line of the search for the end of a block. */
  lemma CloseAtNext(lines: seq<string>, idx: nat, depth: nat)
    requires idx < |lines| && depth > 0
    ensures var line := lines[idx];
            CloseAt(lines[idx..], depth) ==
            if !Opens(line) && Closes(line) && depth == 1 then Some(1)
            else
              match CloseAt(lines[idx + 1..], if Opens(line) then depth + 1 else if Closes(line) then depth - 1 else depth)
              case None => None
              case Some(n) => Some(n + 1)
  {
    hide FirstWord, Strip;
    assert lines[idx..][1..] == lines[idx + 1..];
  }

  lemma NoMoreLines(lines: seq<string>)
    ensures forall depth: nat :: depth > 0 ==> CloseAt(lines[|lines|..], depth) == None
  {
  }

  /** Collects the block that starts at a line, by counting openers and closers. */
  method CollectBlock(lines: seq<string>, start: nat) returns (body: seq<string>, end: nat, ok: bool)
    requires start < |lines|
    ensures ok <==> BlockLength(lines[start..]).Some?
    ensures ok ==> end == start + BlockLength(lines[start..]).value && body == lines[start..end]
  {
    hide FirstWord, Strip, CloseAt;
    var closer := Closer(FirstWord(lines[start]));
    var depth := 1;
    body := [lines[start]];
    var idx := start + 1;
    ghost var tail := lines[start..][1..];
    assert tail == lines[idx..];
    NoMoreLines(lines);
    while idx < |lines|
      invariant start < idx <= |lines|
      invariant depth >= 1
      invariant body == lines[start..idx]
      invariant CloseAt(tail, 1) ==
                match CloseAt(lines[idx..], depth) case None => None case Some(n) => Some(n + (idx - start - 1))
    {
      var line := lines[idx];
      var stripped := Strip(line);
      var first := FirstWord(line);
      CloseAtNext(lines, idx, depth);
      body := body + [line];
      idx := idx + 1;
      if first in OPENERS {
        depth := depth + 1;
        continue;
      }
      if stripped in CLOSERS {
        depth := depth - 1;
        if depth == 0 {
          assert lines[start..][idx - start - 1] == line;
          return body, idx, stripped == closer;
        }
        continue;
      }
    }
    return body, idx, false;
  }

  // ---------------------------------------------------------- branch splitting

  datatype Branches = Branches(thn: seq<string>, els: Option<seq<string>>)
  {
    /** Adds lines to the branch that is being read. */
    function Add(lines: seq<string>): Branches {
      if els.Some? then this.(els := Some(els.value + lines)) else this.(thn := thn + lines)
    }

    function Size(): nat { |thn| + if els.Some? then |els.value| else 0 }
  }

  function NextDepth(line: string, depth: nat): nat {
    if FirstWord(line) in OPENERS then depth + 1
    else if FirstWord(line) in CLOSERS && depth > 0 then depth - 1
    else depth
  }

  /** Reads the remaining lines of an if-body into its branches. */
  function ScanBranches(lines: seq<string>, depth: nat, b: Branches): (r: Branches)
    ensures r.Size() <= b.Size() + |lines|
  {
    if lines == [] then b
    else
      var depth' := NextDepth(lines[0], depth);
      if depth' == 0 && Strip(lines[0]) in ELSES then ScanBranches(lines[1..], depth', b.(els := Some([])))
      else ScanBranches(lines[1..], depth', b.Add([lines[0]]))
  }

  /** Condition, then-branch and optional else-branch of a collected if-block. */
  function SplitBranches(body: seq<string>): (r: Option<(string, Branches)>)
    requires |body| >= 2
    ensures r.Some? ==> r.value.1.Size() + 2 < |body|
  {
    var inner := body[1..|body| - 1];
    match Condition(body[0], "if")
    case None => None
    case Some(condition) =>
      if inner == [] || Strip(inner[0]) != "then" then None
      else Some((condition, ScanBranches(inner[1..], 0, Branches([], None))))
  }

  /** Among lines that open and close nothing, exactly `else` and `else:` start an else-branch. */
  lemma {:induction false} FlatScan(lines: seq<string>, b: Branches)
    requires forall line :: line in lines ==> FirstWord(line) !in {"if", "for", "while", "fi", "done"}
    ensures ScanBranches(lines, 0, b).els.Some? <==>
            b.els.Some? || exists line :: line in lines && Strip(line) in {"else", "else:"}
  {
    hide FirstWord, Strip;
    if lines != [] {
      assert lines[0] in lines;
      if Strip(lines[0]) in {"else", "else:"} {
        FlatScan(lines[1..], b.(els := Some([])));
      } else {
        FlatScan(lines[1..], b.Add([lines[0]]));
        assert forall line :: line in lines <==> line == lines[0] || line in lines[1..];
      }
    }
  }

  /**
   * Splits an if-block in one pass over its inner lines. Where nothing is nested there is an
   * else-branch exactly if some line is `else` or `else:`.
   */
  method SplitIfBlock(body: seq<string>) returns (condition: string, b: Branches, ok: bool)
    requires |body| >= 2
    ensures ok <==> SplitBranches(body).Some?
    ensures ok ==> SplitBranches(body) == Some((condition, b))
    ensures ok <==> Condition(body[0], "if").Some? && |body| > 2 && Strip(body[1]) == "then"
    ensures ok ==> Condition(body[0], "if") == Some(condition)
    ensures ok && (forall line :: line in body[2..|body| - 1] ==> FirstWord(line) !in {"if", "for", "while", "fi", "done"}) ==>
              (b.els.Some? <==> exists line :: line in body[2..|body| - 1] && Strip(line) in {"else", "else:"})
  {
    hide FirstWord, Strip, Condition;
    b := Branches([], None);
    condition := "";
    match Condition(body[0], "if") {
      case None => return condition, b, false;
      case Some(c) => condition := c;
    }
    var inner := body[1..|body| - 1];
    if inner == [] || Strip(inner[0]) != "then" {
      return condition, b, false;
    }
    inner := inner[1..];
    var depth: nat := 0;
    for i := 0 to |inner|
      invariant ScanBranches(inner, 0, Branches([], None)) == ScanBranches(inner[i..], depth, b)
    {
      var line := inner[i];
      var first := FirstWord(line);
      assert inner[i..][1..] == inner[i + 1..];
      if first in OPENERS {
        depth := depth + 1;
      } else if first in CLOSERS {
        depth := if depth > 0 then depth - 1 else 0;
      }
      if depth == 0 && Strip(line) in ELSES {
        b := b.(els := Some([]));
        continue;
      }
      b := b.Add([line]);
    }
    ok := true;
    assert inner == body[2..|body| - 1];
    if forall line :: line in inner ==> FirstWord(line) !in {"if", "for", "while", "fi", "done"} {
      FlatScan(inner, Branches([], None));
    }
  }

  // ----------------------------------------------- the first depth-zero point

  function Delta(line: string): int {
    if Opens(line) then 1 else if Closes(line) then -1 else 0
  }

  /** Openers minus closers: the nesting depth after the given lines. */
  function Nesting(lines: seq<string>): int {
    if lines == [] then 0 else Delta(lines[0]) + Nesting(lines[1..])
  }

  /** Before the end found by `CloseAt` the depth stays positive, and there it is zero. */
  lemma {:induction false} CloseAtIsFirstZero(rest: seq<string>, depth: nat, n: nat)
    requires depth > 0 && n <= |rest|
    ensures CloseAt(rest, depth) == None || n < CloseAt(rest, depth).value ==> depth + Nesting(rest[..n]) > 0
    ensures CloseAt(rest, depth) == Some(n) ==> depth + Nesting(rest[..n]) == 0
  {
    hide FirstWord, Strip;
    if n > 0 {
      assert rest[..n][1..] == rest[1..][..n - 1];
      assert Nesting(rest[..n]) == Delta(rest[0]) + Nesting(rest[1..][..n - 1]);
      if depth + Delta(rest[0]) > 0 {
        CloseAtIsFirstZero(rest[1..], depth + Delta(rest[0]), n - 1);
      }
    }
  }

  /** `n` lines in, the nesting depth is zero for the first time. */
  ghost predicate FirstZero(lines: seq<string>, n: nat) {
    && 0 < n <= |lines|
    && Nesting(lines[..n]) == 0
    && forall k :: 0 < k < n ==> Nesting(lines[..k]) > 0
  }

  lemma NestingAfterOpener(lines: seq<string>, n: nat)
    requires 0 < n <= |lines| && Opens(lines[0])
    ensures Nesting(lines[..n]) == 1 + Nesting(lines[1..][..n - 1])
  {
    hide FirstWord, Strip;
    assert lines[..n][1..] == lines[1..][..n - 1];
  }

  lemma BlockEnd(lines: seq<string>, n: nat)
    requires 0 < n <= |lines| && Opens(lines[0])
    ensures FirstZero(lines, n) <==> CloseAt(lines[1..], 1) == Some(n - 1)
  {
    hide FirstWord, Strip;
    var rest := lines[1..];
    forall k | 0 < k <= n
      ensures CloseAt(rest, 1) == None || k - 1 < CloseAt(rest, 1).value ==> Nesting(lines[..k]) > 0
      ensures CloseAt(rest, 1) == Some(k - 1) ==> Nesting(lines[..k]) == 0
    {
      NestingAfterOpener(lines, k);
      CloseAtIsFirstZero(rest, 1, k - 1);
    }
    if CloseAt(rest, 1).Some? && CloseAt(rest, 1).value < n {
      assert Nesting(lines[..CloseAt(rest, 1).value + 1]) == 0;
    }
  }

  /**
   * A block ends exactly at the first line after which the nesting depth is back to zero,
   * and it is rejected only when there is no such line or when that line is the wrong closer.
   */
  lemma BlockEndsAtFirstZero(lines: seq<string>, n: nat)
    requires 0 < n <= |lines| && Opens(lines[0])
    ensures BlockLength(lines) == Some(n) <==>
            FirstZero(lines, n) && Strip(lines[n - 1]) == Closer(FirstWord(lines[0]))
  {
    hide FirstWord, Strip;
    BlockEnd(lines, n);
  }
}
