/** What the quoting automaton means: command lines composed of quoted, escaped and plain pieces. */
module QuotingLaws {
  import opened Text
  import opened Quoting

  /** A character of a double-quoted piece, or a backslash with the character after it. */
  datatype Item = Just(c: char) | Backslash(c: char)

  datatype Piece =
    | Letter(c: char)                   // an ordinary character
    | Escape(c: char)                   // a backslash and any character
    | SingleQuoted(text: string)
    | DoubleQuoted(items: seq<Item>)
    | OrBars                            // `||`

  predicate Proper(p: Piece) {
    match p
    case Letter(c) => c != '\\' && c != '\'' && c != '"' && c != '|'
    case SingleQuoted(text) => '\'' !in text
    case DoubleQuoted(items) => forall c :: Just(c) in items ==> c != '"' && c != '\\'
    case _ => true
  }

  predicate AllProper(ps: seq<Piece>) {
    forall p :: p in ps ==> Proper(p)
  }

  function ItemText(items: seq<Item>): string {
    if items == [] then ""
    else (if items[0].Just? then [items[0].c] else ['\\', items[0].c]) + ItemText(items[1..])
  }

  function PieceText(p: Piece): string {
    match p
    case Letter(c) => [c]
    case Escape(c) => ['\\', c]
    case SingleQuoted(text) => "'" + text + "'"
    case DoubleQuoted(items) => "\"" + ItemText(items) + "\""
    case OrBars => "||"
  }

  function TextOf(ps: seq<Piece>): string {
    if ps == [] then "" else PieceText(ps[0]) + TextOf(ps[1..])
  }

  // --------------------------------------------------------- reading one piece

  lemma CutOne(q: Quote, c: char, rest: string, current: string)
    requires c != '|' || q != Plain || (rest != "" && rest[0] == '|')
    ensures Cut(q, [c] + rest, current) == Cut(Step(q, c), rest, current + [c])
  {
    assert ([c] + rest)[1..] == rest;
  }

  lemma {:induction false} CutSingle(text: string, rest: string, current: string)
    requires '\'' !in text
    ensures Cut(Single, text + "'" + rest, current) == Cut(Plain, rest, current + text + "'")
    decreases |text|
  {
    hide Cut;
    if text == "" {
      assert text + "'" + rest == ['\''] + rest && current + text + "'" == current + ['\''];
      CutOne(Single, '\'', rest, current);
    } else {
      assert text + "'" + rest == [text[0]] + (text[1..] + "'" + rest);
      CutOne(Single, text[0], text[1..] + "'" + rest, current);
      CutSingle(text[1..], rest, current + [text[0]]);
      assert current + [text[0]] + text[1..] + "'" == current + text + "'";
    }
  }

  lemma {:induction false} CutDouble(items: seq<Item>, rest: string, current: string)
    requires Proper(DoubleQuoted(items))
    ensures Cut(Double, ItemText(items) + "\"" + rest, current) == Cut(Plain, rest, current + ItemText(items) + "\"")
    decreases |items|
  {
    hide Cut;
    if items == [] {
      assert ItemText(items) + "\"" + rest == ['"'] + rest;
      assert current + ItemText(items) + "\"" == current + ['"'];
      CutOne(Double, '"', rest, current);
    } else {
      var c, tail := items[0].c, ItemText(items[1..]) + "\"" + rest;
      assert items[0] in items;
      if items[0].Just? {
        assert ItemText(items) + "\"" + rest == [c] + tail;
        CutOne(Double, c, tail, current);
        CutDouble(items[1..], rest, current + [c]);
        assert current + [c] + ItemText(items[1..]) + "\"" == current + ItemText(items) + "\"";
      } else {
        assert ItemText(items) + "\"" + rest == ['\\'] + ([c] + tail);
        CutOne(Double, '\\', [c] + tail, current);
        CutOne(DoubleEscaped, c, tail, current + ['\\']);
        CutDouble(items[1..], rest, current + ['\\'] + [c]);
        assert current + ['\\'] + [c] + ItemText(items[1..]) + "\"" == current + ItemText(items) + "\"";
      }
    }
  }

  lemma CutPiece(q: Quote, p: Piece, rest: string, current: string)
    requires Proper(p) && (q == Plain || (q == Bar && !p.OrBars?))
    ensures Cut(q, PieceText(p) + rest, current) == Cut(Plain, rest, current + PieceText(p))
  {
    hide Cut, ItemText;
    match p
    case Letter(c) =>
      CutOne(q, c, rest, current);
    case Escape(c) =>
      assert PieceText(p) + rest == ['\\'] + ([c] + rest);
      CutOne(q, '\\', [c] + rest, current);
      CutOne(Escaped, c, rest, current + ['\\']);
      assert current + ['\\'] + [c] == current + PieceText(p);
    case SingleQuoted(text) =>
      assert PieceText(p) + rest == ['\''] + (text + "'" + rest);
      CutOne(q, '\'', text + "'" + rest, current);
      CutSingle(text, rest, current + ['\'']);
      assert current + ['\''] + text + "'" == current + PieceText(p);
    case DoubleQuoted(items) =>
      assert PieceText(p) + rest == ['"'] + (ItemText(items) + "\"" + rest);
      CutOne(q, '"', ItemText(items) + "\"" + rest, current);
      CutDouble(items, rest, current + ['"']);
      assert current + ['"'] + ItemText(items) + "\"" == current + PieceText(p);
    case OrBars =>
      assert PieceText(p) + rest == ['|'] + (['|'] + rest);
      CutOne(q, '|', ['|'] + rest, current);
      CutOne(Bar, '|', rest, current + ['|']);
      assert current + ['|'] + ['|'] == current + PieceText(p);
  }

  lemma {:induction false} CutPieces(q: Quote, ps: seq<Piece>, rest: string, current: string)
    requires AllProper(ps) && (q == Plain || (q == Bar && ps != [] && !ps[0].OrBars?))
    ensures Cut(q, TextOf(ps) + rest, current) == Cut(Plain, rest, current + TextOf(ps))
    decreases |ps|
  {
    hide Cut, PieceText;
    if ps == [] {
      assert TextOf(ps) + rest == rest && current + TextOf(ps) == current;
    } else {
      assert ps[0] in ps && forall p :: p in ps[1..] ==> p in ps;
      assert TextOf(ps) + rest == PieceText(ps[0]) + (TextOf(ps[1..]) + rest);
      CutPiece(q, ps[0], TextOf(ps[1..]) + rest, current);
      CutPieces(Plain, ps[1..], rest, current + PieceText(ps[0]));
      assert current + PieceText(ps[0]) + TextOf(ps[1..]) == current + TextOf(ps);
    }
  }

  // --------------------------------------------------------------- whole lines

  /** What may follow a lone `|`. */
  predicate StageAfterBar(ps: seq<Piece>) {
    AllProper(ps) && ps != [] && !ps[0].OrBars?
  }

  function Texts(stages: seq<seq<Piece>>): (r: seq<string>)
    ensures |r| == |stages|
  {
    if stages == [] then [] else [TextOf(stages[0])] + Texts(stages[1..])
  }

  lemma {:induction false} CutStages(q: Quote, stages: seq<seq<Piece>>)
    requires stages != [] && (if q == Bar then StageAfterBar(stages[0]) else q == Plain && AllProper(stages[0]))
    requires forall k :: 1 <= k < |stages| ==> StageAfterBar(stages[k])
    ensures Cut(q, Join(Texts(stages), "|"), "") == Texts(stages)
    decreases |stages|
  {
    hide Cut, TextOf;
    var first := TextOf(stages[0]);
    if |stages| == 1 {
      CutPieces(q, stages[0], "", "");
      assert first + "" == first && "" + first == first;
      assert Cut(Plain, "", first) == [first] by { CutNoBar(Plain, "", first); }
    } else {
      var rest := Join(Texts(stages[1..]), "|");
      assert Texts(stages)[1..] == Texts(stages[1..]);
      assert Join(Texts(stages), "|") == first + ("|" + rest);
      CutPieces(q, stages[0], "|" + rest, "");
      assert "" + first == first;
      StartsPlain(stages[1..]);
      CutAtBar(rest, first);
      CutStages(Bar, stages[1..]);
    }
  }

  lemma CutAtBar(rest: string, current: string)
    requires rest != "" && rest[0] != '|'
    ensures Cut(Plain, "|" + rest, current) == [current] + Cut(Bar, rest, "")
  {
    assert ("|" + rest)[1..] == rest;
  }

  lemma StartsPlain(stages: seq<seq<Piece>>)
    requires stages != [] && StageAfterBar(stages[0])
    ensures var text := Join(Texts(stages), "|"); text != "" && text[0] != '|'
  {
    assert stages[0][0] in stages[0];
  }

  /**
   * A command line is split at exactly the bars between its stages: not at bars that are quoted,
   * escaped or part of `||`, whatever else its stages contain.
   */
  lemma SplitsBetweenStages(stages: seq<seq<Piece>>)
    requires |stages| > 1 && AllProper(stages[0])
    requires forall k :: 1 <= k < |stages| ==> StageAfterBar(stages[k])
    ensures Stages(Join(Texts(stages), "|")) == StripAll(Texts(stages))
  {
    hide Cut, Join, Texts, StripAll;
    CutStages(Plain, stages);
    BarInside(stages);
  }

  lemma BarInside(stages: seq<seq<Piece>>)
    requires |stages| > 1
    ensures Strip(Join(Texts(stages), "|")) != ""
  {
    hide TextOf;
    var first, rest := TextOf(stages[0]), Texts(stages)[1..];
    assert Join(Texts(stages), "|") == first + "|" + Join(rest, "|");
    NotBlank(Join(Texts(stages), "|"), |first|);
  }

  /** A line without a lone bar is one stage. */
  lemma OneStage(stage: seq<Piece>)
    requires AllProper(stage) && Strip(TextOf(stage)) != ""
    ensures Stages(TextOf(stage)) == [Strip(TextOf(stage))]
  {
    hide Cut, TextOf, Strip;
    CutStages(Plain, [stage]);
    assert [stage][1..] == [];
  }

  // ------------------------------------------------------- where a text is quoted

  lemma {:induction false} RunItems(items: seq<Item>)
    requires Proper(DoubleQuoted(items))
    ensures Run(Double, ItemText(items)) == Double
    decreases |items|
  {
    if items != [] {
      assert items[0] in items;
      RunItems(items[1..]);
      RunSplit(Double, if items[0].Just? then [items[0].c] else ['\\', items[0].c], ItemText(items[1..]));
      assert items[0].Backslash? ==> ['\\', items[0].c][1..] == [items[0].c] && [items[0].c][1..] == "";
      assert items[0].Just? ==> [items[0].c][1..] == "";
    }
  }

  lemma {:induction false} RunSingle(text: string)
    requires '\'' !in text
    ensures Run(Single, text) == Single
    decreases |text|
  {
    if text != "" {
      RunSingle(text[1..]);
    }
  }

  lemma RunPiece(p: Piece)
    requires Proper(p)
    ensures Run(Plain, PieceText(p)) == Plain
  {
    match p
    case Letter(c) =>
      assert [c][1..] == "";
    case Escape(c) =>
      RunSplit(Plain, "\\", [c]);
      OneChar(Plain);
      OneChar(Escaped);
      assert ['\\', c] == "\\" + [c];
    case SingleQuoted(text) =>
      RunSingle(text);
      RunSplit(Single, text, "'");
      assert PieceText(p)[1..] == text + "'" && "'"[1..] == "";
    case DoubleQuoted(items) =>
      RunItems(items);
      RunSplit(Double, ItemText(items), "\"");
      assert PieceText(p)[1..] == ItemText(items) + "\"" && "\""[1..] == "";
    case OrBars =>
      assert "||"[1..] == "|" && "|"[1..] == "";
  }

  lemma {:induction false} RunPieces(ps: seq<Piece>)
    requires AllProper(ps)
    ensures Run(Plain, TextOf(ps)) == Plain
    decreases |ps|
  {
    hide PieceText;
    if ps != [] {
      assert ps[0] in ps && forall p :: p in ps[1..] ==> p in ps;
      RunPiece(ps[0]);
      RunSplit(Plain, PieceText(ps[0]), TextOf(ps[1..]));
      RunPieces(ps[1..]);
    }
  }

  /**
   * Which positions are unquoted: those after complete pieces and after a bar that follows them;
   * not the one after a backslash, and none inside quotes.
   */
  lemma QuotedWhere(ps: seq<Piece>, text: string, items: seq<Item>, rest: string)
    requires AllProper(ps) && '\'' !in text && Proper(DoubleQuoted(items))
    ensures var t := TextOf(ps);
            && Unquoted(At(t + rest, |t|)) && Unquoted(At(t + "|" + rest, |t + "|"|))
            && !Unquoted(At(t + "\\" + rest, |t + "\\"|))
            && !Unquoted(At(t + "'" + text + rest, |t + "'" + text|))
            && !Unquoted(At(t + "\"" + ItemText(items) + rest, |t + "\"" + ItemText(items)|))
            && !Unquoted(At(t + "\"" + ItemText(items) + "\\" + rest, |t + "\"" + ItemText(items) + "\\"|))
  {
    hide TextOf, ItemText, Run;
    var t, d := TextOf(ps), ItemText(items);
    RunPieces(ps);
    RunSingle(text);
    RunItems(items);
    StateAfter(t, "", rest);
    assert t + "" == t && Run(Plain, "") == Plain by { OneChar(Plain); }
    OneChar(Plain);
    OneChar(Double);
    StateAfter(t, "|", rest);
    StateAfter(t, "\\", rest);
    StateAfter(t, "'" + text, rest);
    RunSplit(Plain, "'", text);
    assert t + ("'" + text) == t + "'" + text;
    StateAfter(t, "\"" + d, rest);
    RunSplit(Plain, "\"", d);
    assert t + ("\"" + d) == t + "\"" + d;
    StateAfter(t, "\"" + d + "\\", rest);
    RunSplit(Plain, "\"" + d, "\\");
    assert t + ("\"" + d + "\\") == t + "\"" + d + "\\";
  }

  lemma OneChar(q: Quote)
    ensures Run(q, "") == q
    ensures forall c :: Run(q, [c]) == Step(q, c)
  {
    forall c
      ensures Run(q, [c]) == Step(q, c)
    {
      assert [c][1..] == "";
    }
  }

  lemma StateAfter(t: string, more: string, rest: string)
    requires Run(Plain, t) == Plain
    ensures At(t + more + rest, |t + more|) == Run(Plain, more)
  {
    assert (t + more + rest)[..|t + more|] == t + more;
    RunSplit(Plain, t, more);
  }
}
