/** What the scanners find, told by command lines that are composed of pieces. */
module ScannerLaws {
  import opened Text
  import opened Quoting
  import opened QuotingLaws
  import opened Scanners

  lemma SinglePrefix(text: string, k: nat)
    requires '\'' !in text && k <= |text|
    ensures Run(Single, text[..k]) == Single
  {
    RunSingle(text[..k]);
  }

  lemma {:induction false} DoublePrefix(items: seq<Item>, k: nat)
    requires Proper(DoubleQuoted(items)) && k <= |ItemText(items)|
    ensures Run(Double, ItemText(items)[..k]) in {Double, DoubleEscaped}
    decreases |items|
  {
    var text := ItemText(items);
    if k > 0 {
      var first := if items[0].Just? then [items[0].c] else ['\\', items[0].c];
      assert items[0] in items && text == first + ItemText(items[1..]);
      OneChar(Double);
      OneChar(DoubleEscaped);
      if k < |first| {
        assert text[..k] == ['\\'];
      } else {
        assert text[..k] == first + ItemText(items[1..])[..k - |first|];
        RunSplit(Double, first, ItemText(items[1..])[..k - |first|]);
        assert Run(Double, first) == Double by {
          if items[0].Backslash? {
            assert first == ['\\'] + [items[0].c];
            RunSplit(Double, ['\\'], [items[0].c]);
          }
        }
        DoublePrefix(items[1..], k - |first|);
      }
    }
  }

  /** Inside a piece, behind its first character, nothing is unquoted but the second half of `||`. */
  lemma InsidePiece(p: Piece, k: nat)
    requires Proper(p) && 0 < k < |PieceText(p)| && !p.OrBars?
    ensures !Unquoted(Run(Plain, PieceText(p)[..k]))
  {
    OneChar(Plain);
    match p
    case Escape(c) =>
      assert PieceText(p)[..k] == ['\\'];
    case SingleQuoted(text) =>
      assert PieceText(p)[..k] == ['\''] + text[..k - 1];
      RunSplit(Plain, ['\''], text[..k - 1]);
      SinglePrefix(text, k - 1);
    case DoubleQuoted(items) =>
      assert PieceText(p)[..k] == ['"'] + ItemText(items)[..k - 1];
      RunSplit(Plain, ['"'], ItemText(items)[..k - 1]);
      DoublePrefix(items, k - 1);
    case _ =>
  }

  /** Of a line composed of pieces, only its letters and the marks that start its pieces are unquoted. */
  lemma {:induction false} UnquotedAreLetters(ps: seq<Piece>, k: nat)
    requires AllProper(ps) && k < |TextOf(ps)| && Unquoted(Run(Plain, TextOf(ps)[..k]))
    ensures Letter(TextOf(ps)[k]) in ps || TextOf(ps)[k] in {'\\', '\'', '"', '|'}
    decreases |ps|
  {
    hide PieceText;
    var t, first := TextOf(ps), PieceText(ps[0]);
    assert ps[0] in ps && forall p :: p in ps[1..] ==> p in ps;
    assert t == first + TextOf(ps[1..]);
    if k < |first| {
      assert t[..k] == first[..k] && t[k] == first[k];
      if k > 0 && !ps[0].OrBars? {
        InsidePiece(ps[0], k);
      } else {
        FirstChar(ps[0], k);
      }
    } else {
      assert t[..k] == first + TextOf(ps[1..])[..k - |first|];
      RunSplit(Plain, first, TextOf(ps[1..])[..k - |first|]);
      RunPiece(ps[0]);
      UnquotedAreLetters(ps[1..], k - |first|);
    }
  }

  lemma FirstChar(p: Piece, k: nat)
    requires Proper(p) && k < |PieceText(p)| && (k == 0 || p.OrBars?)
    ensures p == Letter(PieceText(p)[k]) || PieceText(p)[k] in {'\\', '\'', '"', '|'}
  {
  }

  /** The state at a position of the pieces does not depend on what follows them. */
  lemma AtPieces(ps: seq<Piece>, rest: string, k: nat)
    requires k < |TextOf(ps)|
    ensures At(TextOf(ps) + rest, k) == Run(Plain, TextOf(ps)[..k]) && (TextOf(ps) + rest)[k] == TextOf(ps)[k]
  {
    hide TextOf, Run;
    assert (TextOf(ps) + rest)[..k] == TextOf(ps)[..k];
  }

  lemma AtEnd(ps: seq<Piece>, rest: string)
    requires AllProper(ps)
    ensures At(TextOf(ps) + rest, |TextOf(ps)|) == Plain
  {
    hide TextOf, Run;
    RunPieces(ps);
    assert (TextOf(ps) + rest)[..|TextOf(ps)|] == TextOf(ps);
  }

  /**
   * The first word ends at the first blank or tab between pieces: blanks that are quoted or escaped
   * do not end it.
   */
  lemma WordEnds(ps: seq<Piece>, rest: string)
    requires AllProper(ps) && Letter(' ') !in ps && Letter('\t') !in ps
    ensures forall k: nat :: k < |TextOf(ps)| ==> !Blank(TextOf(ps) + rest, k)
    ensures rest != "" ==> (Blank(TextOf(ps) + rest, |TextOf(ps)|) <==> rest[0] == ' ' || rest[0] == '\t')
  {
    hide TextOf, Run;
    AtEnd(ps, rest);
    forall k: nat | k < |TextOf(ps)|
      ensures !Blank(TextOf(ps) + rest, k)
    {
      AtPieces(ps, rest, k);
      if Blank(TextOf(ps) + rest, k) {
        UnquotedAreLetters(ps, k);
      }
    }
  }

  /** A target is found between pieces, and not where it is quoted or escaped. */
  lemma TargetFound(ps: seq<Piece>, c: char, targets: set<char>, rest: string)
    requires AllProper(ps) && c !in {'\\', '\'', '"', '|'} && targets !! {'\\', '\'', '"', '|'}
    requires forall d :: d in targets ==> Letter(d) !in ps
    ensures forall k: nat :: k < |TextOf(ps)| ==> !Hit(TextOf(ps) + [c] + rest, targets, k)
    ensures Hit(TextOf(ps) + [c] + rest, targets, |TextOf(ps)|) <==> c in targets
  {
    hide TextOf, Run, LonePipe;
    var text := TextOf(ps) + ([c] + rest);
    assert TextOf(ps) + [c] + rest == text;
    AtEnd(ps, [c] + rest);
    forall k: nat | k < |TextOf(ps)|
      ensures !Hit(text, targets, k)
    {
      AtPieces(ps, [c] + rest, k);
      if Hit(text, targets, k) {
        UnquotedAreLetters(ps, k);
      }
    }
  }

  /**
   * After complete pieces a backquote or `$(` starts a substitution, also inside double quotes; not
   * after a backslash or in single quotes.
   */
  lemma SubstitutionFound(ps: seq<Piece>, items: seq<Item>, text: string, mark: string, rest: string)
    requires AllProper(ps) && Proper(DoubleQuoted(items)) && '\'' !in text && mark in {"`", "$("}
    ensures var t, d := TextOf(ps), ItemText(items);
            && StartsSubstitution(t + mark + rest, |t|)
            && StartsSubstitution(t + "\"" + d + mark + rest, |t + "\"" + d|)
            && !StartsSubstitution(t + "\\" + mark + rest, |t + "\\"|)
            && !StartsSubstitution(t + "\"" + d + "\\" + mark + rest, |t + "\"" + d + "\\"|)
            && !StartsSubstitution(t + "'" + text + mark + rest, |t + "'" + text|)
  {
    hide TextOf, ItemText, Run;
    var t, d := TextOf(ps), ItemText(items);
    RunPieces(ps);
    RunItems(items);
    RunSingle(text);
    OneChar(Plain);
    OneChar(Double);
    Marked(t, "", mark, rest);
    assert t + "" == t;
    RunSplit(Plain, "\"", d);
    Marked(t, "\"" + d, mark, rest);
    assert t + ("\"" + d) == t + "\"" + d;
    Marked(t, "\\", mark, rest);
    RunSplit(Plain, "\"" + d, "\\");
    Marked(t, "\"" + d + "\\", mark, rest);
    assert t + ("\"" + d + "\\") == t + "\"" + d + "\\";
    RunSplit(Plain, "'", text);
    Marked(t, "'" + text, mark, rest);
    assert t + ("'" + text) == t + "'" + text;
  }

  lemma Marked(t: string, more: string, mark: string, rest: string)
    requires Run(Plain, t) == Plain && mark in {"`", "$("}
    ensures StartsSubstitution(t + more + mark + rest, |t + more|) <==> Run(Plain, more) in {Plain, Bar, Double}
  {
    hide Run;
    StateAfter(t, more, mark + rest);
    assert t + more + (mark + rest) == t + more + mark + rest;
  }
}
