/** The argv tokenizer of `exec:` notify targets (`shell_split`, apps/linsightd/src/alerts.rs), and the
    quoting it undoes (compare sections 2.2.1 to 2.2.3 of the POSIX Shell Command Language). */
module ShellSplit {
  import opened Prelude

  datatype Error = UnterminatedSingle | UnterminatedDouble | UnterminatedEscape | TrailingBackslash
  datatype Result = Argv(args: seq<string>) | Bad(error: Error)

  datatype Mode = Plain | Single | Double

  predicate IsSpace(c: char) { c == ' ' || c == '\t' || c == '\n' }

  /** What a backslash protects inside double quotes. */
  predicate EscapableInDouble(c: char) { c == '\\' || c == '\"' || c == '$' || c == '`' }

  /** Where the tokenizer is: its mode, the complete arguments, the token so far and whether one has begun. */
  datatype Scan = Scan(mode: Mode, argv: seq<string>, cur: string, inToken: bool)

  datatype Move = Advance(n: nat, to: Scan) | Fail(error: Error)

  /** What the character at `i` of `s` (with a backslash, that and the next) does. */
  function Step(at: Scan, s: string, i: nat): (m: Move)
    requires i < |s|
    ensures m.Advance? ==> 1 <= m.n <= |s| - i
  {
    var c := s[i];
    match at.mode
    case Plain =>
      if IsSpace(c) then Advance(1, if at.inToken then Scan(Plain, at.argv + [at.cur], "", false) else at)
      else if c == '\'' then Advance(1, at.(mode := Single, inToken := true))
      else if c == '\"' then Advance(1, at.(mode := Double, inToken := true))
      else if c != '\\' then Advance(1, at.(cur := at.cur + [c], inToken := true))
      else if i + 1 == |s| then Fail(TrailingBackslash)
      else Advance(2, at.(cur := at.cur + [s[i + 1]], inToken := true))
    case Single =>
      Advance(1, if c == '\'' then at.(mode := Plain) else at.(cur := at.cur + [c]))
    case Double =>
      if c == '\"' then Advance(1, at.(mode := Plain))
      else if c != '\\' then Advance(1, at.(cur := at.cur + [c]))
      else if i + 1 == |s| then Fail(UnterminatedEscape)
      else Advance(2, at.(cur := at.cur + if EscapableInDouble(s[i + 1]) then [s[i + 1]] else ['\\', s[i + 1]]))
  }

  function Finish(at: Scan): Result
  {
    match at.mode
    case Plain => Argv(if at.inToken then at.argv + [at.cur] else at.argv)
    case Single => Bad(UnterminatedSingle)
    case Double => Bad(UnterminatedDouble)
  }

  /** The outcome of tokenizing `s` from position `i` on. */
  function Split(s: string, i: nat, at: Scan): Result
    requires i <= |s|
    decreases |s| - i
  {
    if i == |s| then Finish(at)
    else match Step(at, s, i)
      case Fail(error) => Bad(error)
      case Advance(n, to) => Split(s, i + n, to)
  }

  const START: Scan := Scan(Plain, [], "", false)

  method TokenizeSingle(input: string, start: nat, ghost argv: seq<string>, cur: string)
    returns (ok: bool, i: nat, token: string)
    requires start <= |input|
    ensures ok ==>
              && start < i <= |input|
              && Split(input, start, Scan(Single, argv, cur, true)) == Split(input, i, Scan(Plain, argv, token, true))
    ensures !ok ==> Split(input, start, Scan(Single, argv, cur, true)) == Bad(UnterminatedSingle)
  {
    i, token := start, cur;
    while i < |input|
      invariant start <= i <= |input|
      invariant Split(input, start, Scan(Single, argv, cur, true)) == Split(input, i, Scan(Single, argv, token, true))
    {
      if input[i] == '\'' { return true, i + 1, token; }
      token := token + [input[i]];
      i := i + 1;
    }
    ok := false;
  }

  method TokenizeDouble(input: string, start: nat, ghost argv: seq<string>, cur: string)
    returns (error: bool, escape: bool, i: nat, token: string)
    requires start <= |input|
    ensures !error ==>
              && start < i <= |input|
              && Split(input, start, Scan(Double, argv, cur, true)) == Split(input, i, Scan(Plain, argv, token, true))
    ensures error ==> Split(input, start, Scan(Double, argv, cur, true))
                      == Bad(if escape then UnterminatedEscape else UnterminatedDouble)
  {
    error, escape, i, token := true, false, start, cur;
    while i < |input|
      invariant start <= i <= |input|
      invariant Split(input, start, Scan(Double, argv, cur, true)) == Split(input, i, Scan(Double, argv, token, true))
    {
      if input[i] == '\"' { return false, false, i + 1, token; }
      if input[i] == '\\' {
        if i + 1 == |input| { return true, true, i, token; }
        token := token + if EscapableInDouble(input[i + 1]) then [input[i + 1]] else ['\\', input[i + 1]];
        i := i + 2;
      } else {
        token := token + [input[i]];
        i := i + 1;
      }
    }
  }

  method ShellSplit(input: string) returns (r: Result)
    ensures r == Split(input, 0, START)
  {
    var argv, current, inToken, i := [], "", false, 0;
    while i < |input|
      invariant 0 <= i <= |input|
      invariant Split(input, 0, START) == Split(input, i, Scan(Plain, argv, current, inToken))
    {
      var c := input[i];
      if IsSpace(c) {
        if inToken { argv, current, inToken := argv + [current], "", false; }
        i := i + 1;
      } else if c == '\'' {
        var ok;
        ok, i, current := TokenizeSingle(input, i + 1, argv, current);
        if !ok { return Bad(UnterminatedSingle); }
        inToken := true;
      } else if c == '\"' {
        var error, escape;
        error, escape, i, current := TokenizeDouble(input, i + 1, argv, current);
        if error { return Bad(if escape then UnterminatedEscape else UnterminatedDouble); }
        inToken := true;
      } else if c == '\\' {
        if i + 1 == |input| { return Bad(TrailingBackslash); }
        current, inToken, i := current + [input[i + 1]], true, i + 2;
      } else {
        current, inToken, i := current + [c], true, i + 1;
      }
    }
    r := Argv(if inToken then argv + [current] else argv);
  }

  /** Blank, tab and newline are the characters that make no argument; of the others, quotes and a backslash alone
      are incomplete, and each is an argument of its own. */
  lemma {:induction false} SingleCharacter(c: char)
    ensures Split([c], 0, START) ==
            if c as int in {32, 9, 10} then Argv([])
            else if c as int == 39 then Bad(UnterminatedSingle)
            else if c as int == 34 then Bad(UnterminatedDouble)
            else if c as int == 92 then Bad(TrailingBackslash)
            else Argv([[c]])
  {
    var s := [c];
    assert forall at :: Split(s, 1, at) == Finish(at);
    var m := Step(START, s, 0);
    assert "" + [c] == [c] && [] + [[c]] == [[c]];
    if m.Advance? { assert Split(s, 0, START) == Finish(m.to); }
  }

  /** Inside double quotes a backslash protects a backslash, a double quote, '$' and '`', and stays otherwise. */
  lemma {:induction false} QuotedBackslash(c: char)
    ensures Split(['\"', '\\', c, '\"'], 0, START) == Argv([if c as int in {92, 34, 36, 96} then [c] else ['\\', c]])
  {
    var s := ['\"', '\\', c, '\"'];
    assert forall at :: Split(s, 4, at) == Finish(at);
    var inside := Scan(Double, [], "", true);
    assert Split(s, 0, START) == Split(s, 1, inside);
    var arg := if EscapableInDouble(c) then [c] else ['\\', c];
    assert "" + arg == arg;
    assert Split(s, 1, inside) == Split(s, 3, Scan(Double, [], arg, true));
    assert [] + [arg] == [arg];
  }

  // ---- writing arguments down -------------------------------------------------------------------

  /** What can stand between double quotes: a character as it is, a protected one behind a backslash, or a
      backslash that is kept because nothing behind it needs protection. */
  datatype Item = Char(c: char) | Protected(c: char) | Kept(c: char)

  predicate WritableItem(x: Item)
  {
    match x
    case Char(c) => c != '\"' && c != '\\'
    case Protected(c) => EscapableInDouble(c)
    case Kept(c) => !EscapableInDouble(c)
  }

  predicate WritableItems(xs: seq<Item>) { forall i | 0 <= i < |xs| :: WritableItem(xs[i]) }

  function RenderItem(x: Item): string { if x.Char? then [x.c] else ['\\', x.c] }

  function ItemMeaning(x: Item): string { if x.Kept? then ['\\', x.c] else [x.c] }

  function RenderItems(xs: seq<Item>): string { if xs == [] then "" else RenderItem(xs[0]) + RenderItems(xs[1..]) }

  function ItemsMeaning(xs: seq<Item>): string { if xs == [] then "" else ItemMeaning(xs[0]) + ItemsMeaning(xs[1..]) }

  /** The ways a stretch of an argument can be written. */
  datatype Piece =
    | Bare(c: char)             // a character without special meaning
    | Escaped(c: char)          // a backslash and any character
    | SingleQuoted(text: string)
    | DoubleQuoted(items: seq<Item>)

  predicate Special(c: char) { IsSpace(c) || c == '\'' || c == '\"' || c == '\\' }

  predicate Writable(p: Piece)
  {
    match p
    case Bare(c) => !Special(c)
    case Escaped(_) => true
    case SingleQuoted(text) => '\'' !in text
    case DoubleQuoted(items) => WritableItems(items)
  }

  function Render(p: Piece): string
  {
    match p
    case Bare(c) => [c]
    case Escaped(c) => ['\\', c]
    case SingleQuoted(text) => "'" + text + "'"
    case DoubleQuoted(items) => "\"" + RenderItems(items) + "\""
  }

  function Meaning(p: Piece): string
  {
    match p
    case Bare(c) => [c]
    case Escaped(c) => [c]
    case SingleQuoted(text) => text
    case DoubleQuoted(items) => ItemsMeaning(items)
  }

  function RenderAll(ps: seq<Piece>): string { if ps == [] then "" else Render(ps[0]) + RenderAll(ps[1..]) }

  function MeaningAll(ps: seq<Piece>): string { if ps == [] then "" else Meaning(ps[0]) + MeaningAll(ps[1..]) }

  /** A word as written: at least one piece, and blanks in front of it. */
  datatype Word = Word(blanks: string, pieces: seq<Piece>)

  predicate Blank(s: string) { forall i | 0 <= i < |s| :: IsSpace(s[i]) }

  ghost predicate WritablePieces(ps: seq<Piece>) { forall i | 0 <= i < |ps| :: Writable(ps[i]) }

  ghost predicate Proper(w: Word) { Blank(w.blanks) && w.pieces != [] && WritablePieces(w.pieces) }

  /** How the text can break off: not at all, inside single quotes, inside double quotes, behind a backslash
      inside double quotes, or behind a bare backslash. */
  datatype Break = Whole | InSingle(text: string) | InDouble(items: seq<Item>) | InEscape(items: seq<Item>) | Lone

  predicate WritableBreak(b: Break)
  {
    match b
    case InSingle(text) => '\'' !in text
    case InDouble(items) => WritableItems(items)
    case InEscape(items) => WritableItems(items)
    case _ => true
  }

  function RenderBreak(b: Break): string
  {
    match b
    case Whole => ""
    case InSingle(text) => "'" + text
    case InDouble(items) => "\"" + RenderItems(items)
    case InEscape(items) => "\"" + RenderItems(items) + "\\"
    case Lone => "\\"
  }

  /** What follows the complete words: blanks, and perhaps the beginning of a word that breaks off. */
  datatype Ending = Ending(blanks: string, pieces: seq<Piece>, stop: Break)

  ghost predicate ProperEnding(e: Ending)
  {
    && Blank(e.blanks) && WritablePieces(e.pieces) && WritableBreak(e.stop)
    && (e.stop.Whole? ==> e.pieces == [])
  }

  /** A command line: words separated by at least one blank, then the ending. */
  ghost predicate ProperLine(ws: seq<Word>, e: Ending)
  {
    && ProperEnding(e)
    && (forall i | 0 <= i < |ws| :: Proper(ws[i]) && (i > 0 ==> ws[i].blanks != ""))
    && (ws != [] && !e.stop.Whole? ==> e.blanks != "")
  }

  function RenderEnding(e: Ending): string { e.blanks + RenderAll(e.pieces) + RenderBreak(e.stop) }

  function RenderLine(ws: seq<Word>, e: Ending): string
  {
    if ws == [] then RenderEnding(e) else ws[0].blanks + RenderAll(ws[0].pieces) + RenderLine(ws[1..], e)
  }

  function MeaningLine(ws: seq<Word>): seq<string>
  {
    seq(|ws|, i requires 0 <= i < |ws| => MeaningAll(ws[i].pieces))
  }

  // ---- splitting undoes writing -----------------------------------------------------------------

  function At(text: string, k: nat): char
    requires k < |text|
  {
    text[k]
  }

  /** `text` stands at position `i` of `s`. */
  ghost predicate Stands(s: string, i: nat, text: string)
  {
    i + |text| <= |s| && forall k: nat {:trigger At(text, k)} | k < |text| :: s[i + k] == At(text, k)
  }

  lemma StandsBoth(s: string, i: nat, a: string, b: string)
    requires Stands(s, i, a + b)
    ensures Stands(s, i, a) && Stands(s, i + |a|, b)
  {
    forall k: nat | k < |a| ensures s[i + k] == At(a, k) { var _ := At(a + b, k); }
    forall k: nat | k < |b| ensures s[i + |a| + k] == At(b, k) { var _ := At(a + b, |a| + k); }
  }

  /** The outcome of tokenizing from each position and state. */
  type Outcome = (nat, Scan) -> Result

  /** `f` is the outcome on `s`: it follows the steps of the tokenizer up to the end of the text. */
  ghost predicate Follows(f: Outcome, s: string)
  {
    && (forall at :: f(|s|, at) == Finish(at))
    && (forall i: nat, at {:trigger Step(at, s, i)} | i < |s| ::
          f(i, at) == match Step(at, s, i) case Fail(error) => Bad(error) case Advance(n, to) => f(i + n, to))
  }

  ghost function OutcomeOn(s: string): (f: Outcome)
    ensures Follows(f, s)
  {
    (i: nat, at: Scan) => if i <= |s| then Split(s, i, at) else Finish(at)
  }

  /** Tokenizing goes from one point to another without ending. */
  ghost predicate Leads(f: Outcome, i: nat, at: Scan, j: nat, to: Scan) { f(i, at) == f(j, to) }

  lemma SkipSingle(f: Outcome, s: string, i: nat, argv: seq<string>, cur: string)
    requires Follows(f, s)
    requires i < |s| && s[i] != '\''
    ensures Leads(f, i, Scan(Single, argv, cur, true), i + 1, Scan(Single, argv, cur + [s[i]], true))
  {
    var _ := Step(Scan(Single, argv, cur, true), s, i);
  }

  lemma {:induction false} SplitSingle(f: Outcome, s: string, i: nat, text: string, argv: seq<string>, cur: string)
    requires Follows(f, s)
    requires Stands(s, i, text) && '\'' !in text
    ensures Leads(f, i, Scan(Single, argv, cur, true), i + |text|, Scan(Single, argv, cur + text, true))
    decreases |text|
  {
    if text == "" {
      assert cur + text == cur;
    } else {
      assert [text[0]] + text[1..] == text;
      StandsBoth(s, i, [text[0]], text[1..]);
      assert s[i] == At([text[0]], 0);
      SkipSingle(f, s, i, argv, cur);
      SplitSingle(f, s, i + 1, text[1..], argv, cur + [text[0]]);
      assert cur + [text[0]] + text[1..] == cur + text;
    }
  }

  lemma SkipItem(f: Outcome, s: string, i: nat, x: Item, argv: seq<string>, cur: string)
    requires Follows(f, s)
    requires Stands(s, i, RenderItem(x)) && WritableItem(x)
    ensures Leads(f, i, Scan(Double, argv, cur, true), i + |RenderItem(x)|, Scan(Double, argv, cur + ItemMeaning(x), true))
  {
    var _ := Step(Scan(Double, argv, cur, true), s, i);
    assert s[i] == At(RenderItem(x), 0);
    if !x.Char? { assert s[i + 1] == At(RenderItem(x), 1); }
  }

  lemma {:induction false} SplitDouble(f: Outcome, s: string, i: nat, xs: seq<Item>, argv: seq<string>, cur: string)
    requires Follows(f, s)
    requires Stands(s, i, RenderItems(xs)) && WritableItems(xs)
    ensures Leads(f, i, Scan(Double, argv, cur, true),
                  i + |RenderItems(xs)|, Scan(Double, argv, cur + ItemsMeaning(xs), true))
    decreases |xs|
  {
    if xs == [] {
      assert cur + ItemsMeaning(xs) == cur;
    } else {
      var x, tail := xs[0], xs[1..];
      StandsBoth(s, i, RenderItem(x), RenderItems(tail));
      SkipItem(f, s, i, x, argv, cur);
      SplitDouble(f, s, i + |RenderItem(x)|, tail, argv, cur + ItemMeaning(x));
      Associate(cur, ItemMeaning(x), ItemsMeaning(tail));
    }
  }

  lemma SplitCharacter(f: Outcome, s: string, i: nat, p: Piece, at: Scan)
    requires Follows(f, s)
    requires at.mode.Plain? && Writable(p) && (p.Bare? || p.Escaped?) && Stands(s, i, Render(p))
    ensures Leads(f, i, at, i + |Render(p)|, Scan(Plain, at.argv, at.cur + Meaning(p), true))
  {
    var _ := Step(at, s, i);
    assert s[i] == At(Render(p), 0);
    if p.Escaped? { assert s[i + 1] == At(Render(p), 1); }
  }

  /** Quotes open and close a stretch. */
  lemma OpenQuote(f: Outcome, s: string, i: nat, argv: seq<string>, cur: string, inToken: bool)
    requires Follows(f, s)
    requires i < |s|
    ensures s[i] == '\'' ==> Leads(f, i, Scan(Plain, argv, cur, inToken), i + 1, Scan(Single, argv, cur, true))
    ensures s[i] == '\"' ==> Leads(f, i, Scan(Plain, argv, cur, inToken), i + 1, Scan(Double, argv, cur, true))
  {
    var _ := Step(Scan(Plain, argv, cur, inToken), s, i);
  }

  lemma CloseQuote(f: Outcome, s: string, i: nat, argv: seq<string>, cur: string)
    requires Follows(f, s)
    requires i < |s|
    ensures s[i] == '\'' ==> Leads(f, i, Scan(Single, argv, cur, true), i + 1, Scan(Plain, argv, cur, true))
    ensures s[i] == '\"' ==> Leads(f, i, Scan(Double, argv, cur, true), i + 1, Scan(Plain, argv, cur, true))
  {
    var _, _ := Step(Scan(Single, argv, cur, true), s, i), Step(Scan(Double, argv, cur, true), s, i);
  }

  /** A quoted stretch is its opening quote, its body and its closing quote. */
  lemma QuotedParts(s: string, i: nat, quote: char, body: string)
    requires Stands(s, i, [quote] + body + [quote])
    ensures i + 1 + |body| < |s|
    ensures s[i] == quote && Stands(s, i + 1, body) && s[i + 1 + |body|] == quote
  {
    StandsBoth(s, i, [quote] + body, [quote]);
    StandsBoth(s, i, [quote], body);
    assert s[i] == At([quote], 0) && s[i + 1 + |body|] == At([quote], 0);
  }

  lemma SplitPiece(f: Outcome, s: string, i: nat, p: Piece, argv: seq<string>, cur: string, inToken: bool)
    requires Follows(f, s)
    requires Writable(p) && Stands(s, i, Render(p))
    ensures Leads(f, i, Scan(Plain, argv, cur, inToken), i + |Render(p)|, Scan(Plain, argv, cur + Meaning(p), true))
  {
    match p {
      case Bare(_) => SplitCharacter(f, s, i, p, Scan(Plain, argv, cur, inToken));
      case Escaped(_) => SplitCharacter(f, s, i, p, Scan(Plain, argv, cur, inToken));
      case SingleQuoted(text) =>
        QuotedParts(s, i, '\'', text);
        OpenQuote(f, s, i, argv, cur, inToken);
        SplitSingle(f, s, i + 1, text, argv, cur);
        CloseQuote(f, s, i + 1 + |text|, argv, cur + text);
      case DoubleQuoted(items) =>
        QuotedParts(s, i, '\"', RenderItems(items));
        OpenQuote(f, s, i, argv, cur, inToken);
        SplitDouble(f, s, i + 1, items, argv, cur);
        CloseQuote(f, s, i + 1 + |RenderItems(items)|, argv, cur + ItemsMeaning(items));
    }
  }

  lemma FirstPiece(f: Outcome, s: string, i: nat, p: Piece, rest: string, argv: seq<string>, cur: string, inToken: bool)
    requires Follows(f, s)
    requires Writable(p) && Stands(s, i, Render(p) + rest)
    ensures Leads(f, i, Scan(Plain, argv, cur, inToken), i + |Render(p)|, Scan(Plain, argv, cur + Meaning(p), true))
    ensures Stands(s, i + |Render(p)|, rest)
  {
    StandsBoth(s, i, Render(p), rest);
    SplitPiece(f, s, i, p, argv, cur, inToken);
  }

  lemma {:induction false} SplitPieces(f: Outcome, s: string, i: nat, ps: seq<Piece>, argv: seq<string>, cur: string, inToken: bool)
    requires Follows(f, s)
    requires WritablePieces(ps) && Stands(s, i, RenderAll(ps))
    ensures Leads(f, i, Scan(Plain, argv, cur, inToken),
                  i + |RenderAll(ps)|, Scan(Plain, argv, cur + MeaningAll(ps), inToken || ps != []))
    decreases |ps|
  {
    if ps == [] {
      assert cur + MeaningAll(ps) == cur;
    } else {
      var p, tail := ps[0], ps[1..];
      FirstPiece(f, s, i, p, RenderAll(tail), argv, cur, inToken);
      SplitPieces(f, s, i + |Render(p)|, tail, argv, cur + Meaning(p), true);
      Associate(cur, Meaning(p), MeaningAll(tail));
    }
  }

  lemma SkipBlank(f: Outcome, s: string, i: nat, argv: seq<string>, cur: string, inToken: bool)
    requires Follows(f, s)
    requires i < |s| && IsSpace(s[i]) && (!inToken ==> cur == "")
    ensures Leads(f, i, Scan(Plain, argv, cur, inToken),
                  i + 1, Scan(Plain, if inToken then argv + [cur] else argv, "", false))
  {
    var _ := Step(Scan(Plain, argv, cur, inToken), s, i);
  }

  lemma {:induction false} SplitBlanks(f: Outcome, s: string, i: nat, blanks: string, argv: seq<string>, cur: string, inToken: bool)
    requires Follows(f, s)
    requires Blank(blanks) && Stands(s, i, blanks) && (!inToken ==> cur == "")
    ensures blanks != "" || !inToken ==>
              Leads(f, i, Scan(Plain, argv, cur, inToken),
                    i + |blanks|, Scan(Plain, if inToken then argv + [cur] else argv, "", false))
    decreases |blanks|
  {
    if blanks == "" {
    } else {
      assert [blanks[0]] + blanks[1..] == blanks;
      StandsBoth(s, i, [blanks[0]], blanks[1..]);
      assert s[i] == At([blanks[0]], 0);
      SkipBlank(f, s, i, argv, cur, inToken);
      SplitBlanks(f, s, i + 1, blanks[1..], if inToken then argv + [cur] else argv, "", false);
    }
  }

  /** A word behind what was read so far completes the argument before it. */
  lemma SplitWord(f: Outcome, s: string, i: nat, w: Word, argv: seq<string>, cur: string, inToken: bool)
    requires Follows(f, s)
    requires Proper(w) && (inToken ==> w.blanks != "") && (!inToken ==> cur == "")
    requires Stands(s, i, w.blanks + RenderAll(w.pieces))
    ensures Leads(f, i, Scan(Plain, argv, cur, inToken), i + |w.blanks| + |RenderAll(w.pieces)|,
                  Scan(Plain, if inToken then argv + [cur] else argv, MeaningAll(w.pieces), true))
  {
    var done := if inToken then argv + [cur] else argv;
    StandsBoth(s, i, w.blanks, RenderAll(w.pieces));
    SplitBlanks(f, s, i, w.blanks, argv, cur, inToken);
    SplitPieces(f, s, i + |w.blanks|, w.pieces, done, "", false);
    assert "" + MeaningAll(w.pieces) == MeaningAll(w.pieces);
  }

  // ---- where the text breaks off ----------------------------------------------------------------

  function ErrorOf(b: Break): Option<Error>
  {
    match b
    case Whole => None
    case InSingle(_) => Some(UnterminatedSingle)
    case InDouble(_) => Some(UnterminatedDouble)
    case InEscape(_) => Some(UnterminatedEscape)
    case Lone => Some(TrailingBackslash)
  }

  lemma SplitEscapeBreak(f: Outcome, s: string, i: nat, items: seq<Item>, argv: seq<string>, cur: string, inToken: bool)
    requires Follows(f, s)
    requires WritableItems(items) && Stands(s, i, "\"" + RenderItems(items) + "\\") && i + |RenderItems(items)| + 2 == |s|
    ensures f(i, Scan(Plain, argv, cur, inToken)) == Bad(UnterminatedEscape)
  {
    StandsBoth(s, i, "\"" + RenderItems(items), "\\");
    StandsBoth(s, i, "\"", RenderItems(items));
    assert s[i] == At("\"", 0) && s[|s| - 1] == At("\\", 0);
    OpenQuote(f, s, i, argv, cur, inToken);
    SplitDouble(f, s, i + 1, items, argv, cur);
    var _ := Step(Scan(Double, argv, cur + ItemsMeaning(items), true), s, |s| - 1);
  }

  lemma SplitBreak(f: Outcome, s: string, i: nat, b: Break, argv: seq<string>, cur: string, inToken: bool)
    requires Follows(f, s)
    requires WritableBreak(b) && !b.Whole? && Stands(s, i, RenderBreak(b)) && i + |RenderBreak(b)| == |s|
    ensures f(i, Scan(Plain, argv, cur, inToken)) == Bad(ErrorOf(b).value)
  {
    assert s[i] == At(RenderBreak(b), 0);
    match b {
      case InSingle(text) =>
        StandsBoth(s, i, "'", text);
        OpenQuote(f, s, i, argv, cur, inToken);
        SplitSingle(f, s, i + 1, text, argv, cur);
      case InDouble(items) =>
        StandsBoth(s, i, "\"", RenderItems(items));
        OpenQuote(f, s, i, argv, cur, inToken);
        SplitDouble(f, s, i + 1, items, argv, cur);
      case InEscape(items) =>
        SplitEscapeBreak(f, s, i, items, argv, cur, inToken);
      case Lone =>
        var _ := Step(Scan(Plain, argv, cur, inToken), s, i);
    }
  }

  /** The outcome once the arguments `done` are complete. */
  function Concluded(done: seq<string>, b: Break): Result
  {
    match ErrorOf(b) case None => Argv(done) case Some(error) => Bad(error)
  }

  lemma SplitEnding(f: Outcome, s: string, i: nat, e: Ending, argv: seq<string>, cur: string, inToken: bool)
    requires Follows(f, s)
    requires ProperEnding(e) && (!inToken ==> cur == "") && (inToken && !e.stop.Whole? ==> e.blanks != "")
    requires Stands(s, i, RenderEnding(e)) && i + |RenderEnding(e)| == |s|
    ensures f(i, Scan(Plain, argv, cur, inToken)) == Concluded(if inToken then argv + [cur] else argv, e.stop)
  {
    var done := if inToken then argv + [cur] else argv;
    StandsBoth(s, i, e.blanks + RenderAll(e.pieces), RenderBreak(e.stop));
    StandsBoth(s, i, e.blanks, RenderAll(e.pieces));
    SplitBlanks(f, s, i, e.blanks, argv, cur, inToken);
    if !e.stop.Whole? {
      var j := i + |e.blanks|;
      SplitPieces(f, s, j, e.pieces, done, "", false);
      SplitBreak(f, s, j + |RenderAll(e.pieces)|, e.stop, done, "" + MeaningAll(e.pieces), e.pieces != []);
    }
  }

  lemma ProperTail(ws: seq<Word>, e: Ending)
    requires ProperLine(ws, e) && ws != []
    ensures Proper(ws[0]) && ProperLine(ws[1..], e) && (ws[1..] != [] ==> ws[1..][0].blanks != "")
    ensures MeaningLine(ws) == [MeaningAll(ws[0].pieces)] + MeaningLine(ws[1..])
  {
    forall i | 0 <= i < |ws[1..]| ensures Proper(ws[1..][i]) && ws[1..][i].blanks != "" {
      assert ws[1..][i] == ws[i + 1];
    }
  }

  lemma {:induction false} SplitLine(f: Outcome, s: string, i: nat, ws: seq<Word>, e: Ending, argv: seq<string>, cur: string,
                                     inToken: bool)
    requires Follows(f, s)
    requires ProperLine(ws, e) && (!inToken ==> cur == "")
    requires inToken ==> if ws == [] then e.stop.Whole? || e.blanks != "" else ws[0].blanks != ""
    requires Stands(s, i, RenderLine(ws, e)) && i + |RenderLine(ws, e)| == |s|
    ensures f(i, Scan(Plain, argv, cur, inToken))
            == Concluded((if inToken then argv + [cur] else argv) + MeaningLine(ws), e.stop)
    decreases |ws|
  {
    var done := if inToken then argv + [cur] else argv;
    if ws == [] {
      assert done + MeaningLine(ws) == done;
      SplitEnding(f, s, i, e, argv, cur, inToken);
    } else {
      var text, word, tail := ws[0].blanks + RenderAll(ws[0].pieces), MeaningAll(ws[0].pieces), ws[1..];
      ProperTail(ws, e);
      StandsBoth(s, i, text, RenderLine(tail, e));
      SplitWord(f, s, i, ws[0], argv, cur, inToken);
      SplitLine(f, s, i + |text|, tail, e, done, word, true);
      Associate(done, [word], MeaningLine(tail));
    }
  }

  /** However a line is written down, mixing bare, escaped, single- and double-quoted stretches and any blanks
      between and behind the words, splitting gives the list of words back; if it breaks off, splitting
      reports where. */
  lemma {:induction false} SplitUndoesWriting(ws: seq<Word>, e: Ending)
    requires ProperLine(ws, e)
    ensures Split(RenderLine(ws, e), 0, START) == Concluded(MeaningLine(ws), e.stop)
  {
    SplitLine(OutcomeOn(RenderLine(ws, e)), RenderLine(ws, e), 0, ws, e, [], "", false);
    assert [] + MeaningLine(ws) == MeaningLine(ws);
  }

  // ---- every input is such a line ---------------------------------------------------------------

  lemma {:induction false} ReadBlanks(t: string) returns (blanks: string, rest: string)
    ensures t == blanks + rest && Blank(blanks) && (rest != "" ==> !IsSpace(rest[0]))
  {
    if t == "" || !IsSpace(t[0]) {
      blanks, rest := "", t;
    } else {
      blanks, rest := ReadBlanks(t[1..]);
      blanks := [t[0]] + blanks;
    }
  }

  lemma {:induction false} ReadSingle(t: string) returns (text: string, closed: bool, rest: string)
    ensures '\'' !in text && (if closed then t == text + "'" + rest else t == text)
  {
    if t == "" {
      text, closed, rest := "", false, "";
    } else if t[0] == '\'' {
      text, closed, rest := "", true, t[1..];
      assert t == "" + "'" + rest;
    } else {
      text, closed, rest := ReadSingle(t[1..]);
      ghost var more := text;
      text := [t[0]] + text;
      assert closed ==> [t[0]] + (more + "'" + rest) == text + "'" + rest;
    }
  }

  /** How a stretch behind an opening double quote goes on. */
  datatype Close = Closed(rest: string) | End | EndEscape

  function RenderClose(c: Close): string
  {
    match c case Closed(rest) => "\"" + rest case End => "" case EndEscape => "\\"
  }

  lemma {:induction false} ReadDouble(t: string) returns (xs: seq<Item>, c: Close)
    ensures WritableItems(xs) && t == RenderItems(xs) + RenderClose(c)
    decreases |t|
  {
    if t == "" {
      xs, c := [], End;
    } else if t[0] == '\"' {
      xs, c := [], Closed(t[1..]);
    } else if t == "\\" {
      xs, c := [], EndEscape;
    } else {
      var x := if t[0] != '\\' then Char(t[0]) else if EscapableInDouble(t[1]) then Protected(t[1]) else Kept(t[1]);
      var more;
      more, c := ReadDouble(t[|RenderItem(x)|..]);
      xs := [x] + more;
      assert xs[1..] == more && t == RenderItem(x) + t[|RenderItem(x)|..];
      Associate(RenderItem(x), RenderItems(more), RenderClose(c));
    }
  }

  /** One piece in front of `t`, or the place where it breaks off. */
  lemma ReadPiece(t: string) returns (p: Option<Piece>, rest: string, b: Break)
    requires t != "" && !IsSpace(t[0])
    ensures p.Some? ==> Writable(p.value) && t == Render(p.value) + rest && |rest| < |t|
    ensures p.None? ==> !b.Whole? && WritableBreak(b) && t == RenderBreak(b)
  {
    p, rest, b := None, "", Lone;
    assert t == [t[0]] + t[1..];
    if t[0] == '\'' {
      var text, closed;
      text, closed, rest := ReadSingle(t[1..]);
      if closed {
        p := Some(SingleQuoted(text));
        assert t == "'" + text + "'" + rest;
      } else {
        b := InSingle(text);
      }
    } else if t[0] == '\"' {
      var xs, c := ReadDouble(t[1..]);
      match c {
        case Closed(more) =>
          p, rest := Some(DoubleQuoted(xs)), more;
          assert t == "\"" + RenderItems(xs) + "\"" + rest;
        case End => b := InDouble(xs);
        case EndEscape => b := InEscape(xs);
      }
    } else if t[0] == '\\' {
      if |t| > 1 {
        p, rest := Some(Escaped(t[1])), t[2..];
      }
    } else {
      p, rest := Some(Bare(t[0])), t[1..];
    }
  }

  lemma {:induction false} OnePieceMore(p: Piece, qs: seq<Piece>, b: string, rest: string)
    requires Writable(p) && WritablePieces(qs)
    ensures WritablePieces([p] + qs) && RenderAll([p] + qs) + b + rest == Render(p) + (RenderAll(qs) + b + rest)
  {
    assert ([p] + qs)[1..] == qs;
    Associate(Render(p), RenderAll(qs), b);
    Associate(Render(p), RenderAll(qs) + b, rest);
  }

  /** The pieces of one word, up to a blank, the end, or where it breaks off. */
  lemma {:induction false} ReadPieces(t: string) returns (ps: seq<Piece>, rest: string, b: Break)
    ensures WritablePieces(ps) && WritableBreak(b) && t == RenderAll(ps) + RenderBreak(b) + rest
    ensures if b.Whole? then rest == "" || IsSpace(rest[0]) else rest == ""
    ensures if t == "" || IsSpace(t[0]) then ps == [] && b.Whole? else b.Whole? ==> ps != []
    decreases |t|
  {
    if t == "" || IsSpace(t[0]) {
      ps, rest, b := [], t, Whole;
      assert "" + "" + t == t;
    } else {
      var p, more;
      p, more, b := ReadPiece(t);
      if p.None? {
        ps, rest := [], "";
        assert "" + t + "" == t;
      } else {
        var qs;
        qs, rest, b := ReadPieces(more);
        ps := [p.value] + qs;
        OnePieceMore(p.value, qs, RenderBreak(b), rest);
      }
    }
  }

  /** A line that begins with a blank has blanks in front of what it begins with. */
  ghost predicate Apart(t: string, ws: seq<Word>, e: Ending)
  {
    && (t == "" ==> ws == [] && e.stop.Whole?)
    && (t != "" && IsSpace(t[0]) ==> if ws == [] then e.blanks != "" else ws[0].blanks != "")
  }

  lemma {:induction false} OneWordMore(w: Word, more: seq<Word>, e: Ending, rest: string)
    requires Proper(w) && ProperLine(more, e) && RenderLine(more, e) == rest && Apart(rest, more, e)
    requires rest == "" || IsSpace(rest[0])
    ensures ProperLine([w] + more, e) && RenderLine([w] + more, e) == w.blanks + RenderAll(w.pieces) + rest
  {
    var ws := [w] + more;
    assert ws[1..] == more;
    forall i | 0 <= i < |ws| ensures Proper(ws[i]) && (i > 0 ==> ws[i].blanks != "") {
      if i > 0 { assert ws[i] == more[i - 1]; }
    }
  }

  /** Every text whatsoever is a line of words with an ending. */
  lemma {:induction false} EveryInputIsALine(t: string) returns (ws: seq<Word>, e: Ending)
    ensures ProperLine(ws, e) && RenderLine(ws, e) == t && Apart(t, ws, e)
    decreases |t|
  {
    var blanks, word := ReadBlanks(t);
    var ps, rest, b := ReadPieces(word);
    assert t != "" && IsSpace(t[0]) ==> blanks != "";
    if word == "" || !b.Whole? {
      ws, e := [], Ending(blanks, ps, b);
      assert RenderAll(ps) + RenderBreak(b) + "" == RenderAll(ps) + RenderBreak(b);
      Associate(blanks, RenderAll(ps), RenderBreak(b));
    } else {
      var more;
      more, e := EveryInputIsALine(rest);
      ws := [Word(blanks, ps)] + more;
      OneWordMore(Word(blanks, ps), more, e, rest);
      assert RenderAll(ps) + "" == RenderAll(ps);
      Associate(blanks, RenderAll(ps), rest);
    }
  }

  /** `s` is this line. */
  ghost predicate IsLine(s: string, ws: seq<Word>, e: Ending) { ProperLine(ws, e) && RenderLine(ws, e) == s }

  /** An input is rejected with an error exactly when it is a line that breaks off in the way the error says. */
  lemma {:induction false} RejectedExactly(s: string, error: Error)
    ensures Split(s, 0, START) == Bad(error) <==> exists ws, e :: IsLine(s, ws, e) && ErrorOf(e.stop) == Some(error)
  {
    forall ws, e | IsLine(s, ws, e) ensures Split(s, 0, START) == Concluded(MeaningLine(ws), e.stop) {
      SplitUndoesWriting(ws, e);
    }
    var ws, e := EveryInputIsALine(s);
    assert IsLine(s, ws, e);
  }

  /** An input is accepted exactly when it is a line that does not break off, and the arguments are its words;
      so however a line is read as words, they mean the same. */
  lemma {:induction false} AcceptedExactly(s: string, args: seq<string>)
    ensures Split(s, 0, START) == Argv(args) <==>
            exists ws, e :: IsLine(s, ws, e) && e.stop.Whole? && MeaningLine(ws) == args
  {
    forall ws, e | IsLine(s, ws, e) ensures Split(s, 0, START) == Concluded(MeaningLine(ws), e.stop) {
      SplitUndoesWriting(ws, e);
    }
    var ws, e := EveryInputIsALine(s);
    assert IsLine(s, ws, e);
  }

  // ---- POSIX single quoting ---------------------------------------------------------------------

  /** Wraps an argument in single quotes, writing each quote inside as '\''. */
  function Quote(arg: string): string { "'" + QuoteBody(arg) + "'" }

  function QuoteChar(c: char): string { if c == '\'' then "'\\''" else [c] }

  function QuoteBody(arg: string): string { if arg == "" then "" else QuoteChar(arg[0]) + QuoteBody(arg[1..]) }

  /** The quoted arguments, separated by single spaces. */
  function QuoteLine(args: seq<string>): string
  {
    if args == [] then "" else if |args| == 1 then Quote(args[0]) else Quote(args[0]) + " " + QuoteLine(args[1..])
  }

  /** A character inside single quotes adds just that character; for a quote, written '\'', this takes
      closing, escaping and opening again. */
  lemma SplitQuoteChar(f: Outcome, s: string, i: nat, c: char, argv: seq<string>, cur: string)
    requires Follows(f, s)
    requires Stands(s, i, QuoteChar(c))
    ensures Leads(f, i, Scan(Single, argv, cur, true), i + |QuoteChar(c)|, Scan(Single, argv, cur + [c], true))
  {
    assert s[i] == At(QuoteChar(c), 0);
    if c == '\'' {
      assert QuoteChar(c) == "'" + Render(Escaped(c)) + "'";
      QuotedParts(s, i, '\'', Render(Escaped(c)));
      CloseQuote(f, s, i, argv, cur);
      SplitPiece(f, s, i + 1, Escaped(c), argv, cur, true);
      OpenQuote(f, s, i + 3, argv, cur + [c], true);
    } else {
      SkipSingle(f, s, i, argv, cur);
    }
  }

  lemma {:induction false} SplitQuoteBody(f: Outcome, s: string, i: nat, arg: string, argv: seq<string>, cur: string)
    requires Follows(f, s)
    requires Stands(s, i, QuoteBody(arg))
    ensures Leads(f, i, Scan(Single, argv, cur, true), i + |QuoteBody(arg)|, Scan(Single, argv, cur + arg, true))
    decreases |arg|
  {
    if arg == "" {
      assert cur + arg == cur;
    } else {
      var c, tail := arg[0], arg[1..];
      StandsBoth(s, i, QuoteChar(c), QuoteBody(tail));
      SplitQuoteChar(f, s, i, c, argv, cur);
      SplitQuoteBody(f, s, i + |QuoteChar(c)|, tail, argv, cur + [c]);
      Associate(cur, [c], tail);
      assert [c] + tail == arg;
    }
  }

  lemma SplitQuote(f: Outcome, s: string, i: nat, arg: string, argv: seq<string>)
    requires Follows(f, s)
    requires Stands(s, i, Quote(arg))
    ensures Leads(f, i, Scan(Plain, argv, "", false), i + |Quote(arg)|, Scan(Plain, argv, arg, true))
  {
    QuotedParts(s, i, '\'', QuoteBody(arg));
    OpenQuote(f, s, i, argv, "", false);
    SplitQuoteBody(f, s, i + 1, arg, argv, "");
    assert "" + arg == arg;
    CloseQuote(f, s, i + 1 + |QuoteBody(arg)|, argv, arg);
  }

  lemma {:induction false} SplitQuoted(f: Outcome, s: string, i: nat, args: seq<string>, argv: seq<string>)
    requires Follows(f, s)
    requires Stands(s, i, QuoteLine(args)) && i + |QuoteLine(args)| == |s|
    ensures f(i, Scan(Plain, argv, "", false)) == Argv(argv + args)
    decreases |args|
  {
    if args == [] {
      assert argv + args == argv;
    } else if |args| == 1 {
      SplitQuote(f, s, i, args[0], argv);
      assert argv + [args[0]] == argv + args;
    } else {
      var first, tail := args[0], args[1..];
      StandsBoth(s, i, Quote(first) + " ", QuoteLine(tail));
      StandsBoth(s, i, Quote(first), " ");
      assert s[i + |Quote(first)|] == At(" ", 0);
      SplitQuote(f, s, i, first, argv);
      SkipBlank(f, s, i + |Quote(first)|, argv, first, true);
      SplitQuoted(f, s, i + |Quote(first)| + 1, tail, argv + [first]);
      Associate(argv, [first], tail);
      assert [first] + tail == args;
    }
  }

  /** Splitting undoes quoting, for every argv list: empty strings, quotes, backslashes and blanks included. */
  lemma {:induction false} SplitUndoesQuoting(args: seq<string>)
    ensures Split(QuoteLine(args), 0, START) == Argv(args)
  {
    SplitQuoted(OutcomeOn(QuoteLine(args)), QuoteLine(args), 0, args, []);
    assert [] + args == args;
  }
}
