/**
  What a POSIX shell reads when it is given a rendered command: quoting as in
  section 2.2, and words, operators and comments as in section 2.3, of the
  POSIX.1-2017 Shell Command Language. A command substitution is read by
  starting over inside it, as rule 5 of section 2.3 says; its end is the first
  unquoted parenthesis that closes none opened inside. Where those sections hand
  over to backquotes, parameter or arithmetic expansions or here-documents, the
  lexer makes no claim about what follows.
 */
module Shell {
  import opened Common
  import opened Runbook

  /** How a character of a word was written. */
  datatype Quoting = Bare | InDouble | Literal

  /** A character of a word, the place of a token in a template's word, or the commands of a substitution. */
  datatype Piece = Char(c: char, quoting: Quoting) | Slot(name: string) | Sub(commands: seq<Lexeme>, quoting: Quoting)

  datatype Lexeme = Word(pieces: seq<Piece>) | Operator(text: string)

  datatype Mode =
    | Plain
    | Escaped        // after a backslash
    | Single         // inside '...'
    | Double         // inside "..."
    | DoubleEscaped  // after a backslash inside "..."
    | Dollar         // after an unquoted $
    | DoubleDollar   // after a $ inside "..."
    | Opened         // right after the $( of a substitution
    | Comment
    | Beyond         // something the lexer does not read has begun

  /** The lexeme being read. */
  datatype Current = Nothing | InWord(pieces: seq<Piece>) | InOperator(text: string)

  /** What a substitution interrupted, and the mode to go back to. */
  datatype Level = Level(back: Mode, done: seq<Lexeme>, current: Current, depth: nat)

  /** depth counts the parentheses open at this level; outer holds the levels around it. */
  datatype Lexer = Lexer(mode: Mode, done: seq<Lexeme>, current: Current, depth: nat, outer: seq<Level>)

  const START: Lexer := Lexer(Plain, [], Nothing, 0, [])

  function Flush(b: Lexer): Lexer {
    match b.current
    case Nothing => b
    case InWord(pieces) => b.(done := b.done + [Word(pieces)], current := Nothing)
    case InOperator(text) => b.(done := b.done + [Operator(text)], current := Nothing)
  }

  /** The word being read, begun if need be. */
  function Begin(b: Lexer): Lexer {
    if b.current.InWord? then b else Flush(b).(current := InWord([]))
  }

  function Append(b: Lexer, more: seq<Piece>): Lexer {
    var b := Begin(b);
    b.(current := InWord(b.current.pieces + more))
  }

  /** A substitution begins: reading starts over at a level of its own. */
  function Open(b: Lexer, back: Mode): Lexer {
    Lexer(Opened, [], Nothing, 0, b.outer + [Level(back, b.done, b.current, b.depth)])
  }

  function PiecesOf(current: Current): seq<Piece> { if current.InWord? then current.pieces else [] }

  /** It ends, and is a piece of the word it stands in. */
  function Close(b: Lexer): Lexer
    requires |b.outer| > 0
  {
    var n := |b.outer| - 1;
    var l := b.outer[n];
    var sub := Sub(Flush(b).done, if l.back == Double then InDouble else Bare);
    Lexer(l.back, l.done, InWord(PiecesOf(l.current) + [sub]), l.depth, b.outer[..n])
  }

  predicate Blankspace(c: char) { c == ' ' || c == '\t' }

  predicate OperatorChar(c: char) { c == '&' || c == '|' || c == ';' || c == '<' || c == '>' || c == '(' || c == ')' }

  const TWO_CHARS: set<string> := {"&&", "||", ";;", "<<", ">>", "<&", ">&", "<>", ">|"}

  function OperatorStep(b: Lexer, c: char): Lexer {
    if b.current.InOperator? && b.current.text + [c] in TWO_CHARS then
      b.(current := InOperator(b.current.text + [c]), mode := if b.current.text + [c] == "<<" then Beyond else Plain)
    else Flush(b).(current := InOperator([c]), mode := Plain)
  }

  function ParenDepth(depth: nat, c: char): nat {
    if c == '(' then depth + 1 else if c == ')' && depth > 0 then depth - 1 else depth
  }

  function PlainStep(b: Lexer, c: char): Lexer {
    if c == '\\' then b.(mode := Escaped)
    else if c == '\'' then Begin(b).(mode := Single)
    else if c == '"' then Begin(b).(mode := Double)
    else if c == '`' then b.(mode := Beyond)
    else if c == '$' then Append(b, [Char(c, Bare)]).(mode := Dollar)
    else if Blankspace(c) then Flush(b).(mode := Plain)
    else if c == '\n' then (var b := Flush(b); b.(done := b.done + [Operator([c])], mode := Plain))
    else if c == ')' && b.depth == 0 && |b.outer| > 0 then Close(b)
    else if OperatorChar(c) then OperatorStep(b, c).(depth := ParenDepth(b.depth, c))
    else if c == '#' && !b.current.InWord? then Flush(b).(mode := Comment)
    else Append(b, [Char(c, Bare)]).(mode := Plain)
  }

  function DoubleStep(b: Lexer, c: char): Lexer {
    if c == '"' then b.(mode := Plain)
    else if c == '\\' then b.(mode := DoubleEscaped)
    else if c == '`' then b.(mode := Beyond)
    else if c == '$' then Append(b, [Char(c, InDouble)]).(mode := DoubleDollar)
    else Append(b, [Char(c, Literal)]).(mode := Double)
  }

  function Step(b: Lexer, c: char): Lexer {
    match b.mode
    case Plain => PlainStep(b, c)
    case Escaped => if c == '\n' then b.(mode := Plain) else Append(b, [Char(c, Literal)]).(mode := Plain)
    case Single => if c == '\'' then b.(mode := Plain) else Append(b, [Char(c, Literal)])
    case Double => DoubleStep(b, c)
    case DoubleEscaped =>
      if c == '\n' then b.(mode := Double)
      else if c == '$' || c == '`' || c == '"' || c == '\\' then Append(b, [Char(c, Literal)]).(mode := Double)
      else Append(Append(b, [Char('\\', Literal)]), [Char(c, Literal)]).(mode := Double)
    case Dollar =>
      if c == '(' then Open(b, Plain)
      else if c == '{' || c == '\'' || c == '"' || c == '\\' then b.(mode := Beyond)
      else PlainStep(b, c)
    case DoubleDollar =>
      if c == '(' then Open(b, Double)
      else if c == '{' || c == '\\' then b.(mode := Beyond)
      else DoubleStep(b, c)
    case Opened => if c == '(' then b.(mode := Beyond) else PlainStep(b, c)
    case Comment => if c == '\n' then b.(done := b.done + [Operator([c])], mode := Plain) else b
    case Beyond => b
  }

  function Lex(b: Lexer, s: string): Lexer
    decreases |s|
  {
    if |s| == 0 then b else Lex(Step(b, s[0]), s[1..])
  }

  lemma {:induction false} LexAppend(b: Lexer, s: string, t: string)
    ensures Lex(b, s + t) == Lex(Lex(b, s), t)
    decreases |s|
  {
    if |s| == 0 {
      assert s + t == t;
    } else {
      assert (s + t)[1..] == s[1..] + t;
      LexAppend(Step(b, s[0]), s[1..], t);
    }
  }

  // ---- One quoted value ----

  function Literals(value: string): seq<Piece> {
    if |value| == 0 then [] else [Char(value[0], Literal)] + Literals(value[1..])
  }

  lemma AppendTwice(b: Lexer, p: seq<Piece>, q: seq<Piece>)
    ensures Append(Append(b, p), q) == Append(b, p + q)
  {
    assert Begin(b).current.pieces + p + q == Begin(b).current.pieces + (p + q);
  }

  lemma LexOne(b: Lexer, c: char)
    ensures Lex(b, [c]) == Step(b, c)
  {
    assert [c][1..] == "";
  }

  /** An escaped quote inside single quotes reads as one literal quote. */
  lemma LexEscapedQuote(b: Lexer)
    requires b.mode == Single && b.current.InWord?
    ensures Lex(b, "'\\''") == Append(b, [Char('\'', Literal)])
  {
    var s := "'\\''";
    assert s == [s[0]] + ([s[1]] + ([s[2]] + [s[3]]));
    LexAppend(b, [s[0]], [s[1]] + ([s[2]] + [s[3]]));
    LexAppend(Step(b, s[0]), [s[1]], [s[2]] + [s[3]]);
    LexAppend(Step(Step(b, s[0]), s[1]), [s[2]], [s[3]]);
    LexOne(b, s[0]);
    LexOne(Step(b, s[0]), s[1]);
    LexOne(Step(Step(b, s[0]), s[1]), s[2]);
    LexOne(Step(Step(Step(b, s[0]), s[1]), s[2]), s[3]);
  }

  lemma {:induction false} LexBody(b: Lexer, value: string)
    requires b.mode == Single && b.current.InWord?
    ensures Lex(b, EscapeQuotes(value)) == Append(b, Literals(value))
    decreases |value|
  {
    if |value| == 0 {
    } else {
      var c := value[0];
      var written := if c == '\'' then "'\\''" else [c];
      LexAppend(b, written, EscapeQuotes(value[1..]));
      if c == '\'' {
        LexEscapedQuote(b);
      } else {
        LexOne(b, c);
      }
      assert Lex(b, written) == Append(b, [Char(c, Literal)]);
      LexBody(Append(b, [Char(c, Literal)]), value[1..]);
      AppendTwice(b, [Char(c, Literal)], Literals(value[1..]));
    }
  }

  /** Where a quotation may begin: outside quotes, escapes and comments, also inside a substitution. */
  predicate Quotable(b: Lexer) { b.mode == Plain || b.mode == Opened }

  /** There, a quoted value is read back as the value, character by character, all literal. */
  lemma LexQuoted(b: Lexer, value: string)
    requires Quotable(b)
    ensures Lex(b, ShellQuote(value)) == Append(b, Literals(value)).(mode := Plain)
  {
    var inside := Begin(b).(mode := Single);
    LexAppend(b, "'", EscapeQuotes(value) + "'");
    LexOne(b, '\'');
    LexAppend(inside, EscapeQuotes(value), "'");
    LexBody(inside, value);
    LexOne(Append(inside, Literals(value)), '\'');
    assert ShellQuote(value) == "'" + (EscapeQuotes(value) + "'");
  }

  /** The modes in which the standard says what a quote means and the lexer reads on. */
  predicate Specified(b: Lexer) { b.mode != Dollar && b.mode != DoubleDollar && b.mode != Beyond }

  /** Of the specified modes it is these exactly: quoting a value works there and nowhere else. */
  lemma QuotingWorksExactlyInPlainText(b: Lexer)
    ensures Specified(b) ==>
              (Quotable(b) <==>
               forall value :: Lex(b, ShellQuote(value)) == Append(b, Literals(value)).(mode := Plain))
  {
    forall value | Quotable(b)
      ensures Lex(b, ShellQuote(value)) == Append(b, Literals(value)).(mode := Plain)
    {
      LexQuoted(b, value);
    }
    if Specified(b) && !Quotable(b) {
      QuotingFails(b);
    }
  }

  lemma LexThree(b: Lexer, x: char, y: char, z: char)
    ensures Lex(b, [x, y, z]) == Step(Step(Step(b, x), y), z)
  {
    assert [x, y, z] == [x] + ([y] + [z]);
    LexAppend(b, [x], [y] + [z]);
    LexAppend(Step(b, x), [y], [z]);
    LexOne(b, x);
    LexOne(Step(b, x), y);
    LexOne(Step(Step(b, x), y), z);
  }

  /** The last piece of the word being read. */
  function Last(b: Lexer): Option<Piece> {
    if b.current.InWord? && |b.current.pieces| > 0 then Some(b.current.pieces[|b.current.pieces| - 1]) else None
  }

  function PieceCount(b: Lexer): nat { if b.current.InWord? then |b.current.pieces| else 0 }

  lemma AppendLast(b: Lexer, p: Piece)
    ensures Last(Append(b, [p])) == Some(p) && PieceCount(Append(b, [p])) == PieceCount(b) + 1
  {
  }

  lemma QuotedLetterDiffers(b: Lexer, b1: Lexer, b2: Lexer, b3: Lexer)
    requires Specified(b) && !Quotable(b)
    requires b1 == Step(b, '\'') && b2 == Step(b1, 'a') && b3 == Step(b2, '\'')
    ensures b3 != Append(b, [Char('a', Literal)]).(mode := Plain)
  {
    AppendLast(b, Char('a', Literal));
    match b.mode
    case Single => AppendLast(b1, Char('a', Bare));
    case Double => AppendLast(b2, Char('\'', Literal));
    case Comment =>
    case _ =>
  }

  /** The value a already shows it. */
  lemma QuotingFails(b: Lexer)
    requires Specified(b) && !Quotable(b)
    ensures Lex(b, ShellQuote("a")) != Append(b, Literals("a")).(mode := Plain)
  {
    assert "a"[1..] == "" && EscapeQuotes("a") == "a" + EscapeQuotes("") && EscapeQuotes("") == "";
    assert ShellQuote("a") == ['\'', 'a', '\''];
    LexThree(b, '\'', 'a', '\'');
    assert Literals("a") == [Char('a', Literal)] + Literals("") && Literals("") == [];
    QuotedLetterDiffers(b, Step(b, '\''), Step(Step(b, '\''), 'a'), Step(Step(Step(b, '\''), 'a'), '\''));
  }

  // ---- A whole template ----

  function SegmentStep(b: Lexer, segment: Segment): Lexer {
    match segment
    case Lit(c) => Step(b, c)
    case Hole(name) => Append(b, [Slot(name)]).(mode := Plain)
  }

  /** The template as the shell reads it, its tokens left open. */
  function LexTemplate(b: Lexer, segments: seq<Segment>): Lexer
    decreases |segments|
  {
    if |segments| == 0 then b else LexTemplate(SegmentStep(b, segments[0]), segments[1..])
  }

  /**
    Every token stands outside quotes, escapes and comments, at any depth of
    substitutions, and not right after a dollar sign or beyond what is read.
   */
  predicate Safe(b: Lexer, segments: seq<Segment>)
    decreases |segments|
  {
    |segments| == 0
    || ((segments[0].Hole? ==> Quotable(b)) && Safe(SegmentStep(b, segments[0]), segments[1..]))
  }

  function FillPiece(p: Piece, values: map<string, string>): seq<Piece>
    decreases p
  {
    match p
    case Char(_, _) => [p]
    case Slot(name) => if name in values then Literals(values[name]) else []
    case Sub(commands, q) => [Sub(FillDone(commands, values), q)]
  }

  function FillPieces(pieces: seq<Piece>, values: map<string, string>): seq<Piece>
    decreases pieces
  {
    if |pieces| == 0 then []
    else FillPieces(pieces[..|pieces| - 1], values) + FillPiece(pieces[|pieces| - 1], values)
  }

  function FillLexeme(x: Lexeme, values: map<string, string>): Lexeme
    decreases x
  {
    match x
    case Word(pieces) => Word(FillPieces(pieces, values))
    case Operator(_) => x
  }

  function FillDone(done: seq<Lexeme>, values: map<string, string>): seq<Lexeme>
    decreases done
  {
    if |done| == 0 then [] else FillDone(done[..|done| - 1], values) + [FillLexeme(done[|done| - 1], values)]
  }

  /** The values put into the open places, and nowhere else. */
  ghost function Fill(b: Lexer, values: map<string, string>): Lexer {
    MapWords(b, p => FillPieces(p, values), d => FillDone(d, values))
  }

  // Reading looks at where words and substitutions begin and end, never at the pieces they hold.

  type OnPieces = seq<Piece> -> seq<Piece>
  type OnLexemes = seq<Lexeme> -> seq<Lexeme>

  ghost function MapCurrent(c: Current, g: OnPieces): Current { if c.InWord? then InWord(g(c.pieces)) else c }

  ghost function MapLevels(outer: seq<Level>, g: OnPieces, h: OnLexemes): (levels: seq<Level>)
    ensures |levels| == |outer|
    ensures forall i | 0 <= i < |outer| ::
              levels[i] == Level(outer[i].back, h(outer[i].done), MapCurrent(outer[i].current, g), outer[i].depth)
  {
    seq(|outer|, i requires 0 <= i < |outer| =>
      Level(outer[i].back, h(outer[i].done), MapCurrent(outer[i].current, g), outer[i].depth))
  }

  ghost function MapWords(b: Lexer, g: OnPieces, h: OnLexemes): Lexer {
    Lexer(b.mode, h(b.done), MapCurrent(b.current, g), b.depth, MapLevels(b.outer, g, h))
  }

  ghost predicate Piecewise(g: OnPieces, h: OnLexemes) {
    && g([]) == [] && h([]) == []
    && (forall p, c, q :: g(p + [Char(c, q)]) == g(p) + [Char(c, q)])
    && (forall p, d, q :: g(p + [Sub(d, q)]) == g(p) + [Sub(h(d), q)])
    && (forall d, p :: h(d + [Word(p)]) == h(d) + [Word(g(p))])
    && (forall d, t :: h(d + [Operator(t)]) == h(d) + [Operator(t)])
  }

  lemma FlushCommutes(b: Lexer, g: OnPieces, h: OnLexemes)
    requires Piecewise(g, h)
    ensures MapWords(Flush(b), g, h) == Flush(MapWords(b, g, h))
    ensures MapWords(Begin(b), g, h) == Begin(MapWords(b, g, h))
  {
  }

  lemma CharCommutes(b: Lexer, c: char, q: Quoting, g: OnPieces, h: OnLexemes)
    requires Piecewise(g, h)
    ensures MapWords(Append(b, [Char(c, q)]), g, h) == Append(MapWords(b, g, h), [Char(c, q)])
  {
    FlushCommutes(b, g, h);
  }

  lemma OpenCommutes(b: Lexer, back: Mode, g: OnPieces, h: OnLexemes)
    requires Piecewise(g, h)
    ensures MapWords(Open(b, back), g, h) == Open(MapWords(b, g, h), back)
  {
  }

  lemma CloseCommutes(b: Lexer, g: OnPieces, h: OnLexemes)
    requires Piecewise(g, h) && |b.outer| > 0
    ensures MapWords(Close(b), g, h) == Close(MapWords(b, g, h))
  {
    FlushCommutes(b, g, h);
    LevelsPrefix(b.outer, |b.outer| - 1, g, h);
    SubCommutes(b.outer[|b.outer| - 1].current, Flush(b).done, Bare, g, h);
    SubCommutes(b.outer[|b.outer| - 1].current, Flush(b).done, InDouble, g, h);
  }

  lemma LevelsPrefix(outer: seq<Level>, n: nat, g: OnPieces, h: OnLexemes)
    requires n <= |outer|
    ensures MapLevels(outer, g, h)[..n] == MapLevels(outer[..n], g, h)
  {
  }

  lemma SubCommutes(c: Current, commands: seq<Lexeme>, q: Quoting, g: OnPieces, h: OnLexemes)
    requires Piecewise(g, h)
    ensures g(PiecesOf(c) + [Sub(commands, q)]) == PiecesOf(MapCurrent(c, g)) + [Sub(h(commands), q)]
  {
  }

  lemma OperatorCommutes(b: Lexer, c: char, g: OnPieces, h: OnLexemes)
    requires Piecewise(g, h)
    ensures MapWords(OperatorStep(b, c), g, h) == OperatorStep(MapWords(b, g, h), c)
  {
    FlushCommutes(b, g, h);
  }

  lemma PlainCommutes(b: Lexer, c: char, g: OnPieces, h: OnLexemes)
    requires Piecewise(g, h)
    ensures MapWords(PlainStep(b, c), g, h) == PlainStep(MapWords(b, g, h), c)
  {
    FlushCommutes(b, g, h);
    CharCommutes(b, c, Bare, g, h);
    OperatorCommutes(b, c, g, h);
    if |b.outer| > 0 {
      CloseCommutes(b, g, h);
    }
  }

  lemma DoubleCommutes(b: Lexer, c: char, g: OnPieces, h: OnLexemes)
    requires Piecewise(g, h)
    ensures MapWords(DoubleStep(b, c), g, h) == DoubleStep(MapWords(b, g, h), c)
  {
    CharCommutes(b, c, InDouble, g, h);
    CharCommutes(b, c, Literal, g, h);
  }

  lemma StepCommutes(b: Lexer, c: char, g: OnPieces, h: OnLexemes)
    requires Piecewise(g, h)
    ensures MapWords(Step(b, c), g, h) == Step(MapWords(b, g, h), c)
  {
    match b.mode
    case Plain => PlainCommutes(b, c, g, h);
    case Opened => PlainCommutes(b, c, g, h);
    case Dollar =>
      OpenCommutes(b, Plain, g, h);
      PlainCommutes(b, c, g, h);
    case Double => DoubleCommutes(b, c, g, h);
    case DoubleDollar =>
      OpenCommutes(b, Double, g, h);
      DoubleCommutes(b, c, g, h);
    case DoubleEscaped =>
      CharCommutes(b, c, Literal, g, h);
      CharCommutes(b, '\\', Literal, g, h);
      CharCommutes(Append(b, [Char('\\', Literal)]), c, Literal, g, h);
    case Comment =>
    case Beyond =>
    case _ => CharCommutes(b, c, Literal, g, h);
  }

  lemma FillIsPiecewise(values: map<string, string>)
    ensures Piecewise(p => FillPieces(p, values), d => FillDone(d, values))
  {
    forall p: seq<Piece>, x: Piece
      ensures FillPieces(p + [x], values) == FillPieces(p, values) + FillPiece(x, values)
    {
      assert (p + [x])[..|p|] == p;
    }
    forall d: seq<Lexeme>, x: Lexeme
      ensures FillDone(d + [x], values) == FillDone(d, values) + [FillLexeme(x, values)]
    {
      assert (d + [x])[..|d|] == d;
    }
  }

  /** Reading one more character of the template does not depend on the values. */
  lemma FillStep(b: Lexer, c: char, values: map<string, string>)
    ensures Fill(Step(b, c), values) == Step(Fill(b, values), c)
  {
    FillIsPiecewise(values);
    StepCommutes(b, c, p => FillPieces(p, values), d => FillDone(d, values));
  }

  lemma FillBegin(b: Lexer, values: map<string, string>)
    ensures Fill(Begin(b), values) == Begin(Fill(b, values))
  {
    FillIsPiecewise(values);
    FlushCommutes(b, p => FillPieces(p, values), d => FillDone(d, values));
  }

  /** A value goes into the open place as it is, every character literal. */
  lemma FillSlot(b: Lexer, name: string, values: map<string, string>)
    requires name in values
    ensures Fill(Append(b, [Slot(name)]), values) == Append(Fill(b, values), Literals(values[name]))
  {
    FillBegin(b, values);
    var begun := Begin(b);
    var pieces := begun.current.pieces;
    assert (pieces + [Slot(name)])[..|pieces|] == pieces;
    assert FillPieces(pieces + [Slot(name)], values) == FillPieces(pieces, values) + FillPiece(Slot(name), values);
    assert Fill(begun, values).current == InWord(FillPieces(pieces, values));
  }

  /**
    A safe template, rendered with any values, is read by the shell as the
    template is read, with each value put literally in its place.
   */
  lemma {:induction false} RenderedCommandReads(b: Lexer, segments: seq<Segment>, values: map<string, string>)
    requires Covered(segments, values) && Safe(b, segments)
    ensures Lex(Fill(b, values), Render(segments, values)) == Fill(LexTemplate(b, segments), values)
    decreases |segments|
  {
    if |segments| == 0 {
    } else {
      var rest := segments[1..];
      var f := Fill(b, values);
      match segments[0]
      case Lit(c) =>
        LexAppend(f, [c], Render(rest, values));
        LexOne(f, c);
        FillStep(b, c, values);
        RenderedCommandReads(Step(b, c), rest, values);
      case Hole(name) =>
        LexAppend(f, ShellQuote(values[name]), Render(rest, values));
        LexQuoted(f, values[name]);
        FillSlot(b, name, values);
        RenderedCommandReads(Append(b, [Slot(name)]).(mode := Plain), rest, values);
    }
  }

  /** A substitution may begin in plain text or in double quotes; a token may stand in it, and its end goes back. */
  lemma SubstitutionsAreRead(b: Lexer)
    requires b.mode == Plain || b.mode == Double
    ensures var inside := Step(Step(b, '$'), '(');
            && Quotable(inside) && |inside.outer| == |b.outer| + 1
            && Step(inside, ')').mode == b.mode && Step(inside, ')').outer == b.outer
            && Step(inside, ')').done == Begin(b).done
  {
    var inside := Step(Step(b, '$'), '(');
    assert inside.outer[..|b.outer|] == b.outer;
  }

  // ---- What no value can change ----

  function ShapePiece(p: Piece): seq<Piece>
    decreases p
  {
    match p
    case Char(_, _) => []
    case Slot(_) => []
    case Sub(commands, q) => [Sub(ShapeDone(commands), q)]
  }

  function ShapePieces(pieces: seq<Piece>): seq<Piece>
    decreases pieces
  {
    if |pieces| == 0 then [] else ShapePieces(pieces[..|pieces| - 1]) + ShapePiece(pieces[|pieces| - 1])
  }

  function ShapeLexeme(x: Lexeme): Lexeme
    decreases x
  {
    match x
    case Word(pieces) => Word(ShapePieces(pieces))
    case Operator(_) => x
  }

  /** Words, operators and substitutions, with every character of a word left out. */
  function ShapeDone(done: seq<Lexeme>): seq<Lexeme>
    decreases done
  {
    if |done| == 0 then [] else ShapeDone(done[..|done| - 1]) + [ShapeLexeme(done[|done| - 1])]
  }

  /** What is being read, at every level, without the characters of words. */
  ghost function Structure(b: Lexer): Lexer { MapWords(b, ShapePieces, ShapeDone) }

  lemma ShapeAppend(p: seq<Piece>, q: seq<Piece>)
    ensures ShapePieces(p + q) == ShapePieces(p) + ShapePieces(q)
  {
    if |q| == 0 {
      assert p + q == p;
    } else {
      assert (p + q)[..|p + q| - 1] == p + q[..|q| - 1];
      ShapeAppend(p, q[..|q| - 1]);
    }
  }

  lemma {:induction false} LiteralsHaveNoShape(value: string)
    ensures ShapePieces(Literals(value)) == []
  {
    if |value| == 0 {
    } else {
      LiteralsHaveNoShape(value[1..]);
      ShapeAppend([Char(value[0], Literal)], Literals(value[1..]));
      assert [Char(value[0], Literal)][..0] == [];
    }
  }

  lemma {:induction false} FilledPieceShape(p: Piece, values: map<string, string>)
    ensures ShapePieces(FillPiece(p, values)) == ShapePiece(p)
    decreases p
  {
    match p
    case Char(_, _) => assert [p][..0] == [];
    case Slot(name) =>
      if name in values {
        LiteralsHaveNoShape(values[name]);
      }
    case Sub(commands, q) =>
      FilledDoneShape(commands, values);
      assert [Sub(FillDone(commands, values), q)][..0] == [];
  }

  lemma {:induction false} FilledPiecesShape(pieces: seq<Piece>, values: map<string, string>)
    ensures ShapePieces(FillPieces(pieces, values)) == ShapePieces(pieces)
    decreases pieces
  {
    if |pieces| == 0 {
    } else {
      var n := |pieces| - 1;
      FilledPiecesShape(pieces[..n], values);
      FilledPieceShape(pieces[n], values);
      ShapeAppend(FillPieces(pieces[..n], values), FillPiece(pieces[n], values));
    }
  }

  lemma {:induction false} FilledLexemeShape(x: Lexeme, values: map<string, string>)
    ensures ShapeLexeme(FillLexeme(x, values)) == ShapeLexeme(x)
    decreases x
  {
    if x.Word? {
      FilledPiecesShape(x.pieces, values);
    }
  }

  lemma {:induction false} FilledDoneShape(done: seq<Lexeme>, values: map<string, string>)
    ensures ShapeDone(FillDone(done, values)) == ShapeDone(done)
    decreases done
  {
    if |done| == 0 {
    } else {
      var n := |done| - 1;
      FilledDoneShape(done[..n], values);
      FilledLexemeShape(done[n], values);
      var filled := FillDone(done, values);
      assert filled[..|filled| - 1] == FillDone(done[..n], values);
    }
  }

  lemma FilledStructure(b: Lexer, values: map<string, string>)
    ensures Structure(Fill(b, values)) == Structure(b)
  {
    FilledDoneShape(b.done, values);
    if b.current.InWord? {
      FilledPiecesShape(b.current.pieces, values);
    }
    forall i | 0 <= i < |b.outer|
      ensures Structure(Fill(b, values)).outer[i] == Structure(b).outer[i]
    {
      FilledDoneShape(b.outer[i].done, values);
      if b.outer[i].current.InWord? {
        FilledPiecesShape(b.outer[i].current.pieces, values);
      }
    }
    assert Structure(Fill(b, values)).outer == Structure(b).outer;
  }

  /**
    Whatever the values are, the command has the same words, operators and
    substitutions in the same places, and the lexer ends in the same mode.
   */
  lemma ValuesCannotChangeStructure(template: string, v: map<string, string>, w: map<string, string>)
    requires Safe(START, Segments(template, 0)) && Covered(Segments(template, 0), v)
    requires Covered(Segments(template, 0), w)
    ensures var segments := Segments(template, 0);
            Structure(Lex(START, Render(segments, v))) == Structure(Lex(START, Render(segments, w)))
  {
    var segments := Segments(template, 0);
    RenderedCommandReads(START, segments, v);
    RenderedCommandReads(START, segments, w);
    assert Fill(START, v) == START && Fill(START, w) == START;
    FilledStructure(LexTemplate(START, segments), v);
    FilledStructure(LexTemplate(START, segments), w);
  }
}
