/**
  The placeholder rewriter. `Tokenise` and `Render` are the simple form: cut the
  query into tokens, then write each token out. `Rebind` is the one-pass scanner
  of the source, proved to compute the same string.
 */
module Rebind {
  import opened Common

  datatype Driver = SQLite | PostgreSQL | Unsupported(name: string)

  /** The last two are PostgreSQL's alone; the scanner does not know them. */
  datatype Kind = Quoted | Bracketed | LineComment | BlockComment | Plain | EscapeString | DollarQuoted

  datatype Token =
    | Verbatim(kind: Kind, text: string)  // copied as it stands
    | Escape(text: string)                // ?? or \?, written as one question mark
    | Parameter                           // ?

  // ---- Where the protected stretches end ----

  /** The end of a quoted stretch whose text continues at i; a doubled quote does not close it. */
  function QuotedEnd(q: string, i: nat, quote: char): (e: nat)
    requires i <= |q|
    ensures i <= e <= |q|
    decreases |q| - i
  {
    if i == |q| then i
    else if q[i] != quote then QuotedEnd(q, i + 1, quote)
    else if i + 1 < |q| && q[i + 1] == quote then QuotedEnd(q, i + 2, quote)
    else i + 1
  }

  /** Just after the first c from i on, or the end of the query. */
  function EndAfter(q: string, i: nat, c: char): (e: nat)
    requires i <= |q|
    ensures i <= e <= |q|
    ensures i < |q| ==> i < e
    decreases |q| - i
  {
    if i == |q| then i else if q[i] == c then i + 1 else EndAfter(q, i + 1, c)
  }

  predicate ClosesBlock(q: string, i: nat) { i + 1 < |q| && q[i] == '*' && q[i + 1] == '/' }

  /** Just after the first star-slash from i on, or the end of the query. */
  function BlockEnd(q: string, i: nat): (e: nat)
    requires i <= |q|
    ensures i <= e <= |q|
    ensures i < |q| ==> i < e
    decreases |q| - i
  {
    if i == |q| then i else if ClosesBlock(q, i) then i + 2 else BlockEnd(q, i + 1)
  }

  /** The body of a quoted stretch as it is written: each quote twice. */
  function Doubled(body: string, quote: char): string {
    if |body| == 0 then "" else (if body[0] == quote then [quote, quote] else [body[0]]) + Doubled(body[1..], quote)
  }

  ghost predicate ClosedBy(text: string, body: string, quote: char) { text == Doubled(body, quote) + [quote] }

  ghost predicate OpenEnded(text: string, body: string, quote: char) { text == Doubled(body, quote) }

  lemma DoubledStep(c: char, body: string, quote: char)
    ensures Doubled([c] + body, quote) == (if c == quote then [quote, quote] else [c]) + Doubled(body, quote)
  {
    assert ([c] + body)[1..] == body;
  }

  /**
    A quoted stretch is a body with its quotes doubled and one closing quote, not
    followed by another; or it runs to the end.
   */
  lemma {:induction false} QuotedExtent(q: string, i: nat, quote: char)
    requires i <= |q|
    ensures var e := QuotedEnd(q, i, quote);
            || ((exists body :: ClosedBy(q[i..e], body, quote)) && (e == |q| || q[e] != quote))
            || ((exists body :: OpenEnded(q[i..e], body, quote)) && e == |q|)
    decreases |q| - i
  {
    var e := QuotedEnd(q, i, quote);
    if i == |q| {
      assert OpenEnded(q[i..e], "", quote);
    } else if q[i] != quote || (i + 1 < |q| && q[i + 1] == quote) {
      var next := if q[i] != quote then i + 1 else i + 2;
      QuotedExtent(q, next, quote);
      var written := if q[i] == quote then [quote, quote] else [q[i]];
      assert q[i..e] == written + q[next..e];
      if body :| ClosedBy(q[next..e], body, quote) && (e == |q| || q[e] != quote) {
        DoubledStep(q[i], body, quote);
        assert written + (Doubled(body, quote) + [quote]) == (written + Doubled(body, quote)) + [quote];
        assert ClosedBy(q[i..e], [q[i]] + body, quote);
      } else {
        var body :| OpenEnded(q[next..e], body, quote);
        DoubledStep(q[i], body, quote);
        assert OpenEnded(q[i..e], [q[i]] + body, quote);
      }
    } else {
      assert Doubled("", quote) == "" && q[i..e] == "" + [quote];
      assert ClosedBy(q[i..e], "", quote);
    }
  }

  /** A bracketed name or line comment ends at the first closing character, or runs to the end. */
  lemma {:induction false} EndAfterIsFirst(q: string, i: nat, c: char)
    requires i <= |q|
    ensures var e := EndAfter(q, i, c);
            if c in q[i..] then e > i && q[e - 1] == c && c !in q[i..e - 1] else e == |q|
    decreases |q| - i
  {
    if i < |q| && q[i] != c {
      EndAfterIsFirst(q, i + 1, c);
      assert q[i..] == [q[i]] + q[i + 1..];
      var e := EndAfter(q, i, c);
      if c in q[i..] {
        assert q[i..e - 1] == [q[i]] + q[i + 1..e - 1];
      }
    }
  }

  /** A block comment ends at the first star-slash from its own slash on, or runs to the end. */
  lemma {:induction false} BlockEndIsFirst(q: string, i: nat)
    requires i <= |q|
    ensures var e := BlockEnd(q, i);
            if exists j :: i <= j < |q| && ClosesBlock(q, j)
            then e >= i + 2 && ClosesBlock(q, e - 2) && forall j | i <= j < e - 2 :: !ClosesBlock(q, j)
            else e == |q|
    decreases |q| - i
  {
    if i < |q| && !ClosesBlock(q, i) {
      BlockEndIsFirst(q, i + 1);
    }
  }

  // ---- The simple form: tokens, then text ----

  function Text(token: Token): string {
    match token
    case Verbatim(_, text) => text
    case Escape(text) => text
    case Parameter => "?"
  }

  predicate IsQuote(c: char) { c == '\'' || c == '"' || c == '`' }

  function TokenEnd(q: string, i: nat): (e: nat)
    requires i < |q|
    ensures i < e <= |q|
  {
    var c := q[i];
    var twin := i + 1 < |q|;
    if IsQuote(c) then QuotedEnd(q, i + 1, c)
    else if c == '[' then EndAfter(q, i, ']')
    else if c == '-' && twin && q[i + 1] == '-' then EndAfter(q, i, '\n')
    else if c == '/' && twin && q[i + 1] == '*' then BlockEnd(q, i)
    else if (c == '?' || c == '\\') && twin && q[i + 1] == '?' then i + 2
    else i + 1
  }

  function TokenAt(q: string, i: nat): (t: Token)
    requires i < |q|
  {
    var c := q[i];
    var twin := i + 1 < |q|;
    var text := q[i..TokenEnd(q, i)];
    if IsQuote(c) then Verbatim(Quoted, text)
    else if c == '[' then Verbatim(Bracketed, text)
    else if c == '-' && twin && q[i + 1] == '-' then Verbatim(LineComment, text)
    else if c == '/' && twin && q[i + 1] == '*' then Verbatim(BlockComment, text)
    else if (c == '?' || c == '\\') && twin && q[i + 1] == '?' then Escape(text)
    else if c == '?' then Parameter
    else Verbatim(Plain, text)
  }

  lemma TokenText(q: string, i: nat)
    requires i < |q|
    ensures Text(TokenAt(q, i)) == q[i..TokenEnd(q, i)]
  {
  }

  function Tokenise(q: string, i: nat): seq<Token>
    requires i <= |q|
    decreases |q| - i
  {
    if i == |q| then [] else [TokenAt(q, i)] + Tokenise(q, TokenEnd(q, i))
  }

  function Digit(d: nat): char
    requires d < 10
  {
    "0123456789"[d]
  }

  function Decimal(n: nat): (s: string)
    ensures |s| > 0
  {
    if n < 10 then [Digit(n)] else Decimal(n / 10) + [Digit(n % 10)]
  }

  /** What one token becomes; n is the number the next parameter would get. */
  function Piece(postgres: bool, token: Token, n: nat): string {
    match token
    case Verbatim(_, text) => text
    case Escape(_) => "?"
    case Parameter => if postgres then "$" + Decimal(n) else "?"
  }

  function Render(postgres: bool, tokens: seq<Token>, n: nat): string {
    if |tokens| == 0 then ""
    else Piece(postgres, tokens[0], n) + Render(postgres, tokens[1..], if tokens[0].Parameter? then n + 1 else n)
  }

  function Concat(parts: seq<string>): string {
    if |parts| == 0 then "" else parts[0] + Concat(parts[1..])
  }

  function Joined(tokens: seq<Token>): string {
    if |tokens| == 0 then "" else Text(tokens[0]) + Joined(tokens[1..])
  }

  lemma JoinedStep(token: Token, rest: seq<Token>)
    ensures Joined([token] + rest) == Text(token) + Joined(rest)
  {
    assert ([token] + rest)[1..] == rest;
  }

  /** The tokens say everything the query says: put back together they are the query. */
  lemma {:induction false} TokensAreTheQuery(q: string, i: nat)
    requires i <= |q|
    ensures Joined(Tokenise(q, i)) == q[i..]
    decreases |q| - i
  {
    if i == |q| {
    } else {
      var j := TokenEnd(q, i);
      TokensAreTheQuery(q, j);
      TokenText(q, i);
      JoinedStep(TokenAt(q, i), Tokenise(q, j));
      SplitAt(q, i, j);
    }
  }

  /** How many of the first k tokens are parameters. */
  function ParametersBefore(tokens: seq<Token>, k: nat): nat
    requires k <= |tokens|
  {
    if k == 0 then 0 else ParametersBefore(tokens, k - 1) + (if tokens[k - 1].Parameter? then 1 else 0)
  }

  lemma {:induction false} ParametersBeforeTail(tokens: seq<Token>, k: nat)
    requires 0 < k <= |tokens|
    ensures ParametersBefore(tokens, k) ==
              (if tokens[0].Parameter? then 1 else 0) + ParametersBefore(tokens[1..], k - 1)
  {
    if k > 1 {
      ParametersBeforeTail(tokens, k - 1);
    }
  }

  function Pieces(postgres: bool, tokens: seq<Token>, n: nat): (pieces: seq<string>)
    ensures |pieces| == |tokens|
  {
    if |tokens| == 0 then []
    else [Piece(postgres, tokens[0], n)] + Pieces(postgres, tokens[1..], if tokens[0].Parameter? then n + 1 else n)
  }

  lemma {:induction false} RenderIsPieces(postgres: bool, tokens: seq<Token>, n: nat)
    ensures Render(postgres, tokens, n) == Concat(Pieces(postgres, tokens, n))
  {
    if |tokens| == 0 {
    } else {
      var m := if tokens[0].Parameter? then n + 1 else n;
      RenderIsPieces(postgres, tokens[1..], m);
      assert Pieces(postgres, tokens, n)[1..] == Pieces(postgres, tokens[1..], m);
    }
  }

  /** A parameter gets one more than the parameters before it, so they count 1, 2, 3 and so on in order. */
  lemma {:induction false} PieceAt(postgres: bool, tokens: seq<Token>, n: nat, k: nat)
    requires k < |tokens|
    ensures Pieces(postgres, tokens, n)[k] == Piece(postgres, tokens[k], n + ParametersBefore(tokens, k))
  {
    if k > 0 {
      PieceAt(postgres, tokens[1..], if tokens[0].Parameter? then n + 1 else n, k - 1);
      ParametersBeforeTail(tokens, k);
    }
  }

  // ---- The one-pass scanner ----

  method CopyQuoted(out: string, query: string, start: nat, quote: char) returns (out': string, next: nat)
    requires start < |query|
    ensures next == QuotedEnd(query, start + 1, quote) && out' == out + query[start..next]
  {
    out' := out + [query[start]];
    var i := start + 1;
    while i < |query|
      invariant start < i <= |query|
      invariant out' == out + query[start..i]
      invariant QuotedEnd(query, i, quote) == QuotedEnd(query, start + 1, quote)
    {
      assert query[start..i + 1] == query[start..i] + [query[i]];
      out' := out' + [query[i]];
      if query[i] == quote {
        if i + 1 < |query| && query[i + 1] == quote {
          out' := out' + [query[i + 1]];
          i := i + 2;
          continue;
        }
        return out', i + 1;
      }
      i := i + 1;
    }
    return out', |query|;
  }

  /** The copy loop of a bracketed name (c is the closing bracket) and of a line comment (c is the newline). */
  method CopyThrough(out: string, query: string, start: nat, c: char) returns (out': string, next: nat)
    requires start < |query|
    ensures next == EndAfter(query, start, c) && out' == out + query[start..next]
  {
    out' := out;
    var i := start;
    while i < |query|
      invariant start <= i <= |query|
      invariant out' == out + query[start..i]
      invariant EndAfter(query, i, c) == EndAfter(query, start, c)
    {
      assert query[start..i + 1] == query[start..i] + [query[i]];
      out' := out' + [query[i]];
      if query[i] == c {
        return out', i + 1;
      }
      i := i + 1;
    }
    return out', |query|;
  }

  method CopyBlockComment(out: string, query: string, start: nat) returns (out': string, next: nat)
    requires start < |query|
    ensures next == BlockEnd(query, start) && out' == out + query[start..next]
  {
    out' := out;
    var i := start;
    while i < |query|
      invariant start <= i <= |query|
      invariant out' == out + query[start..i]
      invariant BlockEnd(query, i) == BlockEnd(query, start)
    {
      assert query[start..i + 1] == query[start..i] + [query[i]];
      out' := out' + [query[i]];
      if query[i] == '*' && i + 1 < |query| && query[i + 1] == '/' {
        out' := out' + "/";
        return out', i + 2;
      }
      i := i + 1;
    }
    return out', |query|;
  }

  /** One turn of the scan: the token at i is written out. */
  method ScanToken(postgres: bool, query: string, i: nat, out: string, parameter: nat)
    returns (out': string, i': nat, parameter': nat)
    requires i < |query|
    ensures var t := TokenAt(query, i);
            && out' == out + Piece(postgres, t, parameter)
            && i' == TokenEnd(query, i)
            && parameter' == if postgres && t.Parameter? then parameter + 1 else parameter
  {
    parameter' := parameter;
    var c := query[i];
    if c == '\'' || c == '"' || c == '`' {
      out', i' := CopyQuoted(out, query, i, c);
    } else if c == '[' {
      out', i' := CopyThrough(out, query, i, ']');
    } else if c == '-' && i + 1 < |query| && query[i + 1] == '-' {
      out', i' := CopyThrough(out, query, i, '\n');
    } else if c == '/' && i + 1 < |query| && query[i + 1] == '*' {
      out', i' := CopyBlockComment(out, query, i);
    } else if c == '?' {
      if i + 1 < |query| && query[i + 1] == '?' {
        out', i' := out + "?", i + 2;
      } else if postgres {
        out', i', parameter' := out + ("$" + Decimal(parameter)), i + 1, parameter + 1;
      } else {
        out', i' := out + "?", i + 1;
      }
    } else if c == '\\' && i + 1 < |query| && query[i + 1] == '?' {
      out', i' := out + "?", i + 2;
    } else {
      out', i' := out + [c], i + 1;
    }
  }

  function Specified(driver: Driver, query: string): string {
    if driver.Unsupported? then query else Render(driver == PostgreSQL, Tokenise(query, 0), 1)
  }

  /** Without PostgreSQL the parameter number is never written. */
  lemma {:induction false} SQLiteIgnoresNumbers(tokens: seq<Token>, m: nat, n: nat)
    ensures Render(false, tokens, m) == Render(false, tokens, n)
  {
    if |tokens| == 0 {
    } else {
      var next := if tokens[0].Parameter? then 1 else 0;
      SQLiteIgnoresNumbers(tokens[1..], m + next, n + next);
    }
  }

  lemma RenderStep(postgres: bool, token: Token, rest: seq<Token>, n: nat)
    ensures Render(postgres, [token] + rest, n)
         == Piece(postgres, token, n) + Render(postgres, rest, if postgres && token.Parameter? then n + 1 else n)
  {
    assert ([token] + rest)[1..] == rest;
    if !postgres {
      SQLiteIgnoresNumbers(rest, n, n + 1);
    }
  }

  lemma Regroup(a: string, b: string, c: string)
    ensures (a + b) + c == a + (b + c)
  {
  }

  method Rebind(driver: Driver, query: string) returns (out: string)
    ensures out == Specified(driver, query)
    ensures driver.Unsupported? ==> out == query
    ensures driver == SQLite ==> out == Concat(Pieces(false, Tokenise(query, 0), 1))
    ensures driver == PostgreSQL ==> out == Concat(Pieces(true, Tokenise(query, 0), 1))
  {
    RenderIsPieces(driver == PostgreSQL, Tokenise(query, 0), 1);
    if driver != SQLite && driver != PostgreSQL {
      return query;
    }
    var postgres := driver == PostgreSQL;
    out := "";
    var parameter := 1;
    var i := 0;
    while i < |query|
      invariant 0 <= i <= |query|
      invariant out + Render(postgres, Tokenise(query, i), parameter) == Render(postgres, Tokenise(query, 0), 1)
      decreases |query| - i
    {
      ghost var token, before, n := TokenAt(query, i), out, parameter;
      assert Tokenise(query, i) == [token] + Tokenise(query, TokenEnd(query, i));
      out, i, parameter := ScanToken(postgres, query, i, out, parameter);
      RenderStep(postgres, token, Tokenise(query, i), n);
      Regroup(before, Piece(postgres, token, n), Render(postgres, Tokenise(query, i), parameter));
    }
  }

  // ---- What the rewritten query says ----

  lemma PiecesDiffer(token: Token, n: nat)
    ensures Piece(false, token, n) == Piece(true, token, n) <==> !token.Parameter?
  {
    if token.Parameter? {
      assert |"$" + Decimal(n)| > 1;
    }
  }

  /** Both dialects write the same pieces in the same places, except at parameters. */
  lemma DialectsDifferOnlyAtParameters(tokens: seq<Token>, k: nat)
    requires k < |tokens|
    ensures Render(false, tokens, 1) == Concat(Pieces(false, tokens, 1))
    ensures Render(true, tokens, 1) == Concat(Pieces(true, tokens, 1))
    ensures Pieces(false, tokens, 1)[k] == Pieces(true, tokens, 1)[k] <==> !tokens[k].Parameter?
    ensures tokens[k].Verbatim? ==> Pieces(true, tokens, 1)[k] == tokens[k].text
    ensures tokens[k].Parameter? ==>
              && Pieces(false, tokens, 1)[k] == "?"
              && Pieces(true, tokens, 1)[k] == "$" + Decimal(1 + ParametersBefore(tokens, k))
  {
    RenderIsPieces(false, tokens, 1);
    RenderIsPieces(true, tokens, 1);
    PieceAt(false, tokens, 1, k);
    PieceAt(true, tokens, 1, k);
    PiecesDiffer(tokens[k], 1 + ParametersBefore(tokens, k));
  }

  /** An escape becomes one question mark, in either dialect. */
  lemma EscapesAreQuestionMarks(postgres: bool, tokens: seq<Token>, k: nat)
    requires k < |tokens| && tokens[k].Escape?
    ensures Pieces(postgres, tokens, 1)[k] == "?"
  {
    PieceAt(postgres, tokens, 1, k);
  }

  function Value(s: string): nat
    requires forall i | 0 <= i < |s| :: '0' <= s[i] <= '9'
  {
    if |s| == 0 then 0 else 10 * Value(s[..|s| - 1]) + (s[|s| - 1] as nat - '0' as nat)
  }

  /** Parameter names can be read back, so different parameters get different names. */
  lemma {:induction false} DecimalReadsBack(n: nat)
    ensures forall i | 0 <= i < |Decimal(n)| :: '0' <= Decimal(n)[i] <= '9'
    ensures Value(Decimal(n)) == n
  {
    if n >= 10 {
      DecimalReadsBack(n / 10);
      assert Decimal(n)[..|Decimal(n)| - 1] == Decimal(n / 10);
    } else {
      assert Decimal(n)[..0] == "";
    }
  }

  // ---- Against SQLite's own cut ----

  predicate OpensBlock(q: string, i: nat) { i + 1 < |q| && q[i] == '/' && q[i + 1] == '*' }

  /** The scanner lets the opening's own star close the comment when a slash and more follow. */
  predicate ClosesEarly(q: string, i: nat) { OpensBlock(q, i) && i + 3 < |q| && q[i + 2] == '/' }

  /** A comment that does not nest ends at the first star-slash after the opening two characters. */
  lemma BlockEndExactly(q: string, i: nat)
    requires OpensBlock(q, i)
    ensures BlockEnd(q, i) == BlockEnd(q, i + 2) <==> !ClosesEarly(q, i)
    ensures ClosesEarly(q, i) ==> BlockEnd(q, i) == i + 3 < BlockEnd(q, i + 2)
  {
  }

  function SqliteTokenEnd(q: string, i: nat): (e: nat)
    requires i < |q|
    ensures i < e <= |q|
  {
    if OpensBlock(q, i) then BlockEnd(q, i + 2) else TokenEnd(q, i)
  }

  /** The token at i by SQLite's rules, which differ from the scanner's at block comments alone. */
  function SqliteTokenAt(q: string, i: nat): Token
    requires i < |q|
  {
    if OpensBlock(q, i) then Verbatim(BlockComment, q[i..BlockEnd(q, i + 2)]) else TokenAt(q, i)
  }

  function SqliteTokens(q: string, i: nat): seq<Token>
    requires i <= |q|
    decreases |q| - i
  {
    if i == |q| then [] else [SqliteTokenAt(q, i)] + SqliteTokens(q, SqliteTokenEnd(q, i))
  }

  const EARLY: Token := Verbatim(BlockComment, "/*/")

  lemma SqliteTokenExactly(q: string, i: nat)
    requires i < |q|
    ensures TokenAt(q, i) == SqliteTokenAt(q, i) <==> !(TokenAt(q, i) == EARLY && TokenEnd(q, i) < |q|)
    ensures TokenAt(q, i) == SqliteTokenAt(q, i) ==> TokenEnd(q, i) == SqliteTokenEnd(q, i)
  {
    if OpensBlock(q, i) {
      BlockEndExactly(q, i);
      var e := TokenEnd(q, i);
      assert TokenAt(q, i) == Verbatim(BlockComment, q[i..e]);
      assert |q[i..e]| == e - i;
      if e == i + 3 {
        assert q[i..e] == [q[i], q[i + 1], q[i + 2]];
        assert q[i..e] == "/*/" <==> q[i + 2] == '/';
      }
      assert "/*/"[2] == '/';
    }
  }

  /** No token but the last is a comment that closed on its own opening. */
  predicate NoneEarly(tokens: seq<Token>) { forall k | 0 <= k < |tokens| - 1 :: tokens[k] != EARLY }

  lemma NoneEarlyCons(token: Token, rest: seq<Token>)
    ensures NoneEarly([token] + rest) <==> (rest == [] || token != EARLY) && NoneEarly(rest)
  {
    var tokens := [token] + rest;
    if NoneEarly(tokens) {
      forall k | 0 <= k < |rest| - 1 ensures rest[k] != EARLY {
        assert tokens[k + 1] == rest[k];
      }
      assert rest != [] ==> tokens[0] != EARLY;
    }
    if (rest == [] || token != EARLY) && NoneEarly(rest) {
      forall k | 0 <= k < |tokens| - 1 ensures tokens[k] != EARLY {
        assert k > 0 ==> tokens[k] == rest[k - 1];
      }
    }
  }

  lemma ConsEqual(t: Token, rest: seq<Token>, u: Token, rest': seq<Token>)
    ensures [t] + rest == [u] + rest' <==> t == u && rest == rest'
  {
    assert ([t] + rest)[0] == t && ([t] + rest)[1..] == rest;
    assert ([u] + rest')[0] == u && ([u] + rest')[1..] == rest';
  }

  /** One token further: two cuts agree exactly when the token is not early, and the rests agree. */
  lemma CutsAgree(t: Token, rest: seq<Token>, u: Token, rest': seq<Token>, standard: seq<Token>)
    requires t == u <==> !(t == EARLY && rest != [])
    requires t == u ==> rest' == standard
    requires rest == standard <==> NoneEarly(rest)
    ensures [t] + rest == [u] + rest' <==> NoneEarly([t] + rest)
  {
    NoneEarlyCons(t, rest);
    ConsEqual(t, rest, u, rest');
  }

  /** A query is cut as SQLite cuts it exactly when none of its tokens but the last is such a comment. */
  lemma {:induction false} SqliteCutExactly(q: string, i: nat)
    requires i <= |q|
    ensures Tokenise(q, i) == SqliteTokens(q, i) <==> NoneEarly(Tokenise(q, i))
    decreases |q| - i
  {
    if i == |q| {
    } else {
      var j, j' := TokenEnd(q, i), SqliteTokenEnd(q, i);
      SqliteTokenExactly(q, i);
      SqliteCutExactly(q, j);
      CutsAgree(TokenAt(q, i), Tokenise(q, j), SqliteTokenAt(q, i), SqliteTokens(q, j'), SqliteTokens(q, j));
    }
  }

  /** A parameter the scanner finds although SQLite has it inside a comment. */
  lemma BlockCommentClosesEarly()
    ensures Tokenise("/*/?", 0) == [Verbatim(BlockComment, "/*/"), Parameter]
    ensures SqliteTokens("/*/?", 0) != Tokenise("/*/?", 0)
  {
    var q := "/*/?";
    assert ClosesBlock(q, 1) && BlockEnd(q, 0) == 3;
    assert TokenAt(q, 0) == Verbatim(BlockComment, "/*/");
    assert TokenAt(q, 3) == Parameter && Tokenise(q, 4) == [];
    SqliteCutExactly(q, 0);
    assert Tokenise(q, 0)[0] == EARLY;
  }

  // ---- Against PostgreSQL's own cut ----

  predicate LetterLike(c: char) { 'a' <= c <= 'z' || 'A' <= c <= 'Z' || c == '_' || c >= '\U{0080}' }

  predicate WordChar(c: char) { LetterLike(c) || '0' <= c <= '9' || c == '$' }

  /** Whether a word is under way after the token: it ends neither a quote nor a comment. */
  predicate InWord(t: Token) { t.Verbatim? && t.kind == Plain && |t.text| == 1 && WordChar(t.text[0]) }

  /** An escape string: E or e at the start of a word, and a quote. */
  predicate OpensEscape(q: string, i: nat, word: bool) {
    !word && i + 1 < |q| && (q[i] == 'E' || q[i] == 'e') && q[i + 1] == '\''
  }

  /** Where the escape string ends whose text continues at i: a backslash takes the next character with it. */
  function EscapeEnd(q: string, i: nat): (e: nat)
    requires i <= |q|
    ensures i <= e <= |q|
    decreases |q| - i
  {
    if i == |q| then i
    else if q[i] == '\\' then (if i + 1 < |q| then EscapeEnd(q, i + 2) else |q|)
    else if q[i] != '\'' then EscapeEnd(q, i + 1)
    else if i + 1 < |q| && q[i + 1] == '\'' then EscapeEnd(q, i + 2)
    else i + 1
  }

  function TagEnd(q: string, i: nat): (e: nat)
    requires i <= |q|
    ensures i <= e <= |q|
    decreases |q| - i
  {
    if i < |q| && (LetterLike(q[i]) || '0' <= q[i] <= '9') then TagEnd(q, i + 1) else i
  }

  /** A dollar quote: a dollar sign that starts a word, a tag that may be empty, and a dollar sign. */
  predicate OpensDollar(q: string, i: nat, word: bool) {
    && !word && i < |q| && q[i] == '$'
    && var j := TagEnd(q, i + 1);
    && j < |q| && q[j] == '$' && (j == i + 1 || LetterLike(q[i + 1]))
  }

  /** Just after the first occurrence of the text from i on, or the end of the query. */
  function TextEnd(q: string, i: nat, text: string): (e: nat)
    requires i <= |q|
    ensures i <= e <= |q|
    decreases |q| - i
  {
    if i + |text| > |q| then |q|
    else if q[i..i + |text|] == text then i + |text|
    else if i == |q| then i
    else TextEnd(q, i + 1, text)
  }

  /** A line comment ends at a carriage return as well. */
  function LineEnd(q: string, i: nat): (e: nat)
    requires i <= |q|
    ensures i <= e <= |q| && (i < |q| ==> i < e)
    decreases |q| - i
  {
    if i == |q| then i else if q[i] == '\n' || q[i] == '\r' then i + 1 else LineEnd(q, i + 1)
  }

  /** Block comments nest; depth counts those open at i. */
  function NestedEnd(q: string, i: nat, depth: nat): (e: nat)
    requires i <= |q|
    ensures i <= e <= |q|
    decreases |q| - i
  {
    if depth == 0 || i == |q| then i
    else if ClosesBlock(q, i) then NestedEnd(q, i + 2, depth - 1)
    else if OpensBlock(q, i) then NestedEnd(q, i + 2, depth + 1)
    else NestedEnd(q, i + 1, depth)
  }

  function PostgresTokenEnd(q: string, i: nat, word: bool): (e: nat)
    requires i < |q|
    ensures i < e <= |q|
  {
    var c := q[i];
    var twin := i + 1 < |q|;
    if c == '\'' || c == '"' then QuotedEnd(q, i + 1, c)
    else if OpensEscape(q, i, word) then EscapeEnd(q, i + 2)
    else if OpensDollar(q, i, word) then
      var j := TagEnd(q, i + 1) + 1;
      TextEnd(q, j, q[i..j])
    else if c == '-' && twin && q[i + 1] == '-' then LineEnd(q, i)
    else if OpensBlock(q, i) then NestedEnd(q, i + 2, 1)
    else if (c == '?' || c == '\\') && twin && q[i + 1] == '?' then i + 2
    else i + 1
  }

  /** The token at i by PostgreSQL's rules, with the scanner's two escapes; word says whether a word is under way. */
  function PostgresTokenAt(q: string, i: nat, word: bool): Token
    requires i < |q|
  {
    var c := q[i];
    var twin := i + 1 < |q|;
    var text := q[i..PostgresTokenEnd(q, i, word)];
    if c == '\'' || c == '"' then Verbatim(Quoted, text)
    else if OpensEscape(q, i, word) then Verbatim(EscapeString, text)
    else if OpensDollar(q, i, word) then Verbatim(DollarQuoted, text)
    else if c == '-' && twin && q[i + 1] == '-' then Verbatim(LineComment, text)
    else if OpensBlock(q, i) then Verbatim(BlockComment, text)
    else if (c == '?' || c == '\\') && twin && q[i + 1] == '?' then Escape(text)
    else if c == '?' then Parameter
    else Verbatim(Plain, text)
  }

  function PostgresTokens(q: string, i: nat, word: bool): seq<Token>
    requires i <= |q|
    decreases |q| - i
  {
    if i == |q| then []
    else
      var t := PostgresTokenAt(q, i, word);
      [t] + PostgresTokens(q, PostgresTokenEnd(q, i, word), InWord(t))
  }

  /** A comment inside the comment at i, and text after its first star-slash. */
  predicate NestsBlock(q: string, i: nat) {
    && OpensBlock(q, i)
    && var e := BlockEnd(q, i + 2);
    e < |q| && exists j :: i + 2 <= j < e - 2 && OpensBlock(q, j)
  }

  /** A line comment with a carriage return before its last character. */
  predicate ReturnsInLine(q: string, i: nat) {
    && i + 1 < |q| && q[i] == '-' && q[i + 1] == '-'
    && exists j :: i <= j < EndAfter(q, i, '\n') - 1 && q[j] == '\r'
  }

  /** Where the scanner and PostgreSQL part. */
  predicate PartsAt(q: string, i: nat, word: bool)
    requires i < |q|
  {
    || q[i] == '`' || q[i] == '['
    || OpensEscape(q, i, word) || OpensDollar(q, i, word)
    || ClosesEarly(q, i) || NestsBlock(q, i) || ReturnsInLine(q, i)
  }

  /** The scanner's tokens start at no such place. */
  predicate NoneParts(q: string, i: nat, word: bool)
    requires i <= |q|
    decreases |q| - i
  {
    i == |q| || (!PartsAt(q, i, word) && NoneParts(q, TokenEnd(q, i), InWord(TokenAt(q, i))))
  }

  lemma {:induction false} LineEndExactly(q: string, i: nat)
    requires i <= |q|
    ensures LineEnd(q, i) == EndAfter(q, i, '\n') <==>
              forall j | i <= j < EndAfter(q, i, '\n') - 1 :: q[j] != '\r'
    ensures LineEnd(q, i) <= EndAfter(q, i, '\n')
    decreases |q| - i
  {
    if i == |q| {
    } else if q[i] != '\n' && q[i] != '\r' {
      LineEndExactly(q, i + 1);
    }
  }

  /** As many star-slashes as comments are open, or the end of the query. */
  lemma {:induction false} NestedIsLong(q: string, i: nat, depth: nat)
    requires i <= |q|
    ensures NestedEnd(q, i, depth) == |q| || NestedEnd(q, i, depth) >= i + 2 * depth
    decreases |q| - i
  {
    if depth == 0 || i == |q| {
    } else if ClosesBlock(q, i) {
      NestedIsLong(q, i + 2, depth - 1);
    } else if OpensBlock(q, i) {
      NestedIsLong(q, i + 2, depth + 1);
    } else {
      NestedIsLong(q, i + 1, depth);
    }
  }

  /** With two comments open the first star-slash is not the end. */
  lemma {:induction false} NestedIsLater(q: string, i: nat, depth: nat)
    requires i <= |q| && depth >= 2
    ensures NestedEnd(q, i, depth) == |q| || NestedEnd(q, i, depth) > BlockEnd(q, i)
    decreases |q| - i
  {
    if i == |q| {
    } else if ClosesBlock(q, i) {
      NestedIsLong(q, i + 2, depth - 1);
    } else if OpensBlock(q, i) {
      NestedIsLater(q, i + 2, depth + 1);
      NestedIsLong(q, i + 2, depth + 1);
      OpeningEnd(q, i);
    } else {
      NestedIsLater(q, i + 1, depth);
    }
  }

  lemma OpeningEnd(q: string, i: nat)
    requires OpensBlock(q, i)
    ensures BlockEnd(q, i) == i + 3 || BlockEnd(q, i) == BlockEnd(q, i + 2)
  {
  }

  lemma {:induction false} NestedEndExactly(q: string, i: nat)
    requires i <= |q|
    ensures NestedEnd(q, i, 1) == BlockEnd(q, i) <==>
              !(BlockEnd(q, i) < |q| && exists j :: i <= j < BlockEnd(q, i) - 2 && OpensBlock(q, j))
    decreases |q| - i
  {
    if i == |q| {
    } else if ClosesBlock(q, i) {
    } else if OpensBlock(q, i) {
      NestedIsLater(q, i + 2, 2);
      NestedIsLong(q, i + 2, 2);
      OpeningEnd(q, i);
      if BlockEnd(q, i) < |q| {
        EndIsFar(q, i);
      }
    } else {
      NestedEndExactly(q, i + 1);
      assert BlockEnd(q, i) == BlockEnd(q, i + 1) && NestedEnd(q, i, 1) == NestedEnd(q, i + 1, 1);
      assert forall j | i <= j < BlockEnd(q, i) - 2 && OpensBlock(q, j) :: i + 1 <= j;
    }
  }

  lemma EndIsFar(q: string, i: nat)
    requires OpensBlock(q, i) && BlockEnd(q, i) < |q|
    ensures BlockEnd(q, i) - 2 > i
  {
    BlockEndIsFirst(q, i);
  }

  lemma PostgresTokenExactly(q: string, i: nat, word: bool)
    requires i < |q|
    ensures TokenAt(q, i) == PostgresTokenAt(q, i, word) <==> !PartsAt(q, i, word)
    ensures TokenAt(q, i) == PostgresTokenAt(q, i, word) ==> TokenEnd(q, i) == PostgresTokenEnd(q, i, word)
  {
    TokenText(q, i);
    if OpensBlock(q, i) {
      BlockEndExactly(q, i);
      NestedEndExactly(q, i + 2);
      EarlyIsNotNested(q, i);
    } else if i + 1 < |q| && q[i] == '-' && q[i + 1] == '-' {
      LineEndExactly(q, i);
    }
  }

  /** A comment that closes early for the scanner closes later for PostgreSQL, whether it nests or not. */
  lemma EarlyIsNotNested(q: string, i: nat)
    requires OpensBlock(q, i)
    ensures ClosesEarly(q, i) ==> NestedEnd(q, i + 2, 1) > i + 3
  {
    if ClosesEarly(q, i) {
      NestedIsLong(q, i + 2, 1);
    }
  }

  /** A query is cut as PostgreSQL cuts it exactly when none of the scanner's tokens starts where the two part. */
  lemma {:induction false} PostgresCutExactly(q: string, i: nat, word: bool)
    requires i <= |q|
    ensures Tokenise(q, i) == PostgresTokens(q, i, word) <==> NoneParts(q, i, word)
    decreases |q| - i
  {
    if i == |q| {
    } else {
      var t, u := TokenAt(q, i), PostgresTokenAt(q, i, word);
      var j, j' := TokenEnd(q, i), PostgresTokenEnd(q, i, word);
      PostgresTokenExactly(q, i, word);
      PostgresCutExactly(q, j, InWord(t));
      ConsEqual(t, Tokenise(q, j), u, PostgresTokens(q, j', InWord(u)));
    }
  }

  /** A parameter in an array subscript, which PostgreSQL has and the scanner leaves as it is. */
  lemma SubscriptHidesParameter()
    ensures Tokenise("a[?]", 0) == [Verbatim(Plain, "a"), Verbatim(Bracketed, "[?]")]
    ensures PostgresTokens("a[?]", 0, false) != Tokenise("a[?]", 0)
    ensures PostgresTokenAt("a[?]", 2, false) == Parameter
  {
    var q := "a[?]";
    assert EndAfter(q, 1, ']') == 4;
    assert TokenEnd(q, 0) == 1 && TokenAt(q, 0) == Verbatim(Plain, "a");
    assert TokenAt(q, 1) == Verbatim(Bracketed, "[?]") && Tokenise(q, 4) == [];
    assert PartsAt(q, 1, true);
    PostgresCutExactly(q, 0, false);
  }
}
