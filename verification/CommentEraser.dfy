/** Erasing Rust comments while keeping every line where it is: line comments, block comments of
    any nesting, and string and character literals that must stay untouched. */
module CommentEraser {

  /** Where the scanner is. `LineComment` lasts to the next newline. */
  datatype Mode = Code | InString(escaped: bool) | InChar(escaped: bool) | LineComment | BlockComment(depth: nat)

  predicate Starts(s: string, a: char, b: char) { |s| >= 2 && s[0] == a && s[1] == b }

  function Blank(c: char): char { if c == '\n' then '\n' else ' ' }

  /** `isalpha` on ASCII; on other characters it may be anything. */
  ghost predicate AsciiAlpha(alpha: char -> bool) {
    forall c: char :: c < 128 as char ==> (alpha(c) <==> 'a' <= c <= 'z' || 'A' <= c <= 'Z')
  }

  predicate StartsName(s: string, alpha: char -> bool) { s != [] && (alpha(s[0]) || s[0] == '_') }

  /** The mode after one character that is not part of a comment delimiter. */
  function AfterChar(s: string, m: Mode, alpha: char -> bool): Mode
    requires s != []
  {
    match m
    case Code =>
      if s[0] == '"' then InString(false)
      else if s[0] == '\'' && !StartsName(s[1..], alpha) then InChar(false)
      else Code
    case InString(e) => if !e && s[0] == '"' then Code else InString(!e && s[0] == '\\')
    case InChar(e) => if !e && s[0] == '\'' then Code else InChar(!e && s[0] == '\\')
    case LineComment => if s[0] == '\n' then Code else LineComment
    case BlockComment(d) => m
  }

  /** The erased text, scanning `s` in mode `m`. */
  function Erase(s: string, m: Mode, alpha: char -> bool): string
    decreases |s|
  {
    if s == [] then []
    else if m.Code? && Starts(s, '/', '/') then "  " + Erase(s[2..], LineComment, alpha)
    else if m.Code? && Starts(s, '/', '*') then "  " + Erase(s[2..], BlockComment(1), alpha)
    else if m.BlockComment? && Starts(s, '/', '*') then "  " + Erase(s[2..], BlockComment(m.depth + 1), alpha)
    else if m.BlockComment? && Starts(s, '*', '/') then "  " + Erase(s[2..], Closed(m.depth), alpha)
    else
      [if m.BlockComment? || m.LineComment? then Blank(s[0]) else s[0]]
      + Erase(s[1..], AfterChar(s, m, alpha), alpha)
  }

  function Closed(depth: nat): Mode { if depth <= 1 then Code else BlockComment(depth - 1) }

  // ---- Line-exactness ----

  /** Same length, newlines exactly where they were, every character kept or made a space. */
  ghost predicate LineExact(s: string, out: string) {
    && |out| == |s|
    && (forall i :: 0 <= i < |s| ==> (out[i] == '\n' <==> s[i] == '\n') && (out[i] == s[i] || out[i] == ' '))
  }

  lemma LineExactCons(a: string, b: string, x: string, y: string)
    requires LineExact(a, x) && LineExact(b, y)
    ensures LineExact(a + b, x + y)
  {
  }

  lemma {:induction false} EraseIsLineExact(s: string, m: Mode, alpha: char -> bool)
    ensures LineExact(s, Erase(s, m, alpha))
    decreases |s|
  {
    if s == [] {
    } else if (m.Code? || m.BlockComment?) && Starts(s, '/', '*') {
      EraseIsLineExact(s[2..], if m.Code? then BlockComment(1) else BlockComment(m.depth + 1), alpha);
      PairLineExact(s, Erase(s[2..], if m.Code? then BlockComment(1) else BlockComment(m.depth + 1), alpha));
    } else if m.Code? && Starts(s, '/', '/') {
      EraseIsLineExact(s[2..], LineComment, alpha);
      PairLineExact(s, Erase(s[2..], LineComment, alpha));
    } else if m.BlockComment? && Starts(s, '*', '/') {
      EraseIsLineExact(s[2..], Closed(m.depth), alpha);
      PairLineExact(s, Erase(s[2..], Closed(m.depth), alpha));
    } else {
      EraseIsLineExact(s[1..], AfterChar(s, m, alpha), alpha);
      var c := if m.BlockComment? || m.LineComment? then Blank(s[0]) else s[0];
      LineExactCons([s[0]], s[1..], [c], Erase(s[1..], AfterChar(s, m, alpha), alpha));
      assert s == [s[0]] + s[1..];
    }
  }

  lemma PairLineExact(s: string, out: string)
    requires |s| >= 2 && s[0] != '\n' && s[1] != '\n' && LineExact(s[2..], out)
    ensures LineExact(s, "  " + out)
  {
    LineExactCons(s[..2], s[2..], "  ", out);
    assert s == s[..2] + s[2..];
  }

  // ---- Erasing twice ----

  /** What is left of a comment is plain code. */
  function Again(m: Mode): Mode { if m.LineComment? || m.BlockComment? then Code else m }

  lemma BlankThenCode(c: char, rest: string, alpha: char -> bool)
    requires c == ' ' || c == '\n'
    ensures Erase([c] + rest, Code, alpha) == [c] + Erase(rest, Code, alpha)
  {
    assert ([c] + rest)[1..] == rest;
  }

  lemma SpacesThenCode(rest: string, alpha: char -> bool)
    ensures Erase("  " + rest, Code, alpha) == "  " + Erase(rest, Code, alpha)
  {
    BlankThenCode(' ', rest, alpha);
    BlankThenCode(' ', [' '] + rest, alpha);
    assert "  " + rest == [' '] + ([' '] + rest);
  }

  /** A character that stays stays in the same role: nothing that follows can turn it into a
      comment opener or a different quote. */
  lemma KeptThenSame(s: string, m: Mode, alpha: char -> bool)
    requires s != [] && AsciiAlpha(alpha) && !m.LineComment? && !m.BlockComment?
    requires m.Code? ==> !Starts(s, '/', '/') && !Starts(s, '/', '*')
    ensures var rest := Erase(s[1..], AfterChar(s, m, alpha), alpha);
            Erase([s[0]] + rest, m, alpha) == [s[0]] + Erase(rest, AfterChar(s, m, alpha), alpha)
  {
    var next := AfterChar(s, m, alpha);
    var rest := Erase(s[1..], next, alpha);
    var out := [s[0]] + rest;
    EraseIsLineExact(s[1..], next, alpha);
    assert out[1..] == rest;
    if m.Code? && s[0] == '\'' && |s| >= 2 {
      assert !alpha('/') && !alpha(' ');
      assert s[1] == s[1..][0];
    }
  }

  /** Erasing is idempotent, from any mode. */
  lemma {:induction false} EraseTwice(s: string, m: Mode, alpha: char -> bool)
    requires AsciiAlpha(alpha)
    ensures Erase(Erase(s, m, alpha), Again(m), alpha) == Erase(s, m, alpha)
    decreases |s|
  {
    if s == [] {
    } else if m.Code? && Starts(s, '/', '/') {
      EraseTwice(s[2..], LineComment, alpha);
      SpacesThenCode(Erase(s[2..], LineComment, alpha), alpha);
    } else if (m.Code? || m.BlockComment?) && Starts(s, '/', '*') {
      var inner := if m.Code? then BlockComment(1) else BlockComment(m.depth + 1);
      EraseTwice(s[2..], inner, alpha);
      SpacesThenCode(Erase(s[2..], inner, alpha), alpha);
    } else if m.BlockComment? && Starts(s, '*', '/') {
      EraseTwice(s[2..], Closed(m.depth), alpha);
      SpacesThenCode(Erase(s[2..], Closed(m.depth), alpha), alpha);
    } else if m.BlockComment? || m.LineComment? {
      EraseTwice(s[1..], AfterChar(s, m, alpha), alpha);
      BlankThenCode(Blank(s[0]), Erase(s[1..], AfterChar(s, m, alpha), alpha), alpha);
    } else {
      EraseTwice(s[1..], AfterChar(s, m, alpha), alpha);
      KeptThenSame(s, m, alpha);
    }
  }

  // ---- What is a comment: a grammar to compare with ----

  /** The inside of a block comment: characters and further block comments. */
  datatype Piece = Char(c: char) | Nested(inside: seq<Piece>)

  datatype Token =
    | Plain(c: char)
    | Str(body: string)
    | Chr(body: string)
    | Tick                      // the quote of a lifetime
    | Line(text: string)
    | Block(inside: seq<Piece>)

  function RenderPiece(p: Piece): string
    decreases p
  {
    match p
    case Char(c) => [c]
    case Nested(inside) => "/*" + RenderPieces(inside) + "*/"
  }

  function RenderPieces(ps: seq<Piece>): string
    decreases ps
  {
    if ps == [] then "" else RenderPiece(ps[0]) + RenderPieces(ps[1..])
  }

  function Render(t: Token): string {
    match t
    case Plain(c) => [c]
    case Str(body) => "\"" + body + "\""
    case Chr(body) => "'" + body + "'"
    case Tick => "'"
    case Line(text) => "//" + text
    case Block(inside) => "/*" + RenderPieces(inside) + "*/"
  }

  function RenderAll(ts: seq<Token>): string { if ts == [] then "" else Render(ts[0]) + RenderAll(ts[1..]) }

  function BlankAll(s: string): string { if s == "" then "" else [Blank(s[0])] + BlankAll(s[1..]) }

  /** Blanked text has a space for every character but the line ends. */
  lemma {:induction false} BlankAllAt(s: string, i: nat)
    requires i < |s|
    ensures |BlankAll(s)| == |s| && BlankAll(s)[i] == (if s[i] == '\n' then '\n' else ' ')
    decreases |s|
  {
    if |s| > 1 { BlankAllAt(s[1..], if i == 0 then 0 else i - 1); }
  }

  /** The same tokens with the comments blanked out. */
  function Expected(ts: seq<Token>): string {
    if ts == [] then ""
    else (if ts[0].Line? || ts[0].Block? then BlankAll(Render(ts[0])) else Render(ts[0])) + Expected(ts[1..])
  }

  /** Single characters of a comment do not spell a delimiter with what follows them. */
  predicate CleanPieces(ps: seq<Piece>)
    decreases ps
  {
    ps == [] ||
    (&& (match ps[0]
         case Char(c) => !Starts([c] + RenderPieces(ps[1..]) + "*/", '/', '*') && !Starts([c] + RenderPieces(ps[1..]) + "*/", '*', '/')
         case Nested(inside) => CleanPieces(inside))
     && CleanPieces(ps[1..]))
  }

  /** A literal's body: escapes come in pairs, and no bare quote ends it early. */
  predicate CleanBody(body: string, quote: char)
    decreases |body|
  {
    body == "" ||
    (if body[0] == '\\' then |body| >= 2 && CleanBody(body[2..], quote) else body[0] != quote && CleanBody(body[1..], quote))
  }

  /** The token, before the text `rest`, is what it looks like. */
  predicate CleanToken(t: Token, rest: string, alpha: char -> bool) {
    match t
    case Plain(c) => c != '"' && c != '\'' && !Starts([c] + rest, '/', '/') && !Starts([c] + rest, '/', '*')
    case Str(body) => CleanBody(body, '"')
    case Chr(body) => CleanBody(body, '\'') && !StartsName(body, alpha)
    case Tick => StartsName(rest, alpha)
    case Line(text) => '\n' !in text && (rest == "" || rest[0] == '\n')
    case Block(inside) => CleanPieces(inside)
  }

  predicate CleanTokens(ts: seq<Token>, alpha: char -> bool) {
    ts == [] || (CleanToken(ts[0], RenderAll(ts[1..]), alpha) && CleanTokens(ts[1..], alpha))
  }

  lemma BlankAllSplit(a: string, b: string)
    ensures BlankAll(a + b) == BlankAll(a) + BlankAll(b)
  {
    if a == "" {
      assert a + b == b;
    } else {
      BlankAllSplit(a[1..], b);
      assert (a + b)[1..] == a[1..] + b;
    }
  }

  lemma EraseOpen(rest: string, depth: nat, alpha: char -> bool)
    ensures Erase("/*" + rest, BlockComment(depth), alpha) == "  " + Erase(rest, BlockComment(depth + 1), alpha)
    ensures Erase("/*" + rest, Code, alpha) == "  " + Erase(rest, BlockComment(1), alpha)
  {
    assert ("/*" + rest)[2..] == rest;
  }

  lemma EraseClose(rest: string, depth: nat, alpha: char -> bool)
    ensures Erase("*/" + rest, BlockComment(depth), alpha) == "  " + Erase(rest, Closed(depth), alpha)
  {
    assert ("*/" + rest)[2..] == rest;
  }

  lemma EraseInside(c: char, rest: string, depth: nat, alpha: char -> bool)
    requires !Starts([c] + rest, '/', '*') && !Starts([c] + rest, '*', '/')
    ensures Erase([c] + rest, BlockComment(depth), alpha) == [Blank(c)] + Erase(rest, BlockComment(depth), alpha)
  {
    assert ([c] + rest)[1..] == rest;
  }

  lemma BlankNested(inside: string)
    ensures BlankAll("/*" + inside + "*/") == "  " + BlankAll(inside) + "  "
  {
    BlankAllSplit("/*" + inside, "*/");
    BlankAllSplit("/*", inside);
    assert BlankAll("/*") == "  " && BlankAll("*/") == "  " by {
      assert "/*"[1..] == "*" && "*/"[1..] == "/" && BlankAll("*") == " " && BlankAll("/") == " ";
    }
  }

  lemma Join3(a: string, b: string, c: string, d: string)
    ensures (a + b + c) + d == a + (b + (c + d))
  {
  }

  /** Block comments of any nesting are blanked up to their own end, and the scan goes on as it was
      before them. */
  lemma {:induction false} ErasePieces(ps: seq<Piece>, depth: nat, rest: string, alpha: char -> bool)
    requires CleanPieces(ps) && depth >= 1
    ensures Erase(RenderPieces(ps) + ("*/" + rest), BlockComment(depth), alpha)
            == BlankAll(RenderPieces(ps)) + ("  " + Erase(rest, Closed(depth), alpha))
    decreases ps
  {
    var close := "*/" + rest;
    if ps == [] {
      assert "" + close == close;
      EraseClose(rest, depth, alpha);
    } else {
      var more := RenderPieces(ps[1..]);
      ErasePieces(ps[1..], depth, rest, alpha);
      if ps[0].Nested? {
        ErasePieces(ps[0].inside, depth + 1, more + close, alpha);
      }
      ErasePiece(ps[0], depth, more, close, alpha);
      Glue(RenderPiece(ps[0]), more, close, "  " + Erase(rest, Closed(depth), alpha));
    }
  }

  lemma Glue(first: string, more: string, close: string, tail: string)
    ensures (first + more) + close == first + (more + close)
    ensures BlankAll(first + more) + tail == BlankAll(first) + (BlankAll(more) + tail)
  {
    BlankAllSplit(first, more);
  }

  lemma ErasePiece(p: Piece, depth: nat, more: string, close: string, alpha: char -> bool)
    requires depth >= 1
    requires match p
             case Char(c) =>
               && |close| >= 2 && close[..2] == "*/"
               && !Starts([c] + more + "*/", '/', '*') && !Starts([c] + more + "*/", '*', '/')
             case Nested(inside) =>
               Erase(RenderPieces(inside) + ("*/" + (more + close)), BlockComment(depth + 1), alpha)
               == BlankAll(RenderPieces(inside)) + ("  " + Erase(more + close, Closed(depth + 1), alpha))
    ensures Erase(RenderPiece(p) + (more + close), BlockComment(depth), alpha)
            == BlankAll(RenderPiece(p)) + Erase(more + close, BlockComment(depth), alpha)
  {
    match p {
      case Char(c) =>
        assert (more + close)[0] == (more + "*/")[0];
        EraseInside(c, more + close, depth, alpha);
        assert [c][1..] == [];
      case Nested(inside) =>
        var body := RenderPieces(inside);
        Join3("/*", body, "*/", more + close);
        EraseOpen(body + ("*/" + (more + close)), depth, alpha);
        BlankNested(body);
        Join3("  ", BlankAll(body), "  ", Erase(more + close, BlockComment(depth), alpha));
    }
  }

  function Literal(quote: char, escaped: bool): Mode {
    if quote == '"' then InString(escaped) else InChar(escaped)
  }

  lemma EraseQuoted(c: char, rest: string, quote: char, escaped: bool, alpha: char -> bool)
    requires quote == '"' || quote == '\''
    ensures Erase([c] + rest, Literal(quote, escaped), alpha)
            == [c] + Erase(rest, if escaped then Literal(quote, false) else if c == '\\' then Literal(quote, true)
                                 else if c == quote then Code else Literal(quote, false), alpha)
  {
    assert ([c] + rest)[1..] == rest;
  }

  lemma EraseEscape(c: char, rest: string, quote: char, alpha: char -> bool)
    requires quote == '"' || quote == '\''
    ensures Erase(['\\', c] + rest, Literal(quote, false), alpha) == ['\\', c] + Erase(rest, Literal(quote, false), alpha)
  {
    assert ['\\', c] + rest == ['\\'] + ([c] + rest);
    EraseQuoted('\\', [c] + rest, quote, false, alpha);
    EraseQuoted(c, rest, quote, true, alpha);
  }

  lemma Shift(head: string, tail: string, end: string)
    ensures (head + tail) + end == head + (tail + end)
  {
  }

  lemma {:induction false} EraseLiteral(body: string, quote: char, rest: string, alpha: char -> bool)
    requires CleanBody(body, quote) && (quote == '"' || quote == '\'')
    ensures Erase(body + ([quote] + rest), Literal(quote, false), alpha) == body + ([quote] + Erase(rest, Code, alpha))
    decreases |body|
  {
    var end, done := [quote] + rest, [quote] + Erase(rest, Code, alpha);
    if body == "" {
      assert body + end == end && body + done == done;
      EraseQuoted(quote, rest, quote, false, alpha);
    } else {
      var n := if body[0] == '\\' then 2 else 1;
      var head, tail := body[..n], body[n..];
      EraseLiteral(tail, quote, rest, alpha);
      if n == 2 {
        assert head == ['\\', body[1]];
        EraseEscape(body[1], tail + end, quote, alpha);
      } else {
        assert head == [body[0]];
        EraseQuoted(body[0], tail + end, quote, false, alpha);
      }
      Shift(head, tail, end);
      Shift(head, tail, done);
      assert body == head + tail;
    }
  }

  lemma {:induction false} EraseLine(text: string, rest: string, alpha: char -> bool)
    requires '\n' !in text && (rest == "" || rest[0] == '\n')
    ensures Erase(text + rest, LineComment, alpha) == BlankAll(text) + Erase(rest, Code, alpha)
    decreases |text|
  {
    if text == "" {
      assert text + rest == rest;
    } else {
      EraseLine(text[1..], rest, alpha);
      assert (text + rest)[1..] == text[1..] + rest;
    }
  }

  lemma EraseString(body: string, quote: char, rest: string, alpha: char -> bool)
    requires CleanBody(body, quote) && (quote == '"' || quote == '\'')
    requires AsciiAlpha(alpha) && (quote == '\'' ==> !StartsName(body, alpha))
    ensures Erase([quote] + body + [quote] + rest, Code, alpha) == [quote] + body + [quote] + Erase(rest, Code, alpha)
  {
    var inner := body + ([quote] + rest);
    Join3([quote], body, [quote], rest);
    var s := [quote] + inner;
    assert s[1..] == inner;
    assert quote == '\'' ==> !StartsName(inner, alpha) by {
      assert quote == '\'' ==> !alpha('\'');
      assert inner[0] == (if body == "" then quote else body[0]);
    }
    assert AfterChar(s, Code, alpha) == Literal(quote, false);
    EraseLiteral(body, quote, rest, alpha);
    Join3([quote], body, [quote], Erase(rest, Code, alpha));
  }

  lemma EraseLineComment(text: string, rest: string, alpha: char -> bool)
    requires '\n' !in text && (rest == "" || rest[0] == '\n')
    ensures Erase("//" + text + rest, Code, alpha) == BlankAll("//" + text) + Erase(rest, Code, alpha)
  {
    var s := "//" + text + rest;
    assert s[2..] == text + rest;
    EraseLine(text, rest, alpha);
    BlankAllSplit("//", text);
    assert BlankAll("//") == "  " by {
      assert "//"[1..] == "/" && BlankAll("/") == " ";
    }
  }

  lemma EraseBlockComment(inside: seq<Piece>, rest: string, alpha: char -> bool)
    requires CleanPieces(inside)
    ensures Erase("/*" + RenderPieces(inside) + "*/" + rest, Code, alpha)
            == BlankAll("/*" + RenderPieces(inside) + "*/") + Erase(rest, Code, alpha)
  {
    var body := RenderPieces(inside);
    Join3("/*", body, "*/", rest);
    EraseOpen(body + ("*/" + rest), 0, alpha);
    ErasePieces(inside, 1, rest, alpha);
    BlankNested(body);
    Join3("  ", BlankAll(body), "  ", Erase(rest, Code, alpha));
  }

  lemma ErasePlain(c: char, rest: string, alpha: char -> bool)
    requires c != '"' && !Starts([c] + rest, '/', '/') && !Starts([c] + rest, '/', '*')
    requires c == '\'' ==> StartsName(rest, alpha)
    ensures Erase([c] + rest, Code, alpha) == [c] + Erase(rest, Code, alpha)
  {
    assert ([c] + rest)[1..] == rest;
  }

  lemma EraseToken(t: Token, rest: string, alpha: char -> bool)
    requires AsciiAlpha(alpha) && CleanToken(t, rest, alpha)
    ensures Erase(Render(t) + rest, Code, alpha)
            == (if t.Line? || t.Block? then BlankAll(Render(t)) else Render(t)) + Erase(rest, Code, alpha)
  {
    match t {
      case Plain(c) => ErasePlain(c, rest, alpha);
      case Tick => ErasePlain('\'', rest, alpha);
      case Str(body) => EraseString(body, '"', rest, alpha);
      case Chr(body) => EraseString(body, '\'', rest, alpha);
      case Line(text) => EraseLineComment(text, rest, alpha);
      case Block(inside) => EraseBlockComment(inside, rest, alpha);
    }
  }

  /** For every token sequence: exactly the comments are blanked, everything else is kept. */
  lemma {:induction false} ErasesExactlyComments(ts: seq<Token>, alpha: char -> bool)
    requires AsciiAlpha(alpha) && CleanTokens(ts, alpha)
    ensures Erase(RenderAll(ts), Code, alpha) == Expected(ts)
    decreases |ts|
  {
    if ts != [] {
      ErasesExactlyComments(ts[1..], alpha);
      EraseToken(ts[0], RenderAll(ts[1..]), alpha);
    }
  }

  /** Every token of `ts` is what it looks like before the text `rest` that follows them all. */
  predicate CleanBefore(ts: seq<Token>, rest: string, alpha: char -> bool) {
    ts == [] || (CleanToken(ts[0], RenderAll(ts[1..]) + rest, alpha) && CleanBefore(ts[1..], rest, alpha))
  }

  lemma {:induction false} ErasesPrefix(ts: seq<Token>, rest: string, alpha: char -> bool)
    requires AsciiAlpha(alpha) && CleanBefore(ts, rest, alpha)
    ensures Erase(RenderAll(ts) + rest, Code, alpha) == Expected(ts) + Erase(rest, Code, alpha)
    decreases |ts|
  {
    if ts == [] {
      assert "" + rest == rest && "" + Erase(rest, Code, alpha) == Erase(rest, Code, alpha);
    } else {
      var more := RenderAll(ts[1..]);
      ErasesPrefix(ts[1..], rest, alpha);
      EraseToken(ts[0], more + rest, alpha);
      var out := if ts[0].Line? || ts[0].Block? then BlankAll(Render(ts[0])) else Render(ts[0]);
      Shift(Render(ts[0]), more, rest);
      Shift(out, Expected(ts[1..]), Erase(rest, Code, alpha));
    }
  }

  /** A character literal, and a line comment up to the end of its line. */
  function Commented(body: string, text: string): string { "'" + body + "'" + ("//" + text) }

  function CommentErased(body: string, text: string): string { "'" + body + "'" + BlankAll("//" + text) }

  /** What a quote before a letter costs: the scanner takes it for a lifetime, so the closing quote
      of a literal such as 'a' opens one instead. Wherever it stands, a line comment after a
      character literal (one character, or an escape) is erased, and the text after it read as code,
      exactly when the literal does not start with a letter. */
  lemma CommentAfterLiteralIff(ts: seq<Token>, body: string, text: string, rest: string, alpha: char -> bool)
    requires AsciiAlpha(alpha) && CleanBody(body, '\'') && '\n' !in text && (rest == "" || rest[0] == '\n')
    requires |body| == 1 || (body != "" && body[0] == '\\')
    requires CleanBefore(ts, Commented(body, text) + rest, alpha)
    ensures Erase(RenderAll(ts) + (Commented(body, text) + rest), Code, alpha)
            == Expected(ts) + (CommentErased(body, text) + Erase(rest, Code, alpha))
            <==> !StartsName(body, alpha)
  {
    var source := Commented(body, text) + rest;
    var wanted := CommentErased(body, text) + Erase(rest, Code, alpha);
    ErasesPrefix(ts, source, alpha);
    SamePrefix(Expected(ts), Erase(source, Code, alpha), wanted);
    if StartsName(body, alpha) {
      assert body == [body[0]];
      LetterOpensLiteral(body[0], text, rest, alpha);
      BlankSlashes(text);
      assert wanted[3] == BlankAll("//" + text)[0];
    } else {
      LiteralThenComment(body, text, rest, alpha);
    }
  }

  lemma SamePrefix(a: string, b: string, c: string)
    ensures a + b == a + c <==> b == c
  {
    assert (a + b)[|a|..] == b && (a + c)[|a|..] == c;
  }

  lemma BlankSlashes(text: string)
    ensures BlankAll("//" + text) != "" && BlankAll("//" + text)[0] == ' '
  {
  }

  lemma LiteralThenComment(body: string, text: string, rest: string, alpha: char -> bool)
    requires AsciiAlpha(alpha) && CleanBody(body, '\'') && !StartsName(body, alpha)
    requires '\n' !in text && (rest == "" || rest[0] == '\n')
    ensures Erase(Commented(body, text) + rest, Code, alpha) == CommentErased(body, text) + Erase(rest, Code, alpha)
  {
    var comment := "//" + text;
    EraseString(body, '\'', comment + rest, alpha);
    EraseLineComment(text, rest, alpha);
    Shift("'" + body + "'", comment, rest);
    Shift("'" + body + "'", BlankAll(comment), Erase(rest, Code, alpha));
  }

  lemma LetterOpensLiteral(c: char, text: string, rest: string, alpha: char -> bool)
    requires AsciiAlpha(alpha) && (alpha(c) || c == '_')
    ensures var out := Erase(Commented([c], text) + rest, Code, alpha);
            |out| > 3 && out[3] == '/'
  {
    var tail := "//" + text + rest;
    assert Commented([c], text) + rest == ['\''] + ([c] + (['\''] + tail));
    ErasePlain('\'', [c] + (['\''] + tail), alpha);
    PlainThenQuote(c, tail, alpha);
    SlashStays(tail, alpha);
  }

  lemma SlashStays(tail: string, alpha: char -> bool)
    requires tail != "" && tail[0] == '/'
    ensures var out := Erase(tail, InChar(false), alpha); out != "" && out[0] == '/'
  {
  }

  lemma PlainThenQuote(c: char, rest: string, alpha: char -> bool)
    requires AsciiAlpha(alpha) && (alpha(c) || c == '_') && Starts(rest, '/', '/')
    ensures Erase([c] + (['\''] + rest), Code, alpha) == [c] + (['\''] + Erase(rest, InChar(false), alpha))
  {
    var tail := ['\''] + rest;
    assert c != '"' && c != '/' && c != '\'';
    ErasePlain(c, tail, alpha);
    assert tail[1..] == rest && !alpha('/');
  }

  // ---- The scanner itself ----

  function ModeOf(depth: nat, inString: bool, inChar: bool, escaped: bool): Mode {
    if depth > 0 then BlockComment(depth)
    else if inString then InString(escaped)
    else if inChar then InChar(escaped)
    else Code
  }

  lemma Suffix(source: string, index: nat)
    requires index < |source|
    ensures source[index..][0] == source[index] && source[index..][1..] == source[index + 1..]
    ensures index + 1 < |source| ==>
              source[index..][1] == source[index + 1] && source[index..][2..] == source[index + 2..]
  {
  }

  /** The inner loop over a line comment. */
  method SkipLine(source: string, start: nat, before: string, alpha: char -> bool) returns (output: string, index: nat)
    requires start + 1 < |source| && source[start] == '/' && source[start + 1] == '/'
    ensures start < index <= |source|
    ensures output + Erase(source[index..], Code, alpha) == before + Erase(source[start..], Code, alpha)
  {
    output, index := before, start;
    while index < |source| && source[index] != '\n'
      invariant start <= index <= |source|
      invariant index < start + 2 ==> output == before + seq(index - start, _ => ' ')
      invariant index >= start + 2 ==>
        output + Erase(source[index..], LineComment, alpha) == before + Erase(source[start..], Code, alpha)
    {
      output, index := output + " ", index + 1;
    }
  }

  /** One character inside a block comment. */
  method InBlock(source: string, start: nat, level: nat, before: string, alpha: char -> bool)
    returns (output: string, index: nat, depth: nat)
    requires start < |source| && level > 0
    ensures start < index <= |source|
    ensures output + Erase(source[index..], ModeOf(depth, false, false, false), alpha)
            == before + Erase(source[start..], BlockComment(level), alpha)
  {
    Suffix(source, start);
    var hasNext := start + 1 < |source|;
    if source[start] == '/' && hasNext && source[start + 1] == '*' {
      depth, output, index := level + 1, before + "  ", start + 2;
    } else if source[start] == '*' && hasNext && source[start + 1] == '/' {
      depth, output, index := level - 1, before + "  ", start + 2;
    } else {
      depth, output, index := level, before + [if source[start] == '\n' then '\n' else ' '], start + 1;
    }
    ghost var step := if index == start + 2 then "  " else [Blank(source[start])];
    ghost var rest := Erase(source[index..], ModeOf(depth, false, false, false), alpha);
    assert Erase(source[start..], BlockComment(level), alpha) == step + rest;
    assert output == before + step;
  }

  /** One character inside a literal. */
  method InQuotes(source: string, start: nat, isString: bool, wasEscaped: bool, before: string, alpha: char -> bool)
    returns (output: string, index: nat, inString: bool, inChar: bool, escaped: bool)
    requires start < |source|
    ensures index == start + 1 && !(inString && inChar) && (escaped ==> inString || inChar)
    ensures output + Erase(source[index..], ModeOf(0, inString, inChar, escaped), alpha)
            == before + Erase(source[start..], ModeOf(0, isString, !isString, wasEscaped), alpha)
  {
    Suffix(source, start);
    var char' := source[start];
    output, index, inString, inChar, escaped := before + [char'], start + 1, isString, !isString, wasEscaped;
    if escaped {
      escaped := false;
    } else if char' == '\\' {
      escaped := true;
    } else if (inString && char' == '"') || (inChar && char' == '\'') {
      inString, inChar := false, false;
    }
    ghost var rest := Erase(source[index..], ModeOf(0, inString, inChar, escaped), alpha);
    assert Erase(source[start..], ModeOf(0, isString, !isString, wasEscaped), alpha) == [char'] + rest;
  }

  /** One step through plain code. */
  method InCode(source: string, start: nat, before: string, alpha: char -> bool)
    returns (output: string, index: nat, depth: nat, inString: bool, inChar: bool)
    requires start < |source|
    ensures start < index <= |source| && !(inString && inChar) && (depth > 0 ==> !inString && !inChar)
    ensures output + Erase(source[index..], ModeOf(depth, inString, inChar, false), alpha)
            == before + Erase(source[start..], Code, alpha)
  {
    Suffix(source, start);
    var char' := source[start];
    var hasNext := start + 1 < |source|;
    depth, inString, inChar := 0, false, false;
    if char' == '/' && hasNext && source[start + 1] == '/' {
      output, index := SkipLine(source, start, before, alpha);
      return;
    }
    if char' == '/' && hasNext && source[start + 1] == '*' {
      depth, output, index := 1, before + "  ", start + 2;
    } else {
      if char' == '"' {
        inString := true;
      } else if char' == '\'' && !(hasNext && (alpha(source[start + 1]) || source[start + 1] == '_')) {
        inChar := true;
      }
      output, index := before + [char'], start + 1;
    }
    ghost var step := if index == start + 2 then "  " else [char'];
    ghost var rest := Erase(source[index..], ModeOf(depth, inString, inChar, false), alpha);
    assert Erase(source[start..], Code, alpha) == step + rest;
    assert output == before + step;
  }

  /** `_remove_rust_comments`. */
  method RemoveRustComments(source: string, alpha: char -> bool) returns (output: string)
    ensures output == Erase(source, Code, alpha)
  {
    output := [];
    var index, depth := 0, 0;
    var inString, inChar, escaped := false, false, false;
    assert source[0..] == source;
    while index < |source|
      invariant 0 <= index <= |source| && depth >= 0
      invariant !(inString && inChar) && (depth > 0 ==> !inString && !inChar) && (escaped ==> inString || inChar)
      invariant output + Erase(source[index..], ModeOf(depth, inString, inChar, escaped), alpha)
                == Erase(source, Code, alpha)
    {
      if depth > 0 {
        output, index, depth := InBlock(source, index, depth, output, alpha);
      } else if inString || inChar {
        output, index, inString, inChar, escaped := InQuotes(source, index, inString, escaped, output, alpha);
      } else {
        output, index, depth, inString, inChar := InCode(source, index, output, alpha);
      }
    }
  }
}
