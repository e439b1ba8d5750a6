/** The hand-written lexer: a cursor over the source text that yields one token per call. */
module Lexer {
  import opened JavaStrings

  datatype TokenType = ROLES | ENC | DEC | ARROW | COLON | COMMA | EQUAL | LPAREN | RPAREN | EOF | IDENTIFIER

  datatype Token = Token(kind: TokenType, lexeme: string, line: nat)

  function TypeName(t: TokenType): string {
    match t
    case ROLES => "ROLES"
    case ENC => "ENC"
    case DEC => "DEC"
    case ARROW => "ARROW"
    case COLON => "COLON"
    case COMMA => "COMMA"
    case EQUAL => "EQUAL"
    case LPAREN => "LPAREN"
    case RPAREN => "RPAREN"
    case EOF => "EOF"
    case IDENTIFIER => "IDENTIFIER"
  }

  /** `%-Ns`: left-aligned, blank-padded to at least `width` characters. */
  function PadRight(s: string, width: nat): (r: string)
    ensures |r| == if |s| < width then width else |s|
    ensures r[..|s|] == s && forall i :: |s| <= i < |r| ==> r[i] == ' '
    decreases width - |s|
  {
    if |s| < width then PadRight(s + " ", width) else s
  }

  /** `Token.toString()`: the type padded to ten columns, the quoted lexeme and the line. */
  function TokenText(t: Token): string {
    PadRight(TypeName(t.kind), 10) + " '" + t.lexeme + "' (line " + NatToString(t.line) + ")"
  }

  /** `Character.isLetter` restricted to ASCII. */
  predicate IsLetter(c: char) {
    'A' <= c <= 'Z' || 'a' <= c <= 'z'
  }

  /** A character that continues an identifier: `isLetterOrDigit(c) || c == '_'`. */
  predicate IsIdentPart(c: char) {
    IsLetter(c) || IsDigit(c) || c == '_'
  }

  /** A character `skipWhitespace` consumes. */
  predicate IsSkipped(c: char) {
    c == ' ' || c == '\r' || c == '\t' || c == '\n'
  }

  /** The keyword table of `identifier`. */
  function Keyword(text: string): TokenType {
    if text == "roles" then ROLES else if text == "Enc" then ENC else if text == "Dec" then DEC else IDENTIFIER
  }

  function Newlines(s: string): nat
    decreases |s|
  {
    if |s| == 0 then 0 else (if s[0] == '\n' then 1 else 0) + Newlines(s[1..])
  }

  lemma {:induction false} NewlinesAppend(a: string, b: string)
    ensures Newlines(a + b) == Newlines(a) + Newlines(b)
    decreases |a|
  {
    if |a| == 0 {
      assert a + b == b;
    } else {
      assert (a + b)[1..] == a[1..] + b;
      NewlinesAppend(a[1..], b);
    }
  }

  /** The text with every skipped character removed. */
  function Strip(s: string): string
    decreases |s|
  {
    if |s| == 0 then "" else (if IsSkipped(s[0]) then "" else [s[0]]) + Strip(s[1..])
  }

  lemma {:induction false} StripAppend(a: string, b: string)
    ensures Strip(a + b) == Strip(a) + Strip(b)
    decreases |a|
  {
    if |a| == 0 {
      assert a + b == b;
    } else {
      assert (a + b)[1..] == a[1..] + b;
      StripAppend(a[1..], b);
    }
  }

  lemma {:induction false} StripAllSkipped(s: string)
    requires forall i :: 0 <= i < |s| ==> IsSkipped(s[i])
    ensures Strip(s) == ""
    decreases |s|
  {
    if |s| > 0 {
      StripAllSkipped(s[1..]);
    }
  }

  lemma {:induction false} StripNoneSkipped(s: string)
    requires forall i :: 0 <= i < |s| ==> !IsSkipped(s[i])
    ensures Strip(s) == s
    decreases |s|
  {
    if |s| > 0 {
      StripNoneSkipped(s[1..]);
      assert [s[0]] + s[1..] == s;
    }
  }

  /** `skipWhitespace` from `pos`: the first position not holding a skipped character,
      and the line counter advanced by the line breaks passed over. */
  function SkipBlank(src: string, pos: nat, line: nat): (r: (nat, nat))
    requires pos <= |src|
    ensures pos <= r.0 <= |src|
    ensures r.0 == |src| || !IsSkipped(src[r.0])
    ensures forall i :: pos <= i < r.0 ==> IsSkipped(src[i])
    ensures r.1 == line + Newlines(src[pos..r.0])
    decreases |src| - pos
  {
    if pos < |src| && (src[pos] == ' ' || src[pos] == '\r' || src[pos] == '\t') then
      var r := SkipBlank(src, pos + 1, line);
      assert src[pos..r.0][1..] == src[pos + 1..r.0];
      r
    else if pos < |src| && src[pos] == '\n' then
      var r := SkipBlank(src, pos + 1, line + 1);
      assert src[pos..r.0][1..] == src[pos + 1..r.0];
      r
    else
      (pos, line)
  }

  /** The end of the run of identifier characters starting at `pos`. */
  function IdentEnd(src: string, pos: nat): (e: nat)
    requires pos <= |src|
    ensures pos <= e <= |src|
    ensures forall i :: pos <= i < e ==> IsIdentPart(src[i])
    ensures e == |src| || !IsIdentPart(src[e])
    decreases |src| - pos
  {
    if pos < |src| && IsIdentPart(src[pos]) then IdentEnd(src, pos + 1) else pos
  }

  /** Lexer state after one `nextToken()` call, with the token it returned. */
  datatype Scan = Scan(token: Token, pos: nat, line: nat)

  /** `nextToken()` from cursor `pos` on line `line`. */
  function Next(src: string, pos: nat, line: nat): (s: Scan)
    requires pos <= |src|
    ensures pos <= s.pos <= |src| && s.token.line == s.line
    ensures s.token.kind == EOF <==> forall i :: pos <= i < |src| ==> IsSkipped(src[i])
    ensures s.token.kind == EOF ==> s.pos == |src| && s.token.lexeme == ""
    ensures s.token.kind != EOF ==> pos < s.pos
  {
    var (p, ln) := SkipBlank(src, pos, line);
    if p == |src| then Scan(Token(EOF, "", ln), p, ln)
    else
      var c := src[p];
      if c == ':' then Scan(Token(COLON, ":", ln), p + 1, ln)
      else if c == ',' then Scan(Token(COMMA, ",", ln), p + 1, ln)
      else if c == '=' then Scan(Token(EQUAL, "=", ln), p + 1, ln)
      else if c == '(' then Scan(Token(LPAREN, "(", ln), p + 1, ln)
      else if c == ')' then Scan(Token(RPAREN, ")", ln), p + 1, ln)
      else if c == '-' && p + 1 < |src| && src[p + 1] == '>' then Scan(Token(ARROW, "->", ln), p + 2, ln)
      else if IsLetter(c) then
        var e := IdentEnd(src, p + 1);
        Scan(Token(Keyword(src[p..e]), src[p..e], ln), e, ln)
      else Scan(Token(IDENTIFIER, [c], ln), p + 1, ln)
  }

  /** Every token a non-empty, blank-free slice of the source that directly follows the skipped
      blanks; the line it reports counts the line breaks skipped before it. */
  lemma {:induction false} TokenIsSlice(src: string, pos: nat, line: nat)
    requires pos <= |src|
    ensures var s := Next(src, pos, line);
      s.token.kind != EOF ==>
        var start := s.pos - |s.token.lexeme|;
        pos <= start < s.pos
        && s.token.lexeme == src[start..s.pos]
        && (forall i :: pos <= i < start ==> IsSkipped(src[i]))
        && (forall i :: start <= i < s.pos ==> !IsSkipped(src[i]))
        && s.line == line + Newlines(src[pos..start])
    ensures var s := Next(src, pos, line);
      s.token.kind == EOF ==> s.line == line + Newlines(src[pos..])
  {
    var (p, ln) := SkipBlank(src, pos, line);
    if p == |src| {
      assert src[pos..p] == src[pos..];
    } else if IsLetter(src[p]) {
      IdentSlice(src, pos, line);
    } else if src[p] == '-' && p + 1 < |src| && src[p + 1] == '>' {
      ArrowSlice(src, pos, line);
    } else {
      CharSlice(src, pos, line);
    }
  }

  /** The token `s` read from `pos` on line `line` is the blank-free slice that ends at `s.pos`
      and starts where the skipped blanks end; its line counts the line breaks skipped. */
  predicate Sliced(src: string, pos: nat, line: nat, s: Scan) {
    var start := s.pos - |s.token.lexeme|;
    pos <= start < s.pos <= |src|
    && s.token.lexeme == src[start..s.pos]
    && (forall i :: pos <= i < start ==> IsSkipped(src[i]))
    && (forall i :: start <= i < s.pos ==> !IsSkipped(src[i]))
    && s.line == line + Newlines(src[pos..start])
  }

  lemma {:induction false} IdentSlice(src: string, pos: nat, line: nat)
    requires pos <= |src|
    requires SkipBlank(src, pos, line).0 < |src| && IsLetter(src[SkipBlank(src, pos, line).0])
    ensures Next(src, pos, line).token.kind != EOF && Sliced(src, pos, line, Next(src, pos, line))
  {
    var (p, ln) := SkipBlank(src, pos, line);
    var e := IdentEnd(src, p + 1);
    assert Next(src, pos, line) == Scan(Token(Keyword(src[p..e]), src[p..e], ln), e, ln);
    SliceToken(src, pos, line, Next(src, pos, line));
  }

  lemma {:induction false} ArrowSlice(src: string, pos: nat, line: nat)
    requires pos <= |src|
    requires var p := SkipBlank(src, pos, line).0; p + 1 < |src| && src[p] == '-' && src[p + 1] == '>'
    ensures Next(src, pos, line).token.kind != EOF && Sliced(src, pos, line, Next(src, pos, line))
  {
    var (p, ln) := SkipBlank(src, pos, line);
    assert Next(src, pos, line) == Scan(Token(ARROW, "->", ln), p + 2, ln);
    assert "->" == src[p..p + 2];
    SliceToken(src, pos, line, Next(src, pos, line));
  }

  lemma {:induction false} CharSlice(src: string, pos: nat, line: nat)
    requires pos <= |src|
    requires var p := SkipBlank(src, pos, line).0;
      p < |src| && !IsLetter(src[p]) && !(src[p] == '-' && p + 1 < |src| && src[p + 1] == '>')
    ensures Next(src, pos, line).token.kind != EOF && Sliced(src, pos, line, Next(src, pos, line))
  {
    var (p, ln) := SkipBlank(src, pos, line);
    var s := Next(src, pos, line);
    assert s.pos == p + 1 && s.line == ln && s.token.kind != EOF;
    assert s.token.lexeme == [src[p]] == src[p..p + 1];
    SliceToken(src, pos, line, s);
  }

  /** A token read from the blank-free slice that starts where the skipped blanks end. */
  lemma {:induction false} SliceToken(src: string, pos: nat, line: nat, s: Scan)
    requires pos <= |src|
    requires SkipBlank(src, pos, line).0 < s.pos <= |src| && s.line == SkipBlank(src, pos, line).1
    requires s.token.lexeme == src[SkipBlank(src, pos, line).0..s.pos]
    requires forall i :: SkipBlank(src, pos, line).0 <= i < s.pos ==> !IsSkipped(src[i])
    ensures Sliced(src, pos, line, s)
  {
    assert s.pos - |s.token.lexeme| == SkipBlank(src, pos, line).0;
  }

  /** Punctuation: each of `: , = ( )` is a one-character token; `->` is an arrow and a `-`
      not followed by `>` is a one-character identifier. */
  lemma {:induction false} Punctuation(src: string, pos: nat, line: nat)
    requires pos <= |src|
    ensures var (p, _) := SkipBlank(src, pos, line);
      var t := Next(src, pos, line).token;
      p < |src| ==>
        (src[p] == ':' <==> t.kind == COLON)
        && (src[p] == ',' <==> t.kind == COMMA)
        && (src[p] == '=' <==> t.kind == EQUAL)
        && (src[p] == '(' <==> t.kind == LPAREN)
        && (src[p] == ')' <==> t.kind == RPAREN)
        && ("->" <= src[p..] <==> t.kind == ARROW)
  {
  }

  /** An identifier starts with a letter and takes every following letter, digit and
      underscore (maximal munch); the words `roles`, `Enc` and `Dec` become keywords. */
  lemma {:induction false} IdentifierToken(src: string, pos: nat, line: nat)
    requires pos <= |src|
    ensures var (p, _) := SkipBlank(src, pos, line);
      var s := Next(src, pos, line);
      p < |src| && IsLetter(src[p]) ==>
        s.token.lexeme == src[p..s.pos]
        && (forall i :: p < i < s.pos ==> IsIdentPart(src[i]))
        && (s.pos == |src| || !IsIdentPart(src[s.pos]))
        && (s.token.kind == ROLES <==> s.token.lexeme == "roles")
        && (s.token.kind == ENC <==> s.token.lexeme == "Enc")
        && (s.token.kind == DEC <==> s.token.lexeme == "Dec")
        && (s.token.kind == IDENTIFIER <==> s.token.lexeme !in {"roles", "Enc", "Dec"})
  {
  }

  /** Any other character is never an error: it becomes a one-character identifier. */
  lemma {:induction false} UnknownCharacter(src: string, pos: nat, line: nat)
    requires pos <= |src|
    ensures var (p, ln) := SkipBlank(src, pos, line);
      p < |src| && !IsLetter(src[p]) && src[p] !in ":,=()" && !("->" <= src[p..]) ==>
        Next(src, pos, line) == Scan(Token(IDENTIFIER, [src[p]], ln), p + 1, ln)
  {
  }

  /** The token stream the parser buffers: `nextToken()` until and including EOF. */
  function Tokenize(src: string, pos: nat, line: nat): (ts: seq<Token>)
    requires pos <= |src|
    ensures |ts| > 0 && ts[|ts| - 1].kind == EOF
    ensures forall i :: 0 <= i < |ts| - 1 ==> ts[i].kind != EOF
    decreases |src| - pos
  {
    var s := Next(src, pos, line);
    if s.token.kind == EOF then [s.token] else [s.token] + Tokenize(src, s.pos, s.line)
  }

  function Lexemes(ts: seq<Token>): seq<string>
    decreases |ts|
  {
    if |ts| == 0 then [] else [ts[0].lexeme] + Lexemes(ts[1..])
  }

  lemma {:induction false} NoBreakNoNewline(s: string)
    requires forall i :: 0 <= i < |s| ==> !IsSkipped(s[i])
    ensures Newlines(s) == 0
    decreases |s|
  {
    if |s| > 0 {
      NoBreakNoNewline(s[1..]);
    }
  }

  /** Where a non-EOF token's lexeme starts (the position `skipWhitespace` stopped at). */
  lemma {:induction false} TokenStart(src: string, pos: nat, line: nat) returns (start: nat)
    requires pos <= |src| && Next(src, pos, line).token.kind != EOF
    ensures var s := Next(src, pos, line);
      pos <= start < s.pos && s.token.lexeme == src[start..s.pos]
      && (forall i :: pos <= i < start ==> IsSkipped(src[i]))
      && (forall i :: start <= i < s.pos ==> !IsSkipped(src[i]))
      && s.line == line + Newlines(src[pos..start])
  {
    TokenIsSlice(src, pos, line);
    var s := Next(src, pos, line);
    start := s.pos - |s.token.lexeme|;
  }

  lemma {:induction false} TokenizeStep(src: string, pos: nat, line: nat)
    requires pos <= |src|
    ensures var s := Next(src, pos, line);
      Tokenize(src, pos, line) == if s.token.kind == EOF then [s.token] else [s.token] + Tokenize(src, s.pos, s.line)
  {
  }

  lemma {:induction false} StripAroundToken(src: string, pos: nat, start: nat, end: nat)
    requires pos <= start <= end <= |src|
    requires forall i :: pos <= i < start ==> IsSkipped(src[i])
    requires forall i :: start <= i < end ==> !IsSkipped(src[i])
    ensures Strip(src[pos..]) == src[start..end] + Strip(src[end..])
  {
    assert src[pos..] == src[pos..start] + src[start..end] + src[end..];
    StripAppend(src[pos..start] + src[start..end], src[end..]);
    StripAppend(src[pos..start], src[start..end]);
    StripAllSkipped(src[pos..start]);
    StripNoneSkipped(src[start..end]);
  }

  lemma {:induction false} NewlinesAroundToken(src: string, pos: nat, start: nat, end: nat)
    requires pos <= start <= end <= |src|
    requires forall i :: start <= i < end ==> !IsSkipped(src[i])
    ensures Newlines(src[pos..]) == Newlines(src[pos..start]) + Newlines(src[end..])
  {
    assert src[pos..] == src[pos..start] + src[start..end] + src[end..];
    NewlinesAppend(src[pos..start] + src[start..end], src[end..]);
    NewlinesAppend(src[pos..start], src[start..end]);
    NoBreakNoNewline(src[start..end]);
  }

  /** Lexing loses nothing but blanks: the lexemes, in order, spell the source with every
      blank, tab, carriage return and line break removed. */
  lemma {:induction false} LexemesSpellSource(src: string, pos: nat, line: nat)
    requires pos <= |src|
    ensures ConcatAll(Lexemes(Tokenize(src, pos, line))) == Strip(src[pos..])
    decreases |src| - pos
  {
    var s := Next(src, pos, line);
    TokenizeStep(src, pos, line);
    if s.token.kind == EOF {
      StripAllSkipped(src[pos..]);
      assert Lexemes([s.token]) == [""];
    } else {
      var start := TokenStart(src, pos, line);
      var rest := Tokenize(src, s.pos, s.line);
      LexemesSpellSource(src, s.pos, s.line);
      assert ([s.token] + rest)[1..] == rest;
      StripAroundToken(src, pos, start, s.pos);
    }
  }

  /** Token lines never decrease, start at the initial line, and the final EOF token reports
      the initial line plus every line break in the rest of the source. */
  lemma {:induction false} TokenLines(src: string, pos: nat, line: nat)
    requires pos <= |src|
    ensures var ts := Tokenize(src, pos, line);
      (forall i, j :: 0 <= i <= j < |ts| ==> line <= ts[i].line <= ts[j].line)
      && ts[|ts| - 1].line == line + Newlines(src[pos..])
  {
    LinesMonotone(src, pos, line);
    LastLine(src, pos, line);
  }

  lemma {:induction false} LinesMonotone(src: string, pos: nat, line: nat)
    requires pos <= |src|
    ensures var ts := Tokenize(src, pos, line);
      forall i, j :: 0 <= i <= j < |ts| ==> line <= ts[i].line <= ts[j].line
    decreases |src| - pos
  {
    var s := Next(src, pos, line);
    TokenizeStep(src, pos, line);
    var _ := NextLines(src, pos, line);
    if s.token.kind != EOF {
      LinesMonotone(src, s.pos, s.line);
      ConsMonotone(line, s.token, Tokenize(src, s.pos, s.line));
    }
  }

  /** A token no earlier than `line` in front of tokens no earlier than its own line keeps
      the lines ordered. */
  lemma {:induction false} ConsMonotone(line: nat, t: Token, rest: seq<Token>)
    requires line <= t.line
    requires forall i, j :: 0 <= i <= j < |rest| ==> t.line <= rest[i].line <= rest[j].line
    ensures var ts := [t] + rest;
      forall i, j :: 0 <= i <= j < |ts| ==> line <= ts[i].line <= ts[j].line
  {
    var ts := [t] + rest;
    forall i, j | 0 <= i <= j < |ts|
      ensures line <= ts[i].line <= ts[j].line
    {
      assert ts[j] == if j == 0 then t else rest[j - 1];
      assert ts[i] == if i == 0 then t else rest[i - 1];
    }
  }

  lemma {:induction false} LastLine(src: string, pos: nat, line: nat)
    requires pos <= |src|
    ensures var ts := Tokenize(src, pos, line);
      ts[|ts| - 1].line == line + Newlines(src[pos..])
    decreases |src| - pos
  {
    var s := Next(src, pos, line);
    TokenizeStep(src, pos, line);
    var start := NextLines(src, pos, line);
    if s.token.kind != EOF {
      LastLine(src, s.pos, s.line);
      var rest := Tokenize(src, s.pos, s.line);
      NewlinesAroundToken(src, pos, start, s.pos);
      assert ([s.token] + rest)[|rest|] == rest[|rest| - 1];
    }
  }

  /** The line counter after one token: never smaller, and grown by the line breaks
      skipped before the token (before the end, at EOF). */
  lemma {:induction false} NextLines(src: string, pos: nat, line: nat) returns (start: nat)
    requires pos <= |src|
    ensures var s := Next(src, pos, line);
      line <= s.line
      && (s.token.kind != EOF ==>
        pos <= start <= s.pos && s.line == line + Newlines(src[pos..start])
        && forall i :: start <= i < s.pos ==> !IsSkipped(src[i]))
      && (s.token.kind == EOF ==> s.line == line + Newlines(src[pos..]))
  {
    TokenIsSlice(src, pos, line);
    var s := Next(src, pos, line);
    start := s.pos - |s.token.lexeme|;
  }

  /** `Lexer`: the source, a cursor and a line counter that each call advances. */
  class Lexer {
    const src: string
    var pos: nat
    var line: nat

    ghost predicate Valid()
      reads this
    {
      pos <= |src|
    }

    constructor(source: string)
      ensures Valid() && src == source && pos == 0 && line == 1
    {
      src := source;
      pos := 0;
      line := 1;
    }

    /** `nextToken()` */
    method NextToken() returns (t: Token)
      requires Valid()
      modifies this
      ensures Valid() && Scan(t, pos, line) == Next(src, old(pos), old(line))
    {
      SkipWhitespace();
      if IsAtEnd() {
        return Token(EOF, "", line);
      }
      var c := Advance();
      if c == ':' {
        return Token(COLON, ":", line);
      } else if c == ',' {
        return Token(COMMA, ",", line);
      } else if c == '=' {
        return Token(EQUAL, "=", line);
      } else if c == '(' {
        return Token(LPAREN, "(", line);
      } else if c == ')' {
        return Token(RPAREN, ")", line);
      } else if c == '-' {
        var arrow := Match('>');
        if arrow {
          return Token(ARROW, "->", line);
        }
      }
      if IsLetter(c) {
        t := Identifier(c);
        return;
      }
      t := Token(IDENTIFIER, [c], line);
    }

    /** `identifier(first)`: `first` was just consumed; take the rest of the word. */
    method Identifier(first: char) returns (t: Token)
      requires Valid() && 0 < pos && src[pos - 1] == first
      modifies this
      ensures Valid() && line == old(line) && pos == IdentEnd(src, old(pos))
      ensures t == Token(Keyword(src[old(pos) - 1..pos]), src[old(pos) - 1..pos], line)
    {
      var text := [first];
      while !IsAtEnd() && (IsLetter(Peek()) || IsDigit(Peek()) || Peek() == '_')
        invariant Valid() && old(pos) <= pos && line == old(line)
        invariant IdentEnd(src, pos) == IdentEnd(src, old(pos))
        invariant text == src[old(pos) - 1..pos]
        decreases |src| - pos
      {
        assert IsIdentPart(src[pos]) && IdentEnd(src, pos) == IdentEnd(src, pos + 1);
        assert src[old(pos) - 1..pos + 1] == src[old(pos) - 1..pos] + [src[pos]];
        var c := Advance();
        text := text + [c];
      }
      assert IdentEnd(src, pos) == pos;
      if text == "roles" {
        t := Token(ROLES, text, line);
      } else if text == "Enc" {
        t := Token(ENC, text, line);
      } else if text == "Dec" {
        t := Token(DEC, text, line);
      } else {
        t := Token(IDENTIFIER, text, line);
      }
    }

    /** `skipWhitespace()` */
    method SkipWhitespace()
      requires Valid()
      modifies this
      ensures Valid() && (pos, line) == SkipBlank(src, old(pos), old(line))
    {
      while !IsAtEnd()
        invariant Valid()
        invariant SkipBlank(src, pos, line) == SkipBlank(src, old(pos), old(line))
        decreases |src| - pos
      {
        var c := Peek();
        if c == ' ' || c == '\r' || c == '\t' {
          assert SkipBlank(src, pos, line) == SkipBlank(src, pos + 1, line);
          var _ := Advance();
        } else if c == '\n' {
          assert SkipBlank(src, pos, line) == SkipBlank(src, pos + 1, line + 1);
          line := line + 1;
          var _ := Advance();
        } else {
          assert SkipBlank(src, pos, line) == (pos, line);
          return;
        }
      }
      assert SkipBlank(src, pos, line) == (pos, line);
    }

    predicate IsAtEnd()
      reads this
    {
      pos >= |src|
    }

    /** `peek()`: the current character, NUL at the end. */
    function Peek(): (c: char)
      reads this
      ensures pos < |src| ==> c == src[pos]
      ensures pos >= |src| ==> c == '\0'
    {
      if pos >= |src| then '\0' else src[pos]
    }

    /** `advance()` */
    method Advance() returns (c: char)
      requires pos < |src|
      modifies this
      ensures c == src[old(pos)] && pos == old(pos) + 1 && line == old(line)
    {
      c := src[pos];
      pos := pos + 1;
    }

    /** `match(expected)`: consume the current character only when it is `expected`. */
    method Match(expected: char) returns (matched: bool)
      requires Valid()
      modifies this
      ensures Valid() && line == old(line)
      ensures matched <==> old(pos) < |src| && src[old(pos)] == expected
      ensures pos == if matched then old(pos) + 1 else old(pos)
    {
      if IsAtEnd() {
        return false;
      }
      if src[pos] != expected {
        return false;
      }
      pos := pos + 1;
      return true;
    }
  }
}
