/** The recursive-descent parser: buffers the whole token stream, then walks it with a cursor.
    Grammar: protocol = rolesDecl message* EOF; rolesDecl = "roles" ":" IDENT ("," IDENT)*;
    message = IDENT "->" IDENT ":" stmt; stmt = IDENT "=" encExpr | encExpr;
    encExpr = "Enc" "(" IDENT "," IDENT ")". */
module Parser {
  import opened Wrappers
  import opened JavaStrings
  import opened Lexer
  import opened Ast

  /** `ParseException`: a message and the line of the offending token. */
  datatype ParseError = ParseError(message: string, line: nat)

  predicate EndsWithEof(toks: seq<Token>) {
    |toks| > 0 && toks[|toks| - 1].kind == EOF
  }

  /** What the constructor buffers: tokens up to and including the first EOF. */
  predicate Buffered(toks: seq<Token>) {
    EndsWithEof(toks) && forall i :: 0 <= i < |toks| - 1 ==> toks[i].kind != EOF
  }

  /** `error(token, message)` */
  function ErrorAt(t: Token, message: string): ParseError {
    ParseError(message + " Found: " + TokenText(t), t.line)
  }

  /** A parse error that reports token `toks[j]` for some `j >= i`: its line and its text. */
  predicate ReportsTokenFrom(e: ParseError, toks: seq<Token>, i: nat) {
    exists j :: i <= j < |toks| && e.line == toks[j].line && EndsWith(e.message, " Found: " + TokenText(toks[j]))
  }

  lemma {:induction false} ErrorAtReports(toks: seq<Token>, i: nat, message: string)
    requires i < |toks|
    ensures ReportsTokenFrom(ErrorAt(toks[i], message), toks, i)
  {
    var suffix := " Found: " + TokenText(toks[i]);
    EndsWithAppend(message, suffix);
    assert ErrorAt(toks[i], message) == ParseError(message + suffix, toks[i].line);
  }

  /** `check(type)` at index `i`: never true on EOF. */
  predicate CheckAt(toks: seq<Token>, i: nat, kind: TokenType)
    requires i < |toks|
  {
    toks[i].kind != EOF && toks[i].kind == kind
  }

  /** `checkNext(type)` at index `i`. */
  predicate CheckNextAt(toks: seq<Token>, i: nat, kind: TokenType)
    requires EndsWithEof(toks) && i < |toks|
  {
    toks[i].kind != EOF && toks[i + 1].kind == kind
  }

  /** `consume(type, message)` at index `i`. */
  function ExpectAt(toks: seq<Token>, i: nat, kind: TokenType, message: string): (r: Result<(Token, nat), ParseError>)
    requires EndsWithEof(toks) && i < |toks|
    ensures r.Success? ==> r.value == (toks[i], i + 1) && i + 1 < |toks| && toks[i].kind == kind
    ensures r.Failure? ==> r.error == ErrorAt(toks[i], message) && ReportsTokenFrom(r.error, toks, i)
  {
    if CheckAt(toks, i, kind) then Success((toks[i], i + 1))
    else ErrorAtReports(toks, i, message); Failure(ErrorAt(toks[i], message))
  }

  /** `identifier(message)` at index `i`: the lexeme of an IDENTIFIER token. */
  function NameAt(toks: seq<Token>, i: nat, message: string): (r: Result<(string, nat), ParseError>)
    requires EndsWithEof(toks) && i < |toks|
    ensures r.Success? ==> r.value == (toks[i].lexeme, i + 1) && i + 1 < |toks| && toks[i].kind == IDENTIFIER
    ensures r.Failure? ==> ReportsTokenFrom(r.error, toks, i)
  {
    var (t, j) :- ExpectAt(toks, i, IDENTIFIER, message);
    Success((t.lexeme, j))
  }

  /** The only expression form the grammar has: `Enc(key, message)` over two identifiers. */
  predicate EncShape(n: Node) {
    n.Encrypt? && n.message.Identifier?
  }

  /** A statement: an encryption, or an assignment of one. */
  predicate StmtShape(n: Node) {
    EncShape(n) || (n.Assign? && EncShape(n.value))
  }

  predicate ParsedMessage(n: Node) {
    n.MessageSend? && StmtShape(n.body)
  }

  /** `encExpr()` at index `i`. */
  function EncAt(toks: seq<Token>, i: nat): (r: Result<(Node, nat), ParseError>)
    requires EndsWithEof(toks) && i < |toks|
    ensures r.Success? ==> EncShape(r.value.0) && i < r.value.1 < |toks|
    ensures r.Failure? ==> ReportsTokenFrom(r.error, toks, i)
  {
    var (_, i1) :- ExpectAt(toks, i, ENC, "Expected 'Enc' for encryption expression.");
    var (_, i2) :- ExpectAt(toks, i1, LPAREN, "Expected '(' after 'Enc'.");
    var (key, i3) :- NameAt(toks, i2, "Expected key identifier.");
    var (_, i4) :- ExpectAt(toks, i3, COMMA, "Expected ',' between key and message.");
    var (msg, i5) :- NameAt(toks, i4, "Expected message identifier.");
    var (_, i6) :- ExpectAt(toks, i5, RPAREN, "Expected ')' after Enc(...).");
    Success((Encrypt(key, Identifier(msg)), i6))
  }

  /** `stmt()` at index `i`: an assignment exactly when an identifier is followed by `=`. */
  function StmtAt(toks: seq<Token>, i: nat): (r: Result<(Node, nat), ParseError>)
    requires EndsWithEof(toks) && i < |toks|
    ensures r.Success? ==> StmtShape(r.value.0) && i < r.value.1 < |toks|
    ensures r.Success? ==> (r.value.0.Assign? <==> CheckAt(toks, i, IDENTIFIER) && CheckNextAt(toks, i, EQUAL))
    ensures r.Failure? ==> ReportsTokenFrom(r.error, toks, i)
  {
    if CheckAt(toks, i, IDENTIFIER) && CheckNextAt(toks, i, EQUAL) then
      var (target, i1) := NameAt(toks, i, "Expected variable name.").value;
      var (_, i2) := ExpectAt(toks, i1, EQUAL, "Expected '=' after variable.").value;
      var (value, i3) :- EncAt(toks, i2);
      Success((Assign(target, value), i3))
    else
      EncAt(toks, i)
  }

  /** `message()` at index `i`. */
  function MessageAt(toks: seq<Token>, i: nat): (r: Result<(Message, nat), ParseError>)
    requires EndsWithEof(toks) && i < |toks|
    ensures r.Success? ==> ParsedMessage(r.value.0) && i < r.value.1 < |toks|
    ensures r.Failure? ==> ReportsTokenFrom(r.error, toks, i)
  {
    var (sender, i1) :- NameAt(toks, i, "Expected sender identifier.");
    var (_, i2) :- ExpectAt(toks, i1, ARROW, "Expected '->' after sender.");
    var (receiver, i3) :- NameAt(toks, i2, "Expected receiver identifier.");
    var (_, i4) :- ExpectAt(toks, i3, COLON, "Expected ':' after receiver.");
    var (body, i5) :- StmtAt(toks, i4);
    Success((MessageSend(sender, receiver, body), i5))
  }

  /** The `while (match(COMMA))` loop of `rolesDecl()`, with the roles read so far. */
  function MoreRolesAt(toks: seq<Token>, i: nat, roles: seq<string>): (r: Result<(seq<string>, nat), ParseError>)
    requires EndsWithEof(toks) && i < |toks|
    ensures r.Success? ==> roles <= r.value.0 && i <= r.value.1 < |toks| && !CheckAt(toks, r.value.1, COMMA)
    ensures r.Failure? ==> ReportsTokenFrom(r.error, toks, i)
    decreases |toks| - i
  {
    if CheckAt(toks, i, COMMA) then
      var (name, j) :- NameAt(toks, i + 1, "Expected role name after ','.");
      MoreRolesAt(toks, j, roles + [name])
    else
      Success((roles, i))
  }

  /** `rolesDecl()` at index `i`: at least one role, in declaration order. */
  function RolesAt(toks: seq<Token>, i: nat): (r: Result<(seq<string>, nat), ParseError>)
    requires EndsWithEof(toks) && i < |toks|
    ensures r.Success? ==> |r.value.0| >= 1 && i < r.value.1 < |toks| && !CheckAt(toks, r.value.1, COMMA)
    ensures r.Failure? ==> ReportsTokenFrom(r.error, toks, i)
  {
    var (_, i1) :- ExpectAt(toks, i, ROLES, "Expected 'roles' declaration.");
    var (_, i2) :- ExpectAt(toks, i1, COLON, "Expected ':' after 'roles'.");
    var (first, i3) :- NameAt(toks, i2, "Expected role name.");
    MoreRolesAt(toks, i3, [first])
  }

  /** One turn of the comma loop: `,` and a name extend the list and move past both. */
  lemma {:induction false} MoreRolesStep(toks: seq<Token>, at: nat, roles: seq<string>, name: string)
    requires EndsWithEof(toks) && at + 1 < |toks| && CheckAt(toks, at, COMMA)
    requires NameAt(toks, at + 1, "Expected role name after ','.") == Success((name, at + 2))
    ensures MoreRolesAt(toks, at, roles) == MoreRolesAt(toks, at + 2, roles + [name])
  {
  }

  /** The message loop of `parse()`: messages until the next token is EOF. */
  function MessagesAt(toks: seq<Token>, i: nat, msgs: seq<Node>): (r: Result<(seq<Node>, nat), ParseError>)
    requires EndsWithEof(toks) && i < |toks|
    ensures r.Success? ==> msgs <= r.value.0 && i <= r.value.1 < |toks| && toks[r.value.1].kind == EOF
    ensures r.Success? ==> forall k :: |msgs| <= k < |r.value.0| ==> ParsedMessage(r.value.0[k])
    ensures r.Failure? ==> ReportsTokenFrom(r.error, toks, i)
    decreases |toks| - i
  {
    if toks[i].kind == EOF then Success((msgs, i))
    else
      var (m, j) :- MessageAt(toks, i);
      MessagesAt(toks, j, msgs + [m])
  }

  /** `parse()` from index `i`. */
  function ProtocolAt(toks: seq<Token>, i: nat): (r: Result<(ProtocolTree, nat), ParseError>)
    requires EndsWithEof(toks) && i < |toks|
    ensures r.Failure? ==> ReportsTokenFrom(r.error, toks, i)
  {
    var (roles, i1) :- RolesAt(toks, i);
    var (msgs, i2) :- MessagesAt(toks, i1, []);
    Success((Protocol(roles, msgs), i2))
  }

  /** A fresh parser over the buffered tokens. */
  function ParseTokens(toks: seq<Token>): Result<ProtocolTree, ParseError>
    requires EndsWithEof(toks)
  {
    var (p, _) :- ProtocolAt(toks, 0);
    Success(p)
  }

  /** `new ProtocolParser(new Lexer(src)).parse()` */
  function ParseSource(src: string): Result<ProtocolTree, ParseError> {
    ParseTokens(Tokenize(src, 0, 1))
  }

  /** A successful parse declares at least one role, reads every token up to the final EOF,
      and yields only message sends whose bodies are encryptions or assignments of one;
      a failed parse reports the line and the text of a token of the input. */
  lemma {:induction false} ParseOutcome(toks: seq<Token>)
    requires Buffered(toks)
    ensures var r := ProtocolAt(toks, 0);
      (r.Success? ==>
        |r.value.0.roles| >= 1 && r.value.1 == |toks| - 1
        && forall k :: 0 <= k < |r.value.0.messages| ==> ParsedMessage(r.value.0.messages[k]))
      && (r.Failure? ==> ReportsTokenFrom(r.error, toks, 0))
  {
  }

  /** A token as the lexer would produce it on the first line. */
  function Tok(kind: TokenType, lexeme: string): Token {
    Token(kind, lexeme, 1)
  }

  function EncTokens(n: Node): (ts: seq<Token>)
    requires EncShape(n)
    ensures |ts| == 6
  {
    [Tok(ENC, "Enc"), Tok(LPAREN, "("), Tok(IDENTIFIER, n.key), Tok(COMMA, ","), Tok(IDENTIFIER, n.message.name), Tok(RPAREN, ")")]
  }

  function StmtTokens(n: Node): (ts: seq<Token>)
    requires StmtShape(n)
    ensures |ts| > 0 && ts[0].kind != EOF
  {
    if n.Assign? then [Tok(IDENTIFIER, n.target), Tok(EQUAL, "=")] + EncTokens(n.value) else EncTokens(n)
  }

  function MessageTokens(m: Node): (ts: seq<Token>)
    requires ParsedMessage(m)
    ensures |ts| > 0 && ts[0].kind == IDENTIFIER
  {
    [Tok(IDENTIFIER, m.sender), Tok(ARROW, "->"), Tok(IDENTIFIER, m.receiver), Tok(COLON, ":")] + StmtTokens(m.body)
  }

  function MessagesTokens(ms: seq<Node>): (ts: seq<Token>)
    requires forall k :: 0 <= k < |ms| ==> ParsedMessage(ms[k])
    ensures |ts| > 0 ==> ts[0].kind == IDENTIFIER
  {
    if |ms| == 0 then [] else MessageTokens(ms[0]) + MessagesTokens(ms[1..])
  }

  function RoleListTokens(rs: seq<string>): (ts: seq<Token>)
    ensures |ts| == 2 * |rs|
  {
    if |rs| == 0 then [] else [Tok(COMMA, ","), Tok(IDENTIFIER, rs[0])] + RoleListTokens(rs[1..])
  }

  /** The token stream of a protocol written out in the grammar's concrete syntax. */
  function Unparse(p: ProtocolTree): (toks: seq<Token>)
    requires |p.roles| >= 1 && forall k :: 0 <= k < |p.messages| ==> ParsedMessage(p.messages[k])
    ensures EndsWithEof(toks)
  {
    [Tok(ROLES, "roles"), Tok(COLON, ":"), Tok(IDENTIFIER, p.roles[0])] + RoleListTokens(p.roles[1..])
    + MessagesTokens(p.messages) + [Tok(EOF, "")]
  }

  lemma {:induction false} EncRoundTrip(toks: seq<Token>, i: nat, n: Node)
    requires EndsWithEof(toks) && EncShape(n)
    requires i + 6 < |toks| && toks[i..i + 6] == EncTokens(n)
    ensures EncAt(toks, i) == Success((n, i + 6))
  {
    EncSlices(toks, i, n);
    EncHead(toks, i);
  }

  /** The six tokens of a written-out encryption, in place. */
  lemma {:induction false} EncSlices(toks: seq<Token>, i: nat, n: Node)
    requires EncShape(n) && i + 6 <= |toks| && toks[i..i + 6] == EncTokens(n)
    ensures toks[i].kind == ENC && toks[i + 1].kind == LPAREN && toks[i + 2] == Tok(IDENTIFIER, n.key)
    ensures toks[i + 3].kind == COMMA && toks[i + 4] == Tok(IDENTIFIER, n.message.name) && toks[i + 5].kind == RPAREN
  {
    var ts := EncTokens(n);
    assert toks[i] == ts[0] && toks[i + 1] == ts[1] && toks[i + 2] == ts[2];
    assert toks[i + 3] == ts[3] && toks[i + 4] == ts[4] && toks[i + 5] == ts[5];
  }

  /** `Enc ( key , msg )` tokens parse as the encryption of the message under the key. */
  lemma {:induction false} EncHead(toks: seq<Token>, i: nat)
    requires EndsWithEof(toks) && i + 6 < |toks|
    requires toks[i].kind == ENC && toks[i + 1].kind == LPAREN && toks[i + 2].kind == IDENTIFIER
    requires toks[i + 3].kind == COMMA && toks[i + 4].kind == IDENTIFIER && toks[i + 5].kind == RPAREN
    ensures EncAt(toks, i) == Success((Encrypt(toks[i + 2].lexeme, Identifier(toks[i + 4].lexeme)), i + 6))
  {
    assert ExpectAt(toks, i, ENC, "Expected 'Enc' for encryption expression.") == Success((toks[i], i + 1));
    assert ExpectAt(toks, i + 1, LPAREN, "Expected '(' after 'Enc'.") == Success((toks[i + 1], i + 2));
    assert NameAt(toks, i + 2, "Expected key identifier.") == Success((toks[i + 2].lexeme, i + 3));
    assert ExpectAt(toks, i + 3, COMMA, "Expected ',' between key and message.") == Success((toks[i + 3], i + 4));
    assert NameAt(toks, i + 4, "Expected message identifier.") == Success((toks[i + 4].lexeme, i + 5));
    assert ExpectAt(toks, i + 5, RPAREN, "Expected ')' after Enc(...).") == Success((toks[i + 5], i + 6));
  }

  lemma {:induction false} StmtRoundTrip(toks: seq<Token>, i: nat, n: Node)
    requires EndsWithEof(toks) && StmtShape(n)
    requires i + |StmtTokens(n)| < |toks| && toks[i..i + |StmtTokens(n)|] == StmtTokens(n)
    ensures StmtAt(toks, i) == Success((n, i + |StmtTokens(n)|))
  {
    var ts := StmtTokens(n);
    assert toks[i] == ts[0];
    if n.Assign? {
      assert toks[i + 1] == ts[1];
      assert toks[i + 2..i + 8] == ts[2..] == EncTokens(n.value);
      EncRoundTrip(toks, i + 2, n.value);
    } else {
      EncRoundTrip(toks, i, n);
    }
  }

  lemma {:induction false} MessageRoundTrip(toks: seq<Token>, i: nat, m: Message)
    requires EndsWithEof(toks) && ParsedMessage(m)
    requires i + |MessageTokens(m)| < |toks| && toks[i..i + |MessageTokens(m)|] == MessageTokens(m)
    ensures MessageAt(toks, i) == Success((m, i + |MessageTokens(m)|))
  {
    MessageSlices(toks, i, m);
    StmtRoundTrip(toks, i + 4, m.body);
    MessageHead(toks, i);
  }

  /** The header tokens and the statement tokens of a written-out message, in place. */
  lemma {:induction false} MessageSlices(toks: seq<Token>, i: nat, m: Message)
    requires ParsedMessage(m)
    requires i + |MessageTokens(m)| <= |toks| && toks[i..i + |MessageTokens(m)|] == MessageTokens(m)
    ensures |MessageTokens(m)| == 4 + |StmtTokens(m.body)|
    ensures toks[i] == Tok(IDENTIFIER, m.sender) && toks[i + 1].kind == ARROW
    ensures toks[i + 2] == Tok(IDENTIFIER, m.receiver) && toks[i + 3].kind == COLON
    ensures toks[i + 4..i + |MessageTokens(m)|] == StmtTokens(m.body)
  {
    var ts := MessageTokens(m);
    assert toks[i] == ts[0] && toks[i + 1] == ts[1] && toks[i + 2] == ts[2] && toks[i + 3] == ts[3];
    assert toks[i + 4..i + |ts|] == ts[4..] == StmtTokens(m.body);
  }

  /** Once the four header tokens of a message are in place, `message()` is `stmt()` after them. */
  lemma {:induction false} MessageHead(toks: seq<Token>, i: nat)
    requires EndsWithEof(toks) && i + 4 < |toks|
    requires toks[i].kind == IDENTIFIER && toks[i + 1].kind == ARROW
    requires toks[i + 2].kind == IDENTIFIER && toks[i + 3].kind == COLON
    ensures StmtAt(toks, i + 4).Success? ==>
      MessageAt(toks, i) == Success((MessageSend(toks[i].lexeme, toks[i + 2].lexeme, StmtAt(toks, i + 4).value.0),
                                     StmtAt(toks, i + 4).value.1))
  {
    assert NameAt(toks, i, "Expected sender identifier.") == Success((toks[i].lexeme, i + 1));
    assert ExpectAt(toks, i + 1, ARROW, "Expected '->' after sender.") == Success((toks[i + 1], i + 2));
    assert NameAt(toks, i + 2, "Expected receiver identifier.") == Success((toks[i + 2].lexeme, i + 3));
    assert ExpectAt(toks, i + 3, COLON, "Expected ':' after receiver.") == Success((toks[i + 3], i + 4));
  }

  lemma {:induction false} AppendHead<T>(acc: seq<T>, xs: seq<T>)
    requires |xs| > 0
    ensures acc + [xs[0]] + xs[1..] == acc + xs
  {
    assert [xs[0]] + xs[1..] == xs;
  }

  lemma {:induction false} MessagesStep(toks: seq<Token>, i: nat, acc: seq<Node>, m: Message, j: nat)
    requires EndsWithEof(toks) && i < |toks| && toks[i].kind != EOF
    requires MessageAt(toks, i) == Success((m, j))
    ensures MessagesAt(toks, i, acc) == MessagesAt(toks, j, acc + [m])
  {
  }

  /** The first message of a laid-out list parses back, and the rest follows it. */
  lemma {:induction false} LayoutHead(toks: seq<Token>, i: nat, ms: seq<Node>, tail: seq<Token>) returns (j: nat)
    requires EndsWithEof(toks) && i < |toks| && |ms| > 0
    requires forall k :: 0 <= k < |ms| ==> ParsedMessage(ms[k])
    requires toks[i..] == MessagesTokens(ms) + tail && |tail| > 0
    ensures j == i + |MessageTokens(ms[0])| && j < |toks| && toks[j..] == MessagesTokens(ms[1..]) + tail
    ensures MessageAt(toks, i) == Success((ms[0], j)) && toks[i].kind != EOF
  {
    var rest := MessagesTokens(ms[1..]);
    assert MessagesTokens(ms) + tail == MessageTokens(ms[0]) + (rest + tail);
    j := HeadAt(toks, i, ms[0], rest + tail);
  }

  /** A message at the front of the tokens parses back, and the tokens after it follow. */
  lemma {:induction false} HeadAt(toks: seq<Token>, i: nat, m: Node, after: seq<Token>) returns (j: nat)
    requires EndsWithEof(toks) && i < |toks| && ParsedMessage(m)
    requires toks[i..] == MessageTokens(m) + after && |after| > 0
    ensures j == i + |MessageTokens(m)| && j < |toks| && toks[j..] == after
    ensures MessageAt(toks, i) == Success((m, j)) && toks[i].kind != EOF
  {
    var first := MessageTokens(m);
    j := i + |first|;
    SliceSplit(toks, i, first, after);
    assert toks[i] == first[0];
    MessageRoundTrip(toks, i, m);
  }

  /** A suffix that is two pieces one after the other splits into them. */
  lemma {:induction false} SliceSplit<T>(s: seq<T>, i: nat, a: seq<T>, b: seq<T>)
    requires i <= |s| && s[i..] == a + b
    ensures i + |a| <= |s| && s[i..i + |a|] == a && s[i + |a|..] == b
  {
    assert s[i..i + |a|] == s[i..][..|a|];
    assert s[i + |a|..] == s[i..][|a|..];
  }


  lemma {:induction false} RolesRoundTrip(toks: seq<Token>, i: nat, rs: seq<string>, acc: seq<string>,
                                          all: seq<string>, end: nat)
    requires EndsWithEof(toks)
    requires i + 2 * |rs| < |toks| && toks[i..i + 2 * |rs|] == RoleListTokens(rs)
    requires toks[i + 2 * |rs|].kind != COMMA
    requires all == acc + rs && end == i + 2 * |rs|
    ensures MoreRolesAt(toks, i, acc) == Success((all, end))
    decreases |rs|
  {
    if |rs| == 0 {
      assert acc + rs == acc;
    } else {
      var ts := RoleListTokens(rs);
      assert toks[i] == ts[0] && toks[i + 1] == ts[1];
      assert toks[i + 2..i + 2 * |rs|] == ts[2..] == RoleListTokens(rs[1..]);
      AppendHead(acc, rs);
      RolesRoundTrip(toks, i + 2, rs[1..], acc + [rs[0]], all, end);
    }
  }

  /** Parsing undoes unparsing: a protocol in the grammar's shape comes back unchanged from
      its own token stream. */
  lemma {:induction false} ParseUnparse(p: ProtocolTree)
    requires |p.roles| >= 1 && forall k :: 0 <= k < |p.messages| ==> ParsedMessage(p.messages[k])
    ensures Buffered(Unparse(p))
    ensures ParseTokens(Unparse(p)) == Success(p)
  {
    NoEofInside(p);
    var j := UnparseRoles(p);
    MessagesPlacement(p, j);
    assert [] + p.messages == p.messages;
    MessagesLaidOut(Unparse(p), j, p.messages, [Tok(EOF, "")], [], p.messages, |Unparse(p)| - 1);
  }

  /** The role list of the unparsed tokens parses back. */
  lemma {:induction false} UnparseRoles(p: ProtocolTree) returns (j: nat)
    requires |p.roles| >= 1 && forall k :: 0 <= k < |p.messages| ==> ParsedMessage(p.messages[k])
    ensures EndsWithEof(Unparse(p)) && j == 3 + 2 * (|p.roles| - 1) && j < |Unparse(p)|
    ensures RolesAt(Unparse(p), 0) == Success((p.roles, j))
  {
    var toks;
    toks, j := RolesLayout(p);
    RolesFromHead(toks, p.roles[0], p.roles[1..]);
    assert [p.roles[0]] + p.roles[1..] == p.roles;
  }

  /** A `roles:` header, its first name and a comma-separated tail parse back as the role list. */
  lemma {:induction false} RolesFromHead(toks: seq<Token>, first: string, more: seq<string>)
    requires EndsWithEof(toks) && 3 + 2 * |more| < |toks|
    requires toks[0] == Tok(ROLES, "roles") && toks[1] == Tok(COLON, ":") && toks[2] == Tok(IDENTIFIER, first)
    requires toks[3..3 + 2 * |more|] == RoleListTokens(more)
    requires toks[3 + 2 * |more|].kind != COMMA
    ensures RolesAt(toks, 0) == Success(([first] + more, 3 + 2 * |more|))
  {
    RolesRoundTrip(toks, 3, more, [first], [first] + more, 3 + 2 * |more|);
    RolesHead(toks, first);
  }

  /** Once `roles`, `:` and a first name are in place, `parseRoles()` continues with the comma loop. */
  lemma {:induction false} RolesHead(toks: seq<Token>, first: string)
    requires EndsWithEof(toks) && 3 < |toks|
    requires toks[0].kind == ROLES && toks[1].kind == COLON && toks[2] == Tok(IDENTIFIER, first)
    ensures RolesAt(toks, 0) == MoreRolesAt(toks, 3, [first])
  {
    assert ExpectAt(toks, 0, ROLES, "Expected 'roles' declaration.") == Success((toks[0], 1));
    assert ExpectAt(toks, 1, COLON, "Expected ':' after 'roles'.") == Success((toks[1], 2));
    assert NameAt(toks, 2, "Expected role name.") == Success((first, 3));
  }

  /** Where the role list sits in the unparsed tokens. */
  lemma {:induction false} RolesLayout(p: ProtocolTree) returns (toks: seq<Token>, j: nat)
    requires |p.roles| >= 1 && forall k :: 0 <= k < |p.messages| ==> ParsedMessage(p.messages[k])
    ensures toks == Unparse(p) && j == 3 + 2 * (|p.roles| - 1) && j < |toks|
    ensures toks[0] == Tok(ROLES, "roles") && toks[1] == Tok(COLON, ":") && toks[2] == Tok(IDENTIFIER, p.roles[0])
    ensures toks[3..j] == RoleListTokens(p.roles[1..]) && toks[j].kind != COMMA
  {
    toks := Unparse(p);
    var head := [Tok(ROLES, "roles"), Tok(COLON, ":"), Tok(IDENTIFIER, p.roles[0])];
    var roleToks := RoleListTokens(p.roles[1..]);
    var msgToks := MessagesTokens(p.messages);
    j := 3 + |roleToks|;
    var after := msgToks + [Tok(EOF, "")];
    assert toks == head + roleToks + after;
    Split3(toks, head, roleToks, after);
    assert toks[0] == toks[..3][0] && toks[1] == toks[..3][1] && toks[2] == toks[..3][2];
    assert after[0].kind == IDENTIFIER || after[0].kind == EOF;
  }

  /** A sequence made of three pieces: where each of them lies. */
  lemma {:induction false} Split3<T>(s: seq<T>, a: seq<T>, b: seq<T>, c: seq<T>)
    requires s == a + b + c && |c| > 0
    ensures |a| + |b| < |s| && s[..|a|] == a && s[|a|..|a| + |b|] == b && s[|a| + |b|] == c[0]
  {
    assert s[..|a|] == (a + b + c)[..|a|];
  }

  /** Where the messages sit in the unparsed tokens: after the role list, before the final EOF. */
  lemma {:induction false} MessagesPlacement(p: ProtocolTree, j: nat)
    requires |p.roles| >= 1 && forall k :: 0 <= k < |p.messages| ==> ParsedMessage(p.messages[k])
    requires j == 3 + 2 * (|p.roles| - 1)
    ensures j < |Unparse(p)| && |Unparse(p)| - 1 == j + |MessagesTokens(p.messages)|
    ensures Unparse(p)[j..] == MessagesTokens(p.messages) + [Tok(EOF, "")]
  {
    var toks := Unparse(p);
    var after := MessagesTokens(p.messages) + [Tok(EOF, "")];
    var front := [Tok(ROLES, "roles"), Tok(COLON, ":"), Tok(IDENTIFIER, p.roles[0])] + RoleListTokens(p.roles[1..]);
    assert toks[0..] == front + after;
    SliceSplit(toks, 0, front, after);
  }

  /** Messages written out from index `i` up to an EOF parse back in order, onto any
      list of messages already read, and the loop stops at that EOF. */
  lemma {:induction false} MessagesLaidOut(toks: seq<Token>, i: nat, ms: seq<Node>, tail: seq<Token>, acc: seq<Node>,
                                           all: seq<Node>, end: nat)
    requires EndsWithEof(toks) && i < |toks|
    requires forall k :: 0 <= k < |ms| ==> ParsedMessage(ms[k])
    requires toks[i..] == MessagesTokens(ms) + tail && |tail| > 0 && tail[0].kind == EOF
    requires all == acc + ms && end == i + |MessagesTokens(ms)|
    ensures end < |toks| && MessagesAt(toks, i, acc) == Success((all, end))
    decreases |ms|
  {
    if |ms| == 0 {
      assert toks[i] == tail[0];
      assert acc + ms == acc;
    } else {
      var j := LayoutHead(toks, i, ms, tail);
      MessagesStep(toks, i, acc, ms[0], j);
      AppendHead(acc, ms);
      assert |MessagesTokens(ms)| == |MessageTokens(ms[0])| + |MessagesTokens(ms[1..])|;
      MessagesLaidOut(toks, j, ms[1..], tail, acc + [ms[0]], all, end);
    }
  }

  lemma {:induction false} NoEofInside(p: ProtocolTree)
    requires |p.roles| >= 1 && forall k :: 0 <= k < |p.messages| ==> ParsedMessage(p.messages[k])
    ensures Buffered(Unparse(p))
  {
    var toks := Unparse(p);
    RoleListNoEof(p.roles[1..]);
    MessagesNoEof(p.messages);
    var body := [Tok(ROLES, "roles"), Tok(COLON, ":"), Tok(IDENTIFIER, p.roles[0])] + RoleListTokens(p.roles[1..]) + MessagesTokens(p.messages);
    assert toks == body + [Tok(EOF, "")];
    assert forall k :: 0 <= k < |toks| - 1 ==> toks[k] == body[k];
  }

  lemma {:induction false} RoleListNoEof(rs: seq<string>)
    ensures forall k :: 0 <= k < |RoleListTokens(rs)| ==> RoleListTokens(rs)[k].kind != EOF
    decreases |rs|
  {
    if |rs| > 0 {
      RoleListNoEof(rs[1..]);
    }
  }

  lemma {:induction false} MessagesNoEof(ms: seq<Node>)
    requires forall k :: 0 <= k < |ms| ==> ParsedMessage(ms[k])
    ensures forall k :: 0 <= k < |MessagesTokens(ms)| ==> MessagesTokens(ms)[k].kind != EOF
    decreases |ms|
  {
    if |ms| > 0 {
      MessagesNoEof(ms[1..]);
      var m := ms[0];
      var ts := MessageTokens(m);
      assert forall k :: 0 <= k < |ts| ==> ts[k].kind != EOF;
    }
  }

  /** How a method's outcome matches a spec function's: same value and cursor, or same error. */
  predicate Agrees<T(==)>(r: Result<T, ParseError>, spec: Result<(T, nat), ParseError>, current: nat) {
    match r
    case Success(v) => spec == Success((v, current))
    case Failure(e) => spec == Failure(e)
  }

  /** The constructor's loop: `nextToken()` until EOF, every token buffered. */
  method ReadTokens(lexer: Lexer) returns (toks: seq<Token>)
    requires lexer.Valid()
    modifies lexer
    ensures lexer.Valid()
    ensures toks == Tokenize(lexer.src, old(lexer.pos), old(lexer.line)) && Buffered(toks)
  {
    ghost var all := Tokenize(lexer.src, lexer.pos, lexer.line);
    TokenizeStep(lexer.src, lexer.pos, lexer.line);
    var t := lexer.NextToken();
    toks := [t];
    ghost var rest := if t.kind == EOF then [] else Tokenize(lexer.src, lexer.pos, lexer.line);
    while t.kind != EOF
      invariant lexer.Valid() && |toks| > 0 && toks[|toks| - 1] == t
      invariant rest == if t.kind == EOF then [] else Tokenize(lexer.src, lexer.pos, lexer.line)
      invariant toks + rest == all
      decreases |lexer.src| - lexer.pos, if t.kind == EOF then 0 else 1
    {
      TokenizeStep(lexer.src, lexer.pos, lexer.line);
      ghost var prev := toks;
      ghost var prevRest := rest;
      t := lexer.NextToken();
      rest := if t.kind == EOF then [] else Tokenize(lexer.src, lexer.pos, lexer.line);
      assert prevRest == [t] + rest;
      toks := toks + [t];
      SnocShift(prev, t, rest);
    }
    assert toks == all;
  }

  lemma {:induction false} SnocShift<T>(a: seq<T>, x: T, b: seq<T>)
    ensures a + ([x] + b) == (a + [x]) + b
  {
  }

  /** `ProtocolParser`: the buffered tokens and the cursor into them. */
  class ProtocolParser {
    const tokens: seq<Token>
    var current: nat

    ghost predicate Valid()
      reads this
    {
      Buffered(tokens) && current < |tokens|
    }

    /** Buffers every token the lexer yields, through the first EOF. */
    constructor(lexer: Lexer)
      requires lexer.Valid()
      modifies lexer
      ensures Valid() && current == 0
      ensures tokens == Tokenize(lexer.src, old(lexer.pos), old(lexer.line))
    {
      var toks := ReadTokens(lexer);
      tokens := toks;
      current := 0;
    }

    /** `parse()` */
    method Parse() returns (r: Result<ProtocolNode, ParseError>)
      requires Valid()
      modifies this
      ensures Valid()
      ensures match r
        case Success(p) => fresh(p) && fresh(p.roleDecl) && ProtocolAt(tokens, old(current)) == Success((p.Value(), current))
        case Failure(e) => ProtocolAt(tokens, old(current)) == Failure(e)
    {
      var roles := RolesDecl();
      if roles.Failure? {
        return Failure(roles.error);
      }
      var proto := new ProtocolNode(roles.value);
      var err := MessagesInto(proto);
      if err.Some? {
        return Failure(err.value);
      }
      return Success(proto);
    }

    /** The message loop of `parse()`: messages until EOF, each appended to `proto`. */
    method MessagesInto(proto: ProtocolNode) returns (err: Option<ParseError>)
      requires Valid()
      modifies this, proto
      ensures Valid()
      ensures err.None? ==> MessagesAt(tokens, old(current), old(proto.messages)) == Success((proto.messages, current))
      ensures err.Some? ==> MessagesAt(tokens, old(current), old(proto.messages)) == Failure(err.value)
    {
      while Peek().kind != EOF
        invariant Valid()
        invariant MessagesAt(tokens, old(current), old(proto.messages)) == MessagesAt(tokens, current, proto.messages)
        decreases |tokens| - current
      {
        ghost var before := current;
        var msg := Message();
        if msg.Failure? {
          assert MessagesAt(tokens, before, proto.messages) == Failure(msg.error);
          return Some(msg.error);
        }
        MessagesStep(tokens, before, proto.messages, msg.value, current);
        proto.AddMessage(msg.value);
      }
      return None;
    }

    /** `rolesDecl()` */
    method RolesDecl() returns (r: Result<RoleDeclNode, ParseError>)
      requires Valid()
      modifies this
      ensures Valid()
      ensures match r
        case Success(d) => fresh(d) && RolesAt(tokens, old(current)) == Success((d.roles, current))
        case Failure(e) => RolesAt(tokens, old(current)) == Failure(e)
    {
      var t := Consume(ROLES, "Expected 'roles' declaration.");
      if t.Failure? {
        return Failure(t.error);
      }
      t := Consume(COLON, "Expected ':' after 'roles'.");
      if t.Failure? {
        return Failure(t.error);
      }
      var roles := new RoleDeclNode();
      var first := Identifier("Expected role name.");
      if first.Failure? {
        return Failure(first.error);
      }
      roles.AddRole(first.value);
      ghost var spec := RolesAt(tokens, old(current));
      ghost var at: nat := current;
      assert spec == MoreRolesAt(tokens, at, [first.value]);
      var comma := Match(COMMA);
      assert roles.roles == [first.value];
      while comma
        invariant Valid() && fresh(roles) && at < |tokens|
        invariant spec == MoreRolesAt(tokens, at, roles.roles)
        invariant comma == CheckAt(tokens, at, COMMA)
        invariant current == if comma then at + 1 else at
        decreases |tokens| - current
      {
        var name := Identifier("Expected role name after ','.");
        if name.Failure? {
          return Failure(name.error);
        }
        MoreRolesStep(tokens, at, roles.roles, name.value);
        roles.AddRole(name.value);
        at := current;
        comma := Match(COMMA);
      }
      return Success(roles);
    }

    /** `message()` */
    method Message() returns (r: Result<Message, ParseError>)
      requires Valid()
      modifies this
      ensures Valid() && Agrees(r, MessageAt(tokens, old(current)), current)
    {
      var sender := Identifier("Expected sender identifier.");
      if sender.Failure? {
        return Failure(sender.error);
      }
      var t := Consume(ARROW, "Expected '->' after sender.");
      if t.Failure? {
        return Failure(t.error);
      }
      var receiver := Identifier("Expected receiver identifier.");
      if receiver.Failure? {
        return Failure(receiver.error);
      }
      t := Consume(COLON, "Expected ':' after receiver.");
      if t.Failure? {
        return Failure(t.error);
      }
      var body := Stmt();
      if body.Failure? {
        return Failure(body.error);
      }
      return Success(MessageSend(sender.value, receiver.value, body.value));
    }

    /** `stmt()` */
    method Stmt() returns (r: Result<Node, ParseError>)
      requires Valid()
      modifies this
      ensures Valid() && Agrees(r, StmtAt(tokens, old(current)), current)
    {
      if Check(IDENTIFIER) && CheckNext(EQUAL) {
        var target := Identifier("Expected variable name.");
        assert target.Success?;
        var t := Consume(EQUAL, "Expected '=' after variable.");
        assert t.Success?;
        var value := EncExpr();
        if value.Failure? {
          return Failure(value.error);
        }
        return Success(Assign(target.value, value.value));
      }
      r := EncExpr();
    }

    /** `encExpr()` */
    method EncExpr() returns (r: Result<Node, ParseError>)
      requires Valid()
      modifies this
      ensures Valid() && Agrees(r, EncAt(tokens, old(current)), current)
    {
      var t := Consume(ENC, "Expected 'Enc' for encryption expression.");
      if t.Failure? {
        return Failure(t.error);
      }
      t := Consume(LPAREN, "Expected '(' after 'Enc'.");
      if t.Failure? {
        return Failure(t.error);
      }
      var key := Identifier("Expected key identifier.");
      if key.Failure? {
        return Failure(key.error);
      }
      t := Consume(COMMA, "Expected ',' between key and message.");
      if t.Failure? {
        return Failure(t.error);
      }
      var msg := Identifier("Expected message identifier.");
      if msg.Failure? {
        return Failure(msg.error);
      }
      t := Consume(RPAREN, "Expected ')' after Enc(...).");
      if t.Failure? {
        return Failure(t.error);
      }
      return Success(Encrypt(key.value, Node.Identifier(msg.value)));
    }

    /** `identifier(message)` */
    method Identifier(message: string) returns (r: Result<string, ParseError>)
      requires Valid()
      modifies this
      ensures Valid() && Agrees(r, NameAt(tokens, old(current), message), current)
    {
      var t := Consume(IDENTIFIER, message);
      if t.Failure? {
        return Failure(t.error);
      }
      return Success(t.value.lexeme);
    }

    /** `match(type)` */
    method Match(kind: TokenType) returns (matched: bool)
      requires Valid()
      modifies this
      ensures Valid()
      ensures matched == CheckAt(tokens, old(current), kind)
      ensures current == if matched then old(current) + 1 else old(current)
    {
      if Check(kind) {
        var _ := Advance();
        return true;
      }
      return false;
    }

    /** `consume(type, message)` */
    method Consume(kind: TokenType, message: string) returns (r: Result<Token, ParseError>)
      requires Valid()
      modifies this
      ensures Valid() && Agrees(r, ExpectAt(tokens, old(current), kind, message), current)
    {
      if Check(kind) {
        var t := Advance();
        return Success(t);
      }
      return Failure(ErrorAt(Peek(), message));
    }

    /** `check(type)` */
    predicate Check(kind: TokenType)
      requires Valid()
      reads this
    {
      !IsAtEnd() && Peek().kind == kind
    }

    /** `checkNext(type)` */
    predicate CheckNext(kind: TokenType)
      requires Valid()
      reads this
    {
      if IsAtEnd() then false
      else if tokens[current].kind == EOF then false
      else tokens[current + 1].kind == kind
    }

    /** `advance()`: steps over a non-EOF token and returns the token stepped over. */
    method Advance() returns (t: Token)
      requires Valid() && (0 < current || !IsAtEnd())
      modifies this
      ensures Valid()
      ensures current == if old(IsAtEnd()) then old(current) else old(current) + 1
      ensures t == tokens[current - 1]
    {
      if !IsAtEnd() {
        current := current + 1;
      }
      t := Previous();
    }

    predicate IsAtEnd()
      requires Valid()
      reads this
    {
      Peek().kind == EOF
    }

    function Peek(): Token
      requires Valid()
      reads this
    {
      tokens[current]
    }

    function Previous(): Token
      requires Valid() && 0 < current
      reads this
    {
      tokens[current - 1]
    }
  }
}
