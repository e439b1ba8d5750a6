# DynamicDuo protocol core in Dafny

DynamicDuo reads a small language for two-party security protocols:

```
roles: Alice, Bob
Alice -> Bob : Enc(K_AB, M_1)
Bob -> Alice : c = Enc(K_AB, M_2)
```

It lexes and parses this text into a syntax tree. A knowledge analyzer computes what each role and a passive adversary learn. A code generator decides which keys and helpers the emitted Java needs. Two renderers lay the run out as a sequence diagram, one as Graphviz DOT text and one as SVG. A crypto utility joins byte arrays and frames AES-GCM ciphertexts with their IV.

The Dafny modules follow those components:

- `Wrappers` (wrappers.dfy): `Option` and `Result`, used for the Java exceptions and nulls.
- `JavaStrings` (strings.dfy): the `String` methods the core relies on, namely `trim`, `split`, `startsWith` and decimal formatting.
- `Ast` (ast.dfy): the syntax tree node classes with `label()` and `children()`, and the mutable `RoleDeclNode` and `ProtocolNode`.
- `TreePrinter` (pretty.dfy): `SyntaxNode.pretty` and `buildPretty`.
- `Lexer` (lexer.dfy): `Lexer` and `Token.toString`.
- `Parser` (parser.dfy): `ProtocolParser`, the recursive-descent parser.
- `KnowledgeAnalyzer` (analyzer.dfy): `KnowledgeAnalyzer`, covering how each message is observed, the decryption fixed point and the catastrophic-leak check.
- `JavaCodeGen` (codegen.dfy): the selection logic of `JavaCodeGenerator` and its `generateExpr`.
- `SequenceDiagram` (sequence_diagram.dfy): `SequenceDiagramFromAst.labelFor`, and the checks and arrays of `renderTwoParty`.
- `DotBuilder` (dot.dfy): `DotBuilder.buildDot` and its id, escape and label helpers.
- `Svg` (svg.dfy): both `SVG` classes, with `wrapLabel` at widths 75 and 100 and the node and link layout.
- `Crypto` (crypto.dfy): `CryptoUtil.concat` and the IV framing of `encryptAESGCM` and `decryptAESGCM`.

Each Java class whose fields change in place is a Dafny `class`. These are `Lexer`, `ProtocolParser`, `RoleDeclNode` and `ProtocolNode`. Each method of such a class is proved against a pure function of the old state. The loops of the analyzer, the code generator, `buildDot`, `wrapLabel`, the SVG constructor and `concat` are methods with loop invariants. Each is proved equal to a function, and the properties are proved as lemmas about that function.

The main results are these:

- **Lexing.** The token stream ends in exactly one EOF, and its lexemes spell the source with the blanks removed (`Lexer.LexemesSpellSource`).
- **Parsing.** Every grammar-shaped protocol parses back from its own tokens (`Parser.ParseUnparse`).
- **Knowledge fixed point.** The decryption loop terminates and computes the least fixed point of the decryption rule (`KnowledgeAnalyzer.Decrypt`, `Closure`, `ClosureLeast`). The adversary knows at least as much as any role.
- **Catastrophic leaks.** Because a decrypted value is stored as the label `Id(M)`, a leak is flagged exactly when a `K_`/`M_` identifier is sent in the clear (`KnowledgeAnalyzer.CatastrophicOnlyFromClear`).
- **Code generation.** The generator's decisions are each proved sound and complete: the encryption dispatch, and the RSA and ElGamal key pairs.
- **Escaping.** DOT escaping is lossless, and sanitizing a name is idempotent.
- **SVG slots.** The SVG links array is filled exactly once per slot.
- **IV framing.** Framing and unframing are inverse to each other.

Three facts about the code shape the model (paths are under `codeeditor/src/main/java/com/dynamicduo/proto/`):

- A plaintext learned by decryption is stored as the label of the encrypted message, such as `Id(M)`, and not as its name `M`. The opaque term is built from `label()` (analyzer/KnowledgeAnalyzer.java:242-243, ast/IdentifierNode.java:10), and the decryption rule adds the trimmed text after the first comma (analyzer/KnowledgeAnalyzer.java:162-174).
- The parser accepts only `roles: A, B` followed by messages whose body is `Enc(k, m)` or `x = Enc(k, m)` (parser/ProtocolParser.java:46-90).
- The input language has no statements that declare knowledge or make assertions. The grammar has none (parser/ProtocolParser.java:46-90), and the analyzer reads only the roles and the messages (analyzer/KnowledgeAnalyzer.java:96-134).

A few calls in the code refer to accessors that the node classes do not define. They are resolved as follows:

- `getPk()` and `getSigningKey()` are the `pk` and `sk` fields.
- `getKeyDecls()` is an explicit list of key declarations.
- `DotBuilder` calls `getName()` on a message body. The model uses the name of an identifier and the `label()` of anything else.

## Model

| member | source | states |
|---|---|---|
| JavaStrings.NatToString | codeeditor/src/main/java/com/dynamicduo/proto/render/SequenceDiagramFromAst.java:66 | the decimal text of a count is non-empty and made of digits only |
| JavaStrings.NatToStringValue | codeeditor/src/main/java/com/dynamicduo/proto/render/SequenceDiagramFromAst.java:66 | the decimal text of any count reads back as that count and has no leading zero unless the count is 0 |
| JavaStrings.TrimIsTrimmedInfix | codeeditor/src/main/java/com/dynamicduo/proto/analyzer/KnowledgeAnalyzer.java:168-169 | `trim()` yields a contiguous piece of its argument with no removable character at either end |
| JavaStrings.TrimTrimmed | codeeditor/src/main/java/com/dynamicduo/proto/analyzer/KnowledgeAnalyzer.java:168-169 | `trim()` leaves a string with no blank ends unchanged |
| JavaStrings.SplitFirst | codeeditor/src/main/java/com/dynamicduo/proto/analyzer/KnowledgeAnalyzer.java:164 | `split(",", 2)`: no pieces exactly when the separator is absent; otherwise a separator-free head, the separator and the rest rebuild the input |
| JavaStrings.SplitFirstAt | codeeditor/src/main/java/com/dynamicduo/proto/analyzer/KnowledgeAnalyzer.java:164 | the split happens at the first separator, whatever follows it |
| JavaStrings.SplitAllJoin | codeeditor/src/main/java/com/dynamicduo/proto/render/SVG.java:112 | `split(" ")` loses nothing: the pieces joined by the separator give back the text, and no piece holds the separator |
| JavaStrings.SplitPiecesFree | codeeditor/src/main/java/com/dynamicduo/proto/render/SVG.java:112 | no word of `split(" ")` holds a space |
| JavaStrings.DropTrailingEmpty | codeeditor/src/main/java/com/dynamicduo/proto/render/SVG.java:112 | Java's `split` drops only trailing empty pieces, and keeps a non-empty last piece |
| Ast.Size | codeeditor/src/main/java/com/dynamicduo/proto/ast/SyntaxNode.java:33-35 | every tree has at least one node (used as the termination measure of the tree walks) |
| Ast.SizeChildren | codeeditor/src/main/java/com/dynamicduo/proto/ast/SyntaxNode.java:33-35 | a node's tree is the node plus the trees of its `children()` |
| Ast.LabelTrimmed | codeeditor/src/main/java/com/dynamicduo/proto/ast/SyntaxNode.java:29-30 | every `label()` except a key declaration's is non-empty with no blank at either end, so the analyzer's `trim()` keeps it |
| Ast.RoleDeclNode.constructor | codeeditor/src/main/java/com/dynamicduo/proto/ast/RoleDeclNode.java:9 | a new role declaration holds no roles |
| Ast.RoleDeclNode.AddRole | codeeditor/src/main/java/com/dynamicduo/proto/ast/RoleDeclNode.java:11 | `addRole` appends at the end and keeps the earlier roles |
| Ast.RoleDeclNode.Value | codeeditor/src/main/java/com/dynamicduo/proto/ast/RoleDeclNode.java:12 | `getRoles` gives the roles in insertion order |
| Ast.ProtocolNode.constructor | codeeditor/src/main/java/com/dynamicduo/proto/ast/ProtocolNode.java:14-16 | the roles are fixed at construction and there are no messages yet |
| Ast.ProtocolNode.AddMessage | codeeditor/src/main/java/com/dynamicduo/proto/ast/ProtocolNode.java:18 | `addMessage` appends and keeps the earlier messages |
| Ast.ProtocolNode.Value | codeeditor/src/main/java/com/dynamicduo/proto/ast/ProtocolNode.java:19-20 | the getters give the fixed roles and the messages in insertion order |
| TreePrinter.PrettyIsPreorder | codeeditor/src/main/java/com/dynamicduo/proto/ast/SyntaxNode.java:38-51 | `pretty()` writes one line per node, in pre-order, each the node's prefix and `label()` and a line break; the root's prefix is the indent plus `└─ ` |
| TreePrinter.ChildrenArePreorder | codeeditor/src/main/java/com/dynamicduo/proto/ast/SyntaxNode.java:46-50 | the loop over the children writes the lines of each child's subtree in order |
| TreePrinter.PrefixesWellIndented | codeeditor/src/main/java/com/dynamicduo/proto/ast/SyntaxNode.java:45-49 | each line's prefix is the caller's indent, then whole `   `/`│  ` steps, then one of the two connectors |
| TreePrinter.LinesAppend | codeeditor/src/main/java/com/dynamicduo/proto/ast/SyntaxNode.java:45 | the lines of two node lists are the lines of each, one after the other |
| Lexer.PadRight | codeeditor/src/main/java/com/dynamicduo/proto/lexer/Token.java:26 | `%-10s`: the text, then blanks up to the width, never shortened |
| Lexer.SkipBlank | codeeditor/src/main/java/com/dynamicduo/proto/lexer/Lexer.java:100-117 | skipping stops at the first character that is not space, `\r`, `\t` or `\n` (or at the end), and the line grows by the `\n`s passed |
| Lexer.IdentEnd | codeeditor/src/main/java/com/dynamicduo/proto/lexer/Lexer.java:81-83 | an identifier takes the maximal run of letters, digits and `_` |
| Lexer.Next | codeeditor/src/main/java/com/dynamicduo/proto/lexer/Lexer.java:39-73 | `nextToken()` is total; it returns EOF exactly when only blanks remain, then with an empty lexeme at the end; every other token consumes at least one character |
| Lexer.TokenIsSlice | codeeditor/src/main/java/com/dynamicduo/proto/lexer/Lexer.java:40-72 | each non-EOF lexeme is the non-empty, blank-free slice of the source just after the skipped blanks; its line counts the line breaks before it |
| Lexer.Punctuation | codeeditor/src/main/java/com/dynamicduo/proto/lexer/Lexer.java:49-65 | each of `: , = ( )` is its one-character token, and `->` is exactly when an ARROW is produced |
| Lexer.IdentifierToken | codeeditor/src/main/java/com/dynamicduo/proto/lexer/Lexer.java:67-97 | a letter starts a maximal identifier; exactly `roles`, `Enc`, `Dec` become keywords |
| Lexer.UnknownCharacter | codeeditor/src/main/java/com/dynamicduo/proto/lexer/Lexer.java:71-72 | any other character, a lone `-` included, becomes a one-character IDENTIFIER |
| Lexer.Tokenize | codeeditor/src/main/java/com/dynamicduo/proto/parser/ProtocolParser.java:26-30 | the calls until EOF give a stream with exactly one EOF, at its end |
| Lexer.LexemesSpellSource | codeeditor/src/main/java/com/dynamicduo/proto/lexer/Lexer.java:39-117 | the lexemes, in order, spell the source with every space, `\r`, `\t` and `\n` removed |
| Lexer.TokenLines | codeeditor/src/main/java/com/dynamicduo/proto/lexer/Lexer.java:100-117 | token lines start at the initial line, never decrease, and EOF reports the initial line plus all line breaks |
| Lexer.Lexer.constructor | codeeditor/src/main/java/com/dynamicduo/proto/lexer/Lexer.java:34-37 | a fresh lexer is at position 0 on line 1 |
| Lexer.Lexer.NextToken | codeeditor/src/main/java/com/dynamicduo/proto/lexer/Lexer.java:39-73 | the token and the new cursor and line are those of `Next` |
| Lexer.Lexer.Identifier | codeeditor/src/main/java/com/dynamicduo/proto/lexer/Lexer.java:77-98 | the cursor moves to the end of the identifier run; the token is the keyword or IDENTIFIER for the consumed text |
| Lexer.Lexer.SkipWhitespace | codeeditor/src/main/java/com/dynamicduo/proto/lexer/Lexer.java:100-117 | the cursor and line become those of `SkipBlank` |
| Lexer.Lexer.Peek | codeeditor/src/main/java/com/dynamicduo/proto/lexer/Lexer.java:123-125 | the current character, NUL at the end |
| Lexer.Lexer.Advance | codeeditor/src/main/java/com/dynamicduo/proto/lexer/Lexer.java:127-129 | returns the current character and moves one position |
| Lexer.Lexer.Match | codeeditor/src/main/java/com/dynamicduo/proto/lexer/Lexer.java:131-138 | consumes one character exactly when it is the expected one |
| Parser.ErrorAtReports | codeeditor/src/main/java/com/dynamicduo/proto/parser/ProtocolParser.java:112-114 | a parse error carries the offending token's line and a message ending in its text |
| Parser.ExpectAt | codeeditor/src/main/java/com/dynamicduo/proto/parser/ProtocolParser.java:107-119 | `consume` succeeds only on a non-EOF token of the kind, stepping past it; otherwise the error names the current token |
| Parser.NameAt | codeeditor/src/main/java/com/dynamicduo/proto/parser/ProtocolParser.java:94-97 | `identifier` returns the lexeme of an IDENTIFIER token |
| Parser.EncAt | codeeditor/src/main/java/com/dynamicduo/proto/parser/ProtocolParser.java:82-90 | `encExpr` yields `Enc(id, id)` and consumes at least one token, or reports a token at or after the start |
| Parser.StmtAt | codeeditor/src/main/java/com/dynamicduo/proto/parser/ProtocolParser.java:71-79 | `stmt` yields an assignment exactly when an IDENTIFIER is followed by `=` |
| Parser.MessageAt | codeeditor/src/main/java/com/dynamicduo/proto/parser/ProtocolParser.java:61-68 | `message` yields a message send whose body is an encryption or an assignment of one |
| Parser.MoreRolesAt | codeeditor/src/main/java/com/dynamicduo/proto/parser/ProtocolParser.java:54-56 | the comma loop keeps the roles read so far and stops before a token that is not a comma |
| Parser.RolesAt | codeeditor/src/main/java/com/dynamicduo/proto/parser/ProtocolParser.java:47-58 | `rolesDecl` yields at least one role |
| Parser.MessagesAt | codeeditor/src/main/java/com/dynamicduo/proto/parser/ProtocolParser.java:38-42 | the message loop keeps earlier messages and stops exactly at EOF |
| Parser.ProtocolAt | codeeditor/src/main/java/com/dynamicduo/proto/parser/ProtocolParser.java:34-44 | a failed `parse` reports a token of the input |
| Parser.ParseOutcome | codeeditor/src/main/java/com/dynamicduo/proto/parser/ProtocolParser.java:34-44 | a successful parse has at least one role, reads up to the final EOF and yields only grammar-shaped messages; a failure reports a token's line and text |
| Parser.EncRoundTrip | codeeditor/src/main/java/com/dynamicduo/proto/parser/ProtocolParser.java:82-90 | the six tokens of `Enc(k, m)` parse back to the same expression |
| Parser.StmtRoundTrip | codeeditor/src/main/java/com/dynamicduo/proto/parser/ProtocolParser.java:71-79 | the tokens of a statement parse back to it |
| Parser.MessageRoundTrip | codeeditor/src/main/java/com/dynamicduo/proto/parser/ProtocolParser.java:61-68 | the tokens of a message parse back to it |
| Parser.RolesRoundTrip | codeeditor/src/main/java/com/dynamicduo/proto/parser/ProtocolParser.java:54-56 | a comma-separated tail of names parses back to those names |
| Parser.MessagesLaidOut | codeeditor/src/main/java/com/dynamicduo/proto/parser/ProtocolParser.java:38-42 | messages laid out one after another, followed by the end of input, parse back as the same messages in order, stopping at the end token |
| Parser.ParseUnparse | codeeditor/src/main/java/com/dynamicduo/proto/parser/ProtocolParser.java:24-44 | parsing the token stream of any grammar-shaped protocol gives back that protocol |
| Parser.Unparse | codeeditor/src/main/java/com/dynamicduo/proto/parser/ProtocolParser.java:12-18 | the concrete syntax of a protocol ends with EOF |
| Parser.ProtocolParser.constructor | codeeditor/src/main/java/com/dynamicduo/proto/parser/ProtocolParser.java:24-31 | the buffer is the lexer's tokens up to and including the first EOF, cursor 0 |
| Parser.ProtocolParser.Parse | codeeditor/src/main/java/com/dynamicduo/proto/parser/ProtocolParser.java:34-44 | the result, the new cursor and the error are those of `ProtocolAt` |
| Parser.ProtocolParser.RolesDecl | codeeditor/src/main/java/com/dynamicduo/proto/parser/ProtocolParser.java:47-58 | agrees with `RolesAt` |
| Parser.ProtocolParser.Message | codeeditor/src/main/java/com/dynamicduo/proto/parser/ProtocolParser.java:61-68 | agrees with `MessageAt` |
| Parser.ProtocolParser.Stmt | codeeditor/src/main/java/com/dynamicduo/proto/parser/ProtocolParser.java:71-79 | agrees with `StmtAt` |
| Parser.ProtocolParser.EncExpr | codeeditor/src/main/java/com/dynamicduo/proto/parser/ProtocolParser.java:82-90 | agrees with `EncAt` |
| Parser.ProtocolParser.Identifier | codeeditor/src/main/java/com/dynamicduo/proto/parser/ProtocolParser.java:94-97 | agrees with `NameAt` |
| Parser.ProtocolParser.Match | codeeditor/src/main/java/com/dynamicduo/proto/parser/ProtocolParser.java:99-105 | moves one token exactly when `check` holds |
| Parser.ProtocolParser.Consume | codeeditor/src/main/java/com/dynamicduo/proto/parser/ProtocolParser.java:107-110 | agrees with `ExpectAt` |
| Parser.ProtocolParser.Advance | codeeditor/src/main/java/com/dynamicduo/proto/parser/ProtocolParser.java:127-130 | never moves past the EOF token; returns the token stepped over |
| KnowledgeAnalyzer.OpaqueTerm | codeeditor/src/main/java/com/dynamicduo/proto/analyzer/KnowledgeAnalyzer.java:236-290 | the opaque string of an encryption, MAC or verification ends with `)` |
| KnowledgeAnalyzer.CollectTerms | codeeditor/src/main/java/com/dynamicduo/proto/analyzer/KnowledgeAnalyzer.java:226-306 | only a bare identifier or assignment targets are seen in the clear; a structured term adds exactly one opaque string and no identifier |
| KnowledgeAnalyzer.EncTermIsLabel | codeeditor/src/main/java/com/dynamicduo/proto/analyzer/KnowledgeAnalyzer.java:243 | the term recorded for `Enc`/`Mac` is the node's own `label()` |
| KnowledgeAnalyzer.OpenEnc | codeeditor/src/main/java/com/dynamicduo/proto/analyzer/KnowledgeAnalyzer.java:158-169 | only strings starting `Enc(` and ending `)` are opened |
| KnowledgeAnalyzer.OpenEncSplit | codeeditor/src/main/java/com/dynamicduo/proto/analyzer/KnowledgeAnalyzer.java:162-169 | `Enc(k, m)` opens at the comma after `k`, giving the trimmed key and the message |
| KnowledgeAnalyzer.OpenEncRoundTrip | codeeditor/src/main/java/com/dynamicduo/proto/analyzer/KnowledgeAnalyzer.java:162-169 | writing `Enc(k, m)` and opening it gives `(k, m)` back for a comma-free key and trimmed parts |
| KnowledgeAnalyzer.EncTermOpens | codeeditor/src/main/java/com/dynamicduo/proto/analyzer/KnowledgeAnalyzer.java:236-245 | the term collected for an encryption opens to its key and the label of its message |
| KnowledgeAnalyzer.OnlyEncOpens | codeeditor/src/main/java/com/dynamicduo/proto/analyzer/KnowledgeAnalyzer.java:156-160 | MAC, hash, signature, verification and concatenation terms are never opened |
| KnowledgeAnalyzer.Closure | codeeditor/src/main/java/com/dynamicduo/proto/analyzer/KnowledgeAnalyzer.java:148-178 | the fixed point keeps what was known, adds only plaintexts of held terms, and leaves every known key's plaintext known |
| KnowledgeAnalyzer.ClosureLeast | codeeditor/src/main/java/com/dynamicduo/proto/analyzer/KnowledgeAnalyzer.java:148-178 | the fixed point is the least closed superset of what was seen |
| KnowledgeAnalyzer.ClosureMonotone | codeeditor/src/main/java/com/dynamicduo/proto/analyzer/KnowledgeAnalyzer.java:148-178 | seeing more never leads to knowing less |
| KnowledgeAnalyzer.ClosureUnique | codeeditor/src/main/java/com/dynamicduo/proto/analyzer/KnowledgeAnalyzer.java:148-178 | any closed set between what was seen and the fixed point is the fixed point |
| KnowledgeAnalyzer.NonEncInert | codeeditor/src/main/java/com/dynamicduo/proto/analyzer/KnowledgeAnalyzer.java:156-160 | without `Enc` terms the rule adds nothing |
| KnowledgeAnalyzer.Initial | codeeditor/src/main/java/com/dynamicduo/proto/analyzer/KnowledgeAnalyzer.java:96-109 | both maps are keyed by the roles plus the adversary, every entry empty |
| KnowledgeAnalyzer.Initialize | codeeditor/src/main/java/com/dynamicduo/proto/analyzer/KnowledgeAnalyzer.java:313-320 | the two initialisation loops build exactly `Initial` |
| KnowledgeAnalyzer.EmptyPerRole | codeeditor/src/main/java/com/dynamicduo/proto/analyzer/KnowledgeAnalyzer.java:313-316 | one empty entry per role and the adversary |
| KnowledgeAnalyzer.EmptyPerKey | codeeditor/src/main/java/com/dynamicduo/proto/analyzer/KnowledgeAnalyzer.java:318-320 | one empty entry per principal of the first map |
| KnowledgeAnalyzer.ObserveMessage | codeeditor/src/main/java/com/dynamicduo/proto/analyzer/KnowledgeAnalyzer.java:120-136 | fails exactly when sender or receiver has no entry; otherwise sender, receiver and adversary gain exactly what the body shows and no one else changes |
| KnowledgeAnalyzer.AddToThree | codeeditor/src/main/java/com/dynamicduo/proto/analyzer/KnowledgeAnalyzer.java:133-136 | the three observers' entries grow by the same set, the rest unchanged |
| KnowledgeAnalyzer.ObserveAll | codeeditor/src/main/java/com/dynamicduo/proto/analyzer/KnowledgeAnalyzer.java:120-137 | the pass keeps both maps keyed by the same principals |
| KnowledgeAnalyzer.See | codeeditor/src/main/java/com/dynamicduo/proto/analyzer/KnowledgeAnalyzer.java:133-136 | one observer takes in the body's terms, or the pass stops on a principal without an entry |
| KnowledgeAnalyzer.ObserveOne | codeeditor/src/main/java/com/dynamicduo/proto/analyzer/KnowledgeAnalyzer.java:121-136 | agrees with `ObserveMessage` |
| KnowledgeAnalyzer.Observe | codeeditor/src/main/java/com/dynamicduo/proto/analyzer/KnowledgeAnalyzer.java:323-336 | the in-place pass over the messages agrees with `ObserveAll` |
| KnowledgeAnalyzer.Saturated | codeeditor/src/main/java/com/dynamicduo/proto/analyzer/KnowledgeAnalyzer.java:340-365 | the final atoms are keyed like the observed maps |
| KnowledgeAnalyzer.MissingShrinks | codeeditor/src/main/java/com/dynamicduo/proto/analyzer/KnowledgeAnalyzer.java:358-361 | each learned atom makes the amount still to learn smaller (the loop's termination measure) |
| KnowledgeAnalyzer.ScanTerms | codeeditor/src/main/java/com/dynamicduo/proto/analyzer/KnowledgeAnalyzer.java:344-362 | one principal's scan learns only closure atoms; if it learns nothing, that principal is closed |
| KnowledgeAnalyzer.Pass | codeeditor/src/main/java/com/dynamicduo/proto/analyzer/KnowledgeAnalyzer.java:341-363 | a pass that sets `changed` shrinks what is missing; one that does not leaves every principal closed and nothing changed |
| KnowledgeAnalyzer.Decrypt | codeeditor/src/main/java/com/dynamicduo/proto/analyzer/KnowledgeAnalyzer.java:339-365 | the `do ... while (changed)` loop terminates with each principal's atoms equal to the fixed point of what it saw |
| KnowledgeAnalyzer.Catastrophic | codeeditor/src/main/java/com/dynamicduo/proto/analyzer/KnowledgeAnalyzer.java:375-381 | the catastrophic atoms are exactly the adversary atoms starting `K_` or `M_` |
| KnowledgeAnalyzer.CatastrophicOf | codeeditor/src/main/java/com/dynamicduo/proto/analyzer/KnowledgeAnalyzer.java:376-381 | the filtering loop computes `Catastrophic` |
| KnowledgeAnalyzer.Analyze | codeeditor/src/main/java/com/dynamicduo/proto/analyzer/KnowledgeAnalyzer.java:308-391 | the whole analysis, without the text, agrees with `AnalyzeSpec` |
| KnowledgeAnalyzer.ObserveAllFailsIff | codeeditor/src/main/java/com/dynamicduo/proto/analyzer/KnowledgeAnalyzer.java:120-137 | the pass fails exactly when some sender or receiver is not a principal |
| KnowledgeAnalyzer.ObserveAllAdversary | codeeditor/src/main/java/com/dynamicduo/proto/analyzer/KnowledgeAnalyzer.java:124-136 | after the pass the adversary holds exactly everything every message shows |
| KnowledgeAnalyzer.ObserveAllBounds | codeeditor/src/main/java/com/dynamicduo/proto/analyzer/KnowledgeAnalyzer.java:120-137 | a principal keeps what it had and gains only what some message shows |
| KnowledgeAnalyzer.ObserveAllDominated | codeeditor/src/main/java/com/dynamicduo/proto/analyzer/KnowledgeAnalyzer.java:124 | since the adversary observes every message, nobody sees anything it does not |
| KnowledgeAnalyzer.AnalysisFailsIff | codeeditor/src/main/java/com/dynamicduo/proto/analyzer/KnowledgeAnalyzer.java:308-336 | the analysis fails exactly when a sender or receiver is neither a declared role nor the adversary |
| KnowledgeAnalyzer.AnalysisShape | codeeditor/src/main/java/com/dynamicduo/proto/analyzer/KnowledgeAnalyzer.java:308-391 | on success the maps are keyed by the principals, every principal is closed under the rule, and the catastrophic set is the adversary's `K_`/`M_` atoms |
| KnowledgeAnalyzer.AdversaryKnowsMost | codeeditor/src/main/java/com/dynamicduo/proto/analyzer/KnowledgeAnalyzer.java:339-365 | the passive adversary ends up knowing at least as much as any principal |
| KnowledgeAnalyzer.AdversarySeesAll | codeeditor/src/main/java/com/dynamicduo/proto/analyzer/KnowledgeAnalyzer.java:124-136 | everything any message shows in the clear, the adversary knows |
| KnowledgeAnalyzer.AdversaryFinal | codeeditor/src/main/java/com/dynamicduo/proto/analyzer/KnowledgeAnalyzer.java:323-381 | the adversary's final atoms are the fixed point of all clear identifiers under all opaque terms |
| KnowledgeAnalyzer.LabelNotSecret | codeeditor/src/main/java/com/dynamicduo/proto/analyzer/KnowledgeAnalyzer.java:242-243 | no node label starts `K_` or `M_`, so a decrypted label is never catastrophic |
| KnowledgeAnalyzer.SafePlaintexts | codeeditor/src/main/java/com/dynamicduo/proto/analyzer/KnowledgeAnalyzer.java:242-243 | what the rule can open from a body with comma-free keys is a label, never a secret-looking atom |
| KnowledgeAnalyzer.ClosureAddsNoSecret | codeeditor/src/main/java/com/dynamicduo/proto/analyzer/KnowledgeAnalyzer.java:378-381 | opening terms whose plaintexts do not look secret adds no catastrophic atom |
| KnowledgeAnalyzer.CatastrophicOnlyFromClear | codeeditor/src/main/java/com/dynamicduo/proto/analyzer/KnowledgeAnalyzer.java:190-196 | with comma-free keys, the catastrophic atoms are exactly the `K_`/`M_` identifiers sent in the clear |
| KnowledgeAnalyzer.LeakExampleResult | codeeditor/src/main/java/com/dynamicduo/proto/analyzer/KnowledgeAnalyzer.java:190-196 | a key sent in the clear, then `Enc(K_AB, M_1)`: the adversary learns `K_AB` and the label `Id(M_1)`, and only `K_AB` is catastrophic |
| KnowledgeAnalyzer.LeakExampleClosure | codeeditor/src/main/java/com/dynamicduo/proto/analyzer/KnowledgeAnalyzer.java:158-174 | knowing `K_AB` and holding `Enc(K_AB, Id(M_1))`, the rule adds exactly `Id(M_1)` |
| JavaCodeGen.AddNew | codeeditor/src/main/java/com/dynamicduo/proto/codegen/JavaCodeGenerator.java:242-245 | a LinkedHashSet `add`: appended only if absent, so order is first-seen and there are no duplicates |
| JavaCodeGen.TypeOfExpr | codeeditor/src/main/java/com/dynamicduo/proto/codegen/JavaCodeGenerator.java:61-67 | the type is BOOL exactly for a verification |
| JavaCodeGen.PutAllLastWins | codeeditor/src/main/java/com/dynamicduo/proto/codegen/JavaCodeGenerator.java:81-83 | `put` in order: a key maps to the value of its last pair |
| JavaCodeGen.KeyKindsLastDecl | codeeditor/src/main/java/com/dynamicduo/proto/codegen/JavaCodeGenerator.java:79-83 | each declared key has the kind of its last declaration |
| JavaCodeGen.KeyKindsKeys | codeeditor/src/main/java/com/dynamicduo/proto/codegen/JavaCodeGenerator.java:79-83 | exactly the declared keys are in `keyKinds` |
| JavaCodeGen.GatherKeyKinds | codeeditor/src/main/java/com/dynamicduo/proto/codegen/JavaCodeGenerator.java:79-83 | the declaration loop computes `KeyKinds` |
| JavaCodeGen.SharedKeyNames | codeeditor/src/main/java/com/dynamicduo/proto/codegen/JavaCodeGenerator.java:201-206 | an AES key is made exactly for each key declared SHARED |
| JavaCodeGen.KeysAreUsed | codeeditor/src/main/java/com/dynamicduo/proto/codegen/JavaCodeGenerator.java:494-511 | every key name used in an expression is among its used identifiers |
| JavaCodeGen.CollectSymbols | codeeditor/src/main/java/com/dynamicduo/proto/codegen/JavaCodeGenerator.java:486-513 | `usedIds` gains exactly the bare identifiers and key names, `assignedIds` exactly the targets; both keep order and stay duplicate-free |
| JavaCodeGen.CollectAllSymbols | codeeditor/src/main/java/com/dynamicduo/proto/codegen/JavaCodeGenerator.java:242-246 | the loop over the messages collects the used identifiers and targets of all bodies, duplicate-free |
| JavaCodeGen.PlaintextSymbols | codeeditor/src/main/java/com/dynamicduo/proto/codegen/JavaCodeGenerator.java:248-252 | the plaintext symbols are the used identifiers that are not targets, declared keys or roles, duplicate-free and in their order in `usedIds` |
| JavaCodeGen.SubsequencePositions | codeeditor/src/main/java/com/dynamicduo/proto/codegen/JavaCodeGenerator.java:248-252 | a subsequence, as the plaintext symbols are of `usedIds`, sits at strictly increasing positions of its source |
| JavaCodeGen.CollectKeyUsage | codeeditor/src/main/java/com/dynamicduo/proto/codegen/JavaCodeGenerator.java:397-430 | the three usage lists only grow and stay duplicate-free |
| JavaCodeGen.CollectKeyUsageElems | codeeditor/src/main/java/com/dynamicduo/proto/codegen/JavaCodeGenerator.java:397-430 | verification keys become RSA public, signing keys RSA private, and encryption keys declared PUBLIC ElGamal public; nothing else is added |
| JavaCodeGen.UsageInElems | codeeditor/src/main/java/com/dynamicduo/proto/codegen/JavaCodeGenerator.java:388-394 | over a protocol the usage lists hold exactly those keys, each once |
| JavaCodeGen.AnalyzeKeyUsage | codeeditor/src/main/java/com/dynamicduo/proto/codegen/JavaCodeGenerator.java:388-394 | the loop computes `UsageIn` |
| JavaCodeGen.UsesOfSlots | codeeditor/src/main/java/com/dynamicduo/proto/codegen/JavaCodeGenerator.java:433-481 | a key is marked PK_ENCRYPT exactly when it encrypts and is declared PUBLIC, SIGN when it signs, VERIFY when it verifies |
| JavaCodeGen.MarkKeyUses | codeeditor/src/main/java/com/dynamicduo/proto/codegen/JavaCodeGenerator.java:433-481 | marking keeps the tracked keys |
| JavaCodeGen.MarkKeyUsesAt | codeeditor/src/main/java/com/dynamicduo/proto/codegen/JavaCodeGenerator.java:433-481 | each tracked key gains exactly the uses the expression makes of it |
| JavaCodeGen.UsesInAllSlots | codeeditor/src/main/java/com/dynamicduo/proto/codegen/JavaCodeGenerator.java:433-481 | over a protocol a key's marks are exactly its encrypt (PUBLIC), sign and verify uses |
| JavaCodeGen.MarkAllUses | codeeditor/src/main/java/com/dynamicduo/proto/codegen/JavaCodeGenerator.java:86-92 | step 3 gives every declared key exactly the uses all bodies make of it |
| JavaCodeGen.VarTypesKeys | codeeditor/src/main/java/com/dynamicduo/proto/codegen/JavaCodeGenerator.java:265-270 | exactly the assignment targets are predeclared |
| JavaCodeGen.VarTypesLastAssign | codeeditor/src/main/java/com/dynamicduo/proto/codegen/JavaCodeGenerator.java:265-270 | a variable is boolean exactly when its last assignment is a verification |
| JavaCodeGen.GatherVarTypes | codeeditor/src/main/java/com/dynamicduo/proto/codegen/JavaCodeGenerator.java:265-270 | the loop computes `VarTypes` |
| JavaCodeGen.GenerateExpr | codeeditor/src/main/java/com/dynamicduo/proto/codegen/JavaCodeGenerator.java:517-565 | an identifier becomes its name; every other expression becomes a call or a `getBytes()` ending in `)` |
| JavaCodeGen.EncryptDispatch | codeeditor/src/main/java/com/dynamicduo/proto/codegen/JavaCodeGenerator.java:529-538 | `Enc` emits `elGamalEncrypt` exactly when its key is declared PUBLIC and `encryptAESGCM` otherwise, undeclared keys included |
| JavaCodeGen.GenerateExprFrame | codeeditor/src/main/java/com/dynamicduo/proto/codegen/JavaCodeGenerator.java:517-565 | the emitted code depends on the declarations only through which encryption keys are PUBLIC |
| JavaCodeGen.UndeclaredIsShared | codeeditor/src/main/java/com/dynamicduo/proto/codegen/JavaCodeGenerator.java:532 | declaring a key SHARED or PRIVATE emits the same code as not declaring it |
| JavaCodeGen.Listener | codeeditor/src/main/java/com/dynamicduo/proto/codegen/JavaCodeGenerator.java:146-148 | the listener is the first message's receiver; with no messages the first role, else `Bob` |
| JavaCodeGen.Suffix | codeeditor/src/main/java/com/dynamicduo/proto/codegen/JavaCodeGenerator.java:212 | the suffix drops one leading `pk`, if any |
| JavaCodeGen.RsaPlanSound | codeeditor/src/main/java/com/dynamicduo/proto/codegen/JavaCodeGenerator.java:210-220 | every RSA pair joins a verification key to the signing key `sk`+suffix, which is used, for a suffix not yet paired |
| JavaCodeGen.RsaPlanDistinct | codeeditor/src/main/java/com/dynamicduo/proto/codegen/JavaCodeGenerator.java:210-220 | no suffix gets two RSA pairs |
| JavaCodeGen.RsaPlanComplete | codeeditor/src/main/java/com/dynamicduo/proto/codegen/JavaCodeGenerator.java:210-220 | every verification key whose `sk` counterpart is used gets a pair |
| JavaCodeGen.RsaPairs | codeeditor/src/main/java/com/dynamicduo/proto/codegen/JavaCodeGenerator.java:210-220 | the loop with `rsaPairsDone` computes `RsaPlan` |
| JavaCodeGen.ElGamalPlanSound | codeeditor/src/main/java/com/dynamicduo/proto/codegen/JavaCodeGenerator.java:224-236 | each ElGamal pair is for a new suffix and binds its private half exactly when `sk`+suffix is declared PRIVATE |
| JavaCodeGen.ElGamalPlanDistinct | codeeditor/src/main/java/com/dynamicduo/proto/codegen/JavaCodeGenerator.java:224-236 | no suffix gets two ElGamal pairs |
| JavaCodeGen.ElGamalPlanComplete | codeeditor/src/main/java/com/dynamicduo/proto/codegen/JavaCodeGenerator.java:224-236 | every ElGamal key's suffix gets a pair |
| JavaCodeGen.ElGamalPairs | codeeditor/src/main/java/com/dynamicduo/proto/codegen/JavaCodeGenerator.java:224-236 | the loop with `elgPairsDone` computes `ElGamalPlan` |
| JavaCodeGen.ElGamalPairUsed | codeeditor/src/main/java/com/dynamicduo/proto/codegen/JavaCodeGenerator.java:224-236 | every ElGamal pair is for a key some body encrypts under and that is declared PUBLIC |
| JavaCodeGen.ElGamalPairMade | codeeditor/src/main/java/com/dynamicduo/proto/codegen/JavaCodeGenerator.java:224-236 | every PUBLIC key some body encrypts under gets an ElGamal pair |
| SequenceDiagram.LabelFor | codeeditor/src/main/java/com/dynamicduo/proto/render/SequenceDiagramFromAst.java:100-109 | anything but an assignment is shown by its own `label()`, an encryption included |
| SequenceDiagram.Assigned | codeeditor/src/main/java/com/dynamicduo/proto/render/SequenceDiagramFromAst.java:101-103 | the value under a chain of assignments is not an assignment |
| SequenceDiagram.LabelForUnwraps | codeeditor/src/main/java/com/dynamicduo/proto/render/SequenceDiagramFromAst.java:100-109 | an arrow label is every assignment target, then the label of the value finally assigned |
| SequenceDiagram.RenderTwoParty | codeeditor/src/main/java/com/dynamicduo/proto/render/SequenceDiagramFromAst.java:58-86 | fails exactly unless there are two roles, with the source's message; otherwise p1, p2 are the roles, the count is messages + 1, and entry i is message i's label and sender |
| DotBuilder.LabelFor | codeeditor/src/main/java/com/dynamicduo/proto/render/DotBuilder.java:107-115 | anything but an assignment or encryption is shown by its own `label()` |
| DotBuilder.LabelsAgree | codeeditor/src/main/java/com/dynamicduo/proto/render/DotBuilder.java:107-115 | the DOT and the sequence-diagram labels differ exactly when the value finally assigned is `Enc(k, m)` with `m` an identifier, where DOT shows the name and the diagram `Id(m)`; for every other shape they agree |
| DotBuilder.EscapeIsPerChar | codeeditor/src/main/java/com/dynamicduo/proto/render/DotBuilder.java:117-119 | the two `replace` passes in order escape each backslash and quote on its own |
| DotBuilder.UnescapeEscape | codeeditor/src/main/java/com/dynamicduo/proto/render/DotBuilder.java:117-119 | escaping loses nothing: reading the DOT string back gives the original |
| DotBuilder.EscapeOrderMatters | codeeditor/src/main/java/com/dynamicduo/proto/render/DotBuilder.java:118 | the passes in the other order would mis-escape a quote |
| DotBuilder.ReplaceNonId | codeeditor/src/main/java/com/dynamicduo/proto/render/DotBuilder.java:130 | every character outside `[A-Za-z0-9_]` becomes `_`, length kept |
| DotBuilder.Sanitize | codeeditor/src/main/java/com/dynamicduo/proto/render/DotBuilder.java:129-132 | the empty name becomes `Role`; any other keeps its length with every non-identifier character replaced |
| DotBuilder.SanitizeIdempotent | codeeditor/src/main/java/com/dynamicduo/proto/render/DotBuilder.java:129-132 | a sanitized name is a non-empty identifier that sanitizing again leaves alone |
| DotBuilder.SanitizeKeepsIdentifiers | codeeditor/src/main/java/com/dynamicduo/proto/render/DotBuilder.java:129-132 | a name that already is an identifier is kept |
| DotBuilder.DistinctRolesShareHeader | codeeditor/src/main/java/com/dynamicduo/proto/render/DotBuilder.java:129-132 | two different roles can share a header id |
| DotBuilder.HeaderId | codeeditor/src/main/java/com/dynamicduo/proto/render/DotBuilder.java:121-123 | header ids start `hdr_` |
| DotBuilder.PointId | codeeditor/src/main/java/com/dynamicduo/proto/render/DotBuilder.java:125-127 | point ids start `pt_` |
| DotBuilder.HeaderIsNotPoint | codeeditor/src/main/java/com/dynamicduo/proto/render/DotBuilder.java:121-127 | a header id never equals a point id |
| DotBuilder.HeaderNodes | codeeditor/src/main/java/com/dynamicduo/proto/render/DotBuilder.java:52-56 | one header box per role in order, labelled with the escaped name |
| DotBuilder.PointRow | codeeditor/src/main/java/com/dynamicduo/proto/render/DotBuilder.java:61-64 | one point per role on a row |
| DotBuilder.PointNodesCount | codeeditor/src/main/java/com/dynamicduo/proto/render/DotBuilder.java:60-65 | there are roles × messages points |
| DotBuilder.PointNodeAt | codeeditor/src/main/java/com/dynamicduo/proto/render/DotBuilder.java:60-65 | the point of role j on row r is the (r·|roles| + j)-th |
| DotBuilder.Ranks | codeeditor/src/main/java/com/dynamicduo/proto/render/DotBuilder.java:69-77 | one `rank=same` group for the headers, then one per row |
| DotBuilder.InvisLinks | codeeditor/src/main/java/com/dynamicduo/proto/render/DotBuilder.java:81-85 | one invisible header-to-row-0 link per role, even without messages |
| DotBuilder.Edges | codeeditor/src/main/java/com/dynamicduo/proto/render/DotBuilder.java:89-99 | one edge per message i from the sender's to the receiver's row-i point, with the escaped label |
| DotBuilder.DotText | codeeditor/src/main/java/com/dynamicduo/proto/render/DotBuilder.java:45-101 | the text starts with the graph header and ends with the closing brace |
| DotBuilder.HeaderSection | codeeditor/src/main/java/com/dynamicduo/proto/render/DotBuilder.java:52-57 | the header loop writes the lines of `HeaderNodes` |
| DotBuilder.RowPoints | codeeditor/src/main/java/com/dynamicduo/proto/render/DotBuilder.java:61-64 | the inner loop writes the lines of one row |
| DotBuilder.PointSection | codeeditor/src/main/java/com/dynamicduo/proto/render/DotBuilder.java:60-66 | the nested loops write the lines of `PointNodes` |
| DotBuilder.RankLine | codeeditor/src/main/java/com/dynamicduo/proto/render/DotBuilder.java:69-76 | a rank line lists its ids each followed by a space |
| DotBuilder.RankSection | codeeditor/src/main/java/com/dynamicduo/proto/render/DotBuilder.java:69-78 | the rank loops write the lines of `Ranks` |
| DotBuilder.LinkSection | codeeditor/src/main/java/com/dynamicduo/proto/render/DotBuilder.java:81-86 | the link loop writes the lines of `InvisLinks` |
| DotBuilder.EdgeSection | codeeditor/src/main/java/com/dynamicduo/proto/render/DotBuilder.java:89-99 | the message loop writes the lines of `Edges` |
| DotBuilder.BuildDot | codeeditor/src/main/java/com/dynamicduo/proto/render/DotBuilder.java:33-103 | `buildDot` returns `DotText` of the roles and messages |
| Svg.WrapLabel | codeeditor/src/main/java/com/dynamicduo/proto/render/SVG.java:109-121 | `wrapLabel` returns `Wrapped`: the split words, wrapped, trimmed (width 75 here, 100 in the other copy) |
| Svg.WrapWords | codeeditor/src/main/java/com/dynamicduo/proto/render/SVG.java:110-119 | the loop with its running `count` builds `Wrap` of the words |
| Svg.WrapMarks | codeeditor/src/main/java/com/dynamicduo/proto/render/SVG.java:110-119 | for any words and widths the wrapped text is every word in input order followed by one space, with a marker before some words; before the first exactly when it would pass the width |
| Svg.UnmarkedIsSpaced | codeeditor/src/main/java/com/dynamicduo/proto/render/SVG.java:117-118 | without markers that text is the words each followed by one space |
| Svg.WrapFits | codeeditor/src/main/java/com/dynamicduo/proto/render/SVG.java:113-118 | when everything fits, no marker is written and each word is followed by one space |
| Svg.SplitSpaces | codeeditor/src/main/java/com/dynamicduo/proto/render/SVG.java:112 | the words joined by single spaces give the text less only trailing spaces |
| Svg.FittingLabelIsTrimmed | codeeditor/src/main/java/com/dynamicduo/proto/render/SVG.java:109-121 | a label no longer than the width comes back only trimmed |
| Svg.LongFirstWordMarked | codeeditor/src/main/java/com/dynamicduo/proto/render/SVG.java:113-120 | a first word longer than the width is still preceded by the `\n` marker, which `trim` keeps |
| Svg.NodeName | codeeditor/src/main/java/com/dynamicduo/proto/render/SVG.java:36-56 | row 0 is named after the principal; row i > 0 is `A`/`B` followed by i + 1 |
| Svg.SlotsDisjoint | codeeditor/src/main/java/com/dynamicduo/proto/render/SVG.java:69-90 | the slots (left i, right i+n−1, arrow i+2n−1, header 2n−2) lie inside the 3n−2 array and never share an index |
| Svg.SlotsCover | codeeditor/src/main/java/com/dynamicduo/proto/render/SVG.java:69-90 | every index of the links array is some slot |
| Svg.ArrowDirection | codeeditor/src/main/java/com/dynamicduo/proto/render/SVG.java:80-85 | arrow i runs left to right exactly when `passer[i]` is p1, between row i + 1's nodes, with the wrapped label |
| Svg.Columns | codeeditor/src/main/java/com/dynamicduo/proto/render/SVG.java:32-56 | the two node arrays have n entries named by `NodeName` |
| Svg.Links | codeeditor/src/main/java/com/dynamicduo/proto/render/SVG.java:69-90 | the links array has 3n−2 entries, each the link of its slot |
| Svg.SlotLinks | codeeditor/src/main/java/com/dynamicduo/proto/render/SVG.java:72-90 | after the loop and the header write, every index holds its slot's link |
| Svg.Layout | codeeditor/src/main/java/com/dynamicduo/SVG.java:10-56 | fails (an exception in Java) exactly for zero rows or too few labels or senders; otherwise both columns and the links array as above |
| Crypto.Part | codeeditor/src/main/java/com/dynamicduo/proto/codegen/CryptoUtil.java:195-196 | a null part contributes nothing |
| Crypto.JoinedLength | codeeditor/src/main/java/com/dynamicduo/proto/codegen/CryptoUtil.java:192-207 | the joined bytes are exactly as many as the summed length of the non-null parts |
| Crypto.JoinedNulls | codeeditor/src/main/java/com/dynamicduo/proto/codegen/CryptoUtil.java:192-207 | with no parts, or only null parts, the result is empty |
| Crypto.JoinedSkipsNull | codeeditor/src/main/java/com/dynamicduo/proto/codegen/CryptoUtil.java:195-202 | a null part changes nothing, wherever it stands |
| Crypto.JoinedAppend | codeeditor/src/main/java/com/dynamicduo/proto/codegen/CryptoUtil.java:200-206 | joining two lists of parts joins their bytes |
| Crypto.Concat | codeeditor/src/main/java/com/dynamicduo/proto/codegen/CryptoUtil.java:192-208 | a fresh array of the summed length holding the non-null parts in argument order |
| Crypto.Total | codeeditor/src/main/java/com/dynamicduo/proto/codegen/CryptoUtil.java:193-198 | the first loop sums the lengths of the non-null parts |
| Crypto.CopyParts | codeeditor/src/main/java/com/dynamicduo/proto/codegen/CryptoUtil.java:200-206 | the second loop copies each non-null part behind the previous one |
| Crypto.ArrayCopy | codeeditor/src/main/java/com/dynamicduo/proto/codegen/CryptoUtil.java:203 | `arraycopy` writes the source at the position and keeps the rest |
| Crypto.Frame | codeeditor/src/main/java/com/dynamicduo/proto/codegen/CryptoUtil.java:69-72 | the output is the 12-byte IV followed by the cipher output |
| Crypto.UnframeFrame | codeeditor/src/main/java/com/dynamicduo/proto/codegen/CryptoUtil.java:79-84 | splitting a frame gives its IV and cipher output back, unless the output is empty |
| Crypto.FrameUnframe | codeeditor/src/main/java/com/dynamicduo/proto/codegen/CryptoUtil.java:79-84 | exactly inputs of at least 13 bytes split, and what splits frames back to the input |
| Crypto.EncryptAesGcm | codeeditor/src/main/java/com/dynamicduo/proto/codegen/CryptoUtil.java:58-73 | a fresh array holding the IV, then the cipher output |
| Crypto.CopyOfRange | codeeditor/src/main/java/com/dynamicduo/proto/codegen/CryptoUtil.java:83-84 | `copyOfRange` gives the bytes between the bounds |
| Crypto.DecryptAesGcm | codeeditor/src/main/java/com/dynamicduo/proto/codegen/CryptoUtil.java:78-91 | inputs shorter than 13 bytes fail with the source's message; otherwise the cipher gets the first 12 bytes as IV and the rest |
| Crypto.DecryptEncrypt | codeeditor/src/main/java/com/dynamicduo/proto/codegen/CryptoUtil.java:58-91 | decryption undoes encryption whenever the cipher does |

## Left out

- `GUI.java`, `Demo.java`, `SvgRenderer.java` and `MessageJsonUtil.java` are not part of this model: they handle user interface, demonstration and JSON I/O, and none of the analysis.
- The ciphers themselves are not modelled: AES-GCM, RSA, ElGamal, HMAC, SHA-256 and key generation in `CryptoUtil` are parameters (`Seal`/`Open`) or left out. `Crypto.DecryptEncrypt` assumes only that the cipher decrypts what it encrypts.
- `SecureRandom` is not modelled: the 12-byte IV is a parameter of `Crypto.EncryptAesGcm`. The GCM tag length is a constant and is not checked by the model.
- Graphviz is not modelled: the graph built and rendered in `renderTwoParty`, and the file writing of `DotBuilder.buildAndWrite`, are outside the model. The model covers only the checks and the arrays passed to it.
- The fixed boilerplate text that `JavaCodeGenerator.fromProtocol` writes around its decisions is not modelled. Neither is the printing to standard output in `KnowledgeAnalyzer.analyzeAndPrint` and `analyzeToString`: the analysis result is returned as values.
- The insertion order of the analyzer's `LinkedHashMap`/`LinkedHashSet` is not modelled, because the analyzer's results do not depend on it. Knowledge is kept as sets, and the fixed-point loop is proved to give the same result whatever order it scans in. The code generator's ordered sets are kept as duplicate-free sequences.
- Lexer.IdentEnd: `Character.isLetter` and `isLetterOrDigit` are modelled for ASCII only, so non-ASCII letters become one-character unknown tokens in the model.
- Lexer.UnknownCharacter: the model works on characters, while `peek` and `advance` read UTF-16 units with `charAt`. A character outside the Basic Multilingual Plane is therefore one IDENTIFIER token here but two one-unit tokens in Java. On `Alice -> Bob : Enc(K, 😀)` the Java parser fails, because it finds the second surrogate where it expects `)`, while the model parses the line.
- Svg.WrapLabel: word lengths are counted in characters, while `word.length()` counts UTF-16 units. A word holding a character outside the Basic Multilingual Plane is therefore shorter in the model and may wrap later than in Java.
- JavaCodeGen.MarkAllUses: the `uses` map is computed, but no later code in the generator reads it. Its contents are modelled, and nothing about its effect is.
- Svg.Layout: only the `ArrayIndexOutOfBoundsException` is modelled, as `None`. Java throws it for zero rows at `nodesA[0]` (SVG.java:20), and for `passer` or `messages` arrays that are too short (SVG.java:48-52). For that case the model says only that it occurs. A `null` entry in `passer` or `messages` is excluded by the types, because `seq<string>` has no null. So the `NullPointerException` that Java throws at `passer[i].equals(p1)` (SVG.java:48), or at `text.split` inside `wrapLabel` (SVG.java:76), is not modelled. A negative `numNodes` is excluded by the `nat` type too, so the `NegativeArraySizeException` at SVG.java:12 is not modelled either.
- Crypto.Concat: lengths are unbounded, so the overflow of the Java `int` total for parts longer than 2^31 − 1 bytes in all is not modelled. Neither is a `null` varargs array (as opposed to `null` parts).
- Crypto.DecryptAesGcm: a cipher failure (a wrong tag) is whatever the `Open` parameter returns. The model does not say when it fails.
- JavaCodeGen.GenerateExpr: the emitted call text is modelled up to its shape and its dispatch. The exact formatting of the argument lists is in the body and is not restated as a contract.
