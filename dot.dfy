/** The Graphviz DOT text of a protocol: role boxes across the top, one row of invisible
    points per message, and one labelled arrow per message. */
module DotBuilder {
  import opened JavaStrings
  import opened Ast
  import SequenceDiagram

  // ---------------------------------------------------------------------------------
  // Labels
  // ---------------------------------------------------------------------------------

  /** The name a message expression is shown by inside `Enc(...)`: an identifier's own
      name, any other expression its label. */
  function NameOf(n: Node): string {
    if n.Identifier? then n.name else Label(n)
  }

  /** The arrow label: assignments show their target; an encryption shows its key and the
      bare name of its message; anything else its label. */
  function LabelFor(n: Node): (s: string)
    ensures !n.Assign? && !n.Encrypt? ==> s == Label(n)
    decreases n
  {
    match n
    case Assign(t, v) => t + " = " + LabelFor(v)
    case Encrypt(k, m) => "Enc(" + k + ", " + NameOf(m) + ")"
    case _ => Label(n)
  }

  /** The DOT arrow label and the sequence-diagram arrow label agree exactly when what is
      finally assigned is not an encryption of a bare identifier; for that one shape the
      DOT label shows `M` where the diagram shows `Id(M)`. */
  lemma {:induction false} LabelsAgree(n: Node)
    ensures LabelFor(n) == SequenceDiagram.LabelFor(n)
      <==> !(SequenceDiagram.Assigned(n).Encrypt? && SequenceDiagram.Assigned(n).message.Identifier?)
    decreases n
  {
    match n
    case Assign(t, v) =>
      LabelsAgree(v);
      var a, b := LabelFor(v), SequenceDiagram.LabelFor(v);
      if a != b {
        var p := t + " = ";
        assert (p + a)[|p|..] == a && (p + b)[|p|..] == b;
      }
    case Encrypt(k, m) =>
      if m.Identifier? {
        var p := "Enc(" + k + ", ";
        assert |LabelFor(n)| < |SequenceDiagram.LabelFor(n)|;
      }
    case _ =>
  }

  // ---------------------------------------------------------------------------------
  // escape
  // ---------------------------------------------------------------------------------

  /** `s.replace(c, rep)` for a one-character target. */
  function ReplaceChar(s: string, c: char, rep: string): (r: string)
    ensures c !in s ==> r == s
    decreases |s|
  {
    if |s| == 0 then ""
    else (if s[0] == c then rep else [s[0]]) + ReplaceChar(s[1..], c, rep)
  }

  lemma {:induction false} ReplaceCharAppend(a: string, b: string, c: char, rep: string)
    ensures ReplaceChar(a + b, c, rep) == ReplaceChar(a, c, rep) + ReplaceChar(b, c, rep)
    decreases |a|
  {
    if |a| == 0 {
      assert a + b == b;
    } else {
      assert (a + b)[0] == a[0] && (a + b)[1..] == a[1..] + b;
      ReplaceCharAppend(a[1..], b, c, rep);
    }
  }

  const BACKSLASH: char := '\\'
  const QUOTE: char := '"'

  /** `escape`: backslashes doubled first, then double quotes backslash-escaped. */
  function Escape(s: string): string {
    ReplaceChar(ReplaceChar(s, BACKSLASH, "\\\\"), QUOTE, "\\\"")
  }

  /** The escape of one character. */
  function EscapeChar(c: char): (r: string)
    ensures r == (if c == BACKSLASH || c == QUOTE then [BACKSLASH, c] else [c])
  {
    if c == BACKSLASH then "\\\\" else if c == QUOTE then "\\\"" else [c]
  }

  /** Escaping character by character. */
  function EscapeEach(s: string): string
    decreases |s|
  {
    if |s| == 0 then "" else EscapeChar(s[0]) + EscapeEach(s[1..])
  }

  /** The two `replace` passes, in that order, escape each character on its own. */
  lemma {:induction false} EscapeIsPerChar(s: string)
    ensures Escape(s) == EscapeEach(s)
    decreases |s|
  {
    if |s| > 0 {
      var head := if s[0] == BACKSLASH then "\\\\" else [s[0]];
      assert ReplaceChar(s, BACKSLASH, "\\\\") == head + ReplaceChar(s[1..], BACKSLASH, "\\\\");
      ReplaceCharAppend(head, ReplaceChar(s[1..], BACKSLASH, "\\\\"), QUOTE, "\\\"");
      EscapeIsPerChar(s[1..]);
      if s[0] == BACKSLASH {
        assert QUOTE !in head;
      } else if s[0] == QUOTE {
        assert ReplaceChar(head, QUOTE, "\\\"") == "\\\"" + ReplaceChar("", QUOTE, "\\\"");
      } else {
        assert ReplaceChar(head, QUOTE, "\\\"") == [s[0]] + ReplaceChar("", QUOTE, "\\\"");
      }
    }
  }

  /** Reading DOT string text back: a backslash stands for the character after it. */
  function Unescape(s: string): string
    decreases |s|
  {
    if |s| == 0 then ""
    else if s[0] == BACKSLASH && |s| >= 2 then [s[1]] + Unescape(s[2..])
    else [s[0]] + Unescape(s[1..])
  }

  /** Escaping loses nothing: the DOT reader recovers the original text. */
  lemma {:induction false} UnescapeEscape(s: string)
    ensures Unescape(Escape(s)) == s
  {
    EscapeIsPerChar(s);
    UnescapeEach(s);
  }

  lemma {:induction false} UnescapeEach(s: string)
    ensures Unescape(EscapeEach(s)) == s
    decreases |s|
  {
    if |s| > 0 {
      var e := EscapeEach(s);
      var head := EscapeChar(s[0]);
      UnescapeEach(s[1..]);
      if s[0] == BACKSLASH || s[0] == QUOTE {
        assert e[0] == BACKSLASH && e[1] == s[0] && e[2..] == EscapeEach(s[1..]);
      } else {
        assert e[0] == s[0] && e[1..] == EscapeEach(s[1..]);
      }
    }
  }

  /** Quoting first and doubling backslashes second would double the backslash that
      escapes a quote. */
  lemma {:induction false} EscapeOrderMatters()
    ensures ReplaceChar(ReplaceChar("\"", QUOTE, "\\\""), BACKSLASH, "\\\\") != Escape("\"")
  {
    assert ReplaceChar("\"", QUOTE, "\\\"") == "\\\"" + ReplaceChar("", QUOTE, "\\\"");
    var once := "\\\"";
    assert ReplaceChar(once, BACKSLASH, "\\\\") == "\\\\" + ReplaceChar(once[1..], BACKSLASH, "\\\\");
    assert ReplaceChar(once[1..], BACKSLASH, "\\\\") == once[1..] + ReplaceChar("", BACKSLASH, "\\\\");
    assert ReplaceChar("\"", BACKSLASH, "\\\\") == "\"";
    assert ReplaceChar("\"", QUOTE, "\\\"") == once;
  }

  // ---------------------------------------------------------------------------------
  // Node identifiers
  // ---------------------------------------------------------------------------------

  /** A character the pattern `[A-Za-z0-9_]` accepts. */
  predicate IsIdChar(c: char) {
    'A' <= c <= 'Z' || 'a' <= c <= 'z' || '0' <= c <= '9' || c == '_'
  }

  /** `replaceAll("[^A-Za-z0-9_]", "_")`. */
  function ReplaceNonId(s: string): (r: string)
    ensures |r| == |s|
    ensures forall i :: 0 <= i < |s| ==> r[i] == if IsIdChar(s[i]) then s[i] else '_'
    decreases |s|
  {
    if |s| == 0 then "" else [if IsIdChar(s[0]) then s[0] else '_'] + ReplaceNonId(s[1..])
  }

  /** `sanitize`: a usable DOT identifier, of the same length unless the name is empty. */
  function Sanitize(s: string): (r: string)
    ensures |s| == 0 ==> r == "Role"
    ensures |s| > 0 ==> |r| == |s| && forall i :: 0 <= i < |s| ==> r[i] == if IsIdChar(s[i]) then s[i] else '_'
  {
    var base := ReplaceNonId(s);
    if |base| == 0 then "Role" else base
  }

  /** A sanitized name is a non-empty identifier that sanitizing again leaves alone. */
  lemma {:induction false} SanitizeIdempotent(s: string)
    ensures |Sanitize(s)| > 0 && forall i :: 0 <= i < |Sanitize(s)| ==> IsIdChar(Sanitize(s)[i])
    ensures Sanitize(Sanitize(s)) == Sanitize(s)
  {
    var r := Sanitize(s);
    if |s| == 0 {
      assert forall i :: 0 <= i < |r| ==> IsIdChar(r[i]);
    }
  }

  /** A name that already is a non-empty identifier is its own sanitized form. */
  lemma {:induction false} SanitizeKeepsIdentifiers(s: string)
    requires |s| > 0 && forall i :: 0 <= i < |s| ==> IsIdChar(s[i])
    ensures Sanitize(s) == s
  {
  }

  /** Two different role names can share one node identifier. */
  lemma {:induction false} DistinctRolesShareHeader()
    ensures "A-B" != "A_B" && HeaderId("A-B") == HeaderId("A_B")
  {
    assert !IsIdChar('-');
    assert "A-B"[1] != "A_B"[1];
    assert Sanitize("A-B") == "A_B";
  }

  /** `headerId`. */
  function HeaderId(role: string): (id: string)
    ensures StartsWith(id, "hdr_")
  {
    "hdr_" + Sanitize(role)
  }

  /** `pointId`: the role's point on a row. */
  function PointId(role: string, row: nat): (id: string)
    ensures StartsWith(id, "pt_")
  {
    "pt_" + Sanitize(role) + "_" + NatToString(row)
  }

  /** A header is never mistaken for a point. */
  lemma {:induction false} HeaderIsNotPoint(a: string, b: string, row: nat)
    ensures HeaderId(a) != PointId(b, row)
  {
    assert HeaderId(a)[0] == 'h' && PointId(b, row)[0] == 'p';
  }

  // ---------------------------------------------------------------------------------
  // The statements of the graph
  // ---------------------------------------------------------------------------------

  /** One statement of the DOT text. */
  datatype DotStmt =
    | HeaderNode(id: string, text: string)
    | PointNode(id: string)
    | RankSame(ids: seq<string>)
    | InvisLink(from: string, to: string)
    | Edge(from: string, to: string, text: string)

  /** Each id followed by one space. */
  function Spaced(ids: seq<string>): string
    decreases |ids|
  {
    if |ids| == 0 then "" else Spaced(ids[..|ids| - 1]) + ids[|ids| - 1] + " "
  }

  /** The line a statement is written as. */
  function Render(st: DotStmt): string {
    match st
    case HeaderNode(id, text) => "  " + id + " [label=\"" + text + "\", shape=box, style=rounded];\n"
    case PointNode(id) => "  " + id + " [label=\"\", shape=point, width=0.02, height=0.02];\n"
    case RankSame(ids) => "  { rank=same; " + Spaced(ids) + "}\n"
    case InvisLink(from, to) => "  " + from + " -> " + to + " [style=invis];\n"
    case Edge(from, to, text) => "  " + from + " -> " + to + " [label=\"" + text + "\", constraint=false];\n"
  }

  /** The lines of several statements, one after the other. */
  function Lines(sts: seq<DotStmt>): string {
    ConcatAll(seq(|sts|, i requires 0 <= i < |sts| => Render(sts[i])))
  }

  lemma {:induction false} LinesAppend(a: seq<DotStmt>, b: seq<DotStmt>)
    ensures Lines(a + b) == Lines(a) + Lines(b)
  {
    var ra := seq(|a|, i requires 0 <= i < |a| => Render(a[i]));
    var rb := seq(|b|, i requires 0 <= i < |b| => Render(b[i]));
    assert seq(|a + b|, i requires 0 <= i < |a + b| => Render((a + b)[i])) == ra + rb;
    ConcatAllAppend(ra, rb);
  }

  /** One header box per role, in declaration order, labelled with the escaped name. */
  function HeaderNodes(roles: seq<string>): (sts: seq<DotStmt>)
    ensures |sts| == |roles|
    ensures forall i :: 0 <= i < |roles| ==> sts[i] == HeaderNode(HeaderId(roles[i]), Escape(roles[i]))
  {
    seq(|roles|, i requires 0 <= i < |roles| => HeaderNode(HeaderId(roles[i]), Escape(roles[i])))
  }

  /** The points of one row, one per role. */
  function PointRow(roles: seq<string>, row: nat): (sts: seq<DotStmt>)
    ensures |sts| == |roles|
    ensures forall j :: 0 <= j < |roles| ==> sts[j] == PointNode(PointId(roles[j], row))
  {
    seq(|roles|, j requires 0 <= j < |roles| => PointNode(PointId(roles[j], row)))
  }

  /** The points of the first `rows` rows, row by row. */
  function PointNodes(roles: seq<string>, rows: nat): seq<DotStmt>
    decreases rows
  {
    if rows == 0 then [] else PointNodes(roles, rows - 1) + PointRow(roles, rows - 1)
  }

  /** There are roles × rows points. */
  lemma {:induction false} PointNodesCount(roles: seq<string>, rows: nat)
    ensures |PointNodes(roles, rows)| == rows * |roles|
    decreases rows
  {
    if rows > 0 {
      PointNodesCount(roles, rows - 1);
      assert (rows - 1) * |roles| + |roles| == rows * |roles|;
    }
  }

  lemma {:induction false} RowBound(r: nat, j: nat, rows: nat, n: nat)
    requires r < rows && j < n
    ensures r * n + j < rows * n
  {
    assert r * n + j < r * n + n == (r + 1) * n;
    assert (r + 1) * n <= rows * n by {
      var d := rows - (r + 1);
      assert rows * n == (r + 1) * n + d * n;
    }
  }

  /** The point of role `j` on row `r` is the (r·|roles| + j)-th point. */
  lemma {:induction false} PointNodeAt(roles: seq<string>, rows: nat, r: nat, j: nat)
    requires r < rows && j < |roles|
    ensures r * |roles| + j < |PointNodes(roles, rows)|
    ensures PointNodes(roles, rows)[r * |roles| + j] == PointNode(PointId(roles[j], r))
    decreases rows
  {
    PointNodesCount(roles, rows);
    PointNodesCount(roles, rows - 1);
    RowBound(r, j, rows, |roles|);
    var before := PointNodes(roles, rows - 1);
    if r < rows - 1 {
      PointNodeAt(roles, rows - 1, r, j);
    } else {
      assert r * |roles| + j == |before| + j;
    }
  }

  /** The header ids of the roles. */
  function HeaderIds(roles: seq<string>): seq<string> {
    seq(|roles|, i requires 0 <= i < |roles| => HeaderId(roles[i]))
  }

  /** The point ids of one row. */
  function PointIds(roles: seq<string>, row: nat): seq<string> {
    seq(|roles|, i requires 0 <= i < |roles| => PointId(roles[i], row))
  }

  /** The rank groups: one for the headers, then one per row. */
  function Ranks(roles: seq<string>, rows: nat): (sts: seq<DotStmt>)
    ensures |sts| == rows + 1
    ensures sts[0] == RankSame(HeaderIds(roles))
    ensures forall r :: 0 <= r < rows ==> sts[r + 1] == RankSame(PointIds(roles, r))
    decreases rows
  {
    if rows == 0 then [RankSame(HeaderIds(roles))] else Ranks(roles, rows - 1) + [RankSame(PointIds(roles, rows - 1))]
  }

  /** One invisible link per role from its header to its row-0 point, whatever the number
      of rows. */
  function InvisLinks(roles: seq<string>): (sts: seq<DotStmt>)
    ensures |sts| == |roles|
    ensures forall i :: 0 <= i < |roles| ==> sts[i] == InvisLink(HeaderId(roles[i]), PointId(roles[i], 0))
  {
    seq(|roles|, i requires 0 <= i < |roles| => InvisLink(HeaderId(roles[i]), PointId(roles[i], 0)))
  }

  /** One arrow per message, on its own row, from the sender's point to the receiver's,
      with the escaped label. */
  function Edges(msgs: seq<Message>): (sts: seq<DotStmt>)
    ensures |sts| == |msgs|
    ensures forall i :: 0 <= i < |msgs| ==>
      sts[i] == Edge(PointId(msgs[i].sender, i), PointId(msgs[i].receiver, i), Escape(LabelFor(msgs[i].body)))
  {
    seq(|msgs|, i requires 0 <= i < |msgs| => Edge(PointId(msgs[i].sender, i), PointId(msgs[i].receiver, i), Escape(LabelFor(msgs[i].body))))
  }

  const OPEN := "digraph Protocol {\n"
  const SETTINGS := "  rankdir=TB;\n" + "  splines=polyline;\n" + "  node [fontsize=12];\n" + "  graph [nodesep=0.8, ranksep=0.8];\n\n"
  const CLOSE := "}\n"

  /** The five sections between the settings and the closing brace, each followed by a
      blank line except the last. */
  function Sections(roles: seq<string>, msgs: seq<Message>): string {
    Lines(HeaderNodes(roles)) + "\n" + Lines(PointNodes(roles, |msgs|)) + "\n"
      + Lines(Ranks(roles, |msgs|)) + "\n" + Lines(InvisLinks(roles)) + "\n" + Lines(Edges(msgs))
  }

  lemma {:induction false} Framed(a: string, b: string, c: string)
    ensures StartsWith(a + b + c, a) && EndsWith(a + b + c, c)
  {
    assert (a + b + c)[..|a|] == a;
    assert (a + b + c)[|a + b|..] == c;
  }

  /** The whole DOT text: the graph header and settings, the sections, the closing brace. */
  function DotText(roles: seq<string>, msgs: seq<Message>): (s: string)
    ensures StartsWith(s, OPEN) && EndsWith(s, CLOSE)
  {
    Framed(OPEN, SETTINGS + Sections(roles, msgs), CLOSE);
    OPEN + (SETTINGS + Sections(roles, msgs)) + CLOSE
  }

  // ---------------------------------------------------------------------------------
  // buildDot
  // ---------------------------------------------------------------------------------

  /** Appending the `i`-th statement extends the lines of the first `i`. */
  lemma {:induction false} LinesSnoc(sts: seq<DotStmt>, i: nat)
    requires i < |sts|
    ensures Lines(sts[..i + 1]) == Lines(sts[..i]) + Render(sts[i])
  {
    assert sts[..i + 1] == sts[..i] + [sts[i]];
    LinesAppend(sts[..i], [sts[i]]);
    LinesOne(sts[i]);
  }

  lemma {:induction false} LinesOne(st: DotStmt)
    ensures Lines([st]) == Render(st)
  {
    var rs := seq(|[st]|, i requires 0 <= i < |[st]| => Render([st][i]));
    assert rs == [Render(st)];
    assert ConcatAll(rs) == rs[0] + ConcatAll(rs[1..]);
    assert rs[1..] == [];
    assert ConcatAll(rs[1..]) == "";
  }

  /** Step 1: a box per role. */
  method HeaderSection(roles: seq<string>) returns (sb: string)
    ensures sb == Lines(HeaderNodes(roles))
  {
    sb := "";
    for i := 0 to |roles|
      invariant sb == Lines(HeaderNodes(roles)[..i])
    {
      LinesSnoc(HeaderNodes(roles), i);
      sb := sb + Render(HeaderNode(HeaderId(roles[i]), Escape(roles[i])));
    }
    assert HeaderNodes(roles)[..|roles|] == HeaderNodes(roles);
  }

  /** The points of one row, role by role. */
  method RowPoints(roles: seq<string>, r: nat) returns (sb: string)
    ensures sb == Lines(PointRow(roles, r))
  {
    sb := "";
    for j := 0 to |roles|
      invariant sb == Lines(PointRow(roles, r)[..j])
    {
      LinesSnoc(PointRow(roles, r), j);
      sb := sb + Render(PointNode(PointId(roles[j], r)));
    }
    assert PointRow(roles, r)[..|roles|] == PointRow(roles, r);
  }

  /** Step 2: a point per row and role, row by row. */
  method PointSection(roles: seq<string>, rows: nat) returns (sb: string)
    ensures sb == Lines(PointNodes(roles, rows))
  {
    sb := "";
    for r := 0 to rows
      invariant sb == Lines(PointNodes(roles, r))
    {
      var row := RowPoints(roles, r);
      LinesAppend(PointNodes(roles, r), PointRow(roles, r));
      sb := sb + row;
    }
  }

  /** The `rank=same` line of a list of ids, written id by id. */
  method RankLine(ids: seq<string>) returns (line: string)
    ensures line == Render(RankSame(ids))
  {
    line := "  { rank=same; ";
    for j := 0 to |ids|
      invariant line == "  { rank=same; " + Spaced(ids[..j])
    {
      assert ids[..j + 1][..j] == ids[..j];
      line := line + ids[j] + " ";
    }
    assert ids[..|ids|] == ids;
    line := line + "}\n";
  }

  /** Step 3: the headers' rank group, then one per row. */
  method RankSection(roles: seq<string>, rows: nat) returns (sb: string)
    ensures sb == Lines(Ranks(roles, rows))
  {
    sb := RankLine(HeaderIds(roles));
    LinesOne(RankSame(HeaderIds(roles)));
    for r := 0 to rows
      invariant sb == Lines(Ranks(roles, r))
    {
      var line := RankLine(PointIds(roles, r));
      LinesAppend(Ranks(roles, r), [RankSame(PointIds(roles, r))]);
      LinesOne(RankSame(PointIds(roles, r)));
      sb := sb + line;
    }
  }

  /** Step 4: an invisible link per role. */
  method LinkSection(roles: seq<string>) returns (sb: string)
    ensures sb == Lines(InvisLinks(roles))
  {
    sb := "";
    for i := 0 to |roles|
      invariant sb == Lines(InvisLinks(roles)[..i])
    {
      LinesSnoc(InvisLinks(roles), i);
      sb := sb + Render(InvisLink(HeaderId(roles[i]), PointId(roles[i], 0)));
    }
    assert InvisLinks(roles)[..|roles|] == InvisLinks(roles);
  }

  /** Step 5: an arrow per message. */
  method EdgeSection(msgs: seq<Message>) returns (sb: string)
    ensures sb == Lines(Edges(msgs))
  {
    sb := "";
    for i := 0 to |msgs|
      invariant sb == Lines(Edges(msgs)[..i])
    {
      LinesSnoc(Edges(msgs), i);
      var m := msgs[i];
      sb := sb + Render(Edge(PointId(m.sender, i), PointId(m.receiver, i), Escape(LabelFor(m.body))));
    }
    assert Edges(msgs)[..|msgs|] == Edges(msgs);
  }

  /** `buildDot`: the settings, the five sections in order, and the closing brace. */
  method BuildDot(p: ProtocolTree) returns (dot: string)
    ensures dot == DotText(p.roles, p.messages)
  {
    var roles := p.roles;
    var msgs := p.messages;
    var headers := HeaderSection(roles);
    var points := PointSection(roles, |msgs|);
    var ranks := RankSection(roles, |msgs|);
    var links := LinkSection(roles);
    var edges := EdgeSection(msgs);
    dot := OPEN + (SETTINGS + (headers + "\n" + points + "\n" + ranks + "\n" + links + "\n" + edges)) + CLOSE;
  }
}
