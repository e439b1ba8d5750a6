/** `SyntaxNode.pretty()`: the indented tree drawing of a syntax tree. */
module TreePrinter {
  import opened Ast

  function Connector(last: bool): string {
    if last then "└─ " else "├─ "
  }

  function Continuation(last: bool): string {
    if last then "   " else "│  "
  }

  /** `buildPretty(sb, indent, last)`: the text appended for `n` and its descendants. */
  function BuildPretty(n: Node, indent: string, last: bool): string
    decreases Size(n), 0
  {
    SizeChildren(n);
    indent + Connector(last) + Label(n) + "\n" + BuildChildren(Children(n), indent + Continuation(last))
  }

  /** The loop over the children: only the final child is drawn as the last one. */
  function BuildChildren(kids: seq<Node>, indent: string): string
    decreases SizeAll(kids), 1
  {
    if |kids| == 0 then "" else BuildPretty(kids[0], indent, |kids| == 1) + BuildChildren(kids[1..], indent)
  }

  /** `pretty()` */
  function Pretty(n: Node): string {
    BuildPretty(n, "", true)
  }

  /** The nodes of a tree in pre-order (a node before its children, children left to right). */
  function Preorder(n: Node): seq<Node>
    decreases Size(n), 0
  {
    SizeChildren(n);
    [n] + PreorderAll(Children(n))
  }

  function PreorderAll(kids: seq<Node>): seq<Node>
    decreases SizeAll(kids), 1
  {
    if |kids| == 0 then [] else Preorder(kids[0]) + PreorderAll(kids[1..])
  }

  /** The indentation and connector drawn in front of each node of `Preorder(n)`. */
  function Prefixes(n: Node, indent: string, last: bool): seq<string>
    decreases Size(n), 0
  {
    SizeChildren(n);
    [indent + Connector(last)] + ChildPrefixes(Children(n), indent + Continuation(last))
  }

  function ChildPrefixes(kids: seq<Node>, indent: string): seq<string>
    decreases SizeAll(kids), 1
  {
    if |kids| == 0 then [] else Prefixes(kids[0], indent, |kids| == 1) + ChildPrefixes(kids[1..], indent)
  }

  /** One output line per node: its prefix, its label, a line break. */
  function Lines(prefixes: seq<string>, nodes: seq<Node>): string
    requires |prefixes| == |nodes|
    decreases |nodes|
  {
    if |nodes| == 0 then "" else prefixes[0] + Label(nodes[0]) + "\n" + Lines(prefixes[1..], nodes[1..])
  }

  lemma {:induction false} LinesAppend(p1: seq<string>, n1: seq<Node>, p2: seq<string>, n2: seq<Node>)
    requires |p1| == |n1| && |p2| == |n2|
    ensures Lines(p1 + p2, n1 + n2) == Lines(p1, n1) + Lines(p2, n2)
    decreases |n1|
  {
    if |n1| == 0 {
      assert p1 + p2 == p2 && n1 + n2 == n2;
    } else {
      assert (p1 + p2)[1..] == p1[1..] + p2 && (n1 + n2)[1..] == n1[1..] + n2;
      LinesAppend(p1[1..], n1[1..], p2, n2);
    }
  }

  /** The drawing lists every node of the tree exactly once, in pre-order, each on its own
      line behind its prefix; the tree has as many lines as nodes. */
  lemma {:induction false} PrettyIsPreorder(n: Node, indent: string, last: bool)
    ensures |Prefixes(n, indent, last)| == |Preorder(n)| == Size(n)
    ensures Preorder(n)[0] == n && Prefixes(n, indent, last)[0] == indent + Connector(last)
    ensures BuildPretty(n, indent, last) == Lines(Prefixes(n, indent, last), Preorder(n))
    decreases Size(n), 0
  {
    SizeChildren(n);
    var kids := Children(n);
    var ci := indent + Continuation(last);
    ChildrenArePreorder(kids, ci);
    var p := Prefixes(n, indent, last);
    var o := Preorder(n);
    LinesAppend([indent + Connector(last)], [n], ChildPrefixes(kids, ci), PreorderAll(kids));
  }

  lemma {:induction false} ChildrenArePreorder(kids: seq<Node>, indent: string)
    ensures |ChildPrefixes(kids, indent)| == |PreorderAll(kids)| == SizeAll(kids)
    ensures BuildChildren(kids, indent) == Lines(ChildPrefixes(kids, indent), PreorderAll(kids))
    decreases SizeAll(kids), 1
  {
    if |kids| > 0 {
      PrettyIsPreorder(kids[0], indent, |kids| == 1);
      ChildrenArePreorder(kids[1..], indent);
      LinesAppend(Prefixes(kids[0], indent, |kids| == 1), Preorder(kids[0]),
                  ChildPrefixes(kids[1..], indent), PreorderAll(kids[1..]));
    }
  }

  /** Every line of the drawing starts with the caller's indentation, is deeper by whole
      three-character steps, and ends with one of the two connectors. */
  predicate WellIndented(p: string, indent: string) {
    |p| >= |indent| + 3 && p[..|indent|] == indent && (|p| - |indent|) % 3 == 0
    && (p[|p| - 3..] == Connector(true) || p[|p| - 3..] == Connector(false))
  }

  lemma {:induction false} PrefixesWellIndented(n: Node, indent: string, last: bool)
    ensures forall i :: 0 <= i < |Prefixes(n, indent, last)| ==> WellIndented(Prefixes(n, indent, last)[i], indent)
    decreases Size(n), 0
  {
    SizeChildren(n);
    var ci := indent + Continuation(last);
    ChildPrefixesWellIndented(Children(n), ci);
    var cs := ChildPrefixes(Children(n), ci);
    forall i | 0 <= i < |cs|
      ensures WellIndented(cs[i], indent)
    {
      assert WellIndented(cs[i], ci);
      assert cs[i][..|indent|] == ci[..|indent|];
    }
  }

  lemma {:induction false} ChildPrefixesWellIndented(kids: seq<Node>, indent: string)
    ensures forall i :: 0 <= i < |ChildPrefixes(kids, indent)| ==> WellIndented(ChildPrefixes(kids, indent)[i], indent)
    decreases SizeAll(kids), 1
  {
    if |kids| > 0 {
      PrefixesWellIndented(kids[0], indent, |kids| == 1);
      ChildPrefixesWellIndented(kids[1..], indent);
    }
  }
}
