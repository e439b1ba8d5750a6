/** The protocol syntax tree: every node kind with its `label()` and `children()`. */
module Ast {
  import opened JavaStrings

  /** Kind of a declared key. */
  datatype KeyKind = SHARED | PUBLIC | PRIVATE

  /** One syntax-tree node. Identifier-valued fields (keys, targets, sender and receiver,
      role names) hold the identifier's name; `Children` re-wraps them as `Identifier` nodes
      where the source exposes them as children. */
  datatype Node =
    | Identifier(name: string)
    | Encrypt(key: string, message: Node)
    | Mac(key: string, message: Node)
    | Hash(inner: Node)
    | Sign(sk: string, message: Node)
    | Verify(pk: string, message: Node, signature: Node)
    | Concat(left: Node, right: Node)
    | Assign(target: string, value: Node)
    | MessageSend(sender: string, receiver: string, body: Node)
    | RoleDecl(roles: seq<string>)
    | Protocol(roles: seq<string>, messages: seq<Node>)
    | KeyDecl(kind: KeyKind, keyName: string, owners: seq<string>)

  /** A `MessageSendNode`. */
  type Message = n: Node | n.MessageSend? witness MessageSend("", "", Identifier(""))

  /** A `ProtocolNode`: its message list only ever holds message sends. */
  type ProtocolTree = n: Node | n.Protocol? && forall i :: 0 <= i < |n.messages| ==> n.messages[i].MessageSend?
    witness Protocol([], [])

  /** A `KeyDeclNode`. */
  type KeyDeclaration = n: Node | n.KeyDecl? witness KeyDecl(SHARED, "", [])

  /** The one-line label each node kind prints. */
  function Label(n: Node): string {
    match n
    case Identifier(name) => "Id(" + name + ")"
    case Encrypt(k, m) => "Enc(" + k + ", " + Label(m) + ")"
    case Mac(k, m) => "Mac(" + k + ", " + Label(m) + ")"
    case Hash(_) => "H(...)"
    case Sign(sk, _) => "Sign(" + sk + ", ...)"
    case Verify(pk, m, s) => "Verify(" + pk + ", " + Label(m) + ", " + Label(s) + ")"
    case Concat(_, _) => "Concat"
    case Assign(t, _) => "Assign(" + t + " = ...)"
    case MessageSend(s, r, _) => "MessageSend(" + s + " -> " + r + ")"
    case RoleDecl(rs) => "Roles: [" + Join(rs, ", ") + "]"
    case Protocol(_, _) => "Protocol"
    case KeyDecl(_, name, _) => name
  }

  /** The children each node kind exposes for tree printing; leaves inherit the empty list. */
  function Children(n: Node): seq<Node> {
    match n
    case Encrypt(k, m) => [Identifier(k), m]
    case Mac(k, m) => [Identifier(k), m]
    case Hash(i) => [i]
    case Sign(sk, m) => [Identifier(sk), m]
    case Verify(pk, m, s) => [Identifier(pk), m, s]
    case Concat(l, r) => [l, r]
    case Assign(_, v) => [v]
    case MessageSend(_, _, b) => [b]
    case Protocol(rs, ms) => [RoleDecl(rs)] + ms
    case _ => []
  }

  /** Number of nodes reachable through `Children`, the node itself included. */
  function Size(n: Node): (s: nat)
    ensures s >= 1
    decreases n
  {
    match n
    case Encrypt(_, m) => 2 + Size(m)
    case Mac(_, m) => 2 + Size(m)
    case Hash(i) => 1 + Size(i)
    case Sign(_, m) => 2 + Size(m)
    case Verify(_, m, s) => 2 + Size(m) + Size(s)
    case Concat(l, r) => 1 + Size(l) + Size(r)
    case Assign(_, v) => 1 + Size(v)
    case MessageSend(_, _, b) => 1 + Size(b)
    case Protocol(_, ms) => 2 + SizeAll(ms)
    case _ => 1
  }

  function SizeAll(ns: seq<Node>): nat
    decreases ns
  {
    if |ns| == 0 then 0 else Size(ns[0]) + SizeAll(ns[1..])
  }

  lemma {:induction false} SizeAllAppend(xs: seq<Node>, ys: seq<Node>)
    ensures SizeAll(xs + ys) == SizeAll(xs) + SizeAll(ys)
    decreases |xs|
  {
    if |xs| == 0 {
      assert xs + ys == ys;
    } else {
      assert (xs + ys)[1..] == xs[1..] + ys;
      SizeAllAppend(xs[1..], ys);
    }
  }

  /** A node's subtree is itself plus the subtrees of its children. */
  lemma {:induction false} SizeChildren(n: Node)
    ensures Size(n) == 1 + SizeAll(Children(n))
  {
    match n
    case Protocol(rs, ms) =>
      SizeAllAppend([RoleDecl(rs)], ms);
    case Verify(pk, m, s) =>
      SizePair(m, s);
      assert Children(n) == [Identifier(pk)] + [m, s];
      SizeAllAppend([Identifier(pk)], [m, s]);
    case Encrypt(k, m) => SizePair(Identifier(k), m);
    case Mac(k, m) => SizePair(Identifier(k), m);
    case Sign(sk, m) => SizePair(Identifier(sk), m);
    case Concat(l, r) => SizePair(l, r);
    case _ =>
  }

  lemma {:induction false} SizePair(a: Node, b: Node)
    ensures SizeAll([a, b]) == Size(a) + Size(b)
  {
    assert [a, b][1..] == [b];
    assert [b][1..] == [];
    assert SizeAll([b]) == Size(b) + SizeAll([]);
  }

  /** Every node but a key declaration prints a non-empty label with no surrounding blanks. */
  lemma {:induction false} LabelTrimmed(n: Node)
    requires !n.KeyDecl?
    ensures |Label(n)| > 0 && IsTrimmed(Label(n))
  {
    var l := Label(n);
    assert l[|l| - 1] == ')' || l[|l| - 1] == ']' || l[|l| - 1] == 't' || l[|l| - 1] == 'l';
  }

  /** Mutable `RoleDeclNode`: the parser appends one role at a time. */
  class RoleDeclNode {
    var roles: seq<string>

    constructor()
      ensures roles == []
    {
      roles := [];
    }

    method AddRole(name: string)
      modifies this
      ensures roles == old(roles) + [name]
    {
      roles := roles + [name];
    }

    function Value(): (n: Node)
      reads this
      ensures n.RoleDecl? && n.roles == roles
    {
      RoleDecl(roles)
    }
  }

  /** Mutable `ProtocolNode`: a fixed role declaration and a growing list of message sends. */
  class ProtocolNode {
    const roleDecl: RoleDeclNode
    var messages: seq<Message>

    constructor(roles: RoleDeclNode)
      ensures roleDecl == roles && messages == []
    {
      roleDecl := roles;
      messages := [];
    }

    method AddMessage(m: Message)
      modifies this
      ensures messages == old(messages) + [m]
    {
      messages := messages + [m];
    }

    function Value(): (p: ProtocolTree)
      reads this, roleDecl
      ensures p.roles == roleDecl.roles && p.messages == messages
    {
      Protocol(roleDecl.roles, messages)
    }
  }
}
