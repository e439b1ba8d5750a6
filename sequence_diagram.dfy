/** The two-party sequence diagram: the arrow labels and senders read off a protocol tree,
    before the drawing is handed to the graph library. */
module SequenceDiagram {
  import opened Wrappers
  import opened JavaStrings
  import opened Ast

  /** The text on an arrow: assignments show their target, an encryption shows its key and
      the label of its message, anything else shows its own label. */
  function LabelFor(n: Node): (s: string)
    ensures !n.Assign? ==> s == Label(n)
    decreases n
  {
    match n
    case Assign(t, v) => t + " = " + LabelFor(v)
    case Encrypt(k, m) => "Enc(" + k + ", " + Label(m) + ")"
    case _ => Label(n)
  }

  /** The targets of a chain of nested assignments, outermost first. */
  function Targets(n: Node): seq<string>
    decreases n
  {
    if n.Assign? then [n.target] + Targets(n.value) else []
  }

  /** What a chain of nested assignments finally assigns. */
  function Assigned(n: Node): (v: Node)
    ensures !v.Assign?
    decreases n
  {
    if n.Assign? then Assigned(n.value) else n
  }

  /** `t1 = t2 = ... = ` for a list of targets. */
  function Lhs(ts: seq<string>): string
    decreases |ts|
  {
    if |ts| == 0 then "" else ts[0] + " = " + Lhs(ts[1..])
  }

  /** An arrow label is every assignment target followed by the ordinary label of the value
      finally assigned. */
  lemma {:induction false} LabelForUnwraps(n: Node)
    ensures LabelFor(n) == Lhs(Targets(n)) + Label(Assigned(n))
    decreases n
  {
    if n.Assign? {
      LabelForUnwraps(n.value);
      var ts := Targets(n);
      assert ts[1..] == Targets(n.value);
    }
  }

  /** What the renderer hands to the drawing: the two lifelines, the number of points on
      each, and per message its label and its sender. */
  datatype Diagram = Diagram(p1: string, p2: string, numNodes: nat, messages: seq<string>, passer: seq<string>)

  const TWO_PARTY_ERROR := "Two-party renderer requires exactly 2 roles, found: "

  /** `renderTwoParty` up to the graph construction: fails unless there are exactly two
      roles; otherwise fills the label and sender arrays, one entry per message. */
  method RenderTwoParty(p: ProtocolTree) returns (r: Result<Diagram, string>)
    ensures r.Failure? <==> |p.roles| != 2
    ensures r.Failure? ==> r.error == TWO_PARTY_ERROR + NatToString(|p.roles|)
    ensures r.Success? ==>
      && r.value.p1 == p.roles[0] && r.value.p2 == p.roles[1]
      && r.value.numNodes == |p.messages| + 1
      && |r.value.messages| == |p.messages| && |r.value.passer| == |p.messages|
      && (forall i :: 0 <= i < |p.messages| ==> r.value.messages[i] == LabelFor(p.messages[i].body))
      && (forall i :: 0 <= i < |p.messages| ==> r.value.passer[i] == p.messages[i].sender)
  {
    var roles := p.roles;
    if |roles| != 2 {
      return Failure(TWO_PARTY_ERROR + NatToString(|roles|));
    }
    var msgs := p.messages;
    var messages := new string[|msgs|];
    var passer := new string[|msgs|];
    for i := 0 to |msgs|
      invariant forall j :: 0 <= j < i ==> messages[j] == LabelFor(msgs[j].body)
      invariant forall j :: 0 <= j < i ==> passer[j] == msgs[j].sender
    {
      messages[i] := LabelFor(msgs[i].body);
      passer[i] := msgs[i].sender;
    }
    r := Success(Diagram(roles[0], roles[1], |msgs| + 1, messages[..], passer[..]));
  }
}
