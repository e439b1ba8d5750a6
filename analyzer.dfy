/** What each principal and a passive eavesdropper know after one run of a protocol:
    the atoms they see in the clear, the opaque terms they hold, and what the decryption
    rule adds to the atoms. */
module KnowledgeAnalyzer {
  import opened Wrappers
  import opened JavaStrings
  import opened Ast

  /** The implicit eavesdropper, who sees every message. */
  const ADVERSARY: string := "Adversary"

  // ---------------------------------------------------------------------------------
  // collectTerms
  // ---------------------------------------------------------------------------------

  /** What one message body shows: identifiers in the clear and opaque structured terms. */
  datatype Terms = Terms(ids: set<string>, ops: set<string>)

  /** The node kinds recorded as one opaque string, without looking inside. */
  predicate Opaque(n: Node) {
    n.Encrypt? || n.Mac? || n.Hash? || n.Sign? || n.Verify? || n.Concat?
  }

  /** The opaque string recorded for a structured term. */
  function OpaqueTerm(n: Node): (t: string)
    requires Opaque(n)
    ensures n.Encrypt? || n.Mac? || n.Verify? ==> |t| > 0 && t[|t| - 1] == ')'
  {
    match n
    case Encrypt(k, m) => "Enc(" + k + ", " + Label(m) + ")"
    case Mac(k, m) => "Mac(" + k + ", " + Label(m) + ")"
    case Hash(i) => "H(" + Label(i) + ")"
    case Sign(sk, m) => "Sign(" + sk + ", " + Label(m) + ")"
    case Verify(pk, _, _) => "Verify(" + pk + ", ...)"
    case Concat(l, r) => "Concat(" + Label(l) + ", " + Label(r) + ")"
  }

  /** `x` is visible in the clear in `n`: `n` is the identifier `x`, or an assignment whose
      target is `x` or whose value shows `x` in the clear. */
  predicate InClear(n: Node, x: string) {
    match n
    case Identifier(y) => x == y
    case Assign(t, v) => x == t || InClear(v, x)
    case _ => false
  }

  /** `collectTerms`: a bare identifier or an assignment target is seen in the clear; an
      encryption, MAC, hash, signature, verification or concatenation is one opaque term,
      with nothing under it exposed; an assignment also collects from its value. */
  function CollectTerms(n: Node): (r: Terms)
    ensures forall x :: x in r.ids <==> InClear(n, x)
    ensures |r.ops| <= 1
    ensures Opaque(n) ==> r.ids == {} && r.ops == {OpaqueTerm(n)}
    ensures !Opaque(n) && !n.Assign? ==> r.ops == {}
  {
    match n
    case Identifier(name) => Terms({name}, {})
    case Assign(t, v) =>
      var inner := CollectTerms(v);
      Terms({t} + inner.ids, inner.ops)
    case _ => if Opaque(n) then Terms({}, {OpaqueTerm(n)}) else Terms({}, {})
  }

  /** An encryption is recorded under the same string as its own `label()`. */
  lemma {:induction false} EncTermIsLabel(n: Node)
    requires n.Encrypt? || n.Mac?
    ensures CollectTerms(n).ops == {Label(n)}
  {
  }

  // ---------------------------------------------------------------------------------
  // Reading an opaque term back
  // ---------------------------------------------------------------------------------

  /** The decryption rule's parse of an opaque string: it must start with `Enc(` and end
      with `)`; the inside is split at its first comma and both halves are trimmed. */
  function OpenEnc(op: string): (r: Option<(string, string)>)
    ensures r.Some? ==> StartsWith(op, "Enc(") && EndsWith(op, ")")
  {
    if !StartsWith(op, "Enc(") || !EndsWith(op, ")") then None
    else
      assert op[..4] == "Enc(" && op[|op| - 1] == ')';
      var inside := op[4..|op| - 1];
      match SplitFirst(inside, ',')
      case None => None
      case Some((a, b)) => Some((Trim(a), Trim(b)))
  }

  /** Reading back `Enc(k, m)` splits at the comma written after `k` when `k` has none of
      its own, and the blank written before `m` is trimmed away. */
  lemma {:induction false} OpenEncSplit(k: string, m: string)
    requires ',' !in k && IsTrimmed(m)
    ensures OpenEnc("Enc(" + k + ", " + m + ")") == Some((Trim(k), m))
  {
    var op := "Enc(" + k + ", " + m + ")";
    assert op[..4] == "Enc(";
    assert op[|op| - 1..] == ")";
    assert op[4..|op| - 1] == k + [','] + (" " + m);
    SplitFirstAt(k, ',', " " + m);
    TrimLeadingSpace(m);
  }

  /** Writing `Enc(k, m)` and reading it back gives `(k, m)` when the key has no comma
      and neither half has surrounding blanks. */
  lemma {:induction false} OpenEncRoundTrip(k: string, m: string)
    requires ',' !in k && IsTrimmed(k) && IsTrimmed(m)
    ensures OpenEnc("Enc(" + k + ", " + m + ")") == Some((k, m))
  {
    OpenEncSplit(k, m);
    TrimTrimmed(k);
  }

  /** The term collected for `Enc(k, m)` opens to the (trimmed) key name and the label of
      the message, never to the message's own name. */
  lemma {:induction false} EncTermOpens(n: Node)
    requires n.Encrypt? && ',' !in n.key && !n.message.KeyDecl?
    ensures OpenEnc(OpaqueTerm(n)) == Some((Trim(n.key), Label(n.message)))
  {
    LabelTrimmed(n.message);
    OpenEncSplit(n.key, Label(n.message));
  }

  /** Only encryptions are ever opened: MAC, hash, signature, verification and
      concatenation terms never parse as `Enc(k, m)`. */
  lemma {:induction false} OnlyEncOpens(n: Node)
    requires Opaque(n) && !n.Encrypt?
    ensures OpenEnc(OpaqueTerm(n)).None?
  {
    var t := OpaqueTerm(n);
    assert t[0] != 'E';
  }

  // ---------------------------------------------------------------------------------
  // The decryption rule and its least fixed point
  // ---------------------------------------------------------------------------------

  /** The `(key, message)` pairs a set of opaque terms offers to the decryption rule. */
  function Opened(ops: set<string>): set<(string, string)> {
    set op | op in ops && OpenEnc(op).Some? :: OpenEnc(op).value
  }

  /** A set of atoms that every term of `ops` leaves closed is closed under their pairs. */
  lemma {:induction false} ClosedByTerms(known: set<string>, ops: set<string>)
    requires forall op :: op in ops && OpenEnc(op).Some? && OpenEnc(op).value.0 in known ==> OpenEnc(op).value.1 in known
    ensures Closed(known, Opened(ops))
  {
    forall pr | pr in Opened(ops) && pr.0 in known
      ensures pr.1 in known
    {
      var op :| op in ops && OpenEnc(op).Some? && OpenEnc(op).value == pr;
    }
  }

  /** Every message a pair could teach. */
  function Plaintexts(pairs: set<(string, string)>): set<string> {
    set pr | pr in pairs :: pr.1
  }

  /** No pair whose key is known hides a message that is not known. */
  predicate Closed(known: set<string>, pairs: set<(string, string)>) {
    forall pr :: pr in pairs && pr.0 in known ==> pr.1 in known
  }

  /** One round of the rule: every message whose key is already known. */
  function Step(known: set<string>, pairs: set<(string, string)>): set<string> {
    known + set pr | pr in pairs && pr.0 in known :: pr.1
  }

  /** The atoms known once the rule no longer adds anything. */
  function Closure(known: set<string>, pairs: set<(string, string)>): (c: set<string>)
    ensures known <= c <= known + Plaintexts(pairs)
    ensures Closed(c, pairs)
    decreases |Plaintexts(pairs) - known|
  {
    var next := Step(known, pairs);
    if next == known then known
    else
      StepShrinksGap(known, pairs);
      Closure(next, pairs)
  }

  lemma {:induction false} StepShrinksGap(known: set<string>, pairs: set<(string, string)>)
    requires Step(known, pairs) != known
    ensures |Plaintexts(pairs) - Step(known, pairs)| < |Plaintexts(pairs) - known|
  {
    var next := Step(known, pairs);
    var x :| x in next && x !in known;
    var gap, gap' := Plaintexts(pairs) - known, Plaintexts(pairs) - next;
    assert x in gap && x !in gap';
    SubsetCard(gap', gap - {x});
  }

  lemma {:induction false} SubsetCard<T>(a: set<T>, b: set<T>)
    requires a <= b
    ensures |a| <= |b|
  {
    assert b == a + (b - a);
    assert a * (b - a) == {};
  }

  /** The closure is the least closed superset of what is known. */
  lemma {:induction false} ClosureLeast(known: set<string>, pairs: set<(string, string)>, s: set<string>)
    requires known <= s && Closed(s, pairs)
    ensures Closure(known, pairs) <= s
    decreases |Plaintexts(pairs) - known|
  {
    var next := Step(known, pairs);
    if next != known {
      StepShrinksGap(known, pairs);
      ClosureLeast(next, pairs, s);
    }
  }

  /** Knowing more, or holding more terms, never leads to knowing less. */
  lemma {:induction false} ClosureMonotone(k1: set<string>, p1: set<(string, string)>, k2: set<string>, p2: set<(string, string)>)
    requires k1 <= k2 && p1 <= p2
    ensures Closure(k1, p1) <= Closure(k2, p2)
  {
    ClosureLeast(k1, p1, Closure(k2, p2));
  }

  /** A closed set between what is known and its closure is the closure. */
  lemma {:induction false} ClosureUnique(known: set<string>, pairs: set<(string, string)>, s: set<string>)
    requires known <= s <= Closure(known, pairs) && Closed(s, pairs)
    ensures s == Closure(known, pairs)
  {
    ClosureLeast(known, pairs, s);
  }

  /** Terms that are not encryptions add nothing: with no `Enc` term the closure is what
      was seen in the clear. */
  lemma {:induction false} NonEncInert(known: set<string>, ops: set<string>)
    requires forall op :: op in ops ==> !StartsWith(op, "Enc(")
    ensures Closure(known, Opened(ops)) == known
  {
    assert Opened(ops) == {};
    ClosureLeast(known, Opened(ops), known);
  }

  // ---------------------------------------------------------------------------------
  // The knowledge maps
  // ---------------------------------------------------------------------------------

  /** `knows` (principal to clear atoms) and `cryptoTerms` (principal to opaque terms). */
  datatype Knowledge = Knowledge(knows: map<string, set<string>>, crypto: map<string, set<string>>)

  /** Both maps have the same principals, the adversary among them. */
  predicate WellFormed(s: Knowledge) {
    s.knows.Keys == s.crypto.Keys && ADVERSARY in s.knows
  }

  /** Every declared role plus the adversary. */
  function Principals(roles: seq<string>): set<string> {
    (set r | r in roles) + {ADVERSARY}
  }

  /** The maps before any message: every principal knows nothing and holds nothing. */
  function Initial(roles: seq<string>): (s: Knowledge)
    ensures WellFormed(s) && s.knows.Keys == Principals(roles)
    ensures forall p :: p in s.knows ==> s.knows[p] == {} && s.crypto[p] == {}
  {
    Knowledge(map p | p in Principals(roles) :: {}, map p | p in Principals(roles) :: {})
  }

  /** Step 1: one empty entry per role, then the adversary; the opaque-term map gets the
      same principals. */
  method Initialize(roles: seq<string>) returns (s: Knowledge)
    ensures s == Initial(roles)
  {
    var knows := EmptyPerRole(roles);
    knows := knows[ADVERSARY := {}];
    var crypto := EmptyPerKey(knows.Keys);
    s := Knowledge(knows, crypto);
    AllEmpty(knows, Principals(roles));
    AllEmpty(crypto, Principals(roles));
  }

  /** The loop over the declared roles. */
  method EmptyPerRole(roles: seq<string>) returns (knows: map<string, set<string>>)
    ensures knows.Keys == set r | r in roles
    ensures forall p :: p in knows ==> knows[p] == {}
  {
    knows := map[];
    for i := 0 to |roles|
      invariant knows.Keys == set r | r in roles[..i]
      invariant forall p :: p in knows ==> knows[p] == {}
    {
      assert roles[..i + 1] == roles[..i] + [roles[i]];
      knows := knows[roles[i] := {}];
    }
    assert roles[..|roles|] == roles;
  }

  /** The loop over the principals of the first map. */
  method EmptyPerKey(keys: set<string>) returns (crypto: map<string, set<string>>)
    ensures crypto.Keys == keys
    ensures forall p :: p in crypto ==> crypto[p] == {}
  {
    crypto := map[];
    var todo := keys;
    while todo != {}
      invariant todo <= keys
      invariant crypto.Keys == keys - todo
      invariant forall p :: p in crypto ==> crypto[p] == {}
      decreases |todo|
    {
      var p :| p in todo;
      crypto := crypto[p := {}];
      todo := todo - {p};
    }
  }

  lemma {:induction false} AllEmpty(m: map<string, set<string>>, keys: set<string>)
    requires m.Keys == keys && forall p :: p in m ==> m[p] == {}
    ensures m == map p | p in keys :: {}
  {
  }

  /** Why the analysis stops: a message names a principal with no entry in the maps
      (the source then dereferences a missing map entry). */
  datatype AnalysisError = UnknownPrincipal(name: string)

  /** Sender, receiver and adversary each gain exactly what the body shows; nobody else
      changes. A sender or receiver that is not a principal stops the analysis. */
  function ObserveMessage(s: Knowledge, msg: Node): (r: Result<Knowledge, AnalysisError>)
    requires WellFormed(s) && msg.MessageSend?
    ensures r.Failure? <==> msg.sender !in s.knows || msg.receiver !in s.knows
    ensures r.Success? ==> WellFormed(r.value) && r.value.knows.Keys == s.knows.Keys
    ensures r.Success? ==> forall p :: p in s.knows ==>
      var seen := p == msg.sender || p == msg.receiver || p == ADVERSARY;
      && r.value.knows[p] == (if seen then s.knows[p] + CollectTerms(msg.body).ids else s.knows[p])
      && r.value.crypto[p] == (if seen then s.crypto[p] + CollectTerms(msg.body).ops else s.crypto[p])
  {
    if msg.sender !in s.knows then Failure(UnknownPrincipal(msg.sender))
    else if msg.receiver !in s.knows then Failure(UnknownPrincipal(msg.receiver))
    else
      var t := CollectTerms(msg.body);
      Success(Knowledge(
        AddToThree(s.knows, msg.sender, msg.receiver, ADVERSARY, t.ids),
        AddToThree(s.crypto, msg.sender, msg.receiver, ADVERSARY, t.ops)))
  }

  /** Adding `xs` to the entries of `a`, `b` and `c`, one after the other, as the source's
      loop over the three observers does. */
  function AddToThree(m: map<string, set<string>>, a: string, b: string, c: string, xs: set<string>): (r: map<string, set<string>>)
    requires a in m && b in m && c in m
    ensures r.Keys == m.Keys
    ensures forall p :: p in m ==> r[p] == if p == a || p == b || p == c then m[p] + xs else m[p]
  {
    var m1 := m[a := m[a] + xs];
    var m2 := m1[b := m1[b] + xs];
    m2[c := m2[c] + xs]
  }

  /** Step 2: every message, in order. */
  function ObserveAll(s: Knowledge, msgs: seq<Node>): (r: Result<Knowledge, AnalysisError>)
    requires WellFormed(s) && forall i :: 0 <= i < |msgs| ==> msgs[i].MessageSend?
    ensures r.Success? ==> WellFormed(r.value) && r.value.knows.Keys == s.knows.Keys
    decreases |msgs|
  {
    if |msgs| == 0 then Success(s)
    else
      var next :- ObserveMessage(s, msgs[0]);
      ObserveAll(next, msgs[1..])
  }

  /** One observer takes in what a message shows; a principal without an entry stops the
      analysis. */
  method See(knows: map<string, set<string>>, crypto: map<string, set<string>>, p: string, t: Terms)
    returns (r: Result<(map<string, set<string>>, map<string, set<string>>), AnalysisError>)
    requires knows.Keys == crypto.Keys
    ensures p !in knows ==> r == Failure(UnknownPrincipal(p))
    ensures p in knows ==> r == Success((knows[p := knows[p] + t.ids], crypto[p := crypto[p] + t.ops]))
  {
    if p !in knows {
      return Failure(UnknownPrincipal(p));
    }
    return Success((knows[p := knows[p] + t.ids], crypto[p := crypto[p] + t.ops]));
  }

  /** One message: sender, receiver and adversary in turn take in what its body shows. */
  method ObserveOne(knows0: map<string, set<string>>, crypto0: map<string, set<string>>, msg: Node)
    returns (r: Result<Knowledge, AnalysisError>)
    requires WellFormed(Knowledge(knows0, crypto0)) && msg.MessageSend?
    ensures r == ObserveMessage(Knowledge(knows0, crypto0), msg)
  {
    var t := CollectTerms(msg.body);
    var seen := See(knows0, crypto0, msg.sender, t);
    if seen.Failure? {
      return Failure(seen.error);
    }
    var knows, crypto := seen.value.0, seen.value.1;
    seen := See(knows, crypto, msg.receiver, t);
    if seen.Failure? {
      return Failure(seen.error);
    }
    knows, crypto := seen.value.0, seen.value.1;
    seen := See(knows, crypto, ADVERSARY, t);
    return Success(Knowledge(seen.value.0, seen.value.1));
  }

  /** The observation pass of the source: the maps are updated in place, message by
      message. */
  method Observe(s0: Knowledge, msgs: seq<Node>) returns (r: Result<Knowledge, AnalysisError>)
    requires WellFormed(s0) && forall i :: 0 <= i < |msgs| ==> msgs[i].MessageSend?
    ensures r == ObserveAll(s0, msgs)
  {
    var s := s0;
    for i := 0 to |msgs|
      invariant WellFormed(s)
      invariant ObserveAll(s0, msgs) == ObserveAll(s, msgs[i..])
    {
      assert msgs[i..][0] == msgs[i] && msgs[i..][1..] == msgs[i + 1..];
      var next := ObserveOne(s.knows, s.crypto, msgs[i]);
      if next.Failure? {
        return next;
      }
      s := next.value;
    }
    return Success(s);
  }

  // ---------------------------------------------------------------------------------
  // Step 3: the decryption fixed point
  // ---------------------------------------------------------------------------------

  /** Each principal's atoms after the rule: the closure of what it saw under the pairs its
      own opaque terms offer. */
  function Saturated(s: Knowledge): (k: map<string, set<string>>)
    requires WellFormed(s)
    ensures k.Keys == s.knows.Keys
  {
    map p | p in s.knows :: Closure(s.knows[p], Opened(s.crypto[p]))
  }

  /** Every principal knows at least what it saw and at most its closure. */
  predicate Between(s: Knowledge, knows: map<string, set<string>>)
    requires WellFormed(s)
  {
    knows.Keys == s.knows.Keys
    && forall p :: p in knows ==> s.knows[p] <= knows[p] <= Closure(s.knows[p], Opened(s.crypto[p]))
  }

  /** Every `(principal, atom)` pair the rule can reach. */
  ghost function Reachable(s: Knowledge): set<(string, string)>
    requires WellFormed(s)
  {
    set p, x | p in s.knows && x in Closure(s.knows[p], Opened(s.crypto[p])) :: (p, x)
  }

  /** What is still to be learned. */
  ghost function Missing(s: Knowledge, knows: map<string, set<string>>): set<(string, string)>
    requires WellFormed(s) && Between(s, knows)
  {
    set pr | pr in Reachable(s) && pr.1 !in knows[pr.0]
  }

  /** Growing one principal's atoms within its closure stays between what it saw and its
      closure. */
  lemma {:induction false} BetweenUpdate(s: Knowledge, knows: map<string, set<string>>, p: string, terms: set<string>)
    requires WellFormed(s) && Between(s, knows) && p in knows
    requires knows[p] <= terms <= Closure(s.knows[p], Opened(s.crypto[p]))
    ensures Between(s, knows[p := terms])
  {
    assert knows[p := terms].Keys == knows.Keys;
  }

  /** Growing one principal's atoms within its closure leaves fewer atoms missing. */
  lemma {:induction false} MissingShrinks(s: Knowledge, knows: map<string, set<string>>, p: string, terms: set<string>, m: string)
    requires WellFormed(s) && Between(s, knows) && p in knows
    requires knows[p] <= terms <= Closure(s.knows[p], Opened(s.crypto[p]))
    requires m in terms && m !in knows[p]
    ensures Between(s, knows[p := terms])
    ensures |Missing(s, knows[p := terms])| < |Missing(s, knows)|
  {
    var next := knows[p := terms];
    BetweenUpdate(s, knows, p, terms);
    assert (p, m) in Missing(s, knows) by {
      assert (p, m) in Reachable(s);
    }
    forall pr | pr in Missing(s, next)
      ensures pr in Missing(s, knows) - {(p, m)}
    {
      if pr.0 == p {
        assert knows[p] <= next[p];
      } else {
        assert next[pr.0] == knows[pr.0];
      }
    }
    SubsetCard(Missing(s, next), Missing(s, knows) - {(p, m)});
  }

  /** The scan of one principal's opaque terms: a message is learned whenever its key is
      known and it is not yet known. */
  method ScanTerms(s: Knowledge, knows0: map<string, set<string>>, p: string)
    returns (knows: map<string, set<string>>, learned: bool)
    requires WellFormed(s) && Between(s, knows0) && p in knows0
    ensures Between(s, knows) && knows == knows0[p := knows[p]]
    ensures learned ==> |Missing(s, knows)| < |Missing(s, knows0)|
    ensures !learned ==> knows == knows0 && Closed(knows[p], Opened(s.crypto[p]))
  {
    ghost var bound := Closure(s.knows[p], Opened(s.crypto[p]));
    var terms;
    ghost var gained;
    terms, learned, gained := ScanOps(s.crypto[p], knows0[p], bound);
    knows := knows0[p := terms];
    if learned {
      MissingShrinks(s, knows0, p, terms, gained);
    } else {
      assert knows0[p := terms] == knows0;
    }
  }

  /** The `for (String op : ops)` loop over one principal's atoms `terms`, which stay within
      a set `bound` closed under the rule. */
  method ScanOps(ops: set<string>, terms0: set<string>, ghost bound: set<string>)
    returns (terms: set<string>, learned: bool, ghost gained: string)
    requires terms0 <= bound && Closed(bound, Opened(ops))
    ensures terms0 <= terms <= bound
    ensures learned ==> gained in terms && gained !in terms0
    ensures !learned ==> terms == terms0 && Closed(terms, Opened(ops))
  {
    terms := terms0;
    gained := "";
    learned := false;
    var left := ops;
    while left != {}
      invariant terms0 <= terms <= bound && left <= ops
      invariant learned ==> gained in terms && gained !in terms0
      invariant !learned ==> terms == terms0
      invariant !learned ==> forall op :: op in ops && op !in left && OpenEnc(op).Some? && OpenEnc(op).value.0 in terms ==> OpenEnc(op).value.1 in terms
      decreases |left|
    {
      var op :| op in left;
      var parts := OpenEnc(op);
      if parts.Some? {
        var (k, m) := parts.value;
        if k in terms && m !in terms {
          assert (k, m) in Opened(ops);
          terms := terms + {m};
          gained := m;
          learned := true;
        }
      }
      left := left - {op};
    }
    if !learned {
      ClosedByTerms(terms, ops);
    }
  }

  /** One pass of the loop body: every principal's terms are scanned once. */
  method Pass(s: Knowledge, knows0: map<string, set<string>>) returns (knows: map<string, set<string>>, changed: bool)
    requires WellFormed(s) && Between(s, knows0)
    ensures Between(s, knows)
    ensures changed ==> |Missing(s, knows)| < |Missing(s, knows0)|
    ensures !changed ==> knows == knows0 && forall p :: p in knows ==> Closed(knows[p], Opened(s.crypto[p]))
  {
    knows := knows0;
    changed := false;
    var todo := knows.Keys;
    while todo != {}
      invariant Between(s, knows) && todo <= knows.Keys
      invariant changed ==> |Missing(s, knows)| < |Missing(s, knows0)|
      invariant !changed ==> knows == knows0
      invariant !changed ==> forall q :: q in knows && q !in todo ==> Closed(knows[q], Opened(s.crypto[q]))
      decreases |todo|
    {
      var p :| p in todo;
      var learned;
      ghost var prev := knows;
      knows, learned := ScanTerms(s, knows, p);
      if !learned {
        assert knows == prev;
      }
      changed := changed || learned;
      RemoveOne(todo, p);
      todo := todo - {p};
    }
  }

  /** Taking out a member shrinks a set. */
  lemma {:induction false} RemoveOne<T>(xs: set<T>, x: T)
    requires x in xs
    ensures |xs - {x}| < |xs|
  {
  }

  /** The `do { ... } while (changed)` loop: passes repeat until one learns nothing. */
  method Decrypt(s: Knowledge) returns (knows: map<string, set<string>>)
    requires WellFormed(s)
    ensures knows == Saturated(s)
  {
    knows := s.knows;
    var changed := true;
    while changed
      invariant Between(s, knows)
      invariant !changed ==> forall p :: p in knows ==> Closed(knows[p], Opened(s.crypto[p]))
      decreases |Missing(s, knows)|, changed
    {
      knows, changed := Pass(s, knows);
    }
    forall p | p in knows
      ensures knows[p] == Closure(s.knows[p], Opened(s.crypto[p]))
    {
      ClosureUnique(s.knows[p], Opened(s.crypto[p]), knows[p]);
    }
  }

  // ---------------------------------------------------------------------------------
  // Step 5: catastrophic leaks, and the whole analysis
  // ---------------------------------------------------------------------------------

  /** An atom that looks like a key (`K_`) or a plaintext message (`M_`). */
  predicate LooksSecret(t: string) {
    StartsWith(t, "K_") || StartsWith(t, "M_")
  }

  /** The adversary's atoms that look secret. */
  function Catastrophic(atoms: set<string>): (c: set<string>)
    ensures c <= atoms
    ensures forall t :: t in atoms ==> (t in c <==> LooksSecret(t))
  {
    set t | t in atoms && LooksSecret(t)
  }

  /** The filtering loop over the adversary's atoms. */
  method CatastrophicOf(atoms: set<string>) returns (c: set<string>)
    ensures c == Catastrophic(atoms)
  {
    c := {};
    var left := atoms;
    while left != {}
      invariant left <= atoms
      invariant c == set t | t in atoms && t !in left && LooksSecret(t)
      decreases |left|
    {
      var t :| t in left;
      if StartsWith(t, "K_") || StartsWith(t, "M_") {
        c := c + {t};
      }
      left := left - {t};
    }
  }

  /** The result of the analysis: final atoms, opaque terms and catastrophic atoms. */
  datatype Analysis = Analysis(knows: map<string, set<string>>, crypto: map<string, set<string>>, catastrophic: set<string>)

  /** `analyzeToString` / `analyzeAndPrint` without the printing. */
  function AnalyzeSpec(p: ProtocolTree): Result<Analysis, AnalysisError> {
    var observed :- ObserveAll(Initial(p.roles), p.messages);
    var knows := Saturated(observed);
    Success(Analysis(knows, observed.crypto, Catastrophic(knows[ADVERSARY])))
  }

  method Analyze(p: ProtocolTree) returns (r: Result<Analysis, AnalysisError>)
    ensures r == AnalyzeSpec(p)
  {
    var init := Initialize(p.roles);
    var observed := Observe(init, p.messages);
    if observed.Failure? {
      return Failure(observed.error);
    }
    var knows := Decrypt(observed.value);
    var catastrophic := CatastrophicOf(knows[ADVERSARY]);
    return Success(Analysis(knows, observed.value.crypto, catastrophic));
  }

  // ---------------------------------------------------------------------------------
  // What the observation pass adds up to
  // ---------------------------------------------------------------------------------

  /** Every element is a message send. */
  predicate AllSends(msgs: seq<Node>) {
    forall i :: 0 <= i < |msgs| ==> msgs[i].MessageSend?
  }

  /** Every sender and receiver is a principal. */
  predicate AllKnown(keys: set<string>, msgs: seq<Node>)
    requires AllSends(msgs)
  {
    forall i :: 0 <= i < |msgs| ==> msgs[i].sender in keys && msgs[i].receiver in keys
  }

  /** The identifiers some message shows in the clear. */
  function ClearIn(msgs: seq<Node>): set<string>
    requires AllSends(msgs)
    decreases |msgs|
  {
    if |msgs| == 0 then {} else CollectTerms(msgs[0].body).ids + ClearIn(msgs[1..])
  }

  /** The opaque terms some message shows. */
  function OpsIn(msgs: seq<Node>): set<string>
    requires AllSends(msgs)
    decreases |msgs|
  {
    if |msgs| == 0 then {} else CollectTerms(msgs[0].body).ops + OpsIn(msgs[1..])
  }

  lemma {:induction false} AllKnownCons(keys: set<string>, msgs: seq<Node>)
    requires AllSends(msgs) && |msgs| > 0
    ensures AllKnown(keys, msgs) <==>
      msgs[0].sender in keys && msgs[0].receiver in keys && AllKnown(keys, msgs[1..])
  {
    assert forall i :: 1 <= i < |msgs| ==> msgs[1..][i - 1] == msgs[i];
  }

  /** The pass fails exactly when some sender or receiver is not a principal. */
  lemma {:induction false} ObserveAllFailsIff(s: Knowledge, msgs: seq<Node>)
    requires WellFormed(s) && AllSends(msgs)
    ensures ObserveAll(s, msgs).Success? <==> AllKnown(s.knows.Keys, msgs)
    decreases |msgs|
  {
    if |msgs| > 0 {
      AllKnownCons(s.knows.Keys, msgs);
      var r := ObserveMessage(s, msgs[0]);
      if r.Success? {
        ObserveAllFailsIff(r.value, msgs[1..]);
      }
    }
  }

  /** After the pass the adversary holds exactly what it held plus everything any message
      shows. */
  lemma {:induction false} ObserveAllAdversary(s: Knowledge, msgs: seq<Node>)
    requires WellFormed(s) && AllSends(msgs) && ObserveAll(s, msgs).Success?
    ensures ObserveAll(s, msgs).value.knows[ADVERSARY] == s.knows[ADVERSARY] + ClearIn(msgs)
    ensures ObserveAll(s, msgs).value.crypto[ADVERSARY] == s.crypto[ADVERSARY] + OpsIn(msgs)
  {
    ObserveAllBounds(s, msgs, ADVERSARY);
    AdversarySeesEach(s, msgs);
  }

  lemma {:induction false} AdversarySeesEach(s: Knowledge, msgs: seq<Node>)
    requires WellFormed(s) && AllSends(msgs) && ObserveAll(s, msgs).Success?
    ensures ClearIn(msgs) <= ObserveAll(s, msgs).value.knows[ADVERSARY]
    ensures OpsIn(msgs) <= ObserveAll(s, msgs).value.crypto[ADVERSARY]
    decreases |msgs|
  {
    if |msgs| > 0 {
      var next := ObserveMessage(s, msgs[0]).value;
      AdversarySeesEach(next, msgs[1..]);
      ObserveAllBounds(next, msgs[1..], ADVERSARY);
    }
  }

  /** Every principal keeps what it held and gains nothing that no message shows. */
  lemma {:induction false} ObserveAllBounds(s: Knowledge, msgs: seq<Node>, p: string)
    requires WellFormed(s) && AllSends(msgs) && ObserveAll(s, msgs).Success? && p in s.knows
    ensures s.knows[p] <= ObserveAll(s, msgs).value.knows[p] <= s.knows[p] + ClearIn(msgs)
    ensures s.crypto[p] <= ObserveAll(s, msgs).value.crypto[p] <= s.crypto[p] + OpsIn(msgs)
    decreases |msgs|
  {
    if |msgs| > 0 {
      var next := ObserveMessage(s, msgs[0]).value;
      ObserveAllBounds(next, msgs[1..], p);
    }
  }

  /** Nobody knows or holds anything the adversary does not. */
  predicate Dominated(s: Knowledge)
    requires WellFormed(s)
  {
    forall p :: p in s.knows ==> s.knows[p] <= s.knows[ADVERSARY] && s.crypto[p] <= s.crypto[ADVERSARY]
  }

  /** Because the adversary observes every message, the pass keeps it ahead of everyone. */
  lemma {:induction false} ObserveAllDominated(s: Knowledge, msgs: seq<Node>)
    requires WellFormed(s) && AllSends(msgs) && Dominated(s) && ObserveAll(s, msgs).Success?
    ensures Dominated(ObserveAll(s, msgs).value)
    decreases |msgs|
  {
    if |msgs| > 0 {
      var next := ObserveMessage(s, msgs[0]).value;
      assert Dominated(next);
      ObserveAllDominated(next, msgs[1..]);
    }
  }

  // ---------------------------------------------------------------------------------
  // What the whole analysis promises
  // ---------------------------------------------------------------------------------

  /** The analysis fails exactly when a message names a sender or receiver that is neither
      a declared role nor the adversary. */
  lemma {:induction false} AnalysisFailsIff(p: ProtocolTree)
    ensures AnalyzeSpec(p).Failure? <==> !AllKnown(Principals(p.roles), p.messages)
  {
    ObserveAllFailsIff(Initial(p.roles), p.messages);
  }

  /** On success both maps are keyed by the principals, every principal's atoms are closed
      under the decryption rule, and the catastrophic set is the adversary's secret-looking
      atoms. */
  lemma {:induction false} AnalysisShape(p: ProtocolTree)
    requires AnalyzeSpec(p).Success?
    ensures var a := AnalyzeSpec(p).value;
      && a.knows.Keys == a.crypto.Keys == Principals(p.roles)
      && (forall q :: q in a.knows ==> Closed(a.knows[q], Opened(a.crypto[q])))
      && a.catastrophic == set t | t in a.knows[ADVERSARY] && LooksSecret(t)
  {
  }

  /** The passive adversary ends up knowing at least as much as any principal. */
  lemma {:induction false} AdversaryKnowsMost(p: ProtocolTree)
    requires AnalyzeSpec(p).Success?
    ensures var a := AnalyzeSpec(p).value;
      forall q :: q in a.knows ==> a.knows[q] <= a.knows[ADVERSARY]
  {
    var s0 := Initial(p.roles);
    var observed := ObserveAll(s0, p.messages).value;
    ObserveAllDominated(s0, p.messages);
    var a := AnalyzeSpec(p).value;
    forall q | q in a.knows
      ensures a.knows[q] <= a.knows[ADVERSARY]
    {
      OpenedMonotone(observed.crypto[q], observed.crypto[ADVERSARY]);
      ClosureMonotone(observed.knows[q], Opened(observed.crypto[q]),
                      observed.knows[ADVERSARY], Opened(observed.crypto[ADVERSARY]));
    }
  }

  lemma {:induction false} OpenedMonotone(a: set<string>, b: set<string>)
    requires a <= b
    ensures Opened(a) <= Opened(b)
  {
  }

  /** Whatever any message shows in the clear, the adversary knows. */
  lemma {:induction false} AdversarySeesAll(p: ProtocolTree)
    requires AnalyzeSpec(p).Success?
    ensures ClearIn(p.messages) <= AnalyzeSpec(p).value.knows[ADVERSARY]
  {
    ObserveAllAdversary(Initial(p.roles), p.messages);
  }

  // ---------------------------------------------------------------------------------
  // Decryption never produces a catastrophic atom
  // ---------------------------------------------------------------------------------

  /** No label looks like a key or plaintext name: the closest, `Mac(` and `MessageSend(`,
      start with `M` but not with `M_`. */
  lemma {:induction false} LabelNotSecret(n: Node)
    requires !n.KeyDecl?
    ensures !LooksSecret(Label(n))
  {
    var l := Label(n);
    assert l[0] != 'K' && (l[0] == 'M' ==> l[1] != '_');
  }

  /** The encryptions in a body have comma-free key names and messages that are not key
      declarations, as every body the parser builds from identifier tokens has. */
  predicate SafelyKeyed(n: Node) {
    match n
    case Encrypt(k, m) => ',' !in k && !m.KeyDecl?
    case Assign(_, v) => SafelyKeyed(v)
    case _ => true
  }

  /** What a safely keyed body lets the rule open is a label, never a secret-looking atom. */
  lemma {:induction false} SafePlaintexts(n: Node)
    requires SafelyKeyed(n)
    ensures forall op :: op in CollectTerms(n).ops && OpenEnc(op).Some? ==> !LooksSecret(OpenEnc(op).value.1)
  {
    if n.Assign? {
      SafePlaintexts(n.value);
    } else if n.Encrypt? {
      EncTermOpens(n);
      LabelNotSecret(n.message);
    } else if Opaque(n) {
      OnlyEncOpens(n);
    }
  }

  /** Every body of a sequence is safely keyed. */
  predicate AllSafelyKeyed(msgs: seq<Node>)
    requires AllSends(msgs)
  {
    forall i :: 0 <= i < |msgs| ==> SafelyKeyed(msgs[i].body)
  }

  lemma {:induction false} SafeOpsIn(msgs: seq<Node>)
    requires AllSends(msgs) && AllSafelyKeyed(msgs)
    ensures forall t :: t in Plaintexts(Opened(OpsIn(msgs))) ==> !LooksSecret(t)
    decreases |msgs|
  {
    if |msgs| > 0 {
      SafePlaintexts(msgs[0].body);
      assert AllSafelyKeyed(msgs[1..]) by {
        assert forall i :: 1 <= i < |msgs| ==> msgs[1..][i - 1] == msgs[i];
      }
      SafeOpsIn(msgs[1..]);
    }
  }

  /** Closing a set under pairs that teach nothing secret-looking adds no catastrophic atom. */
  lemma {:induction false} ClosureAddsNoSecret(known: set<string>, pairs: set<(string, string)>)
    requires forall t :: t in Plaintexts(pairs) ==> !LooksSecret(t)
    ensures Catastrophic(Closure(known, pairs)) == Catastrophic(known)
  {
  }

  /** With safely keyed bodies, the catastrophic atoms are exactly the secret-looking
      identifiers that some message sends in the clear: the decryption rule never adds
      one, because what it learns is a label such as `Id(M_1)`. */
  lemma {:induction false} CatastrophicOnlyFromClear(p: ProtocolTree)
    requires AnalyzeSpec(p).Success? && AllSafelyKeyed(p.messages)
    ensures AnalyzeSpec(p).value.catastrophic == Catastrophic(ClearIn(p.messages))
  {
    var s0 := Initial(p.roles);
    ObserveAllAdversary(s0, p.messages);
    var observed := ObserveAll(s0, p.messages).value;
    var known := observed.knows[ADVERSARY];
    var ops := observed.crypto[ADVERSARY];
    assert known == ClearIn(p.messages) && ops == OpsIn(p.messages);
    SafeClosure(p.messages, known);
    assert Saturated(observed)[ADVERSARY] == Closure(known, Opened(ops));
  }

  /** Opening the terms of safely keyed bodies adds no secret-looking atom. */
  lemma {:induction false} SafeClosure(msgs: seq<Node>, known: set<string>)
    requires AllSends(msgs) && AllSafelyKeyed(msgs)
    ensures Catastrophic(Closure(known, Opened(OpsIn(msgs)))) == Catastrophic(known)
  {
    SafeOpsIn(msgs);
    ClosureAddsNoSecret(known, Opened(OpsIn(msgs)));
  }
  /** A key sent in the clear, then `Enc(K_AB, M_1)` between the same two roles. */
  function LeakExample(): ProtocolTree {
    Protocol(["A", "B"], [
      MessageSend("A", "B", Identifier("K_AB")),
      MessageSend("A", "B", Encrypt("K_AB", Identifier("M_1")))])
  }

  /** The pass over the example succeeds: both messages are between declared roles. */
  lemma {:induction false} LeakExampleSucceeds()
    ensures AnalyzeSpec(LeakExample()).Success?
  {
    var msgs := LeakExample().messages;
    var keys := Principals(LeakExample().roles);
    AllKnownCons(keys, msgs);
    AllKnownCons(keys, msgs[1..]);
    AnalysisFailsIff(LeakExample());
  }

  /** The adversary sees the key in the clear and holds the encryption as one opaque term. */
  lemma {:induction false} LeakExampleSeen()
    ensures ClearIn(LeakExample().messages) == {"K_AB"}
    ensures OpsIn(LeakExample().messages) == {OpaqueTerm(LeakExample().messages[1].body)}
  {
    var msgs := LeakExample().messages;
    assert ClearIn(msgs[1..][1..]) == {};
    assert OpsIn(msgs[1..][1..]) == {};
  }

  /** Knowing `K_AB` and holding `Enc(K_AB, Id(M_1))`, the rule yields exactly the label. */
  lemma {:induction false} LeakExampleClosure()
    ensures var op := OpaqueTerm(LeakExample().messages[1].body);
      Closure({"K_AB"}, Opened({op})) == {"K_AB", "Id(M_1)"}
  {
    var enc := LeakExample().messages[1].body;
    EncTermOpens(enc);
    TrimTrimmed("K_AB");
    assert Label(Identifier("M_1")) == "Id(M_1)";
    var pair := ("K_AB", "Id(M_1)");
    assert Opened({OpaqueTerm(enc)}) == {pair};
    assert "Id(M_1)" in Closure({"K_AB"}, {pair});
    ClosureUnique({"K_AB"}, {pair}, {"K_AB", "Id(M_1)"});
  }

  /** What a successful analysis is made of: the saturated atoms of the observed maps. */
  lemma {:induction false} AnalysisParts(p: ProtocolTree)
    requires AnalyzeSpec(p).Success?
    ensures var observed := ObserveAll(Initial(p.roles), p.messages);
      && observed.Success?
      && AnalyzeSpec(p).value.knows[ADVERSARY]
         == Closure(observed.value.knows[ADVERSARY], Opened(observed.value.crypto[ADVERSARY]))
      && AnalyzeSpec(p).value.catastrophic == Catastrophic(AnalyzeSpec(p).value.knows[ADVERSARY])
  {
  }

  /** On success the adversary's final atoms are the closure of what the messages show it. */
  lemma {:induction false} AdversaryFinal(p: ProtocolTree)
    requires AnalyzeSpec(p).Success?
    ensures AnalyzeSpec(p).value.knows[ADVERSARY] == Closure(ClearIn(p.messages), Opened(OpsIn(p.messages)))
    ensures AnalyzeSpec(p).value.catastrophic == Catastrophic(AnalyzeSpec(p).value.knows[ADVERSARY])
  {
    var s0 := Initial(p.roles);
    AnalysisParts(p);
    ObserveAllAdversary(s0, p.messages);
    assert s0.knows[ADVERSARY] == {} && s0.crypto[ADVERSARY] == {};
    assert {} + ClearIn(p.messages) == ClearIn(p.messages);
    assert {} + OpsIn(p.messages) == OpsIn(p.messages);
  }

  lemma {:induction false} LeakExampleFlags()
    ensures Catastrophic({"K_AB", "Id(M_1)"}) == {"K_AB"}
  {
    assert "Id(M_1)"[0] == 'I';
    assert LooksSecret("K_AB") && !LooksSecret("Id(M_1)");
  }

  /** In the example the adversary learns the key, and through it only the label
      `Id(M_1)`, not `M_1`: just `K_AB` is flagged. */
  lemma {:induction false} LeakExampleResult()
    ensures AnalyzeSpec(LeakExample()).Success?
    ensures AnalyzeSpec(LeakExample()).value.knows[ADVERSARY] == {"K_AB", "Id(M_1)"}
    ensures AnalyzeSpec(LeakExample()).value.catastrophic == {"K_AB"}
  {
    LeakExampleSucceeds();
    LeakExampleSeen();
    LeakExampleClosure();
    AdversaryFinal(LeakExample());
    LeakExampleFlags();
  }
}
