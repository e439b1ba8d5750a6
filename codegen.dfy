/** The decisions `JavaCodeGenerator.fromProtocol` takes before it writes any text: which
    names become plaintext byte arrays, which variables are predeclared with which type,
    which key pairs are generated, who listens, and the Java expression emitted for each
    message body. The fixed boilerplate around them is not modelled. */
module JavaCodeGen {
  import opened JavaStrings
  import opened Ast

  // ---------------------------------------------------------------------------------
  // Insertion-ordered sets (`LinkedHashSet`) as duplicate-free sequences
  // ---------------------------------------------------------------------------------

  predicate NoDup(xs: seq<string>) {
    forall i, j :: 0 <= i < j < |xs| ==> xs[i] != xs[j]
  }

  function Elems(xs: seq<string>): set<string> {
    set x | x in xs
  }

  /** `set.add(x)`: appended unless already present, so the first insertion fixes the
      position. */
  function AddNew(xs: seq<string>, x: string): (r: seq<string>)
    ensures xs <= r && Elems(r) == Elems(xs) + {x}
    ensures NoDup(xs) ==> NoDup(r)
  {
    if x in xs then xs else xs + [x]
  }

  // ---------------------------------------------------------------------------------
  // Types of right-hand sides
  // ---------------------------------------------------------------------------------

  /** The two Java types a protocol value can have. */
  datatype JType = BYTES | BOOL

  /** `typeOfRhs` / `typeOfExpr` (the source has two identical copies): only a
      verification yields a boolean. */
  function TypeOfExpr(n: Node): (t: JType)
    ensures t == BOOL <==> n.Verify?
  {
    if n.Verify? then BOOL else BYTES
  }

  // ---------------------------------------------------------------------------------
  // Maps filled by `put` in a loop: the last write wins
  // ---------------------------------------------------------------------------------

  /** The map after putting every pair in order. */
  function PutAll<V>(pairs: seq<(string, V)>): (m: map<string, V>)
    ensures m.Keys == set i | 0 <= i < |pairs| :: pairs[i].0
    decreases |pairs|
  {
    if |pairs| == 0 then map[]
    else
      var init := pairs[..|pairs| - 1];
      var m0 := PutAll(init);
      assert forall i :: 0 <= i < |init| ==> init[i] == pairs[i];
      m0[pairs[|pairs| - 1].0 := pairs[|pairs| - 1].1]
  }

  /** The value under a key is the one paired with it last. */
  lemma {:induction false} PutAllLastWins<V>(pairs: seq<(string, V)>, i: nat)
    requires i < |pairs|
    requires forall j :: i < j < |pairs| ==> pairs[j].0 != pairs[i].0
    ensures pairs[i].0 in PutAll(pairs) && PutAll(pairs)[pairs[i].0] == pairs[i].1
    decreases |pairs|
  {
    if i < |pairs| - 1 {
      var init := pairs[..|pairs| - 1];
      PutAllLastWins(init, i);
    }
  }

  /** The `(name, kind)` pairs of the declarations, in order. */
  function KindPairs(decls: seq<KeyDeclaration>): (ps: seq<(string, KeyKind)>)
    ensures |ps| == |decls|
    ensures forall i :: 0 <= i < |decls| ==> ps[i] == (decls[i].keyName, decls[i].kind)
    decreases |decls|
  {
    if |decls| == 0 then []
    else KindPairs(decls[..|decls| - 1]) + [(decls[|decls| - 1].keyName, decls[|decls| - 1].kind)]
  }

  /** `keyKinds`: every declared key with the kind of its last declaration. */
  function KeyKinds(decls: seq<KeyDeclaration>): map<string, KeyKind> {
    PutAll(KindPairs(decls))
  }

  /** A declared key has the kind of its last declaration, and only declared keys appear. */
  lemma {:induction false} KeyKindsLastDecl(decls: seq<KeyDeclaration>, i: nat)
    requires i < |decls|
    requires forall j :: i < j < |decls| ==> decls[j].keyName != decls[i].keyName
    ensures decls[i].keyName in KeyKinds(decls) && KeyKinds(decls)[decls[i].keyName] == decls[i].kind
  {
    PutAllLastWins(KindPairs(decls), i);
  }

  lemma {:induction false} KeyKindsKeys(decls: seq<KeyDeclaration>)
    ensures KeyKinds(decls).Keys == set i | 0 <= i < |decls| :: decls[i].keyName
  {
    var ps := KindPairs(decls);
    assert forall i :: 0 <= i < |decls| ==> ps[i].0 == decls[i].keyName;
  }

  /** The loop of step 2 that fills `keyKinds`. */
  method GatherKeyKinds(decls: seq<KeyDeclaration>) returns (kinds: map<string, KeyKind>)
    ensures kinds == KeyKinds(decls)
  {
    kinds := map[];
    for i := 0 to |decls|
      invariant kinds == PutAll(KindPairs(decls[..i]))
    {
      KeyKindsStep(decls, i);
      kinds := kinds[decls[i].keyName := decls[i].kind];
    }
    assert decls[..|decls|] == decls;
  }

  lemma {:induction false} KeyKindsStep(decls: seq<KeyDeclaration>, i: nat)
    requires i < |decls|
    ensures PutAll(KindPairs(decls[..i + 1])) == PutAll(KindPairs(decls[..i]))[decls[i].keyName := decls[i].kind]
  {
    var prefix := decls[..i + 1];
    assert prefix[..|prefix| - 1] == decls[..i];
    var ps := KindPairs(prefix);
    assert ps == KindPairs(decls[..i]) + [(decls[i].keyName, decls[i].kind)];
    assert ps[..|ps| - 1] == KindPairs(decls[..i]);
  }

  /** `keyKinds.getOrDefault(k, SHARED)`. */
  function KindOf(kinds: map<string, KeyKind>, k: string): KeyKind {
    if k in kinds then kinds[k] else SHARED
  }

  /** The names of declarations of kind SHARED, in order, for which an AES key is made. */
  function SharedKeyNames(decls: seq<KeyDeclaration>): (r: seq<string>)
    ensures forall x :: x in r <==> exists i :: 0 <= i < |decls| && decls[i].kind == SHARED && decls[i].keyName == x
    decreases |decls|
  {
    if |decls| == 0 then []
    else
      var rest := SharedKeyNames(decls[1..]);
      assert forall i :: 1 <= i < |decls| ==> decls[1..][i - 1] == decls[i];
      if decls[0].kind == SHARED then [decls[0].keyName] + rest else rest
  }

  // ---------------------------------------------------------------------------------
  // What an expression mentions (the walk every collector shares)
  // ---------------------------------------------------------------------------------

  /** The argument position a key name appears in. */
  datatype KeySlot = EncKey | MacKey | SignKey | VerifyKey

  /** Every key name with the position it appears in, through assignments, encryptions,
      MACs, hashes, signatures, verifications and concatenations. */
  function KeysIn(n: Node): set<(KeySlot, string)>
    decreases n
  {
    match n
    case Assign(_, v) => KeysIn(v)
    case Encrypt(k, m) => {(EncKey, k)} + KeysIn(m)
    case Mac(k, m) => {(MacKey, k)} + KeysIn(m)
    case Hash(i) => KeysIn(i)
    case Sign(sk, m) => {(SignKey, sk)} + KeysIn(m)
    case Verify(pk, m, s) => {(VerifyKey, pk)} + KeysIn(m) + KeysIn(s)
    case Concat(l, r) => KeysIn(l) + KeysIn(r)
    case _ => {}
  }

  /** Bare identifiers and key names met on the same walk: the `usedIds` of a body. */
  function UsedNames(n: Node): set<string>
    decreases n
  {
    match n
    case Identifier(x) => {x}
    case Assign(_, v) => UsedNames(v)
    case Encrypt(k, m) => {k} + UsedNames(m)
    case Mac(k, m) => {k} + UsedNames(m)
    case Hash(i) => UsedNames(i)
    case Sign(sk, m) => {sk} + UsedNames(m)
    case Verify(pk, m, s) => {pk} + UsedNames(m) + UsedNames(s)
    case Concat(l, r) => UsedNames(l) + UsedNames(r)
    case _ => {}
  }

  /** Assignment targets met on the walk: the `assignedIds` of a body. */
  function AssignedNames(n: Node): set<string>
    decreases n
  {
    match n
    case Assign(t, v) => {t} + AssignedNames(v)
    case Encrypt(_, m) => AssignedNames(m)
    case Mac(_, m) => AssignedNames(m)
    case Hash(i) => AssignedNames(i)
    case Sign(_, m) => AssignedNames(m)
    case Verify(_, m, s) => AssignedNames(m) + AssignedNames(s)
    case Concat(l, r) => AssignedNames(l) + AssignedNames(r)
    case _ => {}
  }

  /** Every key name an expression uses is one of its used names. */
  lemma {:induction false} KeysAreUsed(n: Node, slot: KeySlot, k: string)
    requires (slot, k) in KeysIn(n)
    ensures k in UsedNames(n)
    decreases n
  {
    match n
    case Assign(_, v) => KeysAreUsed(v, slot, k);
    case Encrypt(k0, m) => if k != k0 || slot != EncKey { KeysAreUsed(m, slot, k); }
    case Mac(k0, m) => if k != k0 || slot != MacKey { KeysAreUsed(m, slot, k); }
    case Hash(i) => KeysAreUsed(i, slot, k);
    case Sign(k0, m) => if k != k0 || slot != SignKey { KeysAreUsed(m, slot, k); }
    case Verify(k0, m, s) =>
      if k != k0 || slot != VerifyKey {
        if (slot, k) in KeysIn(m) { KeysAreUsed(m, slot, k); } else { KeysAreUsed(s, slot, k); }
      }
    case Concat(l, r) =>
      if (slot, k) in KeysIn(l) { KeysAreUsed(l, slot, k); } else { KeysAreUsed(r, slot, k); }
  }

  // ---------------------------------------------------------------------------------
  // collectMessageSymbols
  // ---------------------------------------------------------------------------------

  /** `collectMessageSymbols(node, usedIds, assignedIds)`: the two insertion-ordered sets
      after the walk. Each gains exactly the names of its kind, nothing already present
      moves, and no duplicate appears. */
  function CollectSymbols(n: Node, used: seq<string>, targets: seq<string>): (r: (seq<string>, seq<string>))
    ensures Elems(r.0) == Elems(used) + UsedNames(n)
    ensures Elems(r.1) == Elems(targets) + AssignedNames(n)
    ensures used <= r.0 && targets <= r.1
    ensures NoDup(used) ==> NoDup(r.0)
    ensures NoDup(targets) ==> NoDup(r.1)
    decreases n
  {
    match n
    case Assign(t, v) => CollectSymbols(v, used, AddNew(targets, t))
    case Identifier(x) => (AddNew(used, x), targets)
    case Encrypt(k, m) => CollectSymbols(m, AddNew(used, k), targets)
    case Concat(l, r) =>
      var a := CollectSymbols(l, used, targets);
      CollectSymbols(r, a.0, a.1)
    case Mac(k, m) => CollectSymbols(m, AddNew(used, k), targets)
    case Hash(i) => CollectSymbols(i, used, targets)
    case Sign(sk, m) => CollectSymbols(m, AddNew(used, sk), targets)
    case Verify(pk, m, s) =>
      var a := CollectSymbols(m, AddNew(used, pk), targets);
      CollectSymbols(s, a.0, a.1)
    case _ => (used, targets)
  }

  /** Used names over a list of message bodies. */
  function UsedInAll(msgs: seq<Message>): set<string>
    decreases |msgs|
  {
    if |msgs| == 0 then {} else UsedInAll(msgs[..|msgs| - 1]) + UsedNames(msgs[|msgs| - 1].body)
  }

  /** Assignment targets over a list of message bodies. */
  function AssignedInAll(msgs: seq<Message>): set<string>
    decreases |msgs|
  {
    if |msgs| == 0 then {} else AssignedInAll(msgs[..|msgs| - 1]) + AssignedNames(msgs[|msgs| - 1].body)
  }

  /** The loop over all messages that fills `usedIds` and `assignedIds` in first-seen
      order. */
  method CollectAllSymbols(msgs: seq<Message>) returns (used: seq<string>, targets: seq<string>)
    ensures Elems(used) == UsedInAll(msgs) && Elems(targets) == AssignedInAll(msgs)
    ensures NoDup(used) && NoDup(targets)
  {
    used, targets := [], [];
    for i := 0 to |msgs|
      invariant Elems(used) == UsedInAll(msgs[..i]) && Elems(targets) == AssignedInAll(msgs[..i])
      invariant NoDup(used) && NoDup(targets)
    {
      var prefix := msgs[..i + 1];
      assert prefix[..|prefix| - 1] == msgs[..i];
      var r := CollectSymbols(msgs[i].body, used, targets);
      used, targets := r.0, r.1;
    }
    assert msgs[..|msgs|] == msgs;
  }

  /** `r` is `s` with some elements left out, the rest in their order in `s`. */
  predicate SubsequenceOf(r: seq<string>, s: seq<string>)
    decreases |s|
  {
    if |r| == 0 then true
    else if |s| == 0 then false
    else if r[0] == s[0] then SubsequenceOf(r[1..], s[1..])
    else SubsequenceOf(r, s[1..])
  }

  /** A subsequence sits at strictly increasing positions of the sequence it is taken from. */
  lemma {:induction false} SubsequencePositions(r: seq<string>, s: seq<string>) returns (pos: seq<nat>)
    requires SubsequenceOf(r, s)
    ensures |pos| == |r|
    ensures forall k :: 0 <= k < |r| ==> pos[k] < |s| && s[pos[k]] == r[k]
    ensures forall k, l :: 0 <= k < l < |r| ==> pos[k] < pos[l]
    decreases |s|
  {
    if |r| == 0 {
      pos := [];
    } else if r[0] == s[0] {
      var tail := SubsequencePositions(r[1..], s[1..]);
      pos := [0] + seq(|tail|, k requires 0 <= k < |tail| => tail[k] + 1);
    } else {
      var tail := SubsequencePositions(r, s[1..]);
      pos := seq(|tail|, k requires 0 <= k < |tail| => tail[k] + 1);
    }
  }

  /** `messageSymbols`: the used names, in first-seen order, minus assignment targets,
      declared keys and role names. */
  function PlaintextSymbols(used: seq<string>, targets: seq<string>, keys: set<string>, roles: seq<string>): (r: seq<string>)
    ensures forall x :: x in r <==> x in used && x !in targets && x !in keys && x !in roles
    ensures NoDup(used) ==> NoDup(r)
    ensures SubsequenceOf(r, used)
    decreases |used|
  {
    if |used| == 0 then []
    else
      var rest := PlaintextSymbols(used[1..], targets, keys, roles);
      var x := used[0];
      assert forall y :: y in used <==> y == x || y in used[1..];
      assert NoDup(used) ==> x !in used[1..] && NoDup(used[1..]) by {
        if NoDup(used) {
          assert forall i :: 0 <= i < |used[1..]| ==> used[1..][i] == used[i + 1];
        }
      }
      if x !in targets && x !in keys && x !in roles then
        assert ([x] + rest)[1..] == rest;
        [x] + rest
      else
        assert x !in rest;
        rest
  }

  // ---------------------------------------------------------------------------------
  // collectKeyUsage and markKeyUses
  // ---------------------------------------------------------------------------------

  /** `KeyUsage`: three insertion-ordered sets of key names. */
  datatype KeyUsage = KeyUsage(rsaPublic: seq<string>, rsaPrivate: seq<string>, elgamalPublic: seq<string>)

  /** `a` is `b` with names appended, each set still free of duplicates. */
  predicate Grows(a: KeyUsage, b: KeyUsage) {
    && a.rsaPublic <= b.rsaPublic && a.rsaPrivate <= b.rsaPrivate && a.elgamalPublic <= b.elgamalPublic
    && (NoDup(a.rsaPublic) ==> NoDup(b.rsaPublic))
    && (NoDup(a.rsaPrivate) ==> NoDup(b.rsaPrivate))
    && (NoDup(a.elgamalPublic) ==> NoDup(b.elgamalPublic))
  }

  /** `collectKeyUsage`: verification keys become RSA public keys, signing keys RSA private
      keys, and encryption keys ElGamal public keys when declared PUBLIC (an undeclared key
      counts as SHARED). */
  function CollectKeyUsage(n: Node, u: KeyUsage, kinds: map<string, KeyKind>): (r: KeyUsage)
    ensures Grows(u, r)
    decreases n
  {
    match n
    case Assign(_, v) => CollectKeyUsage(v, u, kinds)
    case Encrypt(k, m) =>
      var u1 := if KindOf(kinds, k) == PUBLIC then u.(elgamalPublic := AddNew(u.elgamalPublic, k)) else u;
      CollectKeyUsage(m, u1, kinds)
    case Sign(sk, m) => CollectKeyUsage(m, u.(rsaPrivate := AddNew(u.rsaPrivate, sk)), kinds)
    case Verify(pk, m, s) =>
      var u1 := CollectKeyUsage(m, u.(rsaPublic := AddNew(u.rsaPublic, pk)), kinds);
      CollectKeyUsage(s, u1, kinds)
    case Mac(_, m) => CollectKeyUsage(m, u, kinds)
    case Hash(i) => CollectKeyUsage(i, u, kinds)
    case Concat(l, r) => CollectKeyUsage(r, CollectKeyUsage(l, u, kinds), kinds)
    case _ => u
  }

  /** The names `collectKeyUsage` adds are exactly the keys of the matching slot. */
  lemma {:induction false} CollectKeyUsageElems(n: Node, u: KeyUsage, kinds: map<string, KeyKind>)
    ensures var r := CollectKeyUsage(n, u, kinds);
      && (forall k :: k in r.rsaPublic <==> k in u.rsaPublic || (VerifyKey, k) in KeysIn(n))
      && (forall k :: k in r.rsaPrivate <==> k in u.rsaPrivate || (SignKey, k) in KeysIn(n))
      && (forall k :: k in r.elgamalPublic <==> k in u.elgamalPublic || ((EncKey, k) in KeysIn(n) && KindOf(kinds, k) == PUBLIC))
    decreases n
  {
    match n
    case Assign(_, v) => CollectKeyUsageElems(v, u, kinds);
    case Encrypt(k, m) =>
      var u1 := if KindOf(kinds, k) == PUBLIC then u.(elgamalPublic := AddNew(u.elgamalPublic, k)) else u;
      CollectKeyUsageElems(m, u1, kinds);
    case Sign(sk, m) => CollectKeyUsageElems(m, u.(rsaPrivate := AddNew(u.rsaPrivate, sk)), kinds);
    case Verify(pk, m, s) =>
      var u0 := u.(rsaPublic := AddNew(u.rsaPublic, pk));
      CollectKeyUsageElems(m, u0, kinds);
      CollectKeyUsageElems(s, CollectKeyUsage(m, u0, kinds), kinds);
    case Mac(_, m) => CollectKeyUsageElems(m, u, kinds);
    case Hash(i) => CollectKeyUsageElems(i, u, kinds);
    case Concat(l, r) =>
      CollectKeyUsageElems(l, u, kinds);
      CollectKeyUsageElems(r, CollectKeyUsage(l, u, kinds), kinds);
    case _ =>
  }

  /** How a declared key is used. */
  datatype KeyUse = PK_ENCRYPT | SIGN | VERIFY

  /** The uses an expression makes of key `k`, gathered over its sub-expressions. */
  function UsesOf(n: Node, k: string, kinds: map<string, KeyKind>): set<KeyUse>
    decreases n
  {
    match n
    case Assign(_, v) => UsesOf(v, k, kinds)
    case Encrypt(e, m) => (if e == k && e in kinds && kinds[e] == PUBLIC then {PK_ENCRYPT} else {}) + UsesOf(m, k, kinds)
    case Sign(sk, m) => (if sk == k then {SIGN} else {}) + UsesOf(m, k, kinds)
    case Verify(pk, m, s) => (if pk == k then {VERIFY} else {}) + UsesOf(m, k, kinds) + UsesOf(s, k, kinds)
    case Mac(_, m) => UsesOf(m, k, kinds)
    case Hash(i) => UsesOf(i, k, kinds)
    case Concat(l, r) => UsesOf(l, k, kinds) + UsesOf(r, k, kinds)
    case _ => {}
  }

  /** A key is used for public-key encryption exactly when it encrypts somewhere and is
      declared PUBLIC, for signing exactly when it signs, for verification exactly when it
      verifies. */
  lemma {:induction false} UsesOfSlots(n: Node, k: string, kinds: map<string, KeyKind>)
    ensures PK_ENCRYPT in UsesOf(n, k, kinds) <==> (EncKey, k) in KeysIn(n) && k in kinds && kinds[k] == PUBLIC
    ensures SIGN in UsesOf(n, k, kinds) <==> (SignKey, k) in KeysIn(n)
    ensures VERIFY in UsesOf(n, k, kinds) <==> (VerifyKey, k) in KeysIn(n)
    decreases n
  {
    match n
    case Assign(_, v) => UsesOfSlots(v, k, kinds);
    case Encrypt(_, m) => UsesOfSlots(m, k, kinds);
    case Sign(_, m) => UsesOfSlots(m, k, kinds);
    case Verify(_, m, s) => UsesOfSlots(m, k, kinds); UsesOfSlots(s, k, kinds);
    case Mac(_, m) => UsesOfSlots(m, k, kinds);
    case Hash(i) => UsesOfSlots(i, k, kinds);
    case Concat(l, r) => UsesOfSlots(l, k, kinds); UsesOfSlots(r, k, kinds);
    case _ =>
  }

  /** `markKeyUses`: each tracked key gains exactly the uses the expression makes of it.
      Encryption under a PUBLIC key looks the key up unguarded, so such keys must be
      tracked. */
  function MarkKeyUses(n: Node, uses: map<string, set<KeyUse>>, kinds: map<string, KeyKind>): (r: map<string, set<KeyUse>>)
    requires forall k :: k in kinds && kinds[k] == PUBLIC ==> k in uses
    ensures r.Keys == uses.Keys
    decreases n
  {
    match n
    case Assign(_, v) => MarkKeyUses(v, uses, kinds)
    case Encrypt(k, m) =>
      var u1 := if k in kinds && kinds[k] == PUBLIC then uses[k := uses[k] + {PK_ENCRYPT}] else uses;
      MarkKeyUses(m, u1, kinds)
    case Sign(sk, m) =>
      var u1 := if sk in uses then uses[sk := uses[sk] + {SIGN}] else uses;
      MarkKeyUses(m, u1, kinds)
    case Verify(pk, m, s) =>
      var u1 := if pk in uses then uses[pk := uses[pk] + {VERIFY}] else uses;
      MarkKeyUses(s, MarkKeyUses(m, u1, kinds), kinds)
    case Mac(_, m) => MarkKeyUses(m, uses, kinds)
    case Hash(i) => MarkKeyUses(i, uses, kinds)
    case Concat(l, r) => MarkKeyUses(r, MarkKeyUses(l, uses, kinds), kinds)
    case _ => uses
  }

  /** Each tracked key gains exactly the uses the expression makes of it. */
  lemma {:induction false} MarkKeyUsesAt(n: Node, uses: map<string, set<KeyUse>>, kinds: map<string, KeyKind>, k: string)
    requires forall k :: k in kinds && kinds[k] == PUBLIC ==> k in uses
    requires k in uses
    ensures MarkKeyUses(n, uses, kinds)[k] == uses[k] + UsesOf(n, k, kinds)
    decreases n
  {
    match n
    case Assign(_, v) => MarkKeyUsesAt(v, uses, kinds, k);
    case Encrypt(e, m) =>
      var u1 := if e in kinds && kinds[e] == PUBLIC then uses[e := uses[e] + {PK_ENCRYPT}] else uses;
      MarkKeyUsesAt(m, u1, kinds, k);
    case Sign(sk, m) =>
      var u1 := if sk in uses then uses[sk := uses[sk] + {SIGN}] else uses;
      MarkKeyUsesAt(m, u1, kinds, k);
    case Verify(pk, m, s) =>
      var u1 := if pk in uses then uses[pk := uses[pk] + {VERIFY}] else uses;
      MarkKeyUsesAt(m, u1, kinds, k);
      MarkKeyUsesAt(s, MarkKeyUses(m, u1, kinds), kinds, k);

    case Mac(_, m) => MarkKeyUsesAt(m, uses, kinds, k);
    case Hash(i) => MarkKeyUsesAt(i, uses, kinds, k);
    case Concat(l, r) =>
      MarkKeyUsesAt(l, uses, kinds, k);
      MarkKeyUsesAt(r, MarkKeyUses(l, uses, kinds), kinds, k);
    case _ =>
  }

  /** Every key name with its position over a list of message bodies. */
  function KeysInAll(msgs: seq<Message>): set<(KeySlot, string)>
    decreases |msgs|
  {
    if |msgs| == 0 then {} else KeysInAll(msgs[..|msgs| - 1]) + KeysIn(msgs[|msgs| - 1].body)
  }

  /** The usage sets after walking the bodies in order. */
  function UsageIn(msgs: seq<Message>, kinds: map<string, KeyKind>): KeyUsage
    decreases |msgs|
  {
    if |msgs| == 0 then KeyUsage([], [], [])
    else CollectKeyUsage(msgs[|msgs| - 1].body, UsageIn(msgs[..|msgs| - 1], kinds), kinds)
  }

  /** Over a whole protocol the three usage sets hold each name once, and hold exactly the
      verification keys, the signing keys, and the encryption keys declared PUBLIC. */
  lemma {:induction false} UsageInElems(msgs: seq<Message>, kinds: map<string, KeyKind>)
    ensures var u := UsageIn(msgs, kinds);
      && NoDup(u.rsaPublic) && NoDup(u.rsaPrivate) && NoDup(u.elgamalPublic)
      && (forall k :: k in u.rsaPublic <==> (VerifyKey, k) in KeysInAll(msgs))
      && (forall k :: k in u.rsaPrivate <==> (SignKey, k) in KeysInAll(msgs))
      && (forall k :: k in u.elgamalPublic <==> (EncKey, k) in KeysInAll(msgs) && KindOf(kinds, k) == PUBLIC)
    decreases |msgs|
  {
    if |msgs| > 0 {
      var init := msgs[..|msgs| - 1];
      UsageInElems(init, kinds);
      CollectKeyUsageElems(msgs[|msgs| - 1].body, UsageIn(init, kinds), kinds);
    }
  }

  /** `analyzeKeyUsage`: the loop over the messages. */
  method AnalyzeKeyUsage(msgs: seq<Message>, kinds: map<string, KeyKind>) returns (u: KeyUsage)
    ensures u == UsageIn(msgs, kinds)
  {
    u := KeyUsage([], [], []);
    for i := 0 to |msgs|
      invariant u == UsageIn(msgs[..i], kinds)
    {
      var prefix := msgs[..i + 1];
      assert prefix[..|prefix| - 1] == msgs[..i];
      u := CollectKeyUsage(msgs[i].body, u, kinds);
    }
    assert msgs[..|msgs|] == msgs;
  }

  /** The uses of key `k` over a list of message bodies. */
  function UsesInAll(msgs: seq<Message>, k: string, kinds: map<string, KeyKind>): set<KeyUse>
    decreases |msgs|
  {
    if |msgs| == 0 then {} else UsesInAll(msgs[..|msgs| - 1], k, kinds) + UsesOf(msgs[|msgs| - 1].body, k, kinds)
  }

  /** Over a whole protocol a key is marked for public-key encryption, signing or
      verification exactly when some body uses it that way. */
  lemma {:induction false} UsesInAllSlots(msgs: seq<Message>, k: string, kinds: map<string, KeyKind>)
    ensures PK_ENCRYPT in UsesInAll(msgs, k, kinds) <==> (EncKey, k) in KeysInAll(msgs) && k in kinds && kinds[k] == PUBLIC
    ensures SIGN in UsesInAll(msgs, k, kinds) <==> (SignKey, k) in KeysInAll(msgs)
    ensures VERIFY in UsesInAll(msgs, k, kinds) <==> (VerifyKey, k) in KeysInAll(msgs)
    decreases |msgs|
  {
    if |msgs| > 0 {
      UsesInAllSlots(msgs[..|msgs| - 1], k, kinds);
      UsesOfSlots(msgs[|msgs| - 1].body, k, kinds);
    }
  }

  /** Step 3 of `fromProtocol`: an empty use set for every declared key, then
      `markKeyUses` over every body. */
  method MarkAllUses(msgs: seq<Message>, kinds: map<string, KeyKind>) returns (uses: map<string, set<KeyUse>>)
    ensures uses.Keys == kinds.Keys
    ensures forall k :: k in kinds ==> uses[k] == UsesInAll(msgs, k, kinds)
  {
    uses := map k | k in kinds :: {};
    for i := 0 to |msgs|
      invariant uses.Keys == kinds.Keys
      invariant forall k :: k in kinds ==> uses[k] == UsesInAll(msgs[..i], k, kinds)
    {
      var prefix := msgs[..i + 1];
      assert prefix[..|prefix| - 1] == msgs[..i];
      var next := MarkKeyUses(msgs[i].body, uses, kinds);
      forall k | k in kinds
        ensures next[k] == UsesInAll(prefix, k, kinds)
      {
        MarkKeyUsesAt(msgs[i].body, uses, kinds, k);
      }
      uses := next;
    }
    assert msgs[..|msgs|] == msgs;
  }

  // ---------------------------------------------------------------------------------
  // Predeclared protocol variables
  // ---------------------------------------------------------------------------------

  /** `varTypes`: every assignment target with the type of its last assigned value. */
  function VarTypes(msgs: seq<Message>): map<string, JType>
    decreases |msgs|
  {
    if |msgs| == 0 then map[]
    else
      var m := VarTypes(msgs[..|msgs| - 1]);
      var b := msgs[|msgs| - 1].body;
      if b.Assign? then m[b.target := TypeOfExpr(b.value)] else m
  }

  /** Exactly the assignment targets are predeclared. */
  lemma {:induction false} VarTypesKeys(msgs: seq<Message>, x: string)
    ensures x in VarTypes(msgs) <==> exists i :: 0 <= i < |msgs| && msgs[i].body.Assign? && msgs[i].body.target == x
    decreases |msgs|
  {
    if |msgs| > 0 {
      var init := msgs[..|msgs| - 1];
      VarTypesKeys(init, x);
      assert forall i :: 0 <= i < |init| ==> init[i] == msgs[i];
      if x in VarTypes(msgs) && x !in VarTypes(init) {
        assert msgs[|msgs| - 1].body.Assign? && msgs[|msgs| - 1].body.target == x;
      }
    }
  }

  /** A variable is boolean exactly when its last assignment is a verification. */
  lemma {:induction false} VarTypesLastAssign(msgs: seq<Message>, i: nat)
    requires i < |msgs| && msgs[i].body.Assign?
    requires forall j :: i < j < |msgs| && msgs[j].body.Assign? ==> msgs[j].body.target != msgs[i].body.target
    ensures msgs[i].body.target in VarTypes(msgs)
    ensures VarTypes(msgs)[msgs[i].body.target] == BOOL <==> msgs[i].body.value.Verify?
    decreases |msgs|
  {
    if i < |msgs| - 1 {
      var init := msgs[..|msgs| - 1];
      assert init[i] == msgs[i];
      VarTypesLastAssign(init, i);
    }
  }

  /** The loop that fills `varTypes`. */
  method GatherVarTypes(msgs: seq<Message>) returns (types: map<string, JType>)
    ensures types == VarTypes(msgs)
  {
    types := map[];
    for i := 0 to |msgs|
      invariant types == VarTypes(msgs[..i])
    {
      var prefix := msgs[..i + 1];
      assert prefix[..|prefix| - 1] == msgs[..i];
      var b := msgs[i].body;
      if b.Assign? {
        types := types[b.target := TypeOfExpr(b.value)];
      }
    }
    assert msgs[..|msgs|] == msgs;
  }

  // ---------------------------------------------------------------------------------
  // generateExpr
  // ---------------------------------------------------------------------------------

  /** `generateExpr`: the Java expression computing a protocol expression. An identifier
      is its own name; every other form is a method call, so the text ends in `)`. */
  function GenerateExpr(n: Node, kinds: map<string, KeyKind>): (code: string)
    ensures n.Identifier? ==> code == n.name
    ensures !n.Identifier? ==> |code| > 0 && code[|code| - 1] == ')'
    decreases n
  {
    match n
    case Identifier(x) => x
    case Concat(l, r) => "CryptoUtil.concat(" + GenerateExpr(l, kinds) + ", " + GenerateExpr(r, kinds) + ")"
    case Encrypt(k, m) =>
      if KindOf(kinds, k) == PUBLIC then "CryptoUtil.elGamalEncrypt(" + k + ", " + GenerateExpr(m, kinds) + ")"
      else "CryptoUtil.encryptAESGCM(" + k + ", " + GenerateExpr(m, kinds) + ")"
    case Mac(k, m) => "CryptoUtil.hmacSha256(" + k + ".getEncoded(), " + GenerateExpr(m, kinds) + ")"
    case Hash(i) => "CryptoUtil.sha256(" + GenerateExpr(i, kinds) + ")"
    case Sign(sk, m) => "CryptoUtil.sign(" + sk + ", " + GenerateExpr(m, kinds) + ")"
    case Verify(pk, m, s) => "CryptoUtil.verify(" + pk + ", " + GenerateExpr(m, kinds) + ", " + GenerateExpr(s, kinds) + ")"
    case _ => "\"" + Label(n) + "\".getBytes()"
  }

  const ELGAMAL_CALL := "CryptoUtil.elGamalEncrypt("
  const AES_CALL := "CryptoUtil.encryptAESGCM("

  /** An encryption becomes ElGamal exactly when its key is declared PUBLIC, and AES-GCM
      otherwise, undeclared keys included. */
  lemma {:induction false} EncryptDispatch(k: string, m: Node, kinds: map<string, KeyKind>)
    ensures StartsWith(GenerateExpr(Encrypt(k, m), kinds), ELGAMAL_CALL) <==> k in kinds && kinds[k] == PUBLIC
    ensures StartsWith(GenerateExpr(Encrypt(k, m), kinds), AES_CALL) <==> !(k in kinds && kinds[k] == PUBLIC)
  {
    var code := GenerateExpr(Encrypt(k, m), kinds);
    assert ELGAMAL_CALL[12] != AES_CALL[12];
    if KindOf(kinds, k) == PUBLIC {
      assert code[..|ELGAMAL_CALL|] == ELGAMAL_CALL;
    } else {
      assert code[..|AES_CALL|] == AES_CALL;
    }
  }

  /** The emitted code depends on the declarations only through which encryption keys are
      PUBLIC. */
  lemma {:induction false} GenerateExprFrame(n: Node, k1: map<string, KeyKind>, k2: map<string, KeyKind>)
    requires forall p :: p in KeysIn(n) && p.0 == EncKey ==> (KindOf(k1, p.1) == PUBLIC <==> KindOf(k2, p.1) == PUBLIC)
    ensures GenerateExpr(n, k1) == GenerateExpr(n, k2)
    decreases n
  {
    match n
    case Concat(l, r) => GenerateExprFrame(l, k1, k2); GenerateExprFrame(r, k1, k2);
    case Encrypt(k, m) =>
      assert (EncKey, k) in KeysIn(n);
      GenerateExprFrame(m, k1, k2);
    case Mac(_, m) => GenerateExprFrame(m, k1, k2);
    case Hash(i) => GenerateExprFrame(i, k1, k2);
    case Sign(_, m) => GenerateExprFrame(m, k1, k2);
    case Verify(_, m, s) => GenerateExprFrame(m, k1, k2); GenerateExprFrame(s, k1, k2);
    case _ =>
  }

  /** Declaring a key SHARED, or PRIVATE, emits the same code as not declaring it. */
  lemma {:induction false} UndeclaredIsShared(n: Node, kinds: map<string, KeyKind>, k: string, kind: KeyKind)
    requires kind != PUBLIC
    ensures GenerateExpr(n, kinds[k := kind]) == GenerateExpr(n, kinds - {k})
  {
    GenerateExprFrame(n, kinds[k := kind], kinds - {k});
  }

  // ---------------------------------------------------------------------------------
  // The selection logic of fromProtocol
  // ---------------------------------------------------------------------------------

  /** The listening role: the receiver of the first message; with no messages, the first
      role, or `Bob` when there is none. */
  function Listener(roles: seq<string>, msgs: seq<Message>): (r: string)
    ensures |msgs| > 0 ==> r == msgs[0].receiver
    ensures |msgs| == 0 ==> r == if |roles| > 0 then roles[0] else "Bob"
  {
    if |msgs| == 0 then (if |roles| == 0 then "Bob" else roles[0]) else msgs[0].receiver
  }

  /** A key name with a leading `pk` dropped: the suffix that pairs `pkX` with `skX`. */
  function Suffix(pk: string): (s: string)
    ensures StartsWith(pk, "pk") ==> pk == "pk" + s
    ensures !StartsWith(pk, "pk") ==> s == pk
  {
    if StartsWith(pk, "pk") then pk[2..] else pk
  }

  /** One generated RSA key pair: `rsaX`, with `pk` its public and `sk` its private half. */
  datatype RsaPair = RsaPair(suffix: string, pk: string, sk: string)

  /** No two RSA pairs share a suffix. */
  predicate DistinctRsa(plan: seq<RsaPair>) {
    forall i, j :: 0 <= i < j < |plan| ==> plan[i].suffix != plan[j].suffix
  }

  /** The RSA pairs emitted for the remaining verification keys when the suffixes in `done`
      are already paired. */
  function RsaPlan(pubs: seq<string>, privs: seq<string>, done: set<string>): seq<RsaPair>
    decreases |pubs|
  {
    if |pubs| == 0 then []
    else
      var sfx := Suffix(pubs[0]);
      if "sk" + sfx in privs && sfx !in done then [RsaPair(sfx, pubs[0], "sk" + sfx)] + RsaPlan(pubs[1..], privs, done + {sfx})
      else RsaPlan(pubs[1..], privs, done)
  }

  /** Every pair joins a verification key to the signing key of the same suffix, and
      that suffix was not yet paired. */
  lemma {:induction false} RsaPlanSound(pubs: seq<string>, privs: seq<string>, done: set<string>, i: nat)
    requires i < |RsaPlan(pubs, privs, done)|
    ensures var p := RsaPlan(pubs, privs, done)[i];
      && p.pk in pubs && p.suffix == Suffix(p.pk) && p.sk == "sk" + p.suffix && p.sk in privs
      && p.suffix !in done
    decreases |pubs|
  {
    var sfx := Suffix(pubs[0]);
    var plan := RsaPlan(pubs, privs, done);
    if "sk" + sfx in privs && sfx !in done {
      var rest := RsaPlan(pubs[1..], privs, done + {sfx});
      assert plan == [RsaPair(sfx, pubs[0], "sk" + sfx)] + rest;
      if i > 0 {
        RsaPlanSound(pubs[1..], privs, done + {sfx}, i - 1);
        assert plan[i] == rest[i - 1];
      }
    } else {
      RsaPlanSound(pubs[1..], privs, done, i);
    }
  }

  /** No suffix is paired twice. */
  lemma {:induction false} RsaPlanDistinct(pubs: seq<string>, privs: seq<string>, done: set<string>)
    ensures DistinctRsa(RsaPlan(pubs, privs, done))
    decreases |pubs|
  {
    if |pubs| > 0 {
      var sfx := Suffix(pubs[0]);
      var plan := RsaPlan(pubs, privs, done);
      if "sk" + sfx in privs && sfx !in done {
        var rest := RsaPlan(pubs[1..], privs, done + {sfx});
        RsaPlanDistinct(pubs[1..], privs, done + {sfx});
        assert plan == [RsaPair(sfx, pubs[0], "sk" + sfx)] + rest;
        assert plan[0].suffix == sfx;
        forall i, j | 0 <= i < j < |plan|
          ensures plan[i].suffix != plan[j].suffix
        {
          RsaPlanSound(pubs[1..], privs, done + {sfx}, j - 1);
          assert plan[j] == rest[j - 1];
          if i > 0 {
            assert plan[i] == rest[i - 1];
          }
        }
      } else {
        var rest := RsaPlan(pubs[1..], privs, done);
        assert plan == rest;
        RsaPlanDistinct(pubs[1..], privs, done);
      }
    }
  }

  /** A verification key whose signing counterpart is used gets a pair for its suffix. */
  lemma {:induction false} RsaPlanComplete(pubs: seq<string>, privs: seq<string>, done: set<string>, pk: string)
    requires pk in pubs && "sk" + Suffix(pk) in privs && Suffix(pk) !in done
    ensures exists i :: 0 <= i < |RsaPlan(pubs, privs, done)| && RsaPlan(pubs, privs, done)[i].suffix == Suffix(pk)
    decreases |pubs|
  {
    var sfx := Suffix(pubs[0]);
    var plan := RsaPlan(pubs, privs, done);
    if "sk" + sfx in privs && sfx !in done {
      if sfx != Suffix(pk) {
        RsaPlanComplete(pubs[1..], privs, done + {sfx}, pk);
        var i :| 0 <= i < |RsaPlan(pubs[1..], privs, done + {sfx})| && RsaPlan(pubs[1..], privs, done + {sfx})[i].suffix == Suffix(pk);
        assert plan[i + 1].suffix == Suffix(pk);
      } else {
        assert plan[0].suffix == Suffix(pk);
      }
    } else {
      assert pk != pubs[0];
      RsaPlanComplete(pubs[1..], privs, done, pk);
    }
  }

  /** The loop over `rsaPublicKeys` with the `rsaPairsDone` set. */
  method RsaPairs(pubs: seq<string>, privs: seq<string>) returns (pairs: seq<RsaPair>)
    ensures pairs == RsaPlan(pubs, privs, {})
  {
    pairs := [];
    var done: set<string> := {};
    for i := 0 to |pubs|
      invariant RsaPlan(pubs, privs, {}) == pairs + RsaPlan(pubs[i..], privs, done)
    {
      assert pubs[i..][0] == pubs[i] && pubs[i..][1..] == pubs[i + 1..];
      var sfx := Suffix(pubs[i]);
      var sk := "sk" + sfx;
      if sk in privs && sfx !in done {
        done := done + {sfx};
        pairs := pairs + [RsaPair(sfx, pubs[i], sk)];
      }
    }
  }

  /** One generated ElGamal key pair; `bindPrivate` when its private half is declared. */
  datatype ElGamalPair = ElGamalPair(suffix: string, pk: string, bindPrivate: bool)

  /** No two ElGamal pairs share a suffix. */
  predicate DistinctElGamal(plan: seq<ElGamalPair>) {
    forall i, j :: 0 <= i < j < |plan| ==> plan[i].suffix != plan[j].suffix
  }

  /** `skX` is declared PRIVATE. */
  predicate BindsPrivate(kinds: map<string, KeyKind>, sfx: string) {
    "sk" + sfx in kinds && kinds["sk" + sfx] == PRIVATE
  }

  /** The ElGamal pairs emitted for the remaining encryption keys. */
  function ElGamalPlan(pubs: seq<string>, kinds: map<string, KeyKind>, done: set<string>): seq<ElGamalPair>
    decreases |pubs|
  {
    if |pubs| == 0 then []
    else
      var sfx := Suffix(pubs[0]);
      if sfx in done then ElGamalPlan(pubs[1..], kinds, done)
      else
        [ElGamalPair(sfx, pubs[0], BindsPrivate(kinds, sfx))] + ElGamalPlan(pubs[1..], kinds, done + {sfx})
  }

  /** Each pair is for a new suffix and binds its private half exactly when `skX` is
      declared PRIVATE. */
  lemma {:induction false} ElGamalPlanSound(pubs: seq<string>, kinds: map<string, KeyKind>, done: set<string>, i: nat)
    requires i < |ElGamalPlan(pubs, kinds, done)|
    ensures var p := ElGamalPlan(pubs, kinds, done)[i];
      && p.pk in pubs && p.suffix == Suffix(p.pk) && p.suffix !in done
      && (p.bindPrivate <==> "sk" + p.suffix in kinds && kinds["sk" + p.suffix] == PRIVATE)
    decreases |pubs|
  {
    var sfx := Suffix(pubs[0]);
    var plan := ElGamalPlan(pubs, kinds, done);
    if sfx in done {
      ElGamalPlanSound(pubs[1..], kinds, done, i);
    } else if i > 0 {
      var rest := ElGamalPlan(pubs[1..], kinds, done + {sfx});
      ElGamalPlanSound(pubs[1..], kinds, done + {sfx}, i - 1);
      assert plan[i] == rest[i - 1];
    }
  }

  /** No suffix gets two ElGamal pairs. */
  lemma {:induction false} ElGamalPlanDistinct(pubs: seq<string>, kinds: map<string, KeyKind>, done: set<string>)
    ensures DistinctElGamal(ElGamalPlan(pubs, kinds, done))
    decreases |pubs|
  {
    if |pubs| > 0 {
      var sfx := Suffix(pubs[0]);
      var plan := ElGamalPlan(pubs, kinds, done);
      if sfx in done {
        var rest := ElGamalPlan(pubs[1..], kinds, done);
        assert plan == rest;
        ElGamalPlanDistinct(pubs[1..], kinds, done);
      } else {
        var rest := ElGamalPlan(pubs[1..], kinds, done + {sfx});
        ElGamalPlanDistinct(pubs[1..], kinds, done + {sfx});
        assert plan[0].suffix == sfx;
        forall i, j | 0 <= i < j < |plan|
          ensures plan[i].suffix != plan[j].suffix
        {
          ElGamalPlanSound(pubs[1..], kinds, done + {sfx}, j - 1);
          assert plan[j] == rest[j - 1];
          if i > 0 {
            assert plan[i] == rest[i - 1];
          }
        }
      }
    }
  }

  /** Every ElGamal public key's suffix not yet paired gets a pair. */
  lemma {:induction false} ElGamalPlanComplete(pubs: seq<string>, kinds: map<string, KeyKind>, done: set<string>, pk: string)
    requires pk in pubs && Suffix(pk) !in done
    ensures exists i :: 0 <= i < |ElGamalPlan(pubs, kinds, done)| && ElGamalPlan(pubs, kinds, done)[i].suffix == Suffix(pk)
    decreases |pubs|
  {
    var sfx := Suffix(pubs[0]);
    var plan := ElGamalPlan(pubs, kinds, done);
    if sfx in done {
      assert pk != pubs[0];
      ElGamalPlanComplete(pubs[1..], kinds, done, pk);
    } else if sfx != Suffix(pk) {
      ElGamalPlanComplete(pubs[1..], kinds, done + {sfx}, pk);
      var i :| 0 <= i < |ElGamalPlan(pubs[1..], kinds, done + {sfx})| && ElGamalPlan(pubs[1..], kinds, done + {sfx})[i].suffix == Suffix(pk);
      assert plan[i + 1].suffix == Suffix(pk);
    } else {
      assert plan[0].suffix == Suffix(pk);
    }
  }

  /** The loop over `elgamalPublicKeys` with the `elgPairsDone` set. */
  method ElGamalPairs(pubs: seq<string>, kinds: map<string, KeyKind>) returns (pairs: seq<ElGamalPair>)
    ensures pairs == ElGamalPlan(pubs, kinds, {})
  {
    pairs := [];
    var done: set<string> := {};
    for i := 0 to |pubs|
      invariant ElGamalPlan(pubs, kinds, {}) == pairs + ElGamalPlan(pubs[i..], kinds, done)
    {
      ElGamalPlanStep(pubs, i, kinds, done, pairs);
      var sfx := Suffix(pubs[i]);
      if sfx !in done {
        done := done + {sfx};
        var sk := "sk" + sfx;
        var bind := sk in kinds && kinds[sk] == PRIVATE;
        pairs := pairs + [ElGamalPair(sfx, pubs[i], bind)];
      }
    }
    assert pubs[|pubs|..] == [];
    assert pairs + [] == pairs;
  }

  /** One step of the loop over the ElGamal keys keeps the emitted pairs a prefix of the
      plan. */
  lemma {:induction false} ElGamalPlanStep(pubs: seq<string>, i: nat, kinds: map<string, KeyKind>, done: set<string>, pairs: seq<ElGamalPair>)
    requires i < |pubs|
    requires ElGamalPlan(pubs, kinds, {}) == pairs + ElGamalPlan(pubs[i..], kinds, done)
    ensures var sfx := Suffix(pubs[i]);
      sfx in done ==> ElGamalPlan(pubs, kinds, {}) == pairs + ElGamalPlan(pubs[i + 1..], kinds, done)
    ensures var sfx := Suffix(pubs[i]);
      sfx !in done ==>
        ElGamalPlan(pubs, kinds, {})
          == (pairs + [ElGamalPair(sfx, pubs[i], "sk" + sfx in kinds && kinds["sk" + sfx] == PRIVATE)])
            + ElGamalPlan(pubs[i + 1..], kinds, done + {sfx})
  {
    assert pubs[i..][0] == pubs[i] && pubs[i..][1..] == pubs[i + 1..];
    var sfx := Suffix(pubs[i]);
    if sfx !in done {
      var pair := ElGamalPair(sfx, pubs[i], BindsPrivate(kinds, sfx));
      var rest := ElGamalPlan(pubs[i + 1..], kinds, done + {sfx});
      assert pairs + ([pair] + rest) == (pairs + [pair]) + rest;
    }
  }

  /** Every generated ElGamal pair is for a key some body encrypts under and that is
      declared PUBLIC. */
  lemma {:induction false} ElGamalPairUsed(msgs: seq<Message>, kinds: map<string, KeyKind>, i: nat)
    requires i < |ElGamalPlan(UsageIn(msgs, kinds).elgamalPublic, kinds, {})|
    ensures var p := ElGamalPlan(UsageIn(msgs, kinds).elgamalPublic, kinds, {})[i];
      && (EncKey, p.pk) in KeysInAll(msgs) && p.pk in kinds && kinds[p.pk] == PUBLIC
      && p.suffix == Suffix(p.pk)
  {
    var u := UsageIn(msgs, kinds);
    UsageInElems(msgs, kinds);
    ElGamalPlanSound(u.elgamalPublic, kinds, {}, i);
  }

  /** Every key declared PUBLIC that some body encrypts under gets an ElGamal pair for its
      suffix. */
  lemma {:induction false} ElGamalPairMade(msgs: seq<Message>, kinds: map<string, KeyKind>, pk: string)
    requires (EncKey, pk) in KeysInAll(msgs) && pk in kinds && kinds[pk] == PUBLIC
    ensures var plan := ElGamalPlan(UsageIn(msgs, kinds).elgamalPublic, kinds, {});
      exists i :: 0 <= i < |plan| && plan[i].suffix == Suffix(pk)
  {
    var u := UsageIn(msgs, kinds);
    UsageInElems(msgs, kinds);
    ElGamalPlanComplete(u.elgamalPublic, kinds, {}, pk);
  }
}
