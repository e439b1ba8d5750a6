/** The two-column sequence drawing handed to the graph library: the label wrapper and the
    layout of the node and link arrays. The renderer's copy wraps at 75 characters and the
    application's copy at 100; everything else is the same. */
module Svg {
  import opened Wrappers
  import opened JavaStrings

  const RENDER_WRAP_WIDTH: nat := 75
  const APP_WRAP_WIDTH: nat := 100

  /** The two characters `\n` that Graphviz reads as a line break. */
  const MARKER := "\\n"

  // ---------------------------------------------------------------------------------
  // wrapLabel
  // ---------------------------------------------------------------------------------

  /** The StringBuilder contents after the remaining words, when `count` characters are
      already on the current line: a marker before a word that would pass the width, then
      the word and one space. */
  function Wrap(words: seq<string>, count: int, width: nat): string
    decreases |words|
  {
    if |words| == 0 then ""
    else Piece(words[0], count, width) + Wrap(words[1..], Next(words[0], count, width), width)
  }

  /** What one word adds: a marker first when it would pass the width, then the word and
      one space. */
  function Piece(w: string, count: int, width: nat): string {
    (if count + |w| > width then MARKER else "") + w + " "
  }

  /** The running count after one word: restarted at a marker. */
  function Next(w: string, count: int, width: nat): int {
    (if count + |w| > width then 0 else count) + |w| + 1
  }

  /** `wrapLabel`: the words split at single spaces, wrapped, and trimmed. */
  function Wrapped(text: string, width: nat): string {
    Trim(Wrap(Split(text, ' '), 0, width))
  }

  /** `wrapLabel`: split, the loop over the words, trim. */
  method WrapLabel(text: string, width: nat) returns (r: string)
    ensures r == Wrapped(text, width)
  {
    var words := Split(text, ' ');
    var sb := WrapWords(words, width);
    r := Trim(sb);
  }

  /** The loop of `wrapLabel` with its running `count`. */
  method WrapWords(words: seq<string>, width: nat) returns (sb: string)
    ensures sb == Wrap(words, 0, width)
  {
    sb := "";
    var count := 0;
    for i := 0 to |words|
      invariant Wrap(words, 0, width) == sb + Wrap(words[i..], count, width)
    {
      var w := words[i];
      WrapStep(words, i, count, width);
      PieceAppend(sb, w, count, width, Wrap(words[i + 1..], Next(w, count, width), width));
      if count + |w| > width {
        sb := sb + MARKER;
        count := 0;
      }
      sb := sb + w + " ";
      count := count + |w| + 1;
    }
    assert words[|words|..] == [];
    assert Wrap(words, 0, width) == sb + "";
  }

  /** Appending the marker (when due), the word and a space, then the rest, is appending
      the word's piece and the rest. */
  lemma {:induction false} PieceAppend(before: string, w: string, count: int, width: nat, rest: string)
    ensures (if count + |w| > width then before + MARKER else before) + w + " " + rest
      == before + (Piece(w, count, width) + rest)
  {
    if count + |w| > width {
      assert before + MARKER + w + " " + rest == before + (MARKER + w + " " + rest);
    } else {
      assert before + w + " " + rest == before + ("" + w + " " + rest);
    }
  }

  lemma {:induction false} WrapStep(words: seq<string>, i: nat, count: int, width: nat)
    requires i < |words|
    ensures Wrap(words[i..], count, width)
      == Piece(words[i], count, width) + Wrap(words[i + 1..], Next(words[i], count, width), width)
  {
    assert words[i..][0] == words[i] && words[i..][1..] == words[i + 1..];
  }

  /** The words joined back, each followed by one space. */
  function Spaced(words: seq<string>): string
    decreases |words|
  {
    if |words| == 0 then "" else words[0] + " " + Spaced(words[1..])
  }

  /** The length of the words with one space each. */
  function SpacedLength(words: seq<string>): nat
    decreases |words|
  {
    if |words| == 0 then 0 else |words[0]| + 1 + SpacedLength(words[1..])
  }

  /** When everything fits on the current line, no marker is written. */
  lemma {:induction false} WrapFits(words: seq<string>, count: nat, width: nat)
    requires count + SpacedLength(words) <= width + 1
    ensures Wrap(words, count, width) == Spaced(words)
    decreases |words|
  {
    if |words| > 0 {
      WrapFits(words[1..], count + |words[0]| + 1, width);
    }
  }

  /** The words in order, each followed by one space, with a marker before word `i`
      exactly when `marks[i]` holds. */
  function Marked(words: seq<string>, marks: seq<bool>): string
    requires |marks| == |words|
    decreases |words|
  {
    if |words| == 0 then ""
    else (if marks[0] then MARKER else "") + words[0] + " " + Marked(words[1..], marks[1..])
  }

  /** Whatever the widths, the wrapped text is every word in input order followed by one
      space, with markers in between; the first marker comes exactly when the first word
      would pass the width. */
  lemma {:induction false} WrapMarks(words: seq<string>, count: int, width: nat) returns (marks: seq<bool>)
    ensures |marks| == |words| && Wrap(words, count, width) == Marked(words, marks)
    ensures |words| > 0 ==> (marks[0] <==> count + |words[0]| > width)
    decreases |words|
  {
    if |words| == 0 {
      marks := [];
    } else {
      var rest := WrapMarks(words[1..], Next(words[0], count, width), width);
      marks := [count + |words[0]| > width] + rest;
      assert marks[1..] == rest;
    }
  }

  /** Without markers, the marked text is the words each followed by one space. */
  lemma {:induction false} UnmarkedIsSpaced(words: seq<string>, marks: seq<bool>)
    requires |marks| == |words| && forall i :: 0 <= i < |marks| ==> !marks[i]
    ensures Marked(words, marks) == Spaced(words)
    decreases |words|
  {
    if |words| > 0 {
      UnmarkedIsSpaced(words[1..], marks[1..]);
    }
  }

  lemma {:induction false} SpacedJoin(words: seq<string>)
    ensures |words| > 0 ==> Spaced(words) == Join(words, " ") + " "
    ensures |words| == 0 ==> Spaced(words) == ""
    ensures |Join(words, " ")| + 1 == SpacedLength(words) || |words| == 0
    ensures SpacedLength(words) == |Spaced(words)|
    decreases |words|
  {
    if |words| > 1 {
      SpacedJoin(words[1..]);
    }
  }

  /** Spaces only at the end. */
  predicate AllSpaces(s: string) {
    forall i :: 0 <= i < |s| ==> s[i] == ' '
  }

  /** Dropping trailing empty pieces removes only spaces from the joined text. */
  lemma {:induction false} DropTrailingEmptyJoin(xs: seq<string>) returns (sp: string)
    ensures AllSpaces(sp) && Join(xs, " ") == Join(DropTrailingEmpty(xs), " ") + sp
    decreases |xs|
  {
    if |xs| > 0 && xs[|xs| - 1] == "" {
      var init := xs[..|xs| - 1];
      var sp0 := DropTrailingEmptyJoin(init);
      JoinSnoc(init, "");
      assert xs == init + [""];
      if |init| == 0 {
        sp := "";
        assert Join(xs, " ") == "";
      } else {
        sp := sp0 + " ";
        assert DropTrailingEmpty(xs) == DropTrailingEmpty(init);
        assert Join(xs, " ") == Join(init, " ") + " ";
      }
    } else {
      sp := "";
      assert Join(xs, " ") == Join(DropTrailingEmpty(xs), " ") + sp;
    }
  }

  lemma {:induction false} JoinSnoc(xs: seq<string>, x: string)
    ensures |xs| > 0 ==> Join(xs + [x], " ") == Join(xs, " ") + " " + x
    ensures |xs| == 0 ==> Join(xs + [x], " ") == x
    decreases |xs|
  {
    if |xs| > 1 {
      assert (xs + [x])[1..] == xs[1..] + [x];
      JoinSnoc(xs[1..], x);
    } else if |xs| == 1 {
      assert xs + [x] == [xs[0], x];
      assert [xs[0], x][1..] == [x];
    }
  }

  /** The words of `split(" ")` joined by single spaces give the text less its trailing
      spaces. */
  lemma {:induction false} SplitSpaces(text: string) returns (sp: string)
    ensures AllSpaces(sp) && text == Join(Split(text, ' '), " ") + sp
  {
    if ' ' !in text {
      sp := "";
      assert text == Join([text], " ") + "";
    } else {
      SplitAllJoin(text, ' ');
      sp := DropTrailingEmptyJoin(SplitAll(text, ' '));
    }
  }

  lemma {:induction false} TrimEndSpaces(s: string, sp: string)
    requires AllSpaces(sp)
    ensures TrimEnd(s + sp) == TrimEnd(s)
    decreases |sp|
  {
    if |sp| > 0 {
      var t := s + sp;
      assert t[|t| - 1] == ' ' && t[..|t| - 1] == s + sp[..|sp| - 1];
      TrimEndSpaces(s, sp[..|sp| - 1]);
    } else {
      assert s + sp == s;
    }
  }

  lemma {:induction false} TrimStartAppend(s: string, t: string)
    requires exists i :: 0 <= i < |s| && !IsTrimmable(s[i])
    ensures TrimStart(s + t) == TrimStart(s) + t
    decreases |s|
  {
    if IsTrimmable(s[0]) {
      assert (s + t)[1..] == s[1..] + t;
      var i :| 0 <= i < |s| && !IsTrimmable(s[i]);
      assert s[1..][i - 1] == s[i];
      TrimStartAppend(s[1..], t);
    }
  }

  lemma {:induction false} TrimSpaces(s: string, sp: string)
    requires AllSpaces(sp)
    ensures Trim(s + sp) == Trim(s)
  {
    if exists i :: 0 <= i < |s| && !IsTrimmable(s[i]) {
      TrimStartAppend(s, sp);
      TrimEndSpaces(TrimStart(s), sp);
    } else {
      AllTrimmable(s + sp);
      AllTrimmable(s);
    }
  }

  lemma {:induction false} AllTrimmable(s: string)
    requires forall i :: 0 <= i < |s| ==> IsTrimmable(s[i])
    ensures Trim(s) == ""
    decreases |s|
  {
    if |s| > 0 {
      assert forall i :: 0 <= i < |s[1..]| ==> IsTrimmable(s[1..][i]);
      AllTrimmable(s[1..]);
    }
  }

  /** A label no longer than the width is only trimmed. */
  lemma {:induction false} FittingLabelIsTrimmed(text: string, width: nat)
    requires |text| <= width
    ensures Wrapped(text, width) == Trim(text)
  {
    var words := Split(text, ' ');
    var sp := SplitSpaces(text);
    SpacedJoin(words);
    WrapFits(words, 0, width);
    if |words| == 0 {
      assert Join(words, " ") == "";
      TrimSpaces("", sp);
    } else {
      TrimSpaces(Join(words, " "), sp);
      TrimSpaces(Join(words, " "), " ");
    }
  }

  /** A first word longer than the width still gets the marker in front, and trimming
      does not remove it. */
  lemma {:induction false} LongFirstWordMarked(text: string, width: nat)
    requires |Split(text, ' ')| > 0 && |Split(text, ' ')[0]| > width
    ensures StartsWith(Wrapped(text, width), MARKER)
  {
    var s := Wrap(Split(text, ' '), 0, width);
    assert s[0] == '\\' && s[1] == 'n';
    assert TrimStart(s) == s;
    TrimEndKeeps(s, 2);
    assert Wrapped(text, width)[..2] == s[..2] == MARKER;
  }

  lemma {:induction false} TrimEndKeeps(s: string, k: nat)
    requires 0 < k <= |s| && !IsTrimmable(s[k - 1])
    ensures k <= |TrimEnd(s)| && TrimEnd(s)[..k] == s[..k]
    decreases |s|
  {
    if |s| > 0 && IsTrimmable(s[|s| - 1]) {
      TrimEndKeeps(s[..|s| - 1], k);
    }
  }

  // ---------------------------------------------------------------------------------
  // The node and link arrays
  // ---------------------------------------------------------------------------------

  /** The left column belongs to the first principal, the right to the second. */
  datatype Column = Left | Right

  /** A node: its column and its row. */
  datatype Point = Point(col: Column, row: nat)

  /** The name of a node: the principal at row 0, `A<row+1>` or `B<row+1>` below it. */
  function NodeName(p: Point, p1: string, p2: string): (name: string)
    ensures p.row == 0 ==> name == if p.col == Left then p1 else p2
    ensures p.row > 0 ==> name == (if p.col == Left then "A" else "B") + NatToString(p.row + 1)
  {
    if p.row == 0 then (if p.col == Left then p1 else p2)
    else (if p.col == Left then "A" else "B") + NatToString(p.row + 1)
  }

  /** A link of the drawing. */
  datatype Link =
    | Dotted(from: Point, to: Point)
    | MessageArrow(from: Point, to: Point, text: string)
    | HeaderLink(from: Point, to: Point)

  /** What a slot of the links array is for. */
  datatype Slot = LeftSlot(i: nat) | RightSlot(i: nat) | ArrowSlot(i: nat) | HeaderSlot

  /** A slot is used when its step index is below `n - 1`. */
  predicate ValidSlot(s: Slot, n: nat) {
    s.HeaderSlot? || s.i < n - 1
  }

  /** Where a slot lives in the array of `3n - 2` links. */
  function SlotIndex(s: Slot, n: nat): nat
    requires n >= 1
  {
    match s
    case LeftSlot(i) => i
    case RightSlot(i) => i + n - 1
    case HeaderSlot => 2 * n - 2
    case ArrowSlot(i) => i + 2 * n - 1
  }

  /** The slot stored at an index of the array. */
  function SlotAt(k: nat, n: nat): Slot
    requires n >= 1
  {
    if k < n - 1 then LeftSlot(k)
    else if k < 2 * n - 2 then RightSlot(k - (n - 1))
    else if k == 2 * n - 2 then HeaderSlot
    else ArrowSlot(k - (2 * n - 1))
  }

  /** Different slots never share an index, and every used slot lies in the array. */
  lemma {:induction false} SlotsDisjoint(s: Slot, n: nat)
    requires n >= 1 && ValidSlot(s, n)
    ensures SlotIndex(s, n) < 3 * n - 2
    ensures SlotAt(SlotIndex(s, n), n) == s
  {
  }

  /** Every index of the array is some used slot. */
  lemma {:induction false} SlotsCover(k: nat, n: nat)
    requires n >= 1 && k < 3 * n - 2
    ensures ValidSlot(SlotAt(k, n), n) && SlotIndex(SlotAt(k, n), n) == k
  {
  }

  /** The link each slot holds: the dotted lifeline steps, the header link between the
      principals, and the message arrows drawn from the sender's column. */
  function SlotLink(s: Slot, p1: string, messages: seq<string>, passer: seq<string>, width: nat): Link
    requires s.ArrowSlot? ==> s.i < |messages| && s.i < |passer|
  {
    match s
    case LeftSlot(i) => Dotted(Point(Left, i), Point(Left, i + 1))
    case RightSlot(i) => Dotted(Point(Right, i), Point(Right, i + 1))
    case HeaderSlot => HeaderLink(Point(Left, 0), Point(Right, 0))
    case ArrowSlot(i) => ArrowLink(i, p1, messages, passer, width)
  }

  /** The arrow of message `i`, drawn from the sender's column. */
  function ArrowLink(i: nat, p1: string, messages: seq<string>, passer: seq<string>, width: nat): Link
    requires i < |messages| && i < |passer|
  {
    if passer[i] == p1 then MessageArrow(Point(Left, i + 1), Point(Right, i + 1), Wrapped(messages[i], width))
    else MessageArrow(Point(Right, i + 1), Point(Left, i + 1), Wrapped(messages[i], width))
  }

  /** Message arrow `i` runs from the left column to the right one exactly when the first
      principal sends message `i`, and always between the nodes of row `i + 1`. */
  lemma {:induction false} ArrowDirection(i: nat, p1: string, messages: seq<string>, passer: seq<string>, width: nat)
    requires i < |messages| && i < |passer|
    ensures var l := SlotLink(ArrowSlot(i), p1, messages, passer, width);
      && l.MessageArrow? && l.from.row == i + 1 && l.to.row == i + 1 && l.from.col != l.to.col
      && (l.from.col == Left <==> passer[i] == p1)
      && l.text == Wrapped(messages[i], width)
  {
  }

  /** The two node columns and the links array. */
  datatype Drawing = Drawing(nodesA: seq<string>, nodesB: seq<string>, links: seq<Link>)

  /** The node arrays: the principals on row 0 and named points below. */
  method Columns(n: nat, p1: string, p2: string) returns (nodesA: array<string>, nodesB: array<string>)
    requires n >= 1
    ensures nodesA.Length == n && nodesB.Length == n
    ensures forall i :: 0 <= i < n ==> nodesA[i] == NodeName(Point(Left, i), p1, p2)
    ensures forall i :: 0 <= i < n ==> nodesB[i] == NodeName(Point(Right, i), p1, p2)
  {
    nodesA := new string[n];
    nodesB := new string[n];
    nodesA[0] := p1;
    nodesB[0] := p2;
    for i := 1 to n
      invariant nodesA[0] == p1 && nodesB[0] == p2
      invariant forall j :: 1 <= j < i ==> nodesA[j] == "A" + NatToString(j + 1) && nodesB[j] == "B" + NatToString(j + 1)
    {
      nodesA[i] := "A" + NatToString(i + 1);
      nodesB[i] := "B" + NatToString(i + 1);
    }
  }

  /** The links array: per step the two dotted lifeline links and the message arrow, then
      the header link. */
  method Links(n: nat, p1: string, messages: seq<string>, passer: seq<string>, width: nat) returns (links: array<Link>)
    requires n >= 1 && |passer| >= n - 1 && |messages| >= n - 1
    ensures links.Length == 3 * n - 2
    ensures forall k :: 0 <= k < 3 * n - 2 ==> links[k] == SlotLink(SlotAt(k, n), p1, messages, passer, width)
  {
    links := new Link[3 * n - 2](_ => HeaderLink(Point(Left, 0), Point(Right, 0)));
    for i := 0 to n - 1
      invariant Filled(links[..], i, n, p1, messages, passer, width)
    {
      var wrapped := WrapLabel(messages[i], width);
      var arrow;
      if passer[i] == p1 {
        arrow := MessageArrow(Point(Left, i + 1), Point(Right, i + 1), wrapped);
      } else {
        arrow := MessageArrow(Point(Right, i + 1), Point(Left, i + 1), wrapped);
      }
      ghost var before := links[..];
      links[i] := Dotted(Point(Left, i), Point(Left, i + 1));
      links[i + n - 1] := Dotted(Point(Right, i), Point(Right, i + 1));
      links[i + 2 * n - 1] := arrow;
      FilledStep(before, i, n, p1, messages, passer, width, arrow);
      assert links[..] == before[i := Dotted(Point(Left, i), Point(Left, i + 1))]
        [i + n - 1 := Dotted(Point(Right, i), Point(Right, i + 1))][i + 2 * n - 1 := arrow];
    }
    ghost var filled := links[..];
    links[2 * n - 2] := HeaderLink(Point(Left, 0), Point(Right, 0));
    assert links[..] == filled[2 * n - 2 := HeaderLink(Point(Left, 0), Point(Right, 0))];
    SlotLinks(filled, n, p1, messages, passer, width);
  }

  /** The first `i` steps of the links array are written: lifeline links on both sides and
      the arrow of each message. */
  predicate Filled(links: seq<Link>, i: nat, n: nat, p1: string, messages: seq<string>, passer: seq<string>, width: nat)
  {
    && n >= 1 && i <= n - 1 && |passer| >= n - 1 && |messages| >= n - 1 && |links| == 3 * n - 2
    && (forall j :: 0 <= j < i ==> links[j] == Dotted(Point(Left, j), Point(Left, j + 1)))
    && (forall j :: 0 <= j < i ==> links[j + n - 1] == Dotted(Point(Right, j), Point(Right, j + 1)))
    && (forall j :: 0 <= j < i ==> links[j + 2 * n - 1] == ArrowLink(j, p1, messages, passer, width))
  }

  /** One more step of the loop keeps the written prefix. */
  lemma {:induction false} FilledStep(links: seq<Link>, i: nat, n: nat, p1: string, messages: seq<string>, passer: seq<string>, width: nat, arrow: Link)
    requires Filled(links, i, n, p1, messages, passer, width) && i < n - 1
    requires arrow == ArrowLink(i, p1, messages, passer, width)
    ensures Filled(links[i := Dotted(Point(Left, i), Point(Left, i + 1))]
      [i + n - 1 := Dotted(Point(Right, i), Point(Right, i + 1))][i + 2 * n - 1 := arrow], i + 1, n, p1, messages, passer, width)
  {
    var l3 := links[i := Dotted(Point(Left, i), Point(Left, i + 1))]
      [i + n - 1 := Dotted(Point(Right, i), Point(Right, i + 1))][i + 2 * n - 1 := arrow];
    assert |l3| == 3 * n - 2;
    forall j | 0 <= j < i + 1
      ensures l3[j] == Dotted(Point(Left, j), Point(Left, j + 1))
    {
      if j < i {
        assert l3[j] == links[j];
      }
    }
    forall j | 0 <= j < i + 1
      ensures l3[j + n - 1] == Dotted(Point(Right, j), Point(Right, j + 1))
    {
      if j < i {
        assert l3[j + n - 1] == links[j + n - 1];
      }
    }
    forall j | 0 <= j < i + 1
      ensures l3[j + 2 * n - 1] == ArrowLink(j, p1, messages, passer, width)
    {
      if j < i {
        assert l3[j + 2 * n - 1] == links[j + 2 * n - 1];
      }
    }
  }

  /** A links array filled step by step, with the header link in its slot, holds in each
      slot the link of that slot. */
  lemma {:induction false} SlotLinks(filled: seq<Link>, n: nat, p1: string, messages: seq<string>, passer: seq<string>, width: nat)
    requires n >= 1 && Filled(filled, n - 1, n, p1, messages, passer, width)
    ensures var links := filled[2 * n - 2 := HeaderLink(Point(Left, 0), Point(Right, 0))];
      forall k :: 0 <= k < 3 * n - 2 ==> links[k] == SlotLink(SlotAt(k, n), p1, messages, passer, width)
  {
    var links := filled[2 * n - 2 := HeaderLink(Point(Left, 0), Point(Right, 0))];
    forall k | 0 <= k < 3 * n - 2
      ensures links[k] == SlotLink(SlotAt(k, n), p1, messages, passer, width)
    {
      SlotsCover(k, n);
      var s := SlotAt(k, n);
      if s.ArrowSlot? {
        assert links[s.i + 2 * n - 1] == filled[s.i + 2 * n - 1];
      }
    }
  }

  /** The `SVG` constructor up to the graph library: the node names of both columns and
      the links array. It throws (here: `None`) when there is no row at all, or fewer
      messages or senders than steps. */
  method Layout(numNodes: nat, p1: string, p2: string, messages: seq<string>, passer: seq<string>, width: nat)
    returns (r: Option<Drawing>)
    ensures r.None? <==> numNodes == 0 || |passer| < numNodes - 1 || |messages| < numNodes - 1
    ensures r.Some? ==>
      && |r.value.nodesA| == numNodes && |r.value.nodesB| == numNodes
      && (forall i :: 0 <= i < numNodes ==> r.value.nodesA[i] == NodeName(Point(Left, i), p1, p2))
      && (forall i :: 0 <= i < numNodes ==> r.value.nodesB[i] == NodeName(Point(Right, i), p1, p2))
      && |r.value.links| == 3 * numNodes - 2
      && (forall k :: 0 <= k < 3 * numNodes - 2 ==> r.value.links[k] == SlotLink(SlotAt(k, numNodes), p1, messages, passer, width))
  {
    if numNodes == 0 {
      return None;
    }
    var nodesA, nodesB := Columns(numNodes, p1, p2);
    if |passer| < numNodes - 1 || |messages| < numNodes - 1 {
      return None;
    }
    var links := Links(numNodes, p1, messages, passer, width);
    r := Some(Drawing(nodesA[..], nodesB[..], links[..]));
  }
}
