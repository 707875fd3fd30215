/** The arbitrary-depth outline engine (src/main.py): the heading test, the
    builder that keeps one open section per depth, a body buffer and the tree
    under a depth-0 root, and the two-pass driver that runs them over the lines
    of a document. */
module Outline {
  import opened Text
  import opened Layout
  import opened FontSizes

  /** The tree the engine returns: a section with its heading and ordered
      children, or a body block of joined text. */
  datatype Node =
    | Section(depth: int, text: string, content: seq<Node>)
    | Block(depth: int, text: string)

  /** Heading of the depth-0 root. */
  const RootTitle: string := "CV/Resume"

  /** The heading test of src/main.py: at most five words, an upper-case first
      character, no trailing period, and no digit among the first two characters. */
  predicate IsSectionHeading(t: string)
    requires t != []
    ensures IsSectionHeading(t) ==> 1 <= WordCount(t) <= 5 && Split(t)[0][0] == t[0]
  {
    WordCount(t) <= 5 &&
    IsUpperChar(t[0]) &&
    t[|t| - 1] != '.' &&
    !IsDigitChar(t[0]) && !(|t| > 1 && IsDigitChar(t[1]))
  }

  /** A heading made of words has at most five of them, and a line of six or more
      words is always body text. */
  lemma HeadingWordBound(ws: seq<string>)
    requires forall k :: 0 <= k < |ws| ==> IsWord(ws[k])
    requires ws != []
    ensures JoinSp(ws) != []
    ensures IsSectionHeading(JoinSp(ws)) ==> |ws| <= 5
    ensures |ws| > 5 ==> !IsSectionHeading(JoinSp(ws))
  {
    WordCountJoin(ws);
    if |ws| > 1 {
      assert JoinSp(ws) == ws[0] + " " + JoinSp(ws[1..]);
    }
  }

  // ---------------------------------------------------------------------------
  // max() over depth keys

  lemma SomeKey(keys: set<int>) returns (x: int)
    requires keys != {}
    ensures x in keys
  {
    if forall y :: y !in keys {
      assert false;
    }
    x :| x in keys;
  }

  lemma {:induction false} HasMax(keys: set<int>)
    requires keys != {}
    ensures exists m :: m in keys && forall k :: k in keys ==> k <= m
    decreases |keys|
  {
    var x := SomeKey(keys);
    var rest := keys - {x};
    if rest == {} {
      forall k | k in keys ensures k <= x {
        assert k !in rest;
      }
    } else {
      HasMax(rest);
      var m :| m in rest && forall k :: k in rest ==> k <= m;
      var top := if x > m then x else m;
      forall k | k in keys ensures k <= top {
        if k != x { assert k in rest; }
      }
      assert top in keys;
    }
  }

  /** max(keys) of a non-empty set of depths. */
  function MaxKey(keys: set<int>): (m: int)
    requires keys != {}
    ensures m in keys && forall k :: k in keys ==> k <= m
  {
    HasMax(keys);
    var m :| m in keys && forall k :: k in keys ==> k <= m;
    m
  }

  /** max((k for k in keys if k < d), default=0). */
  function MaxBelow(keys: set<int>, d: int): (m: int)
    ensures (exists k :: k in keys && k < d) ==>
      m in keys && m < d && forall k :: k in keys && k < d ==> k <= m
    ensures (forall k :: k in keys ==> k >= d) ==> m == 0
  {
    var below := set k | k in keys && k < d;
    BelowMembers(keys, d, below);
    if below == {} then 0 else MaxKey(below)
  }

  lemma BelowMembers(keys: set<int>, d: int, below: set<int>)
    requires below == set k | k in keys && k < d
    ensures forall k :: k in below <==> k in keys && k < d
    ensures below == {} <==> forall k :: k in keys ==> k >= d
  {
    if below != {} {
      var x := SomeKey(below);
    }
  }

  // ---------------------------------------------------------------------------
  // The builder's state

  /** A child slot of a section under construction: a later section, by index,
      or a body block. */
  datatype Item = Sub(id: nat) | Body(depth: int, text: string)

  /** A section under construction: depth, heading and children so far. */
  datatype Entry = Entry(depth: int, text: string, items: seq<Item>)

  function AppendItem(nodes: seq<Entry>, i: nat, item: Item): (r: seq<Entry>)
    requires i < |nodes|
    ensures |r| == |nodes| && r[i].items == nodes[i].items + [item]
    ensures forall j :: 0 <= j < |nodes| && j != i ==> r[j] == nodes[j]
    ensures r[i].depth == nodes[i].depth && r[i].text == nodes[i].text
  {
    nodes[i := nodes[i].(items := nodes[i].items + [item])]
  }

  /** add_buffered_content(upTo): the space-joined, stripped buffer becomes a
      block one level below the open section at depth upTo; nothing is added when
      that text is empty or no section is open at upTo. */
  function FlushNodes(nodes: seq<Entry>, open: map<int, nat>, upTo: int, buffer: seq<string>): seq<Entry> {
    var text := Strip(JoinSp(buffer));
    if text == [] || upTo !in open || open[upTo] >= |nodes| then nodes
    else AppendItem(nodes, open[upTo], Body(upTo + 1, text))
  }

  /** The flush that precedes a heading: into the deepest open section, if any. */
  function PreHeadingFlush(nodes: seq<Entry>, open: map<int, nat>, buffer: seq<string>): seq<Entry> {
    if open == map[] then nodes else FlushNodes(nodes, open, MaxKey(open.Keys), buffer)
  }

  /** The open sections that survive a heading of depth d: those strictly shallower. */
  function Below(open: map<int, nat>, d: int): (r: map<int, nat>)
    ensures forall k :: k in r <==> k in open && k < d
    ensures forall k :: k in r ==> r[k] == open[k]
  {
    map k | k in open && k < d :: open[k]
  }

  /** The arena after a new section of depth d is added and attached to the
      parent chosen among the surviving open sections. */
  function AttachNodes(nodes: seq<Entry>, open: map<int, nat>, text: string, d: int): seq<Entry> {
    var grown := nodes + [Entry(d, text, [])];
    match ParentOf(open, d)
    case Root => AppendItem(grown, 0, Sub(|nodes|))
    case OpenAt(p) => if p < |grown| then AppendItem(grown, p, Sub(|nodes|)) else grown
    case Detached => grown
  }

  datatype Parent = Root | OpenAt(id: nat) | Detached

  /** The open sections after a heading of depth d opens section id: no depth
      exceeds d, d names the new section, and every shallower depth is open
      exactly when it was, on the same section. */
  function Reopen(open: map<int, nat>, d: int, id: nat): (r: map<int, nat>)
    ensures forall k :: k in r ==> k <= d
    ensures d in r && r[d] == id
    ensures forall k :: k < d ==> (k in r <==> k in open)
    ensures forall k :: k in r && k < d ==> r[k] == open[k]
  {
    Below(open, d)[d := id]
  }

  /** Where a new heading of depth d goes, given the surviving open sections: the
      root for depth 1, else the open section with the greatest depth below d,
      else nowhere. */
  function ParentOf(open: map<int, nat>, d: int): Parent {
    if d == 1 then Root
    else
      var p := MaxBelow(open.Keys, d);
      if p in open then OpenAt(open[p]) else Detached
  }

  // ---------------------------------------------------------------------------
  // Invariants of the arena, stated on values

  /** A child slot fits entry i: a later, strictly deeper section, or a
      non-empty block exactly one level deeper. */
  ghost predicate ItemFits(nodes: seq<Entry>, i: nat, c: Item)
    requires i < |nodes|
  {
    match c
    case Sub(j) => i < j < |nodes| && nodes[j].depth > nodes[i].depth
    case Body(d, t) => d == nodes[i].depth + 1 && t != []
  }

  /** The arena holds the root first, admitted sections of depth at least 1 after
      it, and only fitting children. */
  ghost predicate Shaped(nodes: seq<Entry>) {
    |nodes| > 0 &&
    nodes[0].depth == 0 && nodes[0].text == RootTitle &&
    (forall i :: 1 <= i < |nodes| ==> nodes[i].depth >= 1 && Admitted(nodes[i].text)) &&
    (forall i, c :: 0 <= i < |nodes| && c in nodes[i].items ==> ItemFits(nodes, i, c))
  }

  /** Every open depth k >= 1 names a non-root section of depth k. */
  ghost predicate OpenFits(nodes: seq<Entry>, open: map<int, nat>) {
    forall k :: k in open ==> 1 <= k && 0 < open[k] < |nodes| && nodes[open[k]].depth == k
  }

  /** The buffer holds admitted, stripped texts. */
  ghost predicate BufferFits(buffer: seq<string>) {
    forall k :: 0 <= k < |buffer| ==> Admitted(buffer[k]) && Trimmed(buffer[k])
  }

  /** The root has children exactly once the identity line exists; that line is
      the root's first child, has depth 1, no children, and is never open. */
  ghost predicate IdentityFits(nodes: seq<Entry>, open: map<int, nat>, identity: nat)
    requires |nodes| > 0
  {
    (nodes[0].items == [] <==> identity == 0) &&
    (identity != 0 ==>
      identity < |nodes| && nodes[0].items[0] == Sub(identity) &&
      nodes[identity].depth == 1 && nodes[identity].items == [] &&
      forall k :: k in open ==> open[k] != identity)
  }

  /** Appending a fitting child keeps the arena shaped and every depth as it was. */
  lemma AppendShaped(nodes: seq<Entry>, t: nat, it: Item)
    requires Shaped(nodes) && t < |nodes| && ItemFits(nodes, t, it)
    ensures Shaped(AppendItem(nodes, t, it))
    ensures forall i :: 0 <= i < |nodes| ==> AppendItem(nodes, t, it)[i].depth == nodes[i].depth
  {
    var r := AppendItem(nodes, t, it);
    forall i, c | 0 <= i < |r| && c in r[i].items
      ensures ItemFits(r, i, c)
    {
      if i == t && c !in nodes[i].items {
        assert c == it;
      } else {
        assert ItemFits(nodes, i, c);
      }
    }
  }

  /** Adding a fresh, childless, admitted section of depth at least 1 keeps the
      arena shaped. */
  lemma GrowShaped(nodes: seq<Entry>, e: Entry)
    requires Shaped(nodes) && e.depth >= 1 && Admitted(e.text) && e.items == []
    ensures Shaped(nodes + [e])
  {
    var r := nodes + [e];
    forall i, c | 0 <= i < |r| && c in r[i].items
      ensures ItemFits(r, i, c)
    {
      assert i < |nodes|;
      assert ItemFits(nodes, i, c);
    }
  }

  /** Attaching a new section of depth d keeps every invariant of the arena,
      with the sections below d still open and the new one open at d. */
  lemma AttachKeeps(nodes: seq<Entry>, open: map<int, nat>, identity: nat, text: string, d: int)
    requires Shaped(nodes) && OpenFits(nodes, open) && IdentityFits(nodes, open, identity)
    requires Admitted(text) && d >= 1 && !(d == 1 && nodes[0].items == [])
    ensures var r := AttachNodes(nodes, Below(open, d), text, d);
      var o := Reopen(open, d, |nodes|);
      Shaped(r) && OpenFits(r, o) && IdentityFits(r, o, identity) &&
      |r| == |nodes| + 1 && r[|nodes|] == Entry(d, text, []) &&
      match ParentOf(Below(open, d), d)
      case Root => true
      case OpenAt(p) => p < |nodes| && nodes[p].depth < d
      case Detached => d > 1 && forall k :: k in open ==> k >= d
  {
    var below := Below(open, d);
    var e := Entry(d, text, []);
    var grown := nodes + [e];
    var id := |nodes|;
    GrowShaped(nodes, e);
    assert OpenFits(grown, below);
    var r := AttachNodes(nodes, below, text, d);
    match ParentOf(below, d)
    case Root =>
      AppendShaped(grown, 0, Sub(id));
      assert r == AppendItem(grown, 0, Sub(id));
    case OpenAt(t) =>
      var p := MaxBelow(below.Keys, d);
      assert p in below && t == below[p] && p < d;
      AppendShaped(grown, t, Sub(id));
      assert r == AppendItem(grown, t, Sub(id));
      assert t != identity && t != 0;
    case Detached =>
      var p := MaxBelow(below.Keys, d);
      assert p !in below.Keys;
  }

  /** The identity line becomes the root's first child and is never opened. */
  lemma IdentityKeeps(nodes: seq<Entry>, open: map<int, nat>, identity: nat, text: string)
    requires Shaped(nodes) && OpenFits(nodes, open) && IdentityFits(nodes, open, identity)
    requires Admitted(text) && nodes[0].items == []
    ensures var r := AppendItem(nodes + [Entry(1, text, [])], 0, Sub(|nodes|));
      Shaped(r) && OpenFits(r, open) && IdentityFits(r, open, |nodes|)
  {
    var grown := nodes + [Entry(1, text, [])];
    GrowShaped(nodes, Entry(1, text, []));
    AppendShaped(grown, 0, Sub(|nodes|));
    var r := AppendItem(grown, 0, Sub(|nodes|));
    assert r[0].items == [Sub(|nodes|)];
  }

  /** The identity line's index as the arena records it: the root's first child,
      or 0 while the root has none. */
  function IdentityOf(nodes: seq<Entry>): nat {
    if nodes == [] || nodes[0].items == [] then 0
    else match nodes[0].items[0]
      case Sub(j) => j
      case Body(_, _) => 0
  }

  lemma IdentityIsOf(nodes: seq<Entry>, open: map<int, nat>, identity: nat)
    requires |nodes| > 0 && IdentityFits(nodes, open, identity)
    ensures identity == IdentityOf(nodes)
  {
  }

  /** Flushing the buffer into any depth keeps the arena's invariants, the root
      entry and the arena's length. */
  lemma FlushKeeps(nodes: seq<Entry>, open: map<int, nat>, buffer: seq<string>, upTo: int)
    requires Shaped(nodes) && OpenFits(nodes, open) && BufferFits(buffer)
    requires IdentityFits(nodes, open, IdentityOf(nodes))
    ensures var r := FlushNodes(nodes, open, upTo, buffer);
      Shaped(r) && OpenFits(r, open) && IdentityFits(r, open, IdentityOf(nodes)) &&
      |r| == |nodes| && r[0] == nodes[0]
  {
    var text := Strip(JoinSp(buffer));
    if text != [] && upTo in open && open[upTo] < |nodes| {
      AppendShaped(nodes, open[upTo], Body(upTo + 1, text));
    }
  }

  // ---------------------------------------------------------------------------
  // The engine as a function of the document

  /** The builder's whole state: the arena, the open sections and the buffer. */
  datatype State = State(nodes: seq<Entry>, open: map<int, nat>, buffer: seq<string>)

  /** Before the first line: the root alone, nothing open, nothing buffered. */
  const Start: State := State([Entry(0, RootTitle, [])], map[], [])

  /** The state after one admitted line of depth d: the identity line, a heading,
      or body text for the buffer. */
  function StepState(s: State, text: string, d: int): (r: State)
    requires s.nodes != [] && text != []
    ensures |r.nodes| >= |s.nodes|
  {
    if d == 1 && s.nodes[0].items == [] then
      State(AppendItem(s.nodes + [Entry(1, text, [])], 0, Sub(|s.nodes|)), s.open, s.buffer)
    else if IsSectionHeading(text) then
      var flushed := PreHeadingFlush(s.nodes, s.open, s.buffer);
      var below := Below(s.open, d);
      State(AttachNodes(flushed, below, text, d), Reopen(s.open, d, |flushed|),
            if s.open == map[] then s.buffer else [])
    else
      State(s.nodes, s.open, s.buffer + [text])
  }

  /** One line of the second pass: a line without glyphs, blank after stripping,
      or a page footer is skipped; any other line steps at the depth of its size. */
  function LineStep(s: State, l: Line, sig: seq<real>): (r: State)
    requires s.nodes != []
    ensures |r.nodes| >= |s.nodes|
  {
    var text := Strip(l.text);
    if l.hasChars && text != [] && !IsFooter(text) then StepState(s, text, NearestDepth(sig, l.size))
    else s
  }

  /** The state after the second pass over lines, in document order. */
  function Run(lines: seq<Line>, sig: seq<real>): (r: State)
    ensures |r.nodes| >= 1
  {
    if lines == [] then Start
    else LineStep(Run(lines[..|lines| - 1], sig), lines[|lines| - 1], sig)
  }

  /** The second pass over a prefix one line longer takes one more step. */
  lemma RunStep(lines: seq<Line>, i: nat, sig: seq<real>)
    requires i < |lines|
    ensures Run(lines[..i + 1], sig) == LineStep(Run(lines[..i], sig), lines[i], sig)
  {
    assert lines[..i + 1][..i] == lines[..i];
  }

  /** End of the stream: leftover text goes to the deepest open section, or is
      kept unused when nothing is open. */
  function FinishState(s: State): (r: State)
    ensures |r.nodes| == |s.nodes|
  {
    if s.buffer != [] && s.open != map[] then
      State(FlushNodes(s.nodes, s.open, MaxKey(s.open.Keys), s.buffer), s.open, [])
    else s
  }

  /** The tree rooted at entry i, children in the order they were appended. A
      section slot is followed only forward in the arena, as in every shaped arena. */
  function TreeOf(nodes: seq<Entry>, i: nat): (r: Node)
    requires i < |nodes|
    ensures r.Section? && r.depth == nodes[i].depth && r.text == nodes[i].text
    ensures |r.content| <= |nodes[i].items|
    ensures forall c :: c in r.content && c.Block? ==> Body(c.depth, c.text) in nodes[i].items
    ensures forall c :: c in r.content && c.Section? ==>
      exists j :: i < j < |nodes| && Sub(j) in nodes[i].items && c.depth == nodes[j].depth && c.text == nodes[j].text
    decreases |nodes| - i, 1, 0
  {
    Section(nodes[i].depth, nodes[i].text, ChildrenOf(nodes, i, nodes[i].items))
  }

  function ChildrenOf(nodes: seq<Entry>, i: nat, items: seq<Item>): (r: seq<Node>)
    requires i < |nodes|
    ensures |r| <= |items|
    ensures forall c :: c in r && c.Block? ==> Body(c.depth, c.text) in items
    ensures forall c :: c in r && c.Section? ==>
      exists j :: i < j < |nodes| && Sub(j) in items && c.depth == nodes[j].depth && c.text == nodes[j].text
    decreases |nodes| - i, 0, |items|
  {
    if items == [] then []
    else
      var rest := ChildrenOf(nodes, i, items[1..]);
      match items[0]
      case Sub(j) => if i < j < |nodes| then [TreeOf(nodes, j)] + rest else rest
      case Body(d, t) => [Block(d, t)] + rest
  }

  /** The result of process_text_with_pdfminer in src/main.py for a document:
      the bare root when no line carries glyphs, else the tree the two passes build. */
  function OutlineOf(pages: seq<Page>): (r: Node)
    ensures r.Section? && r.depth == 0 && r.text == RootTitle
  {
    var lines := Flatten(pages);
    if GlyphLines(lines) == 0 then Section(0, RootTitle, [])
    else
      RunFits(lines, SigOf(lines));
      FinishFits(Run(lines, SigOf(lines)));
      TreeOf(FinishState(Run(lines, SigOf(lines))).nodes, 0)
  }

  /** The invariants of a builder state, with the identity line read off the arena. */
  ghost predicate Fits(s: State) {
    Shaped(s.nodes) && OpenFits(s.nodes, s.open) && BufferFits(s.buffer) &&
    IdentityFits(s.nodes, s.open, IdentityOf(s.nodes))
  }

  /** Every step keeps the invariants. */
  lemma StepFits(s: State, text: string, d: int)
    requires Fits(s) && Admitted(text) && Trimmed(text) && d >= 1
    ensures Fits(StepState(s, text, d))
  {
    var identity := IdentityOf(s.nodes);
    if d == 1 && s.nodes[0].items == [] {
      IdentityKeeps(s.nodes, s.open, identity, text);
      IdentityIsOf(StepState(s, text, d).nodes, s.open, |s.nodes|);
    } else if IsSectionHeading(text) {
      var flushed := PreHeadingFlush(s.nodes, s.open, s.buffer);
      if s.open != map[] {
        FlushKeeps(s.nodes, s.open, s.buffer, MaxKey(s.open.Keys));
      }
      AttachKeeps(flushed, s.open, identity, text, d);
      var r := StepState(s, text, d);
      IdentityIsOf(r.nodes, r.open, identity);
    }
  }

  lemma {:induction false} RunFits(lines: seq<Line>, sig: seq<real>)
    ensures Fits(Run(lines, sig))
  {
    if lines != [] {
      var prev := Run(lines[..|lines| - 1], sig);
      RunFits(lines[..|lines| - 1], sig);
      var l := lines[|lines| - 1];
      var text := Strip(l.text);
      if l.hasChars && text != [] && !IsFooter(text) {
        StepFits(prev, text, NearestDepth(sig, l.size));
      }
    }
  }

  lemma FinishFits(s: State)
    requires Fits(s)
    ensures Fits(FinishState(s))
  {
    if s.buffer != [] && s.open != map[] {
      FlushKeeps(s.nodes, s.open, s.buffer, MaxKey(s.open.Keys));
    }
  }

  /** Every entry's tree is well nested, with the entry's own depth. */
  lemma {:induction false} TreeWellNested(nodes: seq<Entry>, i: nat)
    requires Shaped(nodes) && i < |nodes|
    ensures TreeOf(nodes, i).depth == nodes[i].depth
    ensures WellNested(TreeOf(nodes, i))
    decreases |nodes| - i, 1, 0
  {
    ChildrenWellNested(nodes, i, nodes[i].items);
  }

  lemma {:induction false} ChildrenWellNested(nodes: seq<Entry>, i: nat, items: seq<Item>)
    requires Shaped(nodes) && i < |nodes|
    requires forall c :: c in items ==> c in nodes[i].items
    ensures forall n :: n in ChildrenOf(nodes, i, items) ==> ChildFits(nodes[i].depth, n) && WellNested(n)
    decreases |nodes| - i, 0, |items|
  {
    if items != [] {
      assert ItemFits(nodes, i, items[0]);
      ChildrenWellNested(nodes, i, items[1..]);
      if items[0].Sub? {
        TreeWellNested(nodes, items[0].id);
      }
    }
  }

  /** The root's first child, once there is one, is the identity line: a depth-1
      section that never receives content. */
  lemma RootShape(nodes: seq<Entry>, open: map<int, nat>)
    requires Shaped(nodes) && IdentityFits(nodes, open, IdentityOf(nodes))
    ensures TreeOf(nodes, 0).content != [] ==>
      TreeOf(nodes, 0).content[0].Section? && TreeOf(nodes, 0).content[0].depth == 1 &&
      TreeOf(nodes, 0).content[0].content == []
  {
    var items := nodes[0].items;
    if items != [] {
      var identity := IdentityOf(nodes);
      assert items[0] == Sub(identity);
      assert ChildrenOf(nodes, 0, items)[0] == TreeOf(nodes, identity);
      assert TreeOf(nodes, identity) == Section(1, nodes[identity].text, []);
    }
  }

  /** What the outline engine promises: a depth-0 root titled CV/Resume whose
      every section has an admitted heading and only strictly deeper sections and
      non-empty blocks one level deeper below it; an empty root when no line
      carries glyphs; and the identity line, a depth-1 section with no content,
      as the root's first child once the root has children. */
  lemma OutlineShape(pages: seq<Page>)
    ensures var t := OutlineOf(pages);
      t.Section? && t.depth == 0 && t.text == RootTitle && WellNested(t) &&
      ((forall l :: l in Flatten(pages) ==> !l.hasChars) ==> t.content == []) &&
      (t.content != [] ==> t.content[0].Section? && t.content[0].depth == 1 && t.content[0].content == [])
  {
    var lines := Flatten(pages);
    GlyphLinesZero(lines);
    if GlyphLines(lines) != 0 {
      var f := FinishState(Run(lines, SigOf(lines)));
      RunFits(lines, SigOf(lines));
      FinishFits(Run(lines, SigOf(lines)));
      TreeWellNested(f.nodes, 0);
      RootShape(f.nodes, f.open);
    }
  }

  class OutlineBuilder {
    /** nodes[0] is the root; every other entry is a section, attached or not. */
    var nodes: seq<Entry>
    /** current_sections: depth -> index of the section open at that depth. */
    var open: map<int, nat>
    /** Body texts not yet written into a section. */
    var buffer: seq<string>
    /** Index of the identity line (the root's first child), or 0 before there is one. */
    ghost var identity: nat

    ghost predicate Valid()
      reads this
    {
      Shaped(nodes) && OpenFits(nodes, open) && BufferFits(buffer) &&
      IdentityFits(nodes, open, identity)
    }

    constructor ()
      ensures Valid()
      ensures nodes == [Entry(0, RootTitle, [])] && open == map[] && buffer == []
    {
      nodes := [Entry(0, RootTitle, [])];
      open := map[];
      buffer := [];
      identity := 0;
    }

    /** add_buffered_content(upTo): the buffer is always emptied; its text lands
        in the section open at upTo, as a block one level deeper, unless it is
        blank or nothing is open there. */
    method Flush(upTo: int)
      requires Valid()
      modifies this
      ensures Valid()
      ensures open == old(open) && buffer == []
      ensures nodes == FlushNodes(old(nodes), old(open), upTo, old(buffer))
      ensures upTo in open && old(buffer) != [] ==>
        |nodes[open[upTo]].items| == |old(nodes)[open[upTo]].items| + 1 &&
        nodes[open[upTo]].items[|nodes[open[upTo]].items| - 1] == Body(upTo + 1, JoinSp(old(buffer)))
    {
      if buffer == [] {
        return;
      }
      // The buffer holds only admitted, stripped texts, so the joined text is
      // never blank and strip leaves it unchanged.
      JoinTrimmed(buffer);
      var text := JoinSp(buffer);
      if upTo in open {
        var target := open[upTo];
        AppendShaped(nodes, target, Body(upTo + 1, text));
        nodes := AppendItem(nodes, target, Body(upTo + 1, text));
      }
      buffer := [];
    }

    /** A heading of depth d (src/main.py, the header branch): flush into the
        deepest open section, then attach and open the new section. */
    method OpenSection(text: string, d: int)
      requires Valid() && Admitted(text) && d >= 1
      requires !(d == 1 && nodes[0].items == [])
      modifies this
      ensures Valid()
      ensures nodes == AttachNodes(PreHeadingFlush(old(nodes), old(open), old(buffer)), Below(old(open), d), text, d)
      ensures buffer == if old(open) == map[] then old(buffer) else []
      ensures open == Reopen(old(open), d, |old(nodes)|)
      ensures |nodes| == |old(nodes)| + 1 && nodes[|nodes| - 1] == Entry(d, text, [])
    {
      if open != map[] {
        Flush(MaxKey(open.Keys));
      }
      Attach(text, d);
    }

    /** Close every section at depth d or deeper, append the new section to the
        root (d = 1) or to the deepest open section above it (if any), and open
        it at depth d. */
    method Attach(text: string, d: int)
      requires Valid() && Admitted(text) && d >= 1
      requires !(d == 1 && nodes[0].items == [])
      modifies this
      ensures Valid() && buffer == old(buffer)
      ensures nodes == AttachNodes(old(nodes), Below(old(open), d), text, d)
      ensures |nodes| == |old(nodes)| + 1 && nodes[|nodes| - 1] == Entry(d, text, [])
      ensures open == Reopen(old(open), d, |old(nodes)|)
      ensures match ParentOf(Below(old(open), d), d)
              case Root => true
              case OpenAt(p) => p < |nodes| - 1 && nodes[p].depth < d
              case Detached => d > 1 && forall k :: k in old(open) ==> k >= d
    {
      var below := Below(open, d);
      var id := |nodes|;
      AttachKeeps(nodes, open, identity, text, d);
      var grown := nodes + [Entry(d, text, [])];
      if d == 1 {
        nodes := AppendItem(grown, 0, Sub(id));
      } else {
        var p := MaxBelow(below.Keys, d);
        if p in below {
          nodes := AppendItem(grown, below[p], Sub(id));
        } else {
          nodes := grown;
        }
      }
      open := below[d := id];
    }

    /** One admitted line of depth d (src/main.py, the loop body after the size
        lookup): the first depth-1 line while the root is empty becomes the
        identity line, a root child that is never opened; otherwise a heading
        opens a section and any other text joins the buffer. */
    method Step(text: string, d: int)
      requires Valid() && Admitted(text) && Trimmed(text) && d >= 1
      modifies this
      ensures Valid()
      ensures State(nodes, open, buffer) == StepState(State(old(nodes), old(open), old(buffer)), text, d)
    {
      if d == 1 && nodes[0].items == [] {
        TakeIdentity(text);
      } else if IsSectionHeading(text) {
        OpenSection(text, d);
      } else {
        Hold(text);
      }
    }

    /** One line of the second pass (src/main.py, the loop body): lines without
        glyphs, blank after stripping or matching the page footer are skipped;
        any other line steps, stripped, at the depth of its size. */
    method Feed(l: Line, sig: seq<real>)
      requires Valid()
      modifies this
      ensures Valid()
      ensures State(nodes, open, buffer) == LineStep(State(old(nodes), old(open), old(buffer)), l, sig)
    {
      if l.hasChars {
        var text := Strip(l.text);
        if text != [] && !IsFooter(text) {
          Step(text, NearestDepth(sig, l.size));
        }
      }
    }

    /** The second pass (src/main.py, the loop over lines): every line fed in
        document order to a fresh builder. */
    method FeedAll(lines: seq<Line>, sig: seq<real>)
      requires Valid() && State(nodes, open, buffer) == Start
      modifies this
      ensures Valid()
      ensures State(nodes, open, buffer) == Run(lines, sig)
    {
      for i := 0 to |lines|
        invariant Valid()
        invariant State(nodes, open, buffer) == Run(lines[..i], sig)
      {
        RunStep(lines, i, sig);
        Feed(lines[i], sig);
      }
      assert lines[..|lines|] == lines;
    }

    /** The first depth-1 line while the root has no children: it becomes the
        root's first child and is never opened. */
    method TakeIdentity(text: string)
      requires Valid() && Admitted(text) && nodes[0].items == []
      modifies this
      ensures Valid()
      ensures nodes == AppendItem(old(nodes) + [Entry(1, text, [])], 0, Sub(|old(nodes)|))
      ensures open == old(open) && buffer == old(buffer)
    {
      var id := |nodes|;
      IdentityKeeps(nodes, open, identity, text);
      nodes := AppendItem(nodes + [Entry(1, text, [])], 0, Sub(id));
      identity := id;
    }

    /** A line that is not a heading waits in the buffer. */
    method Hold(text: string)
      requires Valid() && Admitted(text) && Trimmed(text)
      modifies this
      ensures Valid()
      ensures nodes == old(nodes) && open == old(open) && buffer == old(buffer) + [text]
    {
      buffer := buffer + [text];
    }

    /** End of the stream: leftover body text goes to the deepest open section;
        with no open section it is dropped. */
    method Finish()
      requires Valid()
      modifies this
      ensures Valid()
      ensures State(nodes, open, buffer) == FinishState(State(old(nodes), old(open), old(buffer)))
    {
      if buffer != [] && open != map[] {
        Flush(MaxKey(open.Keys));
      }
    }
  }

  /** A child of a section at depth d: a section strictly deeper with an admitted
      heading, or a non-empty block exactly one level deeper. */
  predicate ChildFits(d: int, n: Node) {
    match n
    case Section(cd, t, _) => cd > d && Admitted(t)
    case Block(cd, t) => cd == d + 1 && t != []
  }

  /** Every section in the tree has only children that fit it. */
  predicate WellNested(n: Node) {
    match n
    case Block(_, t) => t != []
    case Section(d, _, content) => forall c :: c in content ==> ChildFits(d, c) && WellNested(c)
  }

  /** The whole outline engine of src/main.py over the lines of a document:
      the size pass, then one builder step per admitted line in document order,
      then the final flush. */
  method BuildOutline(pages: seq<Page>) returns (outline: Node)
    ensures outline == OutlineOf(pages)
  {
    var lines := Flatten(pages);
    var total, groups, sig := ClassifySizes(lines);
    if total == 0 {
      return Section(0, RootTitle, []);
    }
    var b := new OutlineBuilder();
    b.FeedAll(lines, sig);
    b.Finish();
    outline := TreeOf(b.nodes, 0);
  }
}
