/** The flat engine (main.py, process_text_with_pdfminer): a text -> size
    table, the document's average size, a two-path heading test, and a builder
    that turns the texts in reading order into depth-1 sections holding at most
    one depth-2 block each. */
module Flat {
  import opened Text
  import opened Layout
  import opened Reading

  // ---------------------------------------------------------------------------
  // text_properties: the size recorded for each text

  /** Whether the size pass records line l: it carries glyphs and its stripped
      text is non-empty and not a footer. */
  predicate Records(l: Line) {
    l.hasChars && Admitted(Strip(l.text))
  }

  /** Line l records the text t. */
  predicate RecordsAs(l: Line, t: string) {
    Records(l) && Strip(l.text) == t
  }

  /** The table's keys in dict insertion order: each text where it is first recorded. */
  function TableKeys(lines: seq<Line>): (r: seq<string>)
    ensures forall a, b :: 0 <= a < b < |r| ==> r[a] != r[b]
  {
    if lines == [] then []
    else
      var l := lines[|lines| - 1];
      var init := TableKeys(lines[..|lines| - 1]);
      if Records(l) && Strip(l.text) !in init then init + [Strip(l.text)] else init
  }

  /** The table: every recording overwrites the size stored for its text. */
  function Table(lines: seq<Line>): (m: map<string, real>)
    ensures forall t :: t in m <==> t in TableKeys(lines)
  {
    if lines == [] then map[]
    else
      var l := lines[|lines| - 1];
      var init := Table(lines[..|lines| - 1]);
      if Records(l) then init[Strip(l.text) := l.size] else init
  }

  /** A text is in the table exactly when some line records it. */
  lemma {:induction false} TableDomain(lines: seq<Line>, t: string)
    ensures t in Table(lines) <==> exists i :: 0 <= i < |lines| && RecordsAs(lines[i], t)
  {
    if lines != [] {
      TableDomain(lines[..|lines| - 1], t);
      RecordedSnoc(lines, t);
    }
  }

  /** Some line records t exactly when an earlier line does or the last one does. */
  lemma RecordedSnoc(lines: seq<Line>, t: string)
    requires lines != []
    ensures var init := lines[..|lines| - 1];
      (exists i :: 0 <= i < |lines| && RecordsAs(lines[i], t)) <==>
      (exists i :: 0 <= i < |init| && RecordsAs(init[i], t)) || RecordsAs(lines[|lines| - 1], t)
  {
    var init := lines[..|lines| - 1];
    assert forall i :: 0 <= i < |init| ==> init[i] == lines[i];
  }

  /** The last recording of a text decides its size. */
  lemma {:induction false} LastRecordingWins(lines: seq<Line>, i: nat)
    requires i < |lines| && Records(lines[i])
    requires forall j :: i < j < |lines| && Records(lines[j]) ==> Strip(lines[j].text) != Strip(lines[i].text)
    ensures Strip(lines[i].text) in Table(lines)
    ensures Table(lines)[Strip(lines[i].text)] == lines[i].size
  {
    var init := lines[..|lines| - 1];
    if i < |init| {
      forall j | i < j < |init| && Records(init[j])
        ensures Strip(init[j].text) != Strip(init[i].text)
      {
        assert init[j] == lines[j];
      }
      assert init[i] == lines[i];
      LastRecordingWins(init, i);
    }
  }

  /** The size pass of main.py: for each line with glyphs whose stripped text
      is kept, text_properties[text] = size. */
  method CollectTextSizes(lines: seq<Line>) returns (order: seq<string>, table: map<string, real>)
    ensures order == TableKeys(lines) && table == Table(lines)
  {
    order, table := [], map[];
    for i := 0 to |lines|
      invariant order == TableKeys(lines[..i]) && table == Table(lines[..i])
    {
      var l := lines[i];
      if l.hasChars {
        var t := Strip(l.text);
        if t != [] && !IsFooter(t) {
          if t !in table {
            order := order + [t];
          }
          table := table[t := l.size];
        }
      }
      assert lines[..i + 1][..i] == lines[..i];
    }
    assert lines[..|lines|] == lines;
  }

  // ---------------------------------------------------------------------------
  // avg_font_size = mean(text_properties.values())

  function SumSizes(order: seq<string>, table: map<string, real>): real
    requires forall k :: 0 <= k < |order| ==> order[k] in table
  {
    if order == [] then 0.0
    else SumSizes(order[..|order| - 1], table) + table[order[|order| - 1]]
  }

  /** The exact mean of the table's values, one per key. */
  function Mean(order: seq<string>, table: map<string, real>): (m: real)
    requires order != []
    requires forall k :: 0 <= k < |order| ==> order[k] in table
    ensures exists k :: 0 <= k < |order| && table[order[k]] <= m
    ensures exists k :: 0 <= k < |order| && table[order[k]] >= m
  {
    var m := SumSizes(order, table) / (|order| as real);
    MeanBetween(order, table, m);
    m
  }

  lemma {:induction false} SumAbove(order: seq<string>, table: map<string, real>, c: real)
    requires forall k :: 0 <= k < |order| ==> order[k] in table && table[order[k]] > c
    ensures order != [] ==> SumSizes(order, table) > (|order| as real) * c
    ensures SumSizes(order, table) >= (|order| as real) * c
  {
    if order != [] {
      SumAbove(order[..|order| - 1], table, c);
    }
  }

  lemma {:induction false} SumBelow(order: seq<string>, table: map<string, real>, c: real)
    requires forall k :: 0 <= k < |order| ==> order[k] in table && table[order[k]] < c
    ensures order != [] ==> SumSizes(order, table) < (|order| as real) * c
    ensures SumSizes(order, table) <= (|order| as real) * c
  {
    if order != [] {
      SumBelow(order[..|order| - 1], table, c);
    }
  }

  /** A value m whose |order|-fold is the sum of the sizes lies between the
      smallest and the largest of them. */
  lemma MeanBetween(order: seq<string>, table: map<string, real>, m: real)
    requires order != []
    requires forall k :: 0 <= k < |order| ==> order[k] in table
    requires m == SumSizes(order, table) / (|order| as real)
    ensures exists k :: 0 <= k < |order| && table[order[k]] <= m
    ensures exists k :: 0 <= k < |order| && table[order[k]] >= m
  {
    var n := |order| as real;
    assert n * m == SumSizes(order, table);
    if forall k :: 0 <= k < |order| ==> table[order[k]] > m {
      SumAbove(order, table, m);
      assert false;
    }
    if forall k :: 0 <= k < |order| ==> table[order[k]] < m {
      SumBelow(order, table, m);
      assert false;
    }
  }

  // ---------------------------------------------------------------------------
  // is_header

  /** The nested is_header of main.py: all upper-case, or set at least 0.7 above
      the average (a text not in the table counts as average) in at most two words
      without a trailing period or comma. */
  predicate IsHeaderFlat(text: string, table: map<string, real>, avg: real)
    ensures IsHeaderFlat(text, table, avg) ==>
      IsUpperString(text) || (text in table && table[text] >= avg + 0.7 && WordCount(text) <= 2)
  {
    var size := if text in table then table[text] else avg;
    IsUpperString(text) ||
    (size >= avg + 0.7 &&
     WordCount(text) <= 2 &&
     !(text != [] && (text[|text| - 1] == '.' || text[|text| - 1] == ',')))
  }

  /** An all upper-case text is a heading whatever its size, length or punctuation. */
  lemma AllCapsIsHeader(text: string, table: map<string, real>, avg: real)
    requires IsUpperString(text)
    ensures IsHeaderFlat(text, table, avg)
  {
  }

  /** Without capitals a heading needs all three of the size, length and
      punctuation conditions, and a text missing from the table never has the size. */
  lemma MixedCaseHeader(text: string, table: map<string, real>, avg: real)
    requires !IsUpperString(text)
    ensures IsHeaderFlat(text, table, avg) ==> text in table && table[text] >= avg + 0.7
    ensures IsHeaderFlat(text, table, avg) ==> WordCount(text) <= 2
    ensures IsHeaderFlat(text, table, avg) ==> text == [] || (text[|text| - 1] != '.' && text[|text| - 1] != ',')
  {
  }

  /** Three words or more are never a mixed-case heading: a two-word line
      joined from words is, once large enough and unpunctuated. */
  lemma ShortLargeIsHeader(ws: seq<string>, table: map<string, real>, avg: real)
    requires 1 <= |ws| <= 2 && forall k :: 0 <= k < |ws| ==> IsWord(ws[k])
    requires JoinSp(ws) in table && table[JoinSp(ws)] >= avg + 0.7
    requires var w := ws[|ws| - 1]; w != [] && w[|w| - 1] != '.' && w[|w| - 1] != ','
    ensures IsHeaderFlat(JoinSp(ws), table, avg)
  {
    WordCountJoin(ws);
    var t := JoinSp(ws);
    var w := ws[|ws| - 1];
    if |ws| == 2 {
      assert t == ws[0] + " " + w;
      assert t[|t| - 1] == w[|w| - 1];
    }
  }

  // ---------------------------------------------------------------------------
  // The flat sections

  /** A body block: "depth" 2 and the space-joined texts. */
  datatype FlatBlock = FlatBlock(depth: int, text: string)

  /** A section; an empty content list stands for a section without a
      "content" key. */
  datatype FlatSection = FlatSection(depth: int, text: string, content: seq<FlatBlock>)

  /** Positions in [1, n) of the texts that pass the heading test, ascending. */
  function Heads(raw: seq<string>, table: map<string, real>, avg: real, n: nat): (hs: seq<nat>)
    requires n <= |raw|
    ensures Positions(hs, n)
    ensures n >= 1 ==> |hs| < n
  {
    if n <= 1 then []
    else Heads(raw, table, avg, n - 1) + (if IsHeaderFlat(raw[n - 1], table, avg) then [n - 1] else [])
  }

  /** The headings are exactly the texts in [1, n) that pass the heading test. */
  lemma {:induction false} HeadsExact(raw: seq<string>, table: map<string, real>, avg: real, n: nat)
    requires n <= |raw|
    ensures forall i :: i in Heads(raw, table, avg, n) <==> 1 <= i < n && IsHeaderFlat(raw[i], table, avg)
  {
    if n > 1 {
      HeadsExact(raw, table, avg, n - 1);
    }
  }

  /** Heading positions valid for the first n texts. */
  predicate Positions(hs: seq<nat>, n: nat) {
    (forall j :: 0 <= j < |hs| ==> 1 <= hs[j] < n) &&
    (forall a, b :: 0 <= a < b < |hs| ==> hs[a] < hs[b])
  }

  /** Where the body of section j ends: at the next heading, or at n. */
  function Closing(hs: seq<nat>, j: nat, n: nat): (c: nat)
    requires j < |hs|
    ensures Positions(hs, n) ==> hs[j] < c <= n
  {
    if j + 1 < |hs| then hs[j + 1] else n
  }

  /** The texts buffered for section j until position hi: those after its heading
      and, for the first heading, those between the name line and it, which the
      builder carries forward because no section was open to take them. */
  function Span(raw: seq<string>, hs: seq<nat>, j: nat, hi: nat): seq<string>
    requires j < |hs| && 1 <= hs[0] && hs[j] < hi <= |raw|
  {
    (if j == 0 then raw[1..hs[0]] else []) + raw[hs[j] + 1..hi]
  }

  function BlockOf(body: seq<string>): seq<FlatBlock> {
    if body == [] then [] else [FlatBlock(2, JoinSp(body))]
  }

  /** Section j: its heading and the block of its body, which runs to the next
      heading or, for the last section, to n; while the last section is still
      open (closed == false) it holds nothing yet. */
  function SectionOf(raw: seq<string>, hs: seq<nat>, j: nat, n: nat, closed: bool): FlatSection
    requires j < |hs| && 1 <= hs[0] && hs[j] < Closing(hs, j, n) <= n <= |raw|
  {
    FlatSection(1, raw[hs[j]],
      if j + 1 < |hs| then BlockOf(Span(raw, hs, j, hs[j + 1]))
      else if closed then BlockOf(Span(raw, hs, j, n)) else [])
  }

  /** The name line, then one section per heading. */
  function SectionsUpTo(raw: seq<string>, hs: seq<nat>, n: nat, closed: bool): (r: seq<FlatSection>)
    requires 1 <= n <= |raw| && Positions(hs, n)
    ensures |r| == |hs| + 1 && r[0] == FlatSection(1, raw[0], [])
    ensures forall j :: 0 <= j < |hs| ==> r[j + 1] == SectionOf(raw, hs, j, n, closed)
  {
    [FlatSection(1, raw[0], [])] + seq(|hs|, j requires 0 <= j < |hs| => SectionOf(raw, hs, j, n, closed))
  }

  /** The sections the flat engine returns for the texts raw in reading order. */
  function FlatOutline(raw: seq<string>, table: map<string, real>, avg: real): (r: seq<FlatSection>)
    ensures r == [] <==> raw == []
    ensures |r| <= |raw|
    ensures raw != [] ==> r[0] == FlatSection(1, raw[0], [])
  {
    if raw == [] then []
    else SectionsUpTo(raw, Heads(raw, table, avg, |raw|), |raw|, true)
  }

  /** The outline's shape: the name line first without content, then exactly one
      depth-1 section per heading text after it, in order, each with at most one
      depth-2 block. */
  lemma FlatShape(raw: seq<string>, table: map<string, real>, avg: real)
    requires raw != []
    ensures var r := FlatOutline(raw, table, avg);
      var hs := Heads(raw, table, avg, |raw|);
      |r| == 1 + |hs| &&
      r[0] == FlatSection(1, raw[0], []) &&
      (forall k :: 1 <= k < |r| ==> r[k].depth == 1 && r[k].text == raw[hs[k - 1]] && |r[k].content| <= 1) &&
      (forall j, b :: 0 <= j < |r| && b in r[j].content ==> b.depth == 2)
  {
    SectionsShape(raw, Heads(raw, table, avg, |raw|), |raw|, true);
  }

  lemma SectionsShape(raw: seq<string>, hs: seq<nat>, n: nat, closed: bool)
    requires 1 <= n <= |raw| && Positions(hs, n)
    ensures var r := SectionsUpTo(raw, hs, n, closed);
      (forall k :: 1 <= k < |r| ==> r[k].depth == 1 && r[k].text == raw[hs[k - 1]] && |r[k].content| <= 1) &&
      (forall j, b :: 0 <= j < |r| && b in r[j].content ==> b.depth == 2)
  {
    var r := SectionsUpTo(raw, hs, n, closed);
    forall k | 1 <= k < |r|
      ensures r[k].depth == 1 && r[k].text == raw[hs[k - 1]] && |r[k].content| <= 1
      ensures forall b :: b in r[k].content ==> b.depth == 2
    {
      assert r[k] == SectionOf(raw, hs, k - 1, n, closed);
      BlockShape(raw, hs, k - 1, n, closed);
    }
  }

  lemma BlockShape(raw: seq<string>, hs: seq<nat>, j: nat, n: nat, closed: bool)
    requires j < |hs| && 1 <= hs[0] && hs[j] < Closing(hs, j, n) <= n <= |raw|
    ensures var c := SectionOf(raw, hs, j, n, closed).content;
      |c| <= 1 && forall b :: b in c ==> b.depth == 2
  {
  }

  /** With no heading after the name line, every other text is dropped. */
  lemma NoHeadingDropsBody(raw: seq<string>, table: map<string, real>, avg: real)
    requires raw != []
    requires forall i :: 1 <= i < |raw| ==> !IsHeaderFlat(raw[i], table, avg)
    ensures FlatOutline(raw, table, avg) == [FlatSection(1, raw[0], [])]
  {
    HeadsNone(raw, table, avg, |raw|);
  }

  lemma {:induction false} HeadsNone(raw: seq<string>, table: map<string, real>, avg: real, n: nat)
    requires n <= |raw|
    requires forall i :: 1 <= i < n ==> !IsHeaderFlat(raw[i], table, avg)
    ensures Heads(raw, table, avg, n) == []
  {
    if n > 1 {
      HeadsNone(raw, table, avg, n - 1);
    }
  }

  /** The concatenated headings and bodies of the sections, in order. */
  function Pieces(raw: seq<string>, hs: seq<nat>, n: nat, j: nat): seq<string>
    requires 1 <= n <= |raw| && Positions(hs, n) && j <= |hs|
    decreases |hs| - j
  {
    if j == |hs| then []
    else [raw[hs[j]]] + raw[hs[j] + 1..Closing(hs, j, n)] + Pieces(raw, hs, n, j + 1)
  }

  lemma {:induction false} PiecesCover(raw: seq<string>, hs: seq<nat>, n: nat, j: nat)
    requires 1 <= n <= |raw| && Positions(hs, n) && j < |hs|
    ensures Pieces(raw, hs, n, j) == raw[hs[j]..n]
    decreases |hs| - j
  {
    var c := Closing(hs, j, n);
    if j + 1 < |hs| {
      PiecesCover(raw, hs, n, j + 1);
      assert raw[hs[j]..n] == [raw[hs[j]]] + raw[hs[j] + 1..c] + raw[c..n];
    } else {
      assert raw[hs[j]..n] == [raw[hs[j]]] + raw[hs[j] + 1..n];
    }
  }

  /** Once there is a heading, no text is lost or repeated: the texts after the
      name line are, in order, the text carried into the first section, then each
      heading followed by its own body. The first section's block joins the
      carried text with the body after its heading; every later section's block
      joins the texts from its heading up to the next heading or the end. */
  lemma FlatKeepsEveryText(raw: seq<string>, table: map<string, real>, avg: real, hs: seq<nat>, r: seq<FlatSection>)
    requires raw != []
    requires hs == Heads(raw, table, avg, |raw|) && hs != []
    requires r == FlatOutline(raw, table, avg)
    ensures |r| == |hs| + 1 && Positions(hs, |raw|)
    ensures raw[1..] == raw[1..hs[0]] + Pieces(raw, hs, |raw|, 0)
    ensures r[1].content == BlockOf(raw[1..hs[0]] + raw[hs[0] + 1..Closing(hs, 0, |raw|)])
    ensures forall k :: 1 <= k < |hs| ==> r[k + 1].content == BlockOf(raw[hs[k] + 1..Closing(hs, k, |raw|)])
  {
    NamePartition(raw, hs);
    SectionBlocks(raw, hs, |raw|, r);
  }

  /** The texts after the name line: those before the first heading, then the
      pieces of each heading. */
  lemma NamePartition(raw: seq<string>, hs: seq<nat>)
    requires 1 <= |raw| && Positions(hs, |raw|) && hs != []
    ensures raw[1..] == raw[1..hs[0]] + Pieces(raw, hs, |raw|, 0)
  {
    PiecesCover(raw, hs, |raw|, 0);
    assert raw[1..] == raw[1..hs[0]] + raw[hs[0]..];
  }

  /** The closed sections' blocks, read off the heading positions. */
  lemma SectionBlocks(raw: seq<string>, hs: seq<nat>, n: nat, r: seq<FlatSection>)
    requires 1 <= n <= |raw| && Positions(hs, n) && hs != []
    requires r == SectionsUpTo(raw, hs, n, true)
    ensures r[1].content == BlockOf(raw[1..hs[0]] + raw[hs[0] + 1..Closing(hs, 0, n)])
    ensures forall k :: 1 <= k < |hs| ==> r[k + 1].content == BlockOf(raw[hs[k] + 1..Closing(hs, k, n)])
  {
    assert r[1] == SectionOf(raw, hs, 0, n, true);
    forall k | 1 <= k < |hs|
      ensures r[k + 1].content == BlockOf(raw[hs[k] + 1..Closing(hs, k, n)])
    {
      assert r[k + 1] == SectionOf(raw, hs, k, n, true);
      assert Span(raw, hs, k, Closing(hs, k, n)) == raw[hs[k] + 1..Closing(hs, k, n)];
    }
  }

  // ---------------------------------------------------------------------------
  // The builder loop

  datatype Current = NoSection | At(index: nat)

  /** After a heading at i, the earlier sections keep their content and the
      previously open one closes over the texts up to i. */
  lemma SectionOfExtend(raw: seq<string>, hs: seq<nat>, i: nat, j: nat)
    requires 1 <= i < |raw| && Positions(hs, i) && j < |hs|
    ensures Positions(hs + [i], i + 1)
    ensures SectionOf(raw, hs + [i], j, i + 1, false) ==
      if j + 1 < |hs| then SectionOf(raw, hs, j, i, false)
      else FlatSection(1, raw[hs[j]], BlockOf(Span(raw, hs, j, i)))
  {
    var hs' := hs + [i];
    assert hs'[j] == hs[j] && hs'[0] == hs[0];
    if j + 1 < |hs| {
      assert hs'[j + 1] == hs[j + 1];
      SpanSame(raw, hs, hs', j, hs[j + 1]);
    } else {
      assert hs'[j + 1] == i;
      SpanSame(raw, hs, hs', j, i);
    }
  }

  lemma HeadingStepAt(raw: seq<string>, hs: seq<nat>, i: nat, k: nat)
    requires 1 <= i < |raw| && Positions(hs, i) && 1 <= k <= |hs|
    ensures Positions(hs + [i], i + 1)
    ensures var last := |hs| - 1;
      SectionsUpTo(raw, hs + [i], i + 1, false)[k] ==
      (SectionsUpTo(raw, hs, i, false)[|hs| := FlatSection(1, raw[hs[last]], BlockOf(Span(raw, hs, last, i)))] +
       [FlatSection(1, raw[i], [])])[k]
  {
    var last := |hs| - 1;
    var before := SectionsUpTo(raw, hs, i, false);
    var closed := FlatSection(1, raw[hs[last]], BlockOf(Span(raw, hs, last, i)));
    var b := before[|hs| := closed] + [FlatSection(1, raw[i], [])];
    SectionOfExtend(raw, hs, i, k - 1);
    assert SectionsUpTo(raw, hs + [i], i + 1, false)[k] == SectionOf(raw, hs + [i], k - 1, i + 1, false);
    if k < |hs| {
      assert b[k] == before[k] == SectionOf(raw, hs, k - 1, i, false);
    } else {
      assert b[k] == closed;
    }
  }

  lemma HeadingStep(raw: seq<string>, hs: seq<nat>, i: nat)
    requires 1 <= i < |raw| && Positions(hs, i) && hs != []
    ensures Positions(hs + [i], i + 1)
    ensures var last := |hs| - 1;
      SectionsUpTo(raw, hs + [i], i + 1, false) ==
      SectionsUpTo(raw, hs, i, false)[|hs| := FlatSection(1, raw[hs[last]], BlockOf(Span(raw, hs, last, i)))] +
      [FlatSection(1, raw[i], [])]
    ensures Span(raw, hs + [i], |hs|, i + 1) == []
  {
    var hs' := hs + [i];
    var last := |hs| - 1;
    var a := SectionsUpTo(raw, hs', i + 1, false);
    var before := SectionsUpTo(raw, hs, i, false);
    var closed := FlatSection(1, raw[hs[last]], BlockOf(Span(raw, hs, last, i)));
    var b := before[|hs| := closed] + [FlatSection(1, raw[i], [])];
    forall k | 1 <= k <= |hs|
      ensures a[k] == b[k]
    {
      HeadingStepAt(raw, hs, i, k);
    }
    assert a[|hs| + 1] == b[|hs| + 1];
    assert a == b;
  }

  /** A span depends only on the headings up to its own. */
  lemma SpanSame(raw: seq<string>, hs: seq<nat>, hs': seq<nat>, j: nat, hi: nat)
    requires Positions(hs, |raw|) && Positions(hs', |raw|)
    requires j < |hs| && j < |hs'| && hs[j] == hs'[j] && hs[0] == hs'[0]
    requires hs[j] < hi <= |raw|
    ensures Span(raw, hs, j, hi) == Span(raw, hs', j, hi)
  {
  }

  lemma FirstHeadingStep(raw: seq<string>, i: nat)
    requires 1 <= i < |raw|
    ensures Positions([i], i + 1)
    ensures SectionsUpTo(raw, [i], i + 1, false) == SectionsUpTo(raw, [], i, false) + [FlatSection(1, raw[i], [])]
    ensures Span(raw, [i], 0, i + 1) == raw[1..i]
  {
    assert raw[i + 1..i + 1] == [];
  }

  lemma BodyStep(raw: seq<string>, hs: seq<nat>, i: nat)
    requires 1 <= i < |raw| && Positions(hs, i) && hs != []
    ensures Positions(hs, i + 1)
    ensures SectionsUpTo(raw, hs, i + 1, false) == SectionsUpTo(raw, hs, i, false)
    ensures Span(raw, hs, |hs| - 1, i + 1) == Span(raw, hs, |hs| - 1, i) + [raw[i]]
  {
    var last := |hs| - 1;
    assert raw[hs[last] + 1..i + 1] == raw[hs[last] + 1..i] + [raw[i]];
  }

  lemma Closed(raw: seq<string>, hs: seq<nat>)
    requires 1 <= |raw| && Positions(hs, |raw|) && hs != []
    ensures var last := |hs| - 1;
      SectionsUpTo(raw, hs, |raw|, true) ==
      SectionsUpTo(raw, hs, |raw|, false)[|hs| := FlatSection(1, raw[hs[last]], BlockOf(Span(raw, hs, last, |raw|)))]
  {
  }

  /** The headings among the first i + 1 texts: those among the first i, and
      text i itself when it passes the test. */
  lemma HeadsNext(raw: seq<string>, table: map<string, real>, avg: real, i: nat)
    requires 1 <= i < |raw|
    ensures IsHeaderFlat(raw[i], table, avg) ==> Heads(raw, table, avg, i + 1) == Heads(raw, table, avg, i) + [i]
    ensures !IsHeaderFlat(raw[i], table, avg) ==> Heads(raw, table, avg, i + 1) == Heads(raw, table, avg, i)
  {
    var hs := Heads(raw, table, avg, i);
    assert hs + [] == hs;
  }

  /** Writes the buffered texts, space-joined, as one block one level below the
      current section, when there are any and a section is open. */
  function FlushBuffer(sections: seq<FlatSection>, current: Current, buffer: seq<string>): (r: seq<FlatSection>)
    ensures |r| == |sections|
    ensures forall k :: 0 <= k < |r| && !(current.At? && k == current.index) ==> r[k] == sections[k]
  {
    if buffer != [] && current.At? && current.index < |sections| then
      var c := current.index;
      sections[c := sections[c].(content := sections[c].content + [FlatBlock(sections[c].depth + 1, JoinSp(buffer))])]
    else sections
  }

  /** The builder's state after the first i texts, given the headings hs among
      them: the sections so far with the last one still open, the current
      section, and the buffered texts. */
  ghost predicate Pending(raw: seq<string>, hs: seq<nat>, i: nat,
                          sections: seq<FlatSection>, current: Current, buffer: seq<string>)
    requires 1 <= i <= |raw|
  {
    Positions(hs, i) &&
    sections == SectionsUpTo(raw, hs, i, false) &&
    (hs == [] ==> current == NoSection && buffer == raw[1..i]) &&
    (hs != [] ==> current == At(|hs|) && buffer == Span(raw, hs, |hs| - 1, i))
  }

  /** Writing the buffer into the open section closes it over its span. */
  lemma FlushCloses(raw: seq<string>, hs: seq<nat>, i: nat, sections: seq<FlatSection>, current: Current, buffer: seq<string>)
    requires 1 <= i <= |raw| && Pending(raw, hs, i, sections, current, buffer) && hs != []
    ensures var last := |hs| - 1;
      FlushBuffer(sections, current, buffer) ==
      sections[|hs| := FlatSection(1, raw[hs[last]], BlockOf(Span(raw, hs, last, i)))]
  {
    var last := |hs| - 1;
    var closed := FlatSection(1, raw[hs[last]], BlockOf(Span(raw, hs, last, i)));
    assert sections[|hs|] == SectionOf(raw, hs, last, i, false) == FlatSection(1, raw[hs[last]], []);
    if buffer == [] {
      assert sections[|hs| := closed] == sections;
    } else {
      assert [] + [FlatBlock(2, JoinSp(buffer))] == BlockOf(buffer);
    }
  }

  /** The name line opens the state. */
  lemma PendingStart(raw: seq<string>)
    requires raw != []
    ensures Pending(raw, [], 1, [FlatSection(1, raw[0], [])], NoSection, [])
  {
    assert raw[1..1] == [];
  }

  /** A heading text closes the open section and opens its own; without an open
      section the buffer is carried forward. */
  lemma PendingHeading(raw: seq<string>, hs: seq<nat>, i: nat, sections: seq<FlatSection>, current: Current, buffer: seq<string>)
    requires 1 <= i < |raw| && Pending(raw, hs, i, sections, current, buffer)
    ensures Pending(raw, hs + [i], i + 1,
      FlushBuffer(sections, current, buffer) + [FlatSection(1, raw[i], [])], At(|sections|),
      if current.At? then [] else buffer)
  {
    if hs == [] {
      FirstHeadingStep(raw, i);
    } else {
      HeadingStep(raw, hs, i);
      FlushCloses(raw, hs, i, sections, current, buffer);
    }
  }

  /** Any other text joins the buffer. */
  lemma PendingBody(raw: seq<string>, hs: seq<nat>, i: nat, sections: seq<FlatSection>, current: Current, buffer: seq<string>)
    requires 1 <= i < |raw| && Pending(raw, hs, i, sections, current, buffer)
    ensures Pending(raw, hs, i + 1, sections, current, buffer + [raw[i]])
  {
    if hs != [] {
      BodyStep(raw, hs, i);
    } else {
      assert raw[1..i + 1] == raw[1..i] + [raw[i]];
    }
  }

  /** The final flush closes the last section. */
  lemma PendingEnd(raw: seq<string>, hs: seq<nat>, sections: seq<FlatSection>, current: Current, buffer: seq<string>)
    requires raw != [] && Pending(raw, hs, |raw|, sections, current, buffer)
    ensures FlushBuffer(sections, current, buffer) == SectionsUpTo(raw, hs, |raw|, true)
  {
    if hs != [] {
      Closed(raw, hs);
      FlushCloses(raw, hs, |raw|, sections, current, buffer);
    }
  }

  lemma HeadingNext(raw: seq<string>, table: map<string, real>, avg: real, i: nat,
                    sections: seq<FlatSection>, current: Current, buffer: seq<string>)
    requires 1 <= i < |raw| && IsHeaderFlat(raw[i], table, avg)
    requires Pending(raw, Heads(raw, table, avg, i), i, sections, current, buffer)
    ensures Pending(raw, Heads(raw, table, avg, i + 1), i + 1,
      FlushBuffer(sections, current, buffer) + [FlatSection(1, raw[i], [])], At(|sections|),
      if current.At? then [] else buffer)
  {
    var hs := Heads(raw, table, avg, i);
    HeadsNext(raw, table, avg, i);
    PendingHeading(raw, hs, i, sections, current, buffer);
  }

  lemma BodyNext(raw: seq<string>, table: map<string, real>, avg: real, i: nat,
                 sections: seq<FlatSection>, current: Current, buffer: seq<string>)
    requires 1 <= i < |raw| && !IsHeaderFlat(raw[i], table, avg)
    requires Pending(raw, Heads(raw, table, avg, i), i, sections, current, buffer)
    ensures Pending(raw, Heads(raw, table, avg, i + 1), i + 1, sections, current, buffer + [raw[i]])
  {
    var hs := Heads(raw, table, avg, i);
    HeadsNext(raw, table, avg, i);
    PendingBody(raw, hs, i, sections, current, buffer);
  }

  /** One pass of the section loop on a text after the name line: a heading
      flushes the buffer into the open section, if any, and opens its own
      section; any other text joins the buffer. */
  method SectionStep(raw: seq<string>, table: map<string, real>, avg: real, i: nat,
                     sections: seq<FlatSection>, current: Current, buffer: seq<string>)
    returns (sections': seq<FlatSection>, current': Current, buffer': seq<string>)
    requires 1 <= i < |raw| && Pending(raw, Heads(raw, table, avg, i), i, sections, current, buffer)
    ensures Pending(raw, Heads(raw, table, avg, i + 1), i + 1, sections', current', buffer')
  {
    var text := raw[i];
    sections', current', buffer' := sections, current, buffer;
    if IsHeaderFlat(text, table, avg) {
      HeadingNext(raw, table, avg, i, sections, current, buffer);
      if buffer != [] && current.At? {
        sections' := FlushBuffer(sections, current, buffer);
        buffer' := [];
      }
      current' := At(|sections'|);
      sections' := sections' + [FlatSection(1, text, [])];
    } else {
      BodyNext(raw, table, avg, i, sections, current, buffer);
      buffer' := buffer + [text];
    }
  }

  /** The section loop of main.py over the texts in reading order. */
  method BuildSections(raw: seq<string>, table: map<string, real>, avg: real) returns (sections: seq<FlatSection>)
    ensures sections == FlatOutline(raw, table, avg)
  {
    sections := [];
    var current := NoSection;
    var buffer: seq<string> := [];
    for i := 0 to |raw|
      invariant i == 0 ==> sections == [] && current == NoSection && buffer == []
      invariant i > 0 ==> Pending(raw, Heads(raw, table, avg, i), i, sections, current, buffer)
    {
      if sections == [] {
        // the name line
        sections := [FlatSection(1, raw[i], [])];
        PendingStart(raw);
      } else {
        sections, current, buffer := SectionStep(raw, table, avg, i, sections, current, buffer);
      }
    }
    if raw != [] {
      PendingEnd(raw, Heads(raw, table, avg, |raw|), sections, current, buffer);
    }
    if buffer != [] && current.At? {
      sections := FlushBuffer(sections, current, buffer);
    }
  }

  /** process_text_with_pdfminer of main.py: the reading-order texts, the size
      table and its average, then the section loop; no table, no sections. */
  method ProcessFlat(pages: seq<Page>) returns (sections: seq<FlatSection>)
    ensures var lines := Flatten(pages);
      sections == if TableKeys(lines) == [] then []
                  else FlatOutline(ReadingOrder(pages), Table(lines), Mean(TableKeys(lines), Table(lines)))
  {
    var raw := ExtractRawText(pages);
    var order, table := CollectTextSizes(Flatten(pages));
    if order == [] {
      return [];
    }
    var avg := Mean(order, table);
    sections := BuildSections(raw, table, avg);
  }
}
