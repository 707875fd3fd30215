/** The reading order of the flat engine (main.py, extract_raw_text): on each
    page the kept lines are sorted by descending top and then ascending left of
    their text box, stably, and the pages are concatenated in document order. */
module Reading {
  import opened Text
  import opened Layout

  /** A kept line with the coordinates of its text box: (y1, x0, text). */
  datatype Placed = Placed(top: real, left: real, text: string)

  /** a's sort key (-top, left) is strictly smaller than b's. */
  predicate KeyLt(a: Placed, b: Placed) {
    a.top > b.top || (a.top == b.top && a.left < b.left)
  }

  /** In reading order: no later element has a strictly smaller key. */
  predicate InReadingOrder(s: seq<Placed>) {
    forall i, j :: 0 <= i < j < |s| ==> !KeyLt(s[j], s[i])
  }

  // ---------------------------------------------------------------------------
  // list.sort(key=lambda x: (-x[0], x[1])), a stable sort

  /** Insert x after every element whose key is not larger than its own. */
  function Insert(x: Placed, s: seq<Placed>): (r: seq<Placed>)
    ensures multiset(r) == multiset(s) + multiset{x}
    ensures |r| == |s| + 1
  {
    if s == [] then [x]
    else if KeyLt(x, s[0]) then [x] + s
    else
      assert s == [s[0]] + s[1..];
      [s[0]] + Insert(x, s[1..])
  }

  /** The stable sort, as insertion of each element in turn after the sorted
      prefix before it. */
  function Sort(s: seq<Placed>): (r: seq<Placed>)
    ensures multiset(r) == multiset(s)
    ensures |r| == |s|
  {
    if s == [] then []
    else
      assert s == s[..|s| - 1] + [s[|s| - 1]];
      Insert(s[|s| - 1], Sort(s[..|s| - 1]))
  }

  lemma {:induction false} InsertOrdered(x: Placed, s: seq<Placed>)
    requires InReadingOrder(s)
    ensures InReadingOrder(Insert(x, s))
  {
    if s != [] && !KeyLt(x, s[0]) {
      InsertOrdered(x, s[1..]);
      var r := Insert(x, s);
      var t := Insert(x, s[1..]);
      assert r == [s[0]] + t;
      forall j | 0 < j < |r|
        ensures !KeyLt(r[j], r[0])
      {
        assert r[j] in multiset(t);
        assert r[j] in multiset(s[1..]) + multiset{x};
        if r[j] in multiset(s[1..]) {
          var k :| 0 <= k < |s[1..]| && s[1..][k] == r[j];
          assert s[k + 1] == r[j];
        }
      }
    }
  }

  /** The sorted list is in reading order. */
  lemma {:induction false} SortOrdered(s: seq<Placed>)
    ensures InReadingOrder(Sort(s))
  {
    if s != [] {
      SortOrdered(s[..|s| - 1]);
      InsertOrdered(s[|s| - 1], Sort(s[..|s| - 1]));
    }
  }

  /** The elements of s that share the key (top, left), in order. */
  function WithKey(s: seq<Placed>, top: real, left: real): seq<Placed>
  {
    if s == [] then []
    else (if s[0].top == top && s[0].left == left then [s[0]] else []) + WithKey(s[1..], top, left)
  }

  lemma WithKeyCons(y: Placed, s: seq<Placed>, top: real, left: real)
    ensures WithKey([y] + s, top, left) ==
      (if y.top == top && y.left == left then [y] else []) + WithKey(s, top, left)
  {
    assert ([y] + s)[1..] == s;
  }

  /** No element of a sorted list whose first key is strictly above x's shares
      a key with x. */
  lemma {:induction false} WithKeyAbove(x: Placed, s: seq<Placed>)
    requires InReadingOrder(s) && s != [] && KeyLt(x, s[0])
    ensures WithKey(s, x.top, x.left) == []
  {
    var rest := s[1..];
    if rest != [] {
      assert !KeyLt(s[1], s[0]);
      assert InReadingOrder(rest) by {
        forall i, j | 0 <= i < j < |rest|
          ensures !KeyLt(rest[j], rest[i])
        {
          assert rest[i] == s[i + 1] && rest[j] == s[j + 1];
        }
      }
      WithKeyAbove(x, rest);
    }
  }

  /** Inserting x adds it at the end of its own key's run and leaves every
      other key's run as it was. */
  lemma {:induction false} InsertStable(x: Placed, s: seq<Placed>, top: real, left: real)
    requires InReadingOrder(s)
    ensures WithKey(Insert(x, s), top, left) ==
      WithKey(s, top, left) + (if x.top == top && x.left == left then [x] else [])
  {
    if s == [] {
      assert Insert(x, s) == [] + [x];
    } else if KeyLt(x, s[0]) {
      InsertFront(x, s, top, left);
    } else {
      InsertStable(x, s[1..], top, left);
      InsertBehind(x, s, top, left);
    }
  }

  lemma InsertFront(x: Placed, s: seq<Placed>, top: real, left: real)
    requires InReadingOrder(s) && s != [] && KeyLt(x, s[0])
    ensures WithKey(Insert(x, s), top, left) ==
      WithKey(s, top, left) + (if x.top == top && x.left == left then [x] else [])
  {
    WithKeyCons(x, s, top, left);
    if x.top == top && x.left == left {
      WithKeyAbove(x, s);
    }
  }

  lemma InsertBehind(x: Placed, s: seq<Placed>, top: real, left: real)
    requires s != [] && !KeyLt(x, s[0])
    requires WithKey(Insert(x, s[1..]), top, left) ==
      WithKey(s[1..], top, left) + (if x.top == top && x.left == left then [x] else [])
    ensures WithKey(Insert(x, s), top, left) ==
      WithKey(s, top, left) + (if x.top == top && x.left == left then [x] else [])
  {
    var t := Insert(x, s[1..]);
    var m := if s[0].top == top && s[0].left == left then [s[0]] else [];
    var e := if x.top == top && x.left == left then [x] else [];
    assert WithKey(Insert(x, s), top, left) == m + WithKey(t, top, left) by {
      assert Insert(x, s) == [s[0]] + t;
      WithKeyCons(s[0], t, top, left);
    }
    assert WithKey(s, top, left) == m + WithKey(s[1..], top, left);
    Regroup(m, WithKey(s[1..], top, left), e);
  }

  /** Concatenation regrouped. Kept apart from InsertBehind: proved next to the
      unfolded WithKey facts there, this identity alone exhausts the solver. */
  lemma Regroup(a: seq<Placed>, b: seq<Placed>, c: seq<Placed>)
    ensures a + (b + c) == (a + b) + c
  {
  }

  lemma {:induction false} WithKeySnoc(s: seq<Placed>, x: Placed, top: real, left: real)
    ensures WithKey(s + [x], top, left) ==
      WithKey(s, top, left) + (if x.top == top && x.left == left then [x] else [])
  {
    if s == [] {
      assert [] + [x] == [x];
    } else {
      assert (s + [x])[1..] == s[1..] + [x];
      WithKeySnoc(s[1..], x, top, left);
    }
  }

  /** The sort is stable: the elements of each key keep their original order. */
  lemma {:induction false} SortStable(s: seq<Placed>, top: real, left: real)
    ensures WithKey(Sort(s), top, left) == WithKey(s, top, left)
  {
    if s != [] {
      var init := s[..|s| - 1];
      var x := s[|s| - 1];
      assert s == init + [x];
      var e := if x.top == top && x.left == left then [x] else [];
      SortStable(init, top, left);
      assert WithKey(Insert(x, Sort(init)), top, left) == WithKey(Sort(init), top, left) + e by {
        SortOrdered(init);
        InsertStable(x, Sort(init), top, left);
      }
      assert WithKey(s, top, left) == WithKey(init, top, left) + e by {
        WithKeySnoc(init, x, top, left);
      }
      assert Sort(s) == Insert(x, Sort(init));
    }
  }

  // ---------------------------------------------------------------------------
  // extract_raw_text

  /** The kept lines of one page with their box coordinates, in layout order:
      stripped text, non-empty and not a footer. Lines without glyphs are kept. */
  function Placements(page: Page): (r: seq<Placed>)
    ensures |r| <= |page|
    ensures forall i :: 0 <= i < |r| ==> Admitted(r[i].text) && Trimmed(r[i].text)
  {
    if page == [] then []
    else
      var l := page[|page| - 1];
      var t := Strip(l.text);
      Placements(page[..|page| - 1]) + (if Admitted(t) then [Placed(l.top, l.left, t)] else [])
  }

  function Texts(s: seq<Placed>): (r: seq<string>)
    ensures |r| == |s| && forall i :: 0 <= i < |s| ==> r[i] == s[i].text
  {
    if s == [] then [] else Texts(s[..|s| - 1]) + [s[|s| - 1].text]
  }

  /** The texts of the document in reading order, page by page. */
  function ReadingOrder(pages: seq<Page>): (r: seq<string>)
    ensures |r| <= |Flatten(pages)|
  {
    if pages == [] then []
    else ReadingOrder(pages[..|pages| - 1]) + Texts(Sort(Placements(pages[|pages| - 1])))
  }

  /** Every text of r is stripped, non-empty and not a footer. */
  predicate AllKept(r: seq<string>) {
    forall i :: 0 <= i < |r| ==> Admitted(r[i]) && Trimmed(r[i])
  }

  lemma KeptConcat(a: seq<string>, b: seq<string>)
    requires AllKept(a) && AllKept(b)
    ensures AllKept(a + b)
  {
    forall i | 0 <= i < |a + b|
      ensures Admitted((a + b)[i]) && Trimmed((a + b)[i])
    {
      if i < |a| {
        assert (a + b)[i] == a[i];
      } else {
        assert (a + b)[i] == b[i - |a|];
      }
    }
  }

  /** A permutation keeps the texts that were kept. */
  lemma PermutedTextsKept(placed: seq<Placed>, last: seq<Placed>)
    requires forall i :: 0 <= i < |placed| ==> Admitted(placed[i].text) && Trimmed(placed[i].text)
    requires multiset(last) == multiset(placed)
    ensures AllKept(Texts(last))
  {
    forall k | 0 <= k < |last|
      ensures Admitted(last[k].text) && Trimmed(last[k].text)
    {
      assert last[k] in multiset(placed);
      var j :| 0 <= j < |placed| && placed[j] == last[k];
    }
  }

  /** Every text in reading order is stripped, non-empty and not a footer. */
  lemma {:induction false} ReadingOrderKept(pages: seq<Page>)
    ensures AllKept(ReadingOrder(pages))
  {
    if pages != [] {
      var init := pages[..|pages| - 1];
      ReadingOrderKept(init);
      PermutedTextsKept(Placements(pages[|pages| - 1]), Sort(Placements(pages[|pages| - 1])));
      KeptConcat(ReadingOrder(init), Texts(Sort(Placements(pages[|pages| - 1]))));
    }
  }

  lemma TextsPermutation(a: seq<Placed>, b: seq<Placed>)
    requires multiset(a) == multiset(b)
    ensures multiset(Texts(a)) == multiset(Texts(b))
    decreases |a|
  {
    if a != [] {
      var x := a[|a| - 1];
      assert x in multiset(b);
      var j :| 0 <= j < |b| && b[j] == x;
      var b' := b[..j] + b[j + 1..];
      RemoveAt(b, j);
      assert a == a[..|a| - 1] + [x];
      TextsPermutation(a[..|a| - 1], b');
      TextsSplit(b[..j], x, b[j + 1..]);
    }
  }

  lemma RemoveAt(b: seq<Placed>, j: nat)
    requires j < |b|
    ensures b == b[..j] + [b[j]] + b[j + 1..]
    ensures multiset(b[..j] + b[j + 1..]) == multiset(b) - multiset{b[j]}
  {
    assert b == b[..j] + [b[j]] + b[j + 1..];
  }

  lemma TextsAppend(a: seq<Placed>, b: seq<Placed>)
    ensures Texts(a + b) == Texts(a) + Texts(b)
  {
    var l := Texts(a + b);
    var r := Texts(a) + Texts(b);
    forall i | 0 <= i < |a + b|
      ensures l[i] == r[i]
    {
      if i < |a| {
        assert (a + b)[i] == a[i];
      } else {
        assert (a + b)[i] == b[i - |a|];
      }
    }
  }

  lemma TextsSplit(a: seq<Placed>, x: Placed, c: seq<Placed>)
    ensures multiset(Texts(a + [x] + c)) == multiset(Texts(a + c)) + multiset{x.text}
  {
    TextsAppend(a + [x], c);
    TextsAppend(a, [x]);
    TextsAppend(a, c);
  }

  /** Each page contributes exactly its kept texts, in some order: a
      permutation of its placements' texts. */
  lemma PageTexts(pages: seq<Page>)
    requires pages != []
    ensures ReadingOrder(pages) ==
      ReadingOrder(pages[..|pages| - 1]) + Texts(Sort(Placements(pages[|pages| - 1])))
    ensures multiset(Texts(Sort(Placements(pages[|pages| - 1])))) ==
      multiset(Texts(Placements(pages[|pages| - 1])))
  {
    TextsPermutation(Sort(Placements(pages[|pages| - 1])), Placements(pages[|pages| - 1]));
  }

  lemma ReadingOrderStep(pages: seq<Page>, p: nat)
    requires p < |pages|
    ensures ReadingOrder(pages[..p + 1]) == ReadingOrder(pages[..p]) + Texts(Sort(Placements(pages[p])))
  {
    assert pages[..p + 1][..p] == pages[..p];
  }

  /** The element list of one page: (y1, x0, text) for every kept line. */
  method PlacePage(page: Page) returns (elements: seq<Placed>)
    ensures elements == Placements(page)
  {
    elements := [];
    for i := 0 to |page|
      invariant elements == Placements(page[..i])
    {
      var t := Strip(page[i].text);
      if t != [] && !IsFooter(t) {
        elements := elements + [Placed(page[i].top, page[i].left, t)];
      }
      assert page[..i + 1][..i] == page[..i];
    }
    assert page[..|page|] == page;
  }

  /** Appends the texts of the sorted elements to the running text list. */
  method AppendTexts(raw: seq<string>, elements: seq<Placed>) returns (out: seq<string>)
    ensures out == raw + Texts(elements)
  {
    out := raw;
    for k := 0 to |elements|
      invariant out == raw + Texts(elements[..k])
    {
      out := out + [elements[k].text];
      assert elements[..k + 1][..k] == elements[..k];
    }
    assert elements[..|elements|] == elements;
  }

  /** extract_raw_text: per page, collect the kept lines with their boxes,
      sort them into reading order, and append their texts. */
  method ExtractRawText(pages: seq<Page>) returns (raw: seq<string>)
    ensures raw == ReadingOrder(pages)
  {
    raw := [];
    for p := 0 to |pages|
      invariant raw == ReadingOrder(pages[..p])
    {
      var elements := PlacePage(pages[p]);
      elements := Sort(elements);
      raw := AppendTexts(raw, elements);
      ReadingOrderStep(pages, p);
    }
    assert pages[..|pages|] == pages;
  }
}
