/** Font-size classification of the arbitrary-depth engine (src/main.py): the
    histogram of line sizes, the greedy grouping of sizes that lie within 0.5 of
    each other, the depth ranking of the groups that occur more than once, and
    the nearest-size depth lookup. Sizes are exact reals. */
module FontSizes {
  import opened Layout

  /** Two sizes closer than this share a group. */
  const Tolerance: real := 0.5

  function Abs(x: real): real { if x < 0.0 then -x else x }

  predicate Distinct(s: seq<real>) {
    forall i, j :: 0 <= i < j < |s| ==> s[i] != s[j]
  }

  predicate StrictlyDescending(s: seq<real>) {
    forall i, j :: 0 <= i < j < |s| ==> s[i] > s[j]
  }

  // ---------------------------------------------------------------------------
  // The histogram: font_sizes and font_size_freq

  /** Number of lines that carry glyphs, i.e. the length of the collected size list. */
  function GlyphLines(lines: seq<Line>): nat {
    if lines == [] then 0
    else GlyphLines(lines[..|lines| - 1]) + (if lines[|lines| - 1].hasChars then 1 else 0)
  }

  /** No size is collected exactly when no line carries glyphs. */
  lemma {:induction false} GlyphLinesZero(lines: seq<Line>)
    ensures GlyphLines(lines) == 0 <==> forall l :: l in lines ==> !l.hasChars
  {
    if lines != [] {
      var init := lines[..|lines| - 1];
      GlyphLinesZero(init);
      assert lines == init + [lines[|lines| - 1]];
    }
  }

  /** Number of lines that carry glyphs and whose mean size is exactly s. */
  function CountSize(lines: seq<Line>, s: real): nat {
    if lines == [] then 0
    else
      var l := lines[|lines| - 1];
      CountSize(lines[..|lines| - 1], s) + (if l.hasChars && l.size == s then 1 else 0)
  }

  /** Sum of the frequencies of the listed sizes. */
  function SumFreq(keys: seq<real>, freq: map<real, nat>): nat
    requires forall k :: k in keys ==> k in freq
  {
    if keys == [] then 0
    else
      var last := keys[|keys| - 1];
      assert last in keys;
      SumFreq(keys[..|keys| - 1], freq) + freq[last]
  }

  lemma {:induction false} SumFreqOther(keys: seq<real>, freq: map<real, nat>, s: real, v: nat)
    requires forall k :: k in keys ==> k in freq
    requires s !in keys
    ensures SumFreq(keys, freq[s := v]) == SumFreq(keys, freq)
  {
    if keys != [] {
      assert keys[..|keys| - 1] + [keys[|keys| - 1]] == keys;
      SumFreqOther(keys[..|keys| - 1], freq, s, v);
    }
  }

  lemma {:induction false} SumFreqBump(keys: seq<real>, freq: map<real, nat>, s: real)
    requires forall k :: k in keys ==> k in freq
    requires Distinct(keys) && s in keys
    ensures SumFreq(keys, freq[s := freq[s] + 1]) == SumFreq(keys, freq) + 1
  {
    var init := keys[..|keys| - 1];
    assert init + [keys[|keys| - 1]] == keys;
    if keys[|keys| - 1] == s {
      assert s !in init;
      SumFreqOther(init, freq, s, freq[s] + 1);
    } else {
      SumFreqBump(init, freq, s);
    }
  }

  /** The distinct sizes of the lines that carry glyphs, in first-seen order:
      the key order of the frequency dict. */
  function SeenSizes(lines: seq<Line>): (r: seq<real>)
    ensures Distinct(r)
    ensures forall s :: s in r <==> CountSize(lines, s) > 0
    ensures r == [] <==> GlyphLines(lines) == 0
  {
    if lines == [] then []
    else
      var init := SeenSizes(lines[..|lines| - 1]);
      var l := lines[|lines| - 1];
      if l.hasChars && l.size !in init then init + [l.size] else init
  }

  /** The frequency dict: every seen size mapped to its number of lines. */
  function FreqOf(lines: seq<Line>): (m: map<real, nat>)
    ensures forall s :: s in m <==> CountSize(lines, s) > 0
    ensures forall s :: s in m ==> m[s] == CountSize(lines, s)
  {
    map s | s in SeenSizes(lines) :: CountSize(lines, s)
  }

  /** One more line bumps the frequency of its size when it carries glyphs and
      leaves the dict alone otherwise. */
  lemma FreqStep(lines: seq<Line>)
    requires lines != []
    ensures var init := lines[..|lines| - 1];
      var l := lines[|lines| - 1];
      FreqOf(lines) == if l.hasChars then FreqOf(init)[l.size := CountSize(init, l.size) + 1] else FreqOf(init)
  {
    var init := lines[..|lines| - 1];
    var l := lines[|lines| - 1];
    var after := if l.hasChars then FreqOf(init)[l.size := CountSize(init, l.size) + 1] else FreqOf(init);
    assert forall s :: s in FreqOf(lines) <==> s in after;
    assert forall s :: s in after ==> FreqOf(lines)[s] == after[s];
  }

  /** The histogram after line i, in terms of the histogram before it. */
  lemma TallyStep(lines: seq<Line>, i: nat)
    requires i < |lines|
    ensures var before := lines[..i];
      var l := lines[i];
      var order := SeenSizes(before);
      var freq := FreqOf(before);
      (l.size in freq <==> l.size in order) &&
      SeenSizes(lines[..i + 1]) == (if l.hasChars && l.size !in order then order + [l.size] else order) &&
      FreqOf(lines[..i + 1]) == (if !l.hasChars then freq
                                 else if l.size in freq then freq[l.size := freq[l.size] + 1]
                                 else freq[l.size := 1]) &&
      GlyphLines(lines[..i + 1]) == GlyphLines(before) + (if l.hasChars then 1 else 0)
  {
    var prefix := lines[..i + 1];
    assert prefix[..i] == lines[..i];
    FreqStep(prefix);
  }

  /** The frequencies of the seen sizes add up to the number of lines that carry glyphs. */
  lemma {:induction false} SumFreqSeen(lines: seq<Line>)
    ensures forall k :: k in SeenSizes(lines) ==> k in FreqOf(lines)
    ensures SumFreq(SeenSizes(lines), FreqOf(lines)) == GlyphLines(lines)
  {
    if lines != [] {
      var n := |lines| - 1;
      var init := lines[..n];
      SumFreqSeen(init);
      TallyStep(lines, n);
      assert lines[..n + 1] == lines;
      var keys := SeenSizes(init);
      var f := FreqOf(init);
      var x := lines[n].size;
      if lines[n].hasChars {
        if x in keys {
          SumFreqBump(keys, f, x);
        } else {
          SumFreqOther(keys, f, x, 1);
          var r := keys + [x];
          assert r[..|r| - 1] == keys;
        }
      }
    }
  }

  /** The first pass of src/main.py: every line that carries glyphs adds its size
      to the collected list and bumps that size's frequency. order lists the
      distinct sizes in first-seen order, as the frequency dict iterates them. */
  method CollectSizes(lines: seq<Line>) returns (order: seq<real>, freq: map<real, nat>, total: nat)
    ensures order == SeenSizes(lines) && freq == FreqOf(lines)
    ensures total == GlyphLines(lines)
  {
    order, freq, total := [], map[], 0;
    assert lines[..0] == [];
    for i := 0 to |lines|
      invariant order == SeenSizes(lines[..i]) && freq == FreqOf(lines[..i])
      invariant total == GlyphLines(lines[..i])
    {
      TallyStep(lines, i);
      var l := lines[i];
      if l.hasChars {
        if l.size in freq {
          freq := freq[l.size := freq[l.size] + 1];
        } else {
          freq := freq[l.size := 1];
          order := order + [l.size];
        }
        total := total + 1;
      }
    }
    assert lines[..|lines|] == lines;
  }

  // ---------------------------------------------------------------------------
  // sorted(..., reverse=True) on distinct sizes

  function InsertDesc(x: real, s: seq<real>): (r: seq<real>)
    requires StrictlyDescending(s) && x !in s
    ensures StrictlyDescending(r)
    ensures multiset(r) == multiset(s) + multiset{x}
  {
    if s == [] then [x]
    else if x > s[0] then [x] + s
    else
      assert s == [s[0]] + s[1..];
      var rest := InsertDesc(x, s[1..]);
      ConsDescending(s[0], rest, s[1..], x);
      [s[0]] + rest
  }

  /** A size above every element of a descending list, and above one more
      size, heads a descending list of them. */
  lemma ConsDescending(h: real, rest: seq<real>, src: seq<real>, x: real)
    requires StrictlyDescending(rest) && StrictlyDescending([h] + src) && h > x
    requires multiset(rest) == multiset(src) + multiset{x}
    ensures StrictlyDescending([h] + rest)
  {
    var r := [h] + rest;
    forall i, j | 0 <= i < j < |r| ensures r[i] > r[j] {
      if i == 0 {
        var y := rest[j - 1];
        assert r[0] == h && r[j] == y;
        assert y in multiset(rest);
        if y != x {
          assert y in multiset(src);
          var k :| 0 <= k < |src| && src[k] == y;
          assert ([h] + src)[0] == h && ([h] + src)[k + 1] == y;
        }
      } else {
        assert r[i] == rest[i - 1] && r[j] == rest[j - 1];
      }
    }
  }

  /** sorted(s, reverse=True) for a list of distinct sizes. */
  function SortDesc(s: seq<real>): (r: seq<real>)
    requires Distinct(s)
    ensures StrictlyDescending(r)
    ensures multiset(r) == multiset(s)
  {
    if s == [] then []
    else
      assert s == [s[0]] + s[1..];
      var rest := SortDesc(s[1..]);
      assert s[0] !in multiset(rest);
      InsertDesc(s[0], rest)
  }

  /** Sorting a list that is already strictly descending returns it unchanged. */
  lemma {:induction false} SortDescSorted(s: seq<real>)
    requires StrictlyDescending(s)
    ensures SortDesc(s) == s
  {
    if s != [] {
      SortDescSorted(s[1..]);
      assert s == [s[0]] + s[1..];
    }
  }

  /** Sum of frequencies does not depend on the order in which the sizes are listed. */
  lemma {:induction false} SumFreqPermutation(a: seq<real>, b: seq<real>, freq: map<real, nat>)
    requires forall k :: k in a ==> k in freq
    requires multiset(a) == multiset(b)
    ensures forall k :: k in b ==> k in freq
    ensures SumFreq(a, freq) == SumFreq(b, freq)
    decreases |a|
  {
    assert forall k :: k in b ==> k in multiset(b);
    if a != [] {
      var x := a[|a| - 1];
      var a' := a[..|a| - 1];
      MultisetRemove(a, |a| - 1);
      assert a[..|a| - 1] + a[|a|..] == a';
      assert x in multiset(b);
      var j :| 0 <= j < |b| && b[j] == x;
      var b' := b[..j] + b[j + 1..];
      MultisetRemove(b, j);
      assert forall k :: k in a' ==> k in a;
      SumFreqPermutation(a', b', freq);
      SumFreqRemove(b, j, freq);
      assert SumFreq(a, freq) == SumFreq(a', freq) + freq[x];
    }
  }

  lemma MultisetRemove(b: seq<real>, j: nat)
    requires j < |b|
    ensures multiset(b[..j] + b[j + 1..]) == multiset(b) - multiset{b[j]}
  {
    assert b == b[..j] + [b[j]] + b[j + 1..];
  }

  lemma {:induction false} SumFreqRemove(b: seq<real>, j: nat, freq: map<real, nat>)
    requires j < |b| && forall k :: k in b ==> k in freq
    ensures SumFreq(b, freq) == SumFreq(b[..j] + b[j + 1..], freq) + freq[b[j]]
  {
    var n := |b|;
    if j < n - 1 {
      var b' := b[..j] + b[j + 1..];
      assert b'[..|b'| - 1] == b[..n - 1][..j] + b[..n - 1][j + 1..];
      assert b'[|b'| - 1] == b[n - 1];
      SumFreqRemove(b[..n - 1], j, freq);
    } else {
      assert b[..j] + b[j + 1..] == b[..n - 1];
    }
  }

  // ---------------------------------------------------------------------------
  // Greedy first-fit grouping: grouped_sizes

  /** One entry of the grouped-size dict: its representative (the first, hence
      largest, size that opened it) and its accumulated occurrence count. */
  datatype SizeGroup = SizeGroup(rep: real, count: nat)

  /** Index of the first group whose representative lies strictly within the
      tolerance of size, or |groups| when there is none. */
  function FirstFit(groups: seq<SizeGroup>, size: real): (i: nat)
    ensures i <= |groups|
    ensures i < |groups| ==> Abs(groups[i].rep - size) < Tolerance
    ensures forall m :: 0 <= m < i ==> Abs(groups[m].rep - size) >= Tolerance
  {
    if groups == [] then 0
    else if Abs(groups[0].rep - size) < Tolerance then 0
    else 1 + FirstFit(groups[1..], size)
  }

  /** Adds count occurrences of size: to its first-fit group, else to a new group. */
  function AddToGroups(groups: seq<SizeGroup>, size: real, count: nat): seq<SizeGroup> {
    var i := FirstFit(groups, size);
    if i < |groups| then groups[i := groups[i].(count := groups[i].count + count)]
    else groups + [SizeGroup(size, count)]
  }

  /** The groups after visiting keys in the given order. */
  function GroupAll(keys: seq<real>, freq: map<real, nat>): (r: seq<SizeGroup>)
    requires forall k :: k in keys ==> k in freq
    ensures r == [] <==> keys == []
    ensures |r| <= |keys|
  {
    if keys == [] then []
    else
      var last := keys[|keys| - 1];
      AddToGroups(GroupAll(keys[..|keys| - 1], freq), last, freq[last])
  }

  /** Visiting one more size adds it to the groups built so far. */
  lemma GroupAllStep(keys: seq<real>, freq: map<real, nat>, i: nat)
    requires forall k :: k in keys ==> k in freq
    requires i < |keys|
    ensures keys[i] in freq
    ensures GroupAll(keys[..i + 1], freq) == AddToGroups(GroupAll(keys[..i], freq), keys[i], freq[keys[i]])
  {
    var k := keys[i];
    assert k in keys;
    assert k in freq;
    assert keys[..i + 1][..i] == keys[..i];
  }

  /** The inner scan of the grouping loop: the first group within tolerance of
      size, in creation order, or |groups| when there is none. */
  method FindGroup(groups: seq<SizeGroup>, size: real) returns (j: nat)
    ensures j == FirstFit(groups, size)
  {
    j := 0;
    while j < |groups| && Abs(groups[j].rep - size) >= Tolerance
      invariant j <= |groups|
      invariant forall m :: 0 <= m < j ==> Abs(groups[m].rep - size) >= Tolerance
    {
      j := j + 1;
    }
    FirstFitUnique(groups, size, j);
  }

  /** First fit is the only index before which no group is within tolerance and
      at which one is, or the end. */
  lemma {:induction false} FirstFitUnique(groups: seq<SizeGroup>, size: real, j: nat)
    requires j <= |groups|
    requires forall m :: 0 <= m < j ==> Abs(groups[m].rep - size) >= Tolerance
    requires j < |groups| ==> Abs(groups[j].rep - size) < Tolerance
    ensures j == FirstFit(groups, size)
  {
    var f := FirstFit(groups, size);
    assert f < |groups| ==> Abs(groups[f].rep - size) < Tolerance;
  }

  /** The grouping loop of src/main.py, visiting the sizes in the given order and
      scanning the groups in creation order for the first within tolerance. */
  method GroupSizes(keys: seq<real>, freq: map<real, nat>) returns (groups: seq<SizeGroup>)
    requires forall k :: k in keys ==> k in freq
    ensures groups == GroupAll(keys, freq)
  {
    groups := [];
    for i := 0 to |keys|
      invariant groups == GroupAll(keys[..i], freq)
    {
      GroupAllStep(keys, freq, i);
      groups := AddSize(groups, keys[i], freq[keys[i]]);
    }
    assert keys[..|keys|] == keys;
  }

  /** One pass of the grouping loop: the size's frequency joins the first group
      within tolerance, or opens a new group at the end. */
  method AddSize(groups: seq<SizeGroup>, size: real, count: nat) returns (r: seq<SizeGroup>)
    ensures r == AddToGroups(groups, size, count)
  {
    var j := FindGroup(groups, size);
    if j < |groups| {
      r := groups[j := groups[j].(count := groups[j].count + count)];
    } else {
      r := groups + [SizeGroup(size, count)];
    }
  }

  /** The sizes a group holds: at most its representative, and less than the
      tolerance below it. */
  predicate InWindow(rep: real, k: real) {
    rep - Tolerance < k <= rep
  }

  /** Total frequency of the listed sizes that fall in the window of rep. */
  function WindowSum(keys: seq<real>, freq: map<real, nat>, rep: real): nat
    requires forall k :: k in keys ==> k in freq
  {
    if keys == [] then 0
    else
      var last := keys[|keys| - 1];
      WindowSum(keys[..|keys| - 1], freq, rep) + (if InWindow(rep, last) then freq[last] else 0)
  }

  /** Sizes at least the tolerance apart, largest first. */
  predicate Spread(s: seq<real>) {
    forall i, j :: 0 <= i < j < |s| ==> s[i] >= s[j] + Tolerance
  }

  /** Representatives are at least the tolerance apart, largest first. */
  predicate Separated(groups: seq<SizeGroup>) {
    forall i, j :: 0 <= i < j < |groups| ==> groups[i].rep >= groups[j].rep + Tolerance
  }

  lemma {:induction false} WindowSumEmpty(keys: seq<real>, freq: map<real, nat>, rep: real)
    requires forall k :: k in keys ==> k in freq
    requires forall k :: k in keys ==> k > rep
    ensures WindowSum(keys, freq, rep) == 0
  {
    if keys != [] {
      var init := keys[..|keys| - 1];
      assert keys == init + [keys[|keys| - 1]];
      forall k | k in init ensures k in keys && k in freq && k > rep {
        assert k in keys;
      }
      WindowSumEmpty(init, freq, rep);
      assert keys[|keys| - 1] in keys;
      assert !InWindow(rep, keys[|keys| - 1]);
    }
  }

  lemma WindowSumStep(init: seq<real>, k: real, freq: map<real, nat>, rep: real)
    requires forall x :: x in init + [k] ==> x in freq
    ensures WindowSum(init + [k], freq, rep)
      == WindowSum(init, freq, rep) + (if InWindow(rep, k) then freq[k] else 0)
  {
    assert (init + [k])[..|init|] == init;
  }

  /** The prefix of a strictly descending list is strictly descending and above
      its last size. */
  lemma LastOfDescending(init: seq<real>, k: real)
    requires StrictlyDescending(init + [k])
    ensures StrictlyDescending(init)
    ensures forall y :: y in init ==> y > k
  {
    var keys := init + [k];
    forall y | y in init ensures y > k {
      var j :| 0 <= j < |init| && init[j] == y;
      assert keys[j] == y && keys[|init|] == k;
    }
    assert forall j :: 0 <= j < |init| ==> keys[j] == init[j];
  }

  /** Every representative is one of the visited sizes. */
  lemma {:induction false} RepsAreKeys(keys: seq<real>, freq: map<real, nat>)
    requires forall k :: k in keys ==> k in freq
    ensures forall i :: 0 <= i < |GroupAll(keys, freq)| ==> GroupAll(keys, freq)[i].rep in keys
  {
    if keys != [] {
      var init := keys[..|keys| - 1];
      assert keys == init + [keys[|keys| - 1]];
      RepsAreKeys(init, freq);
    }
  }

  /** When every visited size exceeds x, so does every representative. */
  lemma {:induction false} RepsAbove(keys: seq<real>, freq: map<real, nat>, x: real)
    requires forall k :: k in keys ==> k in freq
    requires forall k :: k in keys ==> k > x
    ensures forall i :: 0 <= i < |GroupAll(keys, freq)| ==> GroupAll(keys, freq)[i].rep > x
  {
    if keys != [] {
      var init := keys[..|keys| - 1];
      assert keys == init + [keys[|keys| - 1]];
      assert keys[|keys| - 1] in keys;
      forall y | y in init ensures y in keys && y in freq && y > x {
        assert y in keys;
      }
      RepsAbove(init, freq, x);
    }
  }

  /** Sizes visited in strictly descending order give representatives at least
      0.5 apart, largest first. */
  lemma {:induction false} GroupAllSeparated(keys: seq<real>, freq: map<real, nat>)
    requires forall k :: k in keys ==> k in freq
    requires StrictlyDescending(keys)
    ensures Separated(GroupAll(keys, freq))
  {
    if keys != [] {
      var init := keys[..|keys| - 1];
      var k := keys[|keys| - 1];
      assert keys == init + [k];
      LastOfDescending(init, k);
      GroupAllSeparated(init, freq);
      RepsAbove(init, freq, k);
      AddSeparated(GroupAll(init, freq), k, freq[k]);
    }
  }

  /** Adding a size below every representative keeps the groups separated. */
  lemma AddSeparated(prev: seq<SizeGroup>, k: real, count: nat)
    requires Separated(prev)
    requires forall i :: 0 <= i < |prev| ==> prev[i].rep > k
    ensures Separated(AddToGroups(prev, k, count))
  {
    var r := AddToGroups(prev, k, count);
    if FirstFit(prev, k) == |prev| {
      assert forall m :: 0 <= m < |prev| ==> prev[m].rep >= k + Tolerance;
      assert r == prev + [SizeGroup(k, count)];
    } else {
      assert |r| == |prev| && forall m :: 0 <= m < |r| ==> r[m].rep == prev[m].rep;
    }
  }

  /** With separated representatives all above the next size, first fit can only
      pick the most recently opened group. */
  lemma FirstFitIsLast(prev: seq<SizeGroup>, k: real)
    requires Separated(prev)
    requires forall i :: 0 <= i < |prev| ==> prev[i].rep > k
    ensures FirstFit(prev, k) >= |prev| - 1
  {
    if prev != [] {
      var last := |prev| - 1;
      assert prev[last].rep > k;
      forall m | 0 <= m < last ensures Abs(prev[m].rep - k) >= Tolerance {
        assert prev[m].rep >= prev[last].rep + Tolerance;
      }
    }
  }

  /** The window of a group holds the next (smaller) size only when that size
      joins this group. */
  lemma WindowOfNext(prev: seq<SizeGroup>, k: real, m: nat)
    requires Separated(prev)
    requires forall i :: 0 <= i < |prev| ==> prev[i].rep > k
    requires m < |prev|
    ensures InWindow(prev[m].rep, k) <==> m == FirstFit(prev, k)
  {
    FirstFitIsLast(prev, k);
    assert prev[m].rep > k;
  }

  /** Each group's count is the total frequency of the visited sizes in its window. */
  lemma {:induction false} GroupAllCounts(keys: seq<real>, freq: map<real, nat>)
    requires forall k :: k in keys ==> k in freq
    requires StrictlyDescending(keys)
    ensures forall i :: 0 <= i < |GroupAll(keys, freq)| ==>
      GroupAll(keys, freq)[i].count == WindowSum(keys, freq, GroupAll(keys, freq)[i].rep)
  {
    if keys != [] {
      var init := keys[..|keys| - 1];
      var k := keys[|keys| - 1];
      assert keys == init + [k];
      LastOfDescending(init, k);
      GroupAllCounts(init, freq);
      GroupAllSeparated(init, freq);
      RepsAbove(init, freq, k);
      CountsStep(init, k, freq, GroupAll(init, freq));
    }
  }

  /** Adding the next (smaller) size keeps every group's count equal to the
      total frequency of the visited sizes in its window. */
  lemma CountsStep(init: seq<real>, k: real, freq: map<real, nat>, prev: seq<SizeGroup>)
    requires forall x :: x in init + [k] ==> x in freq
    requires forall y :: y in init ==> y > k
    requires Separated(prev) && forall i :: 0 <= i < |prev| ==> prev[i].rep > k
    requires forall i :: 0 <= i < |prev| ==> prev[i].count == WindowSum(init, freq, prev[i].rep)
    ensures k in freq
    ensures var groups := AddToGroups(prev, k, freq[k]);
      forall m :: 0 <= m < |groups| ==> groups[m].count == WindowSum(init + [k], freq, groups[m].rep)
  {
    assert k in init + [k];
    var groups := AddToGroups(prev, k, freq[k]);
    var f := FirstFit(prev, k);
    forall m | 0 <= m < |groups|
      ensures groups[m].count == WindowSum(init + [k], freq, groups[m].rep)
    {
      WindowSumStep(init, k, freq, groups[m].rep);
      if m < |prev| {
        WindowOfNext(prev, k, m);
        assert groups[m].rep == prev[m].rep;
        assert groups[m].count == prev[m].count + (if m == f then freq[k] else 0);
      } else {
        assert f == |prev| && groups[m] == SizeGroup(k, freq[k]);
        assert forall y :: y in init ==> y in init + [k];
        WindowSumEmpty(init, freq, k);
      }
    }
  }

  predicate Covers(groups: seq<SizeGroup>, k: real) {
    exists i :: 0 <= i < |groups| && InWindow(groups[i].rep, k)
  }

  /** Every visited size falls in the window (rep - 0.5, rep] of some group. */
  lemma {:induction false} GroupAllCovers(keys: seq<real>, freq: map<real, nat>)
    requires forall k :: k in keys ==> k in freq
    requires StrictlyDescending(keys)
    ensures forall j :: 0 <= j < |keys| ==> Covers(GroupAll(keys, freq), keys[j])
  {
    if keys != [] {
      var init := keys[..|keys| - 1];
      var k := keys[|keys| - 1];
      assert keys == init + [k];
      LastOfDescending(init, k);
      GroupAllCovers(init, freq);
      RepsAbove(init, freq, k);
      CoversStep(init, k, freq, GroupAll(init, freq));
    }
  }

  /** Adding the next (smaller) size keeps every visited size covered and covers
      the new one. */
  lemma CoversStep(init: seq<real>, k: real, freq: map<real, nat>, prev: seq<SizeGroup>)
    requires forall i :: 0 <= i < |prev| ==> prev[i].rep > k
    requires forall j :: 0 <= j < |init| ==> Covers(prev, init[j])
    requires k in freq
    ensures forall j :: 0 <= j < |init| + 1 ==> Covers(AddToGroups(prev, k, freq[k]), (init + [k])[j])
  {
    var keys := init + [k];
    var groups := AddToGroups(prev, k, freq[k]);
    var f := FirstFit(prev, k);
    assert forall i :: 0 <= i < |prev| ==> groups[i].rep == prev[i].rep;
    forall j | 0 <= j < |keys|
      ensures Covers(groups, keys[j])
    {
      if j < |init| {
        assert keys[j] == init[j];
        var i :| 0 <= i < |prev| && InWindow(prev[i].rep, init[j]);
        assert InWindow(groups[i].rep, keys[j]);
      } else {
        assert keys[j] == k;
        if f < |prev| {
          assert prev[f].rep > k;
          assert groups[f].rep == prev[f].rep;
        } else {
          assert groups[f] == SizeGroup(k, freq[k]);
        }
        assert InWindow(groups[f].rep, keys[j]);
      }
    }
  }

  /** Sum of the group counts. */
  function SumCounts(groups: seq<SizeGroup>): nat {
    if groups == [] then 0
    else SumCounts(groups[..|groups| - 1]) + groups[|groups| - 1].count
  }

  lemma {:induction false} SumCountsUpdate(groups: seq<SizeGroup>, i: nat, c: nat)
    requires i < |groups|
    ensures SumCounts(groups[i := groups[i].(count := groups[i].count + c)]) == SumCounts(groups) + c
  {
    var g := groups[i := groups[i].(count := groups[i].count + c)];
    var n := |groups|;
    if i < n - 1 {
      assert g[..n - 1] == groups[..n - 1][i := groups[i].(count := groups[i].count + c)];
      SumCountsUpdate(groups[..n - 1], i, c);
    } else {
      assert g[..n - 1] == groups[..n - 1];
    }
  }

  /** Adding count occurrences to the groups adds count to their total. */
  lemma AddConserves(groups: seq<SizeGroup>, size: real, count: nat)
    ensures SumCounts(AddToGroups(groups, size, count)) == SumCounts(groups) + count
  {
    var i := FirstFit(groups, size);
    if i < |groups| {
      SumCountsUpdate(groups, i, count);
    } else {
      var g := groups + [SizeGroup(size, count)];
      assert g[..|groups|] == groups;
    }
  }

  /** Grouping conserves occurrences: the group counts add up to the total
      frequency of the visited sizes. */
  lemma {:induction false} GroupAllConserves(keys: seq<real>, freq: map<real, nat>)
    requires forall k :: k in keys ==> k in freq
    ensures SumCounts(GroupAll(keys, freq)) == SumFreq(keys, freq)
  {
    if keys != [] {
      var init := keys[..|keys| - 1];
      var k := keys[|keys| - 1];
      GroupAllConserves(init, freq);
      var prev := GroupAll(init, freq);
      assert GroupAll(keys, freq) == AddToGroups(prev, k, freq[k]);
      assert SumFreq(keys, freq) == SumFreq(init, freq) + freq[k];
      AddConserves(prev, k, freq[k]);
    }
  }

  // ---------------------------------------------------------------------------
  // Depth ranking: significant_sizes and font_size_to_depth

  /** Representatives of the groups counted more than once, in group order. The
      depth of significant[i] is i + 1. */
  function Significant(groups: seq<SizeGroup>): (sig: seq<real>)
    ensures |sig| <= |groups|
    ensures forall x :: x in sig <==> exists i :: 0 <= i < |groups| && groups[i].count > 1 && groups[i].rep == x
  {
    if groups == [] then []
    else
      var last := groups[|groups| - 1];
      var init := Significant(groups[..|groups| - 1]);
      assert forall i :: 0 <= i < |groups| - 1 ==> groups[..|groups| - 1][i] == groups[i];
      init + (if last.count > 1 then [last.rep] else [])
  }

  /** The significant sizes of separated groups are themselves at least the
      tolerance apart, largest first, so depth 1 goes to the largest. */
  lemma {:induction false} SignificantSeparated(groups: seq<SizeGroup>)
    requires Separated(groups)
    ensures Spread(Significant(groups))
  {
    if groups != [] {
      var n := |groups|;
      var init := groups[..n - 1];
      SignificantSeparated(init);
      var s0 := Significant(init);
      var last := groups[n - 1];
      assert Significant(groups) == s0 + (if last.count > 1 then [last.rep] else []);
      forall x | x in s0 ensures x >= last.rep + Tolerance {
        var i :| 0 <= i < n - 1 && init[i].count > 1 && init[i].rep == x;
        assert init[i] == groups[i];
      }
      var sig := Significant(groups);
      forall i, j | 0 <= i < j < |sig| ensures sig[i] >= sig[j] + Tolerance {
        assert sig[i] == s0[i];
        if j == |s0| {
          assert last.count > 1 && sig[j] == last.rep;
          assert s0[i] in s0;
        } else {
          assert sig[j] == s0[j];
          assert s0[i] >= s0[j] + Tolerance;
        }
      }
    }
  }

  // ---------------------------------------------------------------------------
  // get_depth

  /** Index of the first size at minimal distance from x, scanning in order and
      replacing the best only on a strictly smaller distance, as min() does. */
  function FirstNearest(sig: seq<real>, x: real): (i: nat)
    requires sig != []
    ensures i < |sig|
    ensures forall j :: 0 <= j < |sig| ==> Abs(sig[i] - x) <= Abs(sig[j] - x)
    ensures forall j :: 0 <= j < i ==> Abs(sig[j] - x) > Abs(sig[i] - x)
  {
    if |sig| == 1 then 0
    else
      var n := |sig|;
      var best := FirstNearest(sig[..n - 1], x);
      assert forall j :: 0 <= j < n - 1 ==> sig[..n - 1][j] == sig[j];
      if Abs(sig[n - 1] - x) < Abs(sig[best] - x) then n - 1 else best
  }

  /** get_depth: depth 1 when no size is significant; otherwise the depth of the
      first significant size nearest to x. */
  function NearestDepth(sig: seq<real>, x: real): (d: nat)
    ensures sig == [] ==> d == 1
    ensures sig != [] ==> 1 <= d <= |sig|
    ensures sig != [] ==> forall j :: 0 <= j < |sig| ==> Abs(sig[d - 1] - x) <= Abs(sig[j] - x)
    ensures sig != [] ==> forall j :: 0 <= j < d - 1 ==> Abs(sig[j] - x) > Abs(sig[d - 1] - x)
  {
    if sig == [] then 1 else FirstNearest(sig, x) + 1
  }

  /** The grouped-size dict of src/main.py: the seen sizes, visited largest
      first, grouped by first fit. */
  function GroupsOf(lines: seq<Line>): (r: seq<SizeGroup>)
    ensures Separated(r)
    ensures r == [] <==> GlyphLines(lines) == 0
  {
    var keys := SortDesc(SeenSizes(lines));
    assert forall k :: k in keys ==> k in multiset(SeenSizes(lines));
    GroupAllSeparated(keys, FreqOf(lines));
    GroupAll(keys, FreqOf(lines))
  }

  /** significant_sizes: representatives of the groups counted more than once,
      sorted largest first. */
  function SigOf(lines: seq<Line>): (r: seq<real>)
    ensures r == Significant(GroupsOf(lines))
    ensures Spread(r)
  {
    var filtered := Significant(GroupsOf(lines));
    SignificantSeparated(GroupsOf(lines));
    SortDescSorted(filtered);
    SortDesc(filtered)
  }

  /** What the size pass promises: the groups conserve the glyph lines, their
      representatives are seen sizes at least the tolerance apart, every seen
      size falls in some group's window, and the significant sizes are exactly
      the groups counted more than once, already largest first and spread out. */
  lemma SizePass(lines: seq<Line>)
    ensures var groups := GroupsOf(lines);
      SumCounts(groups) == GlyphLines(lines) &&
      Separated(groups) &&
      (forall i :: 0 <= i < |groups| ==> CountSize(lines, groups[i].rep) > 0 && groups[i].count > 0) &&
      (forall l :: l in lines && l.hasChars ==> Covers(groups, l.size))
    ensures SigOf(lines) == Significant(GroupsOf(lines))
    ensures forall x :: x in SigOf(lines) <==>
      exists i :: 0 <= i < |GroupsOf(lines)| && GroupsOf(lines)[i].count > 1 && GroupsOf(lines)[i].rep == x
    ensures Spread(SigOf(lines))
  {
    var order := SeenSizes(lines);
    var freq := FreqOf(lines);
    var keys := SortDesc(order);
    assert forall k :: k in keys ==> k in multiset(order);
    GroupsOfHistogram(lines, order, freq, keys);
    LinesCovered(lines, order, freq, keys);
    SumFreqSeen(lines);
    SumFreqPermutation(order, keys, freq);
    var groups := GroupsOf(lines);
    SignificantSeparated(groups);
    SortDescSorted(Significant(groups));
  }

  /** The whole size-grouping pass of src/main.py: histogram, descending sort,
      first-fit grouping and the ranking of the groups seen more than once. */
  method ClassifySizes(lines: seq<Line>) returns (total: nat, groups: seq<SizeGroup>, sig: seq<real>)
    ensures total == GlyphLines(lines)
    ensures groups == GroupsOf(lines) && sig == SigOf(lines)
  {
    var order, freq;
    order, freq, total := CollectSizes(lines);
    var keys := SortDesc(order);
    assert forall k :: k in keys ==> k in multiset(order);
    groups := GroupSizes(keys, freq);
    assert groups == GroupsOf(lines);
    var filtered := Significant(groups);
    SignificantSeparated(groups);
    sig := SortDesc(filtered);
  }

  /** The groups built from the histogram of lines, visited in descending order. */
  lemma GroupsOfHistogram(lines: seq<Line>, order: seq<real>, freq: map<real, nat>, keys: seq<real>)
    requires forall s :: s in freq <==> s in order
    requires forall s :: s in freq <==> CountSize(lines, s) > 0
    requires forall s :: s in freq ==> freq[s] == CountSize(lines, s)
    requires multiset(keys) == multiset(order) && StrictlyDescending(keys)
    ensures forall k :: k in keys ==> k in freq
    ensures var groups := GroupAll(keys, freq);
      SumCounts(groups) == SumFreq(keys, freq) &&
      Separated(groups) &&
      (forall i :: 0 <= i < |groups| ==> CountSize(lines, groups[i].rep) > 0) &&
      (forall i :: 0 <= i < |groups| ==> groups[i].count > 0)
  {
    assert forall k :: k in keys ==> k in multiset(order);
    var groups := GroupAll(keys, freq);
    GroupAllSeparated(keys, freq);
    GroupAllConserves(keys, freq);
    GroupAllCounts(keys, freq);
    RepsAreKeys(keys, freq);
    forall i | 0 <= i < |groups| ensures groups[i].count > 0 {
      WindowSumPositive(keys, freq, groups[i].rep);
    }
  }

  /** Every size of a line with glyphs falls in the window of some group. */
  lemma LinesCovered(lines: seq<Line>, order: seq<real>, freq: map<real, nat>, keys: seq<real>)
    requires forall s :: s in freq <==> s in order
    requires forall s :: s in freq <==> CountSize(lines, s) > 0
    requires multiset(keys) == multiset(order) && StrictlyDescending(keys)
    requires forall k :: k in keys ==> k in freq
    ensures forall l :: l in lines && l.hasChars ==> Covers(GroupAll(keys, freq), l.size)
  {
    var groups := GroupAll(keys, freq);
    GroupAllCovers(keys, freq);
    forall l | l in lines && l.hasChars
      ensures Covers(groups, l.size)
    {
      CountSizeOfMember(lines, l);
      assert l.size in multiset(order);
      assert l.size in multiset(keys);
      var j :| 0 <= j < |keys| && keys[j] == l.size;
    }
  }

  lemma {:induction false} WindowSumPositive(keys: seq<real>, freq: map<real, nat>, rep: real)
    requires forall k :: k in keys ==> k in freq && freq[k] > 0
    requires rep in keys
    ensures WindowSum(keys, freq, rep) > 0
  {
    var init := keys[..|keys| - 1];
    if keys[|keys| - 1] != rep {
      assert keys == init + [keys[|keys| - 1]];
      WindowSumPositive(init, freq, rep);
    }
  }

  lemma {:induction false} CountSizeOfMember(lines: seq<Line>, l: Line)
    requires l in lines && l.hasChars
    ensures CountSize(lines, l.size) > 0
  {
    var init := lines[..|lines| - 1];
    if lines[|lines| - 1] != l {
      assert lines == init + [lines[|lines| - 1]];
      CountSizeOfMember(init, l);
    }
  }
}
