/** Sorting the sections of a blob list with the directory comparator. */
module SectionSort {
  import opened DirectoryOrder

  ghost predicate IsSorted(lines: seq<string>) {
    forall i, j :: 0 <= i < j < |lines| ==> StrcollExtractUtils(lines[i], lines[j]) <= 0
  }

  /** No line comes before one that stands in front of it. */
  ghost predicate InOrder(lines: seq<string>) {
    forall i, j :: 0 <= i < j < |lines| ==> !Before(lines[j], lines[i])
  }

  lemma SortedMeansInOrder(lines: seq<string>)
    ensures IsSorted(lines) <==> InOrder(lines)
  {
    hide StrcollExtractUtils, Before;
    forall i, j | 0 <= i < j < |lines|
      ensures StrcollExtractUtils(lines[i], lines[j]) <= 0 <==> !Before(lines[j], lines[i])
    {
      ComparatorSaysBefore(lines[i], lines[j]);
    }
  }

  /** The lines that tie with k, in their order. */
  function Ties(lines: seq<string>, k: string): seq<string> {
    if lines == [] then []
    else if StrcollExtractUtils(lines[0], k) == 0 then [lines[0]] + Ties(lines[1..], k)
    else Ties(lines[1..], k)
  }

  /** What list.sort() promises: the output is sorted, and lines that tie keep their order. */
  ghost predicate IsStableSortOf(out: seq<string>, lines: seq<string>) {
    IsSorted(out) && forall k :: Ties(out, k) == Ties(lines, k)
  }

  function Insert(line: string, sorted: seq<string>): seq<string> {
    if sorted == [] || StrcollExtractUtils(line, sorted[0]) <= 0 then [line] + sorted
    else [sorted[0]] + Insert(line, sorted[1..])
  }

  function Sorted(lines: seq<string>): seq<string> {
    if lines == [] then [] else Insert(lines[0], Sorted(lines[1..]))
  }

  lemma {:induction false} InsertPermutes(line: string, sorted: seq<string>)
    ensures multiset(Insert(line, sorted)) == multiset(sorted) + multiset{line}
  {
    if !(sorted == [] || StrcollExtractUtils(line, sorted[0]) <= 0) {
      InsertPermutes(line, sorted[1..]);
      assert sorted == [sorted[0]] + sorted[1..];
    }
  }

  /** The output is a permutation of the section. */
  lemma {:induction false} SortedPermutes(lines: seq<string>)
    ensures multiset(Sorted(lines)) == multiset(lines)
  {
    if lines != [] {
      SortedPermutes(lines[1..]);
      InsertPermutes(lines[0], Sorted(lines[1..]));
      assert lines == [lines[0]] + lines[1..];
    }
  }

  lemma LeastFirst(line: string, sorted: seq<string>)
    requires IsSorted(sorted) && forall l :: l in sorted ==> StrcollExtractUtils(line, l) <= 0
    ensures IsSorted([line] + sorted)
  {
    hide StrcollExtractUtils;
    var all := [line] + sorted;
    forall i, j | 0 <= i < j < |all|
      ensures StrcollExtractUtils(all[i], all[j]) <= 0
    {
      if i == 0 { assert all[j] in sorted; }
    }
  }

  lemma BelowHead(line: string, sorted: seq<string>)
    requires sorted != [] && IsSorted(sorted) && TransitiveOn([line] + sorted)
    requires StrcollExtractUtils(line, sorted[0]) <= 0
    ensures forall l :: l in sorted ==> StrcollExtractUtils(line, l) <= 0
  {
    hide StrcollExtractUtils;
    forall l | l in sorted
      ensures StrcollExtractUtils(line, l) <= 0
    {
      var j :| 0 <= j < |sorted| && sorted[j] == l;
      var all := [line] + sorted;
      assert line in all && sorted[0] in all && l in all;
      assert j > 0 ==> StrcollExtractUtils(sorted[0], sorted[j]) <= 0;
    }
  }

  lemma {:induction false} InsertKeepsSorted(line: string, sorted: seq<string>)
    requires IsSorted(sorted) && TransitiveOn([line] + sorted)
    ensures IsSorted(Insert(line, sorted))
  {
    hide StrcollExtractUtils;
    if sorted == [] || StrcollExtractUtils(line, sorted[0]) <= 0 {
      if sorted != [] { BelowHead(line, sorted); }
      LeastFirst(line, sorted);
    } else {
      var rest := sorted[1..];
      assert forall l :: l in [line] + rest ==> l in [line] + sorted;
      InsertKeepsSorted(line, rest);
      InsertPermutes(line, rest);
      ComparatorIsAntisymmetric(line, sorted[0]);
      forall l | l in Insert(line, rest)
        ensures StrcollExtractUtils(sorted[0], l) <= 0
      {
        assert l in multiset(Insert(line, rest));
        assert l == line || l in rest;
      }
      LeastFirst(sorted[0], Insert(line, rest));
    }
  }

  lemma {:induction false} SortedIsSorted(lines: seq<string>)
    requires TransitiveOn(lines)
    ensures IsSorted(Sorted(lines))
  {
    if lines != [] {
      var rest := lines[1..];
      assert forall l :: l in rest ==> l in lines;
      SortedIsSorted(rest);
      SortedPermutes(rest);
      forall l | l in [lines[0]] + Sorted(rest)
        ensures l in lines
      {
        assert l == lines[0] || l in multiset(Sorted(rest));
      }
      InsertKeepsSorted(lines[0], Sorted(rest));
    }
  }

  lemma {:induction false} InsertKeepsTies(line: string, sorted: seq<string>, k: string)
    ensures Ties(Insert(line, sorted), k) == Ties([line] + sorted, k)
  {
    if !(sorted == [] || StrcollExtractUtils(line, sorted[0]) <= 0) {
      InsertKeepsTies(line, sorted[1..], k);
      ComparatorIsAntisymmetric(line, sorted[0]);
      ComparatorIsAntisymmetric(line, k);
      ComparatorIsAntisymmetric(sorted[0], k);
      assert ([line] + sorted)[1..] == sorted;
      assert ([line] + sorted[1..])[1..] == sorted[1..];
    }
  }

  /** Lines that differ only in the leading dash keep their order. */
  lemma {:induction false} SortedKeepsTies(lines: seq<string>, k: string)
    ensures Ties(Sorted(lines), k) == Ties(lines, k)
  {
    if lines != [] {
      SortedKeepsTies(lines[1..], k);
      InsertKeepsTies(lines[0], Sorted(lines[1..]), k);
      assert ([lines[0]] + Sorted(lines[1..]))[1..] == Sorted(lines[1..]);
    }
  }

  lemma {:induction false} TiesMembers(lines: seq<string>, k: string)
    ensures forall l :: l in Ties(lines, k) ==> l in lines && StrcollExtractUtils(l, k) == 0
    ensures (exists l :: l in lines && StrcollExtractUtils(l, k) == 0) <==> Ties(lines, k) != []
  {
    if lines != [] { TiesMembers(lines[1..], k); }
  }

  /** Two stable sorts of the same lines begin with the same line. */
  lemma SameHead(out1: seq<string>, out2: seq<string>)
    requires IsSorted(out1) && IsSorted(out2) && out1 != [] && out2 != []
    requires forall k :: Ties(out1, k) == Ties(out2, k)
    ensures out1[0] == out2[0]
  {
    var a, b := out1[0], out2[0];
    ComparatorIsAntisymmetric(a, a);
    ComparatorIsAntisymmetric(b, b);
    ComparatorIsAntisymmetric(a, b);
    TiesMembers(out1, b);
    TiesMembers(out2, a);
    assert a in Ties(out1, a) && a in out2;
    assert b in Ties(out2, b) && b in out1;
    assert StrcollExtractUtils(a, b) == 0;
    assert Ties(out1, a)[0] == a && Ties(out2, a)[0] == b;
  }

  lemma {:induction false} StableSortIsUnique(out1: seq<string>, out2: seq<string>)
    requires IsSorted(out1) && IsSorted(out2)
    requires forall k :: Ties(out1, k) == Ties(out2, k)
    ensures out1 == out2
  {
    if out1 == [] || out2 == [] {
      var k := if out1 != [] then out1[0] else if out2 != [] then out2[0] else "";
      ComparatorIsAntisymmetric(k, k);
      assert Ties(out1, k) == Ties(out2, k);
    } else {
      SameHead(out1, out2);
      var a := out1[0];
      forall k
        ensures Ties(out1[1..], k) == Ties(out2[1..], k)
      {
        assert Ties(out1, k) == Ties(out2, k);
        if StrcollExtractUtils(a, k) == 0 {
          assert Ties(out1[1..], k) == Ties(out1, k)[1..];
          assert Ties(out2[1..], k) == Ties(out2, k)[1..];
        }
      }
      StableSortIsUnique(out1[1..], out2[1..]);
      assert out1 == [a] + out1[1..] && out2 == [a] + out2[1..];
    }
  }

  /** Main result: a list without a triangle has exactly one stable sort, whichever algorithm finds it. */
  lemma SortIsDetermined(lines: seq<string>, out: seq<string>)
    requires !HasTriangle(lines)
    ensures IsStableSortOf(out, lines) <==> out == Sorted(lines)
  {
    TransitiveIffNoTriangle(lines);
    SortedIsSorted(lines);
    forall k
      ensures Ties(Sorted(lines), k) == Ties(lines, k)
    {
      SortedKeepsTies(lines, k);
    }
    if IsStableSortOf(out, lines) {
      StableSortIsUnique(out, Sorted(lines));
    }
  }

  /** Sorting a sorted section changes nothing. */
  lemma SortingTwiceIsSortingOnce(lines: seq<string>)
    requires !HasTriangle(lines)
    ensures Sorted(Sorted(lines)) == Sorted(lines)
  {
    var once := Sorted(lines);
    SortedPermutes(lines);
    assert forall l :: l in once <==> l in multiset(once);
    assert forall l :: l in once ==> l in multiset(lines);
    assert !HasTriangle(once);
    TransitiveIffNoTriangle(lines);
    SortedIsSorted(lines);
    SortIsDetermined(once, once);
  }

  // ---------- Directories stay together ----------

  predicate InTree(line: string, p: string) { p <= Dir(Strip(line)) }

  lemma MarkedInterval(p: string, d: string, e: string, f: string)
    requires p <= d && p <= f && CollateMarked(d, e) <= 0 && CollateMarked(e, f) <= 0
    ensures p <= e
  {
    Compared(p, e);
    Compared(d, e);
    Compared(e, f);
    if !(p <= e) {
      if !(e <= p) {
        var i: nat :| DivergeAt(p, e, i);
        assert d[..i] == p[..i] && d[i] == p[i] && f[..i] == p[..i] && f[i] == p[i];
        DivergenceDecides(d, e, i);
        assert DivergeAt(e, f, i);
        DivergenceDecides(e, f, i);
      }
    }
  }

  lemma PlainInterval(p: string, d: string, e: string, f: string)
    requires p <= d && p <= f && Collate(d, e) <= 0 && Collate(e, f) <= 0
    ensures p <= e
  {
    Compared(p, e);
    Compared(d, e);
    Compared(e, f);
    if !(p <= e) {
      if !(e <= p) {
        var i: nat :| DivergeAt(p, e, i);
        assert d[..i] == p[..i] && d[i] == p[i] && f[..i] == p[..i] && f[i] == p[i];
        DivergenceDecides(d, e, i);
        assert DivergeAt(e, f, i);
        DivergenceDecides(e, f, i);
      }
    }
  }

  lemma PrefixesNest(p: string, d: string, e: string)
    requires p <= e && d <= e
    ensures p <= d || d < p
  {
    if |p| <= |d| {
      assert p == e[..|p|] == d[..|p|];
    } else {
      assert d == e[..|d|] == p[..|d|];
    }
  }

  /** A name without a slash between two lines of a tree is the name of its directory. */
  lemma NameInsideTree(p: string, u: string, v: string, w: string)
    requires p != "" && p[|p| - 1] == '/' && HasSlash(u) && !HasSlash(v) && HasSlash(w)
    requires p <= Dir(u) && p <= Dir(w) && Order(u, v) <= 0 && Order(v, w) <= 0
    ensures p <= Dir(v)
  {
    ParentFacts(u);
    ParentFacts(w);
    SlashlessNotUnder(v, w);
    if Under(u, v) {
      PrefixesNest(p, Dir(v), Dir(u));
    } else {
      PlainInterval(p, u, v, w);
      assert false;
    }
  }

  /** Main result: in a sorted section the lines of every directory tree are contiguous, whatever other
      lines the section has: between two of them there is no heading, no empty line and no other path. */
  lemma TreesAreContiguous(lines: seq<string>, p: string, i: nat, j: nat, k: nat)
    requires IsSorted(lines) && i < j < k < |lines|
    requires p != "" && p[|p| - 1] == '/'
    requires HasSlash(Strip(lines[i])) && InTree(lines[i], p)
    requires HasSlash(Strip(lines[k])) && InTree(lines[k], p)
    ensures InTree(lines[j], p)
  {
    assert StrcollExtractUtils(lines[i], lines[j]) <= 0 && StrcollExtractUtils(lines[j], lines[k]) <= 0;
    EmptyLineIsLeast(lines[i], lines[j]);
    var u, v, w := Strip(lines[i]), Strip(lines[j]), Strip(lines[k]);
    if HasSlash(v) {
      PathsAreKeyOrdered(lines[i], lines[j]);
      PathsAreKeyOrdered(lines[j], lines[k]);
      MarkedInterval(p, Dir(u), Dir(v), Dir(w));
    } else {
      ComparatorIsOrder(lines[i], lines[j]);
      ComparatorIsOrder(lines[j], lines[k]);
      NameInsideTree(p, u, v, w);
    }
  }

  /** A line with a slash at both ends is needed: here the name of a directory and a file in it are apart. */
  lemma NameApartFromItsTree()
    ensures var lines := ["foo", "foo-x", "foo/z"];
            IsSorted(lines) && InTree(lines[0], "foo/") && !InTree(lines[1], "foo/") && InTree(lines[2], "foo/")
  {
    hide Dir, Collate, CollateMarked, StrcollExtractUtils;
    var a, b, c := "foo", "foo-x", "foo/z";
    FooDirs();
    ComparatorIsOrder(a, b);
    ComparatorIsOrder(b, c);
    ComparatorIsOrder(a, c);
    Compared(a, b);
    Compared(a, c);
    assert DivergeAt(b, c, 3);
    DivergenceDecides(b, c, 3);
    assert "foo-x/"[3] != "foo/"[3];
  }

  lemma FooDirs()
    ensures Dir("foo") == "foo/" && Dir("foo-x") == "foo-x/" && Dir("foo/z") == "foo/"
  {
    var c := "foo/z";
    assert HasSlash(c) by { assert c[3] == '/'; }
    ParentFacts(c);
    assert Dir(c) == c[..|Dir(c)|];
  }

  /** The heading of a sorted section comes before every path that begins above the hash sign. */
  lemma HeadingComesFirst(lines: seq<string>, i: nat, j: nat)
    requires IsSorted(lines) && i < |lines| && j < |lines|
    requires Heading(lines[i]) && Strip(lines[j]) != "" && Strip(lines[j])[0] > '#'
    ensures i < j
  {
    HeadingBeforeIff(lines[i], lines[j]);
    ComparatorIsAntisymmetric(lines[i], lines[j]);
  }

  /** And everything in a proper subdirectory comes before the files of the directory itself. */
  lemma SubdirectoriesComeFirst(lines: seq<string>, i: nat, j: nat)
    requires IsSorted(lines) && forall l :: l in lines ==> l != ""
    requires i < |lines| && j < |lines| && Under(Strip(lines[i]), Strip(lines[j]))
    ensures i < j
  {
    assert lines[i] in lines && lines[j] in lines;
    ComparatorIsOrder(lines[j], lines[i]);
  }

  // ---------- The driver ----------

  lemma StableSortInOrder(out: seq<string>, lines: seq<string>)
    requires IsStableSortOf(out, lines)
    ensures InOrder(out)
  {
    SortedMeansInOrder(out);
  }

  /** Sorts each section on its own and keeps the sections in their order. */
  method ReorderSections(sections: seq<seq<string>>) returns (ordered: seq<seq<string>>)
    ensures |ordered| == |sections|
    ensures forall i :: 0 <= i < |sections| ==> multiset(ordered[i]) == multiset(sections[i])
    ensures forall i :: 0 <= i < |sections| && !HasTriangle(sections[i]) ==> IsStableSortOf(ordered[i], sections[i])
    ensures forall i :: 0 <= i < |sections| && !HasTriangle(sections[i]) ==> InOrder(ordered[i])
  {
    hide *;
    ordered := [];
    var n := 0;
    while n < |sections|
      invariant n == |ordered| <= |sections|
      invariant forall i :: 0 <= i < n ==> multiset(ordered[i]) == multiset(sections[i])
      invariant forall i :: 0 <= i < n && !HasTriangle(sections[i]) ==> IsStableSortOf(ordered[i], sections[i])
      invariant forall i :: 0 <= i < n && !HasTriangle(sections[i]) ==> InOrder(ordered[i])
    {
      var sectionList := SortList(sections[n]);
      if !HasTriangle(sections[n]) {
        SortIsDetermined(sections[n], sectionList);
        StableSortInOrder(sectionList, sections[n]);
      }
      SortedPermutes(sections[n]);
      ordered := ordered + [sectionList];
      n := n + 1;
    }
  }

  /** A stable sort by insertion, standing in for list.sort(). */
  method SortList(lines: seq<string>) returns (out: seq<string>)
    ensures out == Sorted(lines)
  {
    out := [];
    var n := |lines|;
    assert lines[n..] == [];
    while n > 0
      invariant 0 <= n <= |lines| && out == Sorted(lines[n..])
    {
      n := n - 1;
      assert lines[n..][1..] == lines[n + 1..];
      out := Insert(lines[n], out);
    }
    assert lines[0..] == lines;
  }
}
