/** The comparator that orders blob lists by directory: what it computes, and exactly when it is an order. */
module DirectoryOrder {

  // ---------- String order in the C locale ----------

  function Sign(a: char, b: char): int { if a < b then -1 else if b < a then 1 else 0 }

  /** strcoll() in the C locale: lexicographic by code, a proper prefix first. */
  function Collate(a: string, b: string): int {
    if a == "" then (if b == "" then 0 else -1)
    else if b == "" then 1
    else if a[0] != b[0] then Sign(a[0], b[0])
    else Collate(a[1..], b[1..])
  }

  /** Lexicographic with an end marker above every character: a proper prefix last. */
  function CollateMarked(a: string, b: string): int {
    if a == "" then (if b == "" then 0 else 1)
    else if b == "" then -1
    else if a[0] != b[0] then Sign(a[0], b[0])
    else CollateMarked(a[1..], b[1..])
  }

  /** The strings agree before i and differ at i. */
  predicate DivergeAt(a: string, b: string, i: nat) {
    i < |a| && i < |b| && a[..i] == b[..i] && a[i] != b[i]
  }

  lemma {:induction false} Compared(a: string, b: string)
    ensures a == b ==> Collate(a, b) == 0 && CollateMarked(a, b) == 0
    ensures a < b ==> Collate(a, b) == -1 && CollateMarked(a, b) == 1
    ensures b < a ==> Collate(a, b) == 1 && CollateMarked(a, b) == -1
    ensures !(a <= b) && !(b <= a) ==>
              exists i: nat :: DivergeAt(a, b, i) && Collate(a, b) == CollateMarked(a, b) == Sign(a[i], b[i])
  {
    if a != "" && b != "" {
      if a[0] == b[0] {
        Compared(a[1..], b[1..]);
        assert a == [a[0]] + a[1..] && b == [b[0]] + b[1..];
        if !(a <= b) && !(b <= a) {
          var i: nat :| DivergeAt(a[1..], b[1..], i) && Collate(a[1..], b[1..]) == Sign(a[1..][i], b[1..][i]);
          assert a[..i + 1] == [a[0]] + a[1..][..i] && b[..i + 1] == [b[0]] + b[1..][..i];
          assert DivergeAt(a, b, i + 1);
        }
      } else {
        assert DivergeAt(a, b, 0);
      }
    }
  }

  lemma {:induction false} DivergenceDecides(a: string, b: string, i: nat)
    requires DivergeAt(a, b, i)
    ensures Collate(a, b) == CollateMarked(a, b) == Sign(a[i], b[i])
  {
    if i > 0 {
      assert a[0] == a[..i][0] == b[..i][0] == b[0];
      assert a[1..][..i - 1] == a[..i][1..] && b[1..][..i - 1] == b[..i][1..];
      DivergenceDecides(a[1..], b[1..], i - 1);
    }
  }

  lemma {:induction false} CollateIsOrder(a: string, b: string, c: string)
    ensures Collate(b, a) == -Collate(a, b)
    ensures CollateMarked(b, a) == -CollateMarked(a, b)
    ensures Collate(a, b) <= 0 && Collate(b, c) <= 0 ==> Collate(a, c) <= 0
    ensures CollateMarked(a, b) <= 0 && CollateMarked(b, c) <= 0 ==> CollateMarked(a, c) <= 0
  {
    if a != "" && b != "" && a[0] == b[0] {
      CollateIsOrder(a[1..], b[1..], if c == "" then c else c[1..]);
    }
  }

  lemma ZeroMeansEqual(a: string, b: string)
    ensures Collate(a, b) == 0 <==> a == b
    ensures CollateMarked(a, b) == 0 <==> a == b
  {
    Compared(a, b);
  }

  // ---------- The comparator ----------

  predicate HasSlash(u: string) { '/' in u }

  /** Everything up to and including the last slash. */
  function Parent(u: string): string
    requires HasSlash(u)
  {
    if u[|u| - 1] == '/' then u else Parent(u[..|u| - 1])
  }

  /** rsplit("/", 1)[0] + "/" */
  function Dir(u: string): string { if HasSlash(u) then Parent(u) else u + "/" }

  /** removeprefix('-') */
  function Strip(line: string): string {
    if line != "" && line[0] == '-' then line[1..] else line
  }

  function StrcollExtractUtils(line1: string, line2: string): int {
    if line1 == "" || line2 == "" then Collate(line1, line2)
    else
      var u, v := Strip(line1), Strip(line2);
      if !HasSlash(u) && !HasSlash(v) then Collate(u, v)
      else
        var d, e := Dir(u), Dir(v);
        if d == e then Collate(u, v)
        else if e <= d then -1
        else if d <= e then 1
        else Collate(u, v)
  }

  lemma {:induction false} ParentFacts(u: string)
    requires HasSlash(u)
    ensures Parent(u) <= u && Parent(u) != "" && Parent(u)[|Parent(u)| - 1] == '/'
    ensures forall i :: |Parent(u)| <= i < |u| ==> u[i] != '/'
  {
    if u[|u| - 1] != '/' {
      var front := u[..|u| - 1];
      assert u == front + [u[|u| - 1]];
      ParentFacts(front);
    }
  }

  /** u is in a directory strictly below that of v. */
  predicate Under(u: string, v: string) { Dir(v) < Dir(u) }

  /** The comparator on stripped lines, in one shape for lines with and without directories. */
  function Order(u: string, v: string): int {
    if Under(u, v) then -1 else if Under(v, u) then 1 else Collate(u, v)
  }

  lemma SlashlessNotUnder(u: string, v: string)
    requires !HasSlash(u)
    ensures !Under(u, v)
  {
    if HasSlash(v) { ParentFacts(v); }
    assert Dir(v)[|Dir(v)| - 1] == '/';
  }

  lemma ComparatorIsOrder(line1: string, line2: string)
    requires line1 != "" && line2 != ""
    ensures StrcollExtractUtils(line1, line2) == Order(Strip(line1), Strip(line2))
  {
    var u, v := Strip(line1), Strip(line2);
    if !HasSlash(u) && !HasSlash(v) {
      SlashlessNotUnder(u, v);
      SlashlessNotUnder(v, u);
    }
  }

  lemma OrderIsAntisymmetric(u: string, v: string)
    ensures Order(v, u) == -Order(u, v)
    ensures -1 <= Order(u, v) <= 1
    ensures Order(u, v) == 0 <==> u == v
  {
    CollateIsOrder(u, v, "");
    Compared(u, v);
  }

  /** Main result, for every pair of lines: swapping the arguments flips the sign, and two lines tie
      exactly when they are equal up to the leading dash and neither or both are empty. */
  lemma ComparatorIsAntisymmetric(line1: string, line2: string)
    ensures StrcollExtractUtils(line2, line1) == -StrcollExtractUtils(line1, line2)
    ensures StrcollExtractUtils(line1, line2) == 0 <==>
            Strip(line1) == Strip(line2) && (line1 == "" <==> line2 == "")
  {
    if line1 == "" || line2 == "" {
      CollateIsOrder(line1, line2, "");
      ZeroMeansEqual(line1, line2);
    } else {
      ComparatorIsOrder(line1, line2);
      ComparatorIsOrder(line2, line1);
      OrderIsAntisymmetric(Strip(line1), Strip(line2));
    }
  }

  // ---------- Which line comes first ----------

  /** A proper prefix comes first; otherwise the string with the lower code at the first difference. */
  ghost predicate Precedes(u: string, v: string) {
    u < v || exists i: nat :: DivergeAt(u, v, i) && u[i] < v[i]
  }

  lemma CollateIsPrecedes(u: string, v: string)
    ensures Collate(u, v) == -1 <==> Precedes(u, v)
  {
    Compared(u, v);
    if Precedes(u, v) && !(u < v) {
      var i: nat :| DivergeAt(u, v, i) && u[i] < v[i];
      DivergenceDecides(u, v, i);
    }
  }

  /** An empty line comes before any other; then a line in a proper subdirectory of the other's directory; then
      the dashes aside, the string that precedes the other. */
  ghost predicate Before(line1: string, line2: string) {
    if line1 == "" || line2 == "" then line1 == "" && line2 != ""
    else
      var u, v := Strip(line1), Strip(line2);
      Under(u, v) || (!Under(v, u) && Precedes(u, v))
  }

  /** Main result, for every pair of lines: the comparator says which line comes first. */
  lemma ComparatorSaysBefore(line1: string, line2: string)
    ensures StrcollExtractUtils(line1, line2) == -1 <==> Before(line1, line2)
    ensures StrcollExtractUtils(line1, line2) == 1 <==> Before(line2, line1)
    ensures -1 <= StrcollExtractUtils(line1, line2) <= 1
  {
    hide Under, Strip, Precedes, Dir;
    if line1 != "" && line2 != "" {
      var u, v := Strip(line1), Strip(line2);
      hide StrcollExtractUtils;
      ComparatorIsOrder(line1, line2);
      OrderIsAntisymmetric(u, v);
      CollateIsPrecedes(u, v);
      CollateIsPrecedes(v, u);
      CollateIsOrder(u, v, "");
    }
  }

  /** Within a directory, and between directories that diverge, the lower code comes first. */
  lemma LowerCodeComesFirst(line1: string, line2: string, i: nat)
    requires line1 != "" && line2 != "" && DivergeAt(Strip(line1), Strip(line2), i)
    requires var d, e := Dir(Strip(line1)), Dir(Strip(line2));
             d == e || DivergeAt(d, e, i)
    requires Strip(line1)[i] < Strip(line2)[i]
    ensures StrcollExtractUtils(line1, line2) == -1
  {
    ComparatorSaysBefore(line1, line2);
    assert Precedes(Strip(line1), Strip(line2));
  }

  /** One leading dash does not matter, and nothing else is ignored. */
  lemma OneDashIsIgnored(line: string, other: string)
    requires line != "" && other != "" && line[0] != '-' && other[0] != '-'
    ensures StrcollExtractUtils("-" + line, other) == StrcollExtractUtils(line, other)
    ensures StrcollExtractUtils(other, "-" + line) == StrcollExtractUtils(other, line)
    ensures StrcollExtractUtils(line, other) == 0 <==> line == other
    ensures StrcollExtractUtils("--" + line, "-" + line) != 0
  {
    assert Strip("-" + line) == line && Strip(line) == line && Strip(other) == other;
    assert Strip("--" + line) == "-" + line;
    ComparatorIsOrder("-" + line, other);
    ComparatorIsOrder(line, other);
    ComparatorIsOrder(other, "-" + line);
    ComparatorIsOrder(other, line);
    ComparatorIsAntisymmetric(line, other);
    ComparatorIsAntisymmetric("--" + line, "-" + line);
    assert |"-" + line| != |line|;
  }

  // ---------- The key order ----------

  /** Compare the directories with the end marker, then the whole strings. */
  function KeyOrder(u: string, v: string): int {
    var c := CollateMarked(Dir(u), Dir(v));
    if c != 0 then c else Collate(u, v)
  }

  /** x continues the slashless s with a character that sorts before the slash. */
  predicate Squeezes(s: string, x: string) {
    !HasSlash(s) && s < x && x[|s|] < '/'
  }

  lemma DirCharacters(u: string, i: nat)
    requires i < |Dir(u)|
    ensures if i < |u| then Dir(u)[i] == u[i] else i == |u| && !HasSlash(u) && Dir(u)[i] == '/'
    ensures i <= |u| && Dir(u)[..i] == u[..i]
  {
    if HasSlash(u) { ParentFacts(u); }
  }

  /** At the first difference of two directories the strings differ the same way, unless one is a
      slashless name that the other continues. */
  lemma DivergentDirs(u: string, v: string, i: nat)
    requires DivergeAt(Dir(u), Dir(v), i) && !Squeezes(u, v) && !Squeezes(v, u)
    ensures Collate(u, v) == Sign(Dir(u)[i], Dir(v)[i])
  {
    DirCharacters(u, i);
    DirCharacters(v, i);
    if i < |u| && i < |v| {
      DivergenceDecides(u, v, i);
    } else if i == |u| {
      assert u == u[..i] == v[..i] && u < v;
      assert v[i] > '/';
      Compared(u, v);
    } else {
      assert v == v[..i] == u[..i] && v < u;
      assert u[i] > '/';
      Compared(u, v);
    }
  }

  lemma OrderIsKeyOrder(u: string, v: string)
    requires !Squeezes(u, v) && !Squeezes(v, u)
    ensures Order(u, v) == KeyOrder(u, v)
  {
    var d, e := Dir(u), Dir(v);
    Compared(d, e);
    if !(d <= e) && !(e <= d) {
      var i: nat :| DivergeAt(d, e, i) && CollateMarked(d, e) == Sign(d[i], e[i]);
      DivergentDirs(u, v, i);
    }
  }

  lemma KeyOrderIsTotal(u: string, v: string, w: string)
    ensures KeyOrder(u, v) <= 0 && KeyOrder(v, w) <= 0 ==> KeyOrder(u, w) <= 0
    ensures KeyOrder(v, u) == -KeyOrder(u, v)
    ensures KeyOrder(u, v) == 0 <==> u == v
  {
    CollateIsOrder(Dir(u), Dir(v), Dir(w));
    CollateIsOrder(Dir(v), Dir(w), Dir(u));
    CollateIsOrder(u, v, w);
    ZeroMeansEqual(Dir(u), Dir(v));
    ZeroMeansEqual(Dir(v), Dir(w));
    ZeroMeansEqual(Dir(u), Dir(w));
    ZeroMeansEqual(u, v);
  }

  /** Main result: on lines that name a directory the comparator is the key order, which is total. */
  lemma PathsAreKeyOrdered(line1: string, line2: string)
    requires HasSlash(Strip(line1)) && HasSlash(Strip(line2))
    ensures StrcollExtractUtils(line1, line2) == KeyOrder(Strip(line1), Strip(line2))
  {
    ComparatorIsOrder(line1, line2);
    OrderIsKeyOrder(Strip(line1), Strip(line2));
  }

  // ---------- Exactly when the comparator is transitive ----------

  /** s is a slashless name, t lies strictly below the directory s names, and x continues s with a
      character that sorts before the slash. */
  predicate Triangle(s: string, t: string, x: string) {
    s != "" && t != "" && Under(Strip(t), Strip(s)) && Squeezes(Strip(s), Strip(x))
  }

  lemma SqueezedComesLater(s: string, x: string)
    requires Squeezes(s, x)
    ensures Order(s, x) == -1
    ensures |Dir(x)| > |s| && Dir(x)[..|s|] == s && Dir(x)[|s|] == x[|s|]
    ensures forall i :: 0 <= i <= |s| ==> Dir(x)[i] != '/'
  {
    if HasSlash(x) {
      ParentFacts(x);
      assert forall i :: 0 <= i <= |s| ==> x[i] != '/';
      var n := |Parent(x)|;
      assert x[n - 1] == '/';
    }
    Compared(s, x);
    SlashlessNotUnder(s, x);
    assert !Under(x, s) by {
      assert Dir(s)[|s|] == '/';
    }
  }

  /** The three lines of a triangle are ordered in a circle. */
  lemma TriangleIsCycle(s: string, t: string, x: string)
    requires Triangle(s, t, x)
    ensures StrcollExtractUtils(s, x) == -1
    ensures StrcollExtractUtils(x, t) == -1
    ensures StrcollExtractUtils(t, s) == -1
  {
    var a, b, c := Strip(s), Strip(t), Strip(x);
    assert x != "";
    ComparatorIsOrder(s, x);
    ComparatorIsOrder(x, t);
    ComparatorIsOrder(t, s);
    SqueezedComesLater(a, c);
    DirCharacters(b, |a|);
    assert Dir(b)[|a|] == Dir(a)[|a|] == '/';
    assert Dir(b)[..|a|] == Dir(a)[..|a|] == a;
    assert DivergeAt(Dir(c), Dir(b), |a|);
    Compared(Dir(c), Dir(b));
    assert b != a && |b| > |a|;
    assert DivergeAt(c, b, |a|);
    DivergenceDecides(c, b, |a|);
  }

  /** With x squeezed after the name s, whatever sorts from x round to s lies below s. */
  lemma OnlySubdirectoriesCloseCycle(s: string, x: string, y: string)
    requires Squeezes(s, x) && Order(x, y) <= 0 && Order(y, s) <= 0
    ensures Under(y, s)
  {
    SqueezedComesLater(s, x);
    SlashlessNotUnder(s, y);
    Compared(s, x);
    if !Under(y, s) {
      assert Collate(y, s) <= 0;
      if Under(x, y) {
        var d := Dir(y);
        if HasSlash(y) { ParentFacts(y); }
        assert d[|d| - 1] == '/' && Dir(x)[|d| - 1] == '/';
        assert |d| > |s| + 1;
        assert d[..|s|] == s;
        assert y[..|s|] == d[..|s|];
        assert s < y;
        Compared(s, y);
        CollateIsOrder(s, y, "");
      } else {
        assert Collate(x, y) <= 0;
        CollateIsOrder(x, y, s);
        CollateIsOrder(s, x, "");
      }
    }
  }

  ghost predicate TransitiveOn(lines: seq<string>) {
    forall a, b, c :: a in lines && b in lines && c in lines
                      && StrcollExtractUtils(a, b) <= 0 && StrcollExtractUtils(b, c) <= 0
                      ==> StrcollExtractUtils(a, c) <= 0
  }

  ghost predicate HasTriangle(lines: seq<string>) {
    exists s, t, x :: s in lines && t in lines && x in lines && Triangle(s, t, x)
  }

  /** An edge that squeezes points forward in a cycle, and its triangle is in the cycle. */
  lemma CycleHasTriangle(a: string, b: string, c: string)
    requires a != "" && b != "" && c != ""
    requires Order(Strip(a), Strip(b)) <= 0 && Order(Strip(b), Strip(c)) <= 0 && Order(Strip(c), Strip(a)) < 0
    ensures Triangle(a, c, b) || Triangle(b, a, c) || Triangle(c, b, a)
  {
    var u, v, w := Strip(a), Strip(b), Strip(c);
    OrderIsAntisymmetric(u, v);
    OrderIsAntisymmetric(v, w);
    OrderIsAntisymmetric(w, u);
    if Squeezes(u, v) {
      OnlySubdirectoriesCloseCycle(u, v, w);
    } else if Squeezes(v, w) {
      OnlySubdirectoriesCloseCycle(v, w, u);
    } else if Squeezes(w, u) {
      OnlySubdirectoriesCloseCycle(w, u, v);
    } else {
      if Squeezes(v, u) { SqueezedComesLater(v, u); }
      if Squeezes(w, v) { SqueezedComesLater(w, v); }
      if Squeezes(u, w) { SqueezedComesLater(u, w); }
      OrderIsKeyOrder(u, v);
      OrderIsKeyOrder(v, w);
      OrderIsKeyOrder(w, u);
      KeyOrderIsTotal(u, v, w);
      KeyOrderIsTotal(w, u, v);
    }
  }

  lemma EmptyLineIsLeast(a: string, b: string)
    ensures a == "" ==> StrcollExtractUtils(a, b) <= 0
    ensures a != "" && b == "" ==> StrcollExtractUtils(a, b) > 0
  {
  }

  /** Main result: the comparator is transitive on a list exactly when the list has no triangle. */
  lemma TransitiveIffNoTriangle(lines: seq<string>)
    ensures TransitiveOn(lines) <==> !HasTriangle(lines)
  {
    if HasTriangle(lines) {
      var s, t, x :| s in lines && t in lines && x in lines && Triangle(s, t, x);
      TriangleIsCycle(s, t, x);
      ComparatorIsAntisymmetric(s, t);
      assert !TransitiveOn(lines);
    } else {
      forall a, b, c | a in lines && b in lines && c in lines
                       && StrcollExtractUtils(a, b) <= 0 && StrcollExtractUtils(b, c) <= 0
        ensures StrcollExtractUtils(a, c) <= 0
      {
        NoTriangleNoCycle(lines, a, b, c);
      }
    }
  }

  lemma NoTriangleNoCycle(lines: seq<string>, a: string, b: string, c: string)
    requires !HasTriangle(lines) && a in lines && b in lines && c in lines
    requires StrcollExtractUtils(a, b) <= 0 && StrcollExtractUtils(b, c) <= 0
    ensures StrcollExtractUtils(a, c) <= 0
  {
    if a == "" || b == "" {
      EmptyLineIsLeast(a, b);
      EmptyLineIsLeast(a, c);
    } else if c == "" {
      EmptyLineIsLeast(b, c);
    } else {
      ComparatorIsOrder(a, b);
      ComparatorIsOrder(b, c);
      ComparatorIsOrder(a, c);
      OrderIsAntisymmetric(Strip(a), Strip(c));
      if Order(Strip(c), Strip(a)) < 0 {
        CycleHasTriangle(a, b, c);
      }
    }
  }

  predicate Pathlike(line: string) { line == "" || HasSlash(Strip(line)) }

  predicate Heading(line: string) { Strip(line) != "" && Strip(line)[0] == '#' }

  /** Every line is empty, names a directory or is a heading, and either all headings have a slash in their
      text or none has. */
  ghost predicate SectionOfPaths(lines: seq<string>) {
    && (forall l :: l in lines ==> Pathlike(l) || Heading(l))
    && (forall g, h :: g in lines && h in lines && Heading(g) && Heading(h) && Pathlike(g) ==> Pathlike(h))
  }

  /** The comparator is an order on every such section. */
  lemma SectionsHaveNoTriangle(lines: seq<string>)
    requires SectionOfPaths(lines)
    ensures TransitiveOn(lines) && !HasTriangle(lines)
  {
    hide SectionOfPaths, Triangle, TransitiveOn;
    TransitiveIffNoTriangle(lines);
    forall s, t, x | s in lines && t in lines && x in lines
      ensures !Triangle(s, t, x)
    {
      NoTriangleInSection(lines, s, t, x);
    }
  }

  lemma NoTriangleInSection(lines: seq<string>, s: string, t: string, x: string)
    requires SectionOfPaths(lines) && s in lines && t in lines
    ensures !Triangle(s, t, x)
  {
    hide HasSlash, Dir, Strip;
    if Under(Strip(t), Strip(s)) && !HasSlash(Strip(s)) { HeadingAbove(s, t); }
  }

  lemma HeadingAbove(s: string, t: string)
    requires Under(Strip(t), Strip(s)) && !HasSlash(Strip(s))
    ensures HasSlash(Strip(t)) && (Heading(s) ==> Heading(t))
  {
    var u, v := Strip(s), Strip(t);
    if !HasSlash(v) { SlashlessNotUnder(v, u); }
    if u != "" {
      assert Dir(v)[0] == Dir(u)[0];
      DirCharacters(u, 0);
      DirCharacters(v, 0);
    }
  }

  lemma DirIsNotEmpty(u: string)
    ensures Dir(u) != ""
  {
    if HasSlash(u) { ParentFacts(u); }
  }

  /** A heading comes before a line that is none exactly when that begins above the hash sign. */
  lemma HeadingBeforeIff(h: string, line: string)
    requires Heading(h) && !Heading(line) && Strip(line) != ""
    ensures StrcollExtractUtils(h, line) == -1 <==> Strip(line)[0] > '#'
    ensures StrcollExtractUtils(h, line) == 1 <==> Strip(line)[0] < '#'
  {
    var u, v := Strip(h), Strip(line);
    ComparatorIsOrder(h, line);
    DirIsNotEmpty(u);
    DirIsNotEmpty(v);
    DirCharacters(u, 0);
    DirCharacters(v, 0);
    assert Dir(u)[0] != Dir(v)[0];
    assert DivergeAt(u, v, 0);
    DivergenceDecides(u, v, 0);
  }

  /** The smallest list that is ordered in a circle. */
  lemma MixedNamesCycle()
    ensures StrcollExtractUtils("foo", "foo-x") == -1
    ensures StrcollExtractUtils("foo-x", "foo/sub/z") == -1
    ensures StrcollExtractUtils("foo/sub/z", "foo") == -1
    ensures !TransitiveOn(["foo", "foo-x", "foo/sub/z"])
  {
    var s, t, x := "foo", "foo/sub/z", "foo-x";
    assert HasSlash(t) by { assert t[3] == '/'; }
    var d := Dir(t);
    ParentFacts(t);
    assert t[7] == '/';
    assert d == "foo/sub/" by { assert d == t[..|d|]; }
    assert Triangle(s, t, x);
    TriangleIsCycle(s, t, x);
    TransitiveIffNoTriangle([s, x, t]);
  }
}
