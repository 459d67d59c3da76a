/** In-place replacement of library names in a binary: every occurrence of a NUL-terminated name is
    overwritten by another name of the same length. */
module PatchElf {
  import opened Basics

  const NUL: byte := 0

  predicate NulFree(name: seq<byte>) { NUL !in name }

  function Terminated(name: seq<byte>): seq<byte> { name + [NUL] }

  predicate OccursAt(data: seq<byte>, pattern: seq<byte>, i: int) {
    0 <= i && i + |pattern| <= |data| && data[i..i + |pattern|] == pattern
  }

  /** The part of position k that some occurrence covers, and the occurrence. */
  predicate Covers(data: seq<byte>, pattern: seq<byte>, i: int, k: int) {
    OccursAt(data, pattern, i) && i <= k < i + |pattern|
  }

  /** Occurrences among the starts below n. */
  function CountBelow(data: seq<byte>, pattern: seq<byte>, n: nat): nat {
    if n == 0 then 0 else CountBelow(data, pattern, n - 1) + if OccursAt(data, pattern, n - 1) then 1 else 0
  }

  function Count(data: seq<byte>, pattern: seq<byte>): nat { CountBelow(data, pattern, |data|) }

  /** Two buffers related by replacing every occurrence of a in the first by b, all at once. */
  ghost predicate Substituted(data: seq<byte>, out: seq<byte>, a: seq<byte>, b: seq<byte>)
    requires |a| == |b|
  {
    && |out| == |data|
    && (forall i :: OccursAt(data, a, i) ==> OccursAt(out, b, i))
    && (forall k :: 0 <= k < |data| && (forall i :: !Covers(data, a, i, k)) ==> out[k] == data[k])
  }

  // ---------- Occurrences of NUL-terminated names do not overlap ----------

  lemma TerminatorIsLast(data: seq<byte>, name: seq<byte>, i: int, k: int)
    requires NulFree(name) && Covers(data, Terminated(name), i, k)
    ensures data[k] == NUL <==> k == i + |name|
  {
    assert data[k] == data[i..i + |name| + 1][k - i] == Terminated(name)[k - i];
  }

  /** Names of one length, the same or different, occur at the same place or apart. */
  lemma OccurrencesAreApart(data: seq<byte>, a: seq<byte>, b: seq<byte>, i: int, j: int)
    requires NulFree(a) && NulFree(b) && |a| == |b|
    requires OccursAt(data, Terminated(a), i) && OccursAt(data, Terminated(b), j)
    ensures i == j || i + |a| < j || j + |a| < i
  {
    if i < j <= i + |a| {
      TerminatorIsLast(data, a, i, i + |a|);
      TerminatorIsLast(data, b, j, i + |a|);
    }
    if j < i <= j + |a| {
      TerminatorIsLast(data, b, j, j + |a|);
      TerminatorIsLast(data, a, i, j + |a|);
    }
  }

  lemma OccurrenceGivesBytes(data: seq<byte>, pattern: seq<byte>, i: int, k: int)
    requires Covers(data, pattern, i, k)
    ensures 0 <= k < |data| && data[k] == pattern[k - i]
  {
    assert data[k] == data[i..i + |pattern|][k - i];
  }

  /** The result of the substitution is determined. */
  lemma SubstitutionIsUnique(data: seq<byte>, out1: seq<byte>, out2: seq<byte>, a: seq<byte>, b: seq<byte>)
    requires |a| == |b| && Substituted(data, out1, a, b) && Substituted(data, out2, a, b)
    ensures out1 == out2
  {
    forall k | 0 <= k < |data|
      ensures out1[k] == out2[k]
    {
      if i :| Covers(data, a, i, k) {
        OccurrenceGivesBytes(out1, b, i, k);
        OccurrenceGivesBytes(out2, b, i, k);
      }
    }
  }

  /** Where no occurrence of the old name comes near, nothing changes. */
  lemma UntouchedWindow(data: seq<byte>, out: seq<byte>, a: seq<byte>, b: seq<byte>, j: int)
    requires |a| == |b| && Substituted(data, out, Terminated(a), Terminated(b))
    requires 0 <= j && j + |a| + 1 <= |data|
    requires forall i :: OccursAt(data, Terminated(a), i) ==> i + |a| < j || j + |a| < i
    ensures out[j..j + |a| + 1] == data[j..j + |a| + 1]
  {
    forall k | j <= k < j + |a| + 1
      ensures out[k] == data[k]
    {
      assert forall i :: !Covers(data, Terminated(a), i, k);
    }
  }

  /** A name in the result was there before, or replaces the old one. */
  lemma OccurrenceFromBefore(data: seq<byte>, out: seq<byte>, a: seq<byte>, b: seq<byte>, c: seq<byte>, j: int)
    requires NulFree(a) && NulFree(b) && NulFree(c) && |a| == |b| == |c|
    requires Substituted(data, out, Terminated(a), Terminated(b))
    requires OccursAt(out, Terminated(c), j)
    ensures OccursAt(data, Terminated(a), j) || OccursAt(data, Terminated(c), j)
  {
    if !OccursAt(data, Terminated(a), j) {
      forall i | OccursAt(data, Terminated(a), i)
        ensures i + |a| < j || j + |a| < i
      {
        OccurrencesAreApart(out, b, c, i, j);
      }
      UntouchedWindow(data, out, a, b, j);
    }
  }

  lemma DifferentNamesDiffer(data: seq<byte>, a: seq<byte>, b: seq<byte>, j: int)
    requires |a| == |b| && OccursAt(data, Terminated(a), j) && OccursAt(data, Terminated(b), j)
    ensures a == b
  {
    assert Terminated(a)[..|a|] == a && Terminated(b)[..|b|] == b;
  }

  /** In the result the old name occurs nowhere, not even across the seam of a replaced one, and the new
      name occurs exactly where either name did. */
  lemma OccurrencesAfter(data: seq<byte>, out: seq<byte>, a: seq<byte>, b: seq<byte>, j: int)
    requires NulFree(a) && NulFree(b) && |a| == |b| && a != b
    requires Substituted(data, out, Terminated(a), Terminated(b))
    ensures !OccursAt(out, Terminated(a), j)
    ensures OccursAt(out, Terminated(b), j) <==> OccursAt(data, Terminated(a), j) || OccursAt(data, Terminated(b), j)
  {
    if OccursAt(out, Terminated(a), j) {
      OccurrenceFromBefore(data, out, a, b, a, j);
      DifferentNamesDiffer(out, a, b, j);
    }
    if OccursAt(out, Terminated(b), j) {
      OccurrenceFromBefore(data, out, a, b, b, j);
    }
    if OccursAt(data, Terminated(b), j) {
      forall i | OccursAt(data, Terminated(a), i)
        ensures i + |a| < j || j + |a| < i
      {
        OccurrencesAreApart(data, a, b, i, j);
        if i == j { DifferentNamesDiffer(data, a, b, j); }
      }
      UntouchedWindow(data, out, a, b, j);
    }
  }

  // ---------- Patching back ----------

  ghost predicate Absent(data: seq<byte>, name: seq<byte>) { forall i :: !OccursAt(data, Terminated(name), i) }

  /** Patching back substitutes exactly the places that were patched, if the new name was not there before. */
  lemma PatchingBack(data: seq<byte>, out: seq<byte>, back: seq<byte>, a: seq<byte>, b: seq<byte>)
    requires NulFree(a) && NulFree(b) && |a| == |b| && a != b
    requires Substituted(data, out, Terminated(a), Terminated(b))
    requires Substituted(out, back, Terminated(b), Terminated(a))
    requires Absent(data, b)
    ensures back == data
  {
    forall k | 0 <= k < |data|
      ensures back[k] == data[k]
    {
      if i :| Covers(data, Terminated(a), i, k) {
        OccurrenceGivesBytes(back, Terminated(a), i, k);
        OccurrenceGivesBytes(data, Terminated(a), i, k);
      } else {
        forall i
          ensures !Covers(out, Terminated(b), i, k)
        {
          OccurrencesAfter(data, out, a, b, i);
          assert !OccursAt(data, Terminated(b), i);
          assert Covers(out, Terminated(b), i, k) ==> Covers(data, Terminated(a), i, k);
        }
      }
    }
  }

  /** Main result: patching old to new and back restores the buffer exactly when the names are equal or the
      new name did not occur in it. */
  lemma PatchUndoesItself(data: seq<byte>, out: seq<byte>, back: seq<byte>, a: seq<byte>, b: seq<byte>)
    requires NulFree(a) && NulFree(b) && |a| == |b|
    requires Substituted(data, out, Terminated(a), Terminated(b))
    requires Substituted(out, back, Terminated(b), Terminated(a))
    ensures back == data <==> a == b || Absent(data, b)
  {
    if a == b {
      IdentitySubstitution(data, Terminated(a));
      SubstitutionIsUnique(data, out, data, Terminated(a), Terminated(a));
      SubstitutionIsUnique(data, back, data, Terminated(a), Terminated(a));
    } else if Absent(data, b) {
      PatchingBack(data, out, back, a, b);
    } else {
      var j :| OccursAt(data, Terminated(b), j);
      OccurrencesAfter(data, out, a, b, j);
      assert OccursAt(back, Terminated(a), j);
      if back == data { DifferentNamesDiffer(data, a, b, j); }
    }
  }

  /** A new name that was there before is turned into the old one on the way back. */
  lemma PresentNameIsLost()
    ensures var data, a, b := [98, 0], [97], [98];
            && Substituted(data, data, Terminated(a), Terminated(b))
            && Substituted(data, [97, 0], Terminated(b), Terminated(a))
  {
    var data: seq<byte>, a: seq<byte>, b: seq<byte> := [98, 0], [97], [98];
    assert OccursAt(data, Terminated(b), 0) by { assert data[0..2] == Terminated(b); }
    forall i
      ensures !OccursAt(data, Terminated(a), i)
      ensures OccursAt(data, Terminated(b), i) ==> i == 0
    {
      if OccursAt(data, Terminated(a), i) { DifferentNamesDiffer(data, a, b, 0); }
    }
    var back: seq<byte> := [97, 0];
    assert back[0..2] == Terminated(a);
    assert Covers(data, Terminated(b), 0, 0) && Covers(data, Terminated(b), 0, 1);
  }

  lemma IdentitySubstitution(data: seq<byte>, pattern: seq<byte>)
    ensures Substituted(data, data, pattern, pattern)
  {
  }

  lemma {:induction false} SameCount(x: seq<byte>, p: seq<byte>, y: seq<byte>, q: seq<byte>, n: nat)
    requires forall i :: OccursAt(x, p, i) <==> OccursAt(y, q, i)
    ensures CountBelow(x, p, n) == CountBelow(y, q, n)
  {
    if n > 0 { SameCount(x, p, y, q, n - 1); }
  }

  function Places(data: seq<byte>, pattern: seq<byte>, n: nat): set<int> {
    set i | 0 <= i < n && OccursAt(data, pattern, i)
  }

  lemma PlacesNext(data: seq<byte>, pattern: seq<byte>, n: nat)
    ensures n == 0 ==> Places(data, pattern, n) == {}
    ensures n > 0 ==> n - 1 !in Places(data, pattern, n - 1)
    ensures n > 0 ==> Places(data, pattern, n) ==
                      Places(data, pattern, n - 1) + if OccursAt(data, pattern, n - 1) then {n - 1} else {}
  {
    hide OccursAt;
  }

  /** The count is the number of places where the name occurs. */
  lemma {:induction false} CountIsNumberOfPlaces(data: seq<byte>, pattern: seq<byte>, n: nat)
    ensures CountBelow(data, pattern, n) == |Places(data, pattern, n)|
  {
    hide OccursAt, Places;
    PlacesNext(data, pattern, n);
    if n > 0 { CountIsNumberOfPlaces(data, pattern, n - 1); }
  }

  /** Both directions then count the same. */
  lemma CountsAgree(data: seq<byte>, out: seq<byte>, a: seq<byte>, b: seq<byte>)
    requires NulFree(a) && NulFree(b) && |a| == |b| && a != b && Absent(data, b)
    requires Substituted(data, out, Terminated(a), Terminated(b))
    ensures Count(out, Terminated(b)) == Count(data, Terminated(a))
  {
    forall i
      ensures OccursAt(out, Terminated(b), i) <==> OccursAt(data, Terminated(a), i)
    {
      OccurrencesAfter(data, out, a, b, i);
    }
    SameCount(out, Terminated(b), data, Terminated(a), |data|);
  }

  // ---------- The loop ----------

  datatype Outcome = LengthMismatch | NotFound | Patched(count: nat)

  /** bytearray.find: the first occurrence at or after a position, or -1. */
  method Find(data: array<byte>, pattern: seq<byte>, from: nat) returns (idx: int)
    requires pattern != []
    ensures idx == -1 ==> forall i :: from <= i ==> !OccursAt(data[..], pattern, i)
    ensures idx != -1 ==> from <= idx && OccursAt(data[..], pattern, idx)
                          && forall i :: from <= i < idx ==> !OccursAt(data[..], pattern, i)
  {
    idx := from;
    while idx + |pattern| <= data.Length
      invariant from <= idx
      invariant forall i :: from <= i < idx ==> !OccursAt(data[..], pattern, i)
    {
      assert data[..][idx..idx + |pattern|] == data[idx..idx + |pattern|];
      if data[idx..idx + |pattern|] == pattern { return; }
      idx := idx + 1;
    }
    idx := -1;
  }

  /** data[idx:idx+len(bytes)] = bytes */
  method Overwrite(data: array<byte>, idx: nat, bytes: seq<byte>)
    requires idx + |bytes| <= data.Length
    modifies data
    ensures data[..] == old(data[..])[..idx] + bytes + old(data[..])[idx + |bytes|..]
  {
    var k := 0;
    while k < |bytes|
      invariant k <= |bytes|
      invariant data[..] == old(data[..])[..idx] + bytes[..k] + old(data[..])[idx + k..]
    {
      data[idx + k] := bytes[k];
      k := k + 1;
    }
  }

  /** Bytes below idx are substituted, bytes from idx on are as they were, and no occurrence straddles idx. */
  ghost predicate Progress(was: seq<byte>, now: seq<byte>, p: seq<byte>, q: seq<byte>, idx: nat, count: nat)
    requires |p| == |q|
  {
    && |now| == |was| && idx <= |was|
    && (forall i :: OccursAt(was, p, i) ==> i + |p| <= idx || idx <= i)
    && (forall i :: OccursAt(was, p, i) && i < idx ==> OccursAt(now, q, i))
    && (forall k :: 0 <= k < |was| && (k >= idx || forall i :: !Covers(was, p, i, k)) ==> now[k] == was[k])
    && count == CountBelow(was, p, idx)
  }

  lemma {:induction false} NoneBetween(data: seq<byte>, p: seq<byte>, n: nat, m: nat)
    requires n <= m && forall i :: n <= i < m ==> !OccursAt(data, p, i)
    ensures CountBelow(data, p, m) == CountBelow(data, p, n)
  {
    if n < m { NoneBetween(data, p, n, m - 1); }
  }

  lemma SameBeyond(was: seq<byte>, now: seq<byte>, p: seq<byte>, q: seq<byte>, idx: nat, count: nat, i: int)
    requires |p| == |q| && Progress(was, now, p, q, idx, count) && idx <= i
    ensures OccursAt(now, p, i) <==> OccursAt(was, p, i)
  {
    if i + |p| <= |was| { assert now[i..i + |p|] == was[i..i + |p|]; }
  }

  /** Where the other occurrences of the old name can be, given the next one. */
  lemma NextOccurrence(was: seq<byte>, now: seq<byte>, a: seq<byte>, b: seq<byte>, idx: nat, count: nat, f: nat, i: int)
    requires NulFree(a) && |a| == |b|
    requires Progress(was, now, Terminated(a), Terminated(b), idx, count)
    requires idx <= f && OccursAt(now, Terminated(a), f)
    requires forall i :: idx <= i < f ==> !OccursAt(now, Terminated(a), i)
    ensures OccursAt(was, Terminated(a), f)
    ensures OccursAt(was, Terminated(a), i) ==> i + |a| < idx || i == f || f + |a| < i
  {
    SameBeyond(was, now, Terminated(a), Terminated(b), idx, count, f);
    if OccursAt(was, Terminated(a), i) {
      OccurrencesAreApart(was, a, a, i, f);
      if idx <= i {
        SameBeyond(was, now, Terminated(a), Terminated(b), idx, count, i);
      }
    }
  }

  lemma WindowKept(now: seq<byte>, next: seq<byte>, a: seq<byte>, b: seq<byte>, f: nat, i: int)
    requires |a| == |b| && f + |a| + 1 <= |now|
    requires next == now[..f] + Terminated(b) + now[f + |a| + 1..]
    ensures OccursAt(next, Terminated(b), f)
    ensures i + |a| < f && OccursAt(now, Terminated(b), i) ==> OccursAt(next, Terminated(b), i)
  {
    assert next[f..f + |b| + 1] == Terminated(b);
    if 0 <= i && i + |a| < f {
      assert next[i..i + |b| + 1] == now[i..i + |b| + 1];
    }
  }

  /** The next occurrence, at f, is overwritten. */
  lemma ProgressStep(was: seq<byte>, now: seq<byte>, next: seq<byte>, a: seq<byte>, b: seq<byte>,
                     idx: nat, count: nat, f: nat)
    requires NulFree(a) && |a| == |b|
    requires Progress(was, now, Terminated(a), Terminated(b), idx, count)
    requires idx <= f && OccursAt(now, Terminated(a), f)
    requires forall i :: idx <= i < f ==> !OccursAt(now, Terminated(a), i)
    requires next == now[..f] + Terminated(b) + now[f + |a| + 1..]
    ensures Progress(was, next, Terminated(a), Terminated(b), f + |a| + 1, count + 1)
  {
    forall i | OccursAt(was, Terminated(a), i)
      ensures i <= f ==> OccursAt(next, Terminated(b), i)
      ensures i <= f || f + |a| < i
    {
      NextOccurrence(was, now, a, b, idx, count, f, i);
      WindowKept(now, next, a, b, f, i);
    }
    NextOccurrence(was, now, a, b, idx, count, f, f);
    forall k | 0 <= k < |was| && (k > f + |a| || forall i :: !Covers(was, Terminated(a), i, k))
      ensures next[k] == was[k]
    {
      assert !Covers(was, Terminated(a), f, k);
    }
    CountStep(was, now, a, b, idx, count, f);
  }

  lemma CountStep(was: seq<byte>, now: seq<byte>, a: seq<byte>, b: seq<byte>, idx: nat, count: nat, f: nat)
    requires NulFree(a) && |a| == |b|
    requires Progress(was, now, Terminated(a), Terminated(b), idx, count)
    requires idx <= f && OccursAt(now, Terminated(a), f)
    requires forall i :: idx <= i < f ==> !OccursAt(now, Terminated(a), i)
    ensures CountBelow(was, Terminated(a), f + |a| + 1) == count + 1
  {
    forall i
      ensures OccursAt(was, Terminated(a), i) ==> i < idx || i == f || f + |a| < i
      ensures OccursAt(was, Terminated(a), f)
    {
      NextOccurrence(was, now, a, b, idx, count, f, i);
    }
    NoneBetween(was, Terminated(a), idx, f);
    NoneBetween(was, Terminated(a), f + 1, f + |a| + 1);
  }

  lemma ProgressStarts(was: seq<byte>, p: seq<byte>, q: seq<byte>)
    requires |p| == |q|
    ensures Progress(was, was, p, q, 0, 0)
  {
  }

  lemma ProgressEnds(was: seq<byte>, now: seq<byte>, p: seq<byte>, q: seq<byte>, idx: nat, count: nat)
    requires |p| == |q| && Progress(was, now, p, q, idx, count)
    requires forall i :: idx <= i ==> !OccursAt(now, p, i)
    ensures Substituted(was, now, p, q) && count == Count(was, p)
  {
    forall i | idx <= i
      ensures !OccursAt(was, p, i)
    {
      SameBeyond(was, now, p, q, idx, count, i);
    }
    NoneBetween(was, p, idx, |was|);
  }

  /** One pass of the loop: the next occurrence is overwritten, or there is none and all is done. */
  method PatchNext(data: array<byte>, oldLib: seq<byte>, newLib: seq<byte>, idx: nat, count: nat, ghost was: seq<byte>)
    returns (next: int)
    requires NulFree(oldLib) && |oldLib| == |newLib|
    requires Progress(was, data[..], Terminated(oldLib), Terminated(newLib), idx, count)
    modifies data
    ensures next != -1 ==> idx < next <= data.Length
    ensures next != -1 ==> Progress(was, data[..], Terminated(oldLib), Terminated(newLib), next, count + 1)
    ensures next == -1 ==> Substituted(was, data[..], Terminated(oldLib), Terminated(newLib))
    ensures next == -1 ==> count == Count(was, Terminated(oldLib))
  {
    hide Progress, Substituted, CountBelow;
    var oldBytes, newBytes := Terminated(oldLib), Terminated(newLib);
    ghost var now := data[..];
    next := Find(data, oldBytes, idx);
    if next == -1 {
      ProgressEnds(was, data[..], oldBytes, newBytes, idx, count);
    } else {
      Overwrite(data, next, newBytes);
      ProgressStep(was, now, data[..], oldLib, newLib, idx, count, next);
      next := next + |oldBytes|;
    }
  }

  /** Finds and overwrites from left to right.  Every occurrence in the original buffer is replaced at once,
      as it were, and counted; everything else, and the length, stay as they were. */
  method PatchElf(data: array<byte>, oldLib: seq<byte>, newLib: seq<byte>) returns (outcome: Outcome)
    requires NulFree(oldLib) && NulFree(newLib)
    modifies data
    ensures outcome.LengthMismatch? <==> |oldLib| != |newLib|
    ensures outcome.LengthMismatch? ==> data[..] == old(data[..])
    ensures |oldLib| == |newLib| ==>
              && Substituted(old(data[..]), data[..], Terminated(oldLib), Terminated(newLib))
              && var n := Count(old(data[..]), Terminated(oldLib));
                 outcome == if n == 0 then NotFound else Patched(n)
  {
    if |oldLib| != |newLib| { return LengthMismatch; }
    hide Progress, Substituted, CountBelow;
    ghost var was := data[..];
    ProgressStarts(was, Terminated(oldLib), Terminated(newLib));
    var idx, count := 0, 0;
    while true
      invariant 0 <= idx <= data.Length
      invariant Progress(was, data[..], Terminated(oldLib), Terminated(newLib), idx, count)
      decreases data.Length - idx
    {
      var next := PatchNext(data, oldLib, newLib, idx, count, was);
      if next == -1 { break; }
      idx := next;
      count := count + 1;
    }
    outcome := if count == 0 then NotFound else Patched(count);
  }
}
