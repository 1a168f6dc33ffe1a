/** Java's String.replace(CharSequence, CharSequence): every non-overlapping
    occurrence of a non-empty target, found scanning left to right, is
    replaced by the replacement text. */
module TextReplace {

  predicate OccursAt(s: string, pat: string, i: int) {
    0 <= i && i + |pat| <= |s| && s[i..i + |pat|] == pat
  }

  predicate Occurs(s: string, pat: string) {
    exists i :: 0 <= i <= |s| && OccursAt(s, pat, i)
  }

  function ReplaceAll(s: string, pat: string, rep: string): string
    requires |pat| > 0
    decreases |s|
  {
    if |s| < |pat| then s
    else if s[..|pat|] == pat then rep + ReplaceAll(s[|pat|..], pat, rep)
    else [s[0]] + ReplaceAll(s[1..], pat, rep)
  }

  /** No character of a occurs in b. */
  predicate Disjoint(a: string, b: string) {
    forall i :: 0 <= i < |a| ==> a[i] !in b
  }

  /** Text without an occurrence of the target comes back unchanged. */
  lemma {:induction false} ReplaceWithoutOccurrence(s: string, pat: string, rep: string)
    requires |pat| > 0 && !Occurs(s, pat)
    ensures ReplaceAll(s, pat, rep) == s
    decreases |s|
  {
    if |s| >= |pat| {
      assert !OccursAt(s, pat, 0);
      forall i | OccursAt(s[1..], pat, i) ensures OccursAt(s, pat, i + 1) {
        assert s[1..][i..i + |pat|] == s[i + 1..i + 1 + |pat|];
      }
      ReplaceWithoutOccurrence(s[1..], pat, rep);
    }
  }

  /** Occurrences of q in a suffix of s are occurrences in s. */
  lemma OccursInSuffix(s: string, k: nat, q: string)
    requires k <= |s| && !Occurs(s, q)
    ensures !Occurs(s[k..], q)
  {
    forall i | OccursAt(s[k..], q, i) ensures OccursAt(s, q, i + k) {
      assert s[k..][i..i + |q|] == s[i + k..i + k + |q|];
    }
  }

  /** Occurrences of q in a prefix of s are occurrences in s. */
  lemma OccursInPrefix(k: string, s: string, q: string)
    requires !Occurs(k + s, q)
    ensures !Occurs(k, q)
  {
    forall i | 0 <= i <= |k| && i + |q| <= |k| ensures !OccursAt(k, q, i) {
      assert !OccursAt(k + s, q, i);
      assert (k + s)[i..i + |q|] == k[i..i + |q|];
    }
  }

  /** An occurrence of q in k + rep + r lies in k or in r when rep is
      non-empty and shares no character with q. */
  lemma OccurrenceAcrossReplacement(k: string, rep: string, r: string, q: string, i: int)
    requires |q| > 0 && rep != [] && Disjoint(rep, q)
    ensures OccursAt(k + rep + r, q, i) ==> OccursAt(k, q, i) || OccursAt(r, q, i - |k| - |rep|)
  {
    var t := k + rep + r;
    if 0 <= i && i + |q| <= |k| {
      assert t[i..i + |q|] == k[i..i + |q|];
    } else if 0 <= i < |k| + |rep| && i + |q| <= |t| {
      var j := if i < |k| then |k| else i;
      assert t[j] == rep[j - |k|];
      assert t[i..i + |q|][j - i] == t[j];
    } else if i >= |k| + |rep| && i + |q| <= |t| {
      assert t[i..i + |q|] == r[i - |k| - |rep|..i - |k| - |rep| + |q|];
    }
  }

  /** Text around a replacement that shares no character with q: q occurs in
      the whole only if it occurs on one side. */
  lemma AbsentAround(k: string, rep: string, r: string, q: string)
    requires |q| > 0 && rep != [] && Disjoint(rep, q)
    requires !Occurs(k, q) && !Occurs(r, q)
    ensures !Occurs(k + rep + r, q)
  {
    forall i | 0 <= i <= |k + rep + r| ensures !OccursAt(k + rep + r, q, i) {
      OccurrenceAcrossReplacement(k, rep, r, q, i);
    }
  }

  /** Replacing one target keeps another string q absent, provided the
      replacement is non-empty and shares no character with q. */
  lemma {:induction false} ReplaceKeepsAbsent(k: string, s: string, pat: string, rep: string, q: string)
    requires |pat| > 0 && |q| > 0 && rep != [] && Disjoint(rep, q)
    requires !Occurs(k + s, q)
    ensures !Occurs(k + ReplaceAll(s, pat, rep), q)
    decreases |s|
  {
    if |s| < |pat| {
    } else if s[..|pat|] == pat {
      var r := ReplaceAll(s[|pat|..], pat, rep);
      AbsentAfterMatch(k, s, pat, q);
      ReplaceKeepsAbsent([], s[|pat|..], pat, rep, q);
      assert [] + r == r;
      OccursInPrefix(k, s, q);
      AbsentAround(k, rep, r, q);
      MatchStep(k, s, pat, rep);
    } else {
      assert (k + [s[0]]) + s[1..] == k + s;
      ReplaceKeepsAbsent(k + [s[0]], s[1..], pat, rep, q);
      MismatchStep(k, s, pat, rep);
    }
  }

  /** What follows a match of the target is free of q when k + s is. */
  lemma AbsentAfterMatch(k: string, s: string, pat: string, q: string)
    requires |pat| <= |s| && !Occurs(k + s, q)
    ensures !Occurs([] + s[|pat|..], q)
  {
    OccursInSuffix(k + s, |k| + |pat|, q);
    assert (k + s)[|k| + |pat|..] == [] + s[|pat|..];
  }

  /** Where the target starts, ReplaceAll puts the replacement in its place. */
  lemma MatchStep(k: string, s: string, pat: string, rep: string)
    requires |pat| > 0 && |s| >= |pat| && s[..|pat|] == pat
    ensures k + ReplaceAll(s, pat, rep) == k + rep + ReplaceAll(s[|pat|..], pat, rep)
  {
    var x := ReplaceAll(s[|pat|..], pat, rep);
    assert ReplaceAll(s, pat, rep) == rep + x;
    assert k + (rep + x) == k + rep + x;
  }

  /** No occurrence of pat in k + s starts inside k. */
  predicate NoMatchStartsIn(k: string, s: string, pat: string) {
    forall i :: 0 <= i < |k| ==> !OccursAt(k + s, pat, i)
  }

  lemma NoMatchInPrefix(k: string, s: string, pat: string)
    requires |pat| > 0 && NoMatchStartsIn(k, s, pat)
    ensures !Occurs(k, pat)
  {
    forall i | 0 <= i <= |k| && i + |pat| <= |k| ensures !OccursAt(k, pat, i) {
      assert !OccursAt(k + s, pat, i);
      assert (k + s)[i..i + |pat|] == k[i..i + |pat|];
    }
  }

  /** The scan moves past a position where the target does not start. */
  lemma NoMatchExtends(k: string, s: string, pat: string)
    requires |pat| > 0 && |s| >= |pat| && s[..|pat|] != pat
    requires NoMatchStartsIn(k, s, pat)
    ensures NoMatchStartsIn(k + [s[0]], s[1..], pat)
  {
    assert (k + [s[0]]) + s[1..] == k + s;
    assert (k + s)[|k|..|k| + |pat|] == s[..|pat|];
  }

  /** Where the target does not start, ReplaceAll keeps the first character. */
  lemma MismatchStep(k: string, s: string, pat: string, rep: string)
    requires |pat| > 0 && |s| >= |pat| && s[..|pat|] != pat
    ensures k + ReplaceAll(s, pat, rep) == (k + [s[0]]) + ReplaceAll(s[1..], pat, rep)
  {
    var x := ReplaceAll(s[1..], pat, rep);
    assert ReplaceAll(s, pat, rep) == [s[0]] + x;
    assert k + ([s[0]] + x) == (k + [s[0]]) + x;
  }

  /** After replacement, the target itself no longer occurs, provided the
      replacement is non-empty and shares no character with the target. */
  lemma {:induction false} ReplaceRemovesTarget(k: string, s: string, pat: string, rep: string)
    requires |pat| > 0 && rep != [] && Disjoint(rep, pat)
    requires NoMatchStartsIn(k, s, pat)
    ensures !Occurs(k + ReplaceAll(s, pat, rep), pat)
    decreases |s|
  {
    if |s| < |pat| {
      forall i | |k| <= i ensures !OccursAt(k + s, pat, i) {
      }
    } else if s[..|pat|] == pat {
      var r := ReplaceAll(s[|pat|..], pat, rep);
      ReplaceRemovesTarget([], s[|pat|..], pat, rep);
      assert [] + r == r;
      NoMatchInPrefix(k, s, pat);
      AbsentAround(k, rep, r, pat);
      MatchStep(k, s, pat, rep);
    } else {
      NoMatchExtends(k, s, pat);
      ReplaceRemovesTarget(k + [s[0]], s[1..], pat, rep);
      MismatchStep(k, s, pat, rep);
    }
  }

  /** The target is gone from the result: replacing a second time changes nothing. */
  lemma ReplaceIdempotent(s: string, pat: string, rep: string)
    requires |pat| > 0 && rep != [] && Disjoint(rep, pat)
    ensures !Occurs(ReplaceAll(s, pat, rep), pat)
    ensures ReplaceAll(ReplaceAll(s, pat, rep), pat, rep) == ReplaceAll(s, pat, rep)
  {
    ReplaceRemovesTarget([], s, pat, rep);
    assert [] + s == s;
    assert [] + ReplaceAll(s, pat, rep) == ReplaceAll(s, pat, rep);
    ReplaceWithoutOccurrence(ReplaceAll(s, pat, rep), pat, rep);
  }

  /** Replacing one target never creates an occurrence of another string q
      when the replacement is non-empty and shares no character with q. */
  lemma ReplaceCreatesNoOccurrence(s: string, pat: string, rep: string, q: string)
    requires |pat| > 0 && |q| > 0 && rep != [] && Disjoint(rep, q)
    requires !Occurs(s, q)
    ensures !Occurs(ReplaceAll(s, pat, rep), q)
  {
    assert [] + s == s;
    ReplaceKeepsAbsent([], s, pat, rep, q);
    assert [] + ReplaceAll(s, pat, rep) == ReplaceAll(s, pat, rep);
  }

  /** Text that is exactly the target becomes exactly the replacement. */
  lemma ReplaceWholeText(pat: string, rep: string)
    requires |pat| > 0
    ensures ReplaceAll(pat, pat, rep) == rep
  {
    assert pat[..|pat|] == pat && pat[|pat|..] == [];
    assert rep + [] == rep;
  }

  /** Segments joined by a separator: segs[0] + sep + segs[1] + ... */
  function Join(segs: seq<string>, sep: string): string
    requires |segs| > 0
  {
    if |segs| == 1 then segs[0] else segs[0] + sep + Join(segs[1..], sep)
  }

  /** The target's first character does not recur in it. Then no two
      occurrences overlap, and none can straddle a copy of the target. */
  predicate SingleStart(pat: string)
    requires |pat| > 0
  {
    forall i :: 1 <= i < |pat| ==> pat[i] != pat[0]
  }

  /** No occurrence of the target starts in text without its first character. */
  lemma NoStartNoMatch(a: string, s: string, pat: string)
    requires |pat| > 0 && pat[0] !in a
    ensures NoMatchStartsIn(a, s, pat)
  {
    forall i | 0 <= i < |a| ensures !OccursAt(a + s, pat, i) {
      if i + |pat| <= |a + s| {
        assert (a + s)[i..i + |pat|][0] == a[i];
      }
    }
  }

  /** A prefix where no occurrence of the target starts passes through untouched. */
  lemma {:induction false} ReplacePassesPrefix(a: string, s: string, pat: string, rep: string)
    requires |pat| > 0 && NoMatchStartsIn(a, s, pat)
    ensures ReplaceAll(a + s, pat, rep) == a + ReplaceAll(s, pat, rep)
    decreases |a|
  {
    if a != [] {
      var t := a + s;
      assert t[1..] == a[1..] + s;
      if |t| < |pat| {
        assert ReplaceAll(s, pat, rep) == s;
      } else {
        assert !OccursAt(t, pat, 0);
        forall i | 0 <= i < |a[1..]| && OccursAt(a[1..] + s, pat, i) ensures OccursAt(t, pat, i + 1) {
          assert t[i + 1..i + 1 + |pat|] == (a[1..] + s)[i..i + |pat|];
        }
        ReplacePassesPrefix(a[1..], s, pat, rep);
        assert [a[0]] + (a[1..] + ReplaceAll(s, pat, rep)) == a + ReplaceAll(s, pat, rep);
      }
    } else {
      assert a + s == s;
    }
  }

  /** Where an occurrence of q can lie in k + p + r when p and q start with
      the same character and that character recurs in neither: inside k,
      at the start of p, or inside r. */
  lemma OccurrenceAcrossSeparator(k: string, p: string, r: string, q: string, i: int)
    requires |p| > 0 && |q| > 0 && q[0] == p[0] && SingleStart(p) && SingleStart(q)
    ensures OccursAt(k + p + r, q, i) ==>
            OccursAt(k, q, i) || (i == |k| && !NeverPrefix(p, q)) || OccursAt(r, q, i - |k| - |p|)
  {
    var t := k + p + r;
    if 0 <= i && i + |q| <= |k| {
      assert t[i..i + |q|] == k[i..i + |q|];
    } else if 0 <= i < |k| && i + |q| <= |t| {
      assert t[|k|] == p[0];
      assert t[i..i + |q|][|k| - i] == t[|k|];
    } else if i == |k| && i + |q| <= |t| {
      assert t[i..] == p + r;
      assert t[i..i + |q|] == (p + r)[..|q|];
      if |q| <= |p| {
        assert (p + r)[..|q|] == p[..|q|];
      } else {
        assert (p + r)[..|q|][..|p|] == p;
      }
    } else if |k| < i < |k| + |p| && i + |q| <= |t| {
      assert t[i] == p[i - |k|];
      assert t[i..i + |q|][0] == t[i];
    } else if i >= |k| + |p| && i + |q| <= |t| {
      assert t[i..i + |q|] == r[i - |k| - |p|..i - |k| - |p| + |q|];
    }
  }

  /** No occurrence of a target whose first character does not recur
      starts inside text free of it and followed by the target. */
  lemma NoMatchBeforeTarget(a: string, pat: string, r: string)
    requires |pat| > 0 && SingleStart(pat) && !Occurs(a, pat)
    ensures NoMatchStartsIn(a, pat + r, pat)
  {
    assert a + (pat + r) == a + pat + r;
    forall i | 0 <= i < |a| ensures !OccursAt(a + (pat + r), pat, i) {
      OccurrenceAcrossSeparator(a, pat, r, pat, i);
    }
  }

  /** Every occurrence of the target is replaced by the same text and the
      surrounding text is kept, when that text holds no occurrence of the
      target and the target's first character does not recur in it. */
  lemma {:induction false} ReplaceJoin(segs: seq<string>, pat: string, rep: string)
    requires |pat| > 0 && SingleStart(pat) && |segs| > 0
    requires forall j :: 0 <= j < |segs| ==> !Occurs(segs[j], pat)
    ensures ReplaceAll(Join(segs, pat), pat, rep) == Join(segs, rep)
    decreases |segs|
  {
    if |segs| == 1 {
      ReplaceWithoutOccurrence(segs[0], pat, rep);
    } else {
      var rest := Join(segs[1..], pat);
      assert Join(segs, pat) == segs[0] + (pat + rest);
      NoMatchBeforeTarget(segs[0], pat, rest);
      ReplacePassesPrefix(segs[0], pat + rest, pat, rep);
      assert (pat + rest)[..|pat|] == pat && (pat + rest)[|pat|..] == rest;
      ReplaceJoin(segs[1..], pat, rep);
      assert Join(segs, rep) == segs[0] + (rep + Join(segs[1..], rep));
    }
  }

  /** Text without the first character of q holds no occurrence of q. */
  lemma AbsentWithoutStart(s: string, q: string)
    requires |q| > 0 && q[0] !in s
    ensures !Occurs(s, q)
  {
    forall i | 0 <= i <= |s| && i + |q| <= |s| ensures !OccursAt(s, q, i) {
      assert s[i..i + |q|][0] == s[i];
    }
  }

  /** A separator that q can never start: q is neither a prefix of p nor
      has p as a proper prefix, so q does not match at the start of p + x
      for any x. */
  predicate NeverPrefix(p: string, q: string) {
    (|q| <= |p| ==> p[..|q|] != q) && (|q| > |p| ==> q[..|p|] != p)
  }

  /** Segments without q joined by a separator p that q can never start,
      where p and q begin with the same character and it recurs in neither:
      the joined text holds no occurrence of q, so replacing q keeps it. */
  lemma {:induction false} ReplaceJoinOther(segs: seq<string>, p: string, q: string, rep: string)
    requires |p| > 0 && |q| > 0 && q[0] == p[0] && SingleStart(p) && SingleStart(q) && NeverPrefix(p, q)
    requires |segs| > 0 && forall j :: 0 <= j < |segs| ==> !Occurs(segs[j], q)
    ensures !Occurs(Join(segs, p), q)
    ensures ReplaceAll(Join(segs, p), q, rep) == Join(segs, p)
    decreases |segs|
  {
    if |segs| > 1 {
      var k, r := segs[0], Join(segs[1..], p);
      ReplaceJoinOther(segs[1..], p, q, rep);
      forall i | 0 <= i <= |k + p + r| ensures !OccursAt(k + p + r, q, i) {
        OccurrenceAcrossSeparator(k, p, r, q, i);
      }
    }
    ReplaceWithoutOccurrence(Join(segs, p), q, rep);
  }

  /** Segments without q joined by non-empty text sharing no character
      with q hold no occurrence of q. */
  lemma {:induction false} JoinAvoidsTarget(segs: seq<string>, sep: string, q: string)
    requires |q| > 0 && sep != [] && Disjoint(sep, q)
    requires |segs| > 0 && forall j :: 0 <= j < |segs| ==> !Occurs(segs[j], q)
    ensures !Occurs(Join(segs, sep), q)
    decreases |segs|
  {
    if |segs| > 1 {
      JoinAvoidsTarget(segs[1..], sep, q);
      AbsentAround(segs[0], sep, Join(segs[1..], sep), q);
    }
  }
}
