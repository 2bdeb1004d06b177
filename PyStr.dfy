/** The Python `str` operations the wrapper relies on: `find`, `in`,
    `startswith`, `endswith`, `count` and `replace`, on strings as sequences
    of characters. */
module PyStr {

  /** `sub` occurs in `s` starting at index `i`. */
  predicate OccursAt(s: string, sub: string, i: int) {
    0 <= i && i + |sub| <= |s| && s[i..i + |sub|] == sub
  }

  predicate StartsWith(s: string, prefix: string) {
    |prefix| <= |s| && s[..|prefix|] == prefix
  }

  predicate EndsWith(s: string, suffix: string) {
    |suffix| <= |s| && s[|s| - |suffix|..] == suffix
  }

  /** `s.find(sub, i)`: the lowest index from `i` on where `sub` occurs, or -1. */
  function FindFrom(s: string, sub: string, i: nat): (r: int)
    requires i <= |s|
    ensures r == -1 <==> forall j :: i <= j <= |s| ==> !OccursAt(s, sub, j)
    ensures r != -1 ==> i <= r <= |s| && OccursAt(s, sub, r)
    ensures r != -1 ==> forall j :: i <= j < r ==> !OccursAt(s, sub, j)
    decreases |s| - i
  {
    if OccursAt(s, sub, i) then i
    else if i == |s| then -1
    else FindFrom(s, sub, i + 1)
  }

  /** `s.find(sub)`. */
  function Find(s: string, sub: string): (r: int)
    ensures r == -1 <==> forall j :: 0 <= j <= |s| ==> !OccursAt(s, sub, j)
    ensures r != -1 ==> 0 <= r <= |s| && OccursAt(s, sub, r)
    ensures r != -1 ==> forall j :: 0 <= j < r ==> !OccursAt(s, sub, j)
  {
    FindFrom(s, sub, 0)
  }

  /** `sub in s`. */
  predicate Contains(s: string, sub: string) {
    Find(s, sub) != -1
  }

  /** `s.count(sub)`: the number of non-overlapping occurrences, scanning from
      the left; an empty `sub` is counted at every position, ends included. */
  function Count(s: string, sub: string): nat
    decreases |s|
  {
    if sub == [] then |s| + 1
    else if s == [] then 0
    else if OccursAt(s, sub, 0) then 1 + Count(s[|sub|..], sub)
    else Count(s[1..], sub)
  }

  /** `s.replace("", rpl)`: `rpl` before every character and at the end. */
  function InsertEverywhere(s: string, rpl: string): string
    decreases |s|
  {
    if s == [] then rpl else rpl + [s[0]] + InsertEverywhere(s[1..], rpl)
  }

  /** `s.replace(pat, rpl)` for a non-empty `pat`: every non-overlapping
      occurrence, leftmost first, is replaced. */
  function ReplaceNonEmpty(s: string, pat: string, rpl: string): string
    requires pat != []
    decreases |s|
  {
    if s == [] then []
    else if OccursAt(s, pat, 0) then rpl + ReplaceNonEmpty(s[|pat|..], pat, rpl)
    else [s[0]] + ReplaceNonEmpty(s[1..], pat, rpl)
  }

  /** `s.replace(pat, rpl)`. */
  function Replace(s: string, pat: string, rpl: string): string {
    if pat == [] then InsertEverywhere(s, rpl) else ReplaceNonEmpty(s, pat, rpl)
  }

  /** An occurrence in a suffix is an occurrence in the whole string. */
  lemma OccursInSuffix(s: string, sub: string, k: nat, j: int)
    requires k <= |s|
    requires OccursAt(s[k..], sub, j)
    ensures OccursAt(s, sub, j + k)
  {
    assert s[k..][j..j + |sub|] == s[j + k..j + k + |sub|];
  }

  /** Replacing a string that does not occur leaves the text unchanged. */
  lemma {:induction false} ReplaceAbsent(s: string, pat: string, rpl: string)
    requires pat != []
    requires !Contains(s, pat)
    ensures Replace(s, pat, rpl) == s
  {
    ReplaceAbsentFrom(s, pat, rpl);
  }

  lemma {:induction false} ReplaceAbsentFrom(s: string, pat: string, rpl: string)
    requires pat != []
    requires forall j :: 0 <= j <= |s| ==> !OccursAt(s, pat, j)
    ensures ReplaceNonEmpty(s, pat, rpl) == s
    decreases |s|
  {
    if s != [] {
      assert !OccursAt(s, pat, 0);
      forall j | 0 <= j <= |s[1..]|
        ensures !OccursAt(s[1..], pat, j)
      {
        if OccursAt(s[1..], pat, j) {
          OccursInSuffix(s, pat, 1, j);
        }
      }
      ReplaceAbsentFrom(s[1..], pat, rpl);
      assert s == [s[0]] + s[1..];
    }
  }

  /** Replacing a string by itself changes nothing. */
  lemma {:induction false} ReplaceIdentity(s: string, pat: string)
    ensures Replace(s, pat, pat) == s
  {
    if pat == [] {
      InsertNothing(s);
    } else {
      ReplaceNonEmptyIdentity(s, pat);
    }
  }

  lemma {:induction false} InsertNothing(s: string)
    ensures InsertEverywhere(s, []) == s
    decreases |s|
  {
    if s != [] {
      InsertNothing(s[1..]);
      assert s == [s[0]] + s[1..];
    }
  }

  lemma {:induction false} ReplaceNonEmptyIdentity(s: string, pat: string)
    requires pat != []
    ensures ReplaceNonEmpty(s, pat, pat) == s
    decreases |s|
  {
    if s != [] {
      if OccursAt(s, pat, 0) {
        ReplaceNonEmptyIdentity(s[|pat|..], pat);
        assert s == s[..|pat|] + s[|pat|..];
      } else {
        ReplaceNonEmptyIdentity(s[1..], pat);
        assert s == [s[0]] + s[1..];
      }
    }
  }

  /** Every replaced occurrence changes the length by `|rpl| - |pat|`. */
  lemma {:induction false} ReplaceLength(s: string, pat: string, rpl: string)
    ensures |Replace(s, pat, rpl)| == |s| + Count(s, pat) * (|rpl| - |pat|)
  {
    if pat == [] {
      InsertEverywhereLength(s, rpl);
    } else {
      ReplaceNonEmptyLength(s, pat, rpl);
    }
  }

  lemma {:induction false} InsertEverywhereLength(s: string, rpl: string)
    ensures |InsertEverywhere(s, rpl)| == |s| + (|s| + 1) * |rpl|
    decreases |s|
  {
    if s != [] {
      InsertEverywhereLength(s[1..], rpl);
    }
  }

  lemma {:induction false} ReplaceNonEmptyLength(s: string, pat: string, rpl: string)
    requires pat != []
    ensures |ReplaceNonEmpty(s, pat, rpl)| == |s| + Count(s, pat) * (|rpl| - |pat|)
    decreases |s|
  {
    if s != [] {
      var d := |rpl| - |pat|;
      if OccursAt(s, pat, 0) {
        var rest := s[|pat|..];
        ReplaceNonEmptyLength(rest, pat, rpl);
        var c := Count(rest, pat);
        assert Count(s, pat) == 1 + c;
        assert |ReplaceNonEmpty(s, pat, rpl)| == |rpl| + |ReplaceNonEmpty(rest, pat, rpl)|;
        assert |rest| == |s| - |pat|;
        AddOneTimes(c, d);
      } else {
        var rest := s[1..];
        ReplaceNonEmptyLength(rest, pat, rpl);
        assert Count(s, pat) == Count(rest, pat);
        assert |ReplaceNonEmpty(s, pat, rpl)| == 1 + |ReplaceNonEmpty(rest, pat, rpl)|;
      }
    }
  }

  lemma AddOneTimes(c: int, d: int)
    ensures (1 + c) * d == d + c * d
  {
  }
}
