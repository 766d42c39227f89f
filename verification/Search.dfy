/** Substring search, as `std::string::find` performs it. A result of -1 stands for `npos`. */
module Search {

  predicate OccursAt(s: string, p: string, i: int) {
    0 <= i && i + |p| <= |s| && s[i..i + |p|] == p
  }

  /** The first occurrence of `p` in `s` at or after `from`. */
  function FindFrom(s: string, p: string, from: nat): (r: int)
    ensures r == -1 || (from <= r && OccursAt(s, p, r))
    decreases |s| - from
  {
    if from + |p| > |s| then -1
    else if s[from..from + |p|] == p then from
    else FindFrom(s, p, from + 1)
  }

  function Find(s: string, p: string): (r: int)
    ensures r == -1 || OccursAt(s, p, r)
  {
    FindFrom(s, p, 0)
  }

  predicate Occurs(s: string, p: string) {
    Find(s, p) != -1
  }

  ghost predicate NoneBefore(s: string, p: string, from: int, to: int) {
    forall i :: from <= i < to ==> !OccursAt(s, p, i)
  }

  /** No occurrence precedes the one that is found, and none exists if none is found. */
  lemma {:induction false} FindIsFirst(s: string, p: string, from: nat)
    ensures var r := FindFrom(s, p, from); NoneBefore(s, p, from, if r == -1 then |s| + 1 else r)
    decreases |s| - from
  {
    if from + |p| <= |s| && s[from..from + |p|] != p {
      FindIsFirst(s, p, from + 1);
    }
  }

  /** The converse: a first occurrence is what the search returns. */
  lemma {:induction false} FirstIsFound(s: string, p: string, from: nat, r: int)
    requires r == -1 || (from <= r && OccursAt(s, p, r))
    requires NoneBefore(s, p, from, if r == -1 then |s| + 1 else r)
    ensures FindFrom(s, p, from) == r
    decreases |s| - from
  {
    if from != r && from + |p| <= |s| {
      assert !OccursAt(s, p, from);
      FirstIsFound(s, p, from + 1, r);
    }
  }

  /** Appending bytes neither creates nor destroys an occurrence that fits in the old text. */
  lemma OccursAtExtend(s: string, y: string, p: string, i: int)
    requires i + |p| <= |s|
    ensures OccursAt(s + y, p, i) <==> OccursAt(s, p, i)
  {
    if 0 <= i {
      assert (s + y)[i..i + |p|] == s[i..i + |p|];
    }
  }

  /** Dropping `k` leading bytes shifts every later occurrence by `k`. */
  lemma OccursAtDrop(s: string, k: nat, p: string, i: nat)
    requires k <= |s|
    ensures OccursAt(s[k..], p, i) <==> OccursAt(s, p, i + k)
  {
    if i + k + |p| <= |s| {
      assert s[k..][i..i + |p|] == s[i + k..i + k + |p|];
    }
  }

  /** A match that has been found stays the first match however much text follows. */
  lemma FindExtend(s: string, y: string, p: string, from: nat)
    requires FindFrom(s, p, from) != -1
    ensures FindFrom(s + y, p, from) == FindFrom(s, p, from)
  {
    var r := FindFrom(s, p, from);
    FindIsFirst(s, p, from);
    forall i | from <= i < r
      ensures !OccursAt(s + y, p, i)
    {
      OccursAtExtend(s, y, p, i);
    }
    OccursAtExtend(s, y, p, r);
    FirstIsFound(s + y, p, from, r);
  }

  /** Text before `k` may be dropped when no match starts there. */
  lemma FindDrop(s: string, k: nat, p: string)
    requires k <= |s| && NoneBefore(s, p, 0, k)
    ensures Find(s[k..], p) == if Find(s, p) == -1 then -1 else Find(s, p) - k
  {
    var r := Find(s[k..], p);
    FindIsFirst(s[k..], p, 0);
    if r != -1 {
      OccursAtDrop(s, k, p, r);
    }
    var found := if r == -1 then -1 else r + k;
    forall i | 0 <= i < if r == -1 then |s| + 1 else found
      ensures !OccursAt(s, p, i)
    {
      if k <= i {
        OccursAtDrop(s, k, p, i - k);
      }
    }
    FirstIsFound(s, p, 0, found);
  }

  /** Every character under an occurrence is a character of the pattern. */
  lemma CharUnder(s: string, p: string, i: int, k: int)
    requires OccursAt(s, p, i) && i <= k < i + |p|
    ensures s[k] == p[k - i] && s[k] in p
  {
    assert s[i..i + |p|][k - i] == s[k];
  }

  /** Two occurrences that overlap share the first character of the later one. */
  lemma OverlapSharesChar(s: string, p: string, i: int, q: string, j: int)
    requires OccursAt(s, p, i) && OccursAt(s, q, j) && q != ""
    requires i <= j < i + |p|
    ensures p[j - i] == q[0] && q[0] in p
  {
    CharUnder(s, p, i, j);
    CharUnder(s, q, j, j);
  }

  /** `find_last_of` for one character. */
  function LastOf(s: string, c: char): (r: int)
    ensures r == -1 || (0 <= r < |s| && s[r] == c)
  {
    if s == "" then -1
    else if s[|s| - 1] == c then |s| - 1
    else LastOf(s[..|s| - 1], c)
  }

  lemma {:induction false} LastOfIs(s: string, c: char, r: int)
    requires r == -1 || (0 <= r < |s| && s[r] == c)
    requires forall i :: 0 <= i && r < i < |s| ==> s[i] != c
    ensures LastOf(s, c) == r
  {
    if s != "" && s[|s| - 1] != c {
      LastOfIs(s[..|s| - 1], c, r);
    }
  }

  lemma {:induction false} LastOfIsLast(s: string, c: char)
    ensures forall i :: 0 <= i && LastOf(s, c) < i < |s| ==> s[i] != c
  {
    if s != "" && s[|s| - 1] != c {
      var front := s[..|s| - 1];
      LastOfIsLast(front, c);
      assert forall i :: 0 <= i < |front| ==> s[i] == front[i];
    }
  }
}
