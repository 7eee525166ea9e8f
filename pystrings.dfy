/** Python's `str.find`, `str.split(sep)`, `sep.join(parts)` and `str.replace(pat, repl)`
    for a non-empty separator: occurrences are found left to right and never overlap. */
module PyStrings {
  import opened Wrappers

  /** `sep` occurs in `s` starting at index `i`. */
  predicate OccursAt(s: string, sep: string, i: nat)
  {
    i + |sep| <= |s| && s[i..i + |sep|] == sep
  }

  ghost predicate Contains(s: string, sep: string)
  {
    exists i: nat :: OccursAt(s, sep, i)
  }

  lemma OccursShift(s: string, sep: string, i: nat)
    requires |s| > 0
    ensures OccursAt(s, sep, i + 1) <==> OccursAt(s[1..], sep, i)
  {
    if i + 1 + |sep| <= |s| {
      assert s[1..][i..i + |sep|] == s[i + 1..i + 1 + |sep|];
    }
  }

  /** The leftmost index at which `sep` occurs in `s`, as `s.find(sep)` (None for -1). */
  function Find(s: string, sep: string): (r: Option<nat>)
    ensures r.Some? ==> OccursAt(s, sep, r.value)
    ensures r.Some? ==> forall j: nat :: j < r.value ==> !OccursAt(s, sep, j)
    ensures r.None? <==> !Contains(s, sep)
    decreases |s|
  {
    if |s| < |sep| then None
    else if s[..|sep|] == sep then Some(0)
    else
      match Find(s[1..], sep)
      case None =>
        assert forall j: nat :: !OccursAt(s, sep, j) by {
          forall j: nat ensures !OccursAt(s, sep, j) {
            if j > 0 { OccursShift(s, sep, j - 1); } else { assert s[..|sep|] == s[0..|sep|]; }
          }
        }
        None
      case Some(k) =>
        assert OccursAt(s, sep, k + 1) && forall j: nat :: j < k + 1 ==> !OccursAt(s, sep, j) by {
          OccursShift(s, sep, k);
          forall j: nat | j < k + 1 ensures !OccursAt(s, sep, j) {
            if j > 0 { OccursShift(s, sep, j - 1); }
          }
        }
        Some(k + 1)
  }

  /** `s.split(sep)`: the pieces between the occurrences of `sep` found left to right. */
  function Split(s: string, sep: string): (r: seq<string>)
    requires |sep| > 0
    decreases |s|
  {
    match Find(s, sep)
    case None => [s]
    case Some(i) => [s[..i]] + Split(s[i + |sep|..], sep)
  }

  /** `sep.join(parts)`. */
  function Join(parts: seq<string>, sep: string): string
  {
    if |parts| == 0 then ""
    else if |parts| == 1 then parts[0]
    else parts[0] + sep + Join(parts[1..], sep)
  }

  /** The number of non-overlapping occurrences of `sep`, scanning left to right,
      as `s.count(sep)`; defined by a scan independent of Find. */
  function Count(s: string, sep: string): nat
    requires |sep| > 0
    decreases |s|
  {
    if |s| < |sep| then 0
    else if s[..|sep|] == sep then 1 + Count(s[|sep|..], sep)
    else Count(s[1..], sep)
  }

  /** `s.replace(pat, repl)`: every non-overlapping occurrence of `pat`, scanned left to
      right, is replaced by `repl`. */
  function Replace(s: string, pat: string, repl: string): string
    requires |pat| > 0
    decreases |s|
  {
    if |s| < |pat| then s
    else if s[..|pat|] == pat then repl + Replace(s[|pat|..], pat, repl)
    else [s[0]] + Replace(s[1..], pat, repl)
  }

  lemma {:induction false} SplitNonEmpty(s: string, sep: string)
    requires |sep| > 0
    ensures |Split(s, sep)| >= 1
    decreases |s|
  {
    match Find(s, sep)
    case None =>
    case Some(i) =>
  }

  lemma Decompose(s: string, i: nat, n: nat)
    requires i + n <= |s|
    ensures s == s[..i] + s[i..i + n] + s[i + n..]
  {
  }

  /** Joining the pieces of a split with the same separator gives back the string. */
  lemma {:induction false} JoinSplit(s: string, sep: string)
    requires |sep| > 0
    ensures Join(Split(s, sep), sep) == s
    decreases |s|
  {
    var f := Find(s, sep);
    if f.Some? {
      var i := f.value;
      var rest := s[i + |sep|..];
      JoinSplit(rest, sep);
      SplitNonEmpty(rest, sep);
      var parts := Split(s, sep);
      assert parts == [s[..i]] + Split(rest, sep);
      assert parts[1..] == Split(rest, sep);
      assert Join(parts, sep) == s[..i] + sep + rest;
      Decompose(s, i, |sep|);
    }
  }

  /** No piece of a split contains the separator. */
  lemma {:induction false} SplitPiecesFree(s: string, sep: string)
    requires |sep| > 0
    ensures forall k :: 0 <= k < |Split(s, sep)| ==> !Contains(Split(s, sep)[k], sep)
    decreases |s|
  {
    match Find(s, sep)
    case None =>
    case Some(i) =>
      var rest := s[i + |sep|..];
      SplitPiecesFree(rest, sep);
      forall j: nat | OccursAt(s[..i], sep, j) ensures false {
        assert s[..i][j..j + |sep|] == s[j..j + |sep|];
        assert OccursAt(s, sep, j);
      }
      assert !Contains(s[..i], sep);
      var parts := Split(s, sep);
      assert parts == [s[..i]] + Split(rest, sep);
      forall k | 0 <= k < |parts| ensures !Contains(parts[k], sep) {
        if k > 0 { assert parts[k] == Split(rest, sep)[k - 1]; }
      }
  }

  /** With no occurrence of `sep` before index `i`, counting may start at `i`. */
  lemma {:induction false} CountSkip(s: string, sep: string, i: nat)
    requires |sep| > 0 && i <= |s|
    requires forall j: nat :: j < i ==> !OccursAt(s, sep, j)
    ensures Count(s, sep) == Count(s[i..], sep)
    decreases i
  {
    if i > 0 {
      assert !OccursAt(s, sep, 0);
      if |s| >= |sep| {
        assert s[..|sep|] == s[0..|sep|];
      }
      forall j: nat | j < i - 1 ensures !OccursAt(s[1..], sep, j) {
        OccursShift(s, sep, j);
      }
      CountSkip(s[1..], sep, i - 1);
      assert s[1..][i - 1..] == s[i..];
    }
  }

  /** Counting from an occurrence of `sep` counts it and resumes after it. */
  lemma CountAtOccurrence(s: string, sep: string, i: nat)
    requires |sep| > 0 && OccursAt(s, sep, i)
    ensures Count(s[i..], sep) == 1 + Count(s[i + |sep|..], sep)
  {
    assert s[i..][..|sep|] == sep;
    assert s[i..][|sep|..] == s[i + |sep|..];
  }

  /** A split has one piece more than there are occurrences of the separator. */
  lemma {:induction false} SplitCount(s: string, sep: string)
    requires |sep| > 0
    ensures |Split(s, sep)| == Count(s, sep) + 1
    decreases |s|
  {
    var f := Find(s, sep);
    if f.None? {
      assert |Split(s, sep)| == 1;
      CountSkip(s, sep, |s|);
    } else {
      var i := f.value;
      var rest := s[i + |sep|..];
      assert |Split(s, sep)| == 1 + |Split(rest, sep)|;
      SplitCount(rest, sep);
      CountSkip(s, sep, i);
      CountAtOccurrence(s, sep, i);
    }
  }

  /** For a one-character separator the count is the number of times the character occurs. */
  lemma {:induction false} CountChar(s: string, c: char)
    ensures Count(s, [c]) == multiset(s)[c]
    decreases |s|
  {
    if |s| > 0 {
      CountChar(s[1..], c);
      assert s == [s[0]] + s[1..];
      assert s[..1] == [s[0]];
    }
  }

  /** A first character that starts no occurrence of `pat` is kept. */
  lemma ReplaceKeep(s: string, pat: string, repl: string)
    requires |pat| > 0 && |s| > 0 && !OccursAt(s, pat, 0)
    ensures Replace(s, pat, repl) == [s[0]] + Replace(s[1..], pat, repl)
  {
    if |s| >= |pat| {
      assert s[..|pat|] == s[0..|pat|];
    } else {
      assert s == [s[0]] + s[1..];
    }
  }

  /** An occurrence of `pat` at the front is replaced. */
  lemma ReplaceMatch(s: string, pat: string, repl: string)
    requires |pat| > 0 && OccursAt(s, pat, 0)
    ensures Replace(s, pat, repl) == repl + Replace(s[|pat|..], pat, repl)
  {
    assert s[..|pat|] == s[0..|pat|];
  }

  /** With no occurrence of `pat` before index `i`, the first `i` characters are kept. */
  lemma {:induction false} ReplaceSkip(s: string, pat: string, repl: string, i: nat)
    requires |pat| > 0 && i <= |s|
    requires forall j: nat :: j < i ==> !OccursAt(s, pat, j)
    ensures Replace(s, pat, repl) == s[..i] + Replace(s[i..], pat, repl)
    decreases i
  {
    if i > 0 {
      var t := s[1..];
      assert !OccursAt(s, pat, 0);
      ReplaceKeep(s, pat, repl);
      forall j: nat | j < i - 1 ensures !OccursAt(t, pat, j) {
        OccursShift(s, pat, j);
      }
      ReplaceSkip(t, pat, repl, i - 1);
      assert t[i - 1..] == s[i..];
      assert s[..i] == [s[0]] + t[..i - 1];
    }
  }

  /** `s.replace(pat, repl)` is `repl.join(s.split(pat))`. */
  lemma {:induction false} ReplaceIsJoinSplit(s: string, pat: string, repl: string)
    requires |pat| > 0
    ensures Replace(s, pat, repl) == Join(Split(s, pat), repl)
    decreases |s|
  {
    match Find(s, pat)
    case None =>
      ReplaceSkip(s, pat, repl, |s|);
      assert s[..|s|] == s;
    case Some(i) =>
      var rest := s[i + |pat|..];
      ReplaceIsJoinSplit(rest, pat, repl);
      ReplaceSkip(s, pat, repl, i);
      SplitNonEmpty(rest, pat);
      assert s[i..][..|pat|] == pat;
      assert s[i..][|pat|..] == rest;
      var parts := Split(s, pat);
      assert parts[1..] == Split(rest, pat);
  }

  /** A string without an occurrence of `pat` is left as it is. */
  lemma ReplaceAbsent(s: string, pat: string, repl: string)
    requires |pat| > 0 && !Contains(s, pat)
    ensures Replace(s, pat, repl) == s
  {
    ReplaceSkip(s, pat, repl, |s|);
    assert s[..|s|] == s;
  }
}
