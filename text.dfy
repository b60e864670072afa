/** Option type shared by every module of the model. */
module Options {
  datatype Option<+T> = None | Some(value: T) {
    function GetOr(default: T): T {
      match this
      case Some(v) => v
      case None => default
    }
  }
}

/**
 * The string operations of Rust's `str` that the server relies on:
 * `split`, `join`, `matches(..).count()`, `trim_matches`,
 * `trim_end_matches`, `replace`, `to_lowercase`, ordering and
 * `sort` followed by `dedup`.
 */
module Text {
  import opened Options

  // ---------------------------------------------------------------------
  // Character classes (ASCII view of Rust's Unicode predicates)
  // ---------------------------------------------------------------------

  predicate IsAlphanumeric(c: char) {
    ('a' <= c <= 'z') || ('A' <= c <= 'Z') || ('0' <= c <= '9')
  }

  predicate IsUppercase(c: char) {
    'A' <= c <= 'Z'
  }

  function LowerChar(c: char): char {
    if 'A' <= c <= 'Z' then (c as int + 32) as char else c
  }

  function ToLower(s: string): (r: string)
    ensures |r| == |s|
    ensures forall i :: 0 <= i < |s| ==> r[i] == LowerChar(s[i])
  {
    if |s| == 0 then "" else [LowerChar(s[0])] + ToLower(s[1..])
  }

  // ---------------------------------------------------------------------
  // Counting and searching
  // ---------------------------------------------------------------------

  /** `s.matches(c).count()` */
  function CountChar(s: string, c: char): nat
  {
    if |s| == 0 then 0 else (if s[0] == c then 1 else 0) + CountChar(s[1..], c)
  }

  lemma {:induction false} CountCharZero(s: string, c: char)
    ensures CountChar(s, c) == 0 <==> c !in s
  {
    if |s| > 0 {
      CountCharZero(s[1..], c);
      assert s == [s[0]] + s[1..];
    }
  }

  lemma {:induction false} CountCharConcat(a: string, b: string, c: char)
    ensures CountChar(a + b, c) == CountChar(a, c) + CountChar(b, c)
  {
    if |a| > 0 {
      assert (a + b)[1..] == a[1..] + b && (a + b)[0] == a[0];
      CountCharConcat(a[1..], b, c);
    } else {
      assert a + b == b;
    }
  }

  /** Index of the first `c` in `s`. */
  function IndexOf(s: string, c: char): (i: nat)
    requires c in s
    ensures i < |s| && s[i] == c && c !in s[..i]
  {
    if s[0] == c then 0
    else
      var j := IndexOf(s[1..], c);
      assert s[..j + 1] == [s[0]] + s[1..][..j];
      j + 1
  }

  lemma IndexOfConcat(a: string, b: string, c: char)
    requires c !in a && |b| > 0 && b[0] == c
    ensures c in a + b && IndexOf(a + b, c) == |a|
  {
    assert (a + b)[|a|] == c;
    var i := IndexOf(a + b, c);
    assert forall k :: 0 <= k < |a| ==> (a + b)[k] == a[k];
    assert forall k :: 0 <= k < i ==> (a + b)[..i][k] == (a + b)[k];
  }

  // ---------------------------------------------------------------------
  // split / join on a character
  // ---------------------------------------------------------------------

  /** `parts.join(c)` */
  function JoinWith(parts: seq<string>, c: char): string
  {
    if |parts| == 0 then ""
    else if |parts| == 1 then parts[0]
    else parts[0] + [c] + JoinWith(parts[1..], c)
  }

  /**
   * `s.split(c)`: the pieces between occurrences of `c`; never empty,
   * no piece holds `c`, and joining the pieces with `c` gives `s` back.
   */
  function Split(s: string, c: char): (parts: seq<string>)
    ensures |parts| >= 1
    ensures forall i :: 0 <= i < |parts| ==> c !in parts[i]
    ensures JoinWith(parts, c) == s
    decreases |s|
  {
    if c !in s then [s]
    else
      var i := IndexOf(s, c);
      var rest := Split(s[i + 1..], c);
      assert s == s[..i] + [c] + s[i + 1..];
      [s[..i]] + rest
  }

  /** There is one piece more than there are separators. */
  lemma {:induction false} SplitCount(s: string, c: char)
    ensures |Split(s, c)| == CountChar(s, c) + 1
    decreases |s|
  {
    if c !in s {
      CountCharZero(s, c);
    } else {
      var i := IndexOf(s, c);
      SplitCount(s[i + 1..], c);
      assert s == s[..i] + ([c] + s[i + 1..]);
      CountCharConcat(s[..i], [c] + s[i + 1..], c);
      CountCharConcat([c], s[i + 1..], c);
      CountCharZero(s[..i], c);
    }
  }

  /** Splitting a join of separator-free pieces gives the pieces back. */
  lemma {:induction false} SplitJoin(parts: seq<string>, c: char)
    requires |parts| >= 1
    requires forall i :: 0 <= i < |parts| ==> c !in parts[i]
    ensures Split(JoinWith(parts, c), c) == parts
  {
    if |parts| > 1 {
      var tail := JoinWith(parts[1..], c);
      var s := parts[0] + ([c] + tail);
      assert JoinWith(parts, c) == s;
      IndexOfConcat(parts[0], [c] + tail, c);
      assert s[|parts[0]| + 1..] == tail;
      assert s[..|parts[0]|] == parts[0];
      SplitJoin(parts[1..], c);
    }
  }

  // ---------------------------------------------------------------------
  // Substring search (for the two-character separator "::")
  // ---------------------------------------------------------------------

  predicate OccursAt(s: string, sep: string, i: nat) {
    i + |sep| <= |s| && s[i..i + |sep|] == sep
  }

  /** Position of the first occurrence of `sep` in `s`, if any. */
  function Find(s: string, sep: string): (r: Option<nat>)
    ensures r.Some? ==> OccursAt(s, sep, r.value)
    ensures r.Some? ==> forall j :: 0 <= j < r.value ==> !OccursAt(s, sep, j)
    ensures r.None? ==> forall j :: 0 <= j <= |s| ==> !OccursAt(s, sep, j)
    decreases |s|
  {
    if |s| < |sep| then None
    else if s[..|sep|] == sep then Some(0)
    else
      var r := Find(s[1..], sep);
      assert forall j :: 1 <= j <= |s| ==> (OccursAt(s, sep, j) <==> OccursAt(s[1..], sep, j - 1)) by {
        forall j | 1 <= j <= |s| ensures OccursAt(s, sep, j) <==> OccursAt(s[1..], sep, j - 1) {
          if j + |sep| <= |s| {
            assert s[1..][j - 1..j - 1 + |sep|] == s[j..j + |sep|];
          }
        }
      }
      match r
      case None => None
      case Some(k) => Some(k + 1)
  }

  predicate Contains(s: string, sep: string) {
    Find(s, sep).Some?
  }

  // ---------------------------------------------------------------------
  // Prefixes, suffixes, trimming
  // ---------------------------------------------------------------------

  predicate StartsWith(s: string, prefix: string) {
    prefix <= s
  }

  predicate EndsWith(s: string, suffix: string) {
    |suffix| <= |s| && s[|s| - |suffix|..] == suffix
  }

  /** `r` occurs in `s` starting at index `i`. */
  predicate SliceAt(r: string, s: string, i: nat) {
    i + |r| <= |s| && forall k :: 0 <= k < |r| ==> r[k] == s[i + k]
  }

  /** Every character of `s` from `lo` up to `hi` is `c`. */
  predicate AllAre(s: string, lo: nat, hi: nat, c: char) {
    forall k :: lo <= k < hi && k < |s| ==> s[k] == c
  }

  /** `s.trim_start_matches(c)` */
  function TrimStart(s: string, c: char): (r: string)
    ensures |r| <= |s|
    ensures |r| == 0 || r[0] != c
  {
    if |s| > 0 && s[0] == c then TrimStart(s[1..], c) else s
  }

  /** `TrimStart` removes a run of `c` and keeps the rest of `s`. */
  lemma {:induction false} TrimStartSlice(s: string, c: char)
    ensures var r := TrimStart(s, c); SliceAt(r, s, |s| - |r|) && AllAre(s, 0, |s| - |r|, c)
    decreases |s|
  {
    if |s| > 0 && s[0] == c {
      var r := TrimStart(s, c);
      TrimStartSlice(s[1..], c);
      assert r == TrimStart(s[1..], c);
      forall k | 0 <= k < |r|
        ensures r[k] == s[|s| - |r| + k]
      {
        assert s[1..][|s| - 1 - |r| + k] == s[|s| - |r| + k];
      }
      forall k | 0 < k < |s| - |r|
        ensures s[k] == c
      {
        assert s[1..][k - 1] == s[k];
      }
    }
  }

  /** `s.trim_end_matches(c)` */
  function TrimEnd(s: string, c: char): (r: string)
    ensures |r| <= |s|
    ensures |r| == 0 || r[|r| - 1] != c
  {
    if |s| > 0 && s[|s| - 1] == c then TrimEnd(s[..|s| - 1], c) else s
  }

  /** `TrimEnd` keeps a prefix of `s` and removes the run of `c` after it. */
  lemma {:induction false} TrimEndSlice(s: string, c: char)
    ensures var r := TrimEnd(s, c); SliceAt(r, s, 0) && AllAre(s, |r|, |s|, c)
    decreases |s|
  {
    if |s| > 0 && s[|s| - 1] == c {
      var s' := s[..|s| - 1];
      var r := TrimEnd(s, c);
      TrimEndSlice(s', c);
      assert r == TrimEnd(s', c);
      forall k | 0 <= k < |r|
        ensures r[k] == s[k]
      {
        assert s'[k] == s[k];
      }
      forall k | |r| <= k < |s| - 1
        ensures s[k] == c
      {
        assert s'[k] == s[k];
      }
    }
  }

  /**
   * `s.trim_matches(c)`: `s` without its leading and trailing copies of
   * `c`; neither end of the result is `c`.
   */
  function Trim(s: string, c: char): (r: string)
    ensures |r| <= |s|
    ensures |r| == 0 || (r[0] != c && r[|r| - 1] != c)
  {
    var t := TrimStart(s, c);
    TrimEndSlice(t, c);
    TrimEnd(t, c)
  }

  /**
   * What `Trim` keeps: the slice of `s` after its leading copies of `c`,
   * followed in `s` only by copies of `c`.
   */
  lemma TrimSlice(s: string, c: char)
    ensures var i := |s| - |TrimStart(s, c)|;
      SliceAt(Trim(s, c), s, i) && AllAre(s, 0, i, c) && AllAre(s, i + |Trim(s, c)|, |s|, c)
  {
    var t := TrimStart(s, c);
    var r := TrimEnd(t, c);
    var i := |s| - |t|;
    TrimStartSlice(s, c);
    TrimEndSlice(t, c);
    forall k | 0 <= k < |r|
      ensures r[k] == s[i + k]
    {
      assert r[k] == t[k];
    }
    forall k | i + |r| <= k < |s|
      ensures s[k] == c
    {
      assert t[k - i] == s[k];
    }
  }

  /** A text with `c` at neither end is its own trim. */
  lemma TrimUntouched(s: string, c: char)
    requires |s| == 0 || (s[0] != c && s[|s| - 1] != c)
    ensures TrimStart(s, c) == s && TrimEnd(s, c) == s && Trim(s, c) == s
  {
  }

  /** A text enclosed in `c` with no `c` at its own ends is what trimming `c` leaves. */
  lemma TrimEnclosed(id: string, c: char)
    requires |id| == 0 || (id[0] != c && id[|id| - 1] != c)
    ensures Trim([c] + id + [c], c) == id
  {
    var s := [c] + id + [c];
    assert s[1..] == id + [c];
    if |id| == 0 {
      assert TrimStart(s, c) == TrimStart([c][1..], c);
    } else {
      assert TrimStart(s, c) == id + [c];
      assert (id + [c])[..|id|] == id;
      assert TrimEnd(id + [c], c) == TrimEnd(id, c);
    }
  }

  /** `s.trim_end_matches(suffix)` for a non-empty suffix string. */
  function TrimSuffix(s: string, suffix: string): (r: string)
    requires |suffix| > 0
    ensures r <= s
    ensures !EndsWith(r, suffix)
    decreases |s|
  {
    if EndsWith(s, suffix) then TrimSuffix(s[..|s| - |suffix|], suffix) else s
  }

  /** `s.replace(from, to)` for single characters. */
  function ReplaceChar(s: string, from: char, to: char): (r: string)
    ensures |r| == |s|
    ensures forall i :: 0 <= i < |s| ==> r[i] == (if s[i] == from then to else s[i])
  {
    if |s| == 0 then "" else [if s[0] == from then to else s[0]] + ReplaceChar(s[1..], from, to)
  }

  // ---------------------------------------------------------------------
  // Ordering of strings, sorting and de-duplication
  // ---------------------------------------------------------------------

  /** Lexicographic order on code points, the order of Rust's `String::cmp`. */
  predicate Less(a: string, b: string)
  {
    if |a| == 0 then |b| > 0
    else |b| > 0 && (a[0] < b[0] || (a[0] == b[0] && Less(a[1..], b[1..])))
  }

  lemma {:induction false} LessIrreflexive(a: string)
    ensures !Less(a, a)
  {
    if |a| > 0 { LessIrreflexive(a[1..]); }
  }

  lemma {:induction false} LessTransitive(a: string, b: string, c: string)
    requires Less(a, b) && Less(b, c)
    ensures Less(a, c)
  {
    if |a| > 0 && a[0] == b[0] && b[0] == c[0] {
      LessTransitive(a[1..], b[1..], c[1..]);
    }
  }

  lemma {:induction false} LessTotal(a: string, b: string)
    requires a != b
    ensures Less(a, b) || Less(b, a)
  {
    if |a| > 0 && |b| > 0 && a[0] == b[0] {
      assert a == [a[0]] + a[1..] && b == [b[0]] + b[1..];
      LessTotal(a[1..], b[1..]);
    }
  }

  lemma LessAsymmetric(a: string, b: string)
    requires Less(a, b)
    ensures !Less(b, a)
  {
    if Less(b, a) {
      LessTransitive(a, b, a);
      LessIrreflexive(a);
    }
  }

  predicate StrictlySorted(s: seq<string>) {
    forall i, j :: 0 <= i < j < |s| ==> Less(s[i], s[j])
  }

  /** Insertion of one string into a strictly sorted list, dropping duplicates. */
  function Insert(s: seq<string>, x: string): (r: seq<string>)
    requires StrictlySorted(s)
    ensures StrictlySorted(r)
    ensures forall y :: y in r <==> y in s || y == x
  {
    if |s| == 0 then [x]
    else if s[0] == x then s
    else if Less(x, s[0]) then
      assert forall j :: 0 <= j < |s| ==> Less(x, s[j]) by {
        forall j | 0 < j < |s| ensures Less(x, s[j]) { LessTransitive(x, s[0], s[j]); }
      }
      [x] + s
    else
      LessTotal(x, s[0]);
      var t := Insert(s[1..], x);
      assert forall y :: y in s <==> y == s[0] || y in s[1..] by {
        assert s == [s[0]] + s[1..];
      }
      assert forall j :: 0 <= j < |t| ==> Less(s[0], t[j]) by {
        forall j | 0 <= j < |t| ensures Less(s[0], t[j]) {
          assert t[j] in t;
          if t[j] != x {
            var k :| 0 <= k < |s[1..]| && s[1..][k] == t[j];
            assert s[k + 1] == t[j];
          }
        }
      }
      [s[0]] + t
  }

  /**
   * The result of `sort_unstable` followed by `dedup` on a list of
   * strings: strictly increasing, with exactly the input's elements.
   */
  function SortedDistinct(xs: seq<string>): (r: seq<string>)
    ensures StrictlySorted(r)
    ensures forall y :: y in r <==> y in xs
  {
    if |xs| == 0 then []
    else
      var r := Insert(SortedDistinct(xs[..|xs| - 1]), xs[|xs| - 1]);
      assert forall y :: y in xs <==> y in xs[..|xs| - 1] || y == xs[|xs| - 1] by {
        assert xs == xs[..|xs| - 1] + [xs[|xs| - 1]];
      }
      r
  }

  lemma HeadIsElement(s: seq<string>)
    ensures |s| > 0 ==> s[0] in s
  {
  }

  /**
   * A strictly sorted list is determined by its elements: whatever
   * sorting algorithm is used, sorting and de-duplicating gives the same list.
   */
  lemma {:induction false} SortedUnique(a: seq<string>, b: seq<string>)
    requires StrictlySorted(a) && StrictlySorted(b)
    requires forall y :: y in a <==> y in b
    ensures a == b
  {
    if |a| > 0 && |b| > 0 {
      assert a[0] in b && b[0] in a;
      if a[0] != b[0] {
        var i :| 0 <= i < |b| && b[i] == a[0];
        var j :| 0 <= j < |a| && a[j] == b[0];
        assert Less(b[0], a[0]) by { if i == 0 { } }
        assert Less(a[0], b[0]) by { if j == 0 { } }
        LessAsymmetric(a[0], b[0]);
      }
      assert a == [a[0]] + a[1..] && b == [b[0]] + b[1..];
      forall y ensures y in a[1..] <==> y in b[1..] {
        if y in a[1..] {
          var k :| 0 <= k < |a[1..]| && a[1..][k] == y;
          assert a[k + 1] == y && Less(a[0], y);
          LessIrreflexive(y);
          assert y in b && y != b[0];
        }
        if y in b[1..] {
          var k :| 0 <= k < |b[1..]| && b[1..][k] == y;
          assert b[k + 1] == y && Less(b[0], y);
          LessIrreflexive(y);
          assert y in a && y != a[0];
        }
      }
      SortedUnique(a[1..], b[1..]);
      assert a == [a[0]] + a[1..] && b == [b[0]] + b[1..];
    } else {
      HeadIsElement(a);
      HeadIsElement(b);
    }
  }
}
