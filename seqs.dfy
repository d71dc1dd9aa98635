/**
  Generic sequence operations shared by the string and byte models: substring
  search, splitting on a separator, filtering, de-duplication and trimming.
  Both Python and JavaScript give these the same meaning for a non-empty
  separator, so they are defined once here.
 */
module Seqs {
  import opened Wrappers

  /** `pat` occurs in `s` starting at position `i`. */
  predicate OccursAt<T(==)>(s: seq<T>, pat: seq<T>, i: nat)
  {
    i + |pat| <= |s| && s[i..i + |pat|] == pat
  }

  /** The first occurrence of `pat` in `s` at or after position `from`. */
  function FindFrom<T(==)>(s: seq<T>, pat: seq<T>, from: nat): (r: Option<nat>)
    ensures r.Some? ==> from <= r.value && OccursAt(s, pat, r.value)
    ensures r.Some? ==> forall j: nat | from <= j < r.value :: !OccursAt(s, pat, j)
    ensures r.None? ==> forall j: nat | from <= j :: !OccursAt(s, pat, j)
    decreases |s| - from
  {
    if from + |pat| > |s| then None
    else if s[from..from + |pat|] == pat then Some(from)
    else FindFrom(s, pat, from + 1)
  }

  /** Python `s.find(pat)` / JavaScript `s.indexOf(pat)`, with "not found" as `None`. */
  function Find<T(==)>(s: seq<T>, pat: seq<T>): Option<nat>
  {
    FindFrom(s, pat, 0)
  }

  /** Python `pat in s` / JavaScript `s.includes(pat)`. */
  predicate IsInfix<T(==)>(pat: seq<T>, s: seq<T>)
  {
    Find(s, pat).Some?
  }

  lemma OccurrenceIsInfix<T>(pat: seq<T>, s: seq<T>, i: nat)
    requires OccursAt(s, pat, i)
    ensures IsInfix(pat, s)
  {
  }

  /** An element of `s` occurs in it as a one-element pattern. */
  lemma ElementIsInfix<T>(x: T, s: seq<T>)
    requires x in s
    ensures IsInfix([x], s)
  {
    var i :| 0 <= i < |s| && s[i] == x;
    assert s[i..i + 1] == [x];
    OccurrenceIsInfix([x], s, i);
  }

  /** A pattern holding an element that `s` lacks does not occur in `s`. */
  lemma {:induction false} MissingElementNotInfix<T>(pat: seq<T>, s: seq<T>, x: T)
    requires x in pat && x !in s
    ensures !IsInfix(pat, s)
  {
  }

  /**
    Python `s.split(sep)` and JavaScript `s.split(sep)` for a non-empty
    separator: the pieces between the non-overlapping occurrences of `sep`,
    found from left to right.
   */
  function Split<T(==)>(s: seq<T>, sep: seq<T>): (parts: seq<seq<T>>)
    requires |sep| > 0
    ensures |parts| >= 1
    decreases |s|
  {
    match Find(s, sep)
    case None => [s]
    case Some(i) => [s[..i]] + Split(s[i + |sep|..], sep)
  }

  /** The inverse of `Split`: the pieces glued back together with `sep`. */
  function Join<T>(parts: seq<seq<T>>, sep: seq<T>): seq<T>
    decreases |parts|
  {
    if parts == [] then []
    else if |parts| == 1 then parts[0]
    else parts[0] + sep + Join(parts[1..], sep)
  }

  /** Joining a piece in front of at least one more piece. */
  lemma JoinCons<T>(a: seq<T>, tail: seq<seq<T>>, sep: seq<T>)
    requires |tail| >= 1
    ensures Join([a] + tail, sep) == a + sep + Join(tail, sep)
  {
    assert ([a] + tail)[1..] == tail;
  }

  /** One step of `Split`: the piece before the first separator, then the split of the rest. */
  lemma SplitStep<T>(s: seq<T>, sep: seq<T>, i: nat)
    requires |sep| > 0 && Find(s, sep) == Some(i)
    ensures i + |sep| <= |s| && s == s[..i] + sep + s[i + |sep|..]
    ensures Split(s, sep) == [s[..i]] + Split(s[i + |sep|..], sep)
  {
    assert OccursAt(s, sep, i);
    SplitAt(s, i, i + |sep|);
  }

  /** A sequence is its three slices around positions `i` and `j`. */
  lemma SplitAt<T>(s: seq<T>, i: nat, j: nat)
    requires i <= j <= |s|
    ensures s == s[..i] + s[i..j] + s[j..]
  {
  }

  /** Splitting loses nothing: joining the pieces gives back the input. */
  lemma {:induction false} JoinSplit<T>(s: seq<T>, sep: seq<T>)
    requires |sep| > 0
    ensures Join(Split(s, sep), sep) == s
    decreases |s|
  {
    var f := Find(s, sep);
    if f.Some? {
      var i := f.value;
      SplitStep(s, sep, i);
      var rest := s[i + |sep|..];
      JoinSplit(rest, sep);
      JoinCons(s[..i], Split(rest, sep), sep);
    }
  }

  /** No piece of a split holds the separator. */
  lemma {:induction false} SplitPiecesAvoidSep<T>(s: seq<T>, sep: seq<T>, k: nat)
    requires |sep| > 0 && k < |Split(s, sep)|
    ensures !IsInfix(sep, Split(s, sep)[k])
    decreases |s|
  {
    match Find(s, sep)
    case None =>
    case Some(i) =>
      if k == 0 {
        PrefixBeforeFirstAvoids(s, sep, i);
      } else {
        SplitPiecesAvoidSep(s[i + |sep|..], sep, k - 1);
      }
  }

  /** The prefix of `s` before the first occurrence of `sep` holds no occurrence. */
  lemma PrefixBeforeFirstAvoids<T>(s: seq<T>, sep: seq<T>, i: nat)
    requires |sep| > 0 && Find(s, sep) == Some(i)
    ensures !IsInfix(sep, s[..i])
  {
    if IsInfix(sep, s[..i]) {
      var j := Find(s[..i], sep).value;
      assert s[..i][j..j + |sep|] == s[j..j + |sep|];
      assert OccursAt(s, sep, j);
    }
  }

  /** `s.split(sep)[0]`: what precedes the first occurrence of `sep` (all of `s` if none). */
  function Before<T(==)>(s: seq<T>, sep: seq<T>): (r: seq<T>)
    requires |sep| > 0
  {
    Split(s, sep)[0]
  }

  /** `Before` gives a prefix, holds no separator, and is all of `s` exactly when `s` holds none. */
  lemma BeforeIsPrefix<T>(s: seq<T>, sep: seq<T>)
    requires |sep| > 0
    ensures |Before(s, sep)| <= |s| && Before(s, sep) == s[..|Before(s, sep)|]
    ensures !IsInfix(sep, Before(s, sep))
    ensures Before(s, sep) == s <==> !IsInfix(sep, s)
  {
    SplitPiecesAvoidSep(s, sep, 0);
  }

  /** Python `s[:n]` / JavaScript `s.slice(0, n)`. */
  function Take<T>(s: seq<T>, n: nat): (r: seq<T>)
    ensures |r| == if |s| < n then |s| else n
    ensures r == s[..|r|]
  {
    if |s| <= n then s else s[..n]
  }

  /** The elements of `s` that satisfy `keep`, in their original order. */
  function Filter<T>(s: seq<T>, keep: T -> bool): (r: seq<T>)
    ensures |r| <= |s|
    decreases |s|
  {
    if s == [] then []
    else Filter(s[..|s| - 1], keep) + (if keep(s[|s| - 1]) then [s[|s| - 1]] else [])
  }

  /** Exactly the elements of `s` that satisfy `keep` survive filtering. */
  lemma {:induction false} FilterMembers<T>(s: seq<T>, keep: T -> bool, x: T)
    ensures x in Filter(s, keep) <==> x in s && keep(x)
    decreases |s|
  {
    if s != [] {
      var init := s[..|s| - 1];
      FilterMembers(init, keep, x);
      assert s == init + [s[|s| - 1]];
    }
  }

  /**
    Filtering keeps every copy of a kept element and no copy of a dropped
    one, so repeated elements survive as often as they occur.
   */
  lemma {:induction false} FilterCounts<T>(s: seq<T>, keep: T -> bool, x: T)
    ensures multiset(Filter(s, keep))[x] == if keep(x) then multiset(s)[x] else 0
    decreases |s|
  {
    if s != [] {
      var init := s[..|s| - 1];
      var last := s[|s| - 1];
      FilterCounts(init, keep, x);
      assert s == init + [last];
      assert multiset(s) == multiset(init) + multiset{last};
      assert multiset(Filter(s, keep)) == multiset(Filter(init, keep)) + multiset(if keep(last) then [last] else []);
    }
  }

  /**
    `a` can be obtained from `b` by deleting elements (it keeps their order).
    Matching greedily from the end decides this.
   */
  predicate IsSubsequence<T(==)>(a: seq<T>, b: seq<T>)
    decreases |b|
  {
    if a == [] then true
    else if b == [] then false
    else if a[|a| - 1] == b[|b| - 1] then IsSubsequence(a[..|a| - 1], b[..|b| - 1])
    else IsSubsequence(a, b[..|b| - 1])
  }

  /** Appending to the longer sequence keeps a subsequence a subsequence. */
  lemma {:induction false} SubsequenceExtend<T>(a: seq<T>, b: seq<T>, z: T)
    requires IsSubsequence(a, b)
    ensures IsSubsequence(a, b + [z])
    decreases |b|, 1
  {
    assert (b + [z])[..|b|] == b;
    if a != [] && a[|a| - 1] == z {
      SubsequenceDropLast(a, b);
    }
  }

  /** Dropping the last element of a subsequence keeps it a subsequence. */
  lemma {:induction false} SubsequenceDropLast<T>(a: seq<T>, b: seq<T>)
    requires a != [] && IsSubsequence(a, b)
    ensures IsSubsequence(a[..|a| - 1], b)
    decreases |b|, 0
  {
    var b' := b[..|b| - 1];
    assert b == b' + [b[|b| - 1]];
    if a[|a| - 1] == b[|b| - 1] {
      SubsequenceExtend(a[..|a| - 1], b', b[|b| - 1]);
    } else {
      SubsequenceDropLast(a, b');
      SubsequenceExtend(a[..|a| - 1], b', b[|b| - 1]);
    }
  }

  /** Every prefix of a subsequence is a subsequence. */
  lemma {:induction false} SubsequencePrefix<T>(a: seq<T>, b: seq<T>, n: nat)
    requires n <= |a| && IsSubsequence(a, b)
    ensures IsSubsequence(a[..n], b)
    decreases |a| - n
  {
    if n < |a| {
      SubsequenceDropLast(a, b);
      SubsequencePrefix(a[..|a| - 1], b, n);
      assert a[..|a| - 1][..n] == a[..n];
    } else {
      assert a[..n] == a;
    }
  }

  /** Filtering keeps the order of what it keeps. */
  lemma {:induction false} FilterIsSubsequence<T>(s: seq<T>, keep: T -> bool)
    ensures IsSubsequence(Filter(s, keep), s)
    decreases |s|
  {
    if s != [] {
      var init := s[..|s| - 1];
      var x := s[|s| - 1];
      var f := Filter(init, keep);
      FilterIsSubsequence(init, keep);
      if keep(x) {
        assert Filter(s, keep) == f + [x];
        assert (f + [x])[..|f|] == f;
      } else {
        assert Filter(s, keep) == f;
        if f != [] {
          FilterMembers(init, keep, f[|f| - 1]);
        }
      }
    }
  }

  /** No element appears twice. */
  predicate Distinct<T(==)>(s: seq<T>)
  {
    forall i, j | 0 <= i < j < |s| :: s[i] != s[j]
  }

  /**
    Extending one prefix by each of a list of distinct suffixes gives
    distinct sequences, each starting with the prefix.
   */
  lemma ExtensionsDistinct<T>(p: seq<T>, suffixes: seq<seq<T>>, r: seq<seq<T>>)
    requires Distinct(suffixes)
    requires |r| == |suffixes| && forall k | 0 <= k < |r| :: r[k] == p + suffixes[k]
    ensures Distinct(r)
    ensures forall q | q in r :: |p| <= |q| && q[..|p|] == p
  {
    forall i, j | 0 <= i < j < |r| ensures r[i] != r[j] {
      assert r[i][|p|..] == suffixes[i];
      assert r[j][|p|..] == suffixes[j];
    }
    forall q | q in r ensures |p| <= |q| && q[..|p|] == p {
      var k :| 0 <= k < |r| && r[k] == q;
      assert q == p + suffixes[k];
    }
  }

  /** The distinct elements of `s` in order of first appearance. */
  function Dedup<T(==)>(s: seq<T>): seq<T>
    decreases |s|
  {
    if s == [] then []
    else
      var d := Dedup(s[..|s| - 1]);
      if s[|s| - 1] in d then d else d + [s[|s| - 1]]
  }

  /** `Dedup` keeps each element of `s` once, drops nothing else, and keeps the order. */
  lemma {:induction false} DedupSpec<T>(s: seq<T>)
    ensures Distinct(Dedup(s))
    ensures forall x :: x in Dedup(s) <==> x in s
    ensures IsSubsequence(Dedup(s), s)
    decreases |s|
  {
    if s != [] {
      var init := s[..|s| - 1];
      var z := s[|s| - 1];
      DedupSpec(init);
      assert s == init + [z];
      if z in Dedup(init) {
        SubsequenceExtend(Dedup(init), init, z);
      }
    }
  }

  /** De-duplication only ever appends: the result for a prefix is a prefix of the result. */
  lemma {:induction false} DedupGrows<T>(s: seq<T>, t: seq<T>)
    ensures |Dedup(s)| <= |Dedup(s + t)| && Dedup(s + t)[..|Dedup(s)|] == Dedup(s)
    decreases |t|
  {
    if t == [] {
      assert s + t == s;
    } else {
      var t' := t[..|t| - 1];
      DedupGrows(s, t');
      assert (s + t)[..|s + t| - 1] == s + t';
    }
  }

  /** Removes the leading elements that satisfy `drop`. */
  function DropWhile<T>(s: seq<T>, drop: T -> bool): (r: seq<T>)
    ensures |r| <= |s| && r == s[|s| - |r|..]
    ensures r == [] || !drop(r[0])
    ensures forall i | 0 <= i < |s| - |r| :: drop(s[i])
    decreases |s|
  {
    if s != [] && drop(s[0]) then DropWhile(s[1..], drop) else s
  }

  /** A leading run of droppable elements, followed by one that is not, is exactly what is removed. */
  lemma {:induction false} DropWhileRun<T>(a: seq<T>, b: seq<T>, drop: T -> bool)
    requires forall i | 0 <= i < |a| :: drop(a[i])
    requires b == [] || !drop(b[0])
    ensures DropWhile(a + b, drop) == b
    decreases |a|
  {
    if a != [] {
      assert (a + b)[1..] == a[1..] + b;
      DropWhileRun(a[1..], b, drop);
    } else {
      assert a + b == b;
    }
  }

  /** Removes the trailing elements that satisfy `drop`. */
  function DropWhileEnd<T>(s: seq<T>, drop: T -> bool): (r: seq<T>)
    ensures |r| <= |s| && r == s[..|r|]
    ensures r == [] || !drop(r[|r| - 1])
    ensures forall i | |r| <= i < |s| :: drop(s[i])
    decreases |s|
  {
    if s != [] && drop(s[|s| - 1]) then DropWhileEnd(s[..|s| - 1], drop) else s
  }

  /** Removes the leading and the trailing elements that satisfy `drop`. */
  function Trim<T>(s: seq<T>, drop: T -> bool): (r: seq<T>)
    ensures |r| <= |s|
    ensures r == [] || (!drop(r[0]) && !drop(r[|r| - 1]))
    ensures forall x | x in r :: x in s
  {
    var front := DropWhile(s, drop);
    var r := DropWhileEnd(front, drop);
    assert forall k | 0 <= k < |r| :: r[k] == s[|s| - |front| + k];
    r
  }

  /** Trimming a leading run of droppable elements off a trimmed sequence leaves that sequence. */
  lemma TrimRun<T>(a: seq<T>, b: seq<T>, drop: T -> bool)
    requires forall i | 0 <= i < |a| :: drop(a[i])
    requires b == [] || (!drop(b[0]) && !drop(b[|b| - 1]))
    ensures Trim(a + b, drop) == b
  {
    DropWhileRun(a, b, drop);
  }

  /** Trimming a sequence that is already trimmed changes nothing. */
  lemma TrimTrimmed<T>(s: seq<T>, drop: T -> bool)
    requires s == [] || (!drop(s[0]) && !drop(s[|s| - 1]))
    ensures Trim(s, drop) == s
  {
  }

  /** Trimming keeps a first element that is not to be dropped. */
  lemma TrimKeepsFirst<T>(s: seq<T>, drop: T -> bool)
    ensures s != [] && !drop(s[0]) ==> Trim(s, drop) != [] && Trim(s, drop)[0] == s[0]
  {
    if s != [] && !drop(s[0]) {
      assert DropWhile(s, drop) == s;
    }
  }

  /** Trimming with two tests that agree on every element of `s` gives the same result. */
  lemma {:induction false} TrimAgree<T>(s: seq<T>, p: T -> bool, q: T -> bool)
    requires forall x | x in s :: p(x) == q(x)
    ensures Trim(s, p) == Trim(s, q)
  {
    DropWhileAgree(s, p, q);
    var front := DropWhile(s, p);
    assert forall k | 0 <= k < |front| :: front[k] == s[|s| - |front| + k];
    DropWhileEndAgree(front, p, q);
  }

  lemma {:induction false} DropWhileAgree<T>(s: seq<T>, p: T -> bool, q: T -> bool)
    requires forall x | x in s :: p(x) == q(x)
    ensures DropWhile(s, p) == DropWhile(s, q)
    decreases |s|
  {
    if s != [] && p(s[0]) {
      DropWhileAgree(s[1..], p, q);
    }
  }

  lemma {:induction false} DropWhileEndAgree<T>(s: seq<T>, p: T -> bool, q: T -> bool)
    requires forall x | x in s :: p(x) == q(x)
    ensures DropWhileEnd(s, p) == DropWhileEnd(s, q)
    decreases |s|
  {
    if s != [] && p(s[|s| - 1]) {
      DropWhileEndAgree(s[..|s| - 1], p, q);
    }
  }

  /** Every element of `s` except `x`, in order. */
  function RemoveAll<T(==)>(s: seq<T>, x: T): (r: seq<T>)
    ensures |r| <= |s|
    ensures x !in r
    ensures forall x | x in r :: x in s
    decreases |s|
  {
    if s == [] then []
    else (if s[0] == x then [] else [s[0]]) + RemoveAll(s[1..], x)
  }

  lemma RemoveAbsent<T>(s: seq<T>, x: T)
    requires x !in s
    ensures RemoveAll(s, x) == s
  {
  }
}
