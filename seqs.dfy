/** Sequence and string helpers shared by the model: filtering (a pandas boolean mask),
    splitting and joining (Python's `str.split` and `str.join`), substring tests
    (Python's `in` on strings) and order-preserving subsequences. */
module Seqs {

  /** The elements of `s` that satisfy `p`, in their original order. */
  function Keep<T(!new)>(s: seq<T>, p: T -> bool): (r: seq<T>)
    ensures |r| <= |s|
    ensures forall i :: 0 <= i < |r| ==> p(r[i])
    ensures forall x :: multiset(r)[x] == if p(x) then multiset(s)[x] else 0
  {
    if s == [] then []
    else
      assert s == [s[0]] + s[1..];
      (if p(s[0]) then [s[0]] else []) + Keep(s[1..], p)
  }

  /** Membership in a filtered sequence. */
  lemma {:induction false} KeepMembers<T(!new)>(s: seq<T>, p: T -> bool, x: T)
    ensures x in Keep(s, p) <==> x in s && p(x)
  {
    if s != [] {
      KeepMembers(s[1..], p, x);
      assert Keep(s, p) == (if p(s[0]) then [s[0]] else []) + Keep(s[1..], p);
      assert s == [s[0]] + s[1..];
    }
  }

  /** Filtering keeps the order of what it keeps. */
  lemma {:induction false} KeepIsSubsequence<T(!new)>(s: seq<T>, p: T -> bool)
    ensures IsSubsequence(Keep(s, p), s)
  {
    if s != [] {
      KeepIsSubsequence(s[1..], p);
      var r := Keep(s, p);
      if p(s[0]) {
        assert r == [s[0]] + Keep(s[1..], p);
        assert r[1..] == Keep(s[1..], p);
      } else {
        assert r == Keep(s[1..], p);
      }
    }
  }

  lemma {:induction false} KeepAppend<T(!new)>(a: seq<T>, b: seq<T>, p: T -> bool)
    ensures Keep(a + b, p) == Keep(a, p) + Keep(b, p)
  {
    if a == [] {
      assert a + b == b;
    } else {
      assert (a + b)[1..] == a[1..] + b;
      KeepAppend(a[1..], b, p);
    }
  }

  lemma {:induction false} KeepAll<T(!new)>(s: seq<T>, p: T -> bool)
    requires forall i :: 0 <= i < |s| ==> p(s[i])
    ensures Keep(s, p) == s
  {
    if s != [] {
      KeepAll(s[1..], p);
    }
  }

  /** Filtering twice is filtering once by the conjunction. */
  lemma {:induction false} KeepKeep<T(!new)>(s: seq<T>, p: T -> bool, q: T -> bool, pq: T -> bool)
    requires forall x :: pq(x) == (p(x) && q(x))
    ensures Keep(Keep(s, p), q) == Keep(s, pq)
  {
    if s != [] {
      KeepKeep(s[1..], p, q, pq);
      var head := if p(s[0]) then [s[0]] else [];
      KeepAppend(head, Keep(s[1..], p), q);
      assert Keep(s, p) == head + Keep(s[1..], p);
      if p(s[0]) {
        assert Keep(head, q) == (if q(s[0]) then [s[0]] else []) + Keep(head[1..], q);
      }
    }
  }

  /** Filters that agree everywhere give the same result. */
  lemma {:induction false} KeepSame<T(!new)>(s: seq<T>, p: T -> bool, q: T -> bool)
    requires forall x :: p(x) == q(x)
    ensures Keep(s, p) == Keep(s, q)
  {
    if s != [] {
      KeepSame(s[1..], p, q);
    }
  }

  /** Rejected elements at the front do not contribute. */
  lemma {:induction false} KeepDropsRejectedPrefix<T(!new)>(s: seq<T>, p: T -> bool, k: nat)
    requires k <= |s|
    requires forall i :: 0 <= i < k ==> !p(s[i])
    ensures Keep(s, p) == Keep(s[k..], p)
  {
    if k > 0 {
      KeepDropsRejectedPrefix(s[1..], p, k - 1);
      assert s[1..][k - 1..] == s[k..];
    }
  }

  /** `f` applied to every element (a list comprehension `[f(x) for x in s]`). */
  function MapSeq<A, B>(f: A -> B, s: seq<A>): (r: seq<B>)
    ensures |r| == |s|
    ensures forall i :: 0 <= i < |s| ==> r[i] == f(s[i])
  {
    seq(|s|, i requires 0 <= i < |s| => f(s[i]))
  }

  /** The images of the kept elements. */
  lemma MapKeepMembers<A(!new), B(!new)>(f: A -> B, s: seq<A>, p: A -> bool, y: B)
    ensures y in MapSeq(f, Keep(s, p)) <==> exists x :: x in s && p(x) && y == f(x)
  {
    var kept := Keep(s, p);
    if y in MapSeq(f, kept) {
      var i :| 0 <= i < |kept| && MapSeq(f, kept)[i] == y;
      KeepMembers(s, p, kept[i]);
    }
    if exists x :: x in s && p(x) && y == f(x) {
      var x :| x in s && p(x) && y == f(x);
      KeepMembers(s, p, x);
      var i :| 0 <= i < |kept| && kept[i] == x;
      assert MapSeq(f, kept)[i] == y;
    }
  }

  /** `a` is obtained from `b` by deleting elements, keeping the order of the rest. */
  ghost predicate IsSubsequence<T>(a: seq<T>, b: seq<T>)
    decreases |b|
  {
    a == [] || (b != [] && ((a[0] == b[0] && IsSubsequence(a[1..], b[1..])) || IsSubsequence(a, b[1..])))
  }

  lemma {:induction false} SubsequenceRefl<T>(s: seq<T>)
    ensures IsSubsequence(s, s)
  {
    if s != [] {
      SubsequenceRefl(s[1..]);
    }
  }

  lemma {:induction false} SubsequenceTrans<T>(a: seq<T>, b: seq<T>, c: seq<T>)
    requires IsSubsequence(a, b) && IsSubsequence(b, c)
    ensures IsSubsequence(a, c)
    decreases |c|
  {
    if a != [] {
      if b[0] == c[0] && IsSubsequence(b[1..], c[1..]) {
        if a[0] == b[0] && IsSubsequence(a[1..], b[1..]) {
          SubsequenceTrans(a[1..], b[1..], c[1..]);
        } else {
          SubsequenceTrans(a, b[1..], c[1..]);
        }
      } else {
        SubsequenceTrans(a, b, c[1..]);
      }
    }
  }

  /** No two positions of `s` hold the same value. */
  predicate Distinct<T(==)>(s: seq<T>) {
    forall i, j :: 0 <= i < j < |s| ==> s[i] != s[j]
  }

  /** Python's `needle in hay` on strings: `needle` occurs contiguously in `hay`. */
  predicate IsSubstring<T(==)>(needle: seq<T>, hay: seq<T>) {
    exists k :: 0 <= k <= |hay| - |needle| && OccursAt(needle, hay, k)
  }

  /** `needle` occurs in `hay` starting at position `k`. */
  predicate OccursAt<T(==)>(needle: seq<T>, hay: seq<T>, k: int) {
    0 <= k <= |hay| - |needle| && hay[k..k + |needle|] == needle
  }

  lemma SliceIsSubstring<T>(hay: seq<T>, i: nat, j: nat)
    requires i <= j <= |hay|
    ensures IsSubstring(hay[i..j], hay)
  {
    assert OccursAt(hay[i..j], hay, i);
  }

  lemma SubstringTrans<T>(a: seq<T>, b: seq<T>, c: seq<T>)
    requires IsSubstring(a, b) && IsSubstring(b, c)
    ensures IsSubstring(a, c)
  {
    var k1 :| 0 <= k1 <= |b| - |a| && OccursAt(a, b, k1);
    var k2 :| 0 <= k2 <= |c| - |b| && OccursAt(b, c, k2);
    forall i | 0 <= i < |a| ensures c[k2 + k1 + i] == a[i] {
      assert c[k2..k2 + |b|][k1 + i] == b[k1 + i];
      assert b[k1..k1 + |a|][i] == a[i];
    }
    assert c[k2 + k1..k2 + k1 + |a|] == a;
    assert OccursAt(a, c, k2 + k1);
  }

  /** No character of `s` belongs to `seps`. */
  predicate NoneIn(s: string, seps: set<char>) {
    forall j :: 0 <= j < |s| ==> s[j] !in seps
  }

  /** Python's `s.split(sep)` for a one-character separator, and `re.split('[...]', s)`
      for a character class: the maximal separator-free pieces, empty ones included. */
  function SplitOn(s: string, seps: set<char>): (parts: seq<string>)
    ensures |parts| >= 1
    ensures forall i :: 0 <= i < |parts| ==> NoneIn(parts[i], seps)
    ensures |parts[0]| <= |s| && s[..|parts[0]|] == parts[0]
  {
    if s == [] then [""]
    else
      var rest := SplitOn(s[1..], seps);
      if s[0] in seps then [""] + rest else [[s[0]] + rest[0]] + rest[1..]
  }

  /** Python's `sep.join(parts)`. */
  function Join(parts: seq<string>, sep: string): string {
    if parts == [] then ""
    else if |parts| == 1 then parts[0]
    else parts[0] + sep + Join(parts[1..], sep)
  }

  /** Every piece of a split occurs in the split string. */
  lemma {:induction false} SplitPieceIsSubstring(s: string, seps: set<char>, i: nat)
    requires i < |SplitOn(s, seps)|
    ensures IsSubstring(SplitOn(s, seps)[i], s)
  {
    var parts := SplitOn(s, seps);
    if s == [] {
      assert OccursAt(parts[0], s, 0);
    } else if i == 0 {
      SliceIsSubstring(s, 0, |parts[0]|);
      assert s[0..|parts[0]|] == parts[0];
    } else {
      var rest := SplitOn(s[1..], seps);
      var j: nat := if s[0] in seps then i - 1 else i;
      assert parts[i] == rest[j];
      SplitPieceIsSubstring(s[1..], seps, j);
      SliceIsSubstring(s, 1, |s|);
      assert s[1..|s|] == s[1..];
      SubstringTrans(parts[i], s[1..], s);
    }
  }

  /** A piece kept from a split occurs in the split string. */
  lemma KeptPieceIsSubstring(s: string, seps: set<char>, p: string -> bool, piece: string)
    requires piece in Keep(SplitOn(s, seps), p)
    ensures IsSubstring(piece, s)
  {
    var pieces := SplitOn(s, seps);
    KeepMembers(pieces, p, piece);
    var k :| 0 <= k < |pieces| && pieces[k] == piece;
    SplitPieceIsSubstring(s, seps, k);
  }

  /** A separator-free prefix and a separator split off exactly one leading piece. */
  lemma {:induction false} SplitAfterFirst(a: string, c: char, rest: string, seps: set<char>)
    requires c in seps && NoneIn(a, seps)
    ensures SplitOn(a + [c] + rest, seps) == [a] + SplitOn(rest, seps)
  {
    if a == [] {
      assert ([c] + rest)[1..] == rest;
    } else {
      assert (a + [c] + rest)[1..] == a[1..] + [c] + rest;
      SplitAfterFirst(a[1..], c, rest, seps);
      assert [a[0]] + a[1..] == a;
    }
  }

  /** Joining the pieces of a one-character split restores the string. */
  lemma {:induction false} JoinSplit(s: string, c: char)
    ensures Join(SplitOn(s, {c}), [c]) == s
  {
    if s != [] {
      JoinSplit(s[1..], c);
      var rest := SplitOn(s[1..], {c});
      if s[0] != c {
        if |rest| > 1 {
          assert Join(rest, [c]) == rest[0] + [c] + Join(rest[1..], [c]);
          assert [s[0]] + rest[0] + [c] + Join(rest[1..], [c]) == [s[0]] + (rest[0] + [c] + Join(rest[1..], [c]));
        }
        assert s == [s[0]] + s[1..];
      } else {
        assert s == [c] + s[1..];
      }
    }
  }

  /** Splitting a join of separator-free pieces gives the pieces back. */
  lemma {:induction false} SplitJoin(parts: seq<string>, c: char)
    requires |parts| >= 1
    requires forall i :: 0 <= i < |parts| ==> NoneIn(parts[i], {c})
    ensures SplitOn(Join(parts, [c]), {c}) == parts
  {
    if |parts| == 1 {
      SplitNoSeparator(parts[0], {c});
    } else {
      SplitJoin(parts[1..], c);
      SplitAfterFirst(parts[0], c, Join(parts[1..], [c]), {c});
      assert Join(parts, [c]) == parts[0] + [c] + Join(parts[1..], [c]);
      assert [parts[0]] + parts[1..] == parts;
    }
  }

  lemma {:induction false} SplitNoSeparator(s: string, seps: set<char>)
    requires NoneIn(s, seps)
    ensures SplitOn(s, seps) == [s]
  {
    if s != [] {
      SplitNoSeparator(s[1..], seps);
      assert [s[0]] + s[1..] == s;
    }
  }
}
