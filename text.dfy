/** `normalize_text` (utils/data_utils.py and, textually identical, app.py): strip, canonical
    decomposition, removal of combining marks, lower-casing and collapsing of whitespace runs.
    The character tables are the parts of Unicode the model covers: Python's whitespace set in
    full, the Combining Diacritical Marks block, and the Latin-1 letters for decomposition and
    case. */
module Text {
  import opened Seqs

  /** Python's `str.isspace`, which is also the class `\s` matches in a `str` pattern. */
  predicate IsSpace(c: char) {
    var n := c as int;
    n == 0x20 || 0x09 <= n <= 0x0D || 0x1C <= n <= 0x1F || n == 0x85 || n == 0xA0 || n == 0x1680
    || 0x2000 <= n <= 0x200A || n == 0x2028 || n == 0x2029 || n == 0x202F || n == 0x205F || n == 0x3000
  }

  predicate NotSpace(c: char) {
    !IsSpace(c)
  }

  /** `unicodedata.combining(c) != 0`, restricted to the Combining Diacritical Marks block;
      U+034F (combining grapheme joiner) has combining class 0 and is kept. */
  predicate IsCombining(c: char) {
    0x300 <= c as int <= 0x36F && c as int != 0x34F
  }

  /** `str.lower` on one character, for ASCII and Latin-1 capitals. */
  function Lower(c: char): char {
    var n := c as int;
    if 'A' as int <= n <= 'Z' as int || (0xC0 <= n <= 0xDE && n != 0xD7) then (n + 0x20) as char else c
  }

  /** Base letter of the canonical decomposition of a Latin-1 capital U+00C0..U+00DD, or 0. */
  function LatinBase(n: int): int {
    if 0xC0 <= n <= 0xC5 then 'A' as int
    else if n == 0xC7 then 'C' as int
    else if 0xC8 <= n <= 0xCB then 'E' as int
    else if 0xCC <= n <= 0xCF then 'I' as int
    else if n == 0xD1 then 'N' as int
    else if 0xD2 <= n <= 0xD6 then 'O' as int
    else if 0xD9 <= n <= 0xDC then 'U' as int
    else if n == 0xDD then 'Y' as int
    else 0
  }

  /** Combining mark of that decomposition (grave, acute, circumflex, tilde, diaeresis, ring, cedilla). */
  function LatinMark(n: int): int {
    if n == 0xC0 || n == 0xC8 || n == 0xCC || n == 0xD2 || n == 0xD9 then 0x300
    else if n == 0xC1 || n == 0xC9 || n == 0xCD || n == 0xD3 || n == 0xDA || n == 0xDD then 0x301
    else if n == 0xC2 || n == 0xCA || n == 0xCE || n == 0xD4 || n == 0xDB then 0x302
    else if n == 0xC3 || n == 0xD1 || n == 0xD5 then 0x303
    else if n == 0xC4 || n == 0xCB || n == 0xCF || n == 0xD6 || n == 0xDC then 0x308
    else if n == 0xC5 then 0x30A
    else 0x327
  }

  /** `unicodedata.normalize('NFD', c)` on one character. */
  function Decompose(c: char): seq<char> {
    var n := c as int;
    if 0xC0 <= n <= 0xDD && LatinBase(n) != 0 then
      [LatinBase(n) as char, LatinMark(n) as char]
    else if 0xE0 <= n <= 0xFD && LatinBase(n - 0x20) != 0 then
      [(LatinBase(n - 0x20) + 0x20) as char, LatinMark(n - 0x20) as char]
    else if n == 0xFF then
      ['y', 0x308 as char]
    else
      [c]
  }

  /** `c` is its own canonical decomposition. */
  predicate Decomposed(c: char) {
    Decompose(c) == [c]
  }

  /** A character that can occur in a `normalize_text` result. */
  predicate Canonical(c: char) {
    Decomposed(c) && !IsCombining(c) && Lower(c) == c
  }

  lemma DecomposeIsDecomposed(c: char)
    ensures forall i :: 0 <= i < |Decompose(c)| ==> Decomposed(Decompose(c)[i])
  {
  }

  lemma LowerOfDecomposed(c: char)
    requires Decomposed(c) && !IsCombining(c)
    ensures Canonical(Lower(c))
  {
  }

  /** Number of whitespace characters at the front. */
  function LeadingSpaces(s: string): (n: nat)
    ensures n <= |s|
    ensures forall i :: 0 <= i < n ==> IsSpace(s[i])
    ensures n < |s| ==> !IsSpace(s[n])
  {
    if s == [] || !IsSpace(s[0]) then 0 else 1 + LeadingSpaces(s[1..])
  }

  /** Number of whitespace characters at the end. */
  function TrailingSpaces(s: string): (n: nat)
    ensures n <= |s|
    ensures forall i :: |s| - n <= i < |s| ==> IsSpace(s[i])
    ensures n < |s| ==> !IsSpace(s[|s| - 1 - n])
  {
    if s == [] || !IsSpace(s[|s| - 1]) then 0 else 1 + TrailingSpaces(s[..|s| - 1])
  }

  /** Python's `s.strip()`: the middle part of `s` between leading and trailing whitespace. */
  function Strip(s: string): (r: string)
    ensures r == [] || (!IsSpace(r[0]) && !IsSpace(r[|r| - 1]))
    ensures LeadingSpaces(s) + |r| <= |s| && r == s[LeadingSpaces(s)..LeadingSpaces(s) + |r|]
    ensures forall i :: 0 <= i < LeadingSpaces(s) ==> IsSpace(s[i])
    ensures forall i :: LeadingSpaces(s) + |r| <= i < |s| ==> IsSpace(s[i])
  {
    var a := LeadingSpaces(s);
    var n := TrailingSpaces(s[a..]);
    TrailOfRest(s, a, n);
    s[a..|s| - n]
  }

  lemma TrailOfRest(s: string, a: nat, n: nat)
    requires a <= |s| && n == TrailingSpaces(s[a..])
    ensures a <= |s| - n
    ensures forall i :: |s| - n <= i < |s| ==> IsSpace(s[i])
    ensures a < |s| - n ==> !IsSpace(s[|s| - n - 1])
  {
    var t := s[a..];
    assert forall k :: 0 <= k < |t| ==> t[k] == s[a + k];
  }

  /** Stripping twice is stripping once. */
  lemma StripOfStripped(s: string)
    ensures Strip(Strip(s)) == Strip(s)
  {
    var u := Strip(s);
    if u != [] {
      assert LeadingSpaces(u) == 0;
      assert u[0..] == u;
      assert TrailingSpaces(u) == 0;
    }
  }

  lemma StripIsSubstring(s: string)
    ensures IsSubstring(Strip(s), s)
  {
    SliceIsSubstring(s, LeadingSpaces(s), LeadingSpaces(s) + |Strip(s)|);
  }

  /** NFD of a whole string. */
  function Nfd(s: string): (r: string)
    ensures forall i :: 0 <= i < |r| ==> Decomposed(r[i])
  {
    if s == [] then []
    else
      DecomposeIsDecomposed(s[0]);
      Decompose(s[0]) + Nfd(s[1..])
  }

  lemma {:induction false} NfdOfDecomposed(s: string)
    requires forall i :: 0 <= i < |s| ==> Decomposed(s[i])
    ensures Nfd(s) == s
  {
    if s != [] {
      NfdOfDecomposed(s[1..]);
      assert [s[0]] + s[1..] == s;
    }
  }

  /** `''.join(ch for ch in s if not unicodedata.combining(ch))` */
  function RemoveMarks(s: string): string {
    Keep(s, NotCombining)
  }

  predicate NotCombining(c: char) {
    !IsCombining(c)
  }

  /** `s.lower()` */
  function LowerAll(s: string): string {
    MapSeq(Lower, s)
  }

  /** No whitespace but the plain space, and never two spaces in a row. */
  predicate Collapsed(s: string) {
    && (forall i :: 0 <= i < |s| && IsSpace(s[i]) ==> s[i] == ' ')
    && (forall i :: 0 <= i < |s| - 1 ==> s[i] != ' ' || s[i + 1] != ' ')
  }

  /** `re.sub(r'\s+', ' ', s)`: every maximal run of whitespace becomes one space. */
  function Collapse(s: string): (r: string)
    ensures Collapsed(r)
    ensures s == [] <==> r == []
    ensures s != [] ==> r[0] == if IsSpace(s[0]) then ' ' else s[0]
    decreases |s|
  {
    if s == [] then []
    else if IsSpace(s[0]) then [' '] + Collapse(DropSpaces(s[1..]))
    else [s[0]] + Collapse(s[1..])
  }

  /** `s` without its leading whitespace. */
  function DropSpaces(s: string): (r: string)
    ensures |r| <= |s|
    ensures r == [] || !IsSpace(r[0])
  {
    s[LeadingSpaces(s)..]
  }

  /** Collapsing only rewrites whitespace: the other characters are kept, in order. */
  lemma {:induction false} CollapseKeepsText(s: string)
    ensures Keep(Collapse(s), NotSpace) == Keep(s, NotSpace)
    decreases |s|
  {
    if s != [] {
      if IsSpace(s[0]) {
        CollapseKeepsText(DropSpaces(s[1..]));
        KeepDropsRejectedPrefix(s[1..], NotSpace, LeadingSpaces(s[1..]));
      } else {
        CollapseKeepsText(s[1..]);
      }
    }
  }

  /** The leading whitespace run is the unique `n` with whitespace before it and none at it. */
  lemma LeadingSpacesIs(s: string, n: nat)
    requires n <= |s| && (forall i :: 0 <= i < n ==> IsSpace(s[i]))
    requires n < |s| ==> !IsSpace(s[n])
    ensures LeadingSpaces(s) == n
  {
    var m := LeadingSpaces(s);
    assert m < |s| ==> !IsSpace(s[m]);
    assert n < |s| ==> !IsSpace(s[n]);
  }

  /** Each maximal run of whitespace becomes exactly one space: a run `w` between a text that
      does not end in whitespace and one that does not start with it collapses to `" "`. */
  lemma {:induction false} CollapseRun(a: string, w: string, b: string)
    requires a == [] || !IsSpace(a[|a| - 1])
    requires w != [] && forall i :: 0 <= i < |w| ==> IsSpace(w[i])
    requires b == [] || !IsSpace(b[0])
    ensures Collapse(a + w + b) == Collapse(a) + " " + Collapse(b)
    decreases |a|, 1
  {
    if a == [] {
      CollapseRunEmpty(a, w, b);
    } else if IsSpace(a[0]) {
      CollapseRunSpace(a, w, b);
    } else {
      CollapseRunText(a, w, b);
    }
    Assoc(Collapse(a), " ", Collapse(b));
  }

  /** `CollapseRun` when `a` starts with whitespace. */
  lemma {:induction false} CollapseRunSpace(a: string, w: string, b: string)
    requires a != [] && IsSpace(a[0]) && !IsSpace(a[|a| - 1])
    requires w != [] && forall i :: 0 <= i < |w| ==> IsSpace(w[i])
    requires b == [] || !IsSpace(b[0])
    ensures Collapse(a + w + b) == Collapse(a) + (" " + Collapse(b))
    decreases |a|, 0
  {
    SpacesBeforeText(a, w, b);
    var d := DropSpaces(a[1..]);
    CollapseRun(d, w, b);
    Assoc(Collapse(d), " ", Collapse(b));
    CollapseRunAfterSpace(a, a + w + b, d, d + w + b, " " + Collapse(b));
  }

  /** `CollapseRun` when `a` starts with another character. */
  lemma {:induction false} CollapseRunText(a: string, w: string, b: string)
    requires a != [] && !IsSpace(a[0]) && !IsSpace(a[|a| - 1])
    requires w != [] && forall i :: 0 <= i < |w| ==> IsSpace(w[i])
    requires b == [] || !IsSpace(b[0])
    ensures Collapse(a + w + b) == Collapse(a) + (" " + Collapse(b))
    decreases |a|, 0
  {
    assert (a + w + b)[1..] == a[1..] + w + b;
    CollapseRun(a[1..], w, b);
    Assoc(Collapse(a[1..]), " ", Collapse(b));
    CollapseRunAfterText(a, a + w + b, a[1..] + w + b, " " + Collapse(b));
  }

  /** A leading whitespace run collapses to one space. */
  lemma CollapseRunEmpty(a: string, w: string, b: string)
    requires a == []
    requires w != [] && forall i :: 0 <= i < |w| ==> IsSpace(w[i])
    requires b == [] || !IsSpace(b[0])
    ensures Collapse(a + w + b) == Collapse(a) + (" " + Collapse(b))
  {
    calc {
      Collapse(a + w + b);
    == { assert a + w + b == w + b; }
      Collapse(w + b);
    == { CollapseLeadingRun(w, b); }
      [] + (" " + Collapse(b));
    == { assert Collapse(a) == []; }
      Collapse(a) + (" " + Collapse(b));
    }
  }

  lemma CollapseLeadingRun(w: string, b: string)
    requires w != [] && forall i :: 0 <= i < |w| ==> IsSpace(w[i])
    requires b == [] || !IsSpace(b[0])
    ensures Collapse(w + b) == [] + (" " + Collapse(b))
  {
    SpacesThenText(w, b);
    assert Collapse(w + b) == [' '] + Collapse(DropSpaces((w + b)[1..]));
  }

  /** After the first character of a whitespace run, dropping spaces lands on what follows it. */
  lemma SpacesThenText(w: string, b: string)
    requires w != [] && forall i :: 0 <= i < |w| ==> IsSpace(w[i])
    requires b == [] || !IsSpace(b[0])
    ensures w + b != [] && IsSpace((w + b)[0])
    ensures DropSpaces((w + b)[1..]) == b
  {
    var t := (w + b)[1..];
    assert t == w[1..] + b;
    LeadingSpacesIs(t, |w| - 1);
    assert t[|w| - 1..] == b;
  }

  /** Dropping the spaces after a leading one stops inside `a`, which ends in another character. */
  lemma SpacesBeforeText(a: string, w: string, b: string)
    requires a != [] && IsSpace(a[0]) && !IsSpace(a[|a| - 1])
    ensures a + w + b != [] && IsSpace((a + w + b)[0])
    ensures DropSpaces((a + w + b)[1..]) == DropSpaces(a[1..]) + w + b
    ensures |DropSpaces(a[1..])| < |a| && DropSpaces(a[1..]) != []
    ensures DropSpaces(a[1..])[|DropSpaces(a[1..])| - 1] == a[|a| - 1]
  {
    var rest := w + b;
    var k := LeadingSpaces(a[1..]);
    assert k < |a| - 1;
    assert (a + w + b)[1..] == a[1..] + rest;
    LeadingSpacesIs(a[1..] + rest, k);
    assert (a[1..] + rest)[k..] == a[1..][k..] + rest;
    assert a[1..][k..] + rest == DropSpaces(a[1..]) + w + b;
  }

  /** The step of `CollapseRun` for a text starting with whitespace. */
  lemma CollapseRunAfterSpace(a: string, s: string, d: string, rest: string, tail: string)
    requires a != [] && s != [] && IsSpace(a[0]) && IsSpace(s[0])
    requires d == DropSpaces(a[1..]) && rest == DropSpaces(s[1..])
    requires Collapse(rest) == Collapse(d) + tail
    ensures Collapse(s) == Collapse(a) + tail
  {
    assert Collapse(s) == [' '] + Collapse(rest);
    assert Collapse(a) == [' '] + Collapse(d);
    ConsAssoc(' ', Collapse(d), tail);
  }

  /** The step of `CollapseRun` for a text starting with another character. */
  lemma CollapseRunAfterText(a: string, s: string, rest: string, tail: string)
    requires a != [] && s != [] && s[0] == a[0] && !IsSpace(a[0]) && rest == s[1..]
    requires Collapse(rest) == Collapse(a[1..]) + tail
    ensures Collapse(s) == Collapse(a) + tail
  {
    assert Collapse(s) == [a[0]] + Collapse(rest);
    assert Collapse(a) == [a[0]] + Collapse(a[1..]);
    ConsAssoc(a[0], Collapse(a[1..]), tail);
  }

  lemma Assoc(p: string, q: string, r: string)
    ensures p + (q + r) == (p + q) + r
  {
  }

  lemma ConsAssoc(c: char, p: string, q: string)
    ensures [c] + (p + q) == ([c] + p) + q
  {
  }

  /** Every character of the result is a space or a character of the input. */
  lemma {:induction false} CollapseChars(s: string)
    ensures forall i :: 0 <= i < |Collapse(s)| ==> Collapse(s)[i] == ' ' || Collapse(s)[i] in s
    decreases |s|
  {
    if s != [] {
      var r := Collapse(s);
      if IsSpace(s[0]) {
        var d := DropSpaces(s[1..]);
        CollapseChars(d);
        assert forall x :: x in d ==> x in s;
        assert r == [' '] + Collapse(d);
      } else {
        CollapseChars(s[1..]);
        assert r == [s[0]] + Collapse(s[1..]);
      }
    }
  }

  lemma {:induction false} CollapseOfCollapsed(s: string)
    requires Collapsed(s)
    ensures Collapse(s) == s
  {
    if s != [] {
      assert Collapsed(s[1..]);
      if IsSpace(s[0]) {
        assert LeadingSpaces(s[1..]) == 0;
        assert DropSpaces(s[1..]) == s[1..];
      }
      CollapseOfCollapsed(s[1..]);
      assert [s[0]] + s[1..] == s;
    }
  }

  /** After NFD and removal of the marks, every character is decomposed and unmarked. */
  lemma UnmarkedChars(s: string)
    ensures forall i :: 0 <= i < |RemoveMarks(Nfd(s))| ==>
      Decomposed(RemoveMarks(Nfd(s))[i]) && !IsCombining(RemoveMarks(Nfd(s))[i])
  {
    var d := Nfd(s);
    var u := RemoveMarks(d);
    forall i | 0 <= i < |u| ensures Decomposed(u[i]) && !IsCombining(u[i]) {
      KeepMembers(d, NotCombining, u[i]);
    }
  }

  /** Lower-casing decomposed, unmarked characters gives canonical ones. */
  lemma LoweredChars(u: string)
    requires forall i :: 0 <= i < |u| ==> Decomposed(u[i]) && !IsCombining(u[i])
    ensures forall i :: 0 <= i < |LowerAll(u)| ==> Canonical(LowerAll(u)[i])
  {
    forall i | 0 <= i < |u| ensures Canonical(LowerAll(u)[i]) {
      LowerOfDecomposed(u[i]);
    }
  }

  /** `normalize_text(s)` for a string cell. */
  function Normalize(s: string): (r: string)
    ensures Collapsed(r)
    ensures forall i :: 0 <= i < |r| ==> Canonical(r[i])
  {
    var unmarked := RemoveMarks(Nfd(Strip(s)));
    UnmarkedChars(Strip(s));
    var lowered := LowerAll(unmarked);
    LoweredChars(unmarked);
    CollapseChars(lowered);
    assert Canonical(' ');
    Collapse(lowered)
  }

  /** Normalizing twice only strips: a combining mark in front of whitespace can leave a
      leading or trailing space in a normalized string, which the second pass strips. */
  lemma NormalizeTwice(s: string)
    ensures Normalize(Normalize(s)) == Strip(Normalize(s))
  {
    var u := Strip(Normalize(s));
    StripOfNormalized(s);
    NfdOfDecomposed(u);
    assert RemoveMarks(Nfd(u)) == u by {
      KeepAll(u, NotCombining);
    }
    LowerAllOfCanonical(u);
    CollapseOfCollapsed(u);
  }

  lemma LowerAllOfCanonical(u: string)
    requires forall i :: 0 <= i < |u| ==> Canonical(u[i])
    ensures LowerAll(u) == u
  {
  }

  /** Stripping a normalized string keeps it collapsed and canonical. */
  lemma StripOfNormalized(s: string)
    ensures Collapsed(Strip(Normalize(s)))
    ensures forall i :: 0 <= i < |Strip(Normalize(s))| ==> Canonical(Strip(Normalize(s))[i])
  {
    var t := Normalize(s);
    var u := Strip(t);
    var a := LeadingSpaces(t);
    assert forall i :: 0 <= i < |u| ==> u[i] == t[a + i];
  }
}
