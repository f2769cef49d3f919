/**
 * The few java.lang.String operations the tool relies on: startsWith,
 * substring, lastIndexOf, compareTo and split on a single separator
 * character, with Java's rules for empty trailing pieces.
 */
module JavaStrings {

  /** `s.startsWith(p)` */
  predicate StartsWith(s: string, p: string) {
    |p| <= |s| && s[..|p|] == p
  }

  /** `p` occurs in `s` starting at index `i` */
  predicate OccursAt(s: string, p: string, i: int) {
    0 <= i && i + |p| <= |s| && s[i..i + |p|] == p
  }

  /** The largest index `i <= k` at which `p` occurs in `s`, or -1 when there is none. */
  function LastIndexAtOrBefore(s: string, p: string, k: int): (r: int)
    ensures r == -1 || (OccursAt(s, p, r) && r <= k)
    ensures forall i :: r < i <= k ==> !OccursAt(s, p, i)
    decreases k + 1
  {
    if k < 0 then -1
    else if OccursAt(s, p, k) then k
    else LastIndexAtOrBefore(s, p, k - 1)
  }

  /** `s.lastIndexOf(p)`: the last index at which `p` occurs in `s`, -1 when it does not occur */
  function LastIndexOf(s: string, p: string): (r: int)
    ensures r == -1 || OccursAt(s, p, r)
    ensures forall i :: r < i ==> !OccursAt(s, p, i)
  {
    LastIndexAtOrBefore(s, p, |s| - |p|)
  }

  /**
   * `a.compareTo(b)`: the difference of the first pair of characters that
   * differ, or the difference of the lengths when one string is a prefix of
   * the other.
   */
  function CompareStrings(a: string, b: string): int {
    if a == [] || b == [] then |a| - |b|
    else if a[0] != b[0] then a[0] as int - b[0] as int
    else CompareStrings(a[1..], b[1..])
  }

  /** compareTo is zero exactly on equal strings */
  lemma {:induction false} CompareStringsZero(a: string, b: string)
    ensures CompareStrings(a, b) == 0 <==> a == b
  {
    if a != [] && b != [] && a[0] == b[0] {
      CompareStringsZero(a[1..], b[1..]);
      assert a == [a[0]] + a[1..] && b == [b[0]] + b[1..];
    }
  }

  /** Swapping the operands negates compareTo */
  lemma {:induction false} CompareStringsAntisymmetric(a: string, b: string)
    ensures CompareStrings(a, b) == -CompareStrings(b, a)
  {
    if a != [] && b != [] && a[0] == b[0] {
      CompareStringsAntisymmetric(a[1..], b[1..]);
    }
  }

  /** compareTo orders strings transitively (strictly and non-strictly) */
  lemma {:induction false} CompareStringsTransitive(a: string, b: string, c: string)
    ensures CompareStrings(a, b) <= 0 && CompareStrings(b, c) <= 0 ==> CompareStrings(a, c) <= 0
    ensures CompareStrings(a, b) < 0 && CompareStrings(b, c) < 0 ==> CompareStrings(a, c) < 0
  {
    if a != [] && b != [] && c != [] && a[0] == b[0] == c[0] {
      CompareStringsTransitive(a[1..], b[1..], c[1..]);
    } else if a != [] && b != [] && c != [] && a[0] == b[0] {
      CompareStringsZero(a, b);
    }
  }

  /** `k` copies of the separator */
  function Repeat(sep: char, k: nat): (r: string)
    ensures |r| == k
    ensures forall i :: 0 <= i < k ==> r[i] == sep
  {
    if k == 0 then [] else [sep] + Repeat(sep, k - 1)
  }

  /** `k` empty strings */
  function Empties(k: nat): (r: seq<string>)
    ensures |r| == k
    ensures forall i :: 0 <= i < k ==> r[i] == []
  {
    if k == 0 then [] else [[]] + Empties(k - 1)
  }

  /** Every piece between separators, empty ones included: one more piece than separators. */
  function SplitAll(s: string, sep: char): (parts: seq<string>)
    ensures |parts| >= 1
    ensures forall i :: 0 <= i < |parts| ==> sep !in parts[i]
  {
    if s == [] then [[]]
    else if s[0] == sep then [[]] + SplitAll(s[1..], sep)
    else
      var rest := SplitAll(s[1..], sep);
      [[s[0]] + rest[0]] + rest[1..]
  }

  /** The pieces glued back together with the separator between them */
  function Join(parts: seq<string>, sep: char): string
    requires |parts| >= 1
  {
    if |parts| == 1 then parts[0] else parts[0] + [sep] + Join(parts[1..], sep)
  }

  /** Splitting and joining again gives back the original string */
  lemma {:induction false} JoinSplitAll(s: string, sep: char)
    ensures Join(SplitAll(s, sep), sep) == s
  {
    if s == [] {
    } else if s[0] == sep {
      JoinSplitAll(s[1..], sep);
      assert s == [sep] + s[1..];
    } else {
      JoinSplitAll(s[1..], sep);
      var rest := SplitAll(s[1..], sep);
      if |rest| == 1 {
        assert s == [s[0]] + rest[0];
      } else {
        assert rest[1..][1..] == rest[2..];
        assert s == [s[0]] + rest[0] + [sep] + Join(rest[1..], sep);
      }
    }
  }

  /** The list with its trailing empty strings removed */
  function DropTrailingEmpty(parts: seq<string>): (r: seq<string>)
    ensures |r| <= |parts| && r == parts[..|r|]
    ensures r == [] || r[|r| - 1] != []
    ensures forall i :: |r| <= i < |parts| ==> parts[i] == []
  {
    if parts == [] then []
    else if parts[|parts| - 1] == [] then DropTrailingEmpty(parts[..|parts| - 1])
    else parts
  }

  /**
   * `s.split(sep)` with the default limit of zero: when the separator does
   * not occur the whole string is the only piece, and otherwise the pieces
   * are those between separators with trailing empty ones removed.
   */
  function JavaSplit(s: string, sep: char): seq<string> {
    if sep !in s then [s] else DropTrailingEmpty(SplitAll(s, sep))
  }

  /** A string free of the separator splits into itself alone */
  lemma {:induction false} SplitAllNoSeparator(t: string, sep: char)
    requires sep !in t
    ensures SplitAll(t, sep) == [t]
  {
    if t != [] {
      SplitAllNoSeparator(t[1..], sep);
      assert t == [t[0]] + t[1..];
    }
  }

  /** A separator-free head followed by a separator becomes the first piece */
  lemma {:induction false} SplitAllHead(t: string, sep: char, rest: string)
    requires sep !in t
    ensures SplitAll(t + [sep] + rest, sep) == [t] + SplitAll(rest, sep)
  {
    if t == [] {
      assert t + [sep] + rest == [sep] + rest;
    } else {
      SplitAllHead(t[1..], sep, rest);
      assert (t + [sep] + rest)[1..] == t[1..] + [sep] + rest;
      assert t == [t[0]] + t[1..];
    }
  }

  /** A run of separators splits into one more empty piece than separators */
  lemma {:induction false} SplitAllRepeat(sep: char, k: nat)
    ensures SplitAll(Repeat(sep, k), sep) == Empties(k + 1)
  {
    if k > 0 {
      SplitAllRepeat(sep, k - 1);
      assert Repeat(sep, k)[1..] == Repeat(sep, k - 1);
    }
  }

  /** Trailing empty pieces after a non-empty last piece are dropped */
  lemma {:induction false} DropTrailingEmpties(parts: seq<string>, k: nat)
    requires parts != [] && parts[|parts| - 1] != []
    ensures DropTrailingEmpty(parts + Empties(k)) == parts
  {
    if k > 0 {
      assert (parts + Empties(k))[..|parts| + k - 1] == parts + Empties(k - 1);
      DropTrailingEmpties(parts, k - 1);
    } else {
      assert parts + Empties(0) == parts;
    }
  }

  /** Joining a piece followed by empty pieces appends that many separators */
  lemma {:induction false} JoinEmpties(x: string, sep: char, k: nat)
    ensures Join([x] + Empties(k), sep) == x + Repeat(sep, k)
    decreases k
  {
    if k > 0 {
      assert ([x] + Empties(k))[1..] == [[]] + Empties(k - 1);
      JoinEmpties([], sep, k - 1);
      assert [] + Repeat(sep, k - 1) == Repeat(sep, k - 1);
    }
  }

  /**
   * `s` is `t`, a separator, `c`, then any number of separators, where
   * neither piece holds the separator and `c` is not empty.
   */
  predicate TwoPieces(s: string, sep: char, t: string, c: string) {
    sep !in t && sep !in c && c != [] &&
    |s| >= |t| + 1 + |c| && s == t + [sep] + c + Repeat(sep, |s| - |t| - 1 - |c|)
  }

  /** `split` yields exactly the two pieces `t` and `c` if and only if `s` has that shape */
  lemma SplitInTwo(s: string, sep: char, t: string, c: string)
    ensures JavaSplit(s, sep) == [t, c] <==> TwoPieces(s, sep, t, c)
  {
    if JavaSplit(s, sep) == [t, c] {
      SplitInTwoSound(s, sep, t, c);
    } else if TwoPieces(s, sep, t, c) {
      SplitInTwoComplete(t, sep, c, |s| - |t| - 1 - |c|);
    }
  }

  lemma {:induction false} SplitInTwoSound(s: string, sep: char, t: string, c: string)
    requires JavaSplit(s, sep) == [t, c]
    ensures TwoPieces(s, sep, t, c)
  {
    assert sep in s;
    var parts := SplitAll(s, sep);
    assert parts[..2] == [t, c];
    var m := |parts| - 2;
    assert parts == [t, c] + Empties(m);
    JoinSplitAll(s, sep);
    assert ([t, c] + Empties(m))[1..] == [c] + Empties(m);
    JoinEmpties(c, sep, m);
    assert s == t + [sep] + (c + Repeat(sep, m));
  }

  lemma SplitInTwoComplete(t: string, sep: char, c: string, k: nat)
    requires sep !in t && sep !in c && c != []
    ensures JavaSplit(t + [sep] + c + Repeat(sep, k), sep) == [t, c]
  {
    if k == 0 {
      assert t + [sep] + c + Repeat(sep, k) == t + [sep] + c;
      SplitExactlyTwo(t, sep, c);
    } else {
      SplitTwoWithTrailing(t, sep, c, k);
    }
  }

  /** `t`, a separator and `c` split into `t` and `c` */
  lemma SplitExactlyTwo(t: string, sep: char, c: string)
    requires sep !in t && sep !in c && c != []
    ensures JavaSplit(t + [sep] + c, sep) == [t, c]
  {
    var s := t + [sep] + c;
    assert s[|t|] == sep;
    SplitAllHead(t, sep, c);
    SplitAllNoSeparator(c, sep);
    DropTrailingEmpties([t, c], 0);
    assert [t, c] + Empties(0) == [t, c];
  }

  /** Separators after `t`, a separator and `c` leave only empty pieces, which are dropped */
  lemma SplitTwoWithTrailing(t: string, sep: char, c: string, k: nat)
    requires sep !in t && sep !in c && c != [] && k > 0
    ensures JavaSplit(t + [sep] + c + Repeat(sep, k), sep) == [t, c]
  {
    var s := t + [sep] + c + Repeat(sep, k);
    assert s[|t|] == sep;
    assert s == t + [sep] + (c + [sep] + Repeat(sep, k - 1)) by {
      assert Repeat(sep, k) == [sep] + Repeat(sep, k - 1);
    }
    SplitAllHead(t, sep, c + [sep] + Repeat(sep, k - 1));
    SplitAllHead(c, sep, Repeat(sep, k - 1));
    SplitAllRepeat(sep, k - 1);
    DropTrailingEmpties([t, c], k);
    assert [t] + ([c] + Empties(k)) == [t, c] + Empties(k);
  }
}
