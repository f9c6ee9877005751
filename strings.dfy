/**
 * The JavaScript string built-ins the script relies on: `trim`, `split` and
 * `join` with a one-character separator, and the notion of a subsequence used
 * to say that a transformation only deletes.
 */
module Strings {

  /** ECMAScript LineTerminator: LF, CR, LINE SEPARATOR, PARAGRAPH SEPARATOR. */
  predicate IsLineTerminator(c: char) {
    c == '\n' || c == '\r' || c == '\U{2028}' || c == '\U{2029}'
  }

  /** ECMAScript WhiteSpace or LineTerminator: what `String.prototype.trim` removes. */
  predicate IsTrimmable(c: char) {
    IsLineTerminator(c) || IsWhiteSpace(c)
  }

  /** ECMAScript WhiteSpace: TAB, VT, FF, ZWNBSP and the space separators of Unicode. */
  predicate IsWhiteSpace(c: char) {
    || c == '\t' || c == '\U{000B}' || c == '\U{000C}' || c == ' '
    || c == '\U{00A0}' || c == '\U{FEFF}' || c == '\U{1680}'
    || ('\U{2000}' <= c <= '\U{200A}')
    || c == '\U{202F}' || c == '\U{205F}' || c == '\U{3000}'
  }

  /** An ASCII decimal digit: what the regex class `\d` matches, and what an array-index key is written in. */
  predicate IsDigit(c: char) {
    '0' <= c <= '9'
  }

  /** The first index at or after `i` that is not trimmable, or `|s|`. */
  function TrimStartIndex(s: string, i: nat): (a: nat)
    requires i <= |s|
    ensures i <= a <= |s|
    ensures forall k :: i <= k < a ==> IsTrimmable(s[k])
    ensures a < |s| ==> !IsTrimmable(s[a])
    decreases |s| - i
  {
    if i < |s| && IsTrimmable(s[i]) then TrimStartIndex(s, i + 1) else i
  }

  /** The end of `s[a..b]` once its trimmable suffix is dropped. */
  function TrimEndIndex(s: string, a: nat, b: nat): (e: nat)
    requires a <= b <= |s|
    ensures a <= e <= b
    ensures forall k :: e <= k < b ==> IsTrimmable(s[k])
    ensures a < e ==> !IsTrimmable(s[e - 1])
    decreases b
  {
    if a < b && IsTrimmable(s[b - 1]) then TrimEndIndex(s, a, b - 1) else b
  }

  /**
   * `String.prototype.trim`: the slice of `s` between its leading and its
   * trailing run of whitespace and line terminators.
   */
  function Trim(s: string): (r: string)
    ensures r == [] || (!IsTrimmable(r[0]) && !IsTrimmable(r[|r| - 1]))
  {
    var a := TrimStartIndex(s, 0);
    s[a..TrimEndIndex(s, a, |s|)]
  }

  /**
   * The trim of `s` is a slice `s[a..e]` with only whitespace and line
   * terminators before `a` and from `e` on.
   */
  lemma TrimSlice(s: string)
    ensures var a := TrimStartIndex(s, 0);
      var e := TrimEndIndex(s, a, |s|);
      && Trim(s) == s[a..e]
      && (forall k :: 0 <= k < a ==> IsTrimmable(s[k]))
      && (forall k :: e <= k < |s| ==> IsTrimmable(s[k]))
  {
  }

  /** A string that starts and ends with neither whitespace nor a line terminator is its own trim. */
  lemma TrimKeepsTrimmed(s: string)
    requires s == [] || (!IsTrimmable(s[0]) && !IsTrimmable(s[|s| - 1]))
    ensures Trim(s) == s
  {
    assert TrimStartIndex(s, 0) == 0;
    assert TrimEndIndex(s, 0, |s|) == |s|;
  }

  /** Number of occurrences of `c` in `s`. */
  function Count(s: string, c: char): nat
  {
    if s == [] then 0 else (if s[0] == c then 1 else 0) + Count(s[1..], c)
  }

  /** The lengths of the pieces added up. */
  function TotalLength(pieces: seq<string>): nat
  {
    if pieces == [] then 0 else |pieces[0]| + TotalLength(pieces[1..])
  }

  /**
   * `Array.prototype.join` with a one-character separator: the pieces in
   * order, one separator between neighbours and none at either end.
   */
  function JoinWith(pieces: seq<string>, sep: char): (r: string)
    ensures pieces != [] ==> pieces[0] <= r
    ensures pieces == [] ==> r == []
  {
    if pieces == [] then ""
    else if |pieces| == 1 then pieces[0]
    else pieces[0] + [sep] + JoinWith(pieces[1..], sep)
  }

  /** A join is as long as its pieces together plus one separator between each pair of neighbours. */
  lemma {:induction false} JoinLength(pieces: seq<string>, sep: char)
    requires pieces != []
    ensures |JoinWith(pieces, sep)| == TotalLength(pieces) + |pieces| - 1
    decreases |pieces|
  {
    if |pieces| > 1 {
      JoinLength(pieces[1..], sep);
    }
  }

  /** Index of the first `c` in `s`, or `|s|` when there is none. */
  function IndexOf(s: string, c: char): (r: nat)
    ensures r <= |s|
    ensures forall k :: 0 <= k < r ==> s[k] != c
    ensures r < |s| ==> s[r] == c
  {
    if s == [] then 0 else if s[0] == c then 0 else 1 + IndexOf(s[1..], c)
  }

  /**
   * `String.prototype.split` with a one-character separator: the pieces between
   * separators. Gluing them back with the separator gives `s` again.
   */
  function SplitOn(s: string, sep: char): (r: seq<string>)
    ensures |r| == Count(s, sep) + 1
    ensures forall i :: 0 <= i < |r| ==> sep !in r[i]
    ensures JoinWith(r, sep) == s
  {
    if s == [] then [[]]
    else
      var rest := SplitOn(s[1..], sep);
      if s[0] == sep then [[]] + rest
      else [[s[0]] + rest[0]] + rest[1..]
  }

  /** In a join of separator-free pieces, the first separator closes the first piece. */
  lemma JoinHead(a: seq<string>, sep: char)
    requires a != []
    requires forall i :: 0 <= i < |a| ==> sep !in a[i]
    ensures |a| == 1 ==> IndexOf(JoinWith(a, sep), sep) == |JoinWith(a, sep)|
    ensures |a| > 1 ==>
      && IndexOf(JoinWith(a, sep), sep) == |a[0]| < |JoinWith(a, sep)|
      && JoinWith(a, sep)[..|a[0]|] == a[0]
      && JoinWith(a, sep)[|a[0]| + 1..] == JoinWith(a[1..], sep)
  {
    if |a| > 1 {
      var j := JoinWith(a, sep);
      assert j == a[0] + [sep] + JoinWith(a[1..], sep);
      assert j[|a[0]|] == sep;
    }
  }

  /** Only one list of separator-free pieces joins to a given string. */
  lemma {:induction false} JoinInjective(a: seq<string>, b: seq<string>, sep: char)
    requires a != [] && b != []
    requires forall i :: 0 <= i < |a| ==> sep !in a[i]
    requires forall i :: 0 <= i < |b| ==> sep !in b[i]
    requires JoinWith(a, sep) == JoinWith(b, sep)
    ensures a == b
    decreases |a|
  {
    JoinHead(a, sep);
    JoinHead(b, sep);
    if |a| == 1 && |b| == 1 {
    } else if |a| == 1 || |b| == 1 {
      assert false;
    } else {
      JoinInjective(a[1..], b[1..], sep);
      assert a == [a[0]] + a[1..];
      assert b == [b[0]] + b[1..];
    }
  }

  /** Splitting undoes joining, for pieces that do not contain the separator. */
  lemma SplitJoin(pieces: seq<string>, sep: char)
    requires pieces != []
    requires forall i :: 0 <= i < |pieces| ==> sep !in pieces[i]
    ensures SplitOn(JoinWith(pieces, sep), sep) == pieces
  {
    JoinInjective(SplitOn(JoinWith(pieces, sep), sep), pieces, sep);
  }

  /** Joining two non-empty lists puts one separator between their joins. */
  lemma {:induction false} JoinAppend(a: seq<string>, b: seq<string>, sep: char)
    requires a != [] && b != []
    ensures JoinWith(a + b, sep) == JoinWith(a, sep) + [sep] + JoinWith(b, sep)
    decreases |a|
  {
    if |a| == 1 {
      assert (a + b)[1..] == b;
    } else {
      assert (a + b)[1..] == a[1..] + b;
      JoinAppend(a[1..], b, sep);
    }
  }

  /** `a` can be obtained from `b` by deleting elements, keeping the order of the rest. */
  predicate IsSubsequence<T(==)>(a: seq<T>, b: seq<T>)
    decreases |b|
  {
    || a == []
    || (b != [] && ((a[0] == b[0] && IsSubsequence(a[1..], b[1..])) || IsSubsequence(a, b[1..])))
  }

  /** A subsequence is never longer and holds nothing that was not there. */
  lemma {:induction false} SubsequenceBounds<T>(a: seq<T>, b: seq<T>)
    requires IsSubsequence(a, b)
    ensures |a| <= |b|
    ensures forall x :: x in a ==> x in b
    decreases |b|
  {
    if a != [] {
      if a[0] == b[0] && IsSubsequence(a[1..], b[1..]) {
        SubsequenceBounds(a[1..], b[1..]);
        assert forall x :: x in a ==> x == a[0] || x in a[1..];
      } else {
        SubsequenceBounds(a, b[1..]);
      }
    }
  }

  /** A subsequence of a later suffix is a subsequence of an earlier one. */
  lemma SubsequenceOfSuffix<T>(a: seq<T>, s: seq<T>, i: nat, m: nat)
    requires i <= m <= |s| && IsSubsequence(a, s[m..])
    ensures IsSubsequence(a, s[i..])
  {
    assert s[i..][m - i..] == s[m..];
    SubsequenceDropFront(a, s[i..], m - i);
  }

  /** Keeping the first element of a suffix extends a subsequence of the rest. */
  lemma SubsequenceConsSuffix<T>(a: seq<T>, s: seq<T>, i: nat)
    requires i < |s| && IsSubsequence(a, s[i + 1..])
    ensures IsSubsequence([s[i]] + a, s[i..])
  {
    SubsequenceCons(s[i], a, s[i + 1..]);
    assert [s[i]] + s[i + 1..] == s[i..];
  }

  /** Putting the same element in front of both keeps a subsequence. */
  lemma SubsequenceCons<T>(x: T, a: seq<T>, b: seq<T>)
    requires IsSubsequence(a, b)
    ensures IsSubsequence([x] + a, [x] + b)
  {
    assert ([x] + a)[1..] == a && ([x] + b)[1..] == b;
  }

  /** A subsequence of a suffix is a subsequence of the whole. */
  lemma {:induction false} SubsequenceDropFront<T>(a: seq<T>, b: seq<T>, n: nat)
    requires n <= |b| && IsSubsequence(a, b[n..])
    ensures IsSubsequence(a, b)
    decreases n
  {
    if n > 0 {
      assert b[1..][n - 1..] == b[n..];
      SubsequenceDropFront(a, b[1..], n - 1);
    }
  }
}
