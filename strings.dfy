/**
 * The java.lang.String operations the parser relies on, with Java's own
 * conventions: indexOf answers -1 when nothing is found, trim strips every
 * character up to U+0020 from both ends, substring fails unless
 * 0 <= begin <= end <= length.
 */
module Strings {

  /** Java's trim() treats every character at or below the space as white space. */
  predicate IsWhitespace(c: char) {
    c <= ' '
  }

  /** Character.isLetter || Character.isDigit, restricted to ASCII. */
  predicate IsLetterOrDigit(c: char) {
    ('a' <= c <= 'z') || ('A' <= c <= 'Z') || ('0' <= c <= '9')
  }

  /** String.toUpperCase, restricted to ASCII letters. */
  function UpperChar(c: char): (u: char)
    ensures 'a' <= c <= 'z' ==> 'A' <= u <= 'Z'
    ensures !('a' <= c <= 'z') ==> u == c
  {
    if 'a' <= c <= 'z' then (c as int - 32) as char else c
  }

  function Upper(s: string): (r: string)
    ensures |r| == |s|
    ensures forall i :: 0 <= i < |s| ==> r[i] == UpperChar(s[i])
  {
    seq(|s|, i requires 0 <= i < |s| => UpperChar(s[i]))
  }

  /** String.toLowerCase, restricted to ASCII letters. */
  function LowerChar(c: char): (l: char)
    ensures 'A' <= c <= 'Z' ==> 'a' <= l <= 'z'
    ensures !('A' <= c <= 'Z') ==> l == c
  {
    if 'A' <= c <= 'Z' then (c as int + 32) as char else c
  }

  function Lower(s: string): (r: string)
    ensures |r| == |s|
    ensures forall i :: 0 <= i < |s| ==> r[i] == LowerChar(s[i])
  {
    seq(|s|, i requires 0 <= i < |s| => LowerChar(s[i]))
  }

  /** Upper case undoes lower case on a string that has no lower-case letter. */
  lemma UpperOfLower(s: string)
    requires forall i :: 0 <= i < |s| ==> !('a' <= s[i] <= 'z')
    ensures Upper(Lower(s)) == s
  {
    assert forall i :: 0 <= i < |s| ==> Upper(Lower(s))[i] == s[i];
  }

  /** String.equalsIgnoreCase, restricted to ASCII letters. */
  predicate EqualsIgnoreCase(a: string, b: string) {
    Upper(a) == Upper(b)
  }

  /** s.startsWith(t) */
  predicate StartsWith(s: string, t: string) {
    |t| <= |s| && s[..|t|] == t
  }

  /** s.indexOf(c): the first index holding c, or -1. */
  function IndexOf(s: string, c: char): (r: int)
    ensures -1 <= r < |s|
    ensures r == -1 <==> c !in s
    ensures r >= 0 ==> s[r] == c && forall i :: 0 <= i < r ==> s[i] != c
  {
    FirstFrom(s, c, 0)
  }

  /** The first index at or after k holding c, or -1. */
  function FirstFrom(s: string, c: char, k: nat): (r: int)
    requires k <= |s|
    ensures -1 <= r < |s|
    ensures r == -1 ==> forall i :: k <= i < |s| ==> s[i] != c
    ensures r >= 0 ==> k <= r && s[r] == c && forall i :: k <= i < r ==> s[i] != c
    decreases |s| - k
  {
    if k == |s| then -1
    else if s[k] == c then k
    else FirstFrom(s, c, k + 1)
  }

  /**
   * s.indexOf(c, from): Java clamps a negative start to 0 and answers -1 for
   * a start beyond the end.
   */
  function IndexOfFrom(s: string, c: char, from: int): (r: int)
    ensures -1 <= r < |s|
    ensures r >= 0 ==> from <= r && s[r] == c && forall i :: from <= i < r && 0 <= i ==> s[i] != c
    ensures r == -1 ==> forall i :: from <= i < |s| && 0 <= i ==> s[i] != c
  {
    if from < 0 then IndexOf(s, c)
    else if from >= |s| then -1
    else
      var k := IndexOf(s[from..], c);
      assert forall i :: from <= i < |s| ==> s[i] == s[from..][i - from];
      if k < 0 then -1 else from + k
  }

  /** s.lastIndexOf(c): the last index holding c, or -1. */
  function LastIndexOf(s: string, c: char): (r: int)
    ensures -1 <= r < |s|
    ensures r == -1 <==> c !in s
    ensures r >= 0 ==> s[r] == c && c !in s[r + 1..]
  {
    LastBefore(s, c, |s|)
  }

  /** The last index below k holding c, or -1. */
  function LastBefore(s: string, c: char, k: nat): (r: int)
    requires k <= |s|
    ensures -1 <= r < k
    ensures r == -1 ==> forall i :: 0 <= i < k ==> s[i] != c
    ensures r >= 0 ==> s[r] == c && forall i :: r < i < k ==> s[i] != c
  {
    if k == 0 then -1
    else if s[k - 1] == c then k - 1
    else LastBefore(s, c, k - 1)
  }

  /** t occurs in s at index i. */
  predicate OccursAt(s: string, t: string, i: int) {
    0 <= i && i + |t| <= |s| && s[i..i + |t|] == t
  }

  /** The first occurrence of t in s at or after index k, or -1. */
  function IndexOfSubFrom(s: string, t: string, k: nat): (r: int)
    requires k <= |s| + 1
    ensures r == -1 || (k <= r && OccursAt(s, t, r))
    ensures forall i :: k <= i < (if r == -1 then |s| + 1 else r) ==> !OccursAt(s, t, i)
    decreases |s| + 1 - k
  {
    if k + |t| > |s| then -1
    else if s[k..k + |t|] == t then k
    else IndexOfSubFrom(s, t, k + 1)
  }

  /** s.indexOf(t) for a string t: the first index where t occurs, or -1. */
  function IndexOfSub(s: string, t: string): (r: int)
    ensures r == -1 || OccursAt(s, t, r)
    ensures forall i :: 0 <= i < (if r == -1 then |s| + 1 else r) ==> !OccursAt(s, t, i)
  {
    IndexOfSubFrom(s, t, 0)
  }

  /** s.contains(t) */
  predicate Contains(s: string, t: string) {
    IndexOfSub(s, t) >= 0
  }

  /** The bounds under which s.substring(b, e) does not throw. */
  predicate SubstringOk(s: string, b: int, e: int) {
    0 <= b <= e <= |s|
  }

  /** The first index at or after k that holds no white space, or |s|. */
  function SkipBlanks(s: string, k: nat): (r: nat)
    requires k <= |s|
    ensures k <= r <= |s|
    ensures r < |s| ==> !IsWhitespace(s[r])
    ensures forall i :: k <= i < r ==> IsWhitespace(s[i])
    decreases |s| - k
  {
    if k == |s| || !IsWhitespace(s[k]) then k else SkipBlanks(s, k + 1)
  }

  /** The end of s[..k] once its trailing white space is dropped. */
  function SkipBlanksBack(s: string, k: nat): (r: nat)
    requires k <= |s|
    ensures r <= k
    ensures r > 0 ==> !IsWhitespace(s[r - 1])
    ensures forall i :: r <= i < k ==> IsWhitespace(s[i])
  {
    if k == 0 || !IsWhitespace(s[k - 1]) then k else SkipBlanksBack(s, k - 1)
  }

  /** Drops the leading white space. */
  function TrimStart(s: string): (r: string)
    ensures |r| <= |s| && r == s[|s| - |r|..]
    ensures r == [] || !IsWhitespace(r[0])
    ensures forall i :: 0 <= i < |s| - |r| ==> IsWhitespace(s[i])
  {
    s[SkipBlanks(s, 0)..]
  }

  /** Drops the trailing white space. */
  function TrimEnd(s: string): (r: string)
    ensures |r| <= |s| && r == s[..|r|]
    ensures r == [] || !IsWhitespace(r[|r| - 1])
    ensures forall i :: |r| <= i < |s| ==> IsWhitespace(s[i])
  {
    s[..SkipBlanksBack(s, |s|)]
  }

  /** No white space at either end: trim() leaves such a string alone. */
  predicate Trimmed(s: string) {
    s == [] || (!IsWhitespace(s[0]) && !IsWhitespace(s[|s| - 1]))
  }

  /** s.trim() */
  function Trim(s: string): (r: string)
    ensures Trimmed(r)
  {
    TrimEnd(TrimStart(s))
  }

  lemma TrimOfTrimmed(s: string)
    requires Trimmed(s)
    ensures Trim(s) == s
  {
  }

  /** Blanks in front of x are all that trimStart removes from pre + x beyond what it removes from x. */
  lemma TrimStartPadded(pre: string, x: string)
    requires forall i :: 0 <= i < |pre| ==> IsWhitespace(pre[i])
    ensures TrimStart(pre + x) == TrimStart(x)
  {
    var s := pre + x;
    var r := SkipBlanks(x, 0);
    var q := SkipBlanks(s, 0);
    assert forall i :: 0 <= i < |x| ==> s[|pre| + i] == x[i];
    assert forall i :: 0 <= i < |pre| ==> s[i] == pre[i];
    assert q == |pre| + r;
    assert s[q..] == x[r..];
  }

  /** Blanks after x are all that trimEnd removes from x + post beyond what it removes from x. */
  lemma TrimEndPadded(x: string, post: string)
    requires forall i :: 0 <= i < |post| ==> IsWhitespace(post[i])
    ensures TrimEnd(x + post) == TrimEnd(x)
  {
    var s := x + post;
    var r := SkipBlanksBack(x, |x|);
    var q := SkipBlanksBack(s, |s|);
    assert forall i :: 0 <= i < |post| ==> s[|x| + i] == post[i];
    assert forall i :: 0 <= i < |x| ==> s[i] == x[i];
    assert q == r;
    assert s[..q] == x[..r];
  }

  /** Leading and trailing spaces around a trimmed string are exactly what trim() removes. */
  lemma TrimPadded(s: string, pre: string, post: string)
    requires Trimmed(s)
    requires forall i :: 0 <= i < |pre| ==> IsWhitespace(pre[i])
    requires forall i :: 0 <= i < |post| ==> IsWhitespace(post[i])
    ensures Trim(pre + s + post) == s
  {
    assert pre + s + post == pre + (s + post);
    TrimStartPadded(pre, s + post);
    if s == [] {
      assert s + post == post;
      assert TrimStart(post) == [];
    } else {
      assert TrimStart(s + post) == s + post;
      TrimEndPadded(s, post);
    }
  }

  /** The items of xs separated by sep, as StringBuilder loops with an "if not last" test write them. */
  function Join(xs: seq<string>, sep: string): (r: string)
    ensures |xs| == 1 ==> r == xs[0]
  {
    if xs == [] then ""
    else if |xs| == 1 then xs[0]
    else Join(xs[..|xs| - 1], sep) + sep + xs[|xs| - 1]
  }

  /** Joining one more item adds a separator and the item, unless it is the first. */
  lemma JoinSnoc(xs: seq<string>, x: string, sep: string)
    ensures Join(xs + [x], sep) == if xs == [] then x else Join(xs, sep) + sep + x
  {
    assert (xs + [x])[..|xs|] == xs;
  }

  /** A loop that writes a separator after every item but the last has written Join once it adds the next item. */
  lemma JoinStep(prefix: string, xs: seq<string>, x: string, sep: string)
    ensures prefix + Join(xs, sep) + (if xs == [] then "" else sep) + x == prefix + Join(xs + [x], sep)
  {
    JoinSnoc(xs, x, sep);
    if xs != [] {
      assert prefix + Join(xs, sep) + sep + x == prefix + (Join(xs, sep) + sep + x);
    }
  }

  /** Join read from the front: the first item, then a separator before each further item. */
  lemma {:induction false} JoinCons(x: string, xs: seq<string>, sep: string)
    ensures Join([x] + xs, sep) == if xs == [] then x else x + sep + Join(xs, sep)
  {
    if |xs| >= 2 {
      var init := xs[..|xs| - 1];
      assert ([x] + xs)[..|xs|] == [x] + init;
      assert xs == init + [xs[|xs| - 1]];
      JoinCons(x, init, sep);
    } else if |xs| == 1 {
      assert ([x] + xs)[..1] == [x];
    }
  }

  /** Decimal rendering of a natural number, as Java string concatenation writes an int. */
  function NatToString(n: nat): (r: string)
    ensures |r| >= 1
    ensures forall i :: 0 <= i < |r| ==> '0' <= r[i] <= '9'
    decreases n
  {
    if n < 10 then [('0' as int + n) as char]
    else NatToString(n / 10) + [('0' as int + n % 10) as char]
  }

  /**
   * s.compareTo(t): the difference of the first pair of differing characters,
   * else the difference of the lengths. TreeSets of entries are ordered by it.
   */
  function CompareTo(s: string, t: string): (r: int)
    ensures r == 0 <==> s == t
  {
    if s == [] || t == [] then |s| - |t|
    else if s[0] != t[0] then s[0] as int - t[0] as int
    else
      var r := CompareTo(s[1..], t[1..]);
      assert s == [s[0]] + s[1..] && t == [t[0]] + t[1..];
      r
  }

  /** Swapping the operands negates the comparison. */
  lemma {:induction false} CompareAntisymmetric(s: string, t: string)
    ensures CompareTo(t, s) == -CompareTo(s, t)
  {
    if s != [] && t != [] && s[0] == t[0] {
      CompareAntisymmetric(s[1..], t[1..]);
    }
  }

  /** The order is transitive. */
  lemma {:induction false} CompareTransitive(a: string, b: string, c: string)
    requires CompareTo(a, b) < 0 && CompareTo(b, c) < 0
    ensures CompareTo(a, c) < 0
  {
    if a != [] && b != [] && c != [] && a[0] == b[0] && b[0] == c[0] {
      CompareTransitive(a[1..], b[1..], c[1..]);
    }
  }

  /** Every non-empty finite set of strings has a least element. */
  lemma {:induction false} LeastExists(names: set<string>)
    requires names != {}
    ensures exists m :: m in names && forall x :: x in names ==> CompareTo(m, x) <= 0
  {
    var y :| y in names;
    var rest := names - {y};
    if rest == {} {
      assert names == {y};
      assert CompareTo(y, y) == 0;
    } else {
      LeastExists(rest);
      var m :| m in rest && forall x :: x in rest ==> CompareTo(m, x) <= 0;
      assert names == rest + {y};
      if CompareTo(m, y) <= 0 {
        LeastStaysLeast(rest, m, y);
      } else {
        LeastReplaced(rest, m, y);
      }
    }
  }

  /** A least element that is below the new element stays least. */
  lemma LeastStaysLeast(rest: set<string>, m: string, y: string)
    requires forall x :: x in rest ==> CompareTo(m, x) <= 0
    requires CompareTo(m, y) <= 0
    ensures forall x :: x in rest + {y} ==> CompareTo(m, x) <= 0
  {
  }

  /** A new element below the least element becomes the least. */
  lemma LeastReplaced(rest: set<string>, m: string, y: string)
    requires m in rest && forall x :: x in rest ==> CompareTo(m, x) <= 0
    requires CompareTo(m, y) > 0
    ensures forall x :: x in rest + {y} ==> CompareTo(y, x) <= 0
  {
    CompareAntisymmetric(m, y);
    forall x | x in rest + {y}
      ensures CompareTo(y, x) <= 0
    {
      if x != y && x != m {
        CompareTransitive(y, m, x);
      }
    }
  }
}
