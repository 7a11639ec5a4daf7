/**
 * The Python string operations the dashboard relies on, over `string`
 * (a sequence of Unicode scalar values): `strip()`, `lower()`, the `in`
 * substring test, `startswith`/`endswith`, `split(sep)`, and the ordering
 * Python uses to compare two strings.
 */
module Text {
  import opened Wrappers

  // ---------------------------------------------------------------------
  // strip()
  // ---------------------------------------------------------------------

  /** The characters for which Python's `str.isspace` holds. */
  predicate IsSpace(c: char) {
    || ('\t' <= c <= '\r')
    || ('\U{1C}' <= c <= '\U{1F}')
    || c == ' '
    || c == '\U{85}'
    || c == '\U{A0}'
    || c == '\U{1680}'
    || ('\U{2000}' <= c <= '\U{200A}')
    || c == '\U{2028}'
    || c == '\U{2029}'
    || c == '\U{202F}'
    || c == '\U{205F}'
    || c == '\U{3000}'
  }

  /** Neither the first nor the last character is white space. */
  predicate IsStripped(s: string) {
    s == [] || (!IsSpace(s[0]) && !IsSpace(s[|s| - 1]))
  }

  /** Every character of `t` passes the test `p`. */
  predicate All(t: string, p: char -> bool) {
    forall k :: 0 <= k < |t| ==> p(t[k])
  }

  /** `s.lstrip()` for the character test `p`: drops the longest prefix of characters passing it. */
  function TrimLeft(s: string, p: char -> bool): (r: string)
    ensures |r| <= |s| && r == s[|s| - |r|..]
    ensures All(s[..|s| - |r|], p)
    ensures r == [] || !p(r[0])
  {
    if s != [] && p(s[0]) then
      var r := TrimLeft(s[1..], p);
      assert s[..|s| - |r|] == [s[0]] + s[1..][..|s| - 1 - |r|];
      r
    else s
  }

  /** `s.rstrip()` for the character test `p`: drops the longest suffix of characters passing it. */
  function TrimRight(s: string, p: char -> bool): (r: string)
    ensures |r| <= |s| && r == s[..|r|]
    ensures All(s[|r|..], p)
    ensures r == [] || !p(r[|r| - 1])
  {
    if s != [] && p(s[|s| - 1]) then
      var r := TrimRight(s[..|s| - 1], p);
      assert s[|r|..] == s[..|s| - 1][|r|..] + [s[|s| - 1]];
      r
    else s
  }

  /** `r` stands at position `i` of `s`, and every character of `s` around it passes `p`. */
  predicate Around(s: string, r: string, i: int, p: char -> bool) {
    && 0 <= i && i + |r| <= |s| && s[i..i + |r|] == r
    && All(s[..i], p) && All(s[i + |r|..], p)
  }

  /**
   * `s.strip()`: `s` with the white space at both ends removed. The result
   * is a piece of `s` with only white space around it, and it neither starts
   * nor ends with white space, which fixes it.
   */
  function Strip(s: string): (r: string)
    ensures exists i :: Around(s, r, i, IsSpace)
    ensures IsStripped(r)
    ensures IsStripped(s) ==> r == s
  {
    var l := TrimLeft(s, IsSpace);
    var r := TrimRight(l, IsSpace);
    TrimsLeaveAround(s, IsSpace);
    TrimsKeepEnds(s, IsSpace);
    r
  }

  /** What the two trims keep of `s` has only removed characters around it. */
  lemma TrimsLeaveAround(s: string, p: char -> bool)
    ensures exists i :: Around(s, TrimRight(TrimLeft(s, p), p), i, p)
  {
    var l := TrimLeft(s, p);
    var r := TrimRight(l, p);
    var i := |s| - |l|;
    assert All(s[..i], p);
    assert s[i..i + |r|] == r;
    assert s[i + |r|..] == l[|r|..];
    assert All(s[i + |r|..], p);
    assert Around(s, r, i, p);
  }

  /** What the two trims keep starts and ends with a kept character, and a string that does is kept whole. */
  lemma TrimsKeepEnds(s: string, p: char -> bool)
    ensures var r := TrimRight(TrimLeft(s, p), p);
            r == [] || (!p(r[0]) && !p(r[|r| - 1]))
    ensures s == [] || (!p(s[0]) && !p(s[|s| - 1])) ==> TrimRight(TrimLeft(s, p), p) == s
  {
    var l := TrimLeft(s, p);
    var r := TrimRight(l, p);
    assert r != [] ==> r[0] == l[0];
    assert s != [] && !p(s[0]) && !p(s[|s| - 1]) ==> l == s && r == l;
  }

  /** One space on each side of a stripped non-empty string is removed by `strip()`. */
  lemma StripPadded(s: string)
    requires s != [] && IsStripped(s)
    ensures Strip(" " + s + " ") == s
  {
    var p := " " + s + " ";
    assert p[1..] == s + " ";
    assert (s + " ")[0] == s[0];
    assert TrimLeft(p, IsSpace) == s + " ";
    assert (s + " ")[..|s|] == s;
    assert TrimRight(s + " ", IsSpace) == TrimRight(s, IsSpace) == s;
    assert Strip(p) == TrimRight(TrimLeft(p, IsSpace), IsSpace);
  }

  // ---------------------------------------------------------------------
  // lower()
  // ---------------------------------------------------------------------

  /** Lower-cases the ASCII capitals and leaves every other character. */
  function LowerChar(c: char): (d: char)
    ensures 'A' <= c <= 'Z' ==> 'a' <= d <= 'z' && d as int == c as int + 32
    ensures !('A' <= c <= 'Z') ==> d == c
  {
    if 'A' <= c <= 'Z' then (c as int + 32) as char else c
  }

  /** `s.lower()`, character by character. */
  function Lower(s: string): (r: string)
    ensures |r| == |s|
  {
    seq(|s|, i requires 0 <= i < |s| => LowerChar(s[i]))
  }

  /** Character i of the lower-cased string is character i lower-cased. */
  lemma LowerAt(s: string)
    ensures |Lower(s)| == |s|
    ensures forall i :: 0 <= i < |s| ==> Lower(s)[i] == LowerChar(s[i])
  {
  }

  /** A string without ASCII capitals is its own lower case. */
  lemma LowerWithoutCapitals(s: string)
    requires forall i :: 0 <= i < |s| ==> !('A' <= s[i] <= 'Z')
    ensures Lower(s) == s
  {
    LowerAt(s);
  }

  /** The lower-cased string holds no capital, so lower-casing it again changes nothing. */
  lemma LowerIsLowerCase(s: string)
    ensures forall i :: 0 <= i < |s| ==> !('A' <= Lower(s)[i] <= 'Z')
    ensures Lower(Lower(s)) == Lower(s)
  {
    LowerAt(s);
    LowerAt(Lower(s));
  }

  // ---------------------------------------------------------------------
  // the `in` test, startswith, endswith
  // ---------------------------------------------------------------------

  /** `sub` occurs in `s` starting at position `j`. */
  predicate OccursAt(s: string, sub: string, j: int) {
    0 <= j && j + |sub| <= |s| && s[j..j + |sub|] == sub
  }

  /** `s.find(sub)`: the first position where `sub` occurs, if any. */
  function IndexOf(s: string, sub: string): (r: Option<nat>)
    ensures r.Some? ==> OccursAt(s, sub, r.value)
    ensures r.Some? ==> forall j :: 0 <= j < r.value ==> !OccursAt(s, sub, j)
    ensures r.None? ==> forall j :: !OccursAt(s, sub, j)
    decreases |s|
  {
    if |s| < |sub| then None
    else if s[..|sub|] == sub then Some(0)
    else
      var rest := IndexOf(s[1..], sub);
      OccursAtShift(s, sub);
      match rest
      case None => None
      case Some(i) => Some(i + 1)
  }

  /** Occurrences in the tail of `s` are occurrences in `s`, one place later. */
  lemma OccursAtShift(s: string, sub: string)
    requires s != []
    ensures forall j :: 1 <= j ==> (OccursAt(s, sub, j) <==> OccursAt(s[1..], sub, j - 1))
  {
    forall j | 1 <= j
      ensures OccursAt(s, sub, j) <==> OccursAt(s[1..], sub, j - 1)
    {
      if j + |sub| <= |s| {
        assert s[1..][j - 1..j - 1 + |sub|] == s[j..j + |sub|];
      }
    }
  }

  /** Python's `sub in s`. */
  predicate Contains(s: string, sub: string) {
    IndexOf(s, sub).Some?
  }

  /** The `in` test holds exactly when `sub` occurs somewhere in `s`. */
  lemma ContainsOccurs(s: string, sub: string)
    ensures Contains(s, sub) <==> exists j :: OccursAt(s, sub, j)
  {
  }

  /** Every occurrence is found by the `in` test. */
  lemma OccursAtContains(s: string, sub: string, j: int)
    requires OccursAt(s, sub, j)
    ensures Contains(s, sub)
  {
  }

  /** The middle piece of a concatenation occurs in it where the first piece ends. */
  lemma OccursIn(a: string, b: string, c: string)
    ensures OccursAt(a + b + c, b, |a|)
  {
    assert (a + b + c)[|a|..|a| + |b|] == b;
  }

  /** An occurrence stays where it is when text is appended. */
  lemma OccursExtend(s: string, sub: string, j: int, t: string)
    requires OccursAt(s, sub, j)
    ensures OccursAt(s + t, sub, j)
  {
    assert (s + t)[j..j + |sub|] == s[j..j + |sub|];
  }

  /** An occurrence with none before it is the one `find` returns. */
  lemma IndexOfIs(s: string, sub: string, j: nat)
    requires OccursAt(s, sub, j)
    requires forall k :: 0 <= k < j ==> !OccursAt(s, sub, k)
    ensures IndexOf(s, sub) == Some(j)
  {
  }

  /** Appending text after the first occurrence does not move it. */
  lemma IndexOfPrefix(s: string, sub: string, t: string)
    requires IndexOf(s, sub).Some?
    ensures IndexOf(s + t, sub) == IndexOf(s, sub)
  {
    var j := IndexOf(s, sub).value;
    OccursExtend(s, sub, j, t);
    forall k | 0 <= k < j ensures !OccursAt(s + t, sub, k) {
      assert !OccursAt(s, sub, k);
      assert (s + t)[k..k + |sub|] == s[k..k + |sub|];
    }
    IndexOfIs(s + t, sub, j);
  }

  /** `s.startswith(p)`. */
  predicate StartsWith(s: string, p: string) {
    |p| <= |s| && s[..|p|] == p
  }

  /** `s.endswith(p)`. */
  predicate EndsWith(s: string, p: string) {
    |p| <= |s| && s[|s| - |p|..] == p
  }

  // ---------------------------------------------------------------------
  // split(sep)
  // ---------------------------------------------------------------------

  /**
   * `s.split(sep)` for a non-empty separator: the pieces between the
   * non-overlapping occurrences of `sep`, scanned from the left.
   */
  function Split(s: string, sep: string): (parts: seq<string>)
    requires |sep| > 0
    ensures |parts| >= 1
    ensures |parts| >= 2 <==> Contains(s, sep)
    ensures IndexOf(s, sep).None? ==> parts[0] == s
    ensures IndexOf(s, sep).Some? ==> parts[0] == s[..IndexOf(s, sep).value]
    decreases |s|
  {
    match IndexOf(s, sep)
    case None => [s]
    case Some(i) => [s[..i]] + Split(s[i + |sep|..], sep)
  }

  /** The second piece of a split is the first piece of what follows the first separator. */
  lemma SplitSecond(s: string, sep: string)
    requires |sep| > 0 && Contains(s, sep)
    ensures var i := IndexOf(s, sep).value;
            Split(s, sep)[1] == Split(s[i + |sep|..], sep)[0]
  {
  }

  /** The text of `s` before the first occurrence of `sub`, or all of `s`. */
  function Before(s: string, sub: string): (r: string)
    ensures StartsWith(s, r)
    ensures forall j :: 0 <= j < |r| ==> !OccursAt(s, sub, j)
    ensures |r| == |s| || OccursAt(s, sub, |r|)
  {
    match IndexOf(s, sub)
    case None => s
    case Some(i) => s[..i]
  }

  /** The first piece of `split` is the text before the first separator. */
  lemma SplitFirstIsBefore(s: string, sep: string)
    requires |sep| > 0
    ensures Split(s, sep)[0] == Before(s, sep)
  {
  }

  /** Cutting at the first `c` keeps exactly the text before it. */
  lemma BeforeIs(a: string, c: char, b: string)
    requires c !in a
    ensures Before(a + [c] + b, [c]) == a
  {
    var s := a + [c] + b;
    var r := Before(s, [c]);
    assert OccursAt(s, [c], |a|) by {
      assert s[|a|..|a| + 1] == [c];
    }
    forall k | 0 <= k < |a| ensures !OccursAt(s, [c], k) {
      assert s[k..k + 1][0] == a[k];
    }
    assert s[..|a|] == a;
  }

  /** The text before the first occurrence of a character does not hold that character. */
  lemma BeforeCharAbsent(s: string, c: char)
    ensures c !in Before(s, [c])
  {
    var r := Before(s, [c]);
    forall k | 0 <= k < |r| ensures r[k] != c {
      assert !OccursAt(s, [c], k);
      assert s[k..k + 1] == [s[k]];
    }
  }

  // ---------------------------------------------------------------------
  // string comparison
  // ---------------------------------------------------------------------

  /** Python's `a <= b` on strings: lexicographic by code point. */
  predicate LexLe(a: string, b: string) {
    if a == [] then true
    else if b == [] then false
    else if a[0] != b[0] then a[0] < b[0]
    else LexLe(a[1..], b[1..])
  }

  lemma {:induction false} LexLeTotal(a: string, b: string)
    ensures LexLe(a, b) || LexLe(b, a)
  {
    if a != [] && b != [] && a[0] == b[0] {
      LexLeTotal(a[1..], b[1..]);
    }
  }

  lemma {:induction false} LexLeAntisymmetric(a: string, b: string)
    ensures LexLe(a, b) && LexLe(b, a) ==> a == b
  {
    if a != [] && b != [] && a[0] == b[0] {
      LexLeAntisymmetric(a[1..], b[1..]);
      assert a == [a[0]] + a[1..] && b == [b[0]] + b[1..];
    }
  }

  lemma {:induction false} LexLeTransitive(a: string, b: string, c: string)
    ensures LexLe(a, b) && LexLe(b, c) ==> LexLe(a, c)
  {
    if a != [] && b != [] && c != [] && a[0] == b[0] == c[0] {
      LexLeTransitive(a[1..], b[1..], c[1..]);
    }
  }
}
