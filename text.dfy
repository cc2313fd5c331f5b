/**
 * The Python `str` built-ins the bot relies on, over `string` (one `char` per
 * code point, as in Python 3): `strip()`, `replace(pat, "")`, `s[:n]`,
 * `" ".join(words)` and `str(n)` for an integer.
 */
module Text {

  /**
   * `c.isspace()`: the characters that `str.strip()` with no argument
   * removes, by code point.
   */
  predicate IsSpace(c: char)
  {
    var n := c as int;
    || n == 0x20 || 0x09 <= n <= 0x0D || 0x1C <= n <= 0x1F
    || n == 0x85 || n == 0xA0 || n == 0x1680 || 0x2000 <= n <= 0x200A
    || n == 0x2028 || n == 0x2029 || n == 0x202F || n == 0x205F || n == 0x3000
  }

  predicate AllSpace(s: string)
  {
    forall k :: 0 <= k < |s| ==> IsSpace(s[k])
  }

  /** `r` is a contiguous piece of `s`. */
  ghost predicate IsSliceOf(r: string, s: string)
  {
    exists i, j :: 0 <= i <= j <= |s| && r == s[i..j]
  }

  /** A piece of a piece of `s` is a piece of `s`. */
  lemma SliceOfSlice(a: string, b: string, c: string)
    requires IsSliceOf(a, b) && IsSliceOf(b, c)
    ensures IsSliceOf(a, c)
  {
    var i, j :| 0 <= i <= j <= |b| && a == b[i..j];
    var k, l :| 0 <= k <= l <= |c| && b == c[k..l];
    forall t | 0 <= t < j - i
      ensures a[t] == c[k + i + t]
    {
      assert a[t] == b[i + t];
    }
    assert a == c[k + i..k + j];
  }

  /** `pat` occurs in `s` starting at index `i`. */
  ghost predicate OccursAt(pat: string, s: string, i: int)
  {
    0 <= i && i + |pat| <= |s| && s[i..i + |pat|] == pat
  }

  /** `pat` occurs somewhere in `s` (an empty `pat` occurs everywhere). */
  ghost predicate Occurs(pat: string, s: string)
  {
    exists i :: OccursAt(pat, s, i)
  }

  // ---------------------------------------------------------------- strip

  /**
   * `r` is `s[i..j]`, and everything of `s` before `i` and from `j` on is
   * whitespace.
   */
  ghost predicate TrimsTo(s: string, r: string, i: int, j: int)
  {
    0 <= i <= j <= |s| && r == s[i..j] && AllSpace(s[..i]) && AllSpace(s[j..])
  }

  /**
   * `s.strip()`: whitespace is removed from both ends. The result is the
   * piece of `s` left in the middle; it is empty exactly when `s` is all
   * whitespace, and otherwise begins and ends with a non-whitespace
   * character.
   */
  function Strip(s: string): (r: string)
    ensures r == [] <==> AllSpace(s)
    ensures r != [] ==> !IsSpace(r[0]) && !IsSpace(r[|r| - 1])
    ensures IsSliceOf(r, s)
    decreases |s|
  {
    if s == [] then
      assert s == s[0..0];
      s
    else if IsSpace(s[0]) then
      var r := Strip(s[1..]);
      assert AllSpace(s) <==> AllSpace(s[1..]);
      ghost var i, j :| 0 <= i <= j <= |s[1..]| && r == s[1..][i..j];
      assert r == s[i + 1..j + 1];
      r
    else if IsSpace(s[|s| - 1]) then
      var r := Strip(s[..|s| - 1]);
      assert AllSpace(s) <==> AllSpace(s[..|s| - 1]);
      ghost var i, j :| 0 <= i <= j <= |s[..|s| - 1]| && r == s[..|s| - 1][i..j];
      assert r == s[i..j];
      r
    else
      assert s == s[0..|s|];
      s
  }

  /** A whitespace character before a trimmed piece is trimmed with it. */
  lemma TrimsToFront(s: string, r: string, i: int, j: int)
    requires s != [] && IsSpace(s[0]) && TrimsTo(s[1..], r, i, j)
    ensures TrimsTo(s, r, i + 1, j + 1)
  {
    var t := s[1..];
    assert s[..i + 1] == [s[0]] + t[..i];
    assert s[j + 1..] == t[j..];
    assert s[i + 1..j + 1] == t[i..j];
  }

  /** A whitespace character after a trimmed piece is trimmed with it. */
  lemma TrimsToBack(s: string, r: string, i: int, j: int)
    requires s != [] && IsSpace(s[|s| - 1]) && TrimsTo(s[..|s| - 1], r, i, j)
    ensures TrimsTo(s, r, i, j)
  {
    var t := s[..|s| - 1];
    assert s[..i] == t[..i];
    assert s[j..] == t[j..] + [s[|s| - 1]];
    assert s[i..j] == t[i..j];
  }

  /**
   * `strip()` removes nothing but whitespace: what it drops before and
   * after the piece it keeps is all whitespace.
   */
  lemma {:induction false} StripRemovesOnlyEnds(s: string)
    ensures exists i, j :: TrimsTo(s, Strip(s), i, j)
    decreases |s|
  {
    if s == [] {
      assert TrimsTo(s, Strip(s), 0, 0);
    } else if IsSpace(s[0]) {
      StripRemovesOnlyEnds(s[1..]);
      var i, j :| TrimsTo(s[1..], Strip(s[1..]), i, j);
      TrimsToFront(s, Strip(s[1..]), i, j);
      assert Strip(s) == Strip(s[1..]);
      assert TrimsTo(s, Strip(s), i + 1, j + 1);
    } else if IsSpace(s[|s| - 1]) {
      StripRemovesOnlyEnds(s[..|s| - 1]);
      var i, j :| TrimsTo(s[..|s| - 1], Strip(s[..|s| - 1]), i, j);
      TrimsToBack(s, Strip(s[..|s| - 1]), i, j);
      assert Strip(s) == Strip(s[..|s| - 1]);
      assert TrimsTo(s, Strip(s), i, j);
    } else {
      assert s[..0] == [] && s[|s|..] == [] && s[0..|s|] == s;
      assert TrimsTo(s, Strip(s), 0, |s|);
    }
  }

  /** Stripping twice is the same as stripping once. */
  lemma StripIdempotent(s: string)
    ensures Strip(Strip(s)) == Strip(s)
  {
  }

  /** A string without whitespace at either end is its own strip. */
  lemma StripTrimmed(s: string)
    requires s != [] && !IsSpace(s[0]) && !IsSpace(s[|s| - 1])
    ensures Strip(s) == s
  {
  }

  // -------------------------------------------------------------- replace

  lemma OccursInTail(pat: string, s: string)
    requires s != [] && Occurs(pat, s[1..])
    ensures Occurs(pat, s)
  {
    var t := s[1..];
    var i :| OccursAt(pat, t, i);
    assert s[i + 1..i + 1 + |pat|] == t[i..i + |pat|];
    assert OccursAt(pat, s, i + 1);
  }

  /**
   * `s.replace(pat, "")`: scanning from the left, every non-overlapping
   * occurrence of `pat` is deleted; an empty `pat` leaves `s` unchanged.
   * The result is never longer than `s`, and is `s` itself when `pat`
   * does not occur in it.
   */
  function RemoveAll(s: string, pat: string): (r: string)
    ensures |r| <= |s|
    ensures pat == [] || !Occurs(pat, s) ==> r == s
    decreases |s|
  {
    if pat == [] || |s| < |pat| then
      s
    else if s[..|pat|] == pat then
      assert OccursAt(pat, s, 0);
      RemoveAll(s[|pat|..], pat)
    else
      var rest := RemoveAll(s[1..], pat);
      assert Occurs(pat, s[1..]) ==> Occurs(pat, s) by {
        if Occurs(pat, s[1..]) { OccursInTail(pat, s); }
      }
      [s[0]] + rest
  }

  /** An occurrence of a non-empty `pat` at the very start is deleted. */
  lemma RemoveAllLeading(pat: string, s: string)
    requires pat != []
    ensures RemoveAll(pat + s, pat) == RemoveAll(s, pat)
  {
    assert (pat + s)[..|pat|] == pat;
    assert (pat + s)[|pat|..] == s;
  }

  /**
   * The scan goes left to right: when the first occurrence of a non-empty
   * `pat` in `mid + pat + rest` is the one after `mid`, the result is
   * `mid` followed by the removal applied to `rest`.
   */
  lemma {:induction false} RemoveAllSplit(mid: string, pat: string, rest: string)
    requires pat != []
    requires forall i :: 0 <= i < |mid| ==> !OccursAt(pat, mid + pat + rest, i)
    ensures RemoveAll(mid + pat + rest, pat) == mid + RemoveAll(rest, pat)
  {
    if mid == [] {
      assert mid + pat + rest == pat + rest;
      RemoveAllLeading(pat, rest);
    } else {
      var s := mid + pat + rest;
      var m := mid[1..];
      NoEarlierMatchInTail(mid, pat, rest);
      calc {
        RemoveAll(s, pat);
      == { RemoveAllNoMatchStep(s, pat); }
        [s[0]] + RemoveAll(s[1..], pat);
      == { assert s[1..] == m + pat + rest; RemoveAllSplit(m, pat, rest); }
        [s[0]] + (m + RemoveAll(rest, pat));
      == { assert s[0] == mid[0] && [mid[0]] + m == mid; }
        mid + RemoveAll(rest, pat);
      }
    }
  }

  /** Without a match at the front, the first character is kept and the scan moves on. */
  lemma RemoveAllNoMatchStep(s: string, pat: string)
    requires pat != [] && |pat| <= |s| && !OccursAt(pat, s, 0)
    ensures RemoveAll(s, pat) == [s[0]] + RemoveAll(s[1..], pat)
  {
    assert s[..|pat|] != pat;
  }

  /** Dropping the first character of `mid` keeps `mid`'s remaining positions free of matches. */
  lemma NoEarlierMatchInTail(mid: string, pat: string, rest: string)
    requires mid != []
    requires forall i :: 0 <= i < |mid| ==> !OccursAt(pat, mid + pat + rest, i)
    ensures forall i :: 0 <= i < |mid| - 1 ==> !OccursAt(pat, mid[1..] + pat + rest, i)
  {
    var s := mid + pat + rest;
    var t := mid[1..] + pat + rest;
    assert t == s[1..];
    forall i | 0 <= i < |mid| - 1
      ensures !OccursAt(pat, t, i)
    {
      assert t[i..i + |pat|] == s[i + 1..i + 1 + |pat|];
      assert !OccursAt(pat, s, i + 1);
    }
  }

  /**
   * When the first occurrence of a non-empty `pat` in `mid + pat` is the
   * one at the end, deleting every occurrence leaves `mid`.
   */
  lemma RemoveAllTrailing(mid: string, pat: string)
    requires pat != []
    requires forall i :: 0 <= i < |mid| ==> !OccursAt(pat, mid + pat, i)
    ensures RemoveAll(mid + pat, pat) == mid
  {
    assert mid + pat + [] == mid + pat;
    RemoveAllSplit(mid, pat, []);
    assert mid + [] == mid;
  }

  /**
   * One pass only: deleting the occurrences can bring two pieces together
   * into a new one, which stays in the result.
   */
  lemma RemovalCanLeaveOccurrence()
    ensures RemoveAll("aabb", "ab") == "ab"
  {
    assert "aabb"[..2][1] != "ab"[1];
    assert "aabb"[1..] == "ab" + "b";
    RemoveAllLeading("ab", "b");
    assert "b" == "b"[..1];
  }

  /** `pat` repeated `n` times. */
  function Repeat(pat: string, n: nat): (r: string)
  {
    if n == 0 then [] else pat + Repeat(pat, n - 1)
  }

  /**
   * Every occurrence is deleted, not only the first: a text made of `n`
   * copies of a non-empty `pat` becomes empty.
   */
  lemma {:induction false} RemoveAllRepeat(pat: string, n: nat)
    requires pat != []
    ensures RemoveAll(Repeat(pat, n), pat) == []
  {
    if n > 0 {
      RemoveAllLeading(pat, Repeat(pat, n - 1));
      RemoveAllRepeat(pat, n - 1);
    }
  }

  // ---------------------------------------------------------------- slice

  /** `s[:n]`: the first `n` characters of `s`, or all of `s` when it is shorter. */
  function Take(s: string, n: nat): (r: string)
    ensures |r| == if |s| < n then |s| else n
    ensures r == s[..|r|]
  {
    if |s| <= n then s else s[..n]
  }

  // ----------------------------------------------------------------- join

  /** `sep.join(words)`: it begins with the first word, and is that word alone when there is one. */
  function Join(words: seq<string>, sep: string): (r: string)
    ensures |words| == 1 ==> r == words[0]
    ensures words != [] ==> |words[0]| <= |r| && r[..|words[0]|] == words[0]
  {
    if words == [] then []
    else if |words| == 1 then words[0]
    else words[0] + sep + Join(words[1..], sep)
  }

  /** Joining one more word adds the separator and that word at the end. */
  lemma {:induction false} JoinAppend(words: seq<string>, w: string, sep: string)
    requires words != []
    ensures Join(words + [w], sep) == Join(words, sep) + sep + w
  {
    if |words| == 1 {
      assert (words + [w])[1..] == [w];
    } else {
      assert (words + [w])[1..] == words[1..] + [w];
      JoinAppend(words[1..], w, sep);
    }
  }

  /** The characters of all the words, in order, without separators. */
  function Concat(words: seq<string>): (r: string)
  {
    if words == [] then [] else words[0] + Concat(words[1..])
  }

  /**
   * The joined text holds every word once plus one separator between each
   * neighbouring pair.
   */
  lemma {:induction false} JoinLength(words: seq<string>, sep: string)
    requires words != []
    ensures |Join(words, sep)| == |Concat(words)| + (|words| - 1) * |sep|
  {
    if |words| > 1 {
      JoinLength(words[1..], sep);
    }
  }

  // ------------------------------------------------------------------ str

  /** The ASCII digit for `d`. */
  function DigitChar(d: nat): (c: char)
    requires d < 10
    ensures c as int == '0' as int + d
  {
    ('0' as int + d) as char
  }

  /** `str(n)` for a natural number: its decimal digits, without leading zeros. */
  function NatToString(n: nat): (r: string)
    ensures r != [] && '0' <= r[0] <= '9'
    ensures n >= 10 ==> |r| >= 2
    decreases n
  {
    if n < 10 then [DigitChar(n)] else NatToString(n / 10) + [DigitChar(n % 10)]
  }

  /** `str(i)` for an integer: a minus sign before the digits when negative. */
  function IntToString(i: int): (r: string)
    ensures r != []
    ensures r[0] == '-' <==> i < 0
  {
    if i < 0 then "-" + NatToString(-i) else NatToString(i)
  }

  /** Different natural numbers have different decimal renderings. */
  lemma {:induction false} NatToStringInjective(a: nat, b: nat)
    requires NatToString(a) == NatToString(b)
    ensures a == b
  {
    var s := NatToString(a);
    if a >= 10 && b >= 10 {
      assert s[..|s| - 1] == NatToString(a / 10);
      assert s[..|s| - 1] == NatToString(b / 10);
      NatToStringInjective(a / 10, b / 10);
      assert DigitChar(a % 10) == s[|s| - 1] == DigitChar(b % 10);
    } else if a < 10 && b < 10 {
      assert DigitChar(a) == s[0] == DigitChar(b);
    }
  }

  /** Different integers have different renderings: `str` is injective on `int`. */
  lemma IntToStringInjective(a: int, b: int)
    requires IntToString(a) == IntToString(b)
    ensures a == b
  {
    if a < 0 && b < 0 {
      assert NatToString(-a) == IntToString(a)[1..];
      assert NatToString(-b) == IntToString(b)[1..];
      NatToStringInjective(-a, -b);
    } else if a >= 0 && b >= 0 {
      NatToStringInjective(a, b);
    }
  }
}
