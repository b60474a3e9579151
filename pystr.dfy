/**
 * The three Python string operations the field validators rely on:
 * `str.strip()`, `str.isdigit()` and the substring test `p in s`.
 *
 * Approximation: Python decides whitespace and digits by Unicode
 * character properties. Here whitespace is the ASCII part of that set
 * (the characters for which `str.isspace` holds below U+0080) and a
 * digit is an ASCII '0'..'9'; other Unicode digits and spaces are not
 * recognised.
 */
module PyStr {

  /** ASCII whitespace as `str.isspace` sees it: space, \t \n \v \f \r
      (U+0009..U+000D) and the separators U+001C..U+001F. */
  predicate IsSpace(c: char) {
    c == ' ' || ('\t' <= c <= '\r') || ('\U{1C}' <= c <= '\U{1F}')
  }

  predicate AllSpace(s: string) {
    forall i :: 0 <= i < |s| ==> IsSpace(s[i])
  }

  predicate IsDigitChar(c: char) {
    '0' <= c <= '9'
  }


  /** `s.lstrip()`: the longest suffix of `s` that does not start with whitespace. */
  function LStrip(s: string): (r: string)
    ensures |r| <= |s| && r == s[|s| - |r|..]
    ensures forall k :: 0 <= k < |s| - |r| ==> IsSpace(s[k])
    ensures r == [] || !IsSpace(r[0])
  {
    if |s| > 0 && IsSpace(s[0]) then
      var r := LStrip(s[1..]);
      assert r == s[|s| - |r|..] by { assert s[1..][|s| - 1 - |r|..] == s[|s| - |r|..]; }
      assert forall k :: 1 <= k < |s| - |r| ==> s[k] == s[1..][k - 1];
      r
    else
      s
  }

  /** `s.rstrip()`: the longest prefix of `s` that does not end with whitespace. */
  function RStrip(s: string): (r: string)
    ensures |r| <= |s| && r == s[..|r|]
    ensures forall k :: |r| <= k < |s| ==> IsSpace(s[k])
    ensures r == [] || !IsSpace(r[|r| - 1])
  {
    if |s| > 0 && IsSpace(s[|s| - 1]) then
      var r := RStrip(s[..|s| - 1]);
      assert r == s[..|r|] by { assert s[..|s| - 1][..|r|] == s[..|r|]; }
      assert forall k :: |r| <= k < |s| - 1 ==> s[k] == s[..|s| - 1][k];
      r
    else
      s
  }

  /** `s.strip()`: leading, then trailing whitespace removed. */
  function Strip(s: string): (r: string)
    ensures |r| <= |s|
    ensures r == [] || (!IsSpace(r[0]) && !IsSpace(r[|r| - 1]))
  {
    RStrip(LStrip(s))
  }

  /** Whitespace-free at both ends: what `strip` leaves alone. */
  predicate Unpadded(m: string) {
    m == [] || (!IsSpace(m[0]) && !IsSpace(m[|m| - 1]))
  }

  /** `s.isdigit()`: false on the empty string, otherwise every character is a
      digit. A digit string has no whitespace at either end, so `strip` leaves
      it as it is (StripPadded). */
  predicate IsDigit(s: string)
    ensures IsDigit(s) ==> s != [] && Unpadded(s)
  {
    |s| > 0 && forall i :: 0 <= i < |s| ==> IsDigitChar(s[i])
  }

  /** `s[i..j]` is surrounded by nothing but whitespace in `s`. */
  predicate PaddedAround(s: string, i: int, j: int) {
    && 0 <= i <= j <= |s|
    && (forall k :: 0 <= k < i ==> IsSpace(s[k]))
    && (forall k :: j <= k < |s| ==> IsSpace(s[k]))
  }

  /** `strip` cuts `s` into whitespace, an unpadded middle it returns, and whitespace. */
  lemma StripShape(s: string)
    ensures exists i, j :: PaddedAround(s, i, j) && Strip(s) == s[i..j]
    ensures Unpadded(Strip(s))
  {
    var l := LStrip(s);
    var r := RStrip(l);
    var i := |s| - |l|;
    var j := i + |r|;
    assert r == s[i..j] by {
      assert l == s[i..];
      assert r == l[..|r|];
    }
    forall k | j <= k < |s| ensures IsSpace(s[k]) {
      assert s[k] == l[k - i];
    }
    assert PaddedAround(s, i, j);
  }

  lemma {:induction false} LStripPadded(w: string, m: string)
    requires AllSpace(w)
    requires m == [] || !IsSpace(m[0])
    ensures LStrip(w + m) == m
  {
    if w != [] {
      assert (w + m)[1..] == w[1..] + m;
      LStripPadded(w[1..], m);
    }
  }

  lemma {:induction false} RStripPadded(m: string, w: string)
    requires AllSpace(w)
    requires m == [] || !IsSpace(m[|m| - 1])
    ensures RStrip(m + w) == m
  {
    if w != [] {
      assert (m + w)[..|m + w| - 1] == m + w[..|w| - 1];
      RStripPadded(m, w[..|w| - 1]);
    }
  }

  /** `strip` returns exactly the unpadded middle of any whitespace-padded string:
      together with StripShape this pins `Strip` down completely. */
  lemma StripPadded(w1: string, m: string, w2: string)
    requires AllSpace(w1) && AllSpace(w2)
    requires Unpadded(m)
    ensures Strip(w1 + m + w2) == m
  {
    if m == [] {
      assert w1 + m + w2 == w1 + w2;
      LStripPadded(w1 + w2, []);
      assert w1 + w2 + [] == w1 + w2;
    } else {
      assert w1 + m + w2 == w1 + (m + w2);
      LStripPadded(w1, m + w2);
      RStripPadded(m, w2);
    }
  }

  /** Stripping twice changes nothing more. */
  lemma StripIdempotent(s: string)
    ensures Strip(Strip(s)) == Strip(s)
  {
    StripShape(s);
    var m := Strip(s);
    assert [] + m + [] == m;
    StripPadded([], m, []);
  }

  /** All-whitespace input strips to the empty string. */
  lemma StripAllSpace(s: string)
    requires AllSpace(s)
    ensures Strip(s) == []
  {
    assert s + [] + [] == s;
    StripPadded(s, [], []);
  }

  /** `p in s`: `p` occurs in `s` as a contiguous, case-sensitive substring. */
  predicate Contains(s: string, p: string)
    ensures Contains(s, p) ==> |p| <= |s|
    ensures p == [] ==> Contains(s, p)
  {
    p <= s || (|s| > 0 && Contains(s[1..], p))
  }

  /** `p` occurs in `s` starting at index `i`. */
  predicate OccursAt(s: string, p: string, i: int) {
    0 <= i && i + |p| <= |s| && s[i..i + |p|] == p
  }

  /** Contains agrees with the positional definition of a substring, in both directions. */
  lemma {:induction false} ContainsIffOccurs(s: string, p: string)
    ensures Contains(s, p) <==> exists i :: OccursAt(s, p, i)
  {
    if p <= s {
      assert OccursAt(s, p, 0);
    } else if |s| == 0 {
      assert !Contains(s, p);
    } else {
      ContainsIffOccurs(s[1..], p);
      if Contains(s[1..], p) {
        var i :| OccursAt(s[1..], p, i);
        assert s[i + 1..i + 1 + |p|] == s[1..][i..i + |p|];
        assert OccursAt(s, p, i + 1);
      } else {
        forall i | 0 < i && OccursAt(s, p, i) ensures OccursAt(s[1..], p, i - 1) {
          OccursShift(s, p, i);
        }
      }
    }
  }

  /** An occurrence past the first character is an occurrence in the tail. */
  lemma OccursShift(s: string, p: string, i: int)
    requires 0 < i && OccursAt(s, p, i)
    ensures OccursAt(s[1..], p, i - 1)
  {
    assert s[1..][i - 1..i - 1 + |p|] == s[i..i + |p|];
  }

  /** A string contains every piece it is glued from. */
  lemma ContainsMiddle(a: string, p: string, b: string)
    ensures Contains(a + p + b, p)
  {
    var s := a + p + b;
    assert s[|a|..|a| + |p|] == p;
    assert OccursAt(s, p, |a|);
    ContainsIffOccurs(s, p);
  }
}
