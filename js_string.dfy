/** JavaScript's legacy `String.prototype.substr(start, length)`, with its
    clamping rules written out, as the widget depends on them:
    - a negative start counts back from the end (and is clamped to 0);
    - a start past the end yields "";
    - the second argument is a LENGTH, clamped to [0, size]; a negative
      length yields "";
    - an omitted length means "to the end". */
module JsString {

  function Min(a: int, b: int): int { if a <= b then a else b }

  function Max(a: int, b: int): int { if a <= b then b else a }

  /** `s.substr(start, length)` */
  function Substr(s: string, start: int, length: int): (r: string)
    ensures |r| <= |s|
    ensures start >= |s| ==> r == ""
    ensures length <= 0 ==> r == ""
    ensures 0 <= start <= |s| && 0 <= length ==> r == s[start..Min(start + length, |s|)]
    ensures start < 0 && 0 <= length ==>
              r == s[Max(|s| + start, 0)..Min(Max(|s| + start, 0) + length, |s|)]
  {
    var first := if start < 0 then Max(|s| + start, 0) else Min(start, |s|);
    var count := Min(Max(length, 0), |s|);
    s[first..Min(first + count, |s|)]
  }

  /** `s.substr(start)`: the length is undefined, which the standard reads
      as the size of the string. */
  function SubstrFrom(s: string, start: int): (r: string)
    ensures 0 <= start <= |s| ==> r == s[start..]
    ensures start >= |s| ==> r == ""
    ensures start < 0 ==> r == s[Max(|s| + start, 0)..]
  {
    Substr(s, start, |s|)
  }

  /** The JavaScript `length` of a string: the number of UTF-16 code units,
      two for a character outside the Basic Multilingual Plane and one for
      any other. */
  function Utf16Length(s: string): (n: nat)
    ensures |s| <= n <= 2 * |s|
    decreases |s|
  {
    if |s| == 0 then 0
    else (if s[0] as int > 0xFFFF then 2 else 1) + Utf16Length(s[1..])
  }

  /** The JavaScript length equals the number of characters exactly when
      every character is inside the Basic Multilingual Plane. */
  lemma {:induction false} Utf16LengthOfBmp(s: string)
    ensures Utf16Length(s) == |s| <==> forall i :: 0 <= i < |s| ==> s[i] as int <= 0xFFFF
    decreases |s|
  {
    if |s| > 0 {
      Utf16LengthOfBmp(s[1..]);
      assert forall i :: 1 <= i < |s| ==> s[i] == s[1..][i - 1];
    }
  }

  /** Appending to a string appends to every suffix that starts inside it. */
  lemma SubstrFromAppend(s: string, t: string, k: int)
    requires 0 <= k <= |s|
    ensures SubstrFrom(s + t, k) == SubstrFrom(s, k) + t
  {
    assert (s + t)[k..] == s[k..] + t;
  }

  /** The string that the widget's backspace builds,
      `s.substr(0, p - 1) + s.substr(p, s.length)`: the character at index
      `p - 1` is removed when `p` is a position inside `s`, and nothing is
      removed when `p` is 0. */
  lemma SpliceOut(s: string, p: int)
    requires 0 <= p <= |s|
    ensures p == 0 ==> Substr(s, 0, p - 1) + Substr(s, p, |s|) == s
    ensures 0 < p ==> Substr(s, 0, p - 1) + Substr(s, p, |s|) == s[..p - 1] + s[p..]
    ensures 0 < p ==> |Substr(s, 0, p - 1) + Substr(s, p, |s|)| == |s| - 1
  {
    if p == 0 {
      assert Substr(s, 0, |s|) == s[0..|s|];
      assert s[0..|s|] == s;
    }
  }
}
