/** The part of JavaScript's `String.prototype.substring` the page code relies on.
    Both position arguments are clamped into `[0, length]` and swapped when the
    start lies after the end, so the call never fails, whatever integers it gets. */
module JsString {

  /** A position argument of `substring`, clamped into `[0, len]`. */
  function ClampIndex(i: int, len: nat): (r: nat)
    ensures r <= len
    ensures 0 <= i <= len ==> r == i
  {
    if i < 0 then 0 else if i > len then len else i
  }

  /** `s.substring(start, end)`. */
  function Substring(s: string, start: int, end: int): (r: string)
    ensures |r| <= |s|
  {
    var a := ClampIndex(start, |s|);
    var b := ClampIndex(end, |s|);
    if a <= b then s[a..b] else s[b..a]
  }

  /** `s.substring(start)`: the end defaults to the string's length. */
  function SubstringFrom(s: string, start: int): (r: string)
    ensures 0 <= start <= |s| ==> r == s[start..]
    ensures start > |s| ==> r == ""
  {
    Substring(s, start, |s|)
  }

  /** `s.substring(0, k)` is the prefix of length `k` when `k` is in range, the empty
      string when `k` is negative, and the whole string when `k` is past the end. */
  lemma SubstringFromZero(s: string, k: int)
    ensures 0 <= k <= |s| ==> Substring(s, 0, k) == s[..k]
    ensures k <= 0 ==> Substring(s, 0, k) == ""
    ensures k >= |s| ==> Substring(s, 0, k) == s
  {
  }
}
