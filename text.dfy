/**
  The three string builtins the recipe book relies on: `String.prototype.trim`,
  `String.prototype.toLowerCase` and `String.prototype.includes`.
  Strings are sequences of characters.
 */
module Text {

  /**
    The characters `trim` removes: the WhiteSpace and LineTerminator code points of
    ECMAScript. Among the ASCII characters these are exactly the controls from tab to
    carriage return and the space; no letter or digit is one of them.
   */
  predicate IsWhitespace(c: char)
    ensures c as int < 0x80 ==> (IsWhitespace(c) <==> 9 <= c as int <= 13 || c == ' ')
    ensures IsWhitespace(c) ==> !IsAsciiUpper(c) && !('a' <= c <= 'z') && !('0' <= c <= '9')
  {
    c == '\t' || c == '\n' || c == '\U{000B}' || c == '\U{000C}' || c == '\r' ||
    c == ' ' || c == '\U{00A0}' || c == '\U{1680}' || ('\U{2000}' <= c <= '\U{200A}') ||
    c == '\U{2028}' || c == '\U{2029}' || c == '\U{202F}' || c == '\U{205F}' ||
    c == '\U{3000}' || c == '\U{FEFF}'
  }

  /** True when `s` has at least one character that `trim` keeps. */
  ghost predicate HasVisible(s: string)
  {
    exists i :: 0 <= i < |s| && !IsWhitespace(s[i])
  }

  /** The index of the first character of `s` at or after `i` that `trim` keeps, or `|s|`. */
  function SkipStart(s: string, i: nat): (k: nat)
    requires i <= |s|
    ensures i <= k <= |s|
    ensures forall j :: i <= j < k ==> IsWhitespace(s[j])
    ensures k < |s| ==> !IsWhitespace(s[k])
    decreases |s| - i
  {
    if i < |s| && IsWhitespace(s[i]) then SkipStart(s, i + 1) else i
  }

  /** The index just past the last character of `s[lo..hi]` that `trim` keeps, or `lo`. */
  function SkipEnd(s: string, lo: nat, hi: nat): (k: nat)
    requires lo <= hi <= |s|
    ensures lo <= k <= hi
    ensures forall j :: k <= j < hi ==> IsWhitespace(s[j])
    ensures k > lo ==> !IsWhitespace(s[k - 1])
    decreases hi
  {
    if lo < hi && IsWhitespace(s[hi - 1]) then SkipEnd(s, lo, hi - 1) else hi
  }

  /**
    `String.prototype.trim`: the result is the infix of `s` that starts after the
    leading whitespace and leaves out the trailing whitespace; it is empty exactly
    when `s` is all whitespace, and otherwise starts and ends with a kept character.
   */
  function Trim(s: string): (r: string)
    ensures var lead := SkipStart(s, 0);
      lead + |r| <= |s| && r == s[lead..lead + |r|] &&
      (forall i :: 0 <= i < lead ==> IsWhitespace(s[i])) &&
      (forall i :: lead + |r| <= i < |s| ==> IsWhitespace(s[i]))
    ensures r == [] <==> !HasVisible(s)
    ensures r != [] ==> !IsWhitespace(r[0]) && !IsWhitespace(r[|r| - 1])
  {
    var lo := SkipStart(s, 0);
    var hi := SkipEnd(s, lo, |s|);
    assert lo < hi ==> HasVisible(s) by {
      if lo < hi {
        assert !IsWhitespace(s[lo]);
      }
    }
    s[lo..hi]
  }

  /** Trimming twice gives what trimming once gives. */
  lemma TrimIdempotent(s: string)
    ensures Trim(Trim(s)) == Trim(s)
  {
    var r := Trim(s);
    if r != [] {
      assert SkipStart(r, 0) == 0;
      assert SkipEnd(r, 0, |r|) == |r|;
    }
  }

  /** An ASCII capital letter. */
  predicate IsAsciiUpper(c: char)
  {
    'A' <= c <= 'Z'
  }

  /**
    The per-character lowering: no capital is left, a capital becomes the small
    letter at the same place in the alphabet, and every other character stays.
   */
  function LowerChar(c: char): (d: char)
    ensures !IsAsciiUpper(d)
    ensures !IsAsciiUpper(c) ==> d == c
    ensures IsAsciiUpper(c) ==> 'a' <= d <= 'z' && d as int - 'a' as int == c as int - 'A' as int
  {
    if IsAsciiUpper(c) then (c as int + 32) as char else c
  }

  /**
    `String.prototype.toLowerCase`: the result has the length of `s` and no capital;
    it keeps every character of `s` that is not a capital, and has the matching small
    letter where `s` has a capital.
   */
  function Lower(s: string): (r: string)
    ensures |r| == |s|
    ensures forall i :: 0 <= i < |r| ==> !IsAsciiUpper(r[i])
    ensures forall i :: 0 <= i < |s| && !IsAsciiUpper(s[i]) ==> r[i] == s[i]
    ensures forall i :: 0 <= i < |s| && IsAsciiUpper(s[i]) ==>
      'a' <= r[i] <= 'z' && r[i] as int - 'a' as int == s[i] as int - 'A' as int
  {
    seq(|s|, i requires 0 <= i < |s| => LowerChar(s[i]))
  }

  /** Lowering an already lowered string changes nothing. */
  lemma LowerIdempotent(s: string)
    ensures Lower(Lower(s)) == Lower(s)
  {
    var l := Lower(s);
    assert forall i :: 0 <= i < |l| ==> Lower(l)[i] == l[i];
  }

  /** `t` occurs in `s` starting at index `i`. */
  predicate OccursAt(s: string, t: string, i: nat)
  {
    i + |t| <= |s| && s[i..i + |t|] == t
  }

  /** `String.prototype.includes`: `t` occurs somewhere in `s`. */
  function Contains(s: string, t: string): (b: bool)
    ensures b <==> exists i: nat :: OccursAt(s, t, i)
    decreases |s|
  {
    if |t| <= |s| && s[..|t|] == t then
      assert OccursAt(s, t, 0);
      true
    else if s == [] then
      assert forall i: nat :: !OccursAt(s, t, i);
      false
    else
      var b := Contains(s[1..], t);
      assert b ==> exists i: nat :: OccursAt(s, t, i) by {
        if b {
          var i: nat :| OccursAt(s[1..], t, i);
          assert s[1..][i..i + |t|] == s[i + 1..i + 1 + |t|];
          assert OccursAt(s, t, i + 1);
        }
      }
      assert (exists i: nat :: OccursAt(s, t, i)) ==> b by {
        if exists i: nat :: OccursAt(s, t, i) {
          var i: nat :| OccursAt(s, t, i);
          assert i != 0;
          assert s[1..][i - 1..i - 1 + |t|] == s[i..i + |t|];
          assert OccursAt(s[1..], t, i - 1);
        }
      }
      b
  }

  /** Every string includes the empty string. */
  lemma ContainsEmpty(s: string)
    ensures Contains(s, [])
  {
    assert OccursAt(s, [], 0);
  }
}
