/** JavaScript string primitives the authentication code relies on: `trim()`,
    `toLowerCase()` (on ASCII letters) and the UTF-16 `.length`.
    Strings are sequences of Unicode scalar values. */
module Text {

  /** The code points `String.prototype.trim` removes: the ECMAScript
      WhiteSpace and LineTerminator productions. */
  predicate IsSpace(c: char) {
    var n := c as int;
    n == 0x09 || n == 0x0A || n == 0x0B || n == 0x0C || n == 0x0D || n == 0x20
    || n == 0xA0 || n == 0x1680 || (0x2000 <= n <= 0x200A) || n == 0x2028
    || n == 0x2029 || n == 0x202F || n == 0x205F || n == 0x3000 || n == 0xFEFF
  }

  predicate AllSpace(s: string) {
    forall i :: 0 <= i < |s| ==> IsSpace(s[i])
  }

  /** Neither end of `s` is white space. */
  predicate IsTrimmed(s: string) {
    |s| == 0 || (!IsSpace(s[0]) && !IsSpace(s[|s| - 1]))
  }

  /** The end of the run of white space that starts at `i`. */
  function SkipSpaces(s: string, i: nat): (k: nat)
    requires i <= |s|
    ensures i <= k <= |s|
    ensures forall j :: i <= j < k ==> IsSpace(s[j])
    ensures k == |s| || !IsSpace(s[k])
    decreases |s| - i
  {
    if i < |s| && IsSpace(s[i]) then SkipSpaces(s, i + 1) else i
  }

  /** The start of the run of white space that ends at `e`, not going
      below `lo`. */
  function BackSpaces(s: string, lo: nat, e: nat): (k: nat)
    requires lo <= e <= |s|
    ensures lo <= k <= e
    ensures forall j :: k <= j < e ==> IsSpace(s[j])
    ensures k == lo || !IsSpace(s[k - 1])
    decreases e
  {
    if e > lo && IsSpace(s[e - 1]) then BackSpaces(s, lo, e - 1) else e
  }

  /** `String.prototype.trim`: the part of `s` between its leading and its
      trailing white space. `TrimParts` and `TrimCharacterized` below pin
      the result down. */
  function Trim(s: string): (r: string)
    ensures IsTrimmed(r)
    ensures |r| <= |s|
  {
    var lo := SkipSpaces(s, 0);
    s[lo..BackSpaces(s, lo, |s|)]
  }

  /** `SkipSpaces` stops at the first character that is not white space:
      its contract leaves no other stopping point. */
  lemma SkipSpacesAt(s: string, i: nat, k: nat)
    requires i <= k <= |s|
    requires forall j :: i <= j < k ==> IsSpace(s[j])
    requires k == |s| || !IsSpace(s[k])
    ensures SkipSpaces(s, i) == k
  {
  }

  /** `BackSpaces` stops after the last character that is not white space:
      its contract leaves no other stopping point. */
  lemma BackSpacesAt(s: string, lo: nat, e: nat, k: nat)
    requires lo <= k <= e <= |s|
    requires forall j :: k <= j < e ==> IsSpace(s[j])
    requires k == lo || !IsSpace(s[k - 1])
    ensures BackSpaces(s, lo, e) == k
  {
  }

  /** `Trim` is determined by its contract: whenever `s` is a trimmed core
      between two runs of white space, `Trim(s)` is that core. */
  lemma TrimCharacterized(a: string, t: string, b: string)
    requires AllSpace(a) && AllSpace(b) && IsTrimmed(t)
    ensures Trim(a + t + b) == t
  {
    var s := a + t + b;
    assert forall j :: 0 <= j < |a| ==> s[j] == a[j];
    assert forall j :: 0 <= j < |t| ==> s[|a| + j] == t[j];
    assert forall j :: |a| + |t| <= j < |s| ==> s[j] == b[j - |a| - |t|];
    if |t| == 0 {
      SkipSpacesAt(s, 0, |s|);
      BackSpacesAt(s, |s|, |s|, |s|);
    } else {
      SkipSpacesAt(s, 0, |a|);
      BackSpacesAt(s, |a|, |s|, |a| + |t|);
      assert s[|a|..|a| + |t|] == t;
    }
  }

  lemma TrimIdempotent(s: string)
    ensures Trim(Trim(s)) == Trim(s)
  {
    var t := Trim(s);
    assert t == [] + t + [];
    TrimCharacterized([], t, []);
  }

  /** `toLowerCase` on one character, ASCII letters only. */
  function LowerChar(c: char): char {
    if 'A' <= c <= 'Z' then (c as int + 32) as char else c
  }

  predicate IsLowerCase(s: string) {
    forall i :: 0 <= i < |s| ==> !('A' <= s[i] <= 'Z')
  }

  /** `String.prototype.toLowerCase`, restricted to the ASCII letters. */
  function Lower(s: string): (r: string)
    ensures |r| == |s|
    ensures forall i :: 0 <= i < |s| ==> r[i] == LowerChar(s[i])
    ensures IsLowerCase(r)
  {
    seq(|s|, i requires 0 <= i < |s| => LowerChar(s[i]))
  }

  lemma LowerAppend(a: string, b: string)
    ensures Lower(a + b) == Lower(a) + Lower(b)
  {
  }

  /** Lowering changes exactly the strings that hold an upper-case letter. */
  lemma LowerFixesLowerCase(s: string)
    ensures Lower(s) == s <==> IsLowerCase(s)
  {
    if IsLowerCase(s) {
      assert forall i :: 0 <= i < |s| ==> Lower(s)[i] == s[i];
    }
  }

  lemma LowerIdempotent(s: string)
    ensures Lower(Lower(s)) == Lower(s)
  {
    LowerFixesLowerCase(Lower(s));
  }

  lemma LowerKeepsSpaces(s: string)
    ensures AllSpace(s) <==> AllSpace(Lower(s))
    ensures IsTrimmed(s) <==> IsTrimmed(Lower(s))
  {
  }

  /** The white space `Trim` removed from either side of `s`. */
  lemma TrimParts(s: string) returns (a: string, b: string)
    ensures s == a + Trim(s) + b
    ensures AllSpace(a) && AllSpace(b)
  {
    var lo := SkipSpaces(s, 0);
    var hi := BackSpaces(s, lo, |s|);
    a, b := s[..lo], s[hi..];
    assert s == a + s[lo..hi] + b;
  }

  /** Trimming and lowering commute, so `s.toLowerCase().trim()` and
      `s.trim().toLowerCase()` always agree. */
  lemma TrimLowerCommute(s: string)
    ensures Trim(Lower(s)) == Lower(Trim(s))
  {
    var t := Trim(s);
    var a, b := TrimParts(s);
    assert Lower(s) == Lower(a) + Lower(t) + Lower(b) by {
      LowerAppend(a + t, b);
      LowerAppend(a, t);
    }
    LowerKeepsSpaces(a);
    LowerKeepsSpaces(b);
    LowerKeepsSpaces(t);
    TrimCharacterized(Lower(a), Lower(t), Lower(b));
  }

  /** `Lower(Trim(s))` does not start with white space. */
  lemma TrimmedLowerStartsWithNoSpace(s: string)
    ensures |Lower(Trim(s))| == 0 || !IsSpace(Lower(Trim(s))[0])
  {
    LowerKeepsSpaces(Trim(s));
  }

  /** JavaScript's `.length`: UTF-16 code units, two for a code point above
      U+FFFF. */
  function Utf16Length(s: string): (n: nat)
    ensures |s| <= n <= 2 * |s|
    ensures n == |s| <==> forall i :: 0 <= i < |s| ==> s[i] as int < 0x1_0000
    ensures |s| == 1 ==> n == CodeUnits(s[0])
    decreases |s|
  {
    if |s| == 0 then 0
    else
      var rest := Utf16Length(s[1..]);
      assert forall i :: 1 <= i < |s| ==> s[i] == s[1..][i - 1];
      CodeUnits(s[0]) + rest
  }

  /** The UTF-16 code units one character takes: a surrogate pair above
      U+FFFF. */
  function CodeUnits(c: char): nat {
    if c as int < 0x1_0000 then 1 else 2
  }

  /** `.length` adds up over concatenation; with the one-character values
      in `Utf16Length`'s contract this fixes the count of every string. */
  lemma {:induction false} Utf16LengthAppend(a: string, b: string)
    ensures Utf16Length(a + b) == Utf16Length(a) + Utf16Length(b)
    decreases |a|
  {
    if |a| == 0 {
      assert a + b == b;
    } else {
      assert (a + b)[1..] == a[1..] + b;
      Utf16LengthAppend(a[1..], b);
    }
  }
}
