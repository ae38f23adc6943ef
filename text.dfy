/**
 * The string operations the filter relies on: ASCII case mapping in place of
 * JavaScript's `toLowerCase`, and substring search in place of `String.prototype.includes`.
 */
module Text {

  predicate IsUpperChar(ch: char) {
    'A' <= ch <= 'Z'
  }

  predicate IsLowerChar(ch: char) {
    'a' <= ch <= 'z'
  }

  /** ASCII lower-casing of one character; every other character is left alone. */
  function LowerChar(ch: char): char {
    if IsUpperChar(ch) then (ch as int + 32) as char else ch
  }

  /** ASCII upper-casing of one character; every other character is left alone. */
  function UpperChar(ch: char): char {
    if IsLowerChar(ch) then (ch as int - 32) as char else ch
  }

  /** `s.toLowerCase()`, restricted to ASCII letters. */
  function ToLower(s: string): (r: string)
    ensures |r| == |s|
    ensures forall i :: 0 <= i < |s| ==> r[i] == LowerChar(s[i])
    ensures forall i :: 0 <= i < |r| ==> !IsUpperChar(r[i])
  {
    if s == [] then [] else [LowerChar(s[0])] + ToLower(s[1..])
  }

  /** `s.toUpperCase()`, restricted to ASCII letters. */
  function ToUpper(s: string): (r: string)
    ensures |r| == |s|
    ensures forall i :: 0 <= i < |s| ==> r[i] == UpperChar(s[i])
    ensures forall i :: 0 <= i < |r| ==> !IsLowerChar(r[i])
  {
    if s == [] then [] else [UpperChar(s[0])] + ToUpper(s[1..])
  }

  /** Lower-casing twice is lower-casing once. */
  lemma ToLowerIdempotent(s: string)
    ensures ToLower(ToLower(s)) == ToLower(s)
  {
  }

  /** Upper-casing first does not change the lower-cased text. */
  lemma ToLowerOfToUpper(s: string)
    ensures ToLower(ToUpper(s)) == ToLower(s)
  {
  }

  /** `p` is a prefix of `s`. */
  predicate IsPrefix(p: string, s: string) {
    |p| <= |s| && s[..|p|] == p
  }

  /** `sub` occurs in `s` starting at index `i`. */
  ghost predicate OccursAt(s: string, sub: string, i: int) {
    0 <= i && i + |sub| <= |s| && s[i..i + |sub|] == sub
  }

  /**
   * `s.includes(sub)`: some suffix of `s` starts with `sub`. The empty string
   * is contained in every string, and nothing longer than `s` is contained in it.
   */
  function Contains(s: string, sub: string): (r: bool)
    decreases |s|
    ensures sub == [] ==> r
    ensures r ==> |sub| <= |s|
  {
    IsPrefix(sub, s) || (s != [] && Contains(s[1..], sub))
  }

  /** An occurrence at any position makes `Contains` true. */
  lemma {:induction false} OccursImpliesContains(s: string, sub: string, i: int)
    requires OccursAt(s, sub, i)
    decreases i
    ensures Contains(s, sub)
  {
    if i > 0 {
      assert s[1..][i - 1..i - 1 + |sub|] == s[i..i + |sub|];
      OccursImpliesContains(s[1..], sub, i - 1);
    }
  }

  /** `Contains` finds an occurrence: the returned index is one. */
  lemma {:induction false} ContainsImpliesOccurs(s: string, sub: string) returns (i: int)
    requires Contains(s, sub)
    decreases |s|
    ensures OccursAt(s, sub, i)
  {
    if IsPrefix(sub, s) {
      i := 0;
    } else {
      var j := ContainsImpliesOccurs(s[1..], sub);
      assert s[1..][j..j + |sub|] == s[j + 1..j + 1 + |sub|];
      i := j + 1;
    }
  }

  /** Every character of a contained text is a character of the text containing it. */
  lemma ContainsChars(s: string, sub: string, k: int)
    requires Contains(s, sub) && 0 <= k < |sub|
    ensures sub[k] in s
  {
    var i := ContainsImpliesOccurs(s, sub);
    assert s[i..i + |sub|][k] == s[i + k];
  }

  /** `Contains` agrees with the positional definition of a substring, in both directions. */
  lemma ContainsIffOccurs(s: string, sub: string)
    ensures Contains(s, sub) <==> exists i :: OccursAt(s, sub, i)
  {
    if Contains(s, sub) {
      var i := ContainsImpliesOccurs(s, sub);
    }
    forall i | OccursAt(s, sub, i)
      ensures Contains(s, sub)
    {
      OccursImpliesContains(s, sub, i);
    }
  }
}
