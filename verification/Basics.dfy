/** Octets, text and the positional reasoning that the readers share. */
module Basics {

  datatype Option<+T> = None | Some(value: T)

  type byte = x: int | 0 <= x < 256
  type bytes = seq<byte>

  /**
   * A text is a sequence of code units: octets on the native side, UTF-16 units on the desktop side.
   * Specifications are stated over Text; a string of octets is one too.
   */
  type Text = seq<int>

  function Ascii(s: string): (r: Text)
    ensures |r| == |s| && forall i | 0 <= i < |s| :: r[i] == s[i] as int
  {
    if s == "" then [] else [s[0] as int] + Ascii(s[1..])
  }

  /** x stands in s at position i. */
  predicate At(s: Text, i: nat, x: Text) {
    i + |x| <= |s| && s[i..i + |x|] == x
  }

  lemma AtConcat(s: Text, i: nat, x: Text, y: Text)
    ensures At(s, i, x + y) <==> At(s, i, x) && At(s, i + |x|, y)
  {
    if At(s, i, x + y) {
      assert s[i..i + |x|] == (x + y)[..|x|] == x;
      assert s[i + |x|..i + |x| + |y|] == (x + y)[|x|..] == y;
    }
    if At(s, i, x) && At(s, i + |x|, y) {
      assert s[i..i + |x + y|] == s[i..i + |x|] + s[i + |x|..i + |x| + |y|];
    }
  }

  lemma AtSlice(s: Text, i: nat, x: Text)
    requires At(s, i, x)
    ensures i + |x| <= |s| && s[i..i + |x|] == x
  {
  }

  lemma AtOne(s: Text, i: nat, c: int)
    ensures At(s, i, [c]) <==> i < |s| && s[i] == c
  {
    if At(s, i, [c]) { assert s[i..i + 1][0] == s[i]; }
  }

  // ----- Identifiers -----

  const UPPER := "ABCDEFGHIJKLMNOPQRSTUVWXYZ"
  const LOWER := "abcdefghijklmnopqrstuvwxyz"
  const DIGITS := "0123456789"

  predicate IsAlphanumeric(c: char) {
    c in UPPER || c in LOWER || c in DIGITS
  }

  /** The pattern of identifiers on both sides: a letter or digit, then at most 127 letters, digits or marks. */
  predicate IsIdentifier(id: string) {
    1 <= |id| <= 128 && IsAlphanumeric(id[0]) && forall c | c in id[1..] :: IsAlphanumeric(c) || c in "._:-"
  }

  lemma UpperAre(c: char)
    ensures c in UPPER <==> 'A' <= c <= 'Z'
  {
    var k := c as int - 'A' as int;
    if 0 <= k < 26 { assert UPPER[k] == c; }
  }

  lemma LowerAre(c: char)
    ensures c in LOWER <==> 'a' <= c <= 'z'
  {
    var k := c as int - 'a' as int;
    if 0 <= k < 26 { assert LOWER[k] == c; }
  }

  lemma DigitsAre(c: char)
    ensures c in DIGITS <==> '0' <= c <= '9'
  {
    var k := c as int - '0' as int;
    if 0 <= k < 10 { assert DIGITS[k] == c; }
  }

  lemma AlphanumericsAre(c: char)
    ensures IsAlphanumeric(c) <==> 'A' <= c <= 'Z' || 'a' <= c <= 'z' || '0' <= c <= '9'
  {
    hide UPPER, LOWER, DIGITS;
    UpperAre(c);
    LowerAre(c);
    DigitsAre(c);
  }
}
