/** What the desktop's TextDecoder makes of well-formed octets: the UTF-16 form of their code points. */
module DesktopText {
  import opened Basics
  import opened Utf8
  import opened Utf16
  import opened JsonStrings

  function UnitsFrom(text: Text, cursor: nat): Text
    requires ValidFrom(text, cursor)
    decreases |text| - cursor
  {
    if cursor >= |text| then []
    else
      var d := DecodeOne(text, cursor);
      EncodeDecoded(text, cursor);
      UnitsOfScalar(d.value) + UnitsFrom(text, cursor + d.width)
  }

  function UnitsOfText(text: Text): Text
    requires Valid(text)
  {
    UnitsFrom(text, 0)
  }

  // ----- Code points in between -----

  lemma {:induction false} UnitsOfEncoded(text: Text, cursor: nat, vs: seq<Scalar>)
    requires At(text, cursor, EncodeAll(vs)) && cursor + |EncodeAll(vs)| == |text|
    ensures ValidFrom(text, cursor) && UnitsFrom(text, cursor) == ToUtf16(vs)
    decreases |vs|
  {
    hide EncodeScalar, DecodeOne, UnitsOfScalar;
    if vs != [] {
      AtConcat(text, cursor, EncodeScalar(vs[0]), EncodeAll(vs[1..]));
      DecodeEncoded(text, cursor, vs[0]);
      UnitsOfEncoded(text, cursor + |EncodeScalar(vs[0])|, vs[1..]);
    }
  }

  lemma UnitsAreUtf16(vs: seq<Scalar>)
    ensures Valid(EncodeAll(vs)) && UnitsOfText(EncodeAll(vs)) == ToUtf16(vs)
  {
    UnitsOfEncoded(EncodeAll(vs), 0, vs);
  }

  lemma ScalarsOf(text: Text) returns (vs: seq<Scalar>)
    requires Valid(text)
    ensures text == EncodeAll(vs) && UnitsOfText(text) == ToUtf16(vs)
  {
    vs := ValidIsEncoded(text, 0);
    UnitsAreUtf16(vs);
  }

  lemma {:induction false} ToUtf16Concat(a: seq<Scalar>, b: seq<Scalar>)
    ensures ToUtf16(a + b) == ToUtf16(a) + ToUtf16(b)
  {
    hide UnitsOfScalar;
    if a == [] {
      assert a + b == b;
    } else {
      assert (a + b)[1..] == a[1..] + b;
      ToUtf16Concat(a[1..], b);
    }
  }

  lemma UnitsConcat(a: Text, b: Text)
    requires Valid(a) && Valid(b)
    ensures Valid(a + b) && UnitsOfText(a + b) == UnitsOfText(a) + UnitsOfText(b)
  {
    hide Valid, UnitsOfText, EncodeAll, ToUtf16;
    var x := ScalarsOf(a);
    var y := ScalarsOf(b);
    EncodeAllConcat(x, y);
    ToUtf16Concat(x, y);
    UnitsAreUtf16(x + y);
  }

  // ----- ASCII -----

  predicate IsAscii(s: Text) {
    forall k | 0 <= k < |s| :: 0 <= s[k] < 0x80
  }

  lemma {:induction false} AsciiEncoded(s: Text)
    requires IsAscii(s)
    ensures var vs: seq<Scalar> := s; EncodeAll(vs) == s && ToUtf16(vs) == s
  {
    if s != [] {
      AsciiEncoded(s[1..]);
      assert s == [s[0]] + s[1..];
    }
  }

  lemma AsciiUnits(s: Text)
    requires IsAscii(s)
    ensures Valid(s) && UnitsOfText(s) == s
  {
    AsciiEncoded(s);
    UnitsAreUtf16(s);
  }

  /** An ASCII prefix stands as it is. */
  lemma PeelAscii(x: Text, y: Text)
    requires IsAscii(x)
    ensures Valid(x + y) <==> Valid(y)
    ensures Valid(y) ==> Valid(x + y) && UnitsOfText(x + y) == x + UnitsOfText(y)
  {
    assert (x + y)[|x|..] == y;
    assert forall k | 0 <= k < |x| :: (x + y)[k] == x[k];
    AsciiRun(x + y, 0, |x|);
    hide UnitsOfText;
    if ValidFrom(x + y, |x|) {
      var vs := ValidIsEncoded(x + y, |x|);
      ReadEncoded(y, 0, vs);
    }
    if Valid(y) {
      AsciiUnits(x);
      UnitsConcat(x, y);
    }
  }

  /** Well-formed text before an ASCII character or the end can be cut there. */
  lemma SplitBeforeAscii(x: Text, y: Text)
    requires Valid(x + y) && (y == [] || 0 <= y[0] < 0x80)
    ensures Valid(x) && Valid(y) && UnitsOfText(x + y) == UnitsOfText(x) + UnitsOfText(y)
  {
    hide UnitsOfText, DecodeOne;
    var s := x + y;
    Cut(s, 0, |x|);
    assert s[..|x|] == x && s[|x|..] == y;
    Drop(s, |x|);
    UnitsConcat(x, y);
  }

  // ----- No two texts have the same units -----

  lemma {:induction false} Utf16Determines(a: seq<Scalar>, b: seq<Scalar>)
    requires ToUtf16(a) == ToUtf16(b)
    ensures a == b
  {
    if a != [] && b != [] {
      var x, y := UnitsOfScalar(a[0]), UnitsOfScalar(b[0]);
      assert x[0] == ToUtf16(a)[0] == ToUtf16(b)[0] == y[0];
      if |x| == 2 { assert x[1] == ToUtf16(a)[1] == ToUtf16(b)[1] == y[1]; }
      ScalarDetermined(a[0], b[0]);
      assert ToUtf16(a[1..]) == ToUtf16(a)[|x|..] == ToUtf16(b[1..]);
      Utf16Determines(a[1..], b[1..]);
      assert a == [a[0]] + a[1..] && b == [b[0]] + b[1..];
    }
  }

  lemma ScalarDetermined(v: Scalar, w: Scalar)
    requires var x, y := UnitsOfScalar(v), UnitsOfScalar(w); x[0] == y[0] && (|x| == |y| == 2 ==> x[1] == y[1])
    ensures v == w
  {
  }

  lemma UnitsDetermine(a: Text, b: Text)
    requires Valid(a) && Valid(b) && UnitsOfText(a) == UnitsOfText(b)
    ensures a == b
  {
    var x := ScalarsOf(a);
    var y := ScalarsOf(b);
    Utf16Determines(x, y);
  }
}
