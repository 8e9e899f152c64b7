/** The strict UTF-8 decoder and the UTF-16-limited truncation of native/selection-host/src/core/utf8.cpp. */
module Utf8 {
  import opened Basics

  const REPLACEMENT: Scalar := 0xFFFD

  predicate IsScalar(v: int) {
    0 <= v < 0xD800 || 0xE000 <= v < 0x110000
  }

  type Scalar = v: int | 0 <= v < 0xD800 || 0xE000 <= v < 0x110000

  datatype Decoded = Decoded(value: int, width: nat, valid: bool)

  predicate IsContinuation(b: int) {
    0x80 <= b < 0xC0
  }

  function TwoByteValue(a: int, b: int): int {
    a % 32 * 64 + b % 64
  }

  function ThreeByteValue(a: int, b: int, c: int): int {
    a % 16 * 4096 + b % 64 * 64 + c % 64
  }

  function FourByteValue(a: int, b: int, c: int, d: int): int {
    a % 8 * 262144 + b % 64 * 4096 + c % 64 * 64 + d % 64
  }

  predicate ThreeByteTail(lead: int, second: int, third: int) {
    && IsContinuation(second) && !(lead == 0xE0 && second < 0xA0) && !(lead == 0xED && second >= 0xA0)
    && IsContinuation(third)
  }

  predicate FourByteTail(lead: int, second: int, third: int, fourth: int) {
    && IsContinuation(second) && !(lead == 0xF0 && second < 0x90) && !(lead == 0xF4 && second >= 0x90)
    && IsContinuation(third) && IsContinuation(fourth)
  }

  function DecodeOne(text: Text, cursor: nat): (d: Decoded)
    requires cursor < |text|
    ensures 1 <= d.width <= 4 && cursor + d.width <= |text|
  {
    var n := |text|;
    var lead := text[cursor];
    if 0 <= lead <= 0x7F then Decoded(lead, 1, true)
    else if 0xC2 <= lead <= 0xDF && cursor + 1 < n && IsContinuation(text[cursor + 1]) then
      Decoded(TwoByteValue(lead, text[cursor + 1]), 2, true)
    else if 0xE0 <= lead <= 0xEF && cursor + 2 < n && ThreeByteTail(lead, text[cursor + 1], text[cursor + 2]) then
      Decoded(ThreeByteValue(lead, text[cursor + 1], text[cursor + 2]), 3, true)
    else if 0xF0 <= lead <= 0xF4 && cursor + 3 < n
      && FourByteTail(lead, text[cursor + 1], text[cursor + 2], text[cursor + 3]) then
      Decoded(FourByteValue(lead, text[cursor + 1], text[cursor + 2], text[cursor + 3]), 4, true)
    else Decoded(REPLACEMENT, 1, false)
  }

  /** AppendUtf8 of envelope.cpp: the octets of one code point. */
  function EncodeScalar(v: Scalar): (r: Text)
    ensures 1 <= |r| <= 4
    ensures forall k | 0 <= k < |r| :: (if v < 0x80 then 0 else 0x80) <= r[k] < 256
    ensures v < 0x80 <==> r == [v]
  {
    if v <= 0x7F then [v]
    else if v <= 0x7FF then [0xC0 + v / 64, 0x80 + v % 64]
    else if v <= 0xFFFF then [0xE0 + v / 4096, 0x80 + v / 64 % 64, 0x80 + v % 64]
    else [0xF0 + v / 262144, 0x80 + v / 4096 % 64, 0x80 + v / 64 % 64, 0x80 + v % 64]
  }

  lemma TwoBytes(v: int)
    requires 0x80 <= v <= 0x7FF
    ensures 0xC2 <= 0xC0 + v / 64 <= 0xDF && TwoByteValue(0xC0 + v / 64, 0x80 + v % 64) == v
  {
  }

  lemma ThreeBytes(v: int)
    requires IsScalar(v) && 0x800 <= v <= 0xFFFF
    ensures var lead := 0xE0 + v / 4096;
            0xE0 <= lead <= 0xEF && ThreeByteTail(lead, 0x80 + v / 64 % 64, 0x80 + v % 64)
            && ThreeByteValue(lead, 0x80 + v / 64 % 64, 0x80 + v % 64) == v
  {
    assert v / 64 / 64 == v / 4096;
  }

  lemma FourBytes(v: int)
    requires 0x10000 <= v <= 0x10FFFF
    ensures var lead := 0xF0 + v / 262144;
            0xF0 <= lead <= 0xF4 && FourByteTail(lead, 0x80 + v / 4096 % 64, 0x80 + v / 64 % 64, 0x80 + v % 64)
            && FourByteValue(lead, 0x80 + v / 4096 % 64, 0x80 + v / 64 % 64, 0x80 + v % 64) == v
  {
    assert v / 64 / 64 == v / 4096;
    assert v / 4096 / 64 == v / 262144;
  }

  lemma DecodeThree(text: Text, cursor: nat, v: int)
    requires IsScalar(v) && 0x800 <= v <= 0xFFFF && cursor + 3 <= |text|
    requires text[cursor] == 0xE0 + v / 4096 && text[cursor + 1] == 0x80 + v / 64 % 64
             && text[cursor + 2] == 0x80 + v % 64
    ensures DecodeOne(text, cursor) == Decoded(v, 3, true)
  {
    hide ThreeByteValue, ThreeByteTail;
    ThreeBytes(v);
  }

  lemma DecodeFour(text: Text, cursor: nat, v: int)
    requires 0x10000 <= v <= 0x10FFFF && cursor + 4 <= |text|
    requires text[cursor] == 0xF0 + v / 262144 && text[cursor + 1] == 0x80 + v / 4096 % 64
    requires text[cursor + 2] == 0x80 + v / 64 % 64 && text[cursor + 3] == 0x80 + v % 64
    ensures DecodeOne(text, cursor) == Decoded(v, 4, true)
  {
    hide FourByteValue, FourByteTail;
    FourBytes(v);
  }

  lemma DecodeEncoded(text: Text, cursor: nat, v: Scalar)
    requires At(text, cursor, EncodeScalar(v))
    ensures cursor < |text| && DecodeOne(text, cursor) == Decoded(v, |EncodeScalar(v)|, true)
  {
    var e := EncodeScalar(v);
    assert forall k {:trigger e[k]} | 0 <= k < |e| :: text[cursor + k] == e[k];
    assert text[cursor] == e[0];
    if v <= 0x7F {
    } else if v <= 0x7FF {
      assert text[cursor + 1] == e[1];
      TwoBytes(v);
    } else if v <= 0xFFFF {
      hide DecodeOne;
      assert text[cursor + 1] == e[1] && text[cursor + 2] == e[2];
      DecodeThree(text, cursor, v);
    } else {
      hide DecodeOne;
      assert text[cursor + 1] == e[1] && text[cursor + 2] == e[2] && text[cursor + 3] == e[3];
      DecodeFour(text, cursor, v);
    }
  }

  lemma Sextet(q: int, r: int)
    requires 0 <= r < 64
    ensures (q * 64 + r) / 64 == q && (q * 64 + r) % 64 == r
  {
  }

  lemma Sextets(top: int, middle: int, low: int)
    requires 0 <= middle < 64 && 0 <= low < 64
    ensures var v := top * 4096 + middle * 64 + low;
            v / 4096 == top && v / 64 % 64 == middle && v % 64 == low
  {
    Sextet(top * 64 + middle, low);
    Sextet(top, middle);
  }

  lemma LowBits(b: int)
    requires IsContinuation(b)
    ensures b % 64 == b - 0x80
  {
  }

  lemma ThreeByteSum(a: int, b: int, c: int)
    requires 0xE0 <= a <= 0xEF && IsContinuation(b) && IsContinuation(c)
    ensures ThreeByteValue(a, b, c) == (a - 0xE0) * 4096 + (b - 0x80) * 64 + (c - 0x80)
  {
    LowBits(b);
    LowBits(c);
  }

  lemma FourByteSum(a: int, b: int, c: int, d: int)
    requires 0xF0 <= a <= 0xF4 && IsContinuation(b) && IsContinuation(c) && IsContinuation(d)
    ensures FourByteValue(a, b, c, d) == ((a - 0xF0) * 64 + (b - 0x80)) * 4096 + (c - 0x80) * 64 + (d - 0x80)
  {
    LowBits(b);
    LowBits(c);
    LowBits(d);
  }

  lemma ThreeBytesBack(a: int, b: int, c: int)
    requires 0xE0 <= a <= 0xEF && ThreeByteTail(a, b, c)
    ensures var v := ThreeByteValue(a, b, c);
            IsScalar(v) && 0x800 <= v <= 0xFFFF && a == 0xE0 + v / 4096 && b == 0x80 + v / 64 % 64 && c == 0x80 + v % 64
  {
    hide ThreeByteValue;
    ThreeByteSum(a, b, c);
    Sextets(a - 0xE0, b - 0x80, c - 0x80);
  }

  lemma FourBytesBack(a: int, b: int, c: int, d: int)
    requires 0xF0 <= a <= 0xF4 && FourByteTail(a, b, c, d)
    ensures var v := FourByteValue(a, b, c, d);
            && 0x10000 <= v <= 0x10FFFF && a == 0xF0 + v / 262144 && b == 0x80 + v / 4096 % 64
            && c == 0x80 + v / 64 % 64 && d == 0x80 + v % 64
  {
    hide FourByteValue;
    FourByteSum(a, b, c, d);
    var high := (a - 0xF0) * 64 + (b - 0x80);
    Sextets(high, c - 0x80, d - 0x80);
    Sextet(a - 0xF0, b - 0x80);
    Quarter(high * 4096 + (c - 0x80) * 64 + (d - 0x80));
  }

  lemma Quarter(v: int)
    requires v >= 0
    ensures v / 262144 == v / 4096 / 64
  {
  }

  lemma EncodeTwo(a: int, b: int)
    requires 0xC2 <= a <= 0xDF && IsContinuation(b)
    ensures var v := TwoByteValue(a, b); IsScalar(v) && EncodeScalar(v) == [a, b]
  {
    Sextet(a - 0xC0, b - 0x80);
  }

  lemma EncodeThree(a: int, b: int, c: int)
    requires 0xE0 <= a <= 0xEF && ThreeByteTail(a, b, c)
    ensures var v := ThreeByteValue(a, b, c); IsScalar(v) && EncodeScalar(v) == [a, b, c]
  {
    hide ThreeByteValue, ThreeByteTail;
    ThreeBytesBack(a, b, c);
  }

  lemma EncodeFour(a: int, b: int, c: int, d: int)
    requires 0xF0 <= a <= 0xF4 && FourByteTail(a, b, c, d)
    ensures var v := FourByteValue(a, b, c, d); IsScalar(v) && EncodeScalar(v) == [a, b, c, d]
  {
    hide FourByteValue, FourByteTail;
    FourBytesBack(a, b, c, d);
  }

  lemma EncodeDecoded(text: Text, cursor: nat)
    requires cursor < |text| && DecodeOne(text, cursor).valid
    ensures var d := DecodeOne(text, cursor);
            IsScalar(d.value) && d.width == |EncodeScalar(d.value)| && At(text, cursor, EncodeScalar(d.value))
  {
    hide EncodeScalar, TwoByteValue, ThreeByteValue, ThreeByteTail, FourByteValue, FourByteTail;
    var d := DecodeOne(text, cursor);
    var lead := text[cursor];
    if d.width == 2 {
      EncodeTwo(lead, text[cursor + 1]);
    } else if d.width == 3 {
      EncodeThree(lead, text[cursor + 1], text[cursor + 2]);
    } else if d.width == 4 {
      EncodeFour(lead, text[cursor + 1], text[cursor + 2], text[cursor + 3]);
    }
  }

  /** UTF8-char of RFC 3629, section 4: UTF8-1 / UTF8-2 / UTF8-3 / UTF8-4. */
  predicate Utf8Char(s: Text) {
    || (|s| == 1 && 0 <= s[0] <= 0x7F)
    || (|s| == 2 && 0xC2 <= s[0] <= 0xDF && Tail(s[1]))
    || (|s| == 3 && Tail(s[2])
        && ((s[0] == 0xE0 && 0xA0 <= s[1] <= 0xBF) || (0xE1 <= s[0] <= 0xEC && Tail(s[1]))
            || (s[0] == 0xED && 0x80 <= s[1] <= 0x9F) || (0xEE <= s[0] <= 0xEF && Tail(s[1]))))
    || (|s| == 4 && Tail(s[2]) && Tail(s[3])
        && ((s[0] == 0xF0 && 0x90 <= s[1] <= 0xBF) || (0xF1 <= s[0] <= 0xF3 && Tail(s[1]))
            || (s[0] == 0xF4 && 0x80 <= s[1] <= 0x8F)))
  }

  predicate Tail(b: int) {
    0x80 <= b <= 0xBF
  }

  /** The decoder accepts at a position exactly when an RFC 3629 character stands there, and takes all of it. */
  lemma DecodeOneMeetsRfc3629(text: Text, cursor: nat, width: nat)
    requires cursor < |text| && cursor + width <= |text|
    ensures Utf8Char(text[cursor..cursor + width]) <==>
            DecodeOne(text, cursor).valid && DecodeOne(text, cursor).width == width
  {
    var s := text[cursor..cursor + width];
    assert forall k | 0 <= k < width :: s[k] == text[cursor + k];
  }

  function EncodeAll(vs: seq<Scalar>): Text {
    if vs == [] then [] else EncodeScalar(vs[0]) + EncodeAll(vs[1..])
  }

  /** Well-formed UTF-8 from position cursor on. */
  predicate ValidFrom(text: Text, cursor: nat)
    decreases |text| - cursor
  {
    cursor >= |text| || (DecodeOne(text, cursor).valid && ValidFrom(text, cursor + DecodeOne(text, cursor).width))
  }

  predicate Valid(text: Text) {
    ValidFrom(text, 0)
  }

  /** The code points a reader sees when every malformed octet and every NUL becomes U+FFFD. */
  function Scalars(text: Text, cursor: nat): (r: seq<Scalar>)
    ensures forall v | v in r :: v != 0
    decreases |text| - cursor
  {
    if cursor >= |text| then []
    else
      var d := DecodeOne(text, cursor);
      if d.valid && d.value != 0 then
        EncodeDecoded(text, cursor);
        [d.value] + Scalars(text, cursor + d.width)
      else [REPLACEMENT] + Scalars(text, cursor + d.width)
  }

  function UnitsOf(v: int): nat {
    if v > 0xFFFF then 2 else 1
  }

  function Units(vs: seq<int>): nat {
    if vs == [] then 0 else UnitsOf(vs[0]) + Units(vs[1..])
  }

  function Utf16Length(text: Text, cursor: nat): nat
    decreases |text| - cursor
  {
    if cursor >= |text| then 0
    else UnitsOf(DecodeOne(text, cursor).value) + Utf16Length(text, cursor + DecodeOne(text, cursor).width)
  }

  /** The longest prefix of vs that fits into limit UTF-16 units (see FittingIsMaximal). */
  function Fitting(vs: seq<Scalar>, limit: nat): (r: seq<Scalar>)
    ensures r <= vs
  {
    if vs == [] || UnitsOf(vs[0]) > limit then []
    else [vs[0]] + Fitting(vs[1..], limit - UnitsOf(vs[0]))
  }

  function TruncateFrom(text: Text, cursor: nat, room: nat): Text {
    EncodeAll(Fitting(Scalars(text, cursor), room))
  }

  function Truncate(text: Text, limit: nat): Text {
    TruncateFrom(text, 0, limit)
  }

  method IsValidUtf8(text: bytes) returns (valid: bool)
    ensures valid == Valid(text)
  {
    var cursor := 0;
    while cursor < |text|
      invariant ValidFrom(text, cursor) == Valid(text)
    {
      var decoded := DecodeOne(text, cursor);
      if !decoded.valid { return false; }
      cursor := cursor + decoded.width;
    }
    return true;
  }

  method Utf16CodeUnitLength(text: bytes) returns (units: nat)
    ensures units == Utf16Length(text, 0)
  {
    var cursor := 0;
    units := 0;
    while cursor < |text|
      invariant units + Utf16Length(text, cursor) == Utf16Length(text, 0)
    {
      var decoded := DecodeOne(text, cursor);
      units := units + if decoded.value > 0xFFFF then 2 else 1;
      cursor := cursor + decoded.width;
    }
  }

  /** The octets one turn of the truncation loop keeps. */
  function Kept(text: Text, cursor: nat): Text
    requires cursor < |text|
  {
    var d := DecodeOne(text, cursor);
    if d.valid && d.value != 0 then text[cursor..cursor + d.width] else [0xEF, 0xBF, 0xBD]
  }

  lemma ScalarsStep(text: Text, cursor: nat)
    requires cursor < |text|
    ensures var d := DecodeOne(text, cursor);
            var all := Scalars(text, cursor);
            && |all| > 0 && all[1..] == Scalars(text, cursor + d.width)
            && EncodeScalar(all[0]) == Kept(text, cursor) && UnitsOf(all[0]) == UnitsOf(d.value)
  {
    assert EncodeScalar(REPLACEMENT) == [0xEF, 0xBF, 0xBD];
    hide DecodeOne, EncodeScalar;
    if DecodeOne(text, cursor).valid { EncodeDecoded(text, cursor); }
  }

  lemma TruncateStep(text: Text, cursor: nat, room: nat)
    requires cursor < |text|
    ensures var d := DecodeOne(text, cursor);
            TruncateFrom(text, cursor, room) ==
            if UnitsOf(d.value) > room then []
            else Kept(text, cursor) + TruncateFrom(text, cursor + d.width, room - UnitsOf(d.value))
  {
    hide DecodeOne, EncodeScalar, Kept, Scalars;
    ScalarsStep(text, cursor);
    var all := Scalars(text, cursor);
    if UnitsOf(all[0]) <= room {
      assert Fitting(all, room)[1..] == Fitting(all[1..], room - UnitsOf(all[0]));
    }
  }

  lemma TruncateEnd(text: Text, room: nat)
    ensures TruncateFrom(text, |text|, room) == []
  {
  }

  method TruncateUtf8ToUtf16Units(text: bytes, maximumUnits: nat) returns (result: bytes)
    ensures result == Truncate(text, maximumUnits)
  {
    hide DecodeOne, TruncateFrom;
    result := [];
    var cursor, units := 0, 0;
    while cursor < |text|
      invariant cursor <= |text| && units <= maximumUnits
      invariant result + TruncateFrom(text, cursor, maximumUnits - units) == Truncate(text, maximumUnits)
    {
      var decoded := DecodeOne(text, cursor);
      var needed := if decoded.value > 0xFFFF then 2 else 1;
      TruncateStep(text, cursor, maximumUnits - units);
      if units + needed > maximumUnits { return; }
      if decoded.valid && decoded.value != 0 {
        result := result + text[cursor..cursor + decoded.width];
      } else {
        result := result + [0xEF, 0xBF, 0xBD];
      }
      cursor := cursor + decoded.width;
      units := units + needed;
    }
    TruncateEnd(text, maximumUnits - units);
  }

  // ----- Decoding and encoding are inverse -----

  lemma ReadStep(text: Text, cursor: nat, v: Scalar)
    requires At(text, cursor, EncodeScalar(v))
    ensures var next := cursor + |EncodeScalar(v)|;
            && (ValidFrom(text, cursor) <==> ValidFrom(text, next))
            && Utf16Length(text, cursor) == UnitsOf(v) + Utf16Length(text, next)
            && (v != 0 ==> Scalars(text, cursor) == [v] + Scalars(text, next))
  {
    hide DecodeOne, EncodeScalar;
    DecodeEncoded(text, cursor, v);
  }

  lemma {:induction false} ReadEncoded(text: Text, cursor: nat, vs: seq<Scalar>)
    requires At(text, cursor, EncodeAll(vs)) && cursor + |EncodeAll(vs)| == |text|
    ensures ValidFrom(text, cursor) && Utf16Length(text, cursor) == Units(vs)
    ensures 0 !in vs ==> Scalars(text, cursor) == vs
    decreases |vs|
  {
    hide EncodeScalar, DecodeOne;
    if vs != [] {
      AtConcat(text, cursor, EncodeScalar(vs[0]), EncodeAll(vs[1..]));
      ReadStep(text, cursor, vs[0]);
      ReadEncoded(text, cursor + |EncodeScalar(vs[0])|, vs[1..]);
      assert vs == [vs[0]] + vs[1..];
    }
  }

  /** Well-formed text is the encoding of code points. */
  lemma {:induction false} ValidIsEncoded(text: Text, cursor: nat) returns (vs: seq<Scalar>)
    requires cursor <= |text| && ValidFrom(text, cursor)
    ensures text[cursor..] == EncodeAll(vs) && Utf16Length(text, cursor) == Units(vs)
    decreases |text| - cursor
  {
    hide EncodeScalar, DecodeOne;
    vs := [];
    if cursor < |text| {
      EncodeDecoded(text, cursor);
      var d := DecodeOne(text, cursor);
      var rest := ValidIsEncoded(text, cursor + d.width);
      vs := [d.value] + rest;
      assert vs[1..] == rest;
      assert text[cursor..] == text[cursor..cursor + d.width] + text[cursor + d.width..];
    }
  }

  lemma ValidIffEncoding(text: Text)
    ensures Valid(text) <==> exists vs: seq<Scalar> :: EncodeAll(vs) == text
  {
    if Valid(text) {
      var vs := ValidIsEncoded(text, 0);
      assert EncodeAll(vs) == text;
    }
    forall vs: seq<Scalar> | EncodeAll(vs) == text ensures Valid(text) {
      ReadEncoded(text, 0, vs);
    }
  }

  lemma {:induction false} EncodeAllConcat(a: seq<Scalar>, b: seq<Scalar>)
    ensures EncodeAll(a + b) == EncodeAll(a) + EncodeAll(b)
  {
    if a == [] {
      assert a + b == b;
    } else {
      assert (a + b)[1..] == a[1..] + b;
      EncodeAllConcat(a[1..], b);
    }
  }

  lemma ValidConcat(a: Text, b: Text)
    requires Valid(a) && Valid(b)
    ensures Valid(a + b)
  {
    var x := ValidIsEncoded(a, 0);
    var y := ValidIsEncoded(b, 0);
    EncodeAllConcat(x, y);
    assert EncodeAll(x + y) == a + b;
    ReadEncoded(a + b, 0, x + y);
  }

  /** NUL-free code points have NUL-free octets, and only they do. */
  lemma {:induction false} NulFree(vs: seq<Scalar>)
    ensures 0 in vs <==> 0 in EncodeAll(vs)
  {
    if vs != [] {
      NulFree(vs[1..]);
      assert 0 in EncodeScalar(vs[0]) <==> vs[0] == 0;
      assert vs == [vs[0]] + vs[1..];
    }
  }

  // ----- A slice of UTF-8 between ASCII octets is UTF-8 -----

  predicate IsCut(s: Text, i: nat) {
    i == |s| || (i < |s| && 0 <= s[i] < 0x80)
  }

  lemma CutStep(s: Text, i: nat, b: nat)
    requires i < b <= |s| && IsCut(s, b) && DecodeOne(s, i).valid
    ensures var w := DecodeOne(s, i).width;
            i + w <= b && DecodeOne(s[..b], i).valid && DecodeOne(s[..b], i).width == w
  {
    EncodeDecoded(s, i);
    var v := DecodeOne(s, i).value;
    var e := EncodeScalar(v);
    assert forall k {:trigger e[k]} | 0 <= k < |e| :: s[i + k] == e[k];
    hide EncodeScalar, DecodeOne;
    assert s[..b][i..i + |e|] == s[i..i + |e|];
    DecodeEncoded(s[..b], i, v);
  }

  lemma {:induction false} Cut(s: Text, i: nat, b: nat)
    requires i <= b <= |s| && IsCut(s, b) && ValidFrom(s, i)
    ensures ValidFrom(s, b) && ValidFrom(s[..b], i)
    decreases b - i
  {
    hide DecodeOne, IsCut;
    if i < b {
      CutStep(s, i, b);
      Cut(s, i + DecodeOne(s, i).width, b);
    }
  }

  lemma Drop(s: Text, i: nat)
    requires i <= |s| && ValidFrom(s, i)
    ensures Valid(s[i..])
  {
    hide DecodeOne, EncodeScalar;
    var vs := ValidIsEncoded(s, i);
    ReadEncoded(s[i..], 0, vs);
  }

  lemma SliceIsValid(s: Text, a: nat, b: nat)
    requires a <= b <= |s| && IsCut(s, a) && IsCut(s, b) && Valid(s)
    ensures Valid(s[a..b])
  {
    hide IsCut, DecodeOne;
    Cut(s, 0, a);
    Cut(s, a, b);
    Drop(s[..b], a);
    assert s[..b][a..] == s[a..b];
  }

  // ----- The laws of truncation -----

  /** The prefix kept fits, and one more code point would not. */
  lemma {:induction false} FittingIsMaximal(vs: seq<Scalar>, limit: nat)
    ensures var k := |Fitting(vs, limit)|;
            Fitting(vs, limit) == vs[..k] && Units(vs[..k]) <= limit && (k < |vs| ==> Units(vs[..k + 1]) > limit)
  {
    if vs != [] && UnitsOf(vs[0]) <= limit {
      FittingIsMaximal(vs[1..], limit - UnitsOf(vs[0]));
      var k := |Fitting(vs, limit)|;
      assert vs[..k][1..] == vs[1..][..k - 1];
      if k < |vs| { assert vs[..k + 1][1..] == vs[1..][..k]; }
    } else if vs != [] {
      assert vs[..1][1..] == [];
      assert Units(vs[..1]) == UnitsOf(vs[0]) + Units([]);
    }
  }

  lemma {:induction false} FittingOfFitting(vs: seq<Scalar>, small: nat, large: nat)
    ensures Units(vs) <= large ==> Fitting(vs, large) == vs
    ensures small <= large ==> Fitting(vs, small) <= Fitting(vs, large)
    ensures Fitting(Fitting(vs, small), small) == Fitting(vs, small)
  {
    if vs != [] && UnitsOf(vs[0]) <= large {
      var rest := large - UnitsOf(vs[0]);
      if UnitsOf(vs[0]) <= small {
        FittingOfFitting(vs[1..], small - UnitsOf(vs[0]), rest);
      } else {
        FittingOfFitting(vs[1..], small, rest);
      }
      assert vs == [vs[0]] + vs[1..];
    } else if vs != [] && UnitsOf(vs[0]) <= small {
      FittingOfFitting(vs[1..], small - UnitsOf(vs[0]), small);
    }
  }

  lemma {:induction false} EncodeAllPrefix(a: seq<Scalar>, b: seq<Scalar>)
    requires a <= b
    ensures EncodeAll(a) <= EncodeAll(b)
  {
    assert b == a + b[|a|..];
    EncodeAllConcat(a, b[|a|..]);
  }

  lemma {:induction false} FittingNulFree(text: Text, limit: nat)
    ensures forall v | v in Fitting(Scalars(text, 0), limit) :: v != 0
  {
    var all := Scalars(text, 0);
    forall v | v in Fitting(all, limit) ensures v != 0 {
      assert v in all;
    }
  }

  lemma BrokenIsOne(text: Text, cursor: nat)
    requires cursor < |text| && (!DecodeOne(text, cursor).valid || text[cursor] == 0)
    ensures var d := DecodeOne(text, cursor); d.width == 1 && UnitsOf(d.value) == 1 && (d.valid ==> d.value == 0)
  {
  }

  /**
   * A malformed octet, and a NUL, becomes U+FFFD, the octets EF BF BD, and counts one unit; what
   * follows is read on.
   */
  lemma BrokenIsReplaced(text: Text, cursor: nat, limit: nat)
    requires cursor < |text| && limit > 0 && (!DecodeOne(text, cursor).valid || text[cursor] == 0)
    ensures Scalars(text, cursor) == [0xFFFD] + Scalars(text, cursor + 1)
    ensures TruncateFrom(text, cursor, limit) == [0xEF, 0xBF, 0xBD] + TruncateFrom(text, cursor + 1, limit - 1)
    ensures Utf16Length(text, cursor) == 1 + Utf16Length(text, cursor + 1)
  {
    BrokenIsOne(text, cursor);
    TruncateStep(text, cursor, limit);
    hide DecodeOne, EncodeScalar, TruncateFrom, UnitsOf;
  }

  /** Any input, however broken, comes out as NUL-free UTF-8 within the limit. */
  lemma TruncateIsClean(text: Text, limit: nat)
    ensures var r := Truncate(text, limit); Valid(r) && 0 !in r && Utf16Length(r, 0) <= limit
  {
    var kept := Fitting(Scalars(text, 0), limit);
    FittingNulFree(text, limit);
    NulFree(kept);
    ReadEncoded(EncodeAll(kept), 0, kept);
    FittingIsMaximal(Scalars(text, 0), limit);
  }

  /** What is kept is a prefix of the cleaned text, and the longest one that fits. */
  lemma TruncateIsMaximal(text: Text, limit: nat) returns (k: nat)
    ensures var all := Scalars(text, 0);
            k <= |all| && Truncate(text, limit) == EncodeAll(all[..k])
            && (k < |all| ==> Utf16Length(EncodeAll(all[..k + 1]), 0) > limit)
  {
    var all := Scalars(text, 0);
    k := |Fitting(all, limit)|;
    FittingIsMaximal(all, limit);
    if k < |all| {
      ReadEncoded(EncodeAll(all[..k + 1]), 0, all[..k + 1]);
    }
  }

  lemma TruncateIsIdempotentAndMonotone(text: Text, small: nat, large: nat)
    requires small <= large
    ensures Truncate(text, small) <= Truncate(text, large)
    ensures Truncate(Truncate(text, small), large) == Truncate(text, small)
  {
    var all := Scalars(text, 0);
    var kept := Fitting(all, small);
    FittingOfFitting(all, small, large);
    EncodeAllPrefix(kept, Fitting(all, large));
    FittingNulFree(text, small);
    ReadEncoded(EncodeAll(kept), 0, kept);
    FittingIsMaximal(all, small);
    FittingOfFitting(kept, small, large);
  }

  /** Exactly the clean texts that fit pass through unchanged. */
  lemma TruncateFixesExactlyCleanText(text: Text, limit: nat)
    ensures Truncate(text, limit) == text <==> Valid(text) && 0 !in text && Utf16Length(text, 0) <= limit
  {
    TruncateIsClean(text, limit);
    if Valid(text) && 0 !in text && Utf16Length(text, 0) <= limit {
      var vs := ValidIsEncoded(text, 0);
      NulFree(vs);
      ReadEncoded(text, 0, vs);
      FittingOfFitting(vs, 0, limit);
    }
  }
}
