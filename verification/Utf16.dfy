/** The UTF-16 guard and the range check of packages/contracts/src/native-ipc.ts. */
module Utf16 {
  import opened Basics
  import opened Utf8

  const MAX_SELECTION_TEXT_LENGTH := 32768
  const MAX_SELECTION_RANGES := 256

  predicate IsHigh(unit: int) {
    0xD800 <= unit <= 0xDBFF
  }

  predicate IsLow(unit: int) {
    0xDC00 <= unit <= 0xDFFF
  }

  // ----- UTF-16 as section 2 of RFC 2781 defines it -----

  function UnitsOfScalar(v: Scalar): (r: Text)
    ensures |r| == UnitsOf(v)
  {
    if v <= 0xFFFF then [v] else [0xD800 + (v - 0x10000) / 1024, 0xDC00 + (v - 0x10000) % 1024]
  }

  function ToUtf16(vs: seq<Scalar>): (r: Text)
    ensures |r| == Units(vs)
  {
    if vs == [] then [] else UnitsOfScalar(vs[0]) + ToUtf16(vs[1..])
  }

  /** NUL-free text whose surrogates all come in pairs, from index on. */
  predicate PairedFrom(value: Text, index: nat)
    decreases |value| - index
  {
    if index >= |value| then true
    else if IsHigh(value[index]) then
      index + 1 < |value| && IsLow(value[index + 1]) && PairedFrom(value, index + 2)
    else 0 < value[index] <= 0xFFFF && !IsLow(value[index]) && PairedFrom(value, index + 1)
  }

  predicate Paired(value: Text) {
    PairedFrom(value, 0)
  }

  predicate IsUnits(value: Text) {
    forall k | 0 <= k < |value| :: 0 <= value[k] <= 0xFFFF
  }

  // ----- The guard as written -----

  /** charCodeAt: past the end there is no number, and no comparison with it holds. */
  function CharCodeAt(value: Text, index: nat): Option<int> {
    if index < |value| then Some(value[index]) else None
  }

  predicate GuardFrom(value: Text, index: nat)
    decreases |value| - index
  {
    if index >= |value| then true
    else if value[index] == 0 then false
    else if IsHigh(value[index]) then
      var next := CharCodeAt(value, index + 1);
      if next.Some? && (next.value < 0xDC00 || next.value > 0xDFFF) then false else GuardFrom(value, index + 2)
    else if IsLow(value[index]) then false
    else GuardFrom(value, index + 1)
  }

  predicate Guard(value: Text) {
    GuardFrom(value, 0)
  }

  method HasValidUtf16AndNoNul(value: Text) returns (valid: bool)
    ensures valid == Guard(value)
  {
    var index := 0;
    while index < |value|
      invariant GuardFrom(value, index) == Guard(value)
      decreases |value| - index
    {
      var unit := value[index];
      if unit == 0 { return false; }
      if 0xD800 <= unit <= 0xDBFF {
        var next := CharCodeAt(value, index + 1);
        if next.Some? && (next.value < 0xDC00 || next.value > 0xDFFF) { return false; }
        index := index + 1;
      } else if 0xDC00 <= unit <= 0xDFFF {
        return false;
      }
      index := index + 1;
    }
    return true;
  }

  /** The text checks of isSelectionResult. */
  predicate TextAccepted(value: Text) {
    1 <= |value| <= MAX_SELECTION_TEXT_LENGTH && Guard(value)
  }

  // ----- What the guard accepts -----

  lemma {:induction false} PairedIsUtf16(value: Text, index: nat) returns (vs: seq<Scalar>)
    requires index <= |value| && PairedFrom(value, index)
    ensures 0 !in vs && ToUtf16(vs) == value[index..]
    decreases |value| - index
  {
    vs := [];
    if index < |value| {
      var unit := value[index];
      var v, width := unit, 1;
      if IsHigh(unit) {
        v, width := 0x10000 + (unit - 0xD800) * 1024 + (value[index + 1] - 0xDC00), 2;
      }
      assert UnitsOfScalar(v) == value[index..index + width];
      var rest := PairedIsUtf16(value, index + width);
      vs := [v] + rest;
      assert value[index..] == value[index..index + width] + value[index + width..];
    }
  }

  lemma {:induction false} Utf16IsPaired(value: Text, index: nat, vs: seq<Scalar>)
    requires index <= |value| && value[index..] == ToUtf16(vs) && 0 !in vs
    ensures PairedFrom(value, index)
    decreases |vs|
  {
    if vs != [] {
      var u := UnitsOfScalar(vs[0]);
      assert forall k {:trigger u[k]} | 0 <= k < |u| :: value[index..][k] == u[k];
      assert value[index + |u|..] == value[index..][|u|..];
      Utf16IsPaired(value, index + |u|, vs[1..]);
      assert value[index] == u[0];
      if |u| == 2 { assert value[index + 1] == u[1]; }
    }
  }

  lemma PairedIffUtf16(value: Text)
    ensures Paired(value) <==> exists vs: seq<Scalar> :: 0 !in vs && ToUtf16(vs) == value
  {
    if Paired(value) {
      var vs := PairedIsUtf16(value, 0);
      assert ToUtf16(vs) == value;
    }
    forall vs: seq<Scalar> | 0 !in vs && ToUtf16(vs) == value ensures Paired(value) {
      Utf16IsPaired(value, 0, vs);
    }
  }

  predicate EndsHigh(value: Text) {
    value != [] && IsHigh(value[|value| - 1])
  }

  lemma {:induction false} GuardExtentFrom(value: Text, index: nat)
    requires IsUnits(value) && index <= |value|
    ensures GuardFrom(value, index) <==>
            PairedFrom(value, index) || (EndsHigh(value) && index < |value| && PairedFrom(value[..|value| - 1], index))
    decreases |value| - index
  {
    if index < |value| {
      var cut := value[..|value| - 1];
      if IsHigh(value[index]) {
        if index + 1 < |value| {
          GuardExtentFrom(value, index + 2);
        } else {
          assert PairedFrom(cut, index);
        }
      } else {
        GuardExtentFrom(value, index + 1);
      }
    }
  }

  /**
   * The guard accepts well-formed NUL-free UTF-16 and one thing more: such a text followed by a lone high
   * surrogate, because the code after the last unit is NaN and fails both rejecting comparisons.
   */
  lemma GuardAcceptsExactly(value: Text)
    requires IsUnits(value)
    ensures Guard(value) <==> Paired(value) || (EndsHigh(value) && Paired(value[..|value| - 1]))
    ensures Paired(value) <==> Guard(value) && !EndsHigh(value)
  {
    GuardExtentFrom(value, 0);
    if Paired(value) && value != [] { PairedEnd(value, 0); }
  }

  /** The texts accepted: one to 32768 units of what the guard accepts. */
  lemma TextsAccepted(value: Text)
    requires IsUnits(value)
    ensures TextAccepted(value) <==>
            1 <= |value| <= 32768 && (Paired(value) || (EndsHigh(value) && Paired(value[..|value| - 1])))
  {
    GuardAcceptsExactly(value);
  }

  lemma {:induction false} PairedEnd(value: Text, index: nat)
    requires PairedFrom(value, index) && index < |value|
    ensures !EndsHigh(value)
    decreases |value| - index
  {
    var next := if IsHigh(value[index]) then index + 2 else index + 1;
    if next < |value| { PairedEnd(value, next); }
  }

  // ----- Ranges -----

  /** A range of isSelectionResult; fieldsValid stands for the checks on its own keys, text and rectangles. */
  datatype Range = Range(start: int, end: int, fieldsValid: bool)

  predicate IsUtf16Boundary(value: Text, offset: int) {
    if offset <= 0 || offset >= |value| then true else !IsLow(value[offset])
  }

  predicate RangeAccepted(text: Text, range: Range, previousEnd: int) {
    && range.fieldsValid && range.start >= 0 && range.end >= 1 && range.end > range.start && range.end <= |text|
    && range.start >= previousEnd && IsUtf16Boundary(text, range.start) && IsUtf16Boundary(text, range.end)
  }

  predicate RangesAccepted(text: Text, ranges: seq<Range>, previousEnd: int) {
    ranges == [] || (RangeAccepted(text, ranges[0], previousEnd) && RangesAccepted(text, ranges[1..], ranges[0].end))
  }

  method CheckRanges(text: Text, ranges: seq<Range>) returns (accepted: bool)
    ensures accepted == (|ranges| <= MAX_SELECTION_RANGES && RangesAccepted(text, ranges, 0))
  {
    if |ranges| > MAX_SELECTION_RANGES { return false; }
    var previousEnd := 0;
    for i := 0 to |ranges|
      invariant RangesAccepted(text, ranges[i..], previousEnd) == RangesAccepted(text, ranges, 0)
    {
      var range := ranges[i];
      assert ranges[i..][0] == range && ranges[i..][1..] == ranges[i + 1..];
      if !range.fieldsValid || range.start < 0 || range.end < 1 || range.end <= range.start || range.end > |text| {
        return false;
      }
      if range.start < previousEnd || !IsUtf16Boundary(text, range.start) || !IsUtf16Boundary(text, range.end) {
        return false;
      }
      previousEnd := range.end;
    }
    return true;
  }

  lemma {:induction false} AcceptedEach(text: Text, ranges: seq<Range>, previousEnd: int, j: nat)
    requires RangesAccepted(text, ranges, previousEnd) && j < |ranges|
    ensures previousEnd <= ranges[j].start < ranges[j].end <= |text| && ranges[j].start >= 0
    ensures IsUtf16Boundary(text, ranges[j].start) && IsUtf16Boundary(text, ranges[j].end)
    decreases j
  {
    if j > 0 { AcceptedEach(text, ranges[1..], ranges[0].end, j - 1); }
  }

  /** The position cuts no surrogate pair: no low surrogate stands there. */
  predicate CutsNoPair(text: Text, offset: int) {
    0 < offset < |text| ==> !(0xDC00 <= text[offset] <= 0xDFFF)
  }

  /**
   * The j-th range is one: not empty, inside the text, not before the end of the one ahead of it, cut
   * between characters.
   */
  predicate IsRange(text: Text, ranges: seq<Range>, previousEnd: int, j: nat)
    requires j < |ranges|
  {
    var r, ahead := ranges[j], if j == 0 then previousEnd else ranges[j - 1].end;
    && r.fieldsValid && 0 <= r.start < r.end <= |text| && ahead <= r.start
    && CutsNoPair(text, r.start) && CutsNoPair(text, r.end)
  }

  /** Ranges are accepted exactly when each is one; ranges that touch are fine. */
  lemma {:induction false} AcceptedExactly(text: Text, ranges: seq<Range>, previousEnd: int)
    ensures RangesAccepted(text, ranges, previousEnd) <==>
            forall j | 0 <= j < |ranges| :: IsRange(text, ranges, previousEnd, j)
    decreases |ranges|
  {
    if ranges != [] {
      var rest := ranges[1..];
      AcceptedExactly(text, rest, ranges[0].end);
      assert forall j {:trigger IsRange(text, rest, ranges[0].end, j)} | 0 <= j < |rest| ::
          IsRange(text, rest, ranges[0].end, j) == IsRange(text, ranges, previousEnd, j + 1);
      assert RangeAccepted(text, ranges[0], previousEnd) == IsRange(text, ranges, previousEnd, 0);
      hide IsRange, RangeAccepted;
      forall j | 0 < j < |ranges| ensures IsRange(text, ranges, previousEnd, j)
        == IsRange(text, rest, ranges[0].end, j - 1) { }
    }
  }

  /** Accepted ranges stand in text order and do not overlap. */
  lemma {:induction false} AcceptedAreDisjoint(text: Text, ranges: seq<Range>, previousEnd: int, i: nat, j: nat)
    requires RangesAccepted(text, ranges, previousEnd) && i < j < |ranges|
    ensures ranges[i].end <= ranges[j].start
    decreases i
  {
    if i > 0 {
      AcceptedAreDisjoint(text, ranges[1..], ranges[0].end, i - 1, j - 1);
    } else {
      AcceptedEach(text, ranges[1..], ranges[0].end, j - 1);
    }
  }

  /** Cutting well-formed text at a boundary leaves two well-formed halves. */
  lemma {:induction false} PairedCut(text: Text, index: nat, cut: nat)
    requires PairedFrom(text, index) && index <= cut <= |text| && IsUtf16Boundary(text, cut)
             && (index == cut == 0 || cut > 0)
    ensures PairedFrom(text[..cut], index) && PairedFrom(text, cut)
    decreases cut - index
  {
    if index < cut {
      var next := if IsHigh(text[index]) then index + 2 else index + 1;
      PairedCut(text, next, cut);
    }
  }

  lemma {:induction false} PairedShift(text: Text, from: nat, index: nat)
    requires from <= index <= |text|
    ensures PairedFrom(text[from..], index - from) == PairedFrom(text, index)
    decreases |text| - index
  {
    if index < |text| {
      if index + 2 <= |text| { PairedShift(text, from, index + 2); }
      PairedShift(text, from, index + 1);
    }
  }

  lemma PairedSlice(text: Text, start: nat, end: nat)
    requires Paired(text) && start < end <= |text| && IsUtf16Boundary(text, start) && IsUtf16Boundary(text, end)
    ensures Paired(text[start..end])
  {
    PairedCut(text, 0, start);
    PairedCut(text, start, end);
    PairedShift(text[..end], start, start);
    assert text[..end][start..] == text[start..end];
  }

  /**
   * On text the guard accepted, an accepted range cuts out well-formed UTF-16 unless it reaches the end of a
   * text that ends in a high surrogate; then it never does.
   */
  lemma AcceptedSlices(text: Text, ranges: seq<Range>, j: nat)
    requires IsUnits(text) && Guard(text) && RangesAccepted(text, ranges, 0) && j < |ranges|
    ensures 0 <= ranges[j].start < ranges[j].end <= |text|
    ensures Paired(text[ranges[j].start..ranges[j].end]) <==> !(ranges[j].end == |text| && EndsHigh(text))
  {
    AcceptedEach(text, ranges, 0, j);
    GuardAcceptsExactly(text);
    var start, end := ranges[j].start, ranges[j].end;
    if !EndsHigh(text) {
      PairedSlice(text, start, end);
    } else if end < |text| {
      var kept := text[..|text| - 1];
      PairedSlice(kept, start, end);
      assert kept[start..end] == text[start..end];
    } else {
      var slice := text[start..end];
      assert slice[|slice| - 1] == text[|text| - 1];
      if Paired(slice) { PairedEnd(slice, 0); }
    }
  }

  /**
   * The input where both fail: a one-unit text that the guard accepts although it is no Unicode text, and the range of
   * its only unit, which is accepted too and cuts out the same.
   */
  lemma LoneHighSurrogatePasses()
    ensures var text, range := [0xD800], Range(0, 1, true);
            && Guard(text) && !Paired(text) && TextAccepted(text)
            && RangesAccepted(text, [range], 0) && !Paired(text[range.start..range.end])
  {
    var text, ranges := [0xD800], [Range(0, 1, true)];
    assert ranges[1..] == [];
    AcceptedSlices(text, ranges, 0);
  }

  /** Whatever the host selects, its truncated text passes the desktop's guard, whole-text range included. */
  lemma HostTextPassesGuard(raw: Text, limit: nat, vs: seq<Scalar>)
    requires EncodeAll(vs) == Truncate(raw, limit) && vs != []
    ensures var text := ToUtf16(vs);
            && |text| == Utf16Length(Truncate(raw, limit), 0) && 1 <= |text| <= limit
            && Paired(text) && (limit <= MAX_SELECTION_TEXT_LENGTH ==> TextAccepted(text))
            && RangesAccepted(text, [Range(0, |text|, true)], 0)
  {
    var host := Truncate(raw, limit);
    TruncateIsClean(raw, limit);
    NulFree(vs);
    ReadEncoded(host, 0, vs);
    var text := ToUtf16(vs);
    Utf16IsPaired(text, 0, vs);
    PairedPasses(text, 0);
    var whole := [Range(0, |text|, true)];
    assert whole[1..] == [];
  }

  lemma {:induction false} PairedPasses(value: Text, index: nat)
    requires PairedFrom(value, index)
    ensures GuardFrom(value, index)
    decreases |value| - index
  {
    if index < |value| {
      PairedPasses(value, if IsHigh(value[index]) then index + 2 else index + 1);
    }
  }
}
