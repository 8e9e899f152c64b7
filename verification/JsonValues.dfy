/** Values of native/selection-host/src/core/envelope.cpp: SkipWhitespace and FindValueEnd. */
module JsonValues {
  import opened Basics
  import opened JsonGrammar
  import opened JsonStrings

  /** The deepest value has depth 64, that is, no room left. */
  const MAX_DEPTH: nat := 64

  datatype Read<+T> = Read(value: T, end: nat)

  function EndOf<T>(r: Option<Read<T>>): Option<nat> {
    if r.Some? then Some(r.value.end) else None
  }

  // ----- White space and digits -----

  function SkipSpace(s: Text, i: nat): (r: nat)
    ensures i <= r && (i <= |s| ==> r <= |s|)
    decreases |s| - i
  {
    if i < |s| && IsSpace(Native, s[i]) then SkipSpace(s, i + 1) else i
  }

  lemma {:induction false} SkipSpaceIs(s: Text, i: nat)
    requires i <= |s|
    ensures var r := SkipSpace(s, i); IsPad(Native, s[i..r]) && (r < |s| ==> !IsSpace(Native, s[r]))
    decreases |s| - i
  {
    if i < |s| && IsSpace(Native, s[i]) { SkipSpaceIs(s, i + 1); }
  }

  lemma {:induction false} SkipPad(s: Text, i: nat, pad: Text)
    requires At(s, i, pad) && IsPad(Native, pad)
    requires i + |pad| < |s| ==> !IsSpace(Native, s[i + |pad|])
    ensures SkipSpace(s, i) == i + |pad|
    decreases |pad|
  {
    if pad != [] {
      assert s[i] == pad[0];
      AtConcat(s, i, [pad[0]], pad[1..]);
      assert [pad[0]] + pad[1..] == pad;
      SkipPad(s, i + 1, pad[1..]);
    }
  }

  function DigitRun(s: Text, i: nat): (r: nat)
    ensures i <= r && (i <= |s| ==> r <= |s|)
    decreases |s| - i
  {
    if i < |s| && IsDigit(s[i]) then DigitRun(s, i + 1) else i
  }

  lemma {:induction false} DigitRunIs(s: Text, i: nat)
    requires i <= |s|
    ensures AreDigits(s[i..DigitRun(s, i)])
    decreases |s| - i
  {
    if i < |s| && IsDigit(s[i]) { DigitRunIs(s, i + 1); }
  }

  lemma {:induction false} DigitRunStops(s: Text, i: nat)
    ensures DigitRun(s, i) < |s| ==> !IsDigit(s[DigitRun(s, i)])
    decreases |s| - i
  {
    if i < |s| && IsDigit(s[i]) { DigitRunStops(s, i + 1); }
  }

  lemma {:induction false} DigitRunTakes(s: Text, i: nat, digits: Text)
    requires At(s, i, digits) && AreDigits(digits)
    requires i + |digits| < |s| ==> !IsDigit(s[i + |digits|])
    ensures DigitRun(s, i) == i + |digits|
    decreases |digits|
  {
    if digits != [] {
      assert s[i] == digits[0];
      AtConcat(s, i, [digits[0]], digits[1..]);
      assert [digits[0]] + digits[1..] == digits;
      DigitRunTakes(s, i + 1, digits[1..]);
    }
  }

  // ----- Numbers -----

  /** End of the integer part; a leading zero stands alone. */
  function WholeEnd(s: Text, j: nat): (r: Option<nat>)
    ensures r.Some? ==> j < r.value <= |s|
  {
    if j >= |s| then None
    else if s[j] == 0x30 then if j + 1 < |s| && IsDigit(s[j + 1]) then None else Some(j + 1)
    else if s[j] < 0x31 || s[j] > 0x39 then None
    else Some(DigitRun(s, j))
  }

  function FractionEnd(s: Text, k: nat): (r: Option<nat>)
    requires k <= |s|
    ensures r.Some? ==> k <= r.value <= |s|
  {
    if k < |s| && s[k] == POINT then
      var f := DigitRun(s, k + 1);
      if f == k + 1 then None else Some(f)
    else Some(k)
  }

  predicate HasMark(s: Text, f: nat) {
    f < |s| && (s[f] == 0x65 || s[f] == 0x45)
  }

  function ScaleAt(s: Text, f: nat): (r: Option<Read<Scale>>)
    requires f <= |s|
    ensures r.Some? ==> f <= r.value.end <= |s|
  {
    if HasMark(s, f) then
      var m := if f + 1 < |s| && (s[f + 1] == 0x2B || s[f + 1] == MINUS) then f + 2 else f + 1;
      var x := DigitRun(s, m);
      if x == m then None else Some(Read(Scale(s[f..m], s[m..x]), x))
    else Some(Read(Scale([], []), f))
  }

  function NumberAt(s: Text, i: nat): (r: Option<Read<Number>>)
    requires i < |s|
    ensures r.Some? ==> i < r.value.end <= |s|
  {
    var j := if s[i] == MINUS then i + 1 else i;
    var k := WholeEnd(s, j);
    if k.None? then None
    else
      var f := FractionEnd(s, k.value);
      if f.None? then None
      else
        var e := ScaleAt(s, f.value);
        if e.None? then None
        else Some(Read(Number(s[i] == MINUS, s[j..k.value], if f == k then [] else s[k.value + 1..f.value],
          e.value.value), e.value.end))
  }

  lemma WholeSound(s: Text, j: nat)
    requires WholeEnd(s, j).Some?
    ensures IsWhole(s[j..WholeEnd(s, j).value])
  {
    DigitRunIs(s, j);
  }

  lemma FractionSound(s: Text, k: nat)
    requires k <= |s| && FractionEnd(s, k).Some?
    ensures var f := FractionEnd(s, k).value;
            var frac := if f == k then [] else s[k + 1..f];
            AreDigits(frac) && At(s, k, FractionText(frac)) && f == k + |FractionText(frac)|
  {
    if k < |s| && s[k] == POINT {
      var f := FractionEnd(s, k).value;
      DigitRunIs(s, k + 1);
      assert s[k..f] == [POINT] + s[k + 1..f];
    }
  }

  lemma ScaleSound(s: Text, f: nat)
    requires f <= |s| && ScaleAt(s, f).Some?
    ensures var r := ScaleAt(s, f).value;
            IsScale(r.value) && At(s, f, ScaleText(r.value)) && r.end == f + |ScaleText(r.value)|
  {
    var r := ScaleAt(s, f).value;
    if HasMark(s, f) {
      DigitRunIs(s, f + |r.value.mark|);
      assert s[f..r.end] == ScaleText(r.value);
    }
  }

  lemma NumberSound(s: Text, i: nat)
    requires i < |s| && NumberAt(s, i).Some?
    ensures var r := NumberAt(s, i).value;
            IsNumber(r.value) && At(s, i, NumberText(r.value)) && r.end == i + |NumberText(r.value)|
  {
    hide *;
    var j, k, f := NumberSplits(s, i);
    WholeSound(s, j);
    FractionSound(s, k);
    ScaleSound(s, f);
    var n := NumberAt(s, i).value.value;
    NumberParts(s, i, n);
    NumberShape(n);
  }

  /** Digits are never cut: no digit follows what was read, not even after a leading zero. */
  lemma NoDigitFollows(s: Text, i: nat)
    requires i < |s| && NumberAt(s, i).Some?
    ensures var r := NumberAt(s, i).value; r.end < |s| ==> !IsDigit(s[r.end])
  {
    hide *;
    var j, k, f := NumberSplits(s, i);
    WholeStops(s, j);
    FractionEndStops(s, k);
    ScaleStops(s, f);
  }

  lemma WholeStops(s: Text, j: nat)
    ensures WholeEnd(s, j).Some? ==> (WholeEnd(s, j).value < |s| ==> !IsDigit(s[WholeEnd(s, j).value]))
  {
    DigitRunStops(s, j);
  }

  lemma FractionEndStops(s: Text, k: nat)
    requires k <= |s| && (k < |s| ==> !IsDigit(s[k]))
    ensures FractionEnd(s, k).Some? ==> (FractionEnd(s, k).value < |s| ==> !IsDigit(s[FractionEnd(s, k).value]))
  {
    DigitRunStops(s, k + 1);
  }

  lemma ScaleStops(s: Text, f: nat)
    requires f <= |s| && (f < |s| ==> !IsDigit(s[f]))
    ensures ScaleAt(s, f).Some? ==> (ScaleAt(s, f).value.end < |s| ==> !IsDigit(s[ScaleAt(s, f).value.end]))
  {
    DigitRunStops(s, f + 1);
    DigitRunStops(s, f + 2);
  }

  lemma NumberSplits(s: Text, i: nat) returns (j: nat, k: nat, f: nat)
    requires i < |s| && NumberAt(s, i).Some?
    ensures var n, end := NumberAt(s, i).value.value, NumberAt(s, i).value.end;
            && j == i + |SignText(n.negative)| && At(s, i, SignText(n.negative))
            && WholeEnd(s, j) == Some(k) && n.whole == s[j..k] && At(s, j, n.whole) && k == j + |n.whole| <= |s|
            && FractionEnd(s, k) == Some(f) && f <= |s| && n.frac == (if f == k then [] else s[k + 1..f])
            && ScaleAt(s, f) == Some(Read(n.scale, end))
  {
    hide WholeEnd, FractionEnd, ScaleAt;
    j := if s[i] == MINUS then i + 1 else i;
    k := WholeEnd(s, j).value;
    f := FractionEnd(s, k).value;
  }

  /** A number stands at i exactly when its parts stand one after the other. */
  lemma NumberParts(s: Text, i: nat, n: Number)
    ensures var j := i + |SignText(n.negative)|;
            var k := j + |n.whole|;
            var f := k + |FractionText(n.frac)|;
            && (At(s, i, NumberText(n)) <==>
                At(s, i, SignText(n.negative)) && At(s, j, n.whole) && At(s, k, FractionText(n.frac))
                  && At(s, f, ScaleText(n.scale)))
            && i + |NumberText(n)| == f + |ScaleText(n.scale)|
  {
    hide At, FractionText, ScaleText, SignText;
    var j := i + |SignText(n.negative)|;
    var k := j + |n.whole|;
    AtConcat(s, k, FractionText(n.frac), ScaleText(n.scale));
    AtConcat(s, j, n.whole, TailText(n.frac, n.scale));
    AtConcat(s, i, SignText(n.negative), n.whole + TailText(n.frac, n.scale));
  }

  lemma WholeComplete(s: Text, j: nat, w: Text)
    requires At(s, j, w) && IsWhole(w)
    requires j + |w| < |s| ==> !IsDigit(s[j + |w|])
    ensures WholeEnd(s, j) == Some(j + |w|) && s[j..j + |w|] == w && IsDigit(s[j])
  {
    assert s[j] == w[0];
    DigitRunTakes(s, j, w);
  }

  lemma FractionComplete(s: Text, k: nat, frac: Text)
    requires At(s, k, FractionText(frac)) && AreDigits(frac)
    requires var f := k + |FractionText(frac)|; f < |s| ==> !IsDigit(s[f]) && s[f] != POINT
    ensures var f := k + |FractionText(frac)|;
            FractionEnd(s, k) == Some(f) && frac == if f == k then [] else s[k + 1..f]
  {
    if frac != [] {
      AtConcat(s, k, [POINT], frac);
      assert s[k] == s[k..k + 1][0];
      DigitRunTakes(s, k + 1, frac);
    }
  }

  lemma ScaleComplete(s: Text, f: nat, e: Scale)
    requires At(s, f, ScaleText(e)) && IsScale(e) && Delimited(Native, s, f + |ScaleText(e)|)
    ensures ScaleAt(s, f) == Some(Read(e, f + |ScaleText(e)|))
    ensures f < |s| ==> !IsDigit(s[f]) && s[f] != POINT
  {
    AtConcat(s, f, e.mark, e.digits);
    if e.digits != [] {
      assert s[f + |e.mark|] == e.digits[0];
      MarkStands(s, f, e.mark);
      DigitRunTakes(s, f + |e.mark|, e.digits);
    }
  }

  lemma MarkStands(s: Text, f: nat, mark: Text)
    requires At(s, f, mark) && IsMark(mark) && f + |mark| < |s| && IsDigit(s[f + |mark|])
    ensures HasMark(s, f) && (|mark| == 2 <==> s[f + 1] == 0x2B || s[f + 1] == MINUS)
  {
    assert s[f] == mark[0];
    if |mark| == 2 { assert s[f + 1] == mark[1]; }
  }

  lemma FractionStops(s: Text, k: nat, frac: Text)
    requires At(s, k, FractionText(frac))
    requires var f := k + |FractionText(frac)|; f < |s| ==> !IsDigit(s[f])
    ensures k < |s| ==> !IsDigit(s[k])
  {
    if frac != [] { assert s[k] == FractionText(frac)[0] == POINT; }
  }

  lemma NumberComplete(s: Text, i: nat, n: Number)
    requires IsNumber(n) && At(s, i, NumberText(n)) && Delimited(Native, s, i + |NumberText(n)|)
    ensures i < |s| && NumberAt(s, i) == Some(Read(n, i + |NumberText(n)|))
    ensures s[i] == MINUS || IsDigit(s[i])
  {
    hide *;
    NumberParts(s, i, n);
    NumberShape(n);
    var j := i + |SignText(n.negative)|;
    var k := j + |n.whole|;
    var f := k + |FractionText(n.frac)|;
    ScaleComplete(s, f, n.scale);
    FractionStops(s, k, n.frac);
    FractionComplete(s, k, n.frac);
    WholeComplete(s, j, n.whole);
    SignComplete(s, i, n.negative);
    NumberJoins(s, i, n);
  }

  lemma NumberShape(n: Number)
    ensures IsNumber(n) <==> IsWhole(n.whole) && AreDigits(n.frac) && IsScale(n.scale)
  {
  }

  lemma SignComplete(s: Text, i: nat, negative: bool)
    requires At(s, i, SignText(negative)) && i + |SignText(negative)| < |s| && IsDigit(s[i + |SignText(negative)|])
    ensures i < |s| && (s[i] == MINUS <==> negative) && (s[i] == MINUS || IsDigit(s[i]))
    ensures |SignText(negative)| == if negative then 1 else 0
  {
    if negative { assert s[i..i + 1][0] == MINUS; }
  }

  lemma NumberJoins(s: Text, i: nat, n: Number)
    requires i < |s| && (s[i] == MINUS <==> n.negative)
    requires var j := if n.negative then i + 1 else i;
             var k := j + |n.whole|;
             var f := k + |FractionText(n.frac)|;
             && WholeEnd(s, j) == Some(k) && s[j..k] == n.whole
             && FractionEnd(s, k) == Some(f) && n.frac == (if f == k then [] else s[k + 1..f])
             && f <= |s| && ScaleAt(s, f) == Some(Read(n.scale, f + |ScaleText(n.scale)|))
    ensures NumberAt(s, i) == Some(Read(n, i + |NumberText(n)|))
  {
    hide WholeEnd, FractionEnd, ScaleAt, FractionText, ScaleText;
  }

  // ----- Values -----

  function WordAt(s: Text, i: nat): Option<Word> {
    if At(s, i, WordText(True)) then Some(True)
    else if At(s, i, WordText(False)) then Some(False)
    else if At(s, i, WordText(Null)) then Some(Null)
    else None
  }

  function StringValueAt(s: Text, i: nat): (r: Option<Read<Json>>)
    ensures r.Some? ==> i < r.value.end <= |s|
  {
    var p := LiteralAt(s, i);
    if p.None? then None
    else
      LiteralSound(s, i);
      Some(Read(Str(p.value), i + |StringText(p.value)|))
  }

  function ScalarAt(s: Text, i: nat): (r: Option<Read<Json>>)
    requires i < |s|
    ensures r.Some? ==> i < r.value.end <= |s|
  {
    var w := WordAt(s, i);
    if w.Some? then Some(Read(Lit(w.value), i + |WordText(w.value)|))
    else
      var n := NumberAt(s, i);
      if n.None? then None else Some(Read(Num(n.value.value), n.value.end))
  }

  /** The value that starts at i, white space before it already skipped, with room for so many levels. */
  function ValueAt(s: Text, i: nat, room: int): (r: Option<Read<Json>>)
    ensures r.Some? ==> i < r.value.end <= |s|
    decreases |s| - i, 0
  {
    if room < 0 || i >= |s| then None
    else if s[i] == QUOTE then StringValueAt(s, i)
    else if s[i] == OPEN_BRACE then
      var j := SkipSpace(s, i + 1);
      if j < |s| && s[j] == CLOSE_BRACE then Some(Read(Obj(NoMember(s[i + 1..j])), j + 1))
      else
        var ms := MembersAt(s, i + 1, room - 1);
        if ms.None? then None else Some(Read(Obj(ms.value.value), ms.value.end))
    else if s[i] == OPEN_BRACKET then
      var j := SkipSpace(s, i + 1);
      if j < |s| && s[j] == CLOSE_BRACKET then Some(Read(Arr(NoItem(s[i + 1..j])), j + 1))
      else
        var xs := ItemsAt(s, i + 1, room - 1);
        if xs.None? then None else Some(Read(Arr(xs.value.value), xs.value.end))
    else ScalarAt(s, i)
  }

  /** Where the value of the member begins whose key, white space included, begins at i. */
  function KeyEnd(s: Text, i: nat): (r: Option<nat>)
    ensures r.Some? ==> i < r.value <= |s|
  {
    var j := SkipSpace(s, i);
    var key := LiteralAt(s, j);
    if key.None? then None
    else
      LiteralSound(s, j);
      var g := SkipSpace(s, j + |StringText(key.value)|);
      if g >= |s| || s[g] != COLON then None else Some(g + 1)
  }

  /** One or more members from i, just after an opening brace or a comma, to their closing brace. */
  function MembersAt(s: Text, i: nat, room: int): (r: Option<Read<Members>>)
    ensures r.Some? ==> i < r.value.end <= |s|
    decreases |s| - i, 1
  {
    var c := KeyEnd(s, i);
    if c.None? then None
    else
      var j := SkipSpace(s, i);
      var key := LiteralAt(s, j).value;
      var l := SkipSpace(s, c.value);
      var v := ValueAt(s, l, room);
      if v.None? then None
      else
        var e := v.value.end;
        var t := SkipSpace(s, e);
        var rest := AfterMember(s, t, room);
        if rest.None? then None
        else
          var k := j + |StringText(key)|;
          Some(Read(Member(s[i..j], key, s[k..c.value - 1], s[c.value..l], v.value.value, s[e..t], rest.value.value),
            rest.value.end))
  }

  /** The members after a member whose trailing white space ends at t. */
  function AfterMember(s: Text, t: nat, room: int): (r: Option<Read<Members>>)
    ensures r.Some? ==> t < r.value.end <= |s|
    decreases |s| - t, 0
  {
    if t >= |s| then None
    else if s[t] == CLOSE_BRACE then Some(Read(NoMember([]), t + 1))
    else if s[t] != COMMA then None
    else MembersAt(s, t + 1, room)
  }

  /** One or more items from i, just after an opening bracket or a comma, to their closing bracket. */
  function ItemsAt(s: Text, i: nat, room: int): (r: Option<Read<Items>>)
    ensures r.Some? ==> i < r.value.end <= |s|
    decreases |s| - i, 1
  {
    var l := SkipSpace(s, i);
    var v := ValueAt(s, l, room);
    if v.None? then None
    else
      var e := v.value.end;
      var t := SkipSpace(s, e);
      var rest := AfterItem(s, t, room);
      if rest.None? then None
      else Some(Read(Item(s[i..l], v.value.value, s[e..t], rest.value.value), rest.value.end))
  }

  function AfterItem(s: Text, t: nat, room: int): (r: Option<Read<Items>>)
    ensures r.Some? ==> t < r.value.end <= |s|
    decreases |s| - t, 0
  {
    if t >= |s| then None
    else if s[t] == CLOSE_BRACKET then Some(Read(NoItem([]), t + 1))
    else if s[t] != COMMA then None
    else ItemsAt(s, t + 1, room)
  }

  // ----- Soundness: what the reader takes is a value of the grammar -----

  /** A member stands at i exactly when its parts stand one after the other. */
  lemma MemberParts(s: Text, i: nat, m: Members) returns (j: nat, k: nat, g: nat, l: nat, e: nat, t: nat)
    requires m.Member?
    ensures j == i + |m.pad| && k == j + |StringText(m.key)| && g == k + |m.gap| && l == g + 1 + |m.lead|
    ensures e == l + |Flatten(m.value)| && t == e + |m.trail|
    ensures At(s, i, MembersText(m)) <==>
            && At(s, i, m.pad) && At(s, j, StringText(m.key)) && At(s, k, m.gap) && At(s, g, [COLON])
            && At(s, g + 1, m.lead)
            && At(s, l, Flatten(m.value)) && At(s, e, m.trail)
            && At(s, t, Separator(m.rest.Member?) + MembersText(m.rest))
    ensures i + |MembersText(m)| == t + |Separator(m.rest.Member?) + MembersText(m.rest)|
  {
    hide At, Flatten, StringText, Separator;
    j := i + |m.pad|;
    k := j + |StringText(m.key)|;
    g := k + |m.gap|;
    l := g + 1 + |m.lead|;
    e := l + |Flatten(m.value)|;
    t := e + |m.trail|;
    var last := Separator(m.rest.Member?) + MembersText(m.rest);
    AtConcat(s, e, m.trail, last);
    AtConcat(s, l, Flatten(m.value), m.trail + last);
    AtConcat(s, g + 1, m.lead, Flatten(m.value) + (m.trail + last));
    AtConcat(s, g, [COLON], m.lead + (Flatten(m.value) + (m.trail + last)));
    AtConcat(s, k, m.gap, [COLON] + (m.lead + (Flatten(m.value) + (m.trail + last))));
    AtConcat(s, j, StringText(m.key), m.gap + ([COLON] + (m.lead + (Flatten(m.value) + (m.trail + last)))));
    AtConcat(s, i, m.pad, StringText(m.key) + (m.gap + ([COLON] + (m.lead + (Flatten(m.value) + (m.trail + last))))));
  }

  lemma ItemParts(s: Text, i: nat, x: Items) returns (l: nat, e: nat, t: nat)
    requires x.Item?
    ensures l == i + |x.pad| && e == l + |Flatten(x.value)| && t == e + |x.trail|
    ensures At(s, i, ItemsText(x)) <==>
            && At(s, i, x.pad) && At(s, l, Flatten(x.value)) && At(s, e, x.trail)
            && At(s, t, Separator(x.rest.Item?) + ItemsText(x.rest))
    ensures i + |ItemsText(x)| == t + |Separator(x.rest.Item?) + ItemsText(x.rest)|
  {
    hide At, Flatten, Separator;
    l := i + |x.pad|;
    e := l + |Flatten(x.value)|;
    t := e + |x.trail|;
    var last := Separator(x.rest.Item?) + ItemsText(x.rest);
    AtConcat(s, e, x.trail, last);
    AtConcat(s, l, Flatten(x.value), x.trail + last);
    AtConcat(s, i, x.pad, Flatten(x.value) + (x.trail + last));
  }

  ghost predicate ValueFits(s: Text, i: nat, room: int, r: Read<Json>) {
    IsJson(Native, r.value, room) && At(s, i, Flatten(r.value)) && r.end == i + |Flatten(r.value)|
  }

  ghost predicate MembersFit(s: Text, i: nat, room: int, r: Read<Members>) {
    r.value.Member? && AreMembers(Native, r.value, room) && At(s, i, MembersText(r.value))
      && r.end == i + |MembersText(r.value)|
  }

  ghost predicate ItemsFit(s: Text, i: nat, room: int, r: Read<Items>) {
    r.value.Item? && AreItems(Native, r.value, room) && At(s, i, ItemsText(r.value))
      && r.end == i + |ItemsText(r.value)|
  }

  lemma {:induction false} ValueSound(s: Text, i: nat, room: int)
    requires ValueAt(s, i, room).Some?
    ensures ValueFits(s, i, room, ValueAt(s, i, room).value)
    decreases |s| - i, 0
  {
    hide MembersAt, ItemsAt, ScalarAt, LiteralAt, SkipSpace, StringText;
    var t := ValueAt(s, i, room).value.value;
    if s[i] == QUOTE {
      LiteralSound(s, i);
    } else if s[i] == OPEN_BRACE {
      assert At(s, i, [OPEN_BRACE]);
      RestIsMember(s, i + 1, room - 1);
      AtConcat(s, i, [OPEN_BRACE], MembersText(t.members));
      if t.members.Member? {
        MembersSound(s, i + 1, room - 1);
      } else {
        EmptySound(s, i + 1, CLOSE_BRACE);
        assert AreMembers(Native, t.members, room - 1);
      }
    } else if s[i] == OPEN_BRACKET {
      assert At(s, i, [OPEN_BRACKET]);
      RestIsMember(s, i + 1, room - 1);
      AtConcat(s, i, [OPEN_BRACKET], ItemsText(t.items));
      if t.items.Item? {
        ItemsSound(s, i + 1, room - 1);
      } else {
        EmptySound(s, i + 1, CLOSE_BRACKET);
        assert AreItems(Native, t.items, room - 1);
      }
    } else {
      ScalarSound(s, i, room);
    }
  }

  lemma EmptySound(s: Text, i: nat, close: int)
    requires i <= |s| && SkipSpace(s, i) < |s| && s[SkipSpace(s, i)] == close
    ensures var pad := s[i..SkipSpace(s, i)]; IsPad(Native, pad) && At(s, i, pad + [close])
  {
    SkipSpaceIs(s, i);
    var j := SkipSpace(s, i);
    assert s[i..j + 1] == s[i..j] + [close];
  }

  lemma ScalarSound(s: Text, i: nat, room: int)
    requires i < |s| && ScalarAt(s, i).Some? && room >= 0
    ensures ValueFits(s, i, room, ScalarAt(s, i).value)
  {
    hide NumberAt, NumberText, IsNumber;
    if WordAt(s, i).None? { NumberSound(s, i); }
  }

  lemma {:induction false} MembersSound(s: Text, i: nat, room: int)
    requires MembersAt(s, i, room).Some?
    ensures MembersFit(s, i, room, MembersAt(s, i, room).value)
    decreases |s| - i, 1
  {
    hide *;
    var l, e, t := MemberSplits(s, i, room);
    ValueSound(s, l, room);
    var m := MembersAt(s, i, room).value.value;
    if m.rest.Member? {
      MembersSound(s, t + 1, room);
    }
    MemberJoins(s, i, room, l, e, t);
  }

  /** The reader's own account of the member it took. */
  lemma MemberSplits(s: Text, i: nat, room: int) returns (l: nat, e: nat, t: nat)
    requires MembersAt(s, i, room).Some?
    ensures var m, end := MembersAt(s, i, room).value.value, MembersAt(s, i, room).value.end;
            && m.Member? && i < l && ValueAt(s, l, room) == Some(Read(m.value, e))
            && e <= t < |s| && m.trail == s[e..t] && IsPad(Native, m.trail)
            && HeadFits(s, i, m, l)
            && (if m.rest.Member? then s[t] == COMMA && MembersAt(s, t + 1, room) == Some(Read(m.rest, end))
                else s[t] == CLOSE_BRACE && m.rest == NoMember([]) && end == t + 1)
  {
    hide *;
    l, e, t := MemberShape(s, i, room);
    SkipSpaceIs(s, e);
    KeySound(s, i);
    SkipSpaceIs(s, KeyEnd(s, i).value);
    HeadJoins(s, i, MembersAt(s, i, room).value.value, l);
  }

  lemma MemberShape(s: Text, i: nat, room: int) returns (l: nat, e: nat, t: nat)
    requires MembersAt(s, i, room).Some?
    ensures var m, end := MembersAt(s, i, room).value.value, MembersAt(s, i, room).value.end;
            && m.Member? && KeyEnd(s, i).Some? && l == SkipSpace(s, KeyEnd(s, i).value) && KeyIs(s, i, m)
            && i < l && ValueAt(s, l, room) == Some(Read(m.value, e)) && t == SkipSpace(s, e) && e <= t < |s|
            && m.trail == s[e..t]
            && (if m.rest.Member? then s[t] == COMMA && MembersAt(s, t + 1, room) == Some(Read(m.rest, end))
                else s[t] == CLOSE_BRACE && m.rest == NoMember([]) && end == t + 1)
  {
    hide AfterMember, ValueAt, KeyEnd, LiteralAt, StringText, SkipSpace;
    l := SkipSpace(s, KeyEnd(s, i).value);
    e := ValueAt(s, l, room).value.end;
    t := SkipSpace(s, e);
    KeyEndShape(s, i);
    AfterMemberShape(s, t, room);
  }

  ghost predicate KeyIs(s: Text, i: nat, m: Members)
    requires m.Member? && KeyEnd(s, i).Some?
  {
    var j, c := SkipSpace(s, i), KeyEnd(s, i).value;
    var l := SkipSpace(s, c);
    && i <= j <= |s| && LiteralAt(s, j) == Some(m.key) && m.pad == s[i..j]
    && j + |StringText(m.key)| < c && m.gap == s[j + |StringText(m.key)|..c - 1] && m.lead == s[c..l]
  }

  lemma KeyEndShape(s: Text, i: nat)
    requires KeyEnd(s, i).Some?
    ensures var j, c := SkipSpace(s, i), KeyEnd(s, i).value;
            i <= j <= |s| && LiteralAt(s, j).Some? && j + |StringText(LiteralAt(s, j).value)| < c
  {
    hide LiteralAt, StringText;
    LiteralSound(s, SkipSpace(s, i));
  }

  lemma HeadJoins(s: Text, i: nat, m: Members, l: nat)
    requires m.Member? && KeyEnd(s, i).Some? && KeyIs(s, i, m) && l == SkipSpace(s, KeyEnd(s, i).value)
    ensures HeadFits(s, i, m, l)
  {
    KeyStands(s, i, m);
    LeadStands(s, i, m);
    hide KeyEnd, KeyIs, LiteralAt, StringText, SkipSpace, IsPad, ArePieces, At;
  }

  lemma KeyStands(s: Text, i: nat, m: Members)
    requires m.Member? && KeyEnd(s, i).Some? && KeyIs(s, i, m)
    ensures var j, c := i + |m.pad|, KeyEnd(s, i).value;
            var k := j + |StringText(m.key)|;
            && IsPad(Native, m.pad) && ArePieces(Native, m.key) && IsPad(Native, m.gap) && k + |m.gap| + 1 == c
            && At(s, i, m.pad) && At(s, j, StringText(m.key)) && At(s, k, m.gap) && At(s, c - 1, [COLON])
  {
    hide *;
    KeySound(s, i);
    KeyIsSlices(s, i, m);
    var j, c := SkipSpace(s, i), KeyEnd(s, i).value;
    SliceStands(s, i, j, m.pad);
    SliceStands(s, j + |StringText(m.key)|, c - 1, m.gap);
  }

  lemma KeyIsSlices(s: Text, i: nat, m: Members)
    requires m.Member? && KeyEnd(s, i).Some? && KeyIs(s, i, m)
    ensures var j, c := SkipSpace(s, i), KeyEnd(s, i).value;
            && LiteralAt(s, j) == Some(m.key) && j <= |s| && m.pad == s[i..j] && c - 1 <= |s|
            && j + |StringText(m.key)| < c && m.gap == s[j + |StringText(m.key)|..c - 1]
  {
    hide KeyEnd, LiteralAt, StringText, SkipSpace;
  }

  lemma LeadStands(s: Text, i: nat, m: Members)
    requires m.Member? && KeyEnd(s, i).Some? && KeyIs(s, i, m)
    ensures var c := KeyEnd(s, i).value;
            IsPad(Native, m.lead) && At(s, c, m.lead) && SkipSpace(s, c) == c + |m.lead|
  {
    KeySound(s, i);
    SkipSpaceIs(s, KeyEnd(s, i).value);
    hide KeyEnd, LiteralAt, StringText, SkipSpace, IsPad, ArePieces;
    SliceStands(s, KeyEnd(s, i).value, SkipSpace(s, KeyEnd(s, i).value), m.lead);
    hide At;
  }

  lemma SliceStands(s: Text, i: nat, j: nat, x: Text)
    requires i <= j <= |s| && x == s[i..j]
    ensures At(s, i, x) && |x| == j - i
  {
  }

  lemma AfterMemberShape(s: Text, t: nat, room: int)
    requires AfterMember(s, t, room).Some?
    ensures var r := AfterMember(s, t, room).value;
            t < |s| && (if r.value.Member? then s[t] == COMMA && MembersAt(s, t + 1, room) == Some(r)
                        else s[t] == CLOSE_BRACE && r == Read(NoMember([]), t + 1))
  {
    hide ValueAt;
    RestIsMember(s, t + 1, room);
  }

  lemma AfterItemShape(s: Text, t: nat, room: int)
    requires AfterItem(s, t, room).Some?
    ensures var r := AfterItem(s, t, room).value;
            t < |s| && (if r.value.Item? then s[t] == COMMA && ItemsAt(s, t + 1, room) == Some(r)
                        else s[t] == CLOSE_BRACKET && r == Read(NoItem([]), t + 1))
  {
    hide ValueAt;
    RestIsMember(s, t + 1, room);
  }

  lemma RestIsMember(s: Text, i: nat, room: int)
    ensures MembersAt(s, i, room).Some? ==> MembersAt(s, i, room).value.value.Member?
    ensures ItemsAt(s, i, room).Some? ==> ItemsAt(s, i, room).value.value.Item?
  {
  }

  /** Key, colon and white space of m stand from i to l. */
  ghost predicate HeadFits(s: Text, i: nat, m: Members, l: nat)
    requires m.Member?
  {
    var j := i + |m.pad|;
    var k := j + |StringText(m.key)|;
    var g := k + |m.gap|;
    && IsPad(Native, m.pad) && ArePieces(Native, m.key) && IsPad(Native, m.gap) && IsPad(Native, m.lead)
    && At(s, i, m.pad) && At(s, j, StringText(m.key)) && At(s, k, m.gap) && At(s, g, [COLON]) && At(s, g + 1, m.lead)
    && l == g + 1 + |m.lead|
  }

  lemma KeySound(s: Text, i: nat)
    requires KeyEnd(s, i).Some?
    ensures var j, c := SkipSpace(s, i), KeyEnd(s, i).value;
            && i <= j && LiteralAt(s, j).Some? && ArePieces(Native, LiteralAt(s, j).value) && IsPad(Native, s[i..j])
            && var k := j + |StringText(LiteralAt(s, j).value)|;
               k < c <= |s| && At(s, j, StringText(LiteralAt(s, j).value)) && IsPad(Native, s[k..c - 1])
                 && At(s, c - 1, [COLON])
  {
    hide LiteralAt, StringText;
    var j := SkipSpace(s, i);
    LiteralSound(s, j);
    SkipSpaceIs(s, i);
    SkipSpaceIs(s, j + |StringText(LiteralAt(s, j).value)|);
  }

  lemma MemberJoins(s: Text, i: nat, room: int, l: nat, e: nat, t: nat)
    requires MembersAt(s, i, room).Some?
    requires var m, end := MembersAt(s, i, room).value.value, MembersAt(s, i, room).value.end;
             && m.Member? && HeadFits(s, i, m, l) && ValueFits(s, l, room, Read(m.value, e))
             && e <= t < |s| && m.trail == s[e..t] && IsPad(Native, m.trail)
             && (if m.rest.Member? then s[t] == COMMA && MembersFit(s, t + 1, room, Read(m.rest, end))
                 else s[t] == CLOSE_BRACE && m.rest == NoMember([]) && end == t + 1)
    ensures MembersFit(s, i, room, MembersAt(s, i, room).value)
  {
    hide MembersAt, Flatten, StringText, ArePieces, IsJson;
    var m := MembersAt(s, i, room).value.value;
    var _, _, _, _, _, _ := MemberParts(s, i, m);
    hide MembersText;
    SeparatorStands(s, t, m.rest);
    assert AreMembers(Native, m.rest, room);
    assert AreMembers(Native, m, room);
  }

  lemma SeparatorStands(s: Text, t: nat, rest: Members)
    requires t < |s| && s[t] == (if rest.Member? then COMMA else CLOSE_BRACE)
    requires if rest.Member? then At(s, t + 1, MembersText(rest)) else rest.pad == []
    ensures At(s, t, Separator(rest.Member?) + MembersText(rest))
    ensures |Separator(rest.Member?) + MembersText(rest)| == 1 + if rest.Member? then |MembersText(rest)| else 0
  {
    if rest.Member? {
      AtConcat(s, t, [COMMA], MembersText(rest));
    }
  }

  lemma {:induction false} ItemsSound(s: Text, i: nat, room: int)
    requires ItemsAt(s, i, room).Some?
    ensures ItemsFit(s, i, room, ItemsAt(s, i, room).value)
    decreases |s| - i, 1
  {
    hide *;
    var l, e, t := ItemSplits(s, i, room);
    ValueSound(s, l, room);
    var x := ItemsAt(s, i, room).value.value;
    if x.rest.Item? {
      ItemsSound(s, t + 1, room);
    }
    ItemJoins(s, i, room, l, e, t);
  }

  lemma ItemSplits(s: Text, i: nat, room: int) returns (l: nat, e: nat, t: nat)
    requires ItemsAt(s, i, room).Some?
    ensures var x, end := ItemsAt(s, i, room).value.value, ItemsAt(s, i, room).value.end;
            && x.Item? && i <= l <= |s| && x.pad == s[i..l] && IsPad(Native, x.pad)
            && ValueAt(s, l, room) == Some(Read(x.value, e))
            && e <= t < |s| && x.trail == s[e..t] && IsPad(Native, x.trail)
            && (if x.rest.Item? then s[t] == COMMA && ItemsAt(s, t + 1, room) == Some(Read(x.rest, end))
                else s[t] == CLOSE_BRACKET && x.rest == NoItem([]) && end == t + 1)
  {
    hide AfterItem, ValueAt, SkipSpace;
    l := SkipSpace(s, i);
    e := ValueAt(s, l, room).value.end;
    t := SkipSpace(s, e);
    SkipSpaceIs(s, i);
    SkipSpaceIs(s, e);
    AfterItemShape(s, t, room);
  }

  lemma ItemJoins(s: Text, i: nat, room: int, l: nat, e: nat, t: nat)
    requires ItemsAt(s, i, room).Some?
    requires var x, end := ItemsAt(s, i, room).value.value, ItemsAt(s, i, room).value.end;
             && x.Item? && i <= l <= |s| && x.pad == s[i..l] && IsPad(Native, x.pad)
             && ValueFits(s, l, room, Read(x.value, e))
             && e <= t < |s| && x.trail == s[e..t] && IsPad(Native, x.trail)
             && (if x.rest.Item? then s[t] == COMMA && ItemsFit(s, t + 1, room, Read(x.rest, end))
                 else s[t] == CLOSE_BRACKET && x.rest == NoItem([]) && end == t + 1)
    ensures ItemsFit(s, i, room, ItemsAt(s, i, room).value)
  {
    hide ItemsAt, Flatten, IsJson;
    var x := ItemsAt(s, i, room).value.value;
    var _, _, _ := ItemParts(s, i, x);
    hide ItemsText;
    ItemSeparatorStands(s, t, x.rest);
    assert AreItems(Native, x.rest, room);
    assert AreItems(Native, x, room);
  }

  lemma ItemSeparatorStands(s: Text, t: nat, rest: Items)
    requires t < |s| && s[t] == (if rest.Item? then COMMA else CLOSE_BRACKET)
    requires if rest.Item? then At(s, t + 1, ItemsText(rest)) else rest.pad == []
    ensures At(s, t, Separator(rest.Item?) + ItemsText(rest))
    ensures |Separator(rest.Item?) + ItemsText(rest)| == 1 + if rest.Item? then |ItemsText(rest)| else 0
  {
    if rest.Item? {
      AtConcat(s, t, [COMMA], ItemsText(rest));
    }
  }

  // ----- Completeness: every delimited value of the grammar is taken whole -----

  predicate StartsValue(c: int) {
    c == QUOTE || c == OPEN_BRACE || c == OPEN_BRACKET || c == MINUS || IsDigit(c) || c == 0x74 || c == 0x66
      || c == 0x6E
  }

  lemma FlattenStarts(t: Json, room: int)
    requires IsJson(Native, t, room)
    ensures |Flatten(t)| > 0 && StartsValue(Flatten(t)[0])
  {
    if t.Num? { NumberShape(t.number); }
  }

  lemma {:induction false} ValueComplete(s: Text, i: nat, room: int, t: Json)
    requires IsJson(Native, t, room) && At(s, i, Flatten(t)) && Delimited(Native, s, i + |Flatten(t)|)
    ensures ValueAt(s, i, room) == Some(Read(t, i + |Flatten(t)|))
    decreases t
  {
    hide LiteralAt, SkipSpace, StringText, MembersAt, ItemsAt, ScalarAt, Delimited;
    FlattenStarts(t, room);
    assert s[i] == Flatten(t)[0];
    match t {
      case Str(pieces) =>
        LiteralComplete(s, i, pieces);
        LiteralStarts(pieces);
      case Obj(members) =>
        AtConcat(s, i, [OPEN_BRACE], MembersText(members));
        if members.Member? {
          MembersComplete(s, i + 1, room - 1, members);
          MemberStarts(s, i + 1, room - 1, members);
        } else {
          EmptyComplete(s, i + 1, members.pad, CLOSE_BRACE);
        }
      case Arr(items) =>
        AtConcat(s, i, [OPEN_BRACKET], ItemsText(items));
        if items.Item? {
          ItemsComplete(s, i + 1, room - 1, items);
          ItemStarts(s, i + 1, room - 1, items);
        } else {
          EmptyComplete(s, i + 1, items.pad, CLOSE_BRACKET);
        }
      case _ =>
        ScalarComplete(s, i, room, t);
    }
  }

  lemma LiteralStarts(ps: seq<Piece>)
    ensures |StringText(ps)| >= 2 && StringText(ps)[0] == QUOTE
  {
  }

  lemma EmptyComplete(s: Text, i: nat, pad: Text, close: int)
    requires IsPad(Native, pad) && At(s, i, pad + [close]) && !IsSpace(Native, close)
    ensures SkipSpace(s, i) == i + |pad| < |s| && s[i + |pad|] == close && pad == s[i..i + |pad|]
  {
    AtConcat(s, i, pad, [close]);
    AtOne(s, i + |pad|, close);
    SkipPad(s, i, pad);
  }

  lemma ScalarComplete(s: Text, i: nat, room: int, t: Json)
    requires t.Num? || t.Lit?
    requires IsJson(Native, t, room) && At(s, i, Flatten(t)) && Delimited(Native, s, i + |Flatten(t)|)
    ensures i < |s| && s[i] != QUOTE && s[i] != OPEN_BRACE && s[i] != OPEN_BRACKET
    ensures ScalarAt(s, i) == Some(Read(t, i + |Flatten(t)|))
  {
    hide NumberAt, NumberText, WordAt, Delimited, IsNumber;
    if t.Num? {
      NumberComplete(s, i, t.number);
      NumberIsNoWord(s, i);
    } else {
      WordComplete(s, i, t.word);
    }
  }

  lemma NumberIsNoWord(s: Text, i: nat)
    requires i < |s| && (s[i] == MINUS || IsDigit(s[i]))
    ensures WordAt(s, i) == None
  {
    forall w: Word ensures !At(s, i, WordText(w)) {
      if i + |WordText(w)| <= |s| { assert s[i..i + |WordText(w)|][0] == s[i]; }
    }
  }

  lemma WordComplete(s: Text, i: nat, w: Word)
    requires At(s, i, WordText(w))
    ensures WordAt(s, i) == Some(w) && i < |s| && s[i] == WordText(w)[0]
  {
    assert s[i] == WordText(w)[0];
    forall u: Word | At(s, i, WordText(u)) ensures u == w {
      assert s[i] == WordText(u)[0];
    }
  }

  lemma MemberStarts(s: Text, i: nat, room: int, m: Members)
    requires m.Member? && AreMembers(Native, m, room) && At(s, i, MembersText(m))
    ensures SkipSpace(s, i) == i + |m.pad| && SkipSpace(s, i) < |s| && s[SkipSpace(s, i)] == QUOTE
  {
    hide Flatten, Separator, StringText;
    var j, _, _, _, _, _ := MemberParts(s, i, m);
    hide MembersText;
    LiteralStarts(m.key);
    assert s[j] == StringText(m.key)[0];
    SkipPad(s, i, m.pad);
  }

  lemma ItemStarts(s: Text, i: nat, room: int, x: Items)
    requires x.Item? && AreItems(Native, x, room) && At(s, i, ItemsText(x))
    ensures SkipSpace(s, i) == i + |x.pad| && SkipSpace(s, i) < |s| && StartsValue(s[SkipSpace(s, i)])
  {
    hide Separator;
    FlattenStarts(x.value, room);
    hide Flatten, StartsValue;
    var l, _, _ := ItemParts(s, i, x);
    hide ItemsText;
    assert s[l] == Flatten(x.value)[0];
    StartsNoSpace(s[l]);
    SkipPad(s, i, x.pad);
  }

  lemma StartsNoSpace(c: int)
    requires StartsValue(c)
    ensures !IsSpace(Native, c) && c != CLOSE_BRACKET
  {
  }

  lemma {:induction false} MembersComplete(s: Text, i: nat, room: int, m: Members)
    requires m.Member? && AreMembers(Native, m, room) && At(s, i, MembersText(m))
    ensures MembersAt(s, i, room) == Some(Read(m, i + |MembersText(m)|))
    decreases m
  {
    hide *;
    var j, k, g, l, e, t := MemberParts(s, i, m);
    MemberShapes(m, room);
    KeyComplete(s, i, room, m);
    ValueStarts(s, l, m.value, room);
    SkipPad(s, g + 1, m.lead);
    TrailComplete(s, e, t, m);
    ValueComplete(s, l, room, m.value);
    if m.rest.Member? {
      MembersComplete(s, t + 1, room, m.rest);
    }
    AfterMemberReads(s, t, room, m.rest);
    AtSlice(s, i, m.pad);
    AtSlice(s, k, m.gap);
    AtSlice(s, g + 1, m.lead);
    AtSlice(s, e, m.trail);
    MemberReads(s, i, room, m, l, e, t, i + |MembersText(m)|);
  }

  lemma MemberShapes(m: Members, room: int)
    requires m.Member? && AreMembers(Native, m, room)
    ensures IsPad(Native, m.pad) && ArePieces(Native, m.key) && IsPad(Native, m.gap) && IsPad(Native, m.lead)
            && IsPad(Native, m.trail)
    ensures IsJson(Native, m.value, room) && AreMembers(Native, m.rest, room) && (m.rest.NoMember? ==> m.rest.pad == [])
    ensures m.value < m && m.rest < m
  {
  }

  lemma ValueStarts(s: Text, l: nat, v: Json, room: int)
    requires IsJson(Native, v, room) && At(s, l, Flatten(v))
    ensures l < |s| && StartsValue(s[l]) && !IsSpace(Native, s[l])
  {
    FlattenStarts(v, room);
    hide Flatten;
    assert s[l] == Flatten(v)[0];
    StartsNoSpace(s[l]);
  }

  lemma KeyComplete(s: Text, i: nat, room: int, m: Members)
    requires m.Member? && AreMembers(Native, m, room) && At(s, i, MembersText(m))
    ensures KeyEnd(s, i) == Some(i + |m.pad| + |StringText(m.key)| + |m.gap| + 1)
    ensures SkipSpace(s, i) == i + |m.pad| && LiteralAt(s, i + |m.pad|) == Some(m.key)
  {
    hide *;
    MemberStarts(s, i, room, m);
    MemberShapes(m, room);
    var j, k, g, _, _, _ := MemberParts(s, i, m);
    LiteralComplete(s, j, m.key);
    AtOne(s, g, COLON);
    SpaceIsNoColon();
    SkipPad(s, k, m.gap);
    KeyReads(s, i, j, k, g, m.key);
  }

  lemma SpaceIsNoColon()
    ensures !IsSpace(Native, COLON)
  {
  }

  lemma KeyReads(s: Text, i: nat, j: nat, k: nat, g: nat, key: seq<Piece>)
    requires SkipSpace(s, i) == j && LiteralAt(s, j) == Some(key) && k == j + |StringText(key)|
    requires SkipSpace(s, k) == g < |s| && s[g] == COLON
    ensures KeyEnd(s, i) == Some(g + 1)
  {
    hide SkipSpace, LiteralAt, StringText;
  }

  /** Whatever follows a member's value delimits it. */
  lemma TrailComplete(s: Text, e: nat, t: nat, m: Members)
    requires m.Member? && IsPad(Native, m.trail) && At(s, e, m.trail) && t == e + |m.trail|
    requires m.rest.NoMember? ==> m.rest.pad == []
    requires At(s, t, Separator(m.rest.Member?) + MembersText(m.rest))
    ensures Delimited(Native, s, e) && SkipSpace(s, e) == t < |s|
    ensures s[t] == (if m.rest.Member? then COMMA else CLOSE_BRACE)
    ensures if m.rest.Member? then At(s, t + 1, MembersText(m.rest)) else |MembersText(m.rest)| == 1
    ensures |Separator(m.rest.Member?) + MembersText(m.rest)|
            == (if m.rest.Member? then 1 + |MembersText(m.rest)| else 1)
  {
    AtConcat(s, t, Separator(m.rest.Member?), MembersText(m.rest));
    if m.rest.Member? {
      hide MembersText;
      AtOne(s, t, COMMA);
    } else {
      assert MembersText(m.rest) == [CLOSE_BRACE];
      AtOne(s, t, CLOSE_BRACE);
    }
    if m.trail != [] { assert s[e] == m.trail[0]; }
    SkipPad(s, e, m.trail);
  }

  lemma AfterMemberReads(s: Text, t: nat, room: int, rest: Members)
    requires t < |s| && s[t] == (if rest.Member? then COMMA else CLOSE_BRACE)
    requires if rest.Member? then MembersAt(s, t + 1, room) == Some(Read(rest, t + 1 + |MembersText(rest)|))
             else rest.pad == []
    ensures AfterMember(s, t, room) == Some(Read(rest, t + 1 + if rest.Member? then |MembersText(rest)| else 0))
  {
    hide MembersAt, MembersText;
  }

  lemma MemberReads(s: Text, i: nat, room: int, m: Members, l: nat, e: nat, t: nat, end: nat)
    requires m.Member?
    requires var j := i + |m.pad|;
             var k := j + |StringText(m.key)|;
             var g := k + |m.gap|;
             && SkipSpace(s, i) == j && LiteralAt(s, j) == Some(m.key) && KeyEnd(s, i) == Some(g + 1)
             && j <= |s| && s[i..j] == m.pad && g <= |s| && s[k..g] == m.gap
             && l == g + 1 + |m.lead| <= |s| && s[g + 1..l] == m.lead && SkipSpace(s, g + 1) == l
    requires ValueAt(s, l, room) == Some(Read(m.value, e)) && SkipSpace(s, e) == t && e <= t <= |s|
             && s[e..t] == m.trail
    requires AfterMember(s, t, room) == Some(Read(m.rest, end))
    ensures MembersAt(s, i, room) == Some(Read(m, end))
  {
    hide SkipSpace, LiteralAt, KeyEnd, ValueAt, AfterMember, StringText;
  }

  lemma {:induction false} ItemsComplete(s: Text, i: nat, room: int, x: Items)
    requires x.Item? && AreItems(Native, x, room) && At(s, i, ItemsText(x))
    ensures ItemsAt(s, i, room) == Some(Read(x, i + |ItemsText(x)|))
    decreases x
  {
    hide *;
    var l, e, t := ItemParts(s, i, x);
    ItemShapes(x, room);
    ItemStarts(s, i, room, x);
    ItemTrailComplete(s, e, t, x);
    ValueComplete(s, l, room, x.value);
    if x.rest.Item? {
      ItemsComplete(s, t + 1, room, x.rest);
    }
    AfterItemReads(s, t, room, x.rest);
    AtSlice(s, i, x.pad);
    AtSlice(s, e, x.trail);
    ItemReads(s, i, room, x, l, e, t, i + |ItemsText(x)|);
  }

  lemma ItemShapes(x: Items, room: int)
    requires x.Item? && AreItems(Native, x, room)
    ensures IsPad(Native, x.pad) && IsPad(Native, x.trail) && IsJson(Native, x.value, room)
            && AreItems(Native, x.rest, room)
    ensures x.rest.NoItem? ==> x.rest.pad == []
    ensures x.value < x && x.rest < x
  {
  }

  lemma ItemTrailComplete(s: Text, e: nat, t: nat, x: Items)
    requires x.Item? && IsPad(Native, x.trail) && At(s, e, x.trail) && t == e + |x.trail|
    requires x.rest.NoItem? ==> x.rest.pad == []
    requires At(s, t, Separator(x.rest.Item?) + ItemsText(x.rest))
    ensures Delimited(Native, s, e) && SkipSpace(s, e) == t < |s|
    ensures s[t] == (if x.rest.Item? then COMMA else CLOSE_BRACKET)
    ensures if x.rest.Item? then At(s, t + 1, ItemsText(x.rest)) else |ItemsText(x.rest)| == 1
    ensures |Separator(x.rest.Item?) + ItemsText(x.rest)| == (if x.rest.Item? then 1 + |ItemsText(x.rest)| else 1)
  {
    AtConcat(s, t, Separator(x.rest.Item?), ItemsText(x.rest));
    if x.rest.Item? {
      hide ItemsText;
      AtOne(s, t, COMMA);
    } else {
      assert ItemsText(x.rest) == [CLOSE_BRACKET];
      AtOne(s, t, CLOSE_BRACKET);
    }
    if x.trail != [] { assert s[e] == x.trail[0]; }
    SkipPad(s, e, x.trail);
  }

  lemma AfterItemReads(s: Text, t: nat, room: int, rest: Items)
    requires t < |s| && s[t] == (if rest.Item? then COMMA else CLOSE_BRACKET)
    requires if rest.Item? then ItemsAt(s, t + 1, room) == Some(Read(rest, t + 1 + |ItemsText(rest)|))
             else rest.pad == []
    ensures AfterItem(s, t, room) == Some(Read(rest, t + 1 + if rest.Item? then |ItemsText(rest)| else 0))
  {
    hide ItemsAt, ItemsText;
  }

  lemma ItemReads(s: Text, i: nat, room: int, x: Items, l: nat, e: nat, t: nat, end: nat)
    requires x.Item? && SkipSpace(s, i) == l && i <= l <= |s| && s[i..l] == x.pad
    requires ValueAt(s, l, room) == Some(Read(x.value, e)) && SkipSpace(s, e) == t && e <= t <= |s|
             && s[e..t] == x.trail
    requires AfterItem(s, t, room) == Some(Read(x.rest, end))
    ensures ItemsAt(s, i, room) == Some(Read(x, end))
  {
    hide SkipSpace, ValueAt, AfterItem;
  }
}
