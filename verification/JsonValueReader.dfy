/** SkipWhitespace and FindValueEnd of native/selection-host/src/core/envelope.cpp as the loops they are. */
module JsonValueReader {
  import opened Basics
  import opened JsonGrammar
  import opened JsonStrings
  import opened JsonValues

  method SkipWhitespace(input: Text, start: nat) returns (cursor: nat)
    ensures cursor == SkipSpace(input, start)
  {
    cursor := start;
    while cursor < |input| && IsSpace(Native, input[cursor])
      invariant SkipSpace(input, cursor) == SkipSpace(input, start)
    {
      cursor := cursor + 1;
    }
  }

  method SkipDigits(input: Text, start: nat) returns (cursor: nat)
    ensures cursor == DigitRun(input, start)
  {
    cursor := start;
    while cursor < |input| && IsDigit(input[cursor])
      invariant DigitRun(input, cursor) == DigitRun(input, start)
    {
      cursor := cursor + 1;
    }
  }

  /** What a reading method reports: the end of what it took, or failure. */
  function Outcome(ok: bool, cursor: nat): Option<nat> {
    if ok then Some(cursor) else None
  }

  method ConsumeWhole(input: Text, start: nat) returns (ok: bool, cursor: nat)
    ensures Outcome(ok, cursor) == WholeEnd(input, start)
  {
    cursor := start;
    if cursor >= |input| { return false, cursor; }
    if input[cursor] == 0x30 {
      cursor := cursor + 1;
      if cursor < |input| && IsDigit(input[cursor]) { return false, cursor; }
    } else {
      if input[cursor] < 0x31 || input[cursor] > 0x39 { return false, cursor; }
      cursor := SkipDigits(input, cursor);
    }
    return true, cursor;
  }

  method ConsumeFraction(input: Text, start: nat) returns (ok: bool, cursor: nat)
    requires start <= |input|
    ensures Outcome(ok, cursor) == FractionEnd(input, start)
  {
    cursor := start;
    if cursor < |input| && input[cursor] == POINT {
      cursor := cursor + 1;
      var fractionStart := cursor;
      cursor := SkipDigits(input, cursor);
      if cursor == fractionStart { return false, cursor; }
    }
    return true, cursor;
  }

  method ConsumeExponent(input: Text, start: nat) returns (ok: bool, cursor: nat)
    requires start <= |input|
    ensures Outcome(ok, cursor) == EndOf(ScaleAt(input, start))
  {
    cursor := start;
    if cursor < |input| && (input[cursor] == 0x65 || input[cursor] == 0x45) {
      cursor := cursor + 1;
      if cursor < |input| && (input[cursor] == 0x2B || input[cursor] == MINUS) { cursor := cursor + 1; }
      var exponentStart := cursor;
      cursor := SkipDigits(input, cursor);
      if cursor == exponentStart { return false, cursor; }
    }
    return true, cursor;
  }

  method ConsumeNumber(input: Text, start: nat) returns (ok: bool, cursor: nat)
    requires start < |input|
    ensures Outcome(ok, cursor) == EndOf(NumberAt(input, start))
  {
    hide WholeEnd, FractionEnd, ScaleAt;
    cursor := start;
    if input[cursor] == MINUS { cursor := cursor + 1; }
    ok, cursor := ConsumeWhole(input, cursor);
    if !ok { return false, cursor; }
    ok, cursor := ConsumeFraction(input, cursor);
    if !ok { return false, cursor; }
    ok, cursor := ConsumeExponent(input, cursor);
  }

  method ConsumeScalar(input: Text, start: nat) returns (ok: bool, cursor: nat)
    requires start < |input|
    ensures Outcome(ok, cursor) == EndOf(ScalarAt(input, start))
  {
    hide NumberAt, WordText;
    var literals := [True, False, Null];
    for i := 0 to |literals|
      invariant forall k | 0 <= k < i :: !At(input, start, WordText(literals[k]))
    {
      var text := WordText(literals[i]);
      if start + |text| <= |input| && input[start..start + |text|] == text {
        assert At(input, start, text);
        assert literals[0] == True && literals[1] == False && literals[2] == Null;
        return true, start + |text|;
      }
    }
    assert literals[0] == True && literals[1] == False && literals[2] == Null;
    ok, cursor := ConsumeNumber(input, start);
  }

  // ----- The spine of the reader: where each part ends -----

  function MembersEnd(s: Text, i: nat, room: int): Option<nat> {
    EndOf(MembersAt(s, i, room))
  }

  function ItemsEnd(s: Text, i: nat, room: int): Option<nat> {
    EndOf(ItemsAt(s, i, room))
  }

  function ValueEnd(s: Text, i: nat, room: int): Option<nat> {
    EndOf(ValueAt(s, SkipSpace(s, i), room))
  }

  function AfterMemberEnd(s: Text, t: nat, room: int): Option<nat> {
    if t >= |s| then None
    else if s[t] == CLOSE_BRACE then Some(t + 1)
    else if s[t] != COMMA then None
    else MembersEnd(s, t + 1, room)
  }

  lemma MembersTurn(s: Text, i: nat, room: int)
    ensures MembersEnd(s, i, room) ==
            var c := KeyEnd(s, i);
            if c.None? then None
            else
              var e := ValueEnd(s, c.value, room);
              if e.None? then None else AfterMemberEnd(s, SkipSpace(s, e.value), room)
  {
    hide KeyEnd, LiteralAt, SkipSpace, ValueAt, StringText;
    var c := KeyEnd(s, i);
    if c.Some? && ValueEnd(s, c.value, room).Some? {
      var t := SkipSpace(s, ValueEnd(s, c.value, room).value);
      assert AfterMemberEnd(s, t, room) == EndOf(AfterMember(s, t, room));
    }
  }

  function AfterItemEnd(s: Text, t: nat, room: int): Option<nat> {
    if t >= |s| then None
    else if s[t] == CLOSE_BRACKET then Some(t + 1)
    else if s[t] != COMMA then None
    else ItemsEnd(s, t + 1, room)
  }

  lemma ItemsTurn(s: Text, i: nat, room: int)
    ensures ItemsEnd(s, i, room) ==
            var e := ValueEnd(s, i, room);
            if e.None? then None else AfterItemEnd(s, SkipSpace(s, e.value), room)
  {
    hide SkipSpace, ValueAt;
    if ValueEnd(s, i, room).Some? {
      var t := SkipSpace(s, ValueEnd(s, i, room).value);
      assert AfterItemEnd(s, t, room) == EndOf(AfterItem(s, t, room));
    }
  }

  lemma ValueTurn(s: Text, start: nat, room: int)
    ensures ValueEnd(s, start, room) ==
            var i := SkipSpace(s, start);
            if room < 0 || i >= |s| then None
            else if s[i] == QUOTE then EndOf(StringValueAt(s, i))
            else if s[i] == OPEN_BRACE then
              var j := SkipSpace(s, i + 1);
              if j < |s| && s[j] == CLOSE_BRACE then Some(j + 1) else MembersEnd(s, i + 1, room - 1)
            else if s[i] == OPEN_BRACKET then
              var j := SkipSpace(s, i + 1);
              if j < |s| && s[j] == CLOSE_BRACKET then Some(j + 1) else ItemsEnd(s, i + 1, room - 1)
            else EndOf(ScalarAt(s, i))
  {
    hide StringValueAt, SkipSpace, MembersAt, ItemsAt, ScalarAt;
  }

  lemma {:induction false} SkipTwice(s: Text, i: nat)
    ensures SkipSpace(s, SkipSpace(s, i)) == SkipSpace(s, i)
    decreases |s| - i
  {
    if i < |s| && IsSpace(Native, s[i]) { SkipTwice(s, i + 1); }
  }

  lemma LeadingSpace(s: Text, i: nat, room: int)
    ensures MembersEnd(s, SkipSpace(s, i), room) == MembersEnd(s, i, room)
    ensures ItemsEnd(s, SkipSpace(s, i), room) == ItemsEnd(s, i, room)
    ensures ValueEnd(s, SkipSpace(s, i), room) == ValueEnd(s, i, room)
  {
    SkipTwice(s, i);
    var j := SkipSpace(s, i);
    MembersTurn(s, i, room);
    MembersTurn(s, j, room);
    ItemsTurn(s, i, room);
    ItemsTurn(s, j, room);
    hide MembersEnd, ItemsEnd, SkipSpace, LiteralAt, ValueAt, StringText;
  }

  /** A key, its colon and the white space between them. */
  method ConsumeKey(input: Text, start: nat) returns (ok: bool, cursor: nat)
    requires start == SkipSpace(input, start)
    ensures Outcome(ok, cursor) == KeyEnd(input, start)
  {
    hide LiteralAt, SkipSpace, PiecesValue, StringText;
    var parsed, next, _ := ParseString(input, start);
    if !parsed { return false, next; }
    cursor := SkipWhitespace(input, next);
    if cursor >= |input| || input[cursor] != COLON { return false, cursor; }
    return true, cursor + 1;
  }

  method ConsumeMembers(input: Text, start: nat, depth: nat) returns (ok: bool, cursor: nat)
    requires start <= |input| && start == SkipSpace(input, start)
    ensures Outcome(ok, cursor) == MembersEnd(input, start, MAX_DEPTH - depth)
    decreases |input| - start, 1
  {
    hide SkipSpace, KeyEnd, MembersEnd, ValueEnd;
    var room := MAX_DEPTH - depth;
    cursor := start;
    while true
      invariant start <= cursor <= |input| && cursor == SkipSpace(input, cursor)
      invariant MembersEnd(input, cursor, room) == MembersEnd(input, start, room)
      decreases |input| - cursor
    {
      MembersTurn(input, cursor, room);
      var found, next := ConsumeKey(input, cursor);
      if !found { return false, next; }
      ok, next := ConsumeValue(input, next, depth);
      if !ok { return false, next; }
      next := SkipWhitespace(input, next);
      if next >= |input| { return false, next; }
      if input[next] == CLOSE_BRACE { return true, next + 1; }
      if input[next] != COMMA { return false, next; }
      LeadingSpace(input, next + 1, room);
      SkipTwice(input, next + 1);
      cursor := SkipWhitespace(input, next + 1);
    }
  }

  method ConsumeItems(input: Text, start: nat, depth: nat) returns (ok: bool, cursor: nat)
    requires start <= |input|
    ensures Outcome(ok, cursor) == ItemsEnd(input, start, MAX_DEPTH - depth)
    decreases |input| - start, 1
  {
    hide SkipSpace, ItemsEnd, ValueEnd, IsSpace;
    var room := MAX_DEPTH - depth;
    cursor := start;
    while true
      invariant start <= cursor <= |input|
      invariant ItemsEnd(input, cursor, room) == ItemsEnd(input, start, room)
      decreases |input| - cursor
    {
      ItemsTurn(input, cursor, room);
      var next: nat;
      ok, next := ConsumeValue(input, cursor, depth);
      if !ok { return false, next; }
      next := SkipWhitespace(input, next);
      if next >= |input| { return false, next; }
      if input[next] == CLOSE_BRACKET { return true, next + 1; }
      if input[next] != COMMA { return false, next; }
      LeadingSpace(input, next + 1, room);
      cursor := SkipWhitespace(input, next + 1);
    }
  }

  lemma ValueEndLater(s: Text, i: nat, room: int)
    ensures ValueEnd(s, i, room).Some? ==> i < ValueEnd(s, i, room).value <= |s|
  {
    hide ValueAt;
  }

  /** One value, white space before it included; false when it is malformed or nested too deep. */
  method ConsumeValue(input: Text, start: nat, depth: nat) returns (ok: bool, cursor: nat)
    requires start <= |input|
    ensures Outcome(ok, cursor) == ValueEnd(input, start, MAX_DEPTH - depth)
    ensures ok ==> start < cursor <= |input|
    decreases |input| - start, 0
  {
    hide SkipSpace, ValueEnd, MembersEnd, ItemsEnd, ScalarAt, LiteralAt, StringText, PiecesValue;
    ValueTurn(input, start, MAX_DEPTH - depth);
    ValueEndLater(input, start, MAX_DEPTH - depth);
    cursor := start;
    if depth > MAX_DEPTH { return false, cursor; }
    cursor := SkipWhitespace(input, cursor);
    if cursor >= |input| { return false, cursor; }
    if input[cursor] == QUOTE {
      var parsed, next, _ := ParseString(input, cursor);
      return parsed, next;
    }
    if input[cursor] == OPEN_BRACE {
      SkipTwice(input, cursor + 1);
      LeadingSpace(input, cursor + 1, MAX_DEPTH - (depth + 1));
      cursor := SkipWhitespace(input, cursor + 1);
      if cursor < |input| && input[cursor] == CLOSE_BRACE { return true, cursor + 1; }
      ok, cursor := ConsumeMembers(input, cursor, depth + 1);
    } else if input[cursor] == OPEN_BRACKET {
      LeadingSpace(input, cursor + 1, MAX_DEPTH - (depth + 1));
      cursor := SkipWhitespace(input, cursor + 1);
      if cursor < |input| && input[cursor] == CLOSE_BRACKET { return true, cursor + 1; }
      ok, cursor := ConsumeItems(input, cursor, depth + 1);
    } else {
      ok, cursor := ConsumeScalar(input, cursor);
    }
  }

  method FindValueEnd(input: Text, start: nat) returns (ok: bool, end: nat)
    requires start <= |input|
    ensures Outcome(ok, end) == ValueEnd(input, start, MAX_DEPTH)
  {
    ok, end := ConsumeValue(input, start, 0);
  }

  // ----- The language FindValueEnd accepts -----

  /** Whatever is accepted is white space and a value of the grammar that nests at most 64 levels. */
  lemma AcceptedIsGrammar(s: Text, start: nat) returns (pad: Text, t: Json)
    requires start <= |s| && ValueEnd(s, start, MAX_DEPTH).Some?
    ensures IsPad(Native, pad) && IsJson(Native, t, MAX_DEPTH)
    ensures At(s, start, pad + Flatten(t)) && ValueEnd(s, start, MAX_DEPTH) == Some(start + |pad + Flatten(t)|)
  {
    hide ValueAt, IsJson, Flatten, IsPad;
    SkipSpaceIs(s, start);
    var i := SkipSpace(s, start);
    ValueSound(s, i, MAX_DEPTH);
    pad, t := s[start..i], ValueAt(s, i, MAX_DEPTH).value.value;
    AtConcat(s, start, pad, Flatten(t));
  }

  /** Every value of the grammar that nests at most 64 levels and is followed by a delimiter is taken exactly. */
  lemma GrammarIsAccepted(s: Text, start: nat, pad: Text, t: Json)
    requires IsPad(Native, pad) && IsJson(Native, t, MAX_DEPTH)
    requires At(s, start, pad + Flatten(t)) && Delimited(Native, s, start + |pad + Flatten(t)|)
    ensures ValueEnd(s, start, MAX_DEPTH) == Some(start + |pad + Flatten(t)|)
  {
    hide *;
    AtConcat(s, start, pad, Flatten(t));
    ValueStarts(s, start + |pad|, t, MAX_DEPTH);
    SkipPad(s, start, pad);
    ValueComplete(s, start + |pad|, MAX_DEPTH, t);
    EndIs(s, start, start + |pad|, t, start + |pad| + |Flatten(t)|);
  }

  lemma EndIs(s: Text, start: nat, i: nat, t: Json, end: nat)
    requires SkipSpace(s, start) == i && ValueAt(s, i, MAX_DEPTH) == Some(Read(t, end))
    ensures ValueEnd(s, start, MAX_DEPTH) == Some(end)
  {
    hide SkipSpace, ValueAt;
  }
}
