/** ParseObject of native/selection-host/src/core/envelope.cpp: top-level fields of a unique-key object. */
module JsonObjects {
  import opened Basics
  import opened Utf8
  import opened JsonGrammar
  import opened JsonStrings
  import opened JsonValues
  import opened JsonValueReader

  type Fields = map<Text, Text>

  // ----- What an object means -----

  predicate AreNative(ms: Members) {
    AreMembers(Native, ms, MAX_DEPTH)
  }

  /** Decoded keys in order of appearance. */
  function Keys(ms: Members): seq<Text>
    requires AreNative(ms)
  {
    if ms.NoMember? then [] else [PiecesValue(ms.key)] + Keys(ms.rest)
  }

  predicate Distinct(keys: seq<Text>) {
    forall i, j | 0 <= i < j < |keys| :: keys[i] != keys[j]
  }

  /** Each decoded key with the text of its value. */
  function FieldMap(ms: Members): (r: Fields)
    requires AreNative(ms)
    ensures forall k :: k in r <==> k in Keys(ms)
  {
    if ms.NoMember? then map[] else map[PiecesValue(ms.key) := Flatten(ms.value)] + FieldMap(ms.rest)
  }

  // ----- The reader -----

  function AddFields(ms: Members, fields: Fields): Option<Fields>
    requires AreNative(ms)
    decreases ms
  {
    if ms.NoMember? then Some(fields)
    else
      var key := PiecesValue(ms.key);
      if key in fields then None else AddFields(ms.rest, fields[key := Flatten(ms.value)])
  }

  function Complete(s: Text, end: nat, fields: Option<Fields>): Option<Fields> {
    if SkipSpace(s, end) == |s| then fields else None
  }

  /** Reading on from i, just after a brace or a comma, with some fields already stored. */
  function FieldsFrom(s: Text, i: nat, fields: Fields): Option<Fields> {
    var r := MembersAt(s, i, MAX_DEPTH);
    if r.None? then None
    else
      MembersSound(s, i, MAX_DEPTH);
      Complete(s, r.value.end, AddFields(r.value.value, fields))
  }

  function ObjectFields(s: Text): Option<Fields> {
    var start := SkipSpace(s, 0);
    if start >= |s| || s[start] != OPEN_BRACE then None
    else
      var j := SkipSpace(s, start + 1);
      if j < |s| && s[j] == CLOSE_BRACE then Complete(s, j + 1, Some(map[]))
      else FieldsFrom(s, start + 1, map[])
  }

  /** The key read at i and the extent of its value. */
  function KeyAt(s: Text, i: nat): Text
    requires KeyEnd(s, i).Some?
  {
    KeySound(s, i);
    PiecesValue(LiteralAt(s, SkipSpace(s, i)).value)
  }

  function AfterField(s: Text, t: nat, fields: Fields): Option<Fields> {
    if t >= |s| then None
    else if s[t] == CLOSE_BRACE then Complete(s, t + 1, Some(fields))
    else if s[t] != COMMA then None
    else FieldsFrom(s, t + 1, fields)
  }

  lemma MemberKey(s: Text, i: nat)
    requires MembersAt(s, i, MAX_DEPTH).Some?
    ensures KeyEnd(s, i).Some?
    ensures var r, c := MembersAt(s, i, MAX_DEPTH).value, KeyEnd(s, i).value;
            && AreNative(r.value) && r.value.Member? && ArePieces(Native, r.value.key)
            && PiecesValue(r.value.key) == KeyAt(s, i)
            && var e := ValueEnd(s, c, MAX_DEPTH);
               e.Some? && c <= SkipSpace(s, c) < e.value <= |s| && Flatten(r.value.value) == s[SkipSpace(s, c)..e.value]
               && AfterMember(s, SkipSpace(s, e.value), MAX_DEPTH) == Some(Read(r.value.rest, r.end))
               && AreNative(r.value.rest)
  {
    MembersSound(s, i, MAX_DEPTH);
    var c := KeyEnd(s, i).value;
    var l := SkipSpace(s, c);
    hide AfterMember, LiteralAt, StringText, KeyEnd, SkipSpace, ValueAt, Flatten;
    ValueSound(s, l, MAX_DEPTH);
  }

  lemma RestFields(s: Text, t: nat, rest: Read<Members>, fields: Fields)
    requires AfterMember(s, t, MAX_DEPTH) == Some(rest) && AreNative(rest.value)
    ensures AfterField(s, t, fields) == Complete(s, rest.end, AddFields(rest.value, fields))
  {
    AfterMemberShape(s, t, MAX_DEPTH);
    hide MembersAt, AfterMember, Complete, AreNative;
    if rest.value.Member? { assert AddFields(NoMember([]), fields) == Some(fields); }
  }

  lemma NoRestFields(s: Text, t: nat, fields: Fields)
    requires AfterMemberEnd(s, t, MAX_DEPTH) == None
    ensures AfterField(s, t, fields) == None
  {
    hide MembersAt;
  }

  /** One turn of the reader's loop. */
  function NextFields(s: Text, i: nat, fields: Fields): Option<Fields> {
    var c := KeyEnd(s, i);
    if c.None? || ValueEnd(s, c.value, MAX_DEPTH).None? then None
    else
      var l, e := SkipSpace(s, c.value), ValueEnd(s, c.value, MAX_DEPTH).value;
      ValueExtent(s, c.value);
      if KeyAt(s, i) in fields then None else AfterField(s, SkipSpace(s, e), fields[KeyAt(s, i) := s[l..e]])
  }

  lemma FieldsTurn(s: Text, i: nat, fields: Fields)
    ensures FieldsFrom(s, i, fields) == NextFields(s, i, fields)
  {
    MembersTurn(s, i, MAX_DEPTH);
    if MembersAt(s, i, MAX_DEPTH).Some? {
      MemberKey(s, i);
      MembersSound(s, i, MAX_DEPTH);
      hide MembersAt, AfterMember, AfterField, KeyEnd, ValueEnd, SkipSpace, PiecesValue, Flatten, KeyAt, Complete,
           AreNative;
      var r := MembersAt(s, i, MAX_DEPTH).value;
      var e := ValueEnd(s, KeyEnd(s, i).value, MAX_DEPTH).value;
      RestFields(s, SkipSpace(s, e), Read(r.value.rest, r.end), fields[KeyAt(s, i) := Flatten(r.value.value)]);
    } else {
      hide KeyEnd, ValueEnd, SkipSpace, KeyAt, AfterField, AfterMemberEnd;
      if KeyEnd(s, i).Some? && ValueEnd(s, KeyEnd(s, i).value, MAX_DEPTH).Some? {
        var c := KeyEnd(s, i).value;
        var e := ValueEnd(s, c, MAX_DEPTH).value;
        ValueExtent(s, c);
        NoRestFields(s, SkipSpace(s, e), fields[KeyAt(s, i) := s[SkipSpace(s, c)..e]]);
      }
    }
  }

  lemma ValueExtent(s: Text, c: nat)
    requires ValueEnd(s, c, MAX_DEPTH).Some?
    ensures SkipSpace(s, c) < ValueEnd(s, c, MAX_DEPTH).value <= |s|
  {
    hide ValueAt, SkipSpace;
  }

  lemma LeadingSpaceFields(s: Text, i: nat, fields: Fields)
    ensures FieldsFrom(s, SkipSpace(s, i), fields) == FieldsFrom(s, i, fields)
  {
    SkipTwice(s, i);
    var j := SkipSpace(s, i);
    FieldsTurn(s, i, fields);
    FieldsTurn(s, j, fields);
    hide FieldsFrom, ValueEnd, SkipSpace, LiteralAt, AfterField, StringText, PiecesValue;
  }

  method ParseObject(input: Text) returns (ok: bool, fields: Fields)
    ensures ObjectFields(input) == if ok then Some(fields) else None
  {
    hide SkipSpace, FieldsFrom;
    fields := map[];
    var cursor := SkipWhitespace(input, 0);
    if cursor >= |input| || input[cursor] != OPEN_BRACE { return false, fields; }
    LeadingSpaceFields(input, cursor + 1, fields);
    SkipTwice(input, cursor + 1);
    cursor := SkipWhitespace(input, cursor + 1);
    if cursor < |input| && input[cursor] == CLOSE_BRACE {
      cursor := SkipWhitespace(input, cursor + 1);
      return cursor == |input|, fields;
    }
    while cursor < |input|
      invariant cursor == SkipSpace(input, cursor) && FieldsFrom(input, cursor, fields) == ObjectFields(input)
      decreases |input| - cursor
    {
      hide ObjectFields;
      var stored, next, key, value := ReadField(input, cursor, fields);
      if !stored { return false, fields; }
      fields := fields[key := value];
      cursor := SkipWhitespace(input, next);
      FieldStored(input, cursor, fields);
      if cursor >= |input| { return false, fields; }
      if input[cursor] == CLOSE_BRACE {
        cursor := SkipWhitespace(input, cursor + 1);
        return cursor == |input|, fields;
      }
      if input[cursor] != COMMA { return false, fields; }
      LeadingSpaceFields(input, cursor + 1, fields);
      SkipTwice(input, cursor + 1);
      cursor := SkipWhitespace(input, cursor + 1);
    }
    FieldsEnd(input, cursor, fields);
    return false, fields;
  }

  /** Key, colon and value of one field; refused when malformed or when the key is already stored. */
  method ReadField(input: Text, start: nat, fields: Fields) returns (ok: bool, next: nat, key: Text, value: Text)
    requires start == SkipSpace(input, start) && start < |input|
    ensures if !ok then FieldsFrom(input, start, fields) == None
            else start < next <= |input|
                 && FieldsFrom(input, start, fields) == AfterField(input, SkipSpace(input, next), fields[key := value])
  {
    hide LiteralAt, SkipSpace, FieldsFrom, ValueEnd, AfterField, PiecesValue, StringText;
    FieldsTurn(input, start, fields);
    ok, next, key := ParseString(input, start);
    value := [];
    if !ok { return false, next, key, value; }
    next := SkipWhitespace(input, next);
    if next >= |input| || input[next] != COLON { return false, next, key, value; }
    ok := LiteralAt(input, start).Some?;
    assert KeyEnd(input, start) == Some(next + 1) && KeyAt(input, start) == key;
    hide KeyEnd, KeyAt;
    SkipTwice(input, next + 1);
    LeadingSpace(input, next + 1, MAX_DEPTH);
    var valueStart := SkipWhitespace(input, next + 1);
    var colon := next + 1;
    ok, next := FindValueEnd(input, valueStart);
    if !ok { return false, next, key, value; }
    ValueExtent(input, colon);
    if key in fields { return false, next, key, value; }
    value := input[valueStart..next];
  }

  lemma FieldStored(s: Text, t: nat, fields: Fields)
    ensures AfterField(s, t, fields) ==
            if t >= |s| then None
            else if s[t] == CLOSE_BRACE then if SkipSpace(s, t + 1) == |s| then Some(fields) else None
            else if s[t] != COMMA then None
            else FieldsFrom(s, t + 1, fields)
  {
  }

  lemma FieldsEnd(s: Text, i: nat, fields: Fields)
    requires i >= |s|
    ensures FieldsFrom(s, i, fields) == None
  {
    assert SkipSpace(s, i) == i;
  }

  // ----- The language ParseObject accepts -----

  predicate Unused(keys: seq<Text>, fields: Fields) {
    forall k | k in keys :: k !in fields
  }

  lemma {:induction false} AddFieldsIs(ms: Members, fields: Fields)
    requires AreNative(ms)
    ensures AddFields(ms, fields) ==
            if Distinct(Keys(ms)) && Unused(Keys(ms), fields) then Some(fields + FieldMap(ms)) else None
    decreases ms
  {
    hide PiecesValue, Flatten, Distinct, Unused;
    if ms.Member? {
      var key, value := PiecesValue(ms.key), Flatten(ms.value);
      var rest := Keys(ms.rest);
      AddFieldsIs(ms.rest, fields[key := value]);
      DistinctCons(key, rest);
      UnusedCons(key, rest, fields, value);
      assert fields[key := value] + FieldMap(ms.rest) == fields + (map[key := value] + FieldMap(ms.rest));
    } else {
      NothingUsed(fields);
      assert fields + map[] == fields;
    }
  }

  lemma NothingUsed(fields: Fields)
    ensures Unused([], fields) && Distinct([])
  {
  }

  lemma UnusedCons(key: Text, rest: seq<Text>, fields: Fields, value: Text)
    ensures Unused([key] + rest, fields) <==> key !in fields && Unused(rest, fields)
    ensures Unused(rest, fields[key := value]) <==> key !in rest && Unused(rest, fields)
  {
    var all := [key] + rest;
    assert forall k :: k in all <==> k == key || k in rest;
    if Unused(all, fields) { assert key in all; }
  }

  lemma DistinctCons(key: Text, rest: seq<Text>)
    ensures Distinct([key] + rest) <==> key !in rest && Distinct(rest)
  {
    var all := [key] + rest;
    assert forall k {:trigger rest[k]} | 0 <= k < |rest| :: all[k + 1] == rest[k];
    if Distinct(all) {
      assert all[0] == key;
      forall i, j | 0 <= i < j < |rest| ensures rest[i] != rest[j] {
        assert all[i + 1] != all[j + 1];
      }
    }
  }

  /** What ParseObject accepts is one object of the grammar with distinct decoded keys; it stores exactly its fields. */
  lemma ObjectSound(s: Text) returns (before: Text, ms: Members, after: Text)
    requires ObjectFields(s).Some?
    ensures IsPad(Native, before) && IsPad(Native, after) && AreNative(ms)
    ensures s == before + ([OPEN_BRACE] + MembersText(ms)) + after
    ensures Distinct(Keys(ms)) && ObjectFields(s) == Some(FieldMap(ms))
  {
    hide *;
    var end: nat;
    ms, end := ObjectSplits(s);
    var start := SkipSpace(s, 0);
    SkipSpaceIs(s, 0);
    ObjectEnds(s, start, ms, end);
    SkipSpaceIs(s, end);
    before, after := s[..start], s[end..];
    assert s[0..start] == before && s[end..|s|] == after;
    AddFieldsIs(ms, map[]);
    NoFields(ms);
  }

  lemma ObjectSplits(s: Text) returns (ms: Members, end: nat)
    requires ObjectFields(s).Some?
    ensures var start := SkipSpace(s, 0);
            && start < |s| && s[start] == OPEN_BRACE && AreNative(ms) && At(s, start + 1, MembersText(ms))
            && end == start + 1 + |MembersText(ms)| <= |s| && SkipSpace(s, end) == |s|
            && ObjectFields(s) == AddFields(ms, map[])
  {
    var start := SkipSpace(s, 0);
    var j := SkipSpace(s, start + 1);
    if j < |s| && s[j] == CLOSE_BRACE {
      EmptySound(s, start + 1, CLOSE_BRACE);
      ms, end := NoMember(s[start + 1..j]), j + 1;
      assert MembersText(ms) == ms.pad + [CLOSE_BRACE];
      hide SkipSpace, IsPad;
      assert AddFields(ms, map[]) == Some(map[]);
    } else {
      hide SkipSpace, MembersAt, AddFields, MembersText;
      MembersSound(s, start + 1, MAX_DEPTH);
      ms, end := MembersAt(s, start + 1, MAX_DEPTH).value.value, MembersAt(s, start + 1, MAX_DEPTH).value.end;
    }
  }

  lemma ObjectEnds(s: Text, start: nat, ms: Members, end: nat)
    requires start < |s| && s[start] == OPEN_BRACE && At(s, start + 1, MembersText(ms))
             && end == start + 1 + |MembersText(ms)|
    ensures end <= |s| && s == s[..start] + ([OPEN_BRACE] + MembersText(ms)) + s[end..]
  {
    hide MembersText;
    assert s[start..end] == [OPEN_BRACE] + s[start + 1..end];
  }

  /** Every object of the grammar is accepted exactly when its decoded keys are distinct. */
  lemma ObjectComplete(s: Text, before: Text, ms: Members, after: Text)
    requires IsPad(Native, before) && IsPad(Native, after) && AreNative(ms)
    requires s == before + ([OPEN_BRACE] + MembersText(ms)) + after
    ensures ObjectFields(s) == if Distinct(Keys(ms)) then Some(FieldMap(ms)) else None
  {
    hide *;
    var start, end := ObjectStands(s, before, ms, after);
    AddFieldsIs(ms, map[]);
    NoFields(ms);
    if ms.Member? {
      MembersStand(s, start, end, ms);
    } else {
      NoMembersStand(s, start, end, ms);
    }
  }

  lemma NoFields(ms: Members)
    requires AreNative(ms)
    ensures map[] + FieldMap(ms) == FieldMap(ms) && Unused(Keys(ms), map[])
    ensures ms.NoMember? ==> Keys(ms) == [] && FieldMap(ms) == map[] && Distinct(Keys(ms))
  {
  }

  lemma ObjectStands(s: Text, before: Text, ms: Members, after: Text) returns (start: nat, end: nat)
    requires IsPad(Native, before) && IsPad(Native, after)
    requires s == before + ([OPEN_BRACE] + MembersText(ms)) + after
    ensures start == SkipSpace(s, 0) < |s| && s[start] == OPEN_BRACE && At(s, start + 1, MembersText(ms))
    ensures end == start + 1 + |MembersText(ms)| && SkipSpace(s, end) == |s|
  {
    hide MembersText, SkipSpace;
    start := |before|;
    end := start + 1 + |MembersText(ms)|;
    assert s[0..start] == before;
    assert s[start + 1..end] == MembersText(ms);
    assert s[end..|s|] == after;
    SkipPad(s, 0, before);
    SkipPad(s, end, after);
  }

  lemma MembersStand(s: Text, start: nat, end: nat, ms: Members)
    requires ms.Member? && AreNative(ms) && start == SkipSpace(s, 0) < |s| && s[start] == OPEN_BRACE
    requires At(s, start + 1, MembersText(ms)) && end == start + 1 + |MembersText(ms)| && SkipSpace(s, end) == |s|
    ensures ObjectFields(s) == AddFields(ms, map[])
  {
    hide SkipSpace, FieldsFrom, MembersText, AddFields, AreMembers;
    MembersComplete(s, start + 1, MAX_DEPTH, ms);
    MemberStarts(s, start + 1, MAX_DEPTH, ms);
    FieldsAre(s, start + 1, ms, end);
  }

  lemma FieldsAre(s: Text, i: nat, ms: Members, end: nat)
    requires MembersAt(s, i, MAX_DEPTH) == Some(Read(ms, end)) && AreNative(ms) && SkipSpace(s, end) == |s|
    ensures FieldsFrom(s, i, map[]) == AddFields(ms, map[])
  {
    hide MembersAt, SkipSpace, AddFields, AreMembers;
  }

  lemma NoMembersStand(s: Text, start: nat, end: nat, ms: Members)
    requires ms.NoMember? && AreNative(ms) && start == SkipSpace(s, 0) < |s| && s[start] == OPEN_BRACE
    requires At(s, start + 1, MembersText(ms)) && end == start + 1 + |MembersText(ms)| && SkipSpace(s, end) == |s|
    ensures ObjectFields(s) == Some(map[])
  {
    hide *;
    NoMembersText(ms);
    EmptyComplete(s, start + 1, ms.pad, CLOSE_BRACE);
    NoFieldsRead(s, start, start + 1 + |ms.pad|);
  }

  lemma NoMembersText(ms: Members)
    requires ms.NoMember? && AreNative(ms)
    ensures MembersText(ms) == ms.pad + [CLOSE_BRACE] && IsPad(Native, ms.pad) && !IsSpace(Native, CLOSE_BRACE)
  {
  }

  lemma NoFieldsRead(s: Text, start: nat, j: nat)
    requires start == SkipSpace(s, 0) < |s| && s[start] == OPEN_BRACE
    requires j == SkipSpace(s, start + 1) < |s| && s[j] == CLOSE_BRACE && SkipSpace(s, j + 1) == |s|
    ensures ObjectFields(s) == Some(map[])
  {
    hide SkipSpace, FieldsFrom;
  }
}
