/**
 * assertJsonComplexityAndUniqueKeys of apps/desktop/src/main/native-host/frame-codec.ts, on texts that
 * are valid JSON.
 */
module JsonScanner {
  import opened Basics
  import opened JsonGrammar
  import opened JsonValues
  import opened ScannedText

  const MAX_JSON_DEPTH: nat := 32
  const MAX_JSON_NODES: nat := 65536

  // ----- What is bounded -----

  /** Values in a tree, itself included. */
  function Nodes(t: Json): nat
    decreases t, 0
  {
    match t
    case Obj(ms) => 1 + MemberNodes(ms)
    case Arr(xs) => 1 + ItemNodes(xs)
    case _ => 1
  }

  function MemberNodes(ms: Members): nat
    decreases ms, 0
  {
    if ms.NoMember? then 0 else Nodes(ms.value) + MemberNodes(ms.rest)
  }

  function ItemNodes(xs: Items): nat
    decreases xs, 0
  {
    if xs.NoItem? then 0 else Nodes(xs.value) + ItemNodes(xs.rest)
  }

  function Max(a: int, b: int): int {
    if a >= b then a else b
  }

  /** How deep the deepest value lies below this one. */
  function Depth(t: Json): (d: int)
    ensures d >= 0
    decreases t, 0
  {
    match t
    case Obj(ms) => Max(0, 1 + MemberDepth(ms))
    case Arr(xs) => Max(0, 1 + ItemDepth(xs))
    case _ => 0
  }

  function MemberDepth(ms: Members): (d: int)
    ensures d >= -1
    decreases ms, 0
  {
    if ms.NoMember? then -1 else Max(Depth(ms.value), MemberDepth(ms.rest))
  }

  function ItemDepth(xs: Items): (d: int)
    ensures d >= -1
    decreases xs, 0
  {
    if xs.NoItem? then -1 else Max(Depth(xs.value), ItemDepth(xs.rest))
  }

  /** Decoded keys of one object, in order. */
  function ObjectKeys(ms: Members, room: int): seq<Text>
    requires AreMembers(Rfc8259, ms, room)
  {
    if ms.NoMember? then [] else [PieceUnits(ms.key)] + ObjectKeys(ms.rest, room)
  }

  predicate NoRepeats(keys: seq<Text>) {
    forall i, j | 0 <= i < j < |keys| :: keys[i] != keys[j]
  }

  /** No object at any level has two equal decoded keys. */
  predicate UniqueKeys(t: Json, room: int)
    requires IsJson(Rfc8259, t, room)
    decreases t, 0
  {
    match t
    case Obj(ms) => NoRepeats(ObjectKeys(ms, room - 1)) && UniqueMembers(ms, room - 1)
    case Arr(xs) => UniqueItems(xs, room - 1)
    case _ => true
  }

  predicate UniqueMembers(ms: Members, room: int)
    requires AreMembers(Rfc8259, ms, room)
    decreases ms, 0
  {
    ms.NoMember? || (UniqueKeys(ms.value, room) && UniqueMembers(ms.rest, room))
  }

  predicate UniqueItems(xs: Items, room: int)
    requires AreItems(Rfc8259, xs, room)
    decreases xs, 0
  {
    xs.NoItem? || (UniqueKeys(xs.value, room) && UniqueItems(xs.rest, room))
  }

  // ----- The scan, on trees -----

  predicate ScanValue(t: Json, room: int, nodes: nat, depth: nat)
    requires IsJson(Rfc8259, t, room)
    decreases t, 0
  {
    && nodes + 1 <= MAX_JSON_NODES && depth <= MAX_JSON_DEPTH
    && match t
       case Obj(ms) => ScanMembers(ms, room - 1, {}, nodes + 1, depth)
       case Arr(xs) => ScanItems(xs, room - 1, nodes + 1, depth)
       case _ => true
  }

  predicate ScanMembers(ms: Members, room: int, keys: set<Text>, nodes: nat, depth: nat)
    requires AreMembers(Rfc8259, ms, room)
    decreases ms, 0
  {
    ms.NoMember? ||
    (&& PieceUnits(ms.key) !in keys && ScanValue(ms.value, room, nodes, depth + 1)
     && ScanMembers(ms.rest, room, keys + {PieceUnits(ms.key)}, nodes + Nodes(ms.value), depth))
  }

  predicate ScanItems(xs: Items, room: int, nodes: nat, depth: nat)
    requires AreItems(Rfc8259, xs, room)
    decreases xs, 0
  {
    xs.NoItem? || (ScanValue(xs.value, room, nodes, depth + 1)
      && ScanItems(xs.rest, room, nodes + Nodes(xs.value), depth))
  }

  // ----- What the scan checks -----

  predicate FreshKeys(ks: seq<Text>, keys: set<Text>) {
    NoRepeats(ks) && forall k | k in ks :: k !in keys
  }

  lemma FreshCons(key: Text, rest: seq<Text>, keys: set<Text>)
    ensures FreshKeys([key] + rest, keys) <==> key !in keys && FreshKeys(rest, keys + {key})
  {
    var all := [key] + rest;
    assert forall k :: k in all <==> k == key || k in rest;
    assert forall k {:trigger rest[k]} | 0 <= k < |rest| :: all[k + 1] == rest[k];
    if FreshKeys(all, keys) {
      assert all[0] == key && key in all;
      forall i, j | 0 <= i < j < |rest| ensures rest[i] != rest[j] { assert all[i + 1] != all[j + 1]; }
    }
  }

  /** The scan accepts exactly small, shallow values whose objects have unique keys. */
  lemma {:induction false} ScanIs(t: Json, room: int, nodes: nat, depth: nat)
    requires IsJson(Rfc8259, t, room)
    ensures ScanValue(t, room, nodes, depth) <==>
            nodes + Nodes(t) <= MAX_JSON_NODES && depth + Depth(t) <= MAX_JSON_DEPTH && UniqueKeys(t, room)
    decreases t, 0
  {
    hide ScanMembers, ScanItems, ObjectKeys, NoRepeats;
    match t {
      case Obj(ms) =>
        ScanMembersIs(ms, room - 1, {}, nodes + 1, depth);
        assert FreshKeys(ObjectKeys(ms, room - 1), {}) == NoRepeats(ObjectKeys(ms, room - 1));
      case Arr(xs) => ScanItemsIs(xs, room - 1, nodes + 1, depth);
      case _ =>
    }
  }

  lemma {:induction false} ScanMembersIs(ms: Members, room: int, keys: set<Text>, nodes: nat, depth: nat)
    requires AreMembers(Rfc8259, ms, room)
    ensures nodes <= MAX_JSON_NODES && depth <= MAX_JSON_DEPTH ==>
            (ScanMembers(ms, room, keys, nodes, depth) <==>
             && nodes + MemberNodes(ms) <= MAX_JSON_NODES && depth + 1 + MemberDepth(ms) <= MAX_JSON_DEPTH
             && FreshKeys(ObjectKeys(ms, room), keys) && UniqueMembers(ms, room))
    decreases ms, 0
  {
    hide ScanValue, UniqueKeys, Nodes, Depth, FreshKeys, PieceUnits;
    if ms.Member? {
      var key := PieceUnits(ms.key);
      ScanIs(ms.value, room, nodes, depth + 1);
      ScanMembersIs(ms.rest, room, keys + {key}, nodes + Nodes(ms.value), depth);
      FreshCons(key, ObjectKeys(ms.rest, room), keys);
    } else {
      NoneFresh(keys);
    }
  }

  lemma NoneFresh(keys: set<Text>)
    ensures FreshKeys([], keys)
  {
  }

  lemma {:induction false} ScanItemsIs(xs: Items, room: int, nodes: nat, depth: nat)
    requires AreItems(Rfc8259, xs, room)
    ensures nodes <= MAX_JSON_NODES && depth <= MAX_JSON_DEPTH ==>
            (ScanItems(xs, room, nodes, depth) <==>
             && nodes + ItemNodes(xs) <= MAX_JSON_NODES && depth + 1 + ItemDepth(xs) <= MAX_JSON_DEPTH
             && UniqueItems(xs, room))
    decreases xs, 0
  {
    hide ScanValue, UniqueKeys, Nodes, Depth;
    if xs.Item? {
      ScanIs(xs.value, room, nodes, depth + 1);
      ScanItemsIs(xs.rest, room, nodes + Nodes(xs.value), depth);
    }
  }

  // ----- What the scanner meets -----

  /** The first character of a value tells its kind, and each kind ends where its text does. */
  lemma ValueKinds(rules: Rules, s: Text, i: nat, t: Json, room: int)
    requires rules != Native && IsJson(rules, t, room) && At(s, i, Flatten(t)) && Delimited(rules, s, i + |Flatten(t)|)
    ensures i < |s| && (s[i] == OPEN_BRACE <==> t.Obj?) && (s[i] == OPEN_BRACKET <==> t.Arr?)
            && (s[i] == QUOTE <==> t.Str?)
    ensures t.Obj? ==> AreMembers(rules, t.members, room - 1) && At(s, i + 1, MembersText(t.members))
                       && |Flatten(t)| == 1 + |MembersText(t.members)|
    ensures t.Arr? ==> AreItems(rules, t.items, room - 1) && At(s, i + 1, ItemsText(t.items))
                       && |Flatten(t)| == 1 + |ItemsText(t.items)|
    ensures t.Str? ==> StringEnd(s, i + 1, false) == Some(i + |Flatten(t)|)
    ensures t.Num? || t.Lit? ==> ScalarEnd(s, i) == Some(i + |Flatten(t)|)
  {
    ValueBegins(rules, s, i, t, room);
    FlattenBegins(rules, t, room);
    hide At, StringText, NumberText, WordText, MembersText, ItemsText, AreMembers, AreItems, ArePieces, IsNumber,
         StringEnd, ScalarEnd, Delimited, StartsValue;
    match t {
      case Str(ps) => LiteralScanned(s, i, ps);
      case Num(n) => NumberScanned(rules, s, i, n);
      case Lit(w) => WordScanned(s, i, w);
      case Obj(ms) => AtConcat(s, i, [OPEN_BRACE], MembersText(ms));
      case Arr(xs) => AtConcat(s, i, [OPEN_BRACKET], ItemsText(xs));
    }
  }

  lemma MembersBegin(rules: Rules, s: Text, i: nat, ms: Members, room: int)
    requires rules != Native && AreMembers(rules, ms, room) && At(s, i, MembersText(ms))
    ensures var k := Skip(s, i);
            && k == i + |ms.pad| < |s| && (s[k] == CLOSE_BRACE <==> ms.NoMember?)
            && (ms.NoMember? ==> k + 1 == i + |MembersText(ms)|)
  {
    if ms.NoMember? {
      assert MembersText(ms) == ms.pad + [CLOSE_BRACE];
      hide MembersText, At, Skip;
      EmptyStands(rules, s, i, ms.pad, CLOSE_BRACE);
    } else {
      hide MembersText, At, Skip, AreMembers;
      var p := MemberStands(rules, s, i, ms, room);
    }
  }

  lemma ItemsBegin(rules: Rules, s: Text, i: nat, xs: Items, room: int)
    requires rules != Native && AreItems(rules, xs, room) && At(s, i, ItemsText(xs))
    ensures var k := Skip(s, i);
            && k == i + |xs.pad| < |s| && (s[k] == CLOSE_BRACKET <==> xs.NoItem?)
            && (xs.NoItem? ==> k + 1 == i + |ItemsText(xs)|)
  {
    if xs.NoItem? {
      assert ItemsText(xs) == xs.pad + [CLOSE_BRACKET];
      hide ItemsText, At, Skip;
      EmptyStands(rules, s, i, xs.pad, CLOSE_BRACKET);
    } else {
      hide ItemsText, At, Skip, AreItems;
      var p := ItemStands(rules, s, i, xs, room);
    }
  }

  lemma MembersScan(m: Members, room: int, keys: set<Text>, nodes: nat, depth: nat)
    requires AreMembers(Rfc8259, m, room)
    ensures m.NoMember? ==> ScanMembers(m, room, keys, nodes, depth) && MemberNodes(m) == 0
    ensures m.Member? ==>
              && ArePieces(Rfc8259, m.key) && IsJson(Rfc8259, m.value, room) && AreMembers(Rfc8259, m.rest, room)
              && MemberNodes(m) == Nodes(m.value) + MemberNodes(m.rest)
              && ScanMembers(m, room, keys, nodes, depth) ==
                 (&& PieceUnits(m.key) !in keys && ScanValue(m.value, room, nodes, depth + 1)
                  && ScanMembers(m.rest, room, keys + {PieceUnits(m.key)}, nodes + Nodes(m.value), depth))
  {
  }

  lemma ItemsScan(x: Items, room: int, nodes: nat, depth: nat)
    requires AreItems(Rfc8259, x, room)
    ensures x.NoItem? ==> ScanItems(x, room, nodes, depth) && ItemNodes(x) == 0
    ensures x.Item? ==>
              && IsJson(Rfc8259, x.value, room) && AreItems(Rfc8259, x.rest, room)
              && ItemNodes(x) == Nodes(x.value) + ItemNodes(x.rest)
              && ScanItems(x, room, nodes, depth) ==
                 (ScanValue(x.value, room, nodes, depth + 1) && ScanItems(x.rest, room, nodes + Nodes(x.value), depth))
  {
  }

  lemma SpanEnds(s: Text, i: nat, m: Members, p: MemberSpan)
    requires m.Member? && Spans(Rfc8259, s, i, m, p)
    ensures Skip(s, p.end) == p.next < |s| && (s[p.next] == COMMA <==> m.rest.Member?)
            && (s[p.next] == CLOSE_BRACE <==> m.rest.NoMember?)
    ensures m.rest.Member? ==> At(s, p.next + 1, MembersText(m.rest))
    ensures i + |MembersText(m)| == p.next + 1 + (if m.rest.Member? then |MembersText(m.rest)| else 0)
    ensures i <= p.key == i + |m.pad| < p.end
  {
    hide Skip, At, MembersText;
  }

  // ----- The scanner -----

  /** A text that is one JSON value with white space around it. */
  datatype Document = Document(before: Text, tree: Json, after: Text, room: int)

  ghost predicate IsDocument(json: Text, d: Document) {
    && IsPad(Rfc8259, d.before) && IsPad(Rfc8259, d.after) && IsJson(Rfc8259, d.tree, d.room)
    && json == d.before + (Flatten(d.tree) + d.after)
  }

  /** The closure's variables; false stands for an exception. */
  class Scanner {
    const json: Text
    var index: nat
    var nodes: nat

    constructor (json: Text)
      ensures this.json == json && index == 0 && nodes == 0
    {
      this.json := json;
      index, nodes := 0, 0;
    }

    method SkipWhitespace()
      modifies this`index
      ensures index == Skip(json, old(index))
    {
      while index < |json| && IsWhite(json[index])
        invariant Skip(json, index) == Skip(json, old(index))
        decreases |json| - index
      {
        index := index + 1;
      }
    }

    method ReadString() returns (ok: bool, key: Text)
      requires index < |json|
      modifies this`index
      ensures ok == StringEnd(json, old(index) + 1, false).Some?
      ensures ok ==> index == StringEnd(json, old(index) + 1, false).value && key == UnitsFrom(json, old(index) + 1)
    {
      var start := index;
      index := index + 1;
      var escaped := false;
      while index < |json|
        invariant StringEnd(json, index, escaped) == StringEnd(json, start + 1, false)
        decreases |json| - index
      {
        var character := json[index];
        index := index + 1;
        if escaped { escaped := false; }
        else if character == BACKSLASH { escaped := true; }
        else if character == QUOTE { return true, UnitsFrom(json, start + 1); }
      }
      return false, [];
    }

    /** start is where the value begins, white space passed. */
    method ParseValue(depth: nat, ghost start: nat, ghost t: Json, ghost room: int) returns (ok: bool)
      requires IsJson(Rfc8259, t, room) && At(json, start, Flatten(t)) && Skip(json, index) == start
      requires Delimited(Rfc8259, json, start + |Flatten(t)|)
      modifies this
      ensures ok == ScanValue(t, room, old(nodes), depth)
      ensures ok ==> index == start + |Flatten(t)| && nodes == old(nodes) + Nodes(t)
      decreases t, 2
    {
      hide Flatten, At, Skip, StringEnd, ScalarEnd, Delimited, ScanMembers, ScanItems, IsJson, MemberNodes, ItemNodes;
      nodes := nodes + 1;
      if nodes > MAX_JSON_NODES { return false; }
      if depth > MAX_JSON_DEPTH { return false; }
      SkipWhitespace();
      ValueKinds(Rfc8259, json, start, t, room);
      var character := json[index];
      if character == OPEN_BRACE {
        index := index + 1;
        ok := ParseObject(depth, t.members, room - 1);
        return;
      }
      if character == OPEN_BRACKET {
        index := index + 1;
        ok := ParseArray(depth, t.items, room - 1);
        return;
      }
      if character == QUOTE {
        var _, _ := ReadString();
        return true;
      }
      var scalar := ScalarEnd(json, index);
      if scalar.None? { return false; }
      index := scalar.value;
      return true;
    }

    /** After an opening brace. */
    method ParseObject(depth: nat, ghost ms: Members, ghost room: int) returns (ok: bool)
      requires AreMembers(Rfc8259, ms, room) && At(json, index, MembersText(ms))
      modifies this
      ensures ok == ScanMembers(ms, room, {}, old(nodes), depth)
      ensures ok ==> index == old(index) + |MembersText(ms)| && nodes == old(nodes) + MemberNodes(ms)
      decreases ms, 1
    {
      hide *;
      ghost var begin: nat := index;
      MembersBegin(Rfc8259, json, index, ms, room);
      MembersScan(ms, room, {}, nodes, depth);
      SkipWhitespace();
      if json[index] == CLOSE_BRACE {
        index := index + 1;
        return true;
      }
      ghost var left, from: nat := ms, begin;
      var keys: set<Text> := {};
      while index < |json|
        invariant left.Member? && AreMembers(Rfc8259, left, room) && At(json, from, MembersText(left))
        invariant from <= index <= from + |left.pad|
        invariant from + |MembersText(left)| == begin + |MembersText(ms)|
        invariant nodes + MemberNodes(left) == old(nodes) + MemberNodes(ms)
        invariant ScanMembers(left, room, keys, nodes, depth) == ScanMembers(ms, room, {}, old(nodes), depth)
        invariant left == ms || left < ms
        decreases |json| - index
      {
        ghost var p := MemberStands(Rfc8259, json, from, left, room);
        ParsedMember(Rfc8259, left, room);
        MembersScan(left, room, keys, nodes, depth);
        SpanEnds(json, from, left, p);
        var stored, key := ParseMember(depth, keys, from, left, room, p);
        if !stored { return false; }
        keys := keys + {key};
        MembersScan(left.rest, room, keys, nodes, depth);
        SkipWhitespace();
        if json[index] == CLOSE_BRACE {
          index := index + 1;
          return true;
        }
        if json[index] != COMMA { return false; }
        index := index + 1;
        left, from := left.rest, p.next + 1;
      }
      ghost var p := MemberStands(Rfc8259, json, from, left, room);
      SpanEnds(json, from, left, p);
      return false;
    }

    /** A key, a colon and a value. */
    method ParseMember(depth: nat, keys: set<Text>, ghost from: nat, ghost m: Members, ghost room: int,
            ghost p: MemberSpan)
      returns (ok: bool, key: Text)
      requires m.Member? && ArePieces(Rfc8259, m.key) && IsJson(Rfc8259, m.value, room)
      requires Spans(Rfc8259, json, from, m, p) && UnitsFrom(json, p.key + 1) == PieceUnits(m.key)
               && from <= index <= p.key
      modifies this
      ensures ok == (PieceUnits(m.key) !in keys && ScanValue(m.value, room, old(nodes), depth + 1))
      ensures ok ==> key == PieceUnits(m.key) && index == p.end && nodes == old(nodes) + Nodes(m.value)
      decreases m, 0
    {
      hide At, Skip, StringEnd, UnitsFrom, Flatten, Delimited, ScanValue, IsJson, PieceUnits, MembersText, Nodes;
      key := [];
      SkipWhitespace();
      if index >= |json| || json[index] != QUOTE { return false, key; }
      ok, key := ReadString();
      if !ok { return false, key; }
      if key in keys { return false, key; }
      SkipWhitespace();
      if index >= |json| || json[index] != COLON { return false, key; }
      index := index + 1;
      ok := ParseValue(depth + 1, p.value, m.value, room);
    }

    /** After an opening bracket. */
    method ParseArray(depth: nat, ghost xs: Items, ghost room: int) returns (ok: bool)
      requires AreItems(Rfc8259, xs, room) && At(json, index, ItemsText(xs))
      modifies this
      ensures ok == ScanItems(xs, room, old(nodes), depth)
      ensures ok ==> index == old(index) + |ItemsText(xs)| && nodes == old(nodes) + ItemNodes(xs)
      decreases xs, 1
    {
      hide *;
      ghost var begin: nat := index;
      ItemsBegin(Rfc8259, json, index, xs, room);
      ItemsScan(xs, room, nodes, depth);
      SkipWhitespace();
      if json[index] == CLOSE_BRACKET {
        index := index + 1;
        return true;
      }
      ghost var left, from: nat := xs, begin;
      while index < |json|
        invariant left.Item? && AreItems(Rfc8259, left, room) && At(json, from, ItemsText(left))
        invariant from <= index <= from + |left.pad|
        invariant from + |ItemsText(left)| == begin + |ItemsText(xs)|
        invariant nodes + ItemNodes(left) == old(nodes) + ItemNodes(xs)
        invariant ScanItems(left, room, nodes, depth) == ScanItems(xs, room, old(nodes), depth)
        invariant left == xs || left < xs
        decreases |json| - index
      {
        ghost var p := ItemStands(Rfc8259, json, from, left, room);
        ParsedItem(Rfc8259, left, room);
        ItemsScan(left, room, nodes, depth);
        ItemEnds(json, from, left, p, index);
        ok := ParseValue(depth + 1, p.value, left.value, room);
        if !ok { return false; }
        ItemsScan(left.rest, room, nodes, depth);
        SkipWhitespace();
        if json[index] == CLOSE_BRACKET {
          index := index + 1;
          return true;
        }
        if json[index] != COMMA { return false; }
        index := index + 1;
        left, from := left.rest, p.next + 1;
      }
      ghost var p := ItemStands(Rfc8259, json, from, left, room);
      ItemEnds(json, from, left, p, index);
      return false;
    }
  }

  lemma ItemEnds(s: Text, i: nat, x: Items, p: ItemSpan, index: nat)
    requires x.Item? && ItemSpans(Rfc8259, s, i, x, p) && i <= index <= i + |x.pad|
    ensures Skip(s, index) == p.value && i <= p.value == i + |x.pad| < p.end
    ensures At(s, p.value, Flatten(x.value)) && p.end == p.value + |Flatten(x.value)| && Delimited(Rfc8259, s, p.end)
    ensures Skip(s, p.end) == p.next < |s| && (s[p.next] == COMMA <==> x.rest.Item?)
            && (s[p.next] == CLOSE_BRACKET <==> x.rest.NoItem?)
    ensures x.rest.Item? ==> At(s, p.next + 1, ItemsText(x.rest))
    ensures i + |ItemsText(x)| == p.next + 1 + (if x.rest.Item? then |ItemsText(x.rest)| else 0)
  {
    hide Skip, At, ItemsText, Flatten, Delimited;
  }

  /** The parts of a document, as the scanner meets them. */
  lemma DocumentStands(json: Text, d: Document)
    requires IsDocument(json, d)
    ensures var start, end := |d.before|, |d.before| + |Flatten(d.tree)|;
            && IsJson(Rfc8259, d.tree, d.room) && Skip(json, 0) == start && At(json, start, Flatten(d.tree))
            && Delimited(Rfc8259, json, end) && Skip(json, end) == |json|
  {
    hide *;
    DocumentParts(json, d);
    var start, end := |d.before|, |d.before| + |Flatten(d.tree)|;
    ValueBegins(Rfc8259, json, start, d.tree, d.room);
    SkipOver(Rfc8259, json, 0, 0, d.before);
    SkipOver(Rfc8259, json, end, end, d.after);
  }

  lemma DocumentParts(json: Text, d: Document)
    requires IsDocument(json, d)
    ensures var start, end := |d.before|, |d.before| + |Flatten(d.tree)|;
            && IsPad(Rfc8259, d.before) && IsPad(Rfc8259, d.after) && IsJson(Rfc8259, d.tree, d.room)
            && At(json, 0, d.before) && At(json, start, Flatten(d.tree)) && At(json, end, d.after)
            && Delimited(Rfc8259, json, end) && end + |d.after| == |json|
  {
    hide Flatten, IsJson;
    var tree := Flatten(d.tree);
    var start, end := |d.before|, |d.before| + |tree|;
    assert json[0..start] == d.before && json[start..end] == tree && json[end..|json|] == d.after;
    if d.after != [] { assert json[end] == d.after[0]; }
  }

  /**
   * On a text that is valid JSON the scan succeeds exactly when the tree has at most 65536 values, no value lies
   * deeper than 32 levels, and no object at any level has two equal decoded keys.
   */
  method AssertJsonComplexityAndUniqueKeys(json: Text, ghost d: Document) returns (accepted: bool)
    requires IsDocument(json, d)
    ensures IsJson(Rfc8259, d.tree, d.room)
    ensures accepted <==>
              Nodes(d.tree) <= MAX_JSON_NODES && Depth(d.tree) <= MAX_JSON_DEPTH && UniqueKeys(d.tree, d.room)
  {
    hide *;
    var scanner := new Scanner(json);
    DocumentStands(json, d);
    ScanIs(d.tree, d.room, 0, 0);
    accepted := scanner.ParseValue(0, |d.before|, d.tree, d.room);
    if !accepted { return false; }
    scanner.SkipWhitespace();
    if scanner.index != |json| { return false; }
    return true;
  }
}
