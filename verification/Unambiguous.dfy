/** A text has at most one tree: what JSON.parse builds and the scan of it walks over are the same. */
module Unambiguous {
  import opened Basics
  import opened JsonGrammar
  import opened JsonValues
  import opened ScannedText
  import opened JsonScanner

  // ----- Strings -----

  lemma FirstPieceSame(p: Piece, q: Piece, x: Text, y: Text)
    requires IsPiece(Rfc8259, p) && IsPiece(Rfc8259, q) && PieceText(p) + x == PieceText(q) + y
    ensures p == q && x == y
  {
    hide HexValue;
    var s := PieceText(p) + x;
    var t := PieceText(q) + y;
    assert PieceText(p)[0] == s[0] == t[0] == PieceText(q)[0];
    if s[0] == BACKSLASH {
      assert PieceText(p)[1] == s[1] == t[1] == PieceText(q)[1];
      assert ShortValue(0x75).None?;
      if s[1] == 0x75 { assert PieceText(p) == s[..6] == t[..6] == PieceText(q) && p.digits == s[2..6] == q.digits; }
    }
    assert PieceText(p) == PieceText(q);
    assert x == s[|PieceText(p)|..] == y;
  }

  lemma {:induction false} PiecesSame(ps: seq<Piece>, qs: seq<Piece>)
    requires ArePieces(Rfc8259, ps) && ArePieces(Rfc8259, qs) && PiecesText(ps) == PiecesText(qs)
    ensures ps == qs
  {
    hide PieceText, IsPiece;
    if ps != [] && qs != [] {
      FirstPieceSame(ps[0], qs[0], PiecesText(ps[1..]), PiecesText(qs[1..]));
      PiecesSame(ps[1..], qs[1..]);
      assert ps == [ps[0]] + ps[1..] && qs == [qs[0]] + qs[1..];
    }
  }

  /** Two literals at one place are the same. */
  lemma LiteralsSame(s: Text, i: nat, ps: seq<Piece>, qs: seq<Piece>)
    requires ArePieces(Rfc8259, ps) && ArePieces(Rfc8259, qs) && At(s, i, StringText(ps)) && At(s, i, StringText(qs))
    ensures ps == qs
  {
    LiteralScanned(s, i, ps);
    LiteralScanned(s, i, qs);
    assert StringText(ps) == StringText(qs);
    assert PiecesText(ps) == StringText(ps)[1..|StringText(ps)| - 1] == StringText(qs)[1..|StringText(qs)| - 1]
           == PiecesText(qs);
    hide *;
    PiecesSame(ps, qs);
  }

  // ----- Values -----

  lemma {:induction false} ValuesSame(rules: Rules, s: Text, i: nat, a: Json, aRoom: int, b: Json, bRoom: int)
    requires rules != Native && IsJson(rules, a, aRoom) && IsJson(rules, b, bRoom)
    requires At(s, i, Flatten(a)) && Delimited(rules, s, i + |Flatten(a)|)
    requires At(s, i, Flatten(b)) && Delimited(rules, s, i + |Flatten(b)|)
    ensures a == b
    decreases a, 0
  {
    ValueKinds(rules, s, i, a, aRoom);
    ValueKinds(rules, s, i, b, bRoom);
    if a.Obj? {
      hide *;
      MembersSame(rules, s, i + 1, a.members, aRoom - 1, b.members, bRoom - 1);
    } else if a.Arr? {
      hide *;
      ItemsSame(rules, s, i + 1, a.items, aRoom - 1, b.items, bRoom - 1);
    } else {
      ScalarsSame(rules, s, i, a, aRoom, b, bRoom);
    }
  }

  lemma ScalarsSame(rules: Rules, s: Text, i: nat, a: Json, aRoom: int, b: Json, bRoom: int)
    requires rules != Native && IsJson(rules, a, aRoom) && IsJson(rules, b, bRoom)
    requires At(s, i, Flatten(a)) && Delimited(rules, s, i + |Flatten(a)|)
    requires At(s, i, Flatten(b)) && Delimited(rules, s, i + |Flatten(b)|)
    requires !a.Obj? && !a.Arr? && !b.Obj? && !b.Arr? && (a.Str? <==> b.Str?)
    ensures a == b
  {
    if a.Str? {
      assert ArePieces(Rfc8259, a.pieces) && ArePieces(Rfc8259, b.pieces);
      hide ArePieces, At, StringText;
      LiteralsSame(s, i, a.pieces, b.pieces);
    } else {
      hide At, NumberText, WordText, IsNumber, NumberAt, WordAt;
      ScalarStands(rules, s, i, a, aRoom);
      ScalarStands(rules, s, i, b, bRoom);
    }
  }

  /** A number and a word are found again by the readers. */
  lemma ScalarStands(rules: Rules, s: Text, i: nat, t: Json, room: int)
    requires (t.Num? || t.Lit?) && IsJson(rules, t, room)
    requires At(s, i, Flatten(t)) && Delimited(rules, s, i + |Flatten(t)|)
    ensures i < |s| && (t.Num? <==> s[i] == MINUS || IsDigit(s[i]))
    ensures t.Num? ==> NumberAt(s, i) == Some(Read(t.number, i + |Flatten(t)|))
    ensures t.Lit? ==> WordAt(s, i) == Some(t.word)
  {
    if t.Num? {
      hide At, NumberText, IsNumber, NumberAt;
      NumberComplete(s, i, t.number);
    } else {
      hide At, WordAt;
      WordComplete(s, i, t.word);
    }
  }

  // ----- Members and items -----

  /** White space at one place, ended by something else, is the same. */
  lemma PadsSame(rules: Rules, s: Text, i: nat, x: Text, y: Text)
    requires At(s, i, x) && IsPad(rules, x) && i + |x| < |s| && !IsWhite(s[i + |x|])
    requires At(s, i, y) && IsPad(rules, y) && i + |y| < |s| && !IsWhite(s[i + |y|])
    ensures x == y
  {
    SkipOver(rules, s, i, i, x);
    SkipOver(rules, s, i, i, y);
  }

  lemma {:induction false} MembersSame(rules: Rules, s: Text, i: nat, a: Members, aRoom: int, b: Members, bRoom: int)
    requires rules != Native && AreMembers(rules, a, aRoom) && AreMembers(rules, b, bRoom)
    requires At(s, i, MembersText(a)) && At(s, i, MembersText(b))
    ensures a == b
    decreases a, 0
  {
    hide *;
    MembersBegin(rules, s, i, a, aRoom);
    MembersBegin(rules, s, i, b, bRoom);
    if a.NoMember? {
      EmptyMembersSame(s, i, a, b);
    } else {
      ParsedMember(rules, a, aRoom);
      ParsedMember(rules, b, bRoom);
      var l := HeadsSame(rules, s, i, a, aRoom, b, bRoom);
      var _, _ := StandsParts(rules, s, a, l);
      var _, _ := StandsParts(rules, s, b, l);
      ValuesSame(rules, s, l, a.value, aRoom, b.value, bRoom);
      var t := TrailsSame(rules, s, l, a, aRoom, b, bRoom);
      if a.rest.Member? { MembersSame(rules, s, t + 1, a.rest, aRoom, b.rest, bRoom); }
      MemberIs(a);
      MemberIs(b);
    }
  }

  lemma EmptyMembersSame(s: Text, i: nat, a: Members, b: Members)
    requires a.NoMember? && b.NoMember? && |a.pad| == |b.pad| && At(s, i, MembersText(a)) && At(s, i, MembersText(b))
    ensures a == b
  {
    assert MembersText(a)[..|a.pad|] == a.pad && MembersText(b)[..|b.pad|] == b.pad;
  }

  lemma MemberIs(m: Members)
    ensures m.Member? ==> m == Member(m.pad, m.key, m.gap, m.lead, m.value, m.trail, m.rest)
    ensures m.NoMember? ==> m == NoMember(m.pad)
  {
  }

  /** A member up to its value, and what follows the value. */
  ghost predicate Stands(rules: Rules, s: Text, m: Members, l: nat)
    requires m.Member?
  {
    var e := l + |Flatten(m.value)|;
    && At(s, l, Flatten(m.value)) && Delimited(rules, s, e) && At(s, e, m.trail)
    && At(s, e + |m.trail|, Separator(m.rest.Member?) + MembersText(m.rest))
  }

  lemma HeadsSame(rules: Rules, s: Text, i: nat, a: Members, aRoom: int, b: Members, bRoom: int) returns (l: nat)
    requires rules != Native && a.Member? && b.Member? && AreMembers(rules, a, aRoom) && AreMembers(rules, b, bRoom)
    requires At(s, i, MembersText(a)) && At(s, i, MembersText(b))
    ensures a.pad == b.pad && a.key == b.key && a.gap == b.gap && a.lead == b.lead
    ensures Stands(rules, s, a, l) && Stands(rules, s, b, l)
  {
    hide *;
    var j, k, g;
    j, k, g, l := HeadParts(rules, s, i, a, aRoom);
    var j', k', g', l' := HeadParts(rules, s, i, b, bRoom);
    ParsedMember(rules, a, aRoom);
    ParsedMember(rules, b, bRoom);
    PadsSame(rules, s, i, a.pad, b.pad);
    LiteralsSame(s, j, a.key, b.key);
    PadsSame(rules, s, k, a.gap, b.gap);
    PadsSame(rules, s, g + 1, a.lead, b.lead);
  }

  lemma HeadParts(rules: Rules, s: Text, i: nat, m: Members, room: int) returns (j: nat, k: nat, g: nat, l: nat)
    requires rules != Native && m.Member? && AreMembers(rules, m, room) && At(s, i, MembersText(m))
    ensures j == i + |m.pad| && k == j + |StringText(m.key)| && g == k + |m.gap| && l == g + 1 + |m.lead| < |s|
    ensures At(s, i, m.pad) && At(s, j, StringText(m.key)) && At(s, k, m.gap) && At(s, g + 1, m.lead)
    ensures !IsWhite(s[j]) && !IsWhite(s[g]) && !IsWhite(s[l]) && Stands(rules, s, m, l)
  {
    hide *;
    var e, t;
    ParsedMember(rules, m, room);
    j, k, g, l, e, t := MemberParts(s, i, m);
    LiteralScanned(s, j, m.key);
    AtOne(s, g, COLON);
    ValueBegins(rules, s, l, m.value, room);
    NotWhite();
    TrailComplete(s, e, t, m);
    DelimitedHere(rules, s, e, t, m.trail);
    StandsJoins(rules, s, m, l, e, t);
  }

  lemma StandsJoins(rules: Rules, s: Text, m: Members, l: nat, e: nat, t: nat)
    requires m.Member? && e == l + |Flatten(m.value)| && t == e + |m.trail|
    requires At(s, l, Flatten(m.value)) && Delimited(rules, s, e) && At(s, e, m.trail)
    requires At(s, t, Separator(m.rest.Member?) + MembersText(m.rest))
    ensures Stands(rules, s, m, l)
  {
    hide Flatten, MembersText, Separator, At, Delimited;
  }

  lemma StandsParts(rules: Rules, s: Text, m: Members, l: nat) returns (e: nat, t: nat)
    requires m.Member? && Stands(rules, s, m, l)
    ensures e == l + |Flatten(m.value)| && t == e + |m.trail|
    ensures At(s, l, Flatten(m.value)) && Delimited(rules, s, e) && At(s, e, m.trail)
    ensures At(s, t, Separator(m.rest.Member?) + MembersText(m.rest))
  {
    hide Flatten, MembersText, Separator, At, Delimited;
    e := l + |Flatten(m.value)|;
    t := e + |m.trail|;
  }

  lemma TrailsSame(rules: Rules, s: Text, l: nat, a: Members, aRoom: int, b: Members, bRoom: int) returns (t: nat)
    requires rules != Native && a.Member? && b.Member? && AreMembers(rules, a, aRoom) && AreMembers(rules, b, bRoom)
    requires Stands(rules, s, a, l) && Stands(rules, s, b, l) && a.value == b.value
    ensures a.trail == b.trail && (a.rest.Member? <==> b.rest.Member?)
    ensures a.rest.Member? ==> At(s, t + 1, MembersText(a.rest)) && At(s, t + 1, MembersText(b.rest))
    ensures a.rest.NoMember? ==> a.rest == b.rest
  {
    hide *;
    var e;
    e, t := StandsParts(rules, s, a, l);
    var e', t' := StandsParts(rules, s, b, l);
    ParsedMember(rules, a, aRoom);
    ParsedMember(rules, b, bRoom);
    TrailComplete(s, e, t, a);
    TrailComplete(s, e', t', b);
    NotWhite();
    PadsSame(rules, s, e, a.trail, b.trail);
    MemberIs(a.rest);
    MemberIs(b.rest);
  }

  lemma {:induction false} ItemsSame(rules: Rules, s: Text, i: nat, a: Items, aRoom: int, b: Items, bRoom: int)
    requires rules != Native && AreItems(rules, a, aRoom) && AreItems(rules, b, bRoom)
    requires At(s, i, ItemsText(a)) && At(s, i, ItemsText(b))
    ensures a == b
    decreases a, 0
  {
    hide *;
    ItemsBegin(rules, s, i, a, aRoom);
    ItemsBegin(rules, s, i, b, bRoom);
    if a.NoItem? {
      EmptyItemsSame(s, i, a, b);
    } else {
      ParsedItem(rules, a, aRoom);
      ParsedItem(rules, b, bRoom);
      var l, e, t := ItemStandsHere(rules, s, i, a, aRoom);
      var l', e', t' := ItemStandsHere(rules, s, i, b, bRoom);
      PadsSame(rules, s, i, a.pad, b.pad);
      ValuesSame(rules, s, l, a.value, aRoom, b.value, bRoom);
      PadsSame(rules, s, e, a.trail, b.trail);
      NotWhite();
      if a.rest.Item? { ItemsSame(rules, s, t + 1, a.rest, aRoom, b.rest, bRoom); }
      ItemIs(a);
      ItemIs(b);
      ItemIs(a.rest);
      ItemIs(b.rest);
    }
  }

  lemma EmptyItemsSame(s: Text, i: nat, a: Items, b: Items)
    requires a.NoItem? && b.NoItem? && |a.pad| == |b.pad| && At(s, i, ItemsText(a)) && At(s, i, ItemsText(b))
    ensures a == b
  {
    assert ItemsText(a)[..|a.pad|] == a.pad && ItemsText(b)[..|b.pad|] == b.pad;
  }

  lemma ItemIs(x: Items)
    ensures x.Item? ==> x == Item(x.pad, x.value, x.trail, x.rest)
    ensures x.NoItem? ==> x == NoItem(x.pad)
  {
  }

  lemma ItemStandsHere(rules: Rules, s: Text, i: nat, x: Items, room: int) returns (l: nat, e: nat, t: nat)
    requires rules != Native && x.Item? && AreItems(rules, x, room) && At(s, i, ItemsText(x))
    ensures l == i + |x.pad| && e == l + |Flatten(x.value)| && t == e + |x.trail| && l < |s| && t < |s|
    ensures At(s, i, x.pad) && At(s, l, Flatten(x.value)) && Delimited(rules, s, e) && At(s, e, x.trail)
    ensures !IsWhite(s[l]) && !IsWhite(s[t]) && s[t] == (if x.rest.Item? then COMMA else CLOSE_BRACKET)
    ensures if x.rest.Item? then At(s, t + 1, ItemsText(x.rest)) else x.rest.pad == []
  {
    hide *;
    ParsedItem(rules, x, room);
    l, e, t := ItemParts(s, i, x);
    ValueBegins(rules, s, l, x.value, room);
    ItemTrailComplete(s, e, t, x);
    NotWhite();
    DelimitedHere(rules, s, e, t, x.trail);
  }

  /** A text is at most one document, its tree included; the rooms aside. */
  lemma DocumentsSame(json: Text, a: Document, b: Document)
    requires IsDocument(json, a) && IsDocument(json, b)
    ensures a.tree == b.tree && a.before == b.before && a.after == b.after
  {
    hide *;
    DocumentStands(json, a);
    DocumentStands(json, b);
    DocumentParts(json, a);
    DocumentParts(json, b);
    ValuesSame(Rfc8259, json, |a.before|, a.tree, a.room, b.tree, b.room);
    AtSlice(json, 0, a.before);
    AtSlice(json, 0, b.before);
    AtSlice(json, |a.before| + |Flatten(a.tree)|, a.after);
    AtSlice(json, |a.before| + |Flatten(a.tree)|, b.after);
  }

  // ----- Weaker rules -----

  lemma {:induction false} RfcIsLenient(t: Json, room: int)
    requires IsJson(Rfc8259, t, room)
    ensures IsJson(Lenient, t, room)
    decreases t, 0
  {
    match t {
      case Obj(ms) => MembersAreLenient(ms, room - 1);
      case Arr(xs) => ItemsAreLenient(xs, room - 1);
      case Str(pieces) => PiecesAreLenient(pieces);
      case _ =>
    }
  }

  lemma PiecesAreLenient(ps: seq<Piece>)
    requires ArePieces(Rfc8259, ps)
    ensures ArePieces(Lenient, ps)
  {
  }

  lemma PadIsLenient(pad: Text)
    requires IsPad(Rfc8259, pad)
    ensures IsPad(Lenient, pad)
  {
  }

  lemma {:induction false} MembersAreLenient(ms: Members, room: int)
    requires AreMembers(Rfc8259, ms, room)
    ensures AreMembers(Lenient, ms, room)
    decreases ms, 0
  {
    hide IsPad, ArePieces, IsJson;
    PadIsLenient(ms.pad);
    if ms.Member? {
      PiecesAreLenient(ms.key);
      PadIsLenient(ms.gap);
      PadIsLenient(ms.lead);
      RfcIsLenient(ms.value, room);
      PadIsLenient(ms.trail);
      MembersAreLenient(ms.rest, room);
    }
  }

  lemma {:induction false} ItemsAreLenient(xs: Items, room: int)
    requires AreItems(Rfc8259, xs, room)
    ensures AreItems(Lenient, xs, room)
    decreases xs, 0
  {
    hide IsPad, IsJson;
    PadIsLenient(xs.pad);
    if xs.Item? {
      RfcIsLenient(xs.value, room);
      PadIsLenient(xs.trail);
      ItemsAreLenient(xs.rest, room);
    }
  }

  /** A document that is a lenient tree and nothing around it has this very tree. */
  lemma OnlyDocument(json: Text, u: Json, room: int, d: Document)
    requires IsJson(Lenient, u, room) && json == Flatten(u) && IsDocument(json, d)
    ensures d.tree == u && d.before == [] && d.after == []
  {
    hide *;
    DocumentStands(json, d);
    DocumentParts(json, d);
    RfcIsLenient(d.tree, d.room);
    AtWhole(json, |d.before| + |Flatten(d.tree)|);
    ValueBegins(Lenient, json, 0, u, room);
    NoSkip(json);
    ValuesSame(Lenient, json, 0, u, room, d.tree, d.room);
  }

  lemma AtWhole(json: Text, end: nat)
    ensures At(json, 0, json) && Delimited(Lenient, json, |json|)
    ensures Delimited(Rfc8259, json, end) ==> Delimited(Lenient, json, end)
  {
  }

  lemma NoSkip(json: Text)
    requires json != [] && !IsWhite(json[0])
    ensures Skip(json, 0) == 0
  {
  }
}
