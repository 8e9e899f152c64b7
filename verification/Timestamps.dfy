/** IsRfc3339Timestamp of native/selection-host/src/core/envelope.cpp (section 5.6 of RFC 3339). */
module Timestamps {
  import opened Basics
  import opened JsonGrammar

  const DAYS := [31, 28, 31, 30, 31, 30, 31, 31, 30, 31, 30, 31]

  /** The number of count digits at index; -1 when one of them is missing. */
  function Field(value: Text, index: nat, count: nat): (r: int)
    ensures r >= -1
  {
    if count == 0 then 0
    else
      var before := Field(value, index, count - 1);
      var at := index + count - 1;
      if before < 0 || at >= |value| || !IsDigit(value[at]) then -1 else before * 10 + (value[at] - 0x30)
  }

  predicate IsLeap(year: int) {
    year % 4 == 0 && (year % 100 != 0 || year % 400 == 0)
  }

  predicate IsDateTime(value: Text)
    requires |value| >= 20
  {
    var year, month, day := Field(value, 0, 4), Field(value, 5, 2), Field(value, 8, 2);
    && year >= 1 && 1 <= month <= 12
    && 0 <= Field(value, 11, 2) <= 23 && 0 <= Field(value, 14, 2) <= 59 && 0 <= Field(value, 17, 2) <= 59
    && 1 <= day <= (if month == 2 && IsLeap(year) then 29 else DAYS[month - 1])
  }

  function DigitsEnd(value: Text, i: nat): (r: nat)
    ensures i <= r && (i <= |value| ==> r <= |value|)
    decreases |value| - i
  {
    if i < |value| && IsDigit(value[i]) then DigitsEnd(value, i + 1) else i
  }

  predicate IsOffset(value: Text, cursor: nat) {
    cursor < |value| &&
    if value[cursor] == 0x5A then cursor + 1 == |value|
    else
      && (value[cursor] == 0x2B || value[cursor] == MINUS)
      && cursor + 6 == |value| && value[cursor + 3] == COLON
      && 0 <= Field(value, cursor + 1, 2) <= 23 && 0 <= Field(value, cursor + 4, 2) <= 59
  }

  predicate IsTimestamp(value: Text) {
    && 20 <= |value| <= 64
    && value[4] == MINUS && value[7] == MINUS && value[10] == 0x54 && value[13] == COLON && value[16] == COLON
    && IsDateTime(value)
    && if value[19] == POINT then DigitsEnd(value, 20) > 20 && IsOffset(value, DigitsEnd(value, 20))
       else IsOffset(value, 19)
  }

  method Number(value: Text, index: nat, count: nat) returns (result: int)
    ensures result == Field(value, index, count)
  {
    result := 0;
    for offset := 0 to count
      invariant result >= 0 && result == Field(value, index, offset)
    {
      if index + offset >= |value| || !IsDigit(value[index + offset]) {
        FieldFails(value, index, offset + 1, count);
        return -1;
      }
      result := result * 10 + (value[index + offset] - 0x30);
    }
  }

  lemma {:induction false} FieldFails(value: Text, index: nat, few: nat, count: nat)
    requires few <= count && Field(value, index, few) == -1
    ensures Field(value, index, count) == -1
    decreases count
  {
    if few < count { FieldFails(value, index, few, count - 1); }
  }

  method IsRfc3339Timestamp(value: Text) returns (valid: bool)
    ensures valid == IsTimestamp(value)
  {
    hide Field;
    if |value| < 20 || |value| > 64 || value[4] != MINUS || value[7] != MINUS ||
       value[10] != 0x54 || value[13] != COLON || value[16] != COLON { return false; }
    var year := Number(value, 0, 4);
    var month := Number(value, 5, 2);
    var day := Number(value, 8, 2);
    var hour := Number(value, 11, 2);
    var minute := Number(value, 14, 2);
    var second := Number(value, 17, 2);
    if year <= 0 || month < 1 || month > 12 || hour < 0 || hour > 23 || minute < 0 || minute > 59 || second < 0
      || second > 59 {
      return false;
    }
    var maximumDay := if month == 2 && IsLeap(year) then 29 else DAYS[month - 1];
    if day < 1 || day > maximumDay { return false; }
    assert IsDateTime(value);
    hide IsDateTime;
    var cursor := 19;
    if value[cursor] == POINT {
      cursor := cursor + 1;
      var fractionStart := cursor;
      while cursor < |value| && IsDigit(value[cursor])
        invariant DigitsEnd(value, cursor) == DigitsEnd(value, 20)
      {
        cursor := cursor + 1;
      }
      if cursor == fractionStart { return false; }
    }
    if cursor >= |value| { return false; }
    if value[cursor] == 0x5A { return cursor + 1 == |value|; }
    if value[cursor] != 0x2B && value[cursor] != MINUS { return false; }
    if cursor + 6 != |value| || value[cursor + 3] != COLON { return false; }
    var offsetHour := Number(value, cursor + 1, 2);
    var offsetMinute := Number(value, cursor + 4, 2);
    return 0 <= offsetHour <= 23 && 0 <= offsetMinute <= 59;
  }

  lemma {:induction false} FieldIsAscii(value: Text, index: nat, count: nat)
    requires Field(value, index, count) >= 0
    ensures index + count <= |value| || count == 0
    ensures forall k | index <= k < index + count :: k < |value| && IsDigit(value[k])
  {
    if count > 0 { FieldIsAscii(value, index, count - 1); }
  }

  lemma {:induction false} DigitsAreAscii(value: Text, i: nat)
    requires i <= |value|
    ensures forall k | i <= k < DigitsEnd(value, i) :: IsDigit(value[k])
    decreases |value| - i
  {
    if i < |value| && IsDigit(value[i]) { DigitsAreAscii(value, i + 1); }
  }

  /** A timestamp holds nothing but ASCII. */
  lemma TimestampIsAscii(value: Text)
    requires IsTimestamp(value)
    ensures forall k | 0 <= k < |value| :: 0 <= value[k] < 0x80
  {
    hide Field, DigitsEnd;
    DateIsAscii(value);
    var cursor := if value[19] == POINT then DigitsEnd(value, 20) else 19;
    DigitsAreAscii(value, 20);
    OffsetIsAscii(value, cursor);
  }

  lemma DateIsAscii(value: Text)
    requires IsTimestamp(value)
    ensures forall k | 0 <= k < 19 :: 0 <= value[k] < 0x80
  {
    hide Field, DigitsEnd, IsOffset;
    FieldIsAscii(value, 0, 4);
    FieldIsAscii(value, 5, 2);
    FieldIsAscii(value, 8, 2);
    FieldIsAscii(value, 11, 2);
    FieldIsAscii(value, 14, 2);
    FieldIsAscii(value, 17, 2);
  }

  lemma OffsetIsAscii(value: Text, cursor: nat)
    requires IsOffset(value, cursor)
    ensures forall k | cursor <= k < |value| :: 0 <= value[k] < 0x80
  {
    hide Field;
    if value[cursor] != 0x5A {
      FieldIsAscii(value, cursor + 1, 2);
      FieldIsAscii(value, cursor + 4, 2);
    }
  }

  // ----- The language of timestamps (section 5.6 of RFC 3339) -----

  datatype Offset = Zulu | Numeric(behind: bool, hour: nat, minute: nat)

  /** No leap seconds, and no fraction when it is empty. */
  datatype Moment = Moment(
    year: nat, month: nat, day: nat, hour: nat, minute: nat, second: nat, fraction: Text, offset: Offset)

  function DaysIn(year: nat, month: nat): nat
    requires 1 <= month <= 12
  {
    if month == 2 && IsLeap(year) then 29 else DAYS[month - 1]
  }

  /** The days of some years that start in March: the leap day is the last of its year. */
  function YearDays(years: nat): nat {
    365 * years + years / 4 - years / 100 + years / 400
  }

  /** The number of the first day of a month in the Gregorian calendar, by years and months from March. */
  function FirstDay(year: nat, month: nat): nat
    requires year >= 1 && 1 <= month <= 12
  {
    if month <= 2 then YearDays(year - 1) + (153 * (month + 9) + 2) / 5
      else YearDays(year) + (153 * (month - 3) + 2) / 5
  }

  lemma LeapDays(year: nat)
    requires year >= 1
    ensures YearDays(year) == YearDays(year - 1) + if IsLeap(year) then 366 else 365
  {
    Counted(year, 4);
    Counted(year, 100);
    Counted(year, 400);
    Divided(year, 25, 4, 100);
    Divided(year, 4, 100, 400);
  }

  lemma Counted(year: nat, n: nat)
    requires year >= 1 && n > 0
    ensures year / n == (year - 1) / n + if year % n == 0 then 1 else 0
  {
    var q, r := (year - 1) / n, (year - 1) % n;
    assert year - 1 == q * n + r;
    if r + 1 < n {
      Quotient(year, n, q, r + 1);
    } else {
      assert (q + 1) * n == q * n + n;
      Quotient(year, n, q + 1, 0);
    }
  }

  lemma Divided(year: nat, k: nat, n: nat, m: nat)
    requires n > 0 && m == k * n && m > 0
    ensures year % m == 0 ==> year % n == 0
  {
    if year % m == 0 {
      var q := year / m;
      assert year == q * m;
      assert q * m == q * k * n;
      Quotient(year, n, q * k, 0);
    }
  }

  lemma Quotient(a: nat, n: nat, q: nat, r: nat)
    requires r < n && a == q * n + r
    ensures a / n == q && a % n == r
  {
    var p := a / n;
    assert a == p * n + a % n;
    assert (p - q) * n == p * n - q * n;
    Apart(p - q, n, r, a % n);
  }

  lemma Apart(k: int, n: nat, r: nat, t: nat)
    requires r < n && t < n && k * n == r - t
    ensures k == 0
  {
    if k >= 1 { Least(k, n); }
  }

  lemma Least(k: nat, n: nat)
    requires k >= 1
    ensures k * n >= n
  {
  }

  /** Each month is as long as it is to the first day of the next. */
  lemma MonthsAddUp(year: nat, month: nat)
    requires year >= 1 && 1 <= month <= 12
    ensures DaysIn(year, month)
         == (if month == 12 then FirstDay(year + 1, 1) else FirstDay(year, month + 1)) - FirstDay(year, month)
  {
    LeapDays(year);
    hide YearDays, IsLeap;
  }

  predicate IsMoment(m: Moment) {
    && 1 <= m.year <= 9999 && 1 <= m.month <= 12 && 1 <= m.day <= DaysIn(m.year, m.month)
    && m.hour <= 23 && m.minute <= 59 && m.second <= 59 && AreDigits(m.fraction)
    && (m.offset.Numeric? ==> m.offset.hour <= 23 && m.offset.minute <= 59)
  }

  /** The last count decimal digits of n. */
  function Digits(n: nat, count: nat): (r: Text)
    ensures |r| == count
  {
    if count == 0 then [] else Digits(n / 10, count - 1) + [0x30 + n % 10]
  }

  function Power(count: nat): nat {
    if count == 0 then 1 else 10 * Power(count - 1)
  }

  function OffsetText(o: Offset): Text {
    match o
    case Zulu => [0x5A]
    case Numeric(behind, hour, minute) =>
      [if behind then MINUS else 0x2B] + (Digits(hour, 2) + ([COLON] + Digits(minute, 2)))
  }

  function ClockText(m: Moment): Text {
    Digits(m.hour, 2) + ([COLON] + (Digits(m.minute, 2) + ([COLON] +
      (Digits(m.second, 2) + (FractionText(m.fraction) + OffsetText(m.offset))))))
  }

  function Render(m: Moment): Text {
    Digits(m.year, 4) + ([MINUS] + (Digits(m.month, 2) + ([MINUS] + (Digits(m.day, 2) + ([0x54] + ClockText(m))))))
  }

  lemma {:induction false} FieldReads(value: Text, i: nat, n: nat, count: nat)
    requires At(value, i, Digits(n, count)) && n < Power(count)
    ensures Field(value, i, count) == n
    decreases count
  {
    if count > 0 {
      AtConcat(value, i, Digits(n / 10, count - 1), [0x30 + n % 10]);
      AtOne(value, i + count - 1, 0x30 + n % 10);
      FieldReads(value, i, n / 10, count - 1);
    }
  }

  lemma {:induction false} FieldSpells(value: Text, i: nat, count: nat)
    requires Field(value, i, count) >= 0 && i <= |value|
    ensures At(value, i, Digits(Field(value, i, count), count)) && Field(value, i, count) < Power(count)
    decreases count
  {
    if count > 0 {
      FieldSpells(value, i, count - 1);
      var before, digit := Field(value, i, count - 1), value[i + count - 1] - 0x30;
      TenTimes(before, digit);
      AtOne(value, i + count - 1, 0x30 + digit);
      AtConcat(value, i, Digits(before, count - 1), [0x30 + digit]);
    }
  }

  lemma TenTimes(a: nat, d: int)
    requires 0 <= d < 10
    ensures (a * 10 + d) / 10 == a && (a * 10 + d) % 10 == d
  {
  }

  lemma Powers()
    ensures Power(2) == 100 && Power(4) == 10000
  {
    assert Power(0) == 1 && Power(1) == 10 && Power(3) == 1000;
  }

  /** A moment stands in a text exactly when its parts stand one after the other. */
  lemma RenderParts(value: Text, m: Moment)
    ensures At(value, 0, Render(m)) <==>
            && At(value, 0, Digits(m.year, 4)) && At(value, 4, [MINUS]) && At(value, 5, Digits(m.month, 2))
            && At(value, 7, [MINUS])
            && At(value, 8, Digits(m.day, 2)) && At(value, 10, [0x54]) && At(value, 11, ClockText(m))
    ensures |Render(m)| == 11 + |ClockText(m)|
  {
    hide At, Digits, ClockText;
    var t5 := [0x54] + ClockText(m);
    var t4 := Digits(m.day, 2) + t5;
    var t3 := [MINUS] + t4;
    var t2 := Digits(m.month, 2) + t3;
    AtConcat(value, 10, [0x54], ClockText(m));
    AtConcat(value, 8, Digits(m.day, 2), t5);
    AtConcat(value, 7, [MINUS], t4);
    AtConcat(value, 5, Digits(m.month, 2), t3);
    AtConcat(value, 4, [MINUS], t2);
    AtConcat(value, 0, Digits(m.year, 4), [MINUS] + t2);
  }

  lemma ClockParts(value: Text, m: Moment)
    ensures At(value, 11, ClockText(m)) <==>
            && At(value, 11, Digits(m.hour, 2)) && At(value, 13, [COLON]) && At(value, 14, Digits(m.minute, 2))
            && At(value, 16, [COLON])
            && At(value, 17, Digits(m.second, 2)) && At(value, 19, FractionText(m.fraction))
            && At(value, 19 + |FractionText(m.fraction)|, OffsetText(m.offset))
    ensures |ClockText(m)| == 8 + |FractionText(m.fraction)| + |OffsetText(m.offset)|
  {
    hide At, Digits, FractionText, OffsetText;
    var last := FractionText(m.fraction) + OffsetText(m.offset);
    var t3 := Digits(m.second, 2) + last;
    var t2 := [COLON] + t3;
    var t1 := Digits(m.minute, 2) + t2;
    AtConcat(value, 19, FractionText(m.fraction), OffsetText(m.offset));
    AtConcat(value, 17, Digits(m.second, 2), last);
    AtConcat(value, 16, [COLON], t3);
    AtConcat(value, 14, Digits(m.minute, 2), t2);
    AtConcat(value, 13, [COLON], t1);
    AtConcat(value, 11, Digits(m.hour, 2), [COLON] + t1);
  }

  lemma OffsetParts(value: Text, i: nat, o: Offset)
    requires o.Numeric?
    ensures At(value, i, OffsetText(o)) <==>
            && At(value, i, [if o.behind then MINUS else 0x2B]) && At(value, i + 1, Digits(o.hour, 2))
            && At(value, i + 3, [COLON])
            && At(value, i + 4, Digits(o.minute, 2))
    ensures |OffsetText(o)| == 6
  {
    hide At, Digits;
    AtConcat(value, i + 3, [COLON], Digits(o.minute, 2));
    AtConcat(value, i + 1, Digits(o.hour, 2), [COLON] + Digits(o.minute, 2));
    AtConcat(value, i, [if o.behind then MINUS else 0x2B], Digits(o.hour, 2) + ([COLON] + Digits(o.minute, 2)));
  }

  lemma OffsetAccepted(value: Text, i: nat, o: Offset)
    requires At(value, i, OffsetText(o)) && i + |OffsetText(o)| == |value|
    requires o.Numeric? ==> o.hour <= 23 && o.minute <= 59
    ensures IsOffset(value, i) && !IsDigit(value[i])
  {
    Powers();
    if o.Zulu? {
      AtOne(value, i, 0x5A);
    } else {
      OffsetParts(value, i, o);
      hide At, Digits, Field, OffsetText, Power;
      AtOne(value, i, if o.behind then MINUS else 0x2B);
      AtOne(value, i + 3, COLON);
      FieldReads(value, i + 1, o.hour, 2);
      FieldReads(value, i + 4, o.minute, 2);
    }
  }

  lemma OffsetSpelled(value: Text, i: nat) returns (o: Offset)
    requires IsOffset(value, i)
    ensures At(value, i, OffsetText(o)) && i + |OffsetText(o)| == |value|
    ensures o.Numeric? ==> o.hour <= 23 && o.minute <= 59
  {
    if value[i] == 0x5A {
      o := Zulu;
      AtOne(value, i, 0x5A);
    } else {
      o := Numeric(value[i] == MINUS, Field(value, i + 1, 2), Field(value, i + 4, 2));
      OffsetParts(value, i, o);
      hide At, Digits, Field, OffsetText, Power;
      AtOne(value, i, value[i]);
      AtOne(value, i + 3, COLON);
      FieldSpells(value, i + 1, 2);
      FieldSpells(value, i + 4, 2);
    }
  }

  lemma {:induction false} DigitsEndIs(value: Text, i: nat, digits: Text)
    requires At(value, i, digits) && AreDigits(digits) && i + |digits| < |value| && !IsDigit(value[i + |digits|])
    ensures DigitsEnd(value, i) == i + |digits|
    decreases |digits|
  {
    if digits != [] {
      assert value[i] == digits[0] && [digits[0]] + digits[1..] == digits;
      AtConcat(value, i, [digits[0]], digits[1..]);
      DigitsEndIs(value, i + 1, digits[1..]);
    }
  }

  lemma ClockAccepted(value: Text, m: Moment)
    requires At(value, 11, ClockText(m)) && 11 + |ClockText(m)| == |value| && IsMoment(m)
    ensures 20 <= |value| && value[13] == COLON && value[16] == COLON
    ensures Field(value, 11, 2) == m.hour && Field(value, 14, 2) == m.minute && Field(value, 17, 2) == m.second
    ensures if value[19] == POINT then DigitsEnd(value, 20) > 20 && IsOffset(value, DigitsEnd(value, 20))
            else IsOffset(value, 19)
  {
    ClockParts(value, m);
    Powers();
    hide At, Digits, Field, Power, ClockText, OffsetText, IsOffset, DigitsEnd;
    AtOne(value, 13, COLON);
    AtOne(value, 16, COLON);
    FieldReads(value, 11, m.hour, 2);
    FieldReads(value, 14, m.minute, 2);
    FieldReads(value, 17, m.second, 2);
    var i := 19 + |FractionText(m.fraction)|;
    OffsetAccepted(value, i, m.offset);
    OffsetStarts(value, i);
    if m.fraction != [] {
      AtConcat(value, 19, [POINT], m.fraction);
      AtOne(value, 19, POINT);
      DigitsEndIs(value, 20, m.fraction);
    }
  }

  lemma OffsetStarts(value: Text, i: nat)
    requires IsOffset(value, i)
    ensures i < |value| && value[i] != POINT
  {
  }

  /** Every moment, written out, is accepted unless it is too long. */
  lemma MomentIsTimestamp(m: Moment)
    requires IsMoment(m) && |Render(m)| <= 64
    ensures IsTimestamp(Render(m))
  {
    var value := Render(m);
    assert value[0..|value|] == value;
    RenderParts(value, m);
    Powers();
    hide At, Digits, Field, Power, ClockText, Render, IsOffset, DigitsEnd;
    AtOne(value, 4, MINUS);
    AtOne(value, 7, MINUS);
    AtOne(value, 10, 0x54);
    FieldReads(value, 0, m.year, 4);
    FieldReads(value, 5, m.month, 2);
    FieldReads(value, 8, m.day, 2);
    ClockAccepted(value, m);
  }

  lemma FractionSpelled(value: Text) returns (fraction: Text, i: nat)
    requires 20 <= |value|
    requires if value[19] == POINT then DigitsEnd(value, 20) > 20 && IsOffset(value, DigitsEnd(value, 20))
             else IsOffset(value, 19)
    ensures AreDigits(fraction) && At(value, 19, FractionText(fraction)) && i == 19 + |FractionText(fraction)|
            && IsOffset(value, i)
  {
    if value[19] == POINT {
      i := DigitsEnd(value, 20);
      fraction := value[20..i];
      DigitsAreAscii(value, 20);
      AtOne(value, 19, POINT);
      AtConcat(value, 19, [POINT], fraction);
    } else {
      fraction, i := [], 19;
    }
  }

  /** Whatever is accepted is a moment written out. */
  lemma TimestampIsMoment(value: Text) returns (m: Moment)
    requires IsTimestamp(value)
    ensures IsMoment(m) && value == Render(m)
  {
    hide At, Digits, Field, Power, IsOffset, DigitsEnd, Render, ClockText, OffsetText, FractionText;
    Powers();
    var fraction, i := FractionSpelled(value);
    var offset := OffsetSpelled(value, i);
    m := Moment(Field(value, 0, 4), Field(value, 5, 2), Field(value, 8, 2), Field(value, 11, 2), Field(value, 14, 2),
                Field(value, 17, 2), fraction, offset);
    FieldSpells(value, 0, 4);
    FieldSpells(value, 5, 2);
    FieldSpells(value, 8, 2);
    FieldSpells(value, 11, 2);
    FieldSpells(value, 14, 2);
    FieldSpells(value, 17, 2);
    AtOne(value, 4, MINUS);
    AtOne(value, 7, MINUS);
    AtOne(value, 10, 0x54);
    AtOne(value, 13, COLON);
    AtOne(value, 16, COLON);
    ClockParts(value, m);
    RenderParts(value, m);
    AtWhole(value, Render(m));
  }

  lemma AtWhole(value: Text, x: Text)
    requires At(value, 0, x) && |x| == |value|
    ensures value == x
  {
    assert value[0..|value|] == value;
  }

  /** The accepted timestamps are exactly the moments written out in at most 64 characters. */
  lemma TimestampsAreMoments(value: Text)
    ensures IsTimestamp(value) <==> |value| <= 64 && exists m :: IsMoment(m) && value == Render(m)
  {
    hide Render, IsMoment;
    if IsTimestamp(value) {
      var m := TimestampIsMoment(value);
    }
    forall m | IsMoment(m) && value == Render(m) && |value| <= 64 ensures IsTimestamp(value) { MomentIsTimestamp(m); }
  }
}
