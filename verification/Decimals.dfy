/** std::to_string and std::from_chars on the integers an envelope carries. */
module Decimals {
  import opened Basics
  import opened JsonGrammar

  function DigitsValue(d: Text): nat
    requires AreDigits(d)
  {
    if d == [] then 0 else DigitsValue(d[..|d| - 1]) * 10 + (d[|d| - 1] - 0x30)
  }

  function Decimal(n: nat): (r: Text)
    ensures AreDigits(r) && |r| >= 1
  {
    if n < 10 then [0x30 + n] else Decimal(n / 10) + [0x30 + n % 10]
  }

  function SignedDecimal(n: int): Text {
    if n < 0 then [MINUS] + Decimal(-n) else Decimal(n)
  }

  /** from_chars on an unsigned type: digits only, to the end, within range. */
  function ParseUnsigned(raw: Text, max: nat): Option<nat> {
    if raw != [] && AreDigits(raw) && DigitsValue(raw) <= max then Some(DigitsValue(raw)) else None
  }

  /** from_chars on a signed type of the range -(max + 1)..max. */
  function ParseSigned(raw: Text, max: nat): Option<int> {
    if raw != [] && raw[0] == MINUS then
      var m := ParseUnsigned(raw[1..], max + 1);
      if m.None? then None
      else
        var v: int := m.value;
        Some(-v)
    else
      var m := ParseUnsigned(raw, max);
      if m.None? then None else Some(m.value)
  }

  lemma {:induction false} DecimalReadsBack(n: nat)
    ensures DigitsValue(Decimal(n)) == n && IsWhole(Decimal(n)) && (Decimal(n)[0] == 0x30 ==> n == 0)
  {
    if n < 10 {
      assert [0x30 + n][..0] == [];
    } else {
      DecimalReadsBack(n / 10);
      var d := Decimal(n);
      assert d[..|d| - 1] == Decimal(n / 10);
    }
  }

  function DecimalJson(n: nat): Json {
    Num(Number(false, Decimal(n), [], Scale([], [])))
  }

  lemma DecimalIsJson(rules: Rules, n: nat, room: nat)
    ensures IsJson(rules, DecimalJson(n), room) && Flatten(DecimalJson(n)) == Decimal(n)
  {
    DecimalReadsBack(n);
  }
}
