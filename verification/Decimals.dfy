/** Decimal numerals as the bencode reader checks them and the writer prints them. */
module Decimals {
  import opened Common

  const ZERO: byte := 48
  const MINUS: byte := 45
  const PLUS: byte := 43

  predicate IsDigit(b: byte) {
    ZERO <= b <= ZERO + 9
  }

  predicate AllDigits(ds: seq<byte>) {
    forall i | 0 <= i < |ds| :: IsDigit(ds[i])
  }

  /** The numeral of a natural number. */
  function Digits(n: nat): (ds: seq<byte>)
    ensures |ds| > 0 && AllDigits(ds)
  {
    if n < 10 then [ZERO + n] else Digits(n / 10) + [ZERO + n % 10]
  }

  /** The numeral of an integer. */
  function Numeral(i: int): seq<byte> {
    if i < 0 then [MINUS] + Digits(-i) else Digits(i)
  }

  /** The number some digits stand for. */
  function Number(ds: seq<byte>): nat
    requires AllDigits(ds)
  {
    if ds == [] then 0 else Number(ds[..|ds| - 1]) * 10 + (ds[|ds| - 1] - ZERO)
  }

  /** What the library makes of a numeral: a sign is allowed, and any number of digits. */
  function ParseDecimal(b: seq<byte>): Option<int> {
    var signed := b != [] && (b[0] == MINUS || b[0] == PLUS);
    var ds := if signed then b[1..] else b;
    if ds == [] || !AllDigits(ds) then None
    else
      var n: int := Number(ds);
      Some(if signed && b[0] == MINUS then -n else n)
  }

  /** The reader's check of the first digit. */
  predicate Checked(b: seq<byte>) {
    if |b| <= 1 then true
    else
      var c := if b[0] == MINUS then b[1] else b[0];
      ZERO + 1 <= c <= ZERO + 9
  }

  /** The number of a numeral that passes the check. */
  function ParseChecked(b: seq<byte>): Option<int> {
    if Checked(b) then ParseDecimal(b) else None
  }

  lemma {:induction false} NumberDigits(n: nat)
    ensures Number(Digits(n)) == n
  {
    var ds := Digits(n);
    if n >= 10 {
      NumberDigits(n / 10);
      assert ds[..|ds| - 1] == Digits(n / 10);
    } else {
      assert ds[..0] == [];
    }
  }

  /** Only a number below ten has a numeral of one digit, and only zero one that starts with zero. */
  lemma {:induction false} DigitsShape(n: nat)
    ensures |Digits(n)| == 1 <==> n < 10
    ensures Digits(n)[0] == ZERO <==> n == 0
  {
    if n < 10 {
    } else {
      DigitsShape(n / 10);
    }
  }

  /** Digits without a leading zero are the numeral of their number. */
  lemma {:induction false} DigitsNumber(ds: seq<byte>)
    requires ds != [] && AllDigits(ds) && (|ds| > 1 ==> ds[0] != ZERO)
    ensures Digits(Number(ds)) == ds
    ensures |ds| > 1 ==> Number(ds) >= 10
    ensures ds[0] != ZERO ==> Number(ds) > 0
  {
    var n := |ds| - 1;
    if n > 0 {
      assert ds[..n][0] == ds[0];
      DigitsNumber(ds[..n]);
      assert Number(ds) == Number(ds[..n]) * 10 + (ds[n] - ZERO);
      assert ds[..n] + [ds[n]] == ds;
    } else {
      assert ds[..0] == [] && ds == [ds[0]];
    }
  }

  /** Numerals are canonical: exactly the printed ones are accepted, as the number they print. */
  lemma NumeralsAreCanonical(b: seq<byte>, i: int)
    ensures ParseChecked(b) == Some(i) <==> b == Numeral(i)
  {
    if b == Numeral(i) {
      NumeralParses(i);
    } else if ParseChecked(b) == Some(i) {
      ParsedIsNumeral(b, i);
    }
  }

  lemma NumeralParses(i: int)
    ensures ParseChecked(Numeral(i)) == Some(i)
  {
    var n := if i < 0 then -i else i;
    var ds := Digits(n);
    NumberDigits(n);
    DigitsShape(n);
    if i < 0 {
      assert ([MINUS] + ds)[1..] == ds;
    }
  }

  lemma ParsedIsNumeral(b: seq<byte>, i: int)
    requires ParseChecked(b) == Some(i)
    ensures b == Numeral(i)
  {
    if b[0] == MINUS {
      assert b == [MINUS] + b[1..];
      DigitsNumber(b[1..]);
    } else if b[0] != PLUS {
      DigitsNumber(b);
    }
  }
}
