/**
 * Station-ID normalisation: `df["Stations_id"].astype(str).str.zfill(5)`.
 *
 * pandas reads the ID column of the station list as integers, so an ID written
 * "00044" in the file arrives as the number 44; `astype(str)` renders it as
 * "44" and `zfill(5)` pads it back to "00044".
 */
module StationIds {
  import opened StationMetadata

  /** Width every station ID is padded to. */
  const ID_WIDTH: nat := 5

  predicate IsDigit(c: char) { '0' <= c <= '9' }

  predicate AllDigits(s: string) { forall i :: 0 <= i < |s| ==> IsDigit(s[i]) }

  /** A non-empty string of decimal digits: what pandas reads as an integer. */
  predicate IsNumeral(s: string) { |s| > 0 && AllDigits(s) }

  function DigitValue(c: char): (d: nat)
    requires IsDigit(c)
    ensures d < 10
  {
    c as int - '0' as int
  }

  function DigitChar(d: nat): (c: char)
    requires d < 10
    ensures IsDigit(c) && DigitValue(c) == d
  {
    (d + '0' as int) as char
  }

  function Pow10(k: nat): (p: nat)
    ensures p >= 1
  {
    if k == 0 then 1 else 10 * Pow10(k - 1)
  }

  /** The number a digit string denotes, most significant digit first. */
  function NumeralValue(s: string): nat
    requires AllDigits(s)
  {
    if s == [] then 0 else NumeralValue(s[..|s| - 1]) * 10 + DigitValue(s[|s| - 1])
  }

  /** Python's `str(n)` for a non-negative integer: no leading zeros. */
  function DecimalString(n: nat): (r: string)
    ensures IsNumeral(r)
    ensures |r| > 1 ==> r[0] != '0'
  {
    if n < 10 then [DigitChar(n)]
    else
      var r := DecimalString(n / 10) + [DigitChar(n % 10)];
      assert r[0] == DecimalString(n / 10)[0];
      r
  }

  /** `astype(str)` on one ID field: a numeral is rendered back from its integer value. */
  function AsString(field: string): (text: string)
    ensures IsNumeral(field) ==>
      IsNumeral(text) && NumeralValue(text) == NumeralValue(field) && (|text| > 1 ==> text[0] != '0')
    ensures !IsNumeral(field) ==> text == field
  {
    if IsNumeral(field) then
      DecimalValue(NumeralValue(field));
      DecimalString(NumeralValue(field))
    else field
  }

  function Zeros(k: nat): (r: string)
    ensures |r| == k && AllDigits(r)
    ensures forall i :: 0 <= i < k ==> r[i] == '0'
  {
    seq(k, _ => '0')
  }

  predicate HasSign(s: string) { |s| > 0 && (s[0] == '+' || s[0] == '-') }

  /**
   * Python's `str.zfill(width)`: left-pad with '0' up to `width`, inserting the
   * padding after a leading sign; a string already `width` long is returned as is.
   */
  function ZFill(s: string, width: nat): (r: string)
    ensures |r| == if |s| >= width then |s| else width
    ensures |s| >= width ==> r == s
    ensures !HasSign(s) ==>
      r[|r| - |s|..] == s && forall i :: 0 <= i < |r| - |s| ==> r[i] == '0'
    ensures HasSign(s) ==>
      r[0] == s[0] && r[|r| - |s| + 1..] == s[1..] &&
      forall i :: 1 <= i <= |r| - |s| ==> r[i] == '0'
  {
    if |s| >= width then s
    else if HasSign(s) then [s[0]] + Zeros(width - |s|) + s[1..]
    else Zeros(width - |s|) + s
  }

  /** The normalised ID of one station row's ID field. */
  function StationId(field: string): (id: string)
    ensures |id| >= ID_WIDTH
    ensures IsNumeral(field) ==> IsNumeral(id) && NumeralValue(id) == NumeralValue(field)
    ensures IsNumeral(field) && |id| > ID_WIDTH ==> id[0] != '0'
  {
    var text := AsString(field);
    var id := ZFill(text, ID_WIDTH);
    if IsNumeral(field) then
      DecimalValue(NumeralValue(field));
      assert id == Zeros(|id| - |text|) + text;
      ZeroPadValue(|id| - |text|, text);
      id
    else
      id
  }

  /** `get_station_ids_from_metadata`: one ID per row, the i-th from the i-th row. */
  function GetStationIdsFromMetadata(table: seq<Row>): (ids: seq<string>)
    ensures |ids| == |table|
    ensures forall i :: 0 <= i < |ids| ==> ids[i] == StationId(table[i][STATIONS_ID])
    ensures forall i :: 0 <= i < |ids| ==> |ids[i]| >= ID_WIDTH
    ensures forall i :: 0 <= i < |ids| && IsNumeral(table[i][STATIONS_ID]) ==>
      IsNumeral(ids[i]) && NumeralValue(ids[i]) == NumeralValue(table[i][STATIONS_ID])
  {
    seq(|table|, i requires 0 <= i < |table| => StationId(table[i][STATIONS_ID]))
  }

  lemma {:induction false} DecimalValue(n: nat)
    ensures NumeralValue(DecimalString(n)) == n
    decreases n
  {
    if n >= 10 {
      var r := DecimalString(n);
      assert r[..|r| - 1] == DecimalString(n / 10);
      DecimalValue(n / 10);
    }
  }

  /** Leading zeros do not change the value of a digit string. */
  lemma {:induction false} ZeroPadValue(k: nat, s: string)
    requires AllDigits(s)
    ensures AllDigits(Zeros(k) + s) && NumeralValue(Zeros(k) + s) == NumeralValue(s)
    decreases |s|
  {
    var z := Zeros(k) + s;
    if s == [] {
      assert z == Zeros(k);
      ZerosValue(k);
    } else {
      assert z[..|z| - 1] == Zeros(k) + s[..|s| - 1];
      ZeroPadValue(k, s[..|s| - 1]);
    }
  }

  lemma {:induction false} ZerosValue(k: nat)
    ensures NumeralValue(Zeros(k)) == 0
  {
    if k > 0 {
      assert Zeros(k)[..k - 1] == Zeros(k - 1);
      ZerosValue(k - 1);
    }
  }

  lemma {:induction false} NumeralValueBelow(s: string)
    requires AllDigits(s)
    ensures NumeralValue(s) < Pow10(|s|)
    decreases |s|
  {
    if s != [] {
      NumeralValueBelow(s[..|s| - 1]);
    }
  }

  lemma {:induction false} NumeralValueAbove(s: string)
    requires IsNumeral(s) && s[0] != '0'
    ensures NumeralValue(s) >= Pow10(|s| - 1)
    decreases |s|
  {
    if |s| > 1 {
      var p := s[..|s| - 1];
      assert p[0] == s[0];
      NumeralValueAbove(p);
    }
  }

  lemma {:induction false} DecimalLength(n: nat, k: nat)
    requires k >= 1
    ensures n < Pow10(k) ==> |DecimalString(n)| <= k
    ensures Pow10(k - 1) <= n ==> |DecimalString(n)| >= k
    decreases k
  {
    if n >= 10 && k > 1 {
      DecimalLength(n / 10, k - 1);
    }
  }

  /** Two digit strings of the same length and value are the same string. */
  lemma {:induction false} NumeralInjective(a: string, b: string)
    requires AllDigits(a) && AllDigits(b) && |a| == |b|
    requires NumeralValue(a) == NumeralValue(b)
    ensures a == b
    decreases |a|
  {
    if a != [] {
      var n := |a| - 1;
      assert DigitValue(a[n]) == NumeralValue(a) % 10 == DigitValue(b[n]);
      NumeralInjective(a[..n], b[..n]);
      assert a == a[..n] + [a[n]] && b == b[..n] + [b[n]];
    }
  }

  /**
   * An ID written with at most five digits comes out as exactly five digits:
   * the same digits, left-padded with '0' (so "00044" and "44" both give "00044").
   */
  lemma ShortIdPadded(field: string)
    requires IsNumeral(field) && |field| <= ID_WIDTH
    ensures StationId(field) == Zeros(ID_WIDTH - |field|) + field
  {
    var v := NumeralValue(field);
    NumeralValueBelow(field);
    DecimalLength(v, |field|);
    ZeroPadValue(ID_WIDTH - |field|, field);
    NumeralInjective(StationId(field), Zeros(ID_WIDTH - |field|) + field);
  }

  /**
   * An ID without leading zeros that already has five or more digits is returned
   * unchanged: padding only, never truncation ("123456" stays "123456").
   */
  lemma LongIdUnchanged(field: string)
    requires IsNumeral(field) && |field| >= ID_WIDTH && field[0] != '0'
    ensures StationId(field) == field
  {
    var v := NumeralValue(field);
    NumeralValueBelow(field);
    NumeralValueAbove(field);
    DecimalLength(v, |field|);
    DecimalValue(v);
    NumeralInjective(DecimalString(v), field);
  }
}
