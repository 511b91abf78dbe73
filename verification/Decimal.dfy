/** Decimal numerals, as printf writes them and as StringUtils_ConvertStringToUl reads them. */
module Decimal {
  import opened Wrappers

  type Word = x: int | 0 <= x < 0x1_0000_0000

  predicate IsDigit(c: char) {
    '0' <= c <= '9'
  }

  function DigitValue(c: char): (d: nat)
    requires IsDigit(c)
    ensures d < 10
  {
    c as int - '0' as int
  }

  function Digit(d: nat): (c: char)
    requires d < 10
    ensures IsDigit(c) && DigitValue(c) == d
  {
    ('0' as int + d) as char
  }

  function Print(n: nat): (s: string)
    ensures |s| > 0 && forall k :: 0 <= k < |s| ==> IsDigit(s[k])
  {
    if n < 10 then [Digit(n)] else Print(n / 10) + [Digit(n % 10)]
  }

  /** The value of a string of digits. */
  function Value(s: string): nat
    requires forall k :: 0 <= k < |s| ==> IsDigit(s[k])
  {
    if s == [] then 0 else 10 * Value(s[..|s| - 1]) + DigitValue(s[|s| - 1])
  }

  lemma {:induction false} ValueOfPrint(n: nat)
    ensures Value(Print(n)) == n
  {
    if n >= 10 {
      ValueOfPrint(n / 10);
      assert Print(n)[..|Print(n)| - 1] == Print(n / 10);
    }
  }

  function Pow10(k: nat): (p: nat)
    ensures p > 0
  {
    if k == 0 then 1 else 10 * Pow10(k - 1)
  }

  lemma {:induction false} PrintLength(n: nat, k: nat)
    requires k > 0 && n < Pow10(k)
    ensures |Print(n)| <= k
  {
    if n >= 10 {
      assert k > 1;
      PrintLength(n / 10, k - 1);
    }
  }

  /** Digit by digit from the left in 32 bits; the first character that is no digit ends the number,
      except that a string must not start with one. The empty string is zero. */
  function ReadFrom(s: string, acc: Word): Word {
    if s == [] || !IsDigit(s[0]) then acc
    else ReadFrom(s[1..], (acc * 10 + DigitValue(s[0])) % 0x1_0000_0000)
  }

  function Read(s: string): Option<Word> {
    if s != [] && !IsDigit(s[0]) && s[0] != '\0' then None else Some(ReadFrom(s, 0))
  }

  lemma ValueSnoc(s: string, c: char)
    requires (forall k :: 0 <= k < |s| ==> IsDigit(s[k])) && IsDigit(c)
    ensures (forall k :: 0 <= k < |s + [c]| ==> IsDigit((s + [c])[k]))
            && Value(s + [c]) == 10 * Value(s) + DigitValue(c)
  {
    assert (s + [c])[..|s|] == s;
  }

  /** The digits read so far and the rest together are read as their value. */
  lemma {:induction false} ReadFromShifts(s: string, before: string, acc: Word)
    requires forall k :: 0 <= k < |s| ==> IsDigit(s[k])
    requires forall k :: 0 <= k < |before| ==> IsDigit(before[k])
    requires acc == Value(before) % 0x1_0000_0000
    ensures (forall k :: 0 <= k < |before + s| ==> IsDigit((before + s)[k])) &&
            ReadFrom(s, acc) == Value(before + s) % 0x1_0000_0000
    decreases |s|
  {
    hide Value, DigitValue;
    if s == [] {
      assert before + s == before;
    } else {
      var d := DigitValue(s[0]);
      ValueSnoc(before, s[0]);
      Carry(Value(before), d, acc);
      ReadFromShifts(s[1..], before + [s[0]], (acc * 10 + d) % 0x1_0000_0000);
      assert before + [s[0]] + s[1..] == before + s;
    }
  }

  lemma Carry(v: nat, d: nat, r: nat)
    requires r == v % 0x1_0000_0000
    ensures (r * 10 + d) % 0x1_0000_0000 == (10 * v + d) % 0x1_0000_0000
  {
    var q := v / 0x1_0000_0000;
    assert 10 * v + d == 0x1_0000_0000 * (10 * q) + (10 * r + d);
  }

  /** A string of digits is read as its value modulo 2^32. */
  lemma ReadIsValue(s: string)
    requires forall k :: 0 <= k < |s| ==> IsDigit(s[k])
    ensures Read(s) == Some(Value(s) % 0x1_0000_0000)
  {
    ReadFromShifts(s, [], 0);
    assert [] + s == s;
  }

  lemma {:induction false} ReadFromStops(s: string, rest: string, acc: Word)
    requires forall k :: 0 <= k < |s| ==> IsDigit(s[k])
    requires rest == [] || !IsDigit(rest[0])
    ensures ReadFrom(s + rest, acc) == ReadFrom(s, acc)
    decreases |s|
  {
    if s == [] {
      assert s + rest == rest;
    } else {
      assert (s + rest)[1..] == s[1..] + rest;
      ReadFromStops(s[1..], rest, (acc * 10 + DigitValue(s[0])) % 0x1_0000_0000);
    }
  }

  /** What follows the digits is ignored. A string that begins with something else is no number, unless it
      is empty or begins with a zero character: that reads as zero. */
  lemma ReadIff(s: string, rest: string)
    requires forall k :: 0 <= k < |s| ==> IsDigit(s[k])
    requires rest == [] || !IsDigit(rest[0])
    ensures Read(s + rest) ==
            if s == [] && rest != [] && rest[0] != '\0' then None else Some(Value(s) % 0x1_0000_0000)
  {
    ReadIsValue(s);
    ReadFromStops(s, rest, 0);
    assert s != [] ==> (s + rest)[0] == s[0];
    assert s == [] ==> s + rest == rest;
  }

  lemma ReadPrint(n: nat)
    requires n < 0x1_0000_0000
    ensures Read(Print(n)) == Some(n)
  {
    ReadIsValue(Print(n));
    ValueOfPrint(n);
  }

  /** StringUtils_ConvertStringToUl. */
  method ConvertStringToUl(s: string) returns (r: Option<Word>)
    ensures r == Read(s)
  {
    var i, result: Word := 0, 0;
    while i < |s| && s[i] != '\0'
      invariant i <= |s| && ReadFrom(s, 0) == ReadFrom(s[i..], result)
      invariant i > 0 ==> IsDigit(s[0])
    {
      if IsDigit(s[i]) {
        result := (result * 10 + DigitValue(s[i])) % 0x1_0000_0000;
      } else if i == 0 {
        return None;
      } else {
        break;
      }
      i := i + 1;
    }
    r := Some(result);
  }
}
