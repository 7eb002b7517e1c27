/**
 * The pieces of .NET text handling the core relies on: fixed-width decimal
 * rendering (the "yyyy", "MM", "hh" ... format specifiers), String.Split on
 * one separator character, and Convert.ToInt32(string).
 */
module Text {
  import opened Wrappers

  predicate IsDigit(c: char) { '0' <= c <= '9' }

  predicate AllDigits(s: string) { forall i :: 0 <= i < |s| ==> IsDigit(s[i]) }

  /** White space that NumberStyles.Integer lets surround a number: U+0009 to U+000D and U+0020. */
  predicate IsWhite(c: char) { c == ' ' || '\t' <= c <= '\r' }

  function DigitChar(d: int): (c: char)
    requires 0 <= d < 10
    ensures IsDigit(c) && c as int - '0' as int == d
  {
    (d + '0' as int) as char
  }

  function DigitValue(c: char): int
    requires IsDigit(c)
  {
    c as int - '0' as int
  }

  function Pow10(w: nat): (p: nat)
    ensures p >= 1
  {
    if w == 0 then 1 else 10 * Pow10(w - 1)
  }

  /** The last `w` decimal digits of `v`, zero-padded on the left. */
  function Digits(v: nat, w: nat): (s: string)
    ensures |s| == w && AllDigits(s)
  {
    if w == 0 then "" else Digits(v / 10, w - 1) + [DigitChar(v % 10)]
  }

  /** The number a string of decimal digits denotes. */
  function Value(s: string): nat
    requires AllDigits(s)
  {
    if s == [] then 0 else 10 * Value(s[..|s| - 1]) + DigitValue(s[|s| - 1])
  }

  /** Reading back a fixed-width rendering gives the number, when it fits the width. */
  lemma {:induction false} ValueOfDigits(v: nat, w: nat)
    requires v < Pow10(w)
    ensures Value(Digits(v, w)) == v
  {
    if w > 0 {
      var s := Digits(v, w);
      assert s[..w - 1] == Digits(v / 10, w - 1);
      ValueOfDigits(v / 10, w - 1);
    }
  }

  /** String.Split(sep): the maximal separator-free pieces, empty pieces included. */
  function Split(s: string, sep: char): (parts: seq<string>)
    ensures |parts| >= 1
  {
    if s == [] then [""]
    else
      var rest := Split(s[1..], sep);
      if s[0] == sep then [""] + rest else [[s[0]] + rest[0]] + rest[1..]
  }

  /** Joins pieces with the separator: the inverse of Split. */
  function Join(parts: seq<string>, sep: char): string
    requires |parts| >= 1
  {
    if |parts| == 1 then parts[0] else parts[0] + [sep] + Join(parts[1..], sep)
  }

  function Occurrences(s: string, c: char): nat
  {
    if s == [] then 0 else (if s[0] == c then 1 else 0) + Occurrences(s[1..], c)
  }

  lemma {:induction false} SplitJoin(s: string, sep: char)
    ensures Join(Split(s, sep), sep) == s
    ensures |Split(s, sep)| == Occurrences(s, sep) + 1
    ensures forall k :: 0 <= k < |Split(s, sep)| ==> sep !in Split(s, sep)[k]
  {
    if s != [] {
      SplitJoin(s[1..], sep);
      var rest := Split(s[1..], sep);
      if s[0] == sep {
        assert Split(s, sep) == [""] + rest;
        assert Split(s, sep)[1..] == rest;
      } else {
        assert Split(s, sep) == [[s[0]] + rest[0]] + rest[1..];
        if |rest| > 1 {
          assert Split(s, sep)[1..] == rest[1..];
          assert Join(rest, sep) == rest[0] + [sep] + Join(rest[1..], sep);
          assert ([s[0]] + rest[0]) + [sep] + Join(rest[1..], sep) == [s[0]] + (rest[0] + [sep] + Join(rest[1..], sep));
        }
        assert s == [s[0]] + s[1..];
      }
    }
  }

  /** A separator-free text is one piece. */
  lemma {:induction false} SplitWithoutSeparator(a: string, sep: char)
    requires sep !in a
    ensures Split(a, sep) == [a]
  {
    if a != [] {
      assert sep !in a[1..];
      SplitWithoutSeparator(a[1..], sep);
      assert [a[0]] + a[1..] == a;
    }
  }

  /** The first separator cuts off the first piece. */
  lemma {:induction false} SplitAtFirstSeparator(a: string, sep: char, b: string)
    requires sep !in a
    ensures Split(a + [sep] + b, sep) == [a] + Split(b, sep)
  {
    if a == [] {
      assert a + [sep] + b == [sep] + b;
      assert ([sep] + b)[1..] == b;
    } else {
      assert (a + [sep] + b)[1..] == a[1..] + [sep] + b;
      assert sep !in a[1..];
      SplitAtFirstSeparator(a[1..], sep, b);
      assert [a[0]] + a[1..] == a;
    }
  }

  /** The text after the white space at its start. */
  function TrimStartWhite(s: string): string
  {
    if s != [] && IsWhite(s[0]) then TrimStartWhite(s[1..]) else s
  }

  /** The text before the white space at its end. */
  function TrimEndWhite(s: string): string
  {
    if s != [] && IsWhite(s[|s| - 1]) then TrimEndWhite(s[..|s| - 1]) else s
  }

  /** Trimming the start removes a run of white space and stops at the first other character. */
  lemma {:induction false} TrimStartWhiteFacts(s: string)
    ensures var r := TrimStartWhite(s);
      && |r| <= |s| && r == s[|s| - |r|..]
      && (forall i :: 0 <= i < |s| - |r| ==> IsWhite(s[i]))
      && (r != [] ==> !IsWhite(r[0]))
  {
    if s != [] && IsWhite(s[0]) {
      TrimStartWhiteFacts(s[1..]);
      var r := TrimStartWhite(s[1..]);
      forall i | 0 <= i < |s| - |r|
        ensures IsWhite(s[i])
      {
        if i > 0 {
          assert s[i] == s[1..][i - 1];
        }
      }
      assert s[|s| - |r|..] == s[1..][|s| - 1 - |r|..];
    }
  }

  /** Trimming the end removes a run of white space and stops at the last other character. */
  lemma {:induction false} TrimEndWhiteFacts(s: string)
    ensures var r := TrimEndWhite(s);
      && |r| <= |s| && r == s[..|r|]
      && (forall i :: |r| <= i < |s| ==> IsWhite(s[i]))
      && (r != [] ==> !IsWhite(r[|r| - 1]))
  {
    if s != [] && IsWhite(s[|s| - 1]) {
      var t := s[..|s| - 1];
      TrimEndWhiteFacts(t);
      var r := TrimEndWhite(t);
      forall i | |r| <= i < |s|
        ensures IsWhite(s[i])
      {
        if i < |s| - 1 {
          assert s[i] == t[i];
        }
      }
      assert s[..|r|] == t[..|r|];
    }
  }

  /** The number a text of decimal digits denotes; None when some character is not a digit. */
  function DecimalValue(s: string): Option<nat>
  {
    if s == [] then Some(0)
    else if !IsDigit(s[|s| - 1]) then None
    else match DecimalValue(s[..|s| - 1])
      case None => None
      case Some(v) => Some(10 * v + DigitValue(s[|s| - 1]))
  }

  /** DecimalValue checks the digits and computes Value. */
  lemma {:induction false} DecimalValueIsValue(s: string)
    ensures DecimalValue(s) == if AllDigits(s) then Some(Value(s)) else None
  {
    if s != [] {
      var t := s[..|s| - 1];
      DecimalValueIsValue(t);
      if AllDigits(s) {
        assert AllDigits(t) by {
          forall i | 0 <= i < |t|
            ensures IsDigit(t[i])
          {
            assert t[i] == s[i];
          }
        }
      } else if IsDigit(s[|s| - 1]) {
        var i :| 0 <= i < |s| && !IsDigit(s[i]);
        assert i < |t| && t[i] == s[i];
      }
    }
  }

  const Int32Min: int := -0x8000_0000
  const Int32Max: int := 0x7FFF_FFFF

  /** The exceptions Convert.ToInt32(string) throws: FormatException and OverflowException. */
  datatype NumberError = FormatError | OverflowError

  /**
   * Convert.ToInt32(string), i.e. Int32.Parse with NumberStyles.Integer:
   * optional white space, an optional '+' or '-', one or more ASCII digits,
   * optional white space; the value must fit in 32 bits.
   */
  function ToInt32(s: string): (r: Result<int, NumberError>)
    ensures r.Success? ==> Int32Min <= r.value <= Int32Max
  {
    var body := TrimEndWhite(TrimStartWhite(s));
    var signed := body != [] && (body[0] == '-' || body[0] == '+');
    var digits := if signed then body[1..] else body;
    if digits == [] then Failure(FormatError)
    else match DecimalValue(digits)
      case None => Failure(FormatError)
      case Some(n) =>
        var v := if signed && body[0] == '-' then Negate(n) else n;
        if Int32Min <= v <= Int32Max then Success(v) else Failure(OverflowError)
  }

  function Negate(n: nat): int { -(n as int) }

  /** A text that starts and ends with something other than white space is not trimmed. */
  lemma TrimNothing(s: string)
    requires s != [] && !IsWhite(s[0]) && !IsWhite(s[|s| - 1])
    ensures TrimEndWhite(TrimStartWhite(s)) == s
  {
  }

  /** A zero-padded non-negative rendering, like the "08" of "08:30", converts back to its value. */
  lemma ToInt32OfDigits(v: nat, w: nat)
    requires 1 <= w && v < Pow10(w) && v <= Int32Max
    ensures ToInt32(Digits(v, w)) == Success(v)
  {
    var s := Digits(v, w);
    TrimNothing(s);
    assert !(s[0] == '-' || s[0] == '+');
    ValueOfDigits(v, w);
    DecimalValueIsValue(s);
  }

  /** A minus sign in front negates the value. */
  lemma ToInt32OfNegativeDigits(v: nat, w: nat)
    requires 1 <= w && v < Pow10(w) && v <= -Int32Min
    ensures ToInt32("-" + Digits(v, w)) == Success(Negate(v))
  {
    ValueOfDigits(v, w);
    ToInt32OfNegative(Digits(v, w));
  }

  lemma ToInt32OfNegative(d: string)
    requires d != [] && AllDigits(d) && Value(d) <= -Int32Min
    ensures ToInt32("-" + d) == Success(Negate(Value(d)))
  {
    var s := "-" + d;
    assert s[|s| - 1] == d[|d| - 1];
    TrimNothing(s);
    assert s[1..] == d;
    DecimalValueIsValue(d);
  }

  /** Anything but digits, signs and white space makes the conversion fail. */
  lemma ToInt32OnlyNumericText(s: string)
    requires ToInt32(s).Success?
    ensures forall i :: 0 <= i < |s| ==> IsDigit(s[i]) || IsWhite(s[i]) || s[i] == '+' || s[i] == '-'
    ensures exists i :: 0 <= i < |s| && IsDigit(s[i])
  {
    var t := TrimStartWhite(s);
    var body := TrimEndWhite(t);
    var signed := body != [] && (body[0] == '-' || body[0] == '+');
    var digits := if signed then body[1..] else body;
    TrimStartWhiteFacts(s);
    TrimEndWhiteFacts(t);
    DecimalValueIsValue(digits);
    var off := |s| - |t|;
    forall i | 0 <= i < |s|
      ensures IsDigit(s[i]) || IsWhite(s[i]) || s[i] == '+' || s[i] == '-'
    {
      if off <= i < off + |body| {
        assert s[i] == t[i - off] == body[i - off];
        if signed && i - off > 0 {
          assert body[i - off] == digits[i - off - 1];
        } else if !signed {
          assert body[i - off] == digits[i - off];
        }
      } else if i >= off + |body| {
        assert s[i] == t[i - off];
      }
    }
    var j := if signed then off + 1 else off;
    assert s[j] == t[j - off] == body[j - off];
    assert IsDigit(digits[0]);
  }
}
