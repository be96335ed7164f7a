/**
 * String helpers the client relies on from the JavaScript runtime:
 * `String.prototype.split` with a one-character separator, and `Number()`
 * / number-to-string conversion restricted to decimal digit strings.
 */
module Text {
  import opened Results

  /** Re-assembles split pieces, putting `sep` between neighbours. */
  function Join(pieces: seq<string>, sep: char): string
    requires |pieces| >= 1
  {
    if |pieces| == 1 then pieces[0] else pieces[0] + [sep] + Join(pieces[1..], sep)
  }

  /**
   * `s.split(sep)` for a one-character separator: the maximal pieces of `s`
   * between occurrences of `sep`, in order, empty pieces included.
   */
  function Split(s: string, sep: char): (pieces: seq<string>)
    ensures |pieces| >= 1
    ensures forall i :: 0 <= i < |pieces| ==> sep !in pieces[i]
    ensures Join(pieces, sep) == s
    ensures |pieces| == 1 <==> sep !in s
    decreases |s|
  {
    if |s| == 0 then [""]
    else
      var rest := Split(s[1..], sep);
      assert s == [s[0]] + s[1..];
      if s[0] == sep then
        [""] + rest
      else
        var first := [s[0]] + rest[0];
        assert |rest| > 1 ==> Join(rest, sep) == rest[0] + [sep] + Join(rest[1..], sep);
        assert ([first] + rest[1..])[1..] == rest[1..];
        [first] + rest[1..]
  }

  /** A separator-free string splits into itself. */
  lemma SplitWithoutSeparator(s: string, sep: char)
    requires sep !in s
    ensures Split(s, sep) == [s]
  {
  }

  /** The text before the first `sep` of `s`, or all of `s` when there is none. */
  function FirstPiece(s: string, sep: char): (r: string)
    ensures sep !in r
    ensures |r| <= |s| && r == s[..|r|]
    ensures |r| < |s| ==> s[|r|] == sep
  {
    if |s| == 0 || s[0] == sep then "" else [s[0]] + FirstPiece(s[1..], sep)
  }

  /** The first piece `split` returns is the text before the first separator. */
  lemma {:induction false} SplitFirstIsFirstPiece(s: string, sep: char)
    ensures Split(s, sep)[0] == FirstPiece(s, sep)
    decreases |s|
  {
    if |s| > 0 && s[0] != sep {
      SplitHead(s, sep);
      SplitFirstIsFirstPiece(s[1..], sep);
    }
  }

  /** The first piece of `a + b` is `a` followed by the first piece of `b`, when `a` holds no separator. */
  lemma {:induction false} FirstPieceAppend(a: string, sep: char, b: string)
    requires sep !in a
    ensures FirstPiece(a + b, sep) == a + FirstPiece(b, sep)
    decreases |a|
  {
    if |a| == 0 {
      assert a + b == b;
    } else {
      assert (a + b)[0] == a[0] && (a + b)[1..] == a[1..] + b;
      FirstPieceAppend(a[1..], sep, b);
      assert a == [a[0]] + a[1..];
    }
  }

  /** A text that does not start with the separator keeps its first character in the first piece. */
  lemma SplitHead(s: string, sep: char)
    requires |s| > 0 && s[0] != sep
    ensures Split(s, sep)[0] == [s[0]] + Split(s[1..], sep)[0]
  {
  }

  /** Splitting at the first separator peels off the text before it. */
  lemma {:induction false} SplitAtFirst(a: string, sep: char, b: string)
    requires sep !in a
    ensures Split(a + [sep] + b, sep) == [a] + Split(b, sep)
    decreases |a|
  {
    var s := a + [sep] + b;
    if |a| == 0 {
      assert s[1..] == b;
    } else {
      assert s[1..] == a[1..] + [sep] + b;
      SplitAtFirst(a[1..], sep, b);
      assert [a[0]] + a[1..] == a;
    }
  }

  /** Split undoes Join when no piece contains the separator. */
  lemma {:induction false} SplitJoin(pieces: seq<string>, sep: char)
    requires |pieces| >= 1
    requires forall i :: 0 <= i < |pieces| ==> sep !in pieces[i]
    ensures Split(Join(pieces, sep), sep) == pieces
    decreases |pieces|
  {
    if |pieces| == 1 {
      SplitWithoutSeparator(pieces[0], sep);
    } else {
      SplitJoin(pieces[1..], sep);
      SplitAtFirst(pieces[0], sep, Join(pieces[1..], sep));
      assert [pieces[0]] + pieces[1..] == pieces;
    }
  }

  predicate IsDigit(ch: char) {
    '0' <= ch <= '9'
  }

  predicate AllDigits(s: string) {
    forall i :: 0 <= i < |s| ==> IsDigit(s[i])
  }

  function DigitValue(ch: char): (d: nat)
    requires IsDigit(ch)
    ensures d < 10
  {
    ch as int - '0' as int
  }

  function DigitChar(d: nat): (ch: char)
    requires d < 10
    ensures IsDigit(ch) && DigitValue(ch) == d
  {
    ('0' as int + d) as char
  }

  /** The number a string of decimal digits denotes (the empty string denotes 0). */
  function DecimalValue(s: string): nat
    requires AllDigits(s)
    decreases |s|
  {
    if |s| == 0 then 0 else 10 * DecimalValue(s[..|s| - 1]) + DigitValue(s[|s| - 1])
  }

  /**
   * `Number(s)` on the strings the model admits: a (possibly empty) run of
   * decimal digits converts to its value, as JavaScript does, leading zeros
   * and all; anything else is treated as NaN (None).
   */
  function NumberOf(s: string): (r: Option<nat>)
    ensures r.Some? <==> AllDigits(s)
    ensures r.Some? ==> r.value == DecimalValue(s)
  {
    if AllDigits(s) then Some(DecimalValue(s)) else None
  }

  /**
   * The shortest decimal rendering of `n`: the text JavaScript's number to
   * string conversion gives for a safe integer (at most 2^53). Larger
   * numbers are not exactly representable as doubles and print differently.
   */
  function NatToDecimal(n: nat): (s: string)
    ensures |s| >= 1 && AllDigits(s)
    ensures DecimalValue(s) == n
    ensures s[0] != '0' || n == 0
    decreases n
  {
    if n < 10 then [DigitChar(n)]
    else
      var prefix := NatToDecimal(n / 10);
      var s := prefix + [DigitChar(n % 10)];
      assert s[..|s| - 1] == prefix;
      s
  }

  /** `Number()` reads back what NatToDecimal prints. */
  lemma NumberOfReadsNatToDecimal(n: nat)
    ensures NumberOf(NatToDecimal(n)) == Some(n)
  {
  }

  predicate AllZeros(z: string) {
    forall i :: 0 <= i < |z| ==> z[i] == '0'
  }

  /** A run of zeros denotes 0. */
  lemma {:induction false} ZerosDenoteZero(z: string)
    requires AllZeros(z)
    ensures AllDigits(z) && DecimalValue(z) == 0
    decreases |z|
  {
    if |z| > 0 {
      ZerosDenoteZero(z[..|z| - 1]);
    }
  }

  /** Zeros in front of a digit string do not change its value. */
  lemma {:induction false} LeadingZerosIgnored(z: string, s: string)
    requires AllZeros(z) && AllDigits(s)
    ensures AllDigits(z + s) && DecimalValue(z + s) == DecimalValue(s)
    decreases |s|
  {
    ZerosDenoteZero(z);
    if |s| == 0 {
      assert z + s == z;
    } else {
      var t := z + s;
      assert t[..|t| - 1] == z + s[..|s| - 1];
      assert t[|t| - 1] == s[|s| - 1];
      LeadingZerosIgnored(z, s[..|s| - 1]);
    }
  }

  /** `Number("05")` is 5: any zeros in front of a printed number are ignored. */
  lemma NumberOfIgnoresLeadingZeros(z: string, n: nat)
    requires AllZeros(z)
    ensures NumberOf(z + NatToDecimal(n)) == Some(n)
  {
    LeadingZerosIgnored(z, NatToDecimal(n));
  }

  /** An optional minus sign and the digits: how JavaScript prints a safe integer. */
  function IntToDecimal(i: int): (s: string)
    ensures '&' !in s
  {
    if i < 0 then "-" + NatToDecimal(-i) else NatToDecimal(i)
  }

  /** Reads back an integer printed by IntToDecimal; None for any other text. */
  function ParseInteger(s: string): Option<int> {
    if |s| >= 2 && s[0] == '-' && AllDigits(s[1..]) then Some(0 - DecimalValue(s[1..]) as int)
    else if |s| >= 1 && AllDigits(s) then Some(DecimalValue(s))
    else None
  }

  /** Printing an integer and reading it back gives the integer, sign included. */
  lemma IntToDecimalRoundTrip(i: int)
    ensures ParseInteger(IntToDecimal(i)) == Some(i)
  {
    var s := IntToDecimal(i);
    if i < 0 {
      assert s[1..] == NatToDecimal(-i);
    } else {
      assert !IsDigit('-');
    }
  }
}
