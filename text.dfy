/**
 * The pieces of Rust's standard library text handling that the resource
 * compiler relies on: `str::split` on one character, `u16::from_str`, and the
 * `{}` / `{:x}` formatting of unsigned integers.
 */
module Text {
  import opened Wrappers

  // ---------------------------------------------------------------------------
  // Splitting on a separator character (`str::split(char)`)
  // ---------------------------------------------------------------------------

  /** The pieces of `s` between occurrences of `sep`: one more piece than there
      are separators, empty pieces kept (the empty string splits into one empty piece). */
  function Split(s: string, sep: char): (parts: seq<string>)
    ensures |parts| >= 1
    decreases |s|
  {
    if |s| == 0 then [[]]
    else
      var rest := Split(s[1..], sep);
      if s[0] == sep then [[]] + rest
      else [[s[0]] + rest[0]] + rest[1..]
  }

  /** No piece contains the separator. */
  lemma {:induction false} SplitPiecesFree(s: string, sep: char)
    ensures forall k :: 0 <= k < |Split(s, sep)| ==> sep !in Split(s, sep)[k]
    decreases |s|
  {
    if |s| > 0 {
      SplitPiecesFree(s[1..], sep);
    }
  }

  /** The pieces glued back together with `sep` between neighbours. */
  function Join(parts: seq<string>, sep: char): string
    requires |parts| >= 1
    decreases |parts|
  {
    if |parts| == 1 then parts[0] else parts[0] + [sep] + Join(parts[1..], sep)
  }

  /** Splitting loses nothing: joining the pieces restores the text. */
  lemma {:induction false} SplitJoin(s: string, sep: char)
    ensures Join(Split(s, sep), sep) == s
    decreases |s|
  {
    if |s| > 0 {
      var rest := Split(s[1..], sep);
      SplitJoin(s[1..], sep);
      if s[0] == sep {
        assert ([[]] + rest)[1..] == rest;
      } else {
        var parts := [[s[0]] + rest[0]] + rest[1..];
        if |rest| > 1 {
          assert parts[1..] == rest[1..];
          assert Join(rest, sep) == rest[0] + [sep] + Join(rest[1..], sep);
        }
        assert s == [s[0]] + s[1..];
      }
    }
  }

  /** Splitting is the inverse of joining pieces that hold no separator. */
  lemma {:induction false} JoinSplit(parts: seq<string>, sep: char)
    requires |parts| >= 1
    requires forall k :: 0 <= k < |parts| ==> sep !in parts[k]
    ensures Split(Join(parts, sep), sep) == parts
    decreases |parts|
  {
    if |parts| == 1 {
      SplitNoSeparator(parts[0], sep);
    } else {
      JoinSplit(parts[1..], sep);
      SplitLeadingPiece(parts[0], Join(parts[1..], sep), sep);
      assert [parts[0]] + parts[1..] == parts;
    }
  }

  /** Text without the separator is a single piece. */
  lemma {:induction false} SplitNoSeparator(s: string, sep: char)
    requires sep !in s
    ensures Split(s, sep) == [s]
    decreases |s|
  {
    if |s| > 0 {
      SplitNoSeparator(s[1..], sep);
      assert [s[0]] + s[1..] == s;
    }
  }

  /** A separator-free prefix followed by a separator becomes the first piece. */
  lemma {:induction false} SplitLeadingPiece(x: string, y: string, sep: char)
    requires sep !in x
    ensures Split(x + [sep] + y, sep) == [x] + Split(y, sep)
    decreases |x|
  {
    var s := x + [sep] + y;
    if |x| == 0 {
      assert s[1..] == y;
    } else {
      assert s[1..] == x[1..] + [sep] + y;
      SplitLeadingPiece(x[1..], y, sep);
      assert [x[0]] + x[1..] == x;
    }
  }

  /** Splitting a text given by its first character and the rest. */
  lemma SplitCons(c: char, t: string, sep: char)
    ensures Split([c] + t, sep) ==
      if c == sep then [[]] + Split(t, sep) else [[c] + Split(t, sep)[0]] + Split(t, sep)[1..]
  {
    assert ([c] + t)[0] == c && ([c] + t)[1..] == t;
  }

  /** Putting a non-separator in front of pieces followed by more pieces. */
  lemma ConsPieces(c: char, front: seq<string>, back: seq<string>)
    requires |front| >= 1
    ensures [[c] + (front + back)[0]] + (front + back)[1..] == ([[c] + front[0]] + front[1..]) + back
  {
    assert (front + back)[0] == front[0];
    assert (front + back)[1..] == front[1..] + back;
    AppendAssoc3([[c] + front[0]], front[1..], back);
  }

  /** A separator between two texts splits each of them on its own. */
  lemma {:induction false} SplitConcat(x: string, y: string, sep: char)
    ensures Split(x + [sep] + y, sep) == Split(x, sep) + Split(y, sep)
    decreases |x|
  {
    if |x| == 0 {
      assert x + [sep] + y == [sep] + y;
      SplitCons(sep, y, sep);
    } else {
      var c, x' := x[0], x[1..];
      var t := x' + [sep] + y;
      assert x + [sep] + y == [c] + t && x == [c] + x';
      SplitConcat(x', y, sep);
      SplitCons(c, t, sep);
      SplitCons(c, x', sep);
      if c == sep {
        AppendAssoc3([[]], Split(x', sep), Split(y, sep));
      } else {
        ConsPieces(c, Split(x', sep), Split(y, sep));
      }
    }
  }

  /** A character other than the separator appended to the text extends the last piece. */
  lemma {:induction false} SplitLastPiece(s: string, c: char, sep: char)
    requires c != sep
    ensures var parts := Split(s + [c], sep);
      var before := Split(s, sep);
      |parts| == |before| && parts[|parts| - 1] == before[|before| - 1] + [c]
    decreases |s|
  {
    if |s| > 0 {
      var a, s' := s[0], s[1..];
      var r1, r0 := Split(s' + [c], sep), Split(s', sep);
      assert |r1| == |r0| >= 1 && r1[|r1| - 1] == r0[|r0| - 1] + [c] by {
        SplitLastPiece(s', c, sep);
      }
      assert Split(s + [c], sep) == if a == sep then [[]] + r1 else [[a] + r1[0]] + r1[1..] by {
        assert s == [a] + s';
        AppendAssoc3([a], s', [c]);
        SplitCons(a, s' + [c], sep);
      }
      assert Split(s, sep) == if a == sep then [[]] + r0 else [[a] + r0[0]] + r0[1..] by {
        assert s == [a] + s';
        SplitCons(a, s', sep);
      }
      if a != sep {
        ConsLastPiece(a, r1, r0, c);
      }
    } else {
      SplitCons(c, [], sep);
      assert s + [c] == [c] + [];
    }
  }

  /** Putting a non-separator in front keeps how two piece lists' last pieces relate. */
  lemma ConsLastPiece(a: char, r1: seq<string>, r0: seq<string>, c: char)
    requires |r1| == |r0| >= 1 && r1[|r1| - 1] == r0[|r0| - 1] + [c]
    ensures var p1, p0 := [[a] + r1[0]] + r1[1..], [[a] + r0[0]] + r0[1..];
      |p1| == |p0| && p1[|p1| - 1] == p0[|p0| - 1] + [c]
  {
    if |r0| == 1 {
      AppendAssoc3([a], r0[0], [c]);
    }
  }

  /** Two neighbouring separators produce an empty piece (not the first one). */
  lemma {:induction false} SplitDoubleSeparator(s: string, i: nat, sep: char)
    requires i + 1 < |s| && s[i] == sep && s[i + 1] == sep
    ensures exists k :: 1 <= k < |Split(s, sep)| && Split(s, sep)[k] == []
    decreases |s|
  {
    var rest := Split(s[1..], sep);
    if i == 0 {
      var rest2 := Split(s[2..], sep);
      assert s[1..][1..] == s[2..];
      assert rest == [[]] + rest2;
      assert Split(s, sep)[1] == [];
    } else {
      SplitDoubleSeparator(s[1..], i - 1, sep);
      var k :| 1 <= k < |rest| && rest[k] == [];
      if s[0] == sep {
        assert Split(s, sep)[k + 1] == [];
      } else {
        assert Split(s, sep)[k] == [];
      }
    }
  }

  // ---------------------------------------------------------------------------
  // Numerals in base 10 and base 16 (`{}` and `{:x}` formatting)
  // ---------------------------------------------------------------------------

  type Base = b: nat | 2 <= b <= 16 witness 10

  /** A digit character of `base`: '0'..'9' then lower-case 'a'..'f'. */
  predicate IsDigit(c: char, base: Base)
  {
    ('0' <= c <= '9' && (c as int - '0' as int) < base)
    || ('a' <= c <= 'f' && (c as int - 'a' as int) + 10 < base)
  }

  predicate AllDigits(s: string, base: Base)
  {
    forall k :: 0 <= k < |s| ==> IsDigit(s[k], base)
  }

  function DigitChar(d: nat): (c: char)
    requires d < 16
  {
    if d < 10 then ('0' as int + d) as char else ('a' as int + d - 10) as char
  }

  function DigitValue(c: char, base: Base): (d: nat)
    requires IsDigit(c, base)
    ensures d < base && DigitChar(d) == c
  {
    if '0' <= c <= '9' then c as int - '0' as int else c as int - 'a' as int + 10
  }

  /** Division by the base: quotient and remainder, and the quotient shrinks. */
  lemma DivModBase(n: nat, base: Base)
    ensures n == (n / base) * base + n % base && 0 <= n % base < base
    ensures n >= base ==> 1 <= n / base < n
    ensures n < base ==> n / base == 0 && n % base == n
  {
  }

  /** The numeral of `n` in `base`, most significant digit first, with no leading zeros. */
  function Numeral(n: nat, base: Base): (s: string)
    ensures |s| >= 1 && AllDigits(s, base)
    ensures n == 0 <==> s == "0"
    ensures s[0] == '0' ==> n == 0
    decreases n
  {
    DivModBase(n, base);
    if n < base then [DigitChar(n)]
    else Numeral(n / base, base) + [DigitChar(n % base)]
  }

  function Decimal(n: nat): string { Numeral(n, 10) }

  function Hex(n: nat): string { Numeral(n, 16) }

  /** The value a string of digits denotes in `base` (leading zeros allowed). */
  function NumeralValue(s: string, base: Base): nat
    requires AllDigits(s, base)
    decreases |s|
  {
    if |s| == 0 then 0
    else NumeralValue(s[..|s| - 1], base) * base + DigitValue(s[|s| - 1], base)
  }

  /** Reading a numeral back gives the number that was formatted. */
  lemma {:induction false} NumeralRoundTrip(n: nat, base: Base)
    ensures NumeralValue(Numeral(n, base), base) == n
    decreases n
  {
    if n >= base {
      var s := Numeral(n, base);
      var p := Numeral(n / base, base);
      DivModBase(n, base);
      NumeralRoundTrip(n / base, base);
      assert s == p + [DigitChar(n % base)];
      assert s[..|s| - 1] == p;
      assert NumeralValue(s, base) == NumeralValue(p, base) * base + n % base;
    }
  }

  /** A digit string whose first digit is not '0' has a positive value. */
  lemma {:induction false} LeadingDigitPositive(s: string, base: Base)
    requires |s| >= 1 && AllDigits(s, base) && s[0] != '0'
    ensures NumeralValue(s, base) >= 1
    decreases |s|
  {
    var p := s[..|s| - 1];
    var d := DigitValue(s[|s| - 1], base);
    assert NumeralValue(s, base) == NumeralValue(p, base) * base + d;
    if |s| > 1 {
      assert p[0] == s[0];
      LeadingDigitPositive(p, base);
      MulGrows(NumeralValue(p, base), base);
    } else {
      assert d != 0 by {
        assert DigitChar(d) == s[0];
      }
    }
  }

  lemma MulGrows(a: nat, b: nat)
    requires b >= 1
    ensures a * b >= a
  {
  }

  /** Quotient and remainder are determined by the division equation. */
  lemma DivModUnique(n: nat, base: Base, q: nat, r: nat)
    requires n == q * base + r && r < base
    ensures n / base == q && n % base == r
    ensures q >= 1 ==> n >= base
  {
    if q >= 1 {
      assert q * base >= base;
    }
  }

  /** Formatting is the inverse of reading on canonical digit strings: a digit
      string without leading zeros is exactly the numeral of its value. */
  lemma {:induction false} NumeralCanonical(s: string, base: Base)
    requires |s| >= 1 && AllDigits(s, base)
    requires |s| > 1 ==> s[0] != '0'
    ensures Numeral(NumeralValue(s, base), base) == s
    decreases |s|
  {
    var last := DigitValue(s[|s| - 1], base);
    if |s| > 1 {
      var p := s[..|s| - 1];
      NumeralCanonical(p, base);
      var v := NumeralValue(p, base);
      if |p| > 1 {
        LeadingDigitPositive(p, base);
      } else {
        LeadingDigitPositive(p, base);
      }
      var n := v * base + last;
      DivModUnique(n, base, v, last);
      assert NumeralValue(s, base) == n;
      assert Numeral(n, base) == Numeral(v, base) + [DigitChar(last)];
      assert s == p + [s[|s| - 1]];
    }
  }

  // ---------------------------------------------------------------------------
  // `u16::from_str`
  // ---------------------------------------------------------------------------

  /** The values of Rust's `u16`. */
  type U16 = x: int | 0 <= x < 0x1_0000

  /** The value of a string of decimal digits, accumulated digit by digit, or
      nothing when some character is not a decimal digit. */
  function DecimalValue(digits: string): Option<nat>
    decreases |digits|
  {
    if digits == [] then Some(0)
    else match DecimalValue(digits[..|digits| - 1])
      case None => None
      case Some(v) =>
        var c := digits[|digits| - 1];
        if '0' <= c <= '9' then Some(v * 10 + (c as int - '0' as int)) else None
  }

  /** The accumulated value exists exactly for digit strings, and is the value they denote. */
  lemma {:induction false} DecimalValueMeaning(digits: string)
    ensures DecimalValue(digits).Some? <==> AllDigits(digits, 10)
    ensures DecimalValue(digits).Some? ==> DecimalValue(digits).value == NumeralValue(digits, 10)
    decreases |digits|
  {
    if digits != [] {
      var front := digits[..|digits| - 1];
      DecimalValueMeaning(front);
      assert forall k :: 0 <= k < |front| ==> front[k] == digits[k];
    }
  }

  /** Parses an unsigned 16-bit decimal: an optional leading '+', then one or
      more decimal digits (leading zeros allowed) whose value is at most 65535.
      Anything else, including the empty string, a lone '+', a '-', a space or
      a carriage return, is rejected. */
  function ParseU16(token: string): Option<U16>
  {
    var digits := if |token| > 0 && token[0] == '+' then token[1..] else token;
    if digits == [] then None
    else match DecimalValue(digits)
      case None => None
      case Some(v) => if v < 0x1_0000 then Some(v) else None
  }

  /** Read in terms of digit strings: a token parses exactly when, after an
      optional '+', it is a non-empty digit string whose value is a `u16`. */
  lemma ParseU16Meaning(token: string)
    ensures var digits := if |token| > 0 && token[0] == '+' then token[1..] else token;
      ParseU16(token) ==
        if |digits| > 0 && AllDigits(digits, 10) && NumeralValue(digits, 10) < 0x1_0000
        then Some(NumeralValue(digits, 10)) else None
  {
    var digits := if |token| > 0 && token[0] == '+' then token[1..] else token;
    DecimalValueMeaning(digits);
  }

  /** Every decimal numeral of a `u16`, with or without a leading '+', parses back to it. */
  lemma ParseU16Decimal(n: nat)
    requires n < 0x1_0000
    ensures ParseU16(Decimal(n)) == Some(n)
    ensures ParseU16("+" + Decimal(n)) == Some(n)
  {
    var d := Decimal(n);
    NumeralRoundTrip(n, 10);
    assert NumeralValue(d, 10) == n;
    assert d[0] != '+';
    ParseU16Meaning(d);
    var t := "+" + d;
    assert t[0] == '+' && t[1..] == d;
    ParseU16Meaning(t);
  }

  /** Accepted tokens are exactly an optional '+', leading zeros, and the decimal numeral of the value. */
  lemma ParseU16Accepted(token: string)
    requires ParseU16(token).Some?
    ensures exists sign: string, zeros: nat ::
      (sign == "" || sign == "+") &&
      token == sign + Zeros(zeros) + Decimal(ParseU16(token).value)
  {
    var signed := token[0] == '+';
    var digits := if signed then token[1..] else token;
    assert |digits| > 0 && AllDigits(digits, 10) && ParseU16(token).value == NumeralValue(digits, 10) by {
      ParseU16Meaning(token);
    }
    var v := ParseU16(token).value;
    var z := StripZeros(digits);
    var sign := if signed then "+" else "";
    assert token == sign + digits;
    AppendAssoc3(sign, Zeros(z), Decimal(v));
    assert token == sign + Zeros(z) + Decimal(v);
  }

  lemma AppendAssoc3<T>(a: seq<T>, b: seq<T>, c: seq<T>)
    ensures a + b + c == a + (b + c)
  {
  }

  lemma LastSplit<T>(s: seq<T>)
    requires |s| > 0
    ensures s == s[..|s| - 1] + [s[|s| - 1]]
  {
  }

  lemma AppendAssoc<T>(a: seq<T>, b: seq<T>, c: seq<T>, d: seq<T>, e: seq<T>)
    ensures a + b + c + d + e == a + (b + c + d + e)
  {
  }

  /** A run of `n` zero digits. */
  function Zeros(n: nat): (s: string)
    ensures |s| == n && forall k :: 0 <= k < n ==> s[k] == '0'
  {
    seq(n, _ => '0')
  }

  /** A digit string is some leading zeros followed by the decimal numeral of its value. */
  lemma {:induction false} StripZeros(digits: string) returns (z: nat)
    requires |digits| > 0 && AllDigits(digits, 10)
    ensures z < |digits| && digits == Zeros(z) + Decimal(NumeralValue(digits, 10))
    decreases |digits|
  {
    if |digits| == 1 || digits[0] != '0' {
      NumeralCanonical(digits, 10);
      z := 0;
      assert Zeros(0) + digits == digits;
    } else {
      var rest := digits[1..];
      ZeroPrefixValue(digits);
      var z' := StripZeros(rest);
      z := z' + 1;
      assert digits == ['0'] + rest;
      assert Zeros(z) == ['0'] + Zeros(z');
    }
  }

  /** A leading zero does not change the value of a digit string. */
  lemma {:induction false} ZeroPrefixValue(digits: string)
    requires |digits| > 1 && AllDigits(digits, 10) && digits[0] == '0'
    ensures NumeralValue(digits, 10) == NumeralValue(digits[1..], 10)
    decreases |digits|
  {
    var rest := digits[1..];
    if |digits| > 2 {
      ZeroPrefixValue(digits[..|digits| - 1]);
      assert digits[..|digits| - 1][1..] == rest[..|rest| - 1];
    } else {
      assert digits[..1] == ['0'];
      assert NumeralValue(['0'], 10) == 0 by {
        assert ['0'][..0] == [];
      }
      assert rest[..0] == [];
    }
  }

  /** The empty token and a token carrying a stray character after a digit are rejected. */
  lemma ParseU16RejectsNonDigit(token: string, i: nat)
    requires i < |token| && !('0' <= token[i] <= '9') && (i > 0 || token[0] != '+')
    ensures ParseU16(token) == None
  {
    var digits := if |token| > 0 && token[0] == '+' then token[1..] else token;
    ParseU16Meaning(token);
    if token[0] == '+' {
      assert digits[i - 1] == token[i];
    }
    assert !IsDigit(token[i], 10);
  }

  lemma ParseU16RejectsEmpty()
    ensures ParseU16("") == None
    ensures ParseU16("+") == None
  {
  }
}
