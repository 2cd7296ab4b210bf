/** The texts src/json.cpp accepts, as RFC 8259 spells them: every spelling of a value, with whatever white space, escapes,
    exponents and repeated keys, and what it means. The parser accepts exactly these texts, with exactly these values. */
module JsonGrammar {
  import opened Words
  import opened Json
  import Seqs
  import Utf8

  // --- Numbers (section 6) ---

  datatype Power = NoPower | Power(capital: bool, sign: Bytes, digits: Bytes)

  datatype NumberText = NumberText(negative: bool, integer: Bytes, fraction: Bytes, power: Power)

  predicate AllDigits(s: Bytes) { forall i :: 0 <= i < |s| ==> IsDigit(s[i]) }

  predicate IsNumber(n: NumberText) {
    && n.integer != [] && AllDigits(n.integer) && (|n.integer| == 1 || n.integer[0] != ZERO) && AllDigits(n.fraction)
    && (n.power.Power? ==> (n.power.sign == [] || n.power.sign == [PLUS] || n.power.sign == [MINUS])
                           && n.power.digits != [] && AllDigits(n.power.digits))
  }

  function FractionThen(fraction: Bytes, rest: Bytes): Bytes { if fraction == [] then rest else [DOT] + (fraction + rest) }

  function PowerThen(p: Power, rest: Bytes): Bytes {
    match p
    case NoPower => rest
    case Power(capital, sign, digits) => [if capital then 0x45 else 0x65] + (sign + (digits + rest))
  }

  function UnsignedThen(n: NumberText, rest: Bytes): Bytes {
    n.integer + FractionThen(n.fraction, PowerThen(n.power, rest))
  }

  function NumberThen(n: NumberText, rest: Bytes): Bytes {
    if n.negative then [MINUS] + UnsignedThen(n, rest) else UnsignedThen(n, rest)
  }

  /** What follows does not go on with the number. */
  predicate Ends(n: NumberText, rest: Bytes) {
    && !IsDigit(Peek(rest))
    && (n.power.NoPower? ==> Peek(rest) != 0x65 && Peek(rest) != 0x45 && (n.fraction == [] ==> Peek(rest) != DOT))
  }

  function NumberOf(digits: Bytes): nat
    requires AllDigits(digits)
  {
    if digits == [] then 0
    else
      var last := digits[|digits| - 1];
      assert IsDigit(last);
      NumberOf(digits[..|digits| - 1]) * 10 + (last - ZERO)
  }

  /** Without leading zeros. */
  function Significant(digits: Bytes): (s: Bytes)
    requires AllDigits(digits)
    ensures AllDigits(s) && |s| <= |digits| && (s != [] ==> s[0] != ZERO)
  {
    if digits != [] && digits[0] == ZERO then Significant(digits[1..]) else digits
  }

  /** The first 17 of them. */
  function Leading(digits: Bytes): (s: Bytes)
    requires AllDigits(digits)
    ensures AllDigits(s) && |s| <= 17
  {
    if |digits| <= 17 then digits else digits[..17]
  }

  /** The number written, up to where it first reaches 100000. */
  function PowerOf(digits: Bytes): nat
    requires AllDigits(digits)
  {
    if digits == [] then 0
    else
      var before, last := PowerOf(digits[..|digits| - 1]), digits[|digits| - 1];
      assert IsDigit(last);
      if before >= 100000 then before else before * 10 + (last - ZERO)
  }

  function ExponentOf(p: Power): int
    requires p.Power? ==> AllDigits(p.digits)
  {
    match p
    case NoPower => 0
    case Power(_, sign, digits) => if sign == [MINUS] then 0 - PowerOf(digits) else PowerOf(digits)
  }

  function TenTo(k: nat): (p: nat)
    ensures p > 0
  {
    if k == 0 then 1 else 10 * TenTo(k - 1)
  }

  /** m * 10^e */
  function Tens(m: nat, e: int): real {
    if e >= 0 then m as real * TenTo(e) as real else m as real / TenTo(-e) as real
  }

  /** Its digits, of which the first 17 significant ones count, with the point where it is, times the power of ten. */
  function Magnitude(n: NumberText): real
    requires IsNumber(n)
  {
    var digits := Significant(n.integer + n.fraction);
    Tens(NumberOf(Leading(digits)), |digits| - |Leading(digits)| - |n.fraction| + ExponentOf(n.power))
  }

  /** With no more than 17 significant digits and an exponent below a million, exactly the number written. */
  lemma MagnitudeIsExact(n: NumberText)
    requires IsNumber(n) && |Significant(n.integer + n.fraction)| <= 17
    requires n.power.Power? ==> NumberOf(n.power.digits) < 1000000
    ensures Magnitude(n) == Tens(NumberOf(n.integer + n.fraction),
                                 (if n.power.NoPower? then 0
                                  else if n.power.sign == [MINUS] then 0 - NumberOf(n.power.digits) else NumberOf(n.power.digits))
                                 - |n.fraction|)
  {
    SignificantIs(n.integer + n.fraction);
    if n.power.Power? {
      PowerIsExact(n.power.digits);
    }
    hide Significant, NumberOf, PowerOf, Tens;
  }

  lemma {:induction false} SignificantIs(digits: Bytes)
    requires AllDigits(digits)
    ensures NumberOf(Significant(digits)) == NumberOf(digits)
    decreases |digits|
  {
    if digits != [] && digits[0] == ZERO {
      SignificantIs(digits[1..]);
      ZeroInFront(digits[1..]);
      assert digits == [ZERO] + digits[1..];
    }
  }

  lemma {:induction false} ZeroInFront(digits: Bytes)
    requires AllDigits(digits)
    ensures AllDigits([ZERO] + digits) && NumberOf([ZERO] + digits) == NumberOf(digits)
    decreases |digits|
  {
    var more := [ZERO] + digits;
    assert forall i :: 1 <= i < |more| ==> more[i] == digits[i - 1];
    if digits == [] {
      assert more[..0] == [] && NumberOf(more[..0]) == 0;
    } else {
      ZeroInFront(digits[..|digits| - 1]);
      assert more[..|more| - 1] == [ZERO] + digits[..|digits| - 1] && more[|more| - 1] == digits[|digits| - 1];
    }
  }

  lemma {:induction false} PowerIsExact(digits: Bytes)
    requires AllDigits(digits) && NumberOf(digits) < 1000000
    ensures PowerOf(digits) == NumberOf(digits)
    decreases |digits|
  {
    if digits != [] {
      PowerIsExact(digits[..|digits| - 1]);
    }
  }

  // --- Reading numbers ---

  /** The digits read so far, fraction of them behind the point. */
  function Counted(digits: Bytes, fraction: nat): Decimal
    requires AllDigits(digits)
  {
    var s := Significant(digits);
    Decimal(NumberOf(Leading(s)), |s| - |Leading(s)| - fraction, |Leading(s)|)
  }

  lemma {:induction false} SignificantGrows(digits: Bytes, x: Byte)
    requires AllDigits(digits) && IsDigit(x)
    ensures AllDigits(digits + [x])
    ensures Significant(digits + [x]) == if Significant(digits) == [] && x == ZERO then [] else Significant(digits) + [x]
    decreases |digits|
  {
    var more := digits + [x];
    if digits == [] {
      assert more[1..] == [];
    } else if digits[0] == ZERO {
      assert more[1..] == digits[1..] + [x];
      SignificantGrows(digits[1..], x);
    }
  }

  lemma {:induction false} NotZero(digits: Bytes)
    requires AllDigits(digits) && digits != [] && digits[0] != ZERO
    ensures NumberOf(digits) > 0
    decreases |digits|
  {
    assert IsDigit(digits[0]);
    if |digits| > 1 {
      NotZero(digits[..|digits| - 1]);
    }
  }

  lemma OneMoreDigit(digits: Bytes, fraction: nat, x: Byte, inFraction: bool)
    requires AllDigits(digits) && IsDigit(x)
    ensures AllDigits(digits + [x])
    ensures AddDigit(Counted(digits, fraction), x - ZERO, inFraction)
            == Counted(digits + [x], if inFraction then fraction + 1 else fraction)
  {
    SignificantGrows(digits, x);
    var s, s' := Significant(digits), Significant(digits + [x]);
    hide Significant;
    if s' == s + [x] {
      assert s'[..|s'| - 1] == s && s'[|s'| - 1] == x;
      if |s| < 17 {
        NotZero(s');
      } else {
        assert Leading(s') == Leading(s);
      }
    } else {
      assert NumberOf([]) == 0;
    }
  }

  lemma {:induction false} DigitsRead(done: Bytes, digits: Bytes, rest: Bytes, fraction: nat, inFraction: bool)
    requires AllDigits(done) && AllDigits(digits) && !IsDigit(Peek(rest))
    ensures AllDigits(done + digits)
    ensures ReadDigits(digits + rest, Counted(done, fraction), inFraction)
            == (Counted(done + digits, if inFraction then fraction + |digits| else fraction), rest)
    decreases |digits|
  {
    hide Counted, AddDigit;
    if digits == [] {
      assert digits + rest == rest && done + digits == done;
    } else {
      assert IsDigit(digits[0]);
      OneMoreDigit(done, fraction, digits[0], inFraction);
      DigitsRead(done + [digits[0]], digits[1..], rest, if inFraction then fraction + 1 else fraction, inFraction);
      assert (digits + rest)[1..] == digits[1..] + rest && done + [digits[0]] + digits[1..] == done + digits;
    }
  }

  lemma {:induction false} PowerRead(done: Bytes, digits: Bytes, rest: Bytes)
    requires AllDigits(done) && AllDigits(digits) && !IsDigit(Peek(rest))
    ensures AllDigits(done + digits) && ReadPower(digits + rest, PowerOf(done)) == (PowerOf(done + digits), rest)
    decreases |digits|
  {
    if digits == [] {
      assert digits + rest == rest && done + digits == done;
    } else {
      assert IsDigit(digits[0]);
      var more := done + [digits[0]];
      assert more[..|more| - 1] == done && more[|more| - 1] == digits[0];
      PowerRead(more, digits[1..], rest);
      assert (digits + rest)[1..] == digits[1..] + rest && more + digits[1..] == done + digits;
    }
  }

  lemma {:induction false} ScaledIsTens(m: nat, e: int)
    ensures Scaled(m, e) == Tens(m, e)
  {
    PowersAgree(if e >= 0 then e else -e);
  }

  lemma {:induction false} PowersAgree(k: nat)
    ensures Pow10(k) == TenTo(k) as real
  {
    if k > 0 {
      PowersAgree(k - 1);
    }
  }

  lemma IntegerRead(integer: Bytes, rest: Bytes)
    requires integer != [] && AllDigits(integer) && (|integer| == 1 || integer[0] != ZERO) && !IsDigit(Peek(rest))
    ensures ReadInteger(integer + rest) == Some((Counted(integer, 0), rest))
  {
    assert IsDigit(integer[0]);
    assert Counted([], 0) == NOTHING_READ && [] + integer == integer;
    if integer[0] == ZERO {
      assert integer == [ZERO] && (integer + rest)[1..] == rest;
      assert Significant(integer[1..]) == [] && NumberOf([]) == 0;
    } else {
      hide Counted;
      DigitsRead([], integer, rest, 0, false);
    }
  }

  lemma FractionRead(integer: Bytes, fraction: Bytes, rest: Bytes)
    requires AllDigits(integer) && AllDigits(fraction) && !IsDigit(Peek(rest)) && (fraction == [] ==> Peek(rest) != DOT)
    ensures AllDigits(integer + fraction)
    ensures ReadFraction(FractionThen(fraction, rest), Counted(integer, 0)) == Some((Counted(integer + fraction, |fraction|), rest))
  {
    hide Counted;
    if fraction == [] {
      assert integer + fraction == integer;
    } else {
      assert IsDigit(fraction[0]);
      DigitsRead(integer, fraction, rest, 0, true);
      assert ([DOT] + (fraction + rest))[1..] == fraction + rest;
    }
  }

  lemma SignRead(mark: Byte, sign: Bytes, digits: Bytes, rest: Bytes)
    requires mark == 0x65 || mark == 0x45
    requires (sign == [] || sign == [PLUS] || sign == [MINUS]) && digits != [] && IsDigit(digits[0])
    ensures var s := [mark] + (sign + (digits + rest));
            var power := ReadPower(digits + rest, 0);
            ReadExponent(s) == Some((if sign == [MINUS] then 0 - power.0 else power.0, power.1))
  {
    hide ReadPower;
    var s, after := [mark] + (sign + (digits + rest)), digits + rest;
    assert s[1..] == sign + after;
    if sign == [] {
      assert s[1..] == after;
    } else {
      assert s[2..] == after && s[1] == sign[0];
    }
  }

  lemma ExponentRead(p: Power, rest: Bytes)
    requires p.Power? ==> (p.sign == [] || p.sign == [PLUS] || p.sign == [MINUS]) && p.digits != [] && AllDigits(p.digits)
    requires !IsDigit(Peek(rest)) && (p.NoPower? ==> Peek(rest) != 0x65 && Peek(rest) != 0x45)
    ensures ReadExponent(PowerThen(p, rest)) == Some((ExponentOf(p), rest))
  {
    if p.Power? {
      assert [] + p.digits == p.digits && PowerOf([]) == 0;
      PowerRead([], p.digits, rest);
      hide ReadPower, PowerOf, ReadExponent;
      SignRead(if p.capital then 0x45 else 0x65, p.sign, p.digits, rest);
    }
  }

  lemma UnsignedReads(n: NumberText, rest: Bytes)
    requires IsNumber(n) && Ends(n, rest)
    ensures ReadUnsigned(UnsignedThen(n, rest)) == if Finite(Magnitude(n)) then Some((Magnitude(n), rest)) else None
  {
    hide Finite, Scaled, Tens, ReadInteger, ReadFraction, ReadExponent, FractionThen, PowerThen, NumberOf, Significant, ExponentOf,
         Ends;
    var afterFraction := PowerThen(n.power, rest);
    NothingMore(n, rest);
    IntegerRead(n.integer, FractionThen(n.fraction, afterFraction));
    FractionRead(n.integer, n.fraction, afterFraction);
    EndsIs(n, rest);
    ExponentRead(n.power, rest);
    var d := Counted(n.integer + n.fraction, |n.fraction|);
    ScaledIsTens(d.mantissa, d.exponent + ExponentOf(n.power));
  }

  lemma EndsIs(n: NumberText, rest: Bytes)
    requires Ends(n, rest)
    ensures !IsDigit(Peek(rest)) && (n.power.NoPower? ==> Peek(rest) != 0x65 && Peek(rest) != 0x45)
  {
  }

  /** Every number reads as its magnitude with its sign -- or, beyond what a double can hold, does not. */
  lemma NumberReads(n: NumberText, rest: Bytes)
    requires IsNumber(n) && Ends(n, rest)
    ensures ReadNumber(NumberThen(n, rest))
            == if Finite(Magnitude(n)) then Some((Number(if n.negative then -Magnitude(n) else Magnitude(n)), rest)) else None
    ensures IsDigit(Peek(UnsignedThen(n, rest)))
  {
    assert IsDigit(n.integer[0]);
    UnsignedReads(n, rest);
    hide Magnitude, Finite, ReadUnsigned;
    assert ([MINUS] + UnsignedThen(n, rest))[1..] == UnsignedThen(n, rest);
  }

  lemma NothingMore(n: NumberText, rest: Bytes)
    requires IsNumber(n) && Ends(n, rest)
    ensures var afterFraction := PowerThen(n.power, rest);
            && !IsDigit(Peek(afterFraction)) && (n.fraction == [] ==> Peek(afterFraction) != DOT)
            && !IsDigit(Peek(FractionThen(n.fraction, afterFraction)))
  {
  }

  lemma {:induction false} DigitsSplit(s: Bytes, d: Decimal, inFraction: bool) returns (digits: Bytes)
    ensures AllDigits(digits) && s == digits + ReadDigits(s, d, inFraction).1
    ensures IsDigit(Peek(s)) ==> digits != [] && digits[0] == s[0]
    decreases |s|
  {
    digits := [];
    if IsDigit(Peek(s)) {
      var more := DigitsSplit(s[1..], AddDigit(d, s[0] - ZERO, inFraction), inFraction);
      digits := [s[0]] + more;
    }
  }

  lemma {:induction false} PowerSplit(s: Bytes, e: nat) returns (digits: Bytes)
    ensures AllDigits(digits) && s == digits + ReadPower(s, e).1 && !IsDigit(Peek(ReadPower(s, e).1))
    ensures IsDigit(Peek(s)) ==> digits != []
    decreases |s|
  {
    digits := [];
    if IsDigit(Peek(s)) {
      var more := PowerSplit(s[1..], if e < 100000 then e * 10 + (s[0] - ZERO) else e);
      digits := [s[0]] + more;
    }
  }

  lemma IntegerSplit(s: Bytes) returns (integer: Bytes)
    requires ReadInteger(s).Some?
    ensures integer != [] && AllDigits(integer) && (|integer| == 1 || integer[0] != ZERO)
    ensures s == integer + ReadInteger(s).value.1 && !IsDigit(Peek(ReadInteger(s).value.1))
  {
    if s[0] == ZERO {
      integer := [ZERO];
      assert s == [ZERO] + s[1..];
    } else {
      integer := DigitsSplit(s, NOTHING_READ, false);
    }
  }

  lemma FractionSplit(s: Bytes, d: Decimal) returns (fraction: Bytes)
    requires ReadFraction(s, d).Some? && !IsDigit(Peek(s))
    ensures AllDigits(fraction) && s == FractionThen(fraction, ReadFraction(s, d).value.1)
    ensures var rest := ReadFraction(s, d).value.1; !IsDigit(Peek(rest)) && (fraction == [] ==> Peek(rest) != DOT)
  {
    fraction := [];
    if Peek(s) == DOT {
      fraction := DigitsSplit(s[1..], d, true);
      assert s == [DOT] + s[1..];
    }
  }

  lemma ExponentSplit(s: Bytes) returns (p: Power)
    requires ReadExponent(s).Some? && !IsDigit(Peek(s))
    ensures p.Power? ==> (p.sign == [] || p.sign == [PLUS] || p.sign == [MINUS]) && p.digits != [] && AllDigits(p.digits)
    ensures s == PowerThen(p, ReadExponent(s).value.1)
    ensures var rest := ReadExponent(s).value.1; !IsDigit(Peek(rest)) && (p.NoPower? ==> rest == s && Peek(s) != 0x65 && Peek(s) != 0x45)
  {
    p := NoPower;
    if Peek(s) == 0x65 || Peek(s) == 0x45 {
      var signed := Peek(s[1..]) == PLUS || Peek(s[1..]) == MINUS;
      var after := if signed then s[2..] else s[1..];
      var digits := PowerSplit(after, 0);
      p := Power(s[0] == 0x45, if signed then [s[1]] else [], digits);
      hide ReadPower;
      assert s == [s[0]] + s[1..];
      if signed {
        assert s[1..] == [s[1]] + after;
      } else {
        assert s[1..] == [] + after;
      }
    }
  }

  lemma NumberIsSpelled(s: Bytes) returns (n: NumberText)
    requires ReadNumber(s).Some?
    ensures IsNumber(n) && Ends(n, ReadNumber(s).value.1) && s == NumberThen(n, ReadNumber(s).value.1)
  {
    var negative := Peek(s) == MINUS;
    var unsigned := if negative then s[1..] else s;
    var integer := IntegerSplit(unsigned);
    var afterInteger := ReadInteger(unsigned).value;
    var fraction := FractionSplit(afterInteger.1, afterInteger.0);
    var afterFraction := ReadFraction(afterInteger.1, afterInteger.0).value;
    var power := ExponentSplit(afterFraction.1);
    n := NumberText(negative, integer, fraction, power);
    hide ReadInteger, ReadFraction, ReadExponent, Finite, Scaled, FractionThen, PowerThen;
    assert negative ==> s == [MINUS] + s[1..];
  }

  // --- Strings (section 7) ---

  /** A character as spelled: itself, a letter behind a backslash, or four hexadecimal digits behind \u. */
  datatype Char = Plain(b: Byte) | Short(letter: Byte) | Unit(hex: Bytes)

  predicate IsHex(b: Byte) { 0x30 <= b <= 0x39 || 0x41 <= b <= 0x46 || 0x61 <= b <= 0x66 }

  predicate IsChar(c: Char) {
    match c
    case Plain(b) => b >= 0x20 && b != QUOTE && b != BACKSLASH
    case Short(letter) => letter in [QUOTE, BACKSLASH, 0x2F, 0x62, 0x66, 0x6E, 0x72, 0x74]
    case Unit(hex) => |hex| == 4 && IsHex(hex[0]) && IsHex(hex[1]) && IsHex(hex[2]) && IsHex(hex[3])
  }

  function CharThen(c: Char, rest: Bytes): Bytes {
    match c
    case Plain(b) => [b] + rest
    case Short(letter) => [BACKSLASH, letter] + rest
    case Unit(hex) => [BACKSLASH, LOWER_U] + (hex + rest)
  }

  function CharsThen(chars: seq<Char>, rest: Bytes): Bytes {
    if chars == [] then rest else CharThen(chars[0], CharsThen(chars[1..], rest))
  }

  predicate AreChars(chars: seq<Char>) { forall i :: 0 <= i < |chars| ==> IsChar(chars[i]) }

  function HexOf(b: Byte): nat { if b <= 0x39 then Max(0, b - 0x30) else if b <= 0x46 then Max(0, b - 0x37) else Max(0, b - 0x57) }

  function CodeUnit(hex: Bytes): (u: nat)
    requires IsChar(Unit(hex))
    ensures u < 0x10000
  {
    HexOf(hex[0]) * 0x1000 + HexOf(hex[1]) * 0x100 + HexOf(hex[2]) * 0x10 + HexOf(hex[3])
  }

  /** The line and page controls have letters of their own. */
  function LetterMeans(letter: Byte): Byte {
    if letter == 0x62 then 8 else if letter == 0x66 then 12 else if letter == 0x6E then 10 else if letter == 0x72 then 13
    else if letter == 0x74 then 9 else letter
  }

  predicate High(u: nat) { 0xD800 <= u <= 0xDBFF }
  predicate Low(u: nat) { 0xDC00 <= u <= 0xDFFF }

  /** The bytes a string's characters stand for: two units that are a surrogate pair are one code point, and a surrogate
      without the other is U+FFFD. */
  function Means(chars: seq<Char>): Bytes
    requires AreChars(chars)
  {
    if chars == [] then []
    else
      assert IsChar(chars[0]);
      match chars[0]
      case Plain(b) => [b] + Means(chars[1..])
      case Short(letter) => [LetterMeans(letter)] + Means(chars[1..])
      case Unit(hex) =>
        var u := CodeUnit(hex);
        if High(u) && PairsWith(chars[1..]) then
          Utf8.Encode(0x10000 + (u - 0xD800) * 0x400 + (CodeUnit(chars[1].hex) - 0xDC00)) + Means(chars[2..])
        else Utf8.Encode(if High(u) || Low(u) then 0xFFFD else u) + Means(chars[1..])
  }

  /** A low surrogate comes next. */
  predicate PairsWith(chars: seq<Char>)
    requires AreChars(chars)
  {
    chars != [] && IsChar(chars[0]) && chars[0].Unit? && Low(CodeUnit(chars[0].hex))
  }

  lemma HexRead(hex: Bytes, rest: Bytes)
    requires IsChar(Unit(hex))
    ensures ReadHex4(hex + rest) == Some(CodeUnit(hex)) && (hex + rest)[4..] == rest
  {
    var s := hex + rest;
    assert s[0] == hex[0] && s[1] == hex[1] && s[2] == hex[2] && s[3] == hex[3];
    HexValueIs(hex[0]);
    HexValueIs(hex[1]);
    HexValueIs(hex[2]);
    HexValueIs(hex[3]);
    hide HexValue, HexOf;
  }

  lemma HexValueIs(b: Byte)
    requires IsHex(b)
    ensures HexValue(b) == Some(HexOf(b))
  {
  }

  /** Whether a low surrogate comes next can be told by the bytes. */
  lemma NextUnit(chars: seq<Char>, rest: Bytes)
    requires AreChars(chars)
    ensures var s := CharsThen(chars, [QUOTE] + rest);
            if PairsWith(chars) then
              && chars[0].Unit? && [BACKSLASH, LOWER_U] <= s && ReadHex4(s[2..]) == Some(CodeUnit(chars[0].hex))
              && s[6..] == CharsThen(chars[1..], [QUOTE] + rest)
            else !([BACKSLASH, LOWER_U] <= s && ReadHex4(s[2..]).Some? && Low(ReadHex4(s[2..]).value))
  {
    var s := CharsThen(chars, [QUOTE] + rest);
    if chars == [] {
      assert s[0] == QUOTE;
    } else {
      assert IsChar(chars[0]);
      var more := CharsThen(chars[1..], [QUOTE] + rest);
      match chars[0]
      case Plain(b) => assert s[0] == b;
      case Short(letter) => assert s[1] == letter;
      case Unit(hex) =>
        HexRead(hex, more);
        assert s[2..] == hex + more && s[6..] == more;
    }
    hide CharsThen, ReadHex4;
  }

  lemma UnitRead(hex: Bytes, chars: seq<Char>, rest: Bytes)
    requires IsChar(Unit(hex)) && AreChars(chars)
    ensures var u, s := CodeUnit(hex), CharsThen(chars, [QUOTE] + rest);
            ReadUnicode(hex + s)
            == if High(u) && PairsWith(chars) then
                 Some((Utf8.Encode(0x10000 + (u - 0xD800) * 0x400 + (CodeUnit(chars[0].hex) - 0xDC00)),
                       CharsThen(chars[1..], [QUOTE] + rest)))
               else Some((Utf8.Encode(if High(u) || Low(u) then 0xFFFD else u), s))
  {
    hide ReadHex4, CharsThen, CodeUnit, Utf8.Encode, ReadUnicode;
    var s := CharsThen(chars, [QUOTE] + rest);
    HexRead(hex, s);
    NextUnit(chars, rest);
    UnicodeIs(hex, s);
  }

  /** A second unit counts only where it completes a pair. */
  lemma UnicodeIs(hex: Bytes, s: Bytes)
    requires IsChar(Unit(hex)) && ReadHex4(hex + s) == Some(CodeUnit(hex)) && (hex + s)[4..] == s
    ensures var u := CodeUnit(hex);
            ReadUnicode(hex + s)
            == if High(u) && [BACKSLASH, LOWER_U] <= s && ReadHex4(s[2..]).Some? && Low(ReadHex4(s[2..]).value) then
                 Some((Utf8.Encode(0x10000 + (u - 0xD800) * 0x400 + (ReadHex4(s[2..]).value - 0xDC00)), s[6..]))
               else Some((Utf8.Encode(if High(u) || Low(u) then 0xFFFD else u), s))
  {
    hide CodeUnit, Utf8.Encode;
    var t := hex + s;
    if |s| >= 2 {
      assert t[6..] == s[2..];
      if ReadHex4(s[2..]).Some? {
        assert t[10..] == s[6..];
      }
    }
    hide ReadHex4;
  }

  lemma ShortRead(letter: Byte, s: Bytes)
    requires IsChar(Short(letter))
    ensures ReadEscape([letter] + s) == Some(([LetterMeans(letter)], s))
  {
    assert ([letter] + s)[1..] == s;
  }

  lemma PlainStep(b: Byte, s: Bytes, soFar: Bytes)
    requires IsChar(Plain(b))
    ensures ReadString([b] + s, soFar) == ReadString(s, soFar + [b])
  {
    assert ([b] + s)[1..] == s;
  }

  lemma ShortStep(letter: Byte, s: Bytes, soFar: Bytes)
    requires IsChar(Short(letter))
    ensures ReadString([BACKSLASH, letter] + s, soFar) == ReadString(s, soFar + [LetterMeans(letter)])
  {
    ShortRead(letter, s);
    assert ([BACKSLASH, letter] + s)[1..] == [letter] + s;
    hide ReadEscape, LetterMeans;
  }

  /** Every spelling of a string reads as what it means, with any text behind it. */
  lemma {:induction false} CharsRead(chars: seq<Char>, rest: Bytes, soFar: Bytes)
    requires AreChars(chars)
    ensures ReadString(CharsThen(chars, [QUOTE] + rest), soFar) == Some((soFar + Means(chars), rest))
    decreases |chars|, 1
  {
    hide ReadUnicode, ReadEscape, CodeUnit, LetterMeans, Utf8.Encode;
    if chars == [] {
      assert ([QUOTE] + rest)[1..] == rest && soFar + [] == soFar;
    } else {
      assert IsChar(chars[0]);
      hide ReadString;
      var more := CharsThen(chars[1..], [QUOTE] + rest);
      match chars[0]
      case Plain(b) =>
        PlainStep(b, more, soFar);
        CharsRead(chars[1..], rest, soFar + [b]);
        Seqs.Regroup3(soFar, [b], Means(chars[1..]));
      case Short(letter) =>
        ShortStep(letter, more, soFar);
        CharsRead(chars[1..], rest, soFar + [LetterMeans(letter)]);
        Seqs.Regroup3(soFar, [LetterMeans(letter)], Means(chars[1..]));
      case Unit(hex) =>
        UnitCharsRead(chars, rest, soFar);
    }
  }

  /** One unit, or two that are a pair, and what is left. */
  lemma UnitMeans(chars: seq<Char>, rest: Bytes) returns (bytes: Bytes, after: seq<Char>)
    requires AreChars(chars) && chars != [] && chars[0].Unit?
    ensures AreChars(after) && |after| < |chars| && Means(chars) == bytes + Means(after)
    ensures ReadUnicode(chars[0].hex + CharsThen(chars[1..], [QUOTE] + rest)) == Some((bytes, CharsThen(after, [QUOTE] + rest)))
  {
    hide CharsThen, ReadUnicode, CodeUnit, Utf8.Encode;
    assert IsChar(chars[0]);
    UnitRead(chars[0].hex, chars[1..], rest);
    var u, more := CodeUnit(chars[0].hex), chars[1..];
    MeansUnit(chars);
    if High(u) && PairsWith(more) {
      hide Means;
      assert more[1..] == chars[2..] && more[0] == chars[1];
      bytes, after := Utf8.Encode(0x10000 + (u - 0xD800) * 0x400 + (CodeUnit(chars[1].hex) - 0xDC00)), chars[2..];
    } else {
      hide Means;
      bytes, after := Utf8.Encode(if High(u) || Low(u) then 0xFFFD else u), more;
    }
  }

  lemma MeansUnit(chars: seq<Char>)
    requires AreChars(chars) && chars != [] && chars[0].Unit?
    ensures IsChar(chars[0])
    ensures var u := CodeUnit(chars[0].hex);
            if High(u) && PairsWith(chars[1..]) then
              && |chars| > 1 && chars[1].Unit? && IsChar(chars[1]) && Low(CodeUnit(chars[1].hex))
              && Means(chars)
                 == Utf8.Encode(0x10000 + (u - 0xD800) * 0x400 + (CodeUnit(chars[1].hex) - 0xDC00)) + Means(chars[2..])
            else Means(chars) == Utf8.Encode(if High(u) || Low(u) then 0xFFFD else u) + Means(chars[1..])
  {
    hide Utf8.Encode, CodeUnit;
  }

  lemma EscapedUnit(s: Bytes, soFar: Bytes)
    requires ReadUnicode(s).Some?
    ensures ReadString([BACKSLASH, LOWER_U] + s, soFar) == ReadString(ReadUnicode(s).value.1, soFar + ReadUnicode(s).value.0)
  {
    var t := [BACKSLASH, LOWER_U] + s;
    assert t[1..][0] == LOWER_U && t[1..][1..] == s;
    hide ReadUnicode;
  }

  lemma {:induction false} UnitCharsRead(chars: seq<Char>, rest: Bytes, soFar: Bytes)
    requires AreChars(chars) && chars != [] && chars[0].Unit?
    ensures ReadString(CharsThen(chars, [QUOTE] + rest), soFar) == Some((soFar + Means(chars), rest))
    decreases |chars|, 0
  {
    var bytes, after := UnitMeans(chars, rest);
    hide ReadUnicode, ReadString, Means;
    EscapedUnit(chars[0].hex + CharsThen(chars[1..], [QUOTE] + rest), soFar);
    CharsRead(after, rest, soFar + bytes);
    Seqs.Regroup3(soFar, bytes, Means(after));
  }

  lemma HexSplit(s: Bytes)
    requires ReadHex4(s).Some?
    ensures IsChar(Unit(s[..4])) && s == s[..4] + s[4..]
  {
  }

  /** Every text that reads as a string is a spelling of one. */
  lemma {:induction false} StringIsSpelled(s: Bytes, soFar: Bytes) returns (chars: seq<Char>)
    requires ReadString(s, soFar).Some?
    ensures AreChars(chars) && s == CharsThen(chars, [QUOTE] + ReadString(s, soFar).value.1)
    decreases |s|
  {
    if s[0] == QUOTE {
      chars := [];
      assert s == [QUOTE] + s[1..];
    } else if s[0] != BACKSLASH {
      var more := StringIsSpelled(s[1..], soFar + [s[0]]);
      chars := [Plain(s[0])] + more;
      assert chars[1..] == more && s == [s[0]] + s[1..];
    } else {
      var escape := ReadEscape(s[1..]).value;
      var more := StringIsSpelled(escape.1, soFar + escape.0);
      chars := EscapeIsSpelled(s[1..], more, ReadString(s, soFar).value.1);
      assert s == [BACKSLASH] + s[1..];
    }
  }

  lemma EscapeIsSpelled(s: Bytes, more: seq<Char>, rest: Bytes) returns (chars: seq<Char>)
    requires ReadEscape(s).Some? && AreChars(more) && ReadEscape(s).value.1 == CharsThen(more, [QUOTE] + rest)
    ensures AreChars(chars) && [BACKSLASH] + s == CharsThen(chars, [QUOTE] + rest)
  {
    if s[0] != LOWER_U {
      chars := [Short(s[0])] + more;
      assert chars[1..] == more && [BACKSLASH] + s == [BACKSLASH, s[0]] + s[1..];
    } else {
      var t := s[1..];
      HexSplit(t);
      var first := Unit(t[..4]);
      assert [BACKSLASH] + s == [BACKSLASH, LOWER_U] + (t[..4] + t[4..]);
      if ReadUnicode(t).value.1 == t[4..] {
        chars := [first] + more;
        assert chars[1..] == more;
      } else {
        HexSplit(t[6..]);
        var second := Unit(t[6..][..4]);
        assert t[4..] == [BACKSLASH, LOWER_U] + (t[6..][..4] + t[10..]) && t[6..][4..] == t[10..];
        chars := [first, second] + more;
        assert chars[1..] == [second] + more && chars[1..][1..] == more;
      }
    }
  }

  // --- Values, arrays and objects (sections 2 to 5) ---

  /** A value as spelled: white space may stand before and after every value and every key. */
  datatype Spelling =
    | Word(v: Value)
    | Numeral(n: NumberText)
    | Text(chars: seq<Char>)
    | List(inner: Bytes, items: seq<Item>)
    | Record(inner: Bytes, members: seq<Member>)

  datatype Item = Item(before: Bytes, value: Spelling, after: Bytes)
  datatype Member = Member(beforeKey: Bytes, key: seq<Char>, afterKey: Bytes, item: Item)

  predicate AllSpace(s: Bytes) { forall i :: 0 <= i < |s| ==> IsSpace(s[i]) }

  predicate IsSpelling(sp: Spelling) {
    match sp
    case Word(v) => v.Null? || v.Bool?
    case Numeral(n) => IsNumber(n) && Finite(Magnitude(n))
    case Text(chars) => AreChars(chars)
    case List(inner, items) =>
      && AllSpace(inner) && (items != [] ==> inner == [])
      && forall i :: 0 <= i < |items| ==> IsItem(items[i])
    case Record(inner, members) =>
      && AllSpace(inner) && (members != [] ==> inner == [])
      && forall i :: 0 <= i < |members| ==> IsMember(members[i])
  }

  predicate IsItem(it: Item) { AllSpace(it.before) && AllSpace(it.after) && IsSpelling(it.value) }

  predicate IsMember(m: Member) { AllSpace(m.beforeKey) && AreChars(m.key) && AllSpace(m.afterKey) && IsItem(m.item) }

  function WordText(v: Value): Bytes { if v == Null then NULL_TEXT else if v == Bool(true) then TRUE_TEXT else FALSE_TEXT }

  /** The text of a spelling, and what follows it. */
  function Then(sp: Spelling, rest: Bytes): Bytes
    decreases sp, 1
  {
    match sp
    case Word(v) => WordText(v) + rest
    case Numeral(n) => NumberThen(n, rest)
    case Text(chars) => [QUOTE] + CharsThen(chars, [QUOTE] + rest)
    case List(inner, items) => [OPEN_LIST] + if items == [] then inner + ([CLOSE_LIST] + rest) else ItemsThen(items, rest)
    case Record(inner, members) =>
      [OPEN_OBJECT] + if members == [] then inner + ([CLOSE_OBJECT] + rest) else MembersThen(members, rest)
  }

  function ItemThen(it: Item, rest: Bytes): Bytes
    decreases it, 2
  {
    it.before + Then(it.value, it.after + rest)
  }

  function ItemsThen(items: seq<Item>, rest: Bytes): Bytes
    requires items != []
    decreases items, 0
  {
    ItemThen(items[0], if |items| == 1 then [CLOSE_LIST] + rest else [COMMA] + ItemsThen(items[1..], rest))
  }

  function MembersThen(members: seq<Member>, rest: Bytes): Bytes
    requires members != []
    decreases members, 0
  {
    var m := members[0];
    m.beforeKey + ([QUOTE] + CharsThen(m.key, [QUOTE] + (m.afterKey + ([COLON] + ItemThen(m.item,
      if |members| == 1 then [CLOSE_OBJECT] + rest else [COMMA] + MembersThen(members[1..], rest))))))
  }

  function Meaning(sp: Spelling): Value
    requires IsSpelling(sp)
    decreases sp, 1
  {
    match sp
    case Word(v) => v
    case Numeral(n) => Number(if n.negative then -Magnitude(n) else Magnitude(n))
    case Text(chars) => String(Means(chars))
    case List(_, items) => Array(ItemsMean(items))
    case Record(_, members) => MembersMean(members, Object([], []))
  }

  function ItemsMean(items: seq<Item>): seq<Value>
    requires forall i :: 0 <= i < |items| ==> IsItem(items[i])
    decreases items, 0
  {
    if items == [] then []
    else
      assert IsItem(items[0]);
      [Meaning(items[0].value)] + ItemsMean(items[1..])
  }

  /** One member after the other: the last one of a key counts, where the first stood. */
  function MembersMean(members: seq<Member>, soFar: Value): (v: Value)
    requires (forall i :: 0 <= i < |members| ==> IsMember(members[i])) && soFar.Object? && |soFar.keys| == |soFar.members|
    ensures v.Object? && |v.keys| == |v.members|
    decreases members, 0
  {
    if members == [] then soFar
    else
      assert IsMember(members[0]) && IsItem(members[0].item);
      MembersMean(members[1..], SetMember(soFar, Means(members[0].key), Meaning(members[0].item.value)))
  }

  function DepthOf(sp: Spelling): nat
    decreases sp, 1
  {
    match sp
    case List(_, items) => 1 + ItemsDepth(items)
    case Record(_, members) => 1 + MembersDepth(members)
    case _ => 0
  }

  function ItemsDepth(items: seq<Item>): nat
    decreases items, 0
  {
    if items == [] then 0 else Max(DepthOf(items[0].value), ItemsDepth(items[1..]))
  }

  function MembersDepth(members: seq<Member>): nat
    decreases members, 0
  {
    if members == [] then 0 else Max(DepthOf(members[0].item.value), MembersDepth(members[1..]))
  }

  // --- Reading values ---

  lemma {:induction false} SkipSpace(space: Bytes, s: Bytes)
    requires AllSpace(space)
    ensures Skipped(space + s) == Skipped(s)
    decreases |space|
  {
    if space == [] {
      assert space + s == s;
    } else {
      assert IsSpace(space[0]) && (space + s)[1..] == space[1..] + s;
      SkipSpace(space[1..], s);
    }
  }

  lemma NothingToSkip(s: Bytes)
    requires s != [] && !IsSpace(s[0])
    ensures Skipped(s) == s
  {
  }

  /** No value starts with white space. */
  lemma StartsVisibly(sp: Spelling, rest: Bytes)
    requires IsSpelling(sp)
    ensures Then(sp, rest) != [] && !IsSpace(Then(sp, rest)[0]) && Then(sp, rest)[0] != CLOSE_LIST
  {
    if sp.Numeral? {
      assert IsDigit(sp.n.integer[0]);
    }
    hide ItemsThen, MembersThen, CharsThen, Finite, Magnitude;
  }

  lemma NumberEnds(n: NumberText, after: Bytes, tail: Bytes)
    requires AllSpace(after) && (Peek(tail) == COMMA || Peek(tail) == CLOSE_LIST || Peek(tail) == CLOSE_OBJECT)
    ensures Ends(n, after + tail)
  {
    if after != [] {
      assert IsSpace(after[0]) && (after + tail)[0] == after[0];
    } else {
      assert after + tail == tail;
    }
  }

  lemma WordReads(v: Value, rest: Bytes, level: nat, maxDepth: nat)
    requires v.Null? || v.Bool?
    ensures ReadValue(WordText(v) + rest, level, maxDepth) == Some((v, rest))
  {
    var word := WordText(v);
    assert word <= word + rest && (word + rest)[|word|..] == rest;
    hide ReadItems, ReadMembers, ReadString, ReadNumber;
  }

  lemma NumeralReads(n: NumberText, rest: Bytes, level: nat, maxDepth: nat)
    requires IsNumber(n) && Finite(Magnitude(n)) && Ends(n, rest)
    ensures ReadValue(NumberThen(n, rest), level, maxDepth)
            == Some((Number(if n.negative then -Magnitude(n) else Magnitude(n)), rest))
  {
    NumberReads(n, rest);
    hide ReadItems, ReadMembers, ReadString, ReadNumber, Finite, Magnitude, UnsignedThen;
  }

  lemma TextReads(chars: seq<Char>, rest: Bytes, level: nat, maxDepth: nat)
    requires AreChars(chars)
    ensures ReadValue([QUOTE] + CharsThen(chars, [QUOTE] + rest), level, maxDepth) == Some((String(Means(chars)), rest))
  {
    CharsRead(chars, rest, []);
    var s := CharsThen(chars, [QUOTE] + rest);
    assert ([QUOTE] + s)[1..] == s && [] + Means(chars) == Means(chars);
    hide ReadItems, ReadMembers, ReadString, ReadNumber, CharsThen, Means;
  }

  /** What each bracket does. */
  lemma ListOpens(s: Bytes, level: nat, maxDepth: nat)
    requires level + 1 <= maxDepth
    ensures var inside := Skipped(s);
            ReadValue([OPEN_LIST] + s, level, maxDepth)
            == if Peek(inside) == CLOSE_LIST then Some((Array([]), inside[1..])) else ReadItems(inside, [], level + 1, maxDepth)
  {
    assert ([OPEN_LIST] + s)[1..] == s;
    hide ReadItems, ReadMembers, ReadString, ReadNumber;
  }

  lemma RecordOpens(s: Bytes, level: nat, maxDepth: nat)
    requires level + 1 <= maxDepth
    ensures var inside := Skipped(s);
            ReadValue([OPEN_OBJECT] + s, level, maxDepth)
            == if Peek(inside) == CLOSE_OBJECT then Some((Object([], []), inside[1..]))
               else ReadMembers(inside, Object([], []), level + 1, maxDepth)
  {
    assert ([OPEN_OBJECT] + s)[1..] == s;
    hide ReadItems, ReadMembers, ReadString, ReadNumber;
  }

  /** Every spelling of a value reads as what it means. */
  lemma {:induction false} ValueReads(sp: Spelling, rest: Bytes, level: nat, maxDepth: nat)
    requires IsSpelling(sp) && level + DepthOf(sp) <= maxDepth && (sp.Numeral? ==> Ends(sp.n, rest))
    ensures ReadValue(Then(sp, rest), level, maxDepth) == Some((Meaning(sp), rest))
    decreases sp, 2
  {
    hide ReadValue, ReadItems, ReadMembers, Skipped, Magnitude, Finite, CharsThen, Means;
    match sp
    case Word(v) => WordReads(v, rest, level, maxDepth);
    case Numeral(n) => NumeralReads(n, rest, level, maxDepth);
    case Text(chars) => TextReads(chars, rest, level, maxDepth);
    case List(inner, items) =>
      if items == [] {
        EmptyReads(inner, rest, level, maxDepth);
      } else {
        ListReads(items, rest, level, maxDepth);
      }
    case Record(inner, members) =>
      if members == [] {
        EmptyReads(inner, rest, level, maxDepth);
      } else {
        RecordReads(members, rest, level, maxDepth);
      }
  }

  lemma EmptyReads(inner: Bytes, rest: Bytes, level: nat, maxDepth: nat)
    requires AllSpace(inner) && level + 1 <= maxDepth
    ensures ReadValue([OPEN_LIST] + (inner + ([CLOSE_LIST] + rest)), level, maxDepth) == Some((Array([]), rest))
    ensures ReadValue([OPEN_OBJECT] + (inner + ([CLOSE_OBJECT] + rest)), level, maxDepth) == Some((Object([], []), rest))
  {
    hide ReadValue, ReadItems, ReadMembers, Skipped, AllSpace;
    ListOpens(inner + ([CLOSE_LIST] + rest), level, maxDepth);
    SkipSpace(inner, [CLOSE_LIST] + rest);
    NothingToSkip([CLOSE_LIST] + rest);
    RecordOpens(inner + ([CLOSE_OBJECT] + rest), level, maxDepth);
    SkipSpace(inner, [CLOSE_OBJECT] + rest);
    NothingToSkip([CLOSE_OBJECT] + rest);
    assert ([CLOSE_LIST] + rest)[1..] == rest && ([CLOSE_OBJECT] + rest)[1..] == rest;
  }

  lemma {:induction false} ListReads(items: seq<Item>, rest: Bytes, level: nat, maxDepth: nat)
    requires items != [] && (forall i :: 0 <= i < |items| ==> IsItem(items[i])) && level + 1 + ItemsDepth(items) <= maxDepth
    ensures ReadValue([OPEN_LIST] + ItemsThen(items, rest), level, maxDepth) == Some((Array(ItemsMean(items)), rest))
    decreases items, 4
  {
    hide ReadValue, ReadItems, ReadMembers, Skipped, Then;
    var s := ItemsThen(items, rest);
    ListOpens(s, level, maxDepth);
    ItemsRead(items, rest, [], level + 1, maxDepth);
    ItemsSkip(items, rest);
    hide ItemsThen;
    SkippedItems(s, [], level + 1, maxDepth);
    assert [] + ItemsMean(items) == ItemsMean(items);
  }

  /** The first item's text does not close the list. */
  lemma ItemsSkip(items: seq<Item>, rest: Bytes)
    requires items != [] && IsItem(items[0])
    ensures Skipped(ItemsThen(items, rest)) != [] && Peek(Skipped(ItemsThen(items, rest))) != CLOSE_LIST
  {
    hide Skipped, Then, IsSpelling;
    var it := items[0];
    var tail := if |items| == 1 then [CLOSE_LIST] + rest else [COMMA] + ItemsThen(items[1..], rest);
    SkipSpace(it.before, Then(it.value, it.after + tail));
    StartsVisibly(it.value, it.after + tail);
    NothingToSkip(Then(it.value, it.after + tail));
  }

  lemma SkippedItems(s: Bytes, soFar: seq<Value>, level: nat, maxDepth: nat)
    ensures ReadItems(Skipped(s), soFar, level, maxDepth) == ReadItems(s, soFar, level, maxDepth)
  {
    SkippedTwice(s);
    hide ReadValue;
  }

  /** One item read, and what follows it. */
  lemma {:induction false} ItemReads(it: Item, tail: Bytes, level: nat, maxDepth: nat)
    requires IsItem(it) && level + DepthOf(it.value) <= maxDepth
    requires tail != [] && (tail[0] == COMMA || tail[0] == CLOSE_LIST || tail[0] == CLOSE_OBJECT)
    ensures var r := ReadValue(Skipped(ItemThen(it, tail)), level, maxDepth);
            r == Some((Meaning(it.value), it.after + tail)) && Skipped(it.after + tail) == tail
    decreases it, 3
  {
    hide ReadValue, Skipped, IsSpelling, Then, Meaning;
    StartsVisibly(it.value, it.after + tail);
    SkipSpace(it.before, Then(it.value, it.after + tail));
    NothingToSkip(Then(it.value, it.after + tail));
    if it.value.Numeral? {
      NumberEnds(it.value.n, it.after, tail);
    }
    ValueReads(it.value, it.after + tail, level, maxDepth);
    SkipSpace(it.after, tail);
    NothingToSkip(tail);
  }

  lemma ItemsStep(s: Bytes, soFar: seq<Value>, level: nat, maxDepth: nat, v: Value, after: Bytes)
    requires ReadValue(Skipped(s), level, maxDepth) == Some((v, after))
    ensures var next := Skipped(after);
            ReadItems(s, soFar, level, maxDepth)
            == if Peek(next) == CLOSE_LIST then Some((Array(soFar + [v]), next[1..]))
               else if Peek(next) == COMMA then ReadItems(next[1..], soFar + [v], level, maxDepth)
               else None
  {
    hide ReadValue, Skipped;
  }

  lemma {:induction false} ItemsRead(items: seq<Item>, rest: Bytes, soFar: seq<Value>, level: nat, maxDepth: nat)
    requires items != [] && (forall i :: 0 <= i < |items| ==> IsItem(items[i])) && level + ItemsDepth(items) <= maxDepth
    ensures ReadItems(ItemsThen(items, rest), soFar, level, maxDepth) == Some((Array(soFar + ItemsMean(items)), rest))
    decreases items, 3
  {
    hide ReadValue, ReadItems, Skipped, IsSpelling, ItemThen, Meaning, ItemsMean, DepthOf;
    var it := items[0];
    assert IsItem(it);
    var tail := if |items| == 1 then [CLOSE_LIST] + rest else [COMMA] + ItemsThen(items[1..], rest);
    MeansFirst(items, soFar);
    ItemReads(it, tail, level, maxDepth);
    ItemsStep(ItemsThen(items, rest), soFar, level, maxDepth, Meaning(it.value), it.after + tail);
    hide IsItem, ItemsThen;
    if |items| == 1 {
      assert tail[1..] == rest;
    } else {
      assert tail[1..] == ItemsThen(items[1..], rest);
      ItemsRead(items[1..], rest, soFar + [Meaning(it.value)], level, maxDepth);
    }
  }

  lemma MeansFirst(items: seq<Item>, soFar: seq<Value>)
    requires items != [] && forall i :: 0 <= i < |items| ==> IsItem(items[i])
    ensures IsItem(items[0]) && IsSpelling(items[0].value)
    ensures soFar + ItemsMean(items) == soFar + [Meaning(items[0].value)] + ItemsMean(items[1..])
    ensures |items| == 1 ==> soFar + ItemsMean(items) == soFar + [Meaning(items[0].value)]
  {
    hide Meaning, IsSpelling;
    var m, rest := [Meaning(items[0].value)], ItemsMean(items[1..]);
    assert ItemsMean(items) == m + rest;
    OnlyItem(items);
    hide ItemsMean;
    Seqs.Regroup3(soFar, m, rest);
    if rest == [] {
      assert m + [] == m;
    }
  }

  lemma OnlyItem(items: seq<Item>)
    requires items != [] && forall i :: 0 <= i < |items| ==> IsItem(items[i])
    ensures |items| == 1 ==> ItemsMean(items[1..]) == []
  {
    hide Meaning, IsSpelling;
  }

  lemma {:induction false} RecordReads(members: seq<Member>, rest: Bytes, level: nat, maxDepth: nat)
    requires members != [] && (forall i :: 0 <= i < |members| ==> IsMember(members[i]))
    requires level + 1 + MembersDepth(members) <= maxDepth
    ensures ReadValue([OPEN_OBJECT] + MembersThen(members, rest), level, maxDepth)
            == Some((MembersMean(members, Object([], [])), rest))
    decreases members, 4
  {
    hide ReadValue, ReadItems, ReadMembers, Skipped, Then;
    var s := MembersThen(members, rest);
    RecordOpens(s, level, maxDepth);
    MembersRead(members, rest, Object([], []), level + 1, maxDepth);
    MembersSkip(members, rest);
    hide MembersThen;
    SkippedMembers(s, Object([], []), level + 1, maxDepth);
  }

  lemma MembersSkip(members: seq<Member>, rest: Bytes)
    requires members != [] && IsMember(members[0])
    ensures Peek(Skipped(MembersThen(members, rest))) == QUOTE
  {
    hide Skipped, Then, ItemThen, CharsThen;
    var m := members[0];
    var tail := if |members| == 1 then [CLOSE_OBJECT] + rest else [COMMA] + MembersThen(members[1..], rest);
    var key := [QUOTE] + CharsThen(m.key, [QUOTE] + (m.afterKey + ([COLON] + ItemThen(m.item, tail))));
    SkipSpace(m.beforeKey, key);
    NothingToSkip(key);
  }

  lemma SkippedMembers(s: Bytes, soFar: Value, level: nat, maxDepth: nat)
    requires soFar.Object? && |soFar.keys| == |soFar.members|
    ensures ReadMembers(Skipped(s), soFar, level, maxDepth) == ReadMembers(s, soFar, level, maxDepth)
  {
    SkippedTwice(s);
    hide ReadValue, ReadString;
  }

  /** One key read, and its value. */
  lemma MembersStep(s: Bytes, soFar: Value, level: nat, maxDepth: nat, key: Bytes, afterKey: Bytes, v: Value, after: Bytes)
    requires soFar.Object? && |soFar.keys| == |soFar.members|
    requires Peek(Skipped(s)) == QUOTE && ReadString(Skipped(s)[1..], []) == Some((key, afterKey))
    requires Peek(Skipped(afterKey)) == COLON && ReadValue(Skipped(Skipped(afterKey)[1..]), level, maxDepth) == Some((v, after))
    ensures var next, o := Skipped(after), SetMember(soFar, key, v);
            ReadMembers(s, soFar, level, maxDepth)
            == if Peek(next) == CLOSE_OBJECT then Some((o, next[1..]))
               else if Peek(next) == COMMA then ReadMembers(next[1..], o, level, maxDepth)
               else None
  {
    hide ReadValue, Skipped, ReadString, SetMember;
  }

  lemma KeyReads(m: Member, tail: Bytes)
    requires IsMember(m)
    ensures var s := m.beforeKey + ([QUOTE] + CharsThen(m.key, [QUOTE] + (m.afterKey + ([COLON] + tail))));
            var key := Skipped(s);
            && Peek(key) == QUOTE && ReadString(key[1..], []) == Some((Means(m.key), m.afterKey + ([COLON] + tail)))
            && Skipped(m.afterKey + ([COLON] + tail)) == [COLON] + tail
  {
    hide Skipped, CharsThen, ReadString, Means, IsItem;
    var after := m.afterKey + ([COLON] + tail);
    var key := [QUOTE] + CharsThen(m.key, [QUOTE] + after);
    SkipSpace(m.beforeKey, key);
    NothingToSkip(key);
    CharsRead(m.key, after, []);
    assert key[1..] == CharsThen(m.key, [QUOTE] + after) && [] + Means(m.key) == Means(m.key);
    SkipSpace(m.afterKey, [COLON] + tail);
    NothingToSkip([COLON] + tail);
  }

  lemma {:induction false} MembersRead(members: seq<Member>, rest: Bytes, soFar: Value, level: nat, maxDepth: nat)
    requires members != [] && (forall i :: 0 <= i < |members| ==> IsMember(members[i]))
    requires level + MembersDepth(members) <= maxDepth && soFar.Object? && |soFar.keys| == |soFar.members|
    ensures ReadMembers(MembersThen(members, rest), soFar, level, maxDepth) == Some((MembersMean(members, soFar), rest))
    decreases members, 3
  {
    hide ReadValue, ReadMembers, ReadString, Skipped, IsSpelling, ItemThen, CharsThen, Meaning, Means, SetMember;
    var m := members[0];
    assert IsMember(m) && IsItem(m.item);
    var tail := if |members| == 1 then [CLOSE_OBJECT] + rest else [COMMA] + MembersThen(members[1..], rest);
    KeyReads(m, ItemThen(m.item, tail));
    ItemReads(m.item, tail, level, maxDepth);
    assert ([COLON] + ItemThen(m.item, tail))[1..] == ItemThen(m.item, tail);
    MembersStep(MembersThen(members, rest), soFar, level, maxDepth, Means(m.key),
                m.afterKey + ([COLON] + ItemThen(m.item, tail)), Meaning(m.item.value), m.item.after + tail);
    if |members| == 1 {
      assert tail[1..] == rest;
    } else {
      assert tail[1..] == MembersThen(members[1..], rest);
      MembersRead(members[1..], rest, SetMember(soFar, Means(m.key), Meaning(m.item.value)), level, maxDepth);
    }
  }

  // --- Every text that is read is a spelling ---

  lemma {:induction false} LeadingSpace(s: Bytes) returns (space: Bytes)
    ensures AllSpace(space) && s == space + Skipped(s)
    decreases |s|
  {
    space := [];
    if s != [] && IsSpace(s[0]) {
      var more := LeadingSpace(s[1..]);
      space := [s[0]] + more;
    }
  }

  lemma {:induction false} ValueIsSpelled(s: Bytes, level: nat, maxDepth: nat) returns (sp: Spelling)
    requires level <= maxDepth && ReadValue(s, level, maxDepth).Some?
    ensures IsSpelling(sp) && level + DepthOf(sp) <= maxDepth && s == Then(sp, ReadValue(s, level, maxDepth).value.1)
    ensures sp.Numeral? ==> Ends(sp.n, ReadValue(s, level, maxDepth).value.1)
    decreases |s|, 2
  {
    if Peek(s) == OPEN_LIST {
      sp := ListIsSpelled(s, level, maxDepth);
    } else if Peek(s) == OPEN_OBJECT {
      sp := RecordIsSpelled(s, level, maxDepth);
    } else {
      sp := ScalarIsSpelled(s, level, maxDepth);
    }
  }

  lemma ScalarIsSpelled(s: Bytes, level: nat, maxDepth: nat) returns (sp: Spelling)
    requires ReadValue(s, level, maxDepth).Some? && Peek(s) != OPEN_LIST && Peek(s) != OPEN_OBJECT
    ensures IsSpelling(sp) && DepthOf(sp) == 0 && s == Then(sp, ReadValue(s, level, maxDepth).value.1)
    ensures sp.Numeral? ==> Ends(sp.n, ReadValue(s, level, maxDepth).value.1)
  {
    hide ReadItems, ReadMembers, ReadString, ReadNumber, Finite, Magnitude, CharsThen, NumberThen, Ends;
    var r := ReadValue(s, level, maxDepth).value;
    if Peek(s) == QUOTE {
      var chars := StringIsSpelled(s[1..], []);
      sp := Text(chars);
      assert s == [QUOTE] + s[1..];
    } else if Peek(s) == 0x74 || Peek(s) == 0x66 || Peek(s) == 0x6E {
      sp := Word(r.0);
      assert s == WordText(r.0) + r.1;
    } else {
      var n := NumberIsSpelled(s);
      NumberReads(n, r.1);
      sp := Numeral(n);
    }
  }

  lemma {:induction false} ListIsSpelled(s: Bytes, level: nat, maxDepth: nat) returns (sp: Spelling)
    requires level <= maxDepth && ReadValue(s, level, maxDepth).Some? && Peek(s) == OPEN_LIST
    ensures sp.List? && IsSpelling(sp) && level + DepthOf(sp) <= maxDepth && s == Then(sp, ReadValue(s, level, maxDepth).value.1)
    decreases |s|, 1
  {
    var inside := Skipped(s[1..]);
    var space := LeadingSpace(s[1..]);
    assert s == [OPEN_LIST] + (space + inside);
    if Peek(inside) == CLOSE_LIST {
      sp := List(space, []);
      assert inside == [CLOSE_LIST] + inside[1..];
    } else {
      var items := ItemsAreSpelled(inside, [], level + 1, maxDepth);
      var more := ItemsBehind(space, items, ReadValue(s, level, maxDepth).value.1);
      sp := List([], more);
      hide ReadItems, Skipped;
    }
  }

  lemma ItemsBehind(space: Bytes, items: seq<Item>, rest: Bytes) returns (more: seq<Item>)
    requires AllSpace(space) && items != [] && forall i :: 0 <= i < |items| ==> IsItem(items[i])
    ensures more != [] && forall i :: 0 <= i < |more| ==> IsItem(more[i])
    ensures ItemsThen(more, rest) == space + ItemsThen(items, rest) && ItemsDepth(more) == ItemsDepth(items)
  {
    var first := items[0].(before := space + items[0].before);
    assert IsItem(items[0]);
    more := [first] + items[1..];
    assert more[1..] == items[1..];
    hide Then, DepthOf;
    var tail := if |items| == 1 then [CLOSE_LIST] + rest else [COMMA] + ItemsThen(items[1..], rest);
    Seqs.Regroup3(space, items[0].before, Then(first.value, first.after + tail));
  }

  lemma {:induction false} ItemIsSpelled(s: Bytes, level: nat, maxDepth: nat) returns (it: Item)
    requires level <= maxDepth && ReadValue(Skipped(s), level, maxDepth).Some?
    ensures IsItem(it) && level + DepthOf(it.value) <= maxDepth
    ensures s == ItemThen(it, Skipped(ReadValue(Skipped(s), level, maxDepth).value.1))
    decreases |s|, 3
  {
    var before := LeadingSpace(s);
    var sp := ValueIsSpelled(Skipped(s), level, maxDepth);
    var after := LeadingSpace(ReadValue(Skipped(s), level, maxDepth).value.1);
    it := Item(before, sp, after);
    hide ReadValue, Skipped, IsSpelling, Then, DepthOf;
  }

  lemma {:induction false} ItemsAreSpelled(s: Bytes, soFar: seq<Value>, level: nat, maxDepth: nat) returns (items: seq<Item>)
    requires level <= maxDepth && ReadItems(s, soFar, level, maxDepth).Some?
    ensures items != [] && (forall i :: 0 <= i < |items| ==> IsItem(items[i])) && level + ItemsDepth(items) <= maxDepth
    ensures s == ItemsThen(items, ReadItems(s, soFar, level, maxDepth).value.1)
    decreases |s|, 4
  {
    hide ReadValue, Skipped, IsItem, ItemThen, DepthOf;
    var item := ReadValue(Skipped(s), level, maxDepth).value;
    var next := Skipped(item.1);
    var it := ItemIsSpelled(s, level, maxDepth);
    assert next == [next[0]] + next[1..];
    if Peek(next) == CLOSE_LIST {
      items := [it];
      OneItem(it);
    } else {
      var more := ItemsAreSpelled(next[1..], soFar + [item.0], level, maxDepth);
      items := [it] + more;
      assert items[1..] == more;
    }
  }

  lemma OneItem(it: Item)
    ensures ItemsDepth([it]) == DepthOf(it.value)
  {
    assert [it][1..] == [];
  }

  lemma {:induction false} RecordIsSpelled(s: Bytes, level: nat, maxDepth: nat) returns (sp: Spelling)
    requires level <= maxDepth && ReadValue(s, level, maxDepth).Some? && Peek(s) == OPEN_OBJECT
    ensures sp.Record? && IsSpelling(sp) && level + DepthOf(sp) <= maxDepth
    ensures s == Then(sp, ReadValue(s, level, maxDepth).value.1)
    decreases |s|, 1
  {
    hide ReadValue, ReadMembers, Skipped, IsMember, MembersThen, CharsThen, AllSpace;
    RecordFits(s, level, maxDepth);
    var inside := Skipped(s[1..]);
    var space := LeadingSpace(s[1..]);
    assert s == [OPEN_OBJECT] + s[1..];
    RecordOpens(s[1..], level, maxDepth);
    if Peek(inside) == CLOSE_OBJECT {
      sp := Record(space, []);
      assert inside == [CLOSE_OBJECT] + inside[1..];
    } else {
      var members := MembersAreSpelled(inside, Object([], []), level + 1, maxDepth);
      var more := MembersBehind(space, members, ReadValue(s, level, maxDepth).value.1);
      sp := Record([], more);
      NoSpace();
    }
  }

  lemma NoSpace()
    ensures AllSpace([])
  {
  }

  lemma RecordFits(s: Bytes, level: nat, maxDepth: nat)
    requires ReadValue(s, level, maxDepth).Some? && Peek(s) == OPEN_OBJECT
    ensures level + 1 <= maxDepth
  {
    hide ReadMembers;
  }

  lemma MembersBehind(space: Bytes, members: seq<Member>, rest: Bytes) returns (more: seq<Member>)
    requires AllSpace(space) && members != [] && forall i :: 0 <= i < |members| ==> IsMember(members[i])
    ensures more != [] && forall i :: 0 <= i < |more| ==> IsMember(more[i])
    ensures MembersThen(more, rest) == space + MembersThen(members, rest) && MembersDepth(more) == MembersDepth(members)
  {
    hide ItemThen, DepthOf, CharsThen;
    var m := members[0];
    assert IsMember(m);
    var first := m.(beforeKey := space + m.beforeKey);
    more := [first] + members[1..];
    assert more[1..] == members[1..];
    var tail := if |members| == 1 then [CLOSE_OBJECT] + rest else [COMMA] + MembersThen(members[1..], rest);
    var key := [QUOTE] + CharsThen(m.key, [QUOTE] + (m.afterKey + ([COLON] + ItemThen(m.item, tail))));
    Seqs.Regroup3(space, m.beforeKey, key);
  }

  lemma {:induction false} KeyIsSpelled(s: Bytes) returns (before: Bytes, key: seq<Char>, after: Bytes)
    requires Peek(Skipped(s)) == QUOTE && ReadString(Skipped(s)[1..], []).Some?
    ensures AllSpace(before) && AreChars(key) && AllSpace(after)
    ensures s == before + ([QUOTE] + CharsThen(key, [QUOTE] + (after + Skipped(ReadString(Skipped(s)[1..], []).value.1))))
  {
    hide ReadString, CharsThen, AllSpace, AreChars, Skipped;
    before := LeadingSpace(s);
    var quoted := AfterQuote(Skipped(s));
    key := StringIsSpelled(quoted, []);
    after := LeadingSpace(ReadString(quoted, []).value.1);
  }

  lemma AfterQuote(s: Bytes) returns (quoted: Bytes)
    requires Peek(s) == QUOTE
    ensures s != [] && quoted == s[1..] && s == [QUOTE] + quoted
  {
    quoted := s[1..];
  }

  lemma {:induction false} MembersAreSpelled(s: Bytes, soFar: Value, level: nat, maxDepth: nat) returns (members: seq<Member>)
    requires soFar.Object? && |soFar.keys| == |soFar.members| && level <= maxDepth && ReadMembers(s, soFar, level, maxDepth).Some?
    ensures members != [] && (forall i :: 0 <= i < |members| ==> IsMember(members[i])) && level + MembersDepth(members) <= maxDepth
    ensures s == MembersThen(members, ReadMembers(s, soFar, level, maxDepth).value.1)
    decreases |s|, 4
  {
    hide ReadValue, ReadString, Skipped, IsItem, ItemThen, DepthOf, CharsThen, SetMember, AllSpace, AreChars;
    var before, key, afterKey := KeyIsSpelled(s);
    var keyRead := ReadString(Skipped(s)[1..], []).value;
    var colon := Skipped(keyRead.1);
    var item := ReadValue(Skipped(colon[1..]), level, maxDepth).value;
    var next := Skipped(item.1);
    var it := ItemIsSpelled(colon[1..], level, maxDepth);
    var m := Member(before, key, afterKey, it);
    assert colon == [COLON] + colon[1..] && next == [next[0]] + next[1..];
    if Peek(next) == CLOSE_OBJECT {
      members := [m];
      OneMember(m);
    } else {
      var more := MembersAreSpelled(next[1..], SetMember(soFar, keyRead.0, item.0), level, maxDepth);
      members := [m] + more;
      assert members[1..] == more;
    }
  }

  lemma OneMember(m: Member)
    ensures MembersDepth([m]) == DepthOf(m.item.value)
  {
    assert [m][1..] == [];
  }

  // --- Whole texts ---

  /** s spells v: perhaps a byte order mark, white space, a spelling of v that nests no deeper than allowed, white space. */
  ghost predicate Spells(s: Bytes, v: Value, maxDepth: nat) {
    exists before: Bytes, sp: Spelling, after: Bytes :: SpelledAs(s, v, maxDepth, before, sp, after)
  }

  ghost predicate SpelledAs(s: Bytes, v: Value, maxDepth: nat, before: Bytes, sp: Spelling, after: Bytes) {
    && AllSpace(before) && AllSpace(after) && IsSpelling(sp) && DepthOf(sp) <= maxDepth && Meaning(sp) == v
    && (s == before + Then(sp, after) || s == [0xEF, 0xBB, 0xBF] + (before + Then(sp, after)))
  }

  lemma {:induction false} AllSkipped(s: Bytes)
    ensures Skipped(s) == [] <==> AllSpace(s)
    decreases |s|
  {
    if s != [] && IsSpace(s[0]) {
      AllSkipped(s[1..]);
      assert s == [s[0]] + s[1..];
    }
  }

  lemma NoMark(before: Bytes, sp: Spelling, after: Bytes)
    requires AllSpace(before) && IsSpelling(sp)
    ensures !([0xEF, 0xBB, 0xBF] <= before + Then(sp, after))
  {
    if before != [] {
      assert IsSpace(before[0]) && (before + Then(sp, after))[0] == before[0];
    } else {
      assert before + Then(sp, after) == Then(sp, after);
      FirstOfValue(sp, after);
    }
  }

  lemma FirstOfValue(sp: Spelling, rest: Bytes)
    requires IsSpelling(sp)
    ensures Then(sp, rest) != [] && Then(sp, rest)[0] != 0xEF
  {
    if sp.Numeral? {
      assert IsDigit(sp.n.integer[0]);
    }
    hide ItemsThen, MembersThen, CharsThen, Finite, Magnitude;
  }

  lemma SpelledReads(s: Bytes, v: Value, maxDepth: nat, before: Bytes, sp: Spelling, after: Bytes)
    requires SpelledAs(s, v, maxDepth, before, sp, after)
    ensures Parsed(s, maxDepth) == Some(v)
  {
    hide ReadValue, Skipped, IsSpelling, Then, Meaning, Ends, AllSpace;
    var text := before + Then(sp, after);
    NoMark(before, sp, after);
    assert ([0xEF, 0xBB, 0xBF] + text)[3..] == text;
    assert SkippedMark(s) == text;
    StartsVisibly(sp, after);
    SkipSpace(before, Then(sp, after));
    NothingToSkip(Then(sp, after));
    if sp.Numeral? {
      EndsAtSpace(sp.n, after);
    }
    ValueReads(sp, after, 0, maxDepth);
    AllSkipped(after);
  }

  lemma EndsAtSpace(n: NumberText, after: Bytes)
    requires AllSpace(after)
    ensures Ends(n, after)
  {
    if after != [] {
      assert IsSpace(after[0]);
    }
  }

  lemma ParsedIsSpelled(s: Bytes, maxDepth: nat)
    requires Parsed(s, maxDepth).Some?
    ensures Spells(s, Parsed(s, maxDepth).value, maxDepth)
  {
    hide ReadValue, Skipped, Then, IsSpelling, Meaning, DepthOf, Ends, AllSpace;
    var text := SkippedMark(s);
    MarkSplit(s);
    var before := LeadingSpace(text);
    var sp := ValueIsSpelled(Skipped(text), 0, maxDepth);
    var after := ReadValue(Skipped(text), 0, maxDepth).value.1;
    ValueReads(sp, after, 0, maxDepth);
    AllSkipped(after);
    assert SpelledAs(s, Meaning(sp), maxDepth, before, sp, after);
  }

  lemma MarkSplit(s: Bytes)
    ensures s == SkippedMark(s) || s == [0xEF, 0xBB, 0xBF] + SkippedMark(s)
  {
  }

  /** The parser accepts exactly the spellings of values, each with the value it means. */
  lemma ParsedIffSpelled(s: Bytes, v: Value, maxDepth: nat)
    ensures Parsed(s, maxDepth) == Some(v) <==> Spells(s, v, maxDepth)
  {
    hide Parsed, SpelledAs;
    if Parsed(s, maxDepth) == Some(v) {
      ParsedIsSpelled(s, maxDepth);
    }
    if Spells(s, v, maxDepth) {
      var before: Bytes, sp: Spelling, after: Bytes :| SpelledAs(s, v, maxDepth, before, sp, after);
      SpelledReads(s, v, maxDepth, before, sp, after);
    }
  }
}
