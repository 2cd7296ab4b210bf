/** JSON values and texts (src/json.cpp): what the writer writes and the reader reads, and that they undo each other.
    A text is a sequence of bytes. */
module Json {
  import opened Words
  import Utf8

  type Bytes = Utf8.Bytes

  const MAX_DEPTH: nat := 32
  const QUOTE: Byte := 0x22
  const BACKSLASH: Byte := 0x5C
  const COMMA: Byte := 0x2C
  const COLON: Byte := 0x3A
  const MINUS: Byte := 0x2D
  const PLUS: Byte := 0x2B
  const DOT: Byte := 0x2E
  const ZERO: Byte := 0x30
  const SPACE: Byte := 0x20
  const NEWLINE: Byte := 0x0A
  const RETURN: Byte := 0x0D
  const TAB: Byte := 0x09
  const OPEN_LIST: Byte := 0x5B
  const CLOSE_LIST: Byte := 0x5D
  const OPEN_OBJECT: Byte := 0x7B
  const CLOSE_OBJECT: Byte := 0x7D
  const LOWER_U: Byte := 0x75
  const NULL_TEXT: Bytes := [0x6E, 0x75, 0x6C, 0x6C]
  const TRUE_TEXT: Bytes := [0x74, 0x72, 0x75, 0x65]
  const FALSE_TEXT: Bytes := [0x66, 0x61, 0x6C, 0x73, 0x65]

  /** Objects keep their members in order, keys and items in parallel. */
  datatype Value =
    | Null
    | Bool(bool_: bool)
    | Number(number: real)
    | String(bytes: Bytes)
    | Array(items: seq<Value>)
    | Object(keys: seq<Bytes>, members: seq<Value>)

  function Nesting(v: Value): nat {
    match v
    case Array(items) => 1 + Deepest(items)
    case Object(_, members) => 1 + Deepest(members)
    case _ => 0
  }

  function Deepest(vs: seq<Value>): nat {
    if vs == [] then 0 else Max(Nesting(vs[0]), Deepest(vs[1..]))
  }

  /** Objects are objects: as many items as keys, and no key twice. */
  predicate WellFormed(v: Value) {
    match v
    case Array(items) => forall i :: 0 <= i < |items| ==> WellFormed(items[i])
    case Object(keys, members) =>
      && |keys| == |members| && DistinctKeys(keys)
      && forall i :: 0 <= i < |members| ==> WellFormed(members[i])
    case _ => true
  }

  predicate DistinctKeys(keys: seq<Bytes>) {
    forall i, j :: 0 <= i < j < |keys| ==> keys[i] != keys[j]
  }

  const INTEGER_LIMIT: nat := 1_000_000_000_000_000

  predicate PlainNumber(x: real) {
    x == x.Floor as real && -(INTEGER_LIMIT as int) < x.Floor < INTEGER_LIMIT
  }

  /** Every number is an integer below 10^15 in magnitude. */
  predicate Plain(v: Value) {
    match v
    case Number(x) => PlainNumber(x)
    case Array(items) => forall i :: 0 <= i < |items| ==> Plain(items[i])
    case Object(_, members) => forall i :: 0 <= i < |members| ==> Plain(members[i])
    case _ => true
  }

  // --- Writing ---

  function Spaces(n: nat): Bytes { seq(n, _ => SPACE) }

  function Indent(pretty: bool, depth: nat): Bytes {
    if pretty then [NEWLINE] + Spaces(2 * depth) else []
  }

  function HexDigit(n: nat): Byte
    requires n < 16
  {
    if n < 10 then 0x30 + n else 0x61 + n - 10
  }

  function Escaped(b: Byte): Bytes {
    if b == QUOTE then [BACKSLASH, QUOTE]
    else if b == BACKSLASH then [BACKSLASH, BACKSLASH]
    else if b == NEWLINE then [BACKSLASH, 0x6E]
    else if b == RETURN then [BACKSLASH, 0x72]
    else if b == TAB then [BACKSLASH, 0x74]
    else if b < 0x20 || b == 0x7F then [BACKSLASH, LOWER_U, ZERO, ZERO, HexDigit(b / 16), HexDigit(b % 16)]
    else [b]
  }

  function EscapedAll(bytes: Bytes): Bytes {
    if bytes == [] then [] else Escaped(bytes[0]) + EscapedAll(bytes[1..])
  }

  function Quoted(bytes: Bytes): Bytes { [QUOTE] + EscapedAll(bytes) + [QUOTE] }

  function Digits(n: nat): (s: Bytes)
    ensures |s| > 0
  {
    if n < 10 then [ZERO + n] else Digits(n / 10) + [ZERO + n % 10]
  }

  function Formatted(x: real): Bytes
    requires PlainNumber(x)
  {
    if x.Floor < 0 then [MINUS] + Digits(-x.Floor) else Digits(x.Floor)
  }

  function Written(v: Value, pretty: bool, depth: nat): Bytes
    requires Plain(v) && WellFormed(v)
    decreases v, 1
  {
    match v
    case Null => NULL_TEXT
    case Bool(b) => if b then TRUE_TEXT else FALSE_TEXT
    case Number(x) => Formatted(x)
    case String(bytes) => Quoted(bytes)
    case Array(items) =>
      [OPEN_LIST] + WrittenItems(items, pretty, depth + 1) + (if items != [] then Indent(pretty, depth) else []) + [CLOSE_LIST]
    case Object(keys, members) =>
      [OPEN_OBJECT] + WrittenMembers(keys, members, pretty, depth + 1) + (if keys != [] then Indent(pretty, depth) else [])
      + [CLOSE_OBJECT]
  }

  function WrittenItems(items: seq<Value>, pretty: bool, depth: nat): Bytes
    requires forall i :: 0 <= i < |items| ==> Plain(items[i]) && WellFormed(items[i])
    decreases items, 0
  {
    if items == [] then []
    else Indent(pretty, depth) + Written(items[0], pretty, depth)
         + (if |items| == 1 then [] else [COMMA] + WrittenItems(items[1..], pretty, depth))
  }

  function Colon(pretty: bool): Bytes { if pretty then [COLON, SPACE] else [COLON] }

  function WrittenMembers(keys: seq<Bytes>, members: seq<Value>, pretty: bool, depth: nat): Bytes
    requires |keys| == |members| && forall i :: 0 <= i < |members| ==> Plain(members[i]) && WellFormed(members[i])
    decreases members, 0
  {
    if members == [] then []
    else Indent(pretty, depth) + Quoted(keys[0]) + Colon(pretty) + Written(members[0], pretty, depth)
         + (if |members| == 1 then [] else [COMMA] + WrittenMembers(keys[1..], members[1..], pretty, depth))
  }

  function Serialized(v: Value, pretty: bool): Bytes
    requires Plain(v) && WellFormed(v)
  {
    Written(v, pretty, 0)
  }

  // --- Reading: what is read, and what is left ---

  type Read<T> = Option<(T, Bytes)>

  predicate IsSpace(b: Byte) { b == SPACE || b == TAB || b == NEWLINE || b == RETURN }

  function Skipped(s: Bytes): (rest: Bytes)
    ensures |rest| <= |s| && (rest != [] ==> !IsSpace(rest[0]))
  {
    if s != [] && IsSpace(s[0]) then Skipped(s[1..]) else s
  }

  predicate IsDigit(b: Byte) { ZERO <= b <= 0x39 }

  /** The first byte, or 0 at the end. */
  function Peek(s: Bytes): Byte { if s == [] then 0 else s[0] }

  function Literal(s: Bytes, literal: Bytes, v: Value): Read<Value> {
    if literal <= s then Some((v, s[|literal|..])) else None
  }

  /** Digits read so far: mantissa * 10^exponent, with 17 of them at most that count. */
  datatype Decimal = Decimal(mantissa: nat, exponent: int, significant: nat)
  const NOTHING_READ := Decimal(0, 0, 0)

  function AddDigit(d: Decimal, digit: nat, fraction: bool): Decimal {
    if d.significant < 17 then
      var mantissa := d.mantissa * 10 + digit;
      Decimal(mantissa, if fraction then d.exponent - 1 else d.exponent,
              if mantissa != 0 then d.significant + 1 else d.significant)
    else if fraction then d
    else d.(exponent := d.exponent + 1)
  }

  function ReadDigits(s: Bytes, d: Decimal, fraction: bool): (r: (Decimal, Bytes))
    ensures |r.1| <= |s| && !IsDigit(Peek(r.1))
  {
    if IsDigit(Peek(s)) then ReadDigits(s[1..], AddDigit(d, s[0] - ZERO, fraction), fraction) else (d, s)
  }

  function ReadInteger(s: Bytes): (r: Read<Decimal>)
    ensures r.Some? ==> |r.value.1| < |s|
  {
    if !IsDigit(Peek(s)) then None
    else if s[0] == ZERO then (if IsDigit(Peek(s[1..])) then None else Some((NOTHING_READ, s[1..])))
    else Some(ReadDigits(s, NOTHING_READ, false))
  }

  function ReadFraction(s: Bytes, d: Decimal): (r: Read<Decimal>)
    ensures r.Some? ==> |r.value.1| <= |s|
  {
    if Peek(s) != DOT then Some((d, s))
    else if !IsDigit(Peek(s[1..])) then None
    else Some(ReadDigits(s[1..], d, true))
  }

  /** Exponents past 100000 all mean the same: out of range. */
  function ReadPower(s: Bytes, e: nat): (r: (nat, Bytes))
    ensures |r.1| <= |s|
  {
    if IsDigit(Peek(s)) then ReadPower(s[1..], if e < 100000 then e * 10 + (s[0] - ZERO) else e) else (e, s)
  }

  function ReadExponent(s: Bytes): (r: Read<int>)
    ensures r.Some? ==> |r.value.1| <= |s|
  {
    if Peek(s) != 0x65 && Peek(s) != 0x45 then Some((0, s))
    else
      var signed := Peek(s[1..]) == PLUS || Peek(s[1..]) == MINUS;
      var digits := if signed then s[2..] else s[1..];
      if !IsDigit(Peek(digits)) then None
      else
        var power: (int, Bytes) := ReadPower(digits, 0);
        Some((if signed && s[1] == MINUS then 0 - power.0 else power.0, power.1))
  }

  function Pow10(n: nat): real { if n == 0 then 1.0 else 10.0 * Pow10(n - 1) }

  lemma Pow10Positive(n: nat)
    ensures Pow10(n) > 0.0
  {
  }

  function Scaled(mantissa: nat, exponent: int): real {
    if exponent >= 0 then mantissa as real * Pow10(exponent)
    else
      Pow10Positive(-exponent);
      mantissa as real / Pow10(-exponent)
  }

  /** 2^1024: what a double cannot hold. */
  function TwoTo(n: nat): real { if n == 0 then 1.0 else 2.0 * TwoTo(n - 1) }

  predicate Finite(x: real) { x < TwoTo(1024) - TwoTo(970) }

  function ReadUnsigned(s: Bytes): (r: Read<real>)
    ensures r.Some? ==> |r.value.1| < |s|
  {
    var integer := ReadInteger(s);
    if integer.None? then None
    else
      var decimal := ReadFraction(integer.value.1, integer.value.0);
      if decimal.None? then None
      else
        var power := ReadExponent(decimal.value.1);
        if power.None? then None
        else
          var x := Scaled(decimal.value.0.mantissa, decimal.value.0.exponent + power.value.0);
          if Finite(x) then Some((x, power.value.1)) else None
  }

  function ReadNumber(s: Bytes): (r: Read<Value>)
    ensures r.Some? ==> |r.value.1| < |s| && r.value.0.Number?
  {
    var negative := Peek(s) == MINUS;
    var x := ReadUnsigned(if negative then s[1..] else s);
    if x.None? then None else Some((Number(if negative then -x.value.0 else x.value.0), x.value.1))
  }

  function HexValue(b: Byte): (n: Option<nat>)
    ensures n.Some? ==> n.value < 16
  {
    if 0x30 <= b <= 0x39 then Some(b - 0x30)
    else if 0x61 <= b <= 0x66 then Some(b - 0x61 + 10)
    else if 0x41 <= b <= 0x46 then Some(b - 0x41 + 10)
    else None
  }

  function ReadHex4(s: Bytes): (n: Option<nat>)
    ensures n.Some? ==> |s| >= 4 && n.value < 0x10000
  {
    if |s| < 4 then None
    else
      var a, b, c, d := HexValue(s[0]), HexValue(s[1]), HexValue(s[2]), HexValue(s[3]);
      if a.None? || b.None? || c.None? || d.None? then None
      else Some(((a.value * 16 + b.value) * 16 + c.value) * 16 + d.value)
  }

  /** After \u: the code point, a pair of surrogates being one, a lone one being U+FFFD. */
  function ReadUnicode(s: Bytes): (r: Read<Bytes>)
    ensures r.Some? ==> |r.value.1| < |s|
  {
    var first := ReadHex4(s);
    if first.None? then None
    else if 0xD800 <= first.value <= 0xDBFF then
      var low := if [BACKSLASH, LOWER_U] <= s[4..] then ReadHex4(s[6..]) else None;
      if low.Some? && 0xDC00 <= low.value <= 0xDFFF then
        Some((Utf8.Encode(0x10000 + (first.value - 0xD800) * 0x400 + (low.value - 0xDC00)), s[10..]))
      else Some((Utf8.Encode(Utf8.REPLACEMENT), s[4..]))
    else Some((Utf8.Encode(if 0xDC00 <= first.value <= 0xDFFF then Utf8.REPLACEMENT else first.value), s[4..]))
  }

  /** After a backslash. */
  function ReadEscape(s: Bytes): (r: Read<Bytes>)
    ensures r.Some? ==> |r.value.1| < |s|
  {
    if s == [] then None
    else if s[0] == QUOTE || s[0] == BACKSLASH || s[0] == 0x2F then Some(([s[0]], s[1..]))
    else if s[0] == 0x62 then Some(([8], s[1..]))
    else if s[0] == 0x66 then Some(([12], s[1..]))
    else if s[0] == 0x6E then Some(([NEWLINE], s[1..]))
    else if s[0] == 0x72 then Some(([RETURN], s[1..]))
    else if s[0] == 0x74 then Some(([TAB], s[1..]))
    else if s[0] == LOWER_U then ReadUnicode(s[1..])
    else None
  }

  /** After the opening quote. */
  function ReadString(s: Bytes, soFar: Bytes): (r: Read<Bytes>)
    ensures r.Some? ==> |r.value.1| < |s|
    decreases |s|
  {
    if s == [] then None
    else if s[0] == QUOTE then Some((soFar, s[1..]))
    else if s[0] < 0x20 then None
    else if s[0] != BACKSLASH then ReadString(s[1..], soFar + [s[0]])
    else
      var escape := ReadEscape(s[1..]);
      if escape.None? then None else ReadString(escape.value.1, soFar + escape.value.0)
  }

  /** Replaces the member of that key, or adds one. */
  function SetMember(v: Value, key: Bytes, member: Value): (v': Value)
    requires v.Object? && |v.keys| == |v.members|
    ensures v'.Object? && |v'.keys| == |v'.members|
  {
    if key in v.keys then Object(v.keys, v.members[IndexOf(v.keys, key) := member])
    else Object(v.keys + [key], v.members + [member])
  }

  function IndexOf(keys: seq<Bytes>, key: Bytes): (i: nat)
    requires key in keys
    ensures i < |keys| && keys[i] == key && key !in keys[..i]
  {
    if keys[0] == key then 0
    else
      var i := IndexOf(keys[1..], key);
      assert keys[..i + 1] == [keys[0]] + keys[1..][..i];
      i + 1
  }

  function ReadValue(s: Bytes, depth: nat, maxDepth: nat): (r: Read<Value>)
    ensures r.Some? ==> |r.value.1| < |s|
    decreases |s|, 1
  {
    if Peek(s) == OPEN_OBJECT then
      if depth + 1 > maxDepth then None
      else
        var inside := Skipped(s[1..]);
        if Peek(inside) == CLOSE_OBJECT then Some((Object([], []), inside[1..]))
        else ReadMembers(inside, Object([], []), depth + 1, maxDepth)
    else if Peek(s) == OPEN_LIST then
      if depth + 1 > maxDepth then None
      else
        var inside := Skipped(s[1..]);
        if Peek(inside) == CLOSE_LIST then Some((Array([]), inside[1..]))
        else ReadItems(inside, [], depth + 1, maxDepth)
    else if Peek(s) == QUOTE then
      var text := ReadString(s[1..], []);
      if text.None? then None else Some((String(text.value.0), text.value.1))
    else if Peek(s) == 0x74 then Literal(s, TRUE_TEXT, Bool(true))
    else if Peek(s) == 0x66 then Literal(s, FALSE_TEXT, Bool(false))
    else if Peek(s) == 0x6E then Literal(s, NULL_TEXT, Null)
    else ReadNumber(s)
  }

  function ReadItems(s: Bytes, soFar: seq<Value>, depth: nat, maxDepth: nat): (r: Read<Value>)
    ensures r.Some? ==> |r.value.1| < |s|
    decreases |s|, 2
  {
    var item := ReadValue(Skipped(s), depth, maxDepth);
    if item.None? then None
    else
      var next := Skipped(item.value.1);
      if Peek(next) == CLOSE_LIST then Some((Array(soFar + [item.value.0]), next[1..]))
      else if Peek(next) == COMMA then ReadItems(next[1..], soFar + [item.value.0], depth, maxDepth)
      else None
  }

  function ReadMembers(s: Bytes, soFar: Value, depth: nat, maxDepth: nat): (r: Read<Value>)
    requires soFar.Object? && |soFar.keys| == |soFar.members|
    ensures r.Some? ==> |r.value.1| < |s|
    decreases |s|, 2
  {
    var opening := Skipped(s);
    if Peek(opening) != QUOTE then None
    else
      var key := ReadString(opening[1..], []);
      if key.None? then None
      else
        var colon := Skipped(key.value.1);
        if Peek(colon) != COLON then None
        else
          var member := ReadValue(Skipped(colon[1..]), depth, maxDepth);
          if member.None? then None
          else
            var v, next := SetMember(soFar, key.value.0, member.value.0), Skipped(member.value.1);
            if Peek(next) == CLOSE_OBJECT then Some((v, next[1..]))
            else if Peek(next) == COMMA then ReadMembers(next[1..], v, depth, maxDepth)
            else None
  }

  function SkippedMark(s: Bytes): Bytes { if [0xEF, 0xBB, 0xBF] <= s then s[3..] else s }

  /** One value, with nothing but white space around it (and a byte order mark before). */
  function Parsed(s: Bytes, maxDepth: nat): Option<Value> {
    var v := ReadValue(Skipped(SkippedMark(s)), 0, maxDepth);
    if v.None? || Skipped(v.value.1) != [] then None else Some(v.value.0)
  }

  // --- Reading undoes writing ---

  /** Text after which a number has ended. */
  predicate EndsNumber(rest: Bytes) {
    !IsDigit(Peek(rest)) && Peek(rest) != DOT && Peek(rest) != 0x65 && Peek(rest) != 0x45
  }

  function Fold(digits: Bytes, d: Decimal): Decimal
    requires forall i :: 0 <= i < |digits| ==> IsDigit(digits[i])
  {
    if digits == [] then d
    else
      assert IsDigit(digits[0]);
      Fold(digits[1..], AddDigit(d, digits[0] - ZERO, false))
  }

  lemma {:induction false} ReadFolds(digits: Bytes, rest: Bytes, d: Decimal)
    requires forall i :: 0 <= i < |digits| ==> IsDigit(digits[i])
    requires !IsDigit(Peek(rest))
    ensures ReadDigits(digits + rest, d, false) == (Fold(digits, d), rest)
    decreases |digits|
  {
    if digits == [] {
      assert digits + rest == rest;
    } else {
      assert (digits + rest)[1..] == digits[1..] + rest;
      ReadFolds(digits[1..], rest, AddDigit(d, digits[0] - ZERO, false));
    }
  }

  lemma {:induction false} FoldLast(digits: Bytes, last: Byte, d: Decimal)
    requires (forall i :: 0 <= i < |digits| ==> IsDigit(digits[i])) && IsDigit(last)
    ensures Fold(digits + [last], d) == AddDigit(Fold(digits, d), last - ZERO, false)
    decreases |digits|
  {
    if digits == [] {
      assert (digits + [last])[1..] == [];
    } else {
      assert (digits + [last])[1..] == digits[1..] + [last];
      FoldLast(digits[1..], last, AddDigit(d, digits[0] - ZERO, false));
    }
  }

  /** The digits of n spell n, without a leading zero, and there are no more than k of them below 10^k. */
  lemma {:induction false} DigitsSpell(n: nat)
    ensures forall i :: 0 <= i < |Digits(n)| ==> IsDigit(Digits(n)[i])
    ensures n > 0 ==> Digits(n)[0] != ZERO
    ensures |Digits(n)| <= 17 ==> Fold(Digits(n), NOTHING_READ) == Decimal(n, 0, if n > 0 then |Digits(n)| else 0)
  {
    if n >= 10 {
      DigitsSpell(n / 10);
      if |Digits(n)| <= 17 {
        FoldLast(Digits(n / 10), ZERO + n % 10, NOTHING_READ);
      }
    }
  }

  lemma {:induction false} FewDigits(n: nat, k: nat, limit: nat)
    requires n < limit && k > 0 && limit <= IntPow10(k)
    ensures |Digits(n)| <= k
    decreases k
  {
    if n >= 10 {
      FewDigits(n / 10, k - 1, IntPow10(k - 1));
    }
  }

  function IntPow10(k: nat): (p: nat)
    ensures p > 0
  {
    if k == 0 then 1 else 10 * IntPow10(k - 1)
  }

  lemma IntegerIsFinite(n: nat)
    requires n < INTEGER_LIMIT
    ensures Finite(n as real) && Scaled(n, 0) == n as real
  {
    TwoTo54();
    TwoToGrows(970);
    TwoToAdds(970, 54);
    var p, q := TwoTo(970), TwoTo(54);
    hide TwoTo;
    ProductGap(p, q);
  }

  lemma ProductGap(p: real, q: real)
    requires p >= 1.0 && q >= 1.0
    ensures p * q - p >= q - 1.0
  {
    assert (p - 1.0) * (q - 1.0) >= 0.0;
  }

  lemma TwoTo54()
    ensures TwoTo(54) == 18014398509481984.0
  {
    assert TwoTo(3) == 8.0;
    TwoToAdds(3, 3);
    TwoToAdds(6, 3);
    TwoToAdds(9, 9);
    TwoToAdds(18, 18);
    TwoToAdds(36, 18);
    hide TwoTo;
  }

  lemma TwoToGrows(n: nat)
    ensures TwoTo(n) >= 1.0
  {
  }

  lemma {:induction false} TwoToAdds(a: nat, b: nat)
    ensures TwoTo(a + b) == TwoTo(a) * TwoTo(b)
    decreases b
  {
    if b > 0 {
      TwoToAdds(a, b - 1);
    }
  }

  lemma UnsignedReadsBack(n: nat, rest: Bytes)
    requires n < INTEGER_LIMIT && EndsNumber(rest)
    ensures ReadUnsigned(Digits(n) + rest) == Some((n as real, rest))
    ensures Peek(Digits(n) + rest) != MINUS && IsDigit(Peek(Digits(n) + rest))
  {
    DigitsSpell(n);
    assert IntPow10(15) == INTEGER_LIMIT;
    FewDigits(n, 15, INTEGER_LIMIT);
    IntegerIsFinite(n);
    var s := Digits(n) + rest;
    if n == 0 {
      assert s[1..] == rest;
    } else {
      ReadFolds(Digits(n), rest, NOTHING_READ);
    }
    assert ReadInteger(s) == Some((Fold(Digits(n), NOTHING_READ), rest));
    hide Finite, Scaled, Digits;
  }

  lemma NumberReadsBack(x: real, rest: Bytes)
    requires PlainNumber(x) && EndsNumber(rest)
    ensures ReadNumber(Formatted(x) + rest) == Some((Number(x), rest))
    ensures var b := Peek(Formatted(x) + rest); b == MINUS || IsDigit(b)
  {
    if x.Floor < 0 {
      UnsignedReadsBack(-x.Floor, rest);
      assert (Formatted(x) + rest)[1..] == Digits(-x.Floor) + rest;
    } else {
      UnsignedReadsBack(x.Floor, rest);
    }
    hide ReadUnsigned, Digits;
  }

  /** One byte, escaped or not, reads back. */
  lemma ByteReadsBack(b: Byte, rest: Bytes, soFar: Bytes)
    ensures ReadString(Escaped(b) + rest, soFar) == ReadString(rest, soFar + [b])
  {
    var s := Escaped(b) + rest;
    if |Escaped(b)| == 1 {
      assert s[1..] == rest;
    } else if |Escaped(b)| == 2 {
      assert s[1..][1..] == rest;
      assert ReadEscape(s[1..]) == Some(([b], rest));
    } else {
      assert s[1..] == [LOWER_U, ZERO, ZERO, HexDigit(b / 16), HexDigit(b % 16)] + rest;
      assert s[1..][1..] == [ZERO, ZERO, HexDigit(b / 16), HexDigit(b % 16)] + rest;
      UnicodeReadsBack(b, rest);
      assert ReadEscape(s[1..]) == Some(([b], rest));
    }
  }

  lemma UnicodeReadsBack(b: Byte, rest: Bytes)
    requires b < 0x80
    ensures ReadUnicode([ZERO, ZERO, HexDigit(b / 16), HexDigit(b % 16)] + rest) == Some(([b], rest))
  {
    var s := [ZERO, ZERO, HexDigit(b / 16), HexDigit(b % 16)] + rest;
    assert ReadHex4(s) == Some(b);
    assert s[4..] == rest;
  }

  lemma {:induction false} StringReadsBack(bytes: Bytes, rest: Bytes, soFar: Bytes)
    ensures ReadString(EscapedAll(bytes) + [QUOTE] + rest, soFar) == Some((soFar + bytes, rest))
    decreases |bytes|
  {
    if bytes == [] {
      assert EscapedAll(bytes) + [QUOTE] + rest == [QUOTE] + rest;
      assert soFar + bytes == soFar;
    } else {
      var after := EscapedAll(bytes[1..]) + [QUOTE] + rest;
      assert EscapedAll(bytes) + [QUOTE] + rest == Escaped(bytes[0]) + after;
      ByteReadsBack(bytes[0], after, soFar);
      StringReadsBack(bytes[1..], rest, soFar + [bytes[0]]);
      assert soFar + [bytes[0]] + bytes[1..] == soFar + bytes;
    }
  }

  /** A quoted string reads back whatever its bytes. */
  lemma QuotedReadsBack(bytes: Bytes, rest: Bytes)
    ensures var s := Quoted(bytes) + rest; s[0] == QUOTE && ReadString(s[1..], []) == Some((bytes, rest))
  {
    StringReadsBack(bytes, rest, []);
    assert (Quoted(bytes) + rest)[1..] == EscapedAll(bytes) + [QUOTE] + rest;
    assert [] + bytes == bytes;
  }

  lemma {:induction false} SkippedSpaces(n: nat, s: Bytes)
    requires s != [] && !IsSpace(s[0])
    ensures Skipped(Spaces(n) + s) == s
  {
    if n == 0 {
      assert Spaces(0) + s == s;
    } else {
      assert (Spaces(n) + s)[1..] == Spaces(n - 1) + s;
      SkippedSpaces(n - 1, s);
    }
  }

  lemma SkippedIndent(pretty: bool, depth: nat, s: Bytes)
    requires s != [] && !IsSpace(s[0])
    ensures Skipped(Indent(pretty, depth) + s) == s
  {
    if pretty {
      assert (Indent(pretty, depth) + s)[1..] == Spaces(2 * depth) + s;
      SkippedSpaces(2 * depth, s);
    } else {
      assert Indent(pretty, depth) + s == s;
    }
  }

  /** What can stand after a value inside a text: nothing a number would go on with. */
  predicate Follows(rest: Bytes) {
    rest == [] || rest[0] == COMMA || rest[0] == CLOSE_LIST || rest[0] == CLOSE_OBJECT || rest[0] == NEWLINE
  }

  /** Written values start with a byte that tells their kind. */
  lemma FirstByte(v: Value, pretty: bool, depth: nat)
    requires Plain(v) && WellFormed(v)
    ensures var s := Written(v, pretty, depth);
            s != [] && !IsSpace(s[0]) && s[0] != CLOSE_LIST && s[0] != CLOSE_OBJECT && s[0] != 0xEF
  {
    if v.Number? {
      NumberReadsBack(v.number, []);
      assert Formatted(v.number) + [] == Formatted(v.number);
    }
  }

  lemma {:induction false} NestingOf(vs: seq<Value>, i: nat)
    requires i < |vs|
    ensures Nesting(vs[i]) <= Deepest(vs)
    decreases |vs|
  {
    if i > 0 {
      NestingOf(vs[1..], i - 1);
    }
  }

  lemma SkippedTwice(s: Bytes)
    ensures Skipped(Skipped(s)) == Skipped(s)
  {
  }

  lemma NotSpaced(s: Bytes)
    requires s == [] || !IsSpace(s[0])
    ensures Skipped(s) == s
  {
  }

  /** The end of a list or an object, on a line of its own when pretty. */
  lemma ClosingSkipped(pretty: bool, depth: nat, close: Byte, rest: Bytes)
    requires close == CLOSE_LIST || close == CLOSE_OBJECT
    ensures var s := Indent(pretty, depth) + [close] + rest; Follows(s) && Skipped(s) == [close] + rest
  {
    assert Indent(pretty, depth) + [close] + rest == Indent(pretty, depth) + ([close] + rest);
    SkippedIndent(pretty, depth, [close] + rest);
  }

  lemma {:induction false} ValueReadsBack(v: Value, pretty: bool, depth: nat, level: nat, maxDepth: nat, rest: Bytes)
    requires Plain(v) && WellFormed(v) && level + Nesting(v) <= maxDepth && Follows(rest)
    ensures ReadValue(Written(v, pretty, depth) + rest, level, maxDepth) == Some((v, rest))
    decreases v, 1
  {
    match v
    case Null => LiteralReadsBack(NULL_TEXT, Null, rest);
    case Bool(b) => LiteralReadsBack(if b then TRUE_TEXT else FALSE_TEXT, v, rest);
    case Number(x) => NumberReadsBack(x, rest);
    case String(bytes) => QuotedReadsBack(bytes, rest);
    case Array(items) => ArrayReadsBack(items, pretty, depth, level, maxDepth, rest);
    case Object(keys, members) => ObjectReadsBack(keys, members, pretty, depth, level, maxDepth, rest);
  }

  lemma LiteralReadsBack(literal: Bytes, v: Value, rest: Bytes)
    ensures Literal(literal + rest, literal, v) == Some((v, rest))
  {
    assert literal <= literal + rest && (literal + rest)[|literal|..] == rest;
  }

  lemma {:induction false} ArrayReadsBack(items: seq<Value>, pretty: bool, depth: nat, level: nat, maxDepth: nat, rest: Bytes)
    requires Plain(Array(items)) && WellFormed(Array(items)) && level + Nesting(Array(items)) <= maxDepth && Follows(rest)
    ensures ReadValue(Written(Array(items), pretty, depth) + rest, level, maxDepth) == Some((Array(items), rest))
    decreases Array(items), 0
  {
    WrittenList(items, pretty, depth, rest);
    if items == [] {
      hide Written;
      ReadEmpty(rest, level, maxDepth);
    } else {
      var closing := Indent(pretty, depth) + [CLOSE_LIST] + rest;
      hide Written, WrittenItems, ReadValue, ReadItems, Indent, Skipped, Follows;
      ItemsReadBack(items, pretty, depth, level + 1, maxDepth, [], rest);
      ItemsStart(items, pretty, depth + 1, closing);
      hide Plain, WellFormed;
      ReadList(WrittenItems(items, pretty, depth + 1) + closing, level, maxDepth);
      assert [] + items == items;
    }
  }

  lemma WrittenNothing(pretty: bool, depth: nat)
    ensures WrittenItems([], pretty, depth) == [] && WrittenMembers([], [], pretty, depth) == []
  {
  }

  lemma WrittenList(items: seq<Value>, pretty: bool, depth: nat, rest: Bytes)
    requires Plain(Array(items)) && WellFormed(Array(items))
    ensures Written(Array(items), pretty, depth) + rest
            == if items == [] then [OPEN_LIST, CLOSE_LIST] + rest
               else [OPEN_LIST] + (WrittenItems(items, pretty, depth + 1) + (Indent(pretty, depth) + [CLOSE_LIST] + rest))
  {
    hide WrittenItems, WrittenMembers, Indent, Deepest;
    WrittenNothing(pretty, depth + 1);
    var w, i := WrittenItems(items, pretty, depth + 1), Indent(pretty, depth);
    Enclosed([OPEN_LIST], w, i, [CLOSE_LIST], rest);
    assert items != [] ==> Written(Array(items), pretty, depth) == [OPEN_LIST] + w + i + [CLOSE_LIST];
  }

  lemma Enclosed<T>(open_: seq<T>, body: seq<T>, indent: seq<T>, close: seq<T>, rest: seq<T>)
    ensures open_ + body + indent + close + rest == open_ + (body + (indent + close + rest))
    ensures body == [] ==> open_ + body + [] + close + rest == open_ + close + rest
  {
  }

  lemma ReadEmpty(rest: Bytes, level: nat, maxDepth: nat)
    requires level + 1 <= maxDepth
    ensures ReadValue([OPEN_LIST, CLOSE_LIST] + rest, level, maxDepth) == Some((Array([]), rest))
    ensures ReadValue([OPEN_OBJECT, CLOSE_OBJECT] + rest, level, maxDepth) == Some((Object([], []), rest))
  {
    assert ([OPEN_LIST, CLOSE_LIST] + rest)[1..] == [CLOSE_LIST] + rest && ([CLOSE_LIST] + rest)[1..] == rest;
    assert ([OPEN_OBJECT, CLOSE_OBJECT] + rest)[1..] == [CLOSE_OBJECT] + rest && ([CLOSE_OBJECT] + rest)[1..] == rest;
    NotSpaced([CLOSE_LIST] + rest);
    NotSpaced([CLOSE_OBJECT] + rest);
    hide Skipped, ReadItems, ReadMembers, ReadString, ReadNumber, Literal;
  }

  lemma ReadList(body: Bytes, level: nat, maxDepth: nat)
    requires level + 1 <= maxDepth && Peek(Skipped(body)) != CLOSE_LIST
    ensures ReadValue([OPEN_LIST] + body, level, maxDepth) == ReadItems(body, [], level + 1, maxDepth)
  {
    SkippedFirst(body, [], level + 1, maxDepth);
    assert ([OPEN_LIST] + body)[1..] == body;
    hide Skipped, ReadItems, ReadMembers, ReadString, ReadNumber, Literal;
  }

  lemma ReadObject(body: Bytes, level: nat, maxDepth: nat)
    requires level + 1 <= maxDepth && Peek(Skipped(body)) != CLOSE_OBJECT
    ensures ReadValue([OPEN_OBJECT] + body, level, maxDepth) == ReadMembers(body, Object([], []), level + 1, maxDepth)
  {
    SkippedFirstMember(body, Object([], []), level + 1, maxDepth);
    assert ([OPEN_OBJECT] + body)[1..] == body;
    hide Skipped, ReadItems, ReadMembers, ReadString, ReadNumber, Literal;
  }

  /** White space before the first item changes nothing. */
  lemma SkippedFirst(s: Bytes, soFar: seq<Value>, level: nat, maxDepth: nat)
    ensures ReadItems(Skipped(s), soFar, level, maxDepth) == ReadItems(s, soFar, level, maxDepth)
  {
    SkippedTwice(s);
    hide Skipped, ReadValue;
  }

  lemma SkippedFirstMember(s: Bytes, soFar: Value, level: nat, maxDepth: nat)
    requires soFar.Object? && |soFar.keys| == |soFar.members|
    ensures ReadMembers(Skipped(s), soFar, level, maxDepth) == ReadMembers(s, soFar, level, maxDepth)
  {
    SkippedTwice(s);
    hide Skipped, ReadValue, ReadString;
  }

  /** Written items and what follows, first item first. */
  lemma ItemsSplit(items: seq<Value>, pretty: bool, depth: nat, closing: Bytes)
    requires items != [] && forall i :: 0 <= i < |items| ==> Plain(items[i]) && WellFormed(items[i])
    ensures WrittenItems(items, pretty, depth) + closing
            == Indent(pretty, depth)
               + (Written(items[0], pretty, depth)
                  + if |items| == 1 then closing else [COMMA] + (WrittenItems(items[1..], pretty, depth) + closing))
  {
    var i, w := Indent(pretty, depth), Written(items[0], pretty, depth);
    if |items| == 1 {
      Regroup(i, w, [], [], [], [], closing);
    } else {
      Regroup(i, w, [], [], [COMMA], WrittenItems(items[1..], pretty, depth), closing);
    }
    hide Indent, Written, Plain, WellFormed;
  }

  lemma Regroup<T>(a: seq<T>, b: seq<T>, c: seq<T>, d: seq<T>, comma: seq<T>, more: seq<T>, rest: seq<T>)
    ensures a + b + c + d + (comma + more) + rest == a + (b + (c + (d + (comma + (more + rest)))))
    ensures a + b + (comma + more) + rest == a + (b + (comma + (more + rest)))
    ensures comma == [] && more == [] ==> a + b + [] + rest == a + (b + rest)
    ensures comma == [] && more == [] ==> a + b + c + d + [] + rest == a + (b + (c + (d + rest)))
  {
  }

  lemma ItemsStart(items: seq<Value>, pretty: bool, depth: nat, rest: Bytes)
    requires items != [] && forall i :: 0 <= i < |items| ==> Plain(items[i]) && WellFormed(items[i])
    ensures var inside := Skipped(WrittenItems(items, pretty, depth) + rest); inside != [] && inside[0] != CLOSE_LIST
  {
    FirstByte(items[0], pretty, depth);
    ItemsSplit(items, pretty, depth, rest);
    hide Written, WrittenItems, Indent, Plain, WellFormed, Skipped;
    SkippedIndent(pretty, depth, Written(items[0], pretty, depth)
                  + if |items| == 1 then rest else [COMMA] + (WrittenItems(items[1..], pretty, depth) + rest));
  }

  /** One item, and what comes after it. */
  lemma {:induction false} ItemReadsBack(item: Value, pretty: bool, depth: nat, level: nat, maxDepth: nat,
                                         soFar: seq<Value>, tail: Bytes)
    requires Plain(item) && WellFormed(item) && level + Nesting(item) <= maxDepth && Follows(tail)
    ensures var next := Skipped(tail);
            ReadItems(Indent(pretty, depth) + (Written(item, pretty, depth) + tail), soFar, level, maxDepth)
            == if Peek(next) == CLOSE_LIST then Some((Array(soFar + [item]), next[1..]))
               else if Peek(next) == COMMA then ReadItems(next[1..], soFar + [item], level, maxDepth)
               else None
    decreases item, 2
  {
    ValueReadsBack(item, pretty, depth, level, maxDepth, tail);
    FirstByte(item, pretty, depth);
    hide Written, Nesting, Plain, WellFormed, ReadValue, Skipped, Indent;
    SkippedIndent(pretty, depth, Written(item, pretty, depth) + tail);
  }

  lemma {:induction false} ItemsReadBack(items: seq<Value>, pretty: bool, depth: nat, level: nat, maxDepth: nat,
                                         soFar: seq<Value>, rest: Bytes)
    requires items != [] && forall i :: 0 <= i < |items| ==> Plain(items[i]) && WellFormed(items[i])
    requires level + Deepest(items) <= maxDepth && Follows(rest)
    ensures ReadItems(WrittenItems(items, pretty, depth + 1) + (Indent(pretty, depth) + [CLOSE_LIST] + rest), soFar, level, maxDepth)
            == Some((Array(soFar + items), rest))
    decreases items, 3
  {
    hide Written, WrittenItems, Nesting, Skipped, Plain, WellFormed, Indent, ReadItems;
    if |items| == 1 {
      LastItemReadsBack(items, pretty, depth, level, maxDepth, soFar, rest);
    } else {
      var closing := Indent(pretty, depth) + [CLOSE_LIST] + rest;
      NextItemReadsBack(items, pretty, depth + 1, level, maxDepth, soFar, closing);
      ItemsReadBack(items[1..], pretty, depth, level, maxDepth, soFar + [items[0]], rest);
      assert soFar + [items[0]] + items[1..] == soFar + items;
    }
  }

  lemma {:induction false} LastItemReadsBack(items: seq<Value>, pretty: bool, depth: nat, level: nat, maxDepth: nat,
                                             soFar: seq<Value>, rest: Bytes)
    requires |items| == 1 && Plain(items[0]) && WellFormed(items[0])
    requires level + Deepest(items) <= maxDepth && Follows(rest)
    ensures ReadItems(WrittenItems(items, pretty, depth + 1) + (Indent(pretty, depth) + [CLOSE_LIST] + rest), soFar, level, maxDepth)
            == Some((Array(soFar + items), rest))
    decreases items, 2
  {
    hide Written, WrittenItems, Nesting, Deepest, Skipped, Plain, WellFormed, Indent, ReadItems, Follows;
    var closing := Indent(pretty, depth) + [CLOSE_LIST] + rest;
    assert closing == Indent(pretty, depth) + [CLOSE_LIST] + rest;
    ClosingSkipped(pretty, depth, CLOSE_LIST, rest);
    ItemsSplit(items, pretty, depth + 1, closing);
    DeepestSplit(items);
    ItemReadsBack(items[0], pretty, depth + 1, level, maxDepth, soFar, closing);
    assert soFar + [items[0]] == soFar + items;
    assert ([CLOSE_LIST] + rest)[1..] == rest;
  }

  lemma {:induction false} NextItemReadsBack(items: seq<Value>, pretty: bool, depth: nat, level: nat, maxDepth: nat,
                                             soFar: seq<Value>, closing: Bytes)
    requires |items| > 1 && forall i :: 0 <= i < |items| ==> Plain(items[i]) && WellFormed(items[i])
    requires level + Nesting(items[0]) <= maxDepth
    ensures ReadItems(WrittenItems(items, pretty, depth) + closing, soFar, level, maxDepth)
            == ReadItems(WrittenItems(items[1..], pretty, depth) + closing, soFar + [items[0]], level, maxDepth)
    decreases items, 2
  {
    ItemsSplit(items, pretty, depth, closing);
    var more := WrittenItems(items[1..], pretty, depth) + closing;
    hide Written, WrittenItems, Nesting, Plain, WellFormed, Indent, ReadItems;
    NotSpaced([COMMA] + more);
    hide Skipped;
    ItemReadsBack(items[0], pretty, depth, level, maxDepth, soFar, [COMMA] + more);
    assert ([COMMA] + more)[1..] == more;
  }

  lemma {:induction false} ObjectReadsBack(keys: seq<Bytes>, members: seq<Value>, pretty: bool, depth: nat, level: nat,
                                           maxDepth: nat, rest: Bytes)
    requires Plain(Object(keys, members)) && WellFormed(Object(keys, members)) && Follows(rest)
    requires level + Nesting(Object(keys, members)) <= maxDepth
    ensures ReadValue(Written(Object(keys, members), pretty, depth) + rest, level, maxDepth) == Some((Object(keys, members), rest))
    decreases Object(keys, members), 0
  {
    WrittenObject(keys, members, pretty, depth, rest);
    if keys == [] {
      hide Written;
      ReadEmpty(rest, level, maxDepth);
    } else {
      var closing := Indent(pretty, depth) + [CLOSE_OBJECT] + rest;
      hide Written, WrittenMembers, ReadValue, ReadMembers, Indent, Skipped, Follows;
      assert [] + keys == keys && [] + members == members;
      MembersReadBack(keys, members, pretty, depth, level + 1, maxDepth, [], [], rest);
      MembersStart(keys, members, pretty, depth + 1, closing);
      hide Plain, WellFormed;
      ReadObject(WrittenMembers(keys, members, pretty, depth + 1) + closing, level, maxDepth);
    }
  }

  lemma WrittenObject(keys: seq<Bytes>, members: seq<Value>, pretty: bool, depth: nat, rest: Bytes)
    requires Plain(Object(keys, members)) && WellFormed(Object(keys, members))
    ensures Written(Object(keys, members), pretty, depth) + rest
            == if keys == [] then [OPEN_OBJECT, CLOSE_OBJECT] + rest
               else [OPEN_OBJECT] + (WrittenMembers(keys, members, pretty, depth + 1)
                                     + (Indent(pretty, depth) + [CLOSE_OBJECT] + rest))
  {
    hide WrittenItems, WrittenMembers, Indent, Deepest, DistinctKeys;
    WrittenNothing(pretty, depth + 1);
    var w, i := WrittenMembers(keys, members, pretty, depth + 1), Indent(pretty, depth);
    Enclosed([OPEN_OBJECT], w, i, [CLOSE_OBJECT], rest);
    assert keys != [] ==> Written(Object(keys, members), pretty, depth) == [OPEN_OBJECT] + w + i + [CLOSE_OBJECT];
  }

  /** Written members and what follows, first member first. */
  lemma MembersSplit(keys: seq<Bytes>, members: seq<Value>, pretty: bool, depth: nat, closing: Bytes)
    requires |keys| == |members| > 0 && forall i :: 0 <= i < |members| ==> Plain(members[i]) && WellFormed(members[i])
    ensures WrittenMembers(keys, members, pretty, depth) + closing
            == Indent(pretty, depth)
               + (Quoted(keys[0]) + (Colon(pretty) + (Written(members[0], pretty, depth)
                  + if |members| == 1 then closing
                    else [COMMA] + (WrittenMembers(keys[1..], members[1..], pretty, depth) + closing))))
  {
    var i, k, c, w := Indent(pretty, depth), Quoted(keys[0]), Colon(pretty), Written(members[0], pretty, depth);
    if |members| == 1 {
      Regroup(i, k, c, w, [], [], closing);
    } else {
      Regroup(i, k, c, w, [COMMA], WrittenMembers(keys[1..], members[1..], pretty, depth), closing);
    }
    hide Indent, Quoted, Colon, Written, Plain, WellFormed;
  }

  lemma MembersStart(keys: seq<Bytes>, members: seq<Value>, pretty: bool, depth: nat, rest: Bytes)
    requires |keys| == |members| > 0 && forall i :: 0 <= i < |members| ==> Plain(members[i]) && WellFormed(members[i])
    ensures Peek(Skipped(WrittenMembers(keys, members, pretty, depth) + rest)) == QUOTE
  {
    MembersSplit(keys, members, pretty, depth, rest);
    assert Quoted(keys[0])[0] == QUOTE;
    hide Indent, Quoted, Colon, Written, WrittenMembers, Plain, WellFormed, Skipped;
    SkippedIndent(pretty, depth, Quoted(keys[0]) + (Colon(pretty) + (Written(members[0], pretty, depth)
                  + if |members| == 1 then rest
                    else [COMMA] + (WrittenMembers(keys[1..], members[1..], pretty, depth) + rest))));
  }

  /** One member, and what comes after it. */
  lemma {:induction false} MemberReadsBack(key: Bytes, member: Value, pretty: bool, depth: nat, level: nat, maxDepth: nat,
                                           soFar: Value, tail: Bytes)
    requires Plain(member) && WellFormed(member) && level + Nesting(member) <= maxDepth && Follows(tail)
    requires soFar.Object? && |soFar.keys| == |soFar.members| && key !in soFar.keys
    ensures var v := Object(soFar.keys + [key], soFar.members + [member]);
            var next := Skipped(tail);
            ReadMembers(Indent(pretty, depth) + (Quoted(key) + (Colon(pretty) + (Written(member, pretty, depth) + tail))),
                        soFar, level, maxDepth)
            == if Peek(next) == CLOSE_OBJECT then Some((v, next[1..]))
               else if Peek(next) == COMMA then ReadMembers(next[1..], v, level, maxDepth)
               else None
    decreases member, 2
  {
    hide Written, Nesting, Plain, WellFormed, ReadValue, Skipped, Quoted, ReadString, Indent, SetMember, Follows;
    var text := Written(member, pretty, depth) + tail;
    ValueReadsBack(member, pretty, depth, level, maxDepth, tail);
    FirstByte(member, pretty, depth);
    QuotedReadsBack(key, Colon(pretty) + text);
    SkippedIndent(pretty, depth, Quoted(key) + (Colon(pretty) + text));
    ColonSkipped(pretty, text);
    SetNew(soFar, key, member);
  }

  lemma SetNew(v: Value, key: Bytes, member: Value)
    requires v.Object? && |v.keys| == |v.members| && key !in v.keys
    ensures SetMember(v, key, member) == Object(v.keys + [key], v.members + [member])
  {
  }

  lemma ColonSkipped(pretty: bool, text: Bytes)
    requires text != [] && !IsSpace(text[0])
    ensures var colon := Colon(pretty) + text; Skipped(colon) == colon && colon[0] == COLON && Skipped(colon[1..]) == text
  {
    NotSpaced(text);
    if pretty {
      assert (Colon(pretty) + text)[1..] == Spaces(1) + text;
      SkippedSpaces(1, text);
    } else {
      assert (Colon(pretty) + text)[1..] == text;
    }
  }

  lemma {:induction false} MembersReadBack(keys: seq<Bytes>, members: seq<Value>, pretty: bool, depth: nat, level: nat,
                                           maxDepth: nat, keysSoFar: seq<Bytes>, soFar: seq<Value>, rest: Bytes)
    requires |keys| == |members| > 0 && |keysSoFar| == |soFar| && DistinctKeys(keysSoFar + keys)
    requires forall i :: 0 <= i < |members| ==> Plain(members[i]) && WellFormed(members[i])
    requires level + Deepest(members) <= maxDepth && Follows(rest)
    ensures ReadMembers(WrittenMembers(keys, members, pretty, depth + 1) + (Indent(pretty, depth) + [CLOSE_OBJECT] + rest),
                        Object(keysSoFar, soFar), level, maxDepth)
            == Some((Object(keysSoFar + keys, soFar + members), rest))
    decreases members, 3
  {
    hide Written, WrittenMembers, Nesting, Deepest, Skipped, Plain, WellFormed, ReadMembers, Indent, Quoted, Colon, DistinctKeys,
         Follows;
    NewKey(keysSoFar, keys);
    DeepestSplit(members);
    assert keysSoFar + [keys[0]] + keys[1..] == keysSoFar + keys;
    if |members| == 1 {
      LastMemberReadsBack(keys, members, pretty, depth, level, maxDepth, keysSoFar, soFar, rest);
    } else {
      var closing := Indent(pretty, depth) + [CLOSE_OBJECT] + rest;
      NextMemberReadsBack(keys, members, pretty, depth + 1, level, maxDepth, keysSoFar, soFar, closing);
      assert soFar + [members[0]] + members[1..] == soFar + members;
      MembersReadBack(keys[1..], members[1..], pretty, depth, level, maxDepth, keysSoFar + [keys[0]], soFar + [members[0]], rest);
    }
  }

  lemma {:induction false} LastMemberReadsBack(keys: seq<Bytes>, members: seq<Value>, pretty: bool, depth: nat, level: nat,
                                               maxDepth: nat, keysSoFar: seq<Bytes>, soFar: seq<Value>, rest: Bytes)
    requires |keys| == |members| == 1 && |keysSoFar| == |soFar| && keys[0] !in keysSoFar
    requires Plain(members[0]) && WellFormed(members[0]) && level + Deepest(members) <= maxDepth && Follows(rest)
    ensures ReadMembers(WrittenMembers(keys, members, pretty, depth + 1) + (Indent(pretty, depth) + [CLOSE_OBJECT] + rest),
                        Object(keysSoFar, soFar), level, maxDepth)
            == Some((Object(keysSoFar + keys, soFar + members), rest))
    decreases members, 2
  {
    hide Written, WrittenMembers, Nesting, Deepest, Skipped, Plain, WellFormed, ReadMembers, Indent, Quoted, Colon, Follows;
    var closing := Indent(pretty, depth) + [CLOSE_OBJECT] + rest;
    assert closing == Indent(pretty, depth) + [CLOSE_OBJECT] + rest;
    ClosingSkipped(pretty, depth, CLOSE_OBJECT, rest);
    MembersSplit(keys, members, pretty, depth + 1, closing);
    DeepestSplit(members);
    MemberReadsBack(keys[0], members[0], pretty, depth + 1, level, maxDepth, Object(keysSoFar, soFar), closing);
    assert keysSoFar + [keys[0]] == keysSoFar + keys && soFar + [members[0]] == soFar + members;
    assert ([CLOSE_OBJECT] + rest)[1..] == rest;
  }

  lemma DeepestSplit(vs: seq<Value>)
    requires vs != []
    ensures Nesting(vs[0]) <= Deepest(vs) && Deepest(vs[1..]) <= Deepest(vs)
  {
  }

  lemma {:induction false} NextMemberReadsBack(keys: seq<Bytes>, members: seq<Value>, pretty: bool, depth: nat, level: nat,
                                               maxDepth: nat, keysSoFar: seq<Bytes>, soFar: seq<Value>, closing: Bytes)
    requires |keys| == |members| > 1 && |keysSoFar| == |soFar| && keys[0] !in keysSoFar
    requires forall i :: 0 <= i < |members| ==> Plain(members[i]) && WellFormed(members[i])
    requires level + Nesting(members[0]) <= maxDepth
    ensures ReadMembers(WrittenMembers(keys, members, pretty, depth) + closing, Object(keysSoFar, soFar), level, maxDepth)
            == ReadMembers(WrittenMembers(keys[1..], members[1..], pretty, depth) + closing,
                           Object(keysSoFar + [keys[0]], soFar + [members[0]]), level, maxDepth)
    decreases members, 2
  {
    MembersSplit(keys, members, pretty, depth, closing);
    var more := WrittenMembers(keys[1..], members[1..], pretty, depth) + closing;
    hide Written, WrittenMembers, Nesting, Plain, WellFormed, ReadMembers, Indent, Quoted, Colon;
    NotSpaced([COMMA] + more);
    hide Skipped;
    MemberReadsBack(keys[0], members[0], pretty, depth, level, maxDepth, Object(keysSoFar, soFar), [COMMA] + more);
    assert ([COMMA] + more)[1..] == more;
  }

  lemma NewKey(before: seq<Bytes>, keys: seq<Bytes>)
    requires keys != [] && DistinctKeys(before + keys)
    ensures keys[0] !in before
  {
    assert (before + keys)[|before|] == keys[0];
    assert forall i :: 0 <= i < |before| ==> (before + keys)[i] == before[i];
  }

  /** Reading back what was written gives the value itself, compact or pretty. */
  lemma RoundTrip(v: Value, pretty: bool)
    requires Plain(v) && WellFormed(v) && Nesting(v) <= MAX_DEPTH
    ensures Parsed(Serialized(v, pretty), MAX_DEPTH) == Some(v)
  {
    var s := Serialized(v, pretty);
    FirstByte(v, pretty, 0);
    assert SkippedMark(s) == s;
    NotSpaced(s);
    ValueReadsBack(v, pretty, 0, 0, MAX_DEPTH, []);
    assert s + [] == s;
  }

  /** So texts tell values apart, and both layouts say the same. */
  lemma WritingIsInjective(v: Value, w: Value, pretty: bool, pretty': bool)
    requires Plain(v) && WellFormed(v) && Nesting(v) <= MAX_DEPTH
    requires Plain(w) && WellFormed(w) && Nesting(w) <= MAX_DEPTH
    ensures Serialized(v, pretty) == Serialized(w, pretty') ==> v == w
  {
    RoundTrip(v, pretty);
    RoundTrip(w, pretty');
  }

  // --- What a text that reads can hold ---

  lemma {:induction false} DeepestGrows(vs: seq<Value>, v: Value)
    ensures Deepest(vs + [v]) == Max(Deepest(vs), Nesting(v))
    decreases |vs|
  {
    if vs == [] {
      assert (vs + [v])[1..] == [];
    } else {
      assert (vs + [v])[1..] == vs[1..] + [v];
      DeepestGrows(vs[1..], v);
    }
  }

  lemma {:induction false} DeepestChanged(vs: seq<Value>, i: nat, v: Value)
    requires i < |vs|
    ensures Deepest(vs[i := v]) <= Max(Deepest(vs), Nesting(v))
    decreases |vs|
  {
    if i > 0 {
      assert vs[i := v][1..] == vs[1..][i - 1 := v];
      DeepestChanged(vs[1..], i - 1, v);
    }
  }

  ghost predicate Sound(v: Value, level: nat, maxDepth: nat) { WellFormed(v) && level + Nesting(v) <= maxDepth }

  /** Setting a member keeps the keys distinct and the nesting bounded, and then the key has that member. */
  lemma SetMemberSound(v: Value, key: Bytes, member: Value, level: nat, maxDepth: nat)
    requires v.Object? && WellFormed(v) && WellFormed(member)
    requires level + Deepest(v.members) <= maxDepth && level + Nesting(member) <= maxDepth
    ensures var v' := SetMember(v, key, member); WellFormed(v') && level + Deepest(v'.members) <= maxDepth
  {
    hide Deepest, Nesting;
    if key in v.keys {
      DeepestChanged(v.members, IndexOf(v.keys, key), member);
    } else {
      DeepestGrows(v.members, member);
    }
  }

  lemma SetMemberSets(v: Value, key: Bytes, member: Value, other: Bytes)
    requires v.Object? && WellFormed(v)
    ensures var v' := SetMember(v, key, member); key in v'.keys && v'.members[IndexOf(v'.keys, key)] == member
    ensures var v' := SetMember(v, key, member);
            other in v.keys && other != key ==>
              other in v'.keys && v'.members[IndexOf(v'.keys, other)] == v.members[IndexOf(v.keys, other)]
  {
    var v' := SetMember(v, key, member);
    hide WellFormed;
    if key !in v.keys {
      assert v'.keys[|v.keys|] == key;
    }
    if other in v.keys {
      assert v'.keys[IndexOf(v.keys, other)] == other;
    }
    assert DistinctKeys(v'.keys) by { SetMemberDistinct(v, key, member); }
  }

  lemma SetMemberDistinct(v: Value, key: Bytes, member: Value)
    requires v.Object? && WellFormed(v)
    ensures DistinctKeys(SetMember(v, key, member).keys)
  {
  }

  lemma {:induction false} ValueReadIsSound(s: Bytes, level: nat, maxDepth: nat)
    requires level <= maxDepth && ReadValue(s, level, maxDepth).Some?
    ensures Sound(ReadValue(s, level, maxDepth).value.0, level, maxDepth)
    decreases |s|, 1
  {
    hide Skipped, ReadString, ReadNumber, Literal, ReadItems, ReadMembers;
    if Peek(s) == OPEN_OBJECT {
      if level + 1 <= maxDepth && Peek(Skipped(s[1..])) != CLOSE_OBJECT {
        MembersReadAreSound(Skipped(s[1..]), Object([], []), level + 1, maxDepth);
      }
    } else if Peek(s) == OPEN_LIST {
      if level + 1 <= maxDepth && Peek(Skipped(s[1..])) != CLOSE_LIST {
        ItemsReadAreSound(Skipped(s[1..]), [], level + 1, maxDepth);
      }
    } else {
      ScalarRead(s, level, maxDepth);
    }
  }

  lemma ScalarRead(s: Bytes, level: nat, maxDepth: nat)
    requires Peek(s) != OPEN_OBJECT && Peek(s) != OPEN_LIST && ReadValue(s, level, maxDepth).Some?
    ensures var v := ReadValue(s, level, maxDepth).value.0; !v.Array? && !v.Object?
  {
  }

  lemma {:induction false} ItemsReadAreSound(s: Bytes, soFar: seq<Value>, level: nat, maxDepth: nat)
    requires ReadItems(s, soFar, level, maxDepth).Some? && 0 < level && level + Deepest(soFar) <= maxDepth
    requires forall i :: 0 <= i < |soFar| ==> WellFormed(soFar[i])
    ensures Sound(ReadItems(s, soFar, level, maxDepth).value.0, level - 1, maxDepth)
    decreases |s|, 2
  {
    hide ReadValue;
    var item := ReadValue(Skipped(s), level, maxDepth);
    ValueReadIsSound(Skipped(s), level, maxDepth);
    DeepestGrows(soFar, item.value.0);
    var next := Skipped(item.value.1);
    hide Skipped, Nesting, WellFormed;
    if Peek(next) == COMMA {
      hide Deepest;
      ItemsReadAreSound(next[1..], soFar + [item.value.0], level, maxDepth);
    } else {
      ListSound(soFar + [item.value.0], level, maxDepth);
    }
  }

  lemma ListSound(items: seq<Value>, level: nat, maxDepth: nat)
    requires 0 < level && level + Deepest(items) <= maxDepth && forall i :: 0 <= i < |items| ==> WellFormed(items[i])
    ensures Sound(Array(items), level - 1, maxDepth)
  {
  }

  lemma {:induction false} MembersReadAreSound(s: Bytes, soFar: Value, level: nat, maxDepth: nat)
    requires soFar.Object? && WellFormed(soFar) && ReadMembers(s, soFar, level, maxDepth).Some?
    requires 0 < level && level + Deepest(soFar.members) <= maxDepth
    ensures Sound(ReadMembers(s, soFar, level, maxDepth).value.0, level - 1, maxDepth)
    decreases |s|, 2
  {
    hide ReadValue, ReadString;
    var key := ReadString(Skipped(s)[1..], []);
    var colon := Skipped(key.value.1);
    var member := ReadValue(Skipped(colon[1..]), level, maxDepth);
    ValueReadIsSound(Skipped(colon[1..]), level, maxDepth);
    SetMemberSound(soFar, key.value.0, member.value.0, level, maxDepth);
    var v, next := SetMember(soFar, key.value.0, member.value.0), Skipped(member.value.1);
    hide Skipped, Deepest, WellFormed, SetMember;
    if Peek(next) == COMMA {
      MembersReadAreSound(next[1..], v, level, maxDepth);
    }
  }

  /** Whatever the text, what it reads as is a proper value: no key twice, and no deeper than allowed. */
  lemma ParsedIsSound(s: Bytes, maxDepth: nat)
    requires Parsed(s, maxDepth).Some?
    ensures WellFormed(Parsed(s, maxDepth).value) && Nesting(Parsed(s, maxDepth).value) <= maxDepth
  {
    hide ReadValue, Skipped;
    ValueReadIsSound(Skipped(SkippedMark(s)), 0, maxDepth);
  }
}
