/** The JSON reader and writer themselves (src/json.cpp), step by step over a position and a buffer, against what
    Json says they read and write. */
module JsonText {
  import opened Seqs
  import opened Words
  import opened Json
  import Utf8

  /** Value::Set: the member of that key is replaced, or a new one added at the end. */
  method Set(object_: Value, key: Bytes, member: Value) returns (out: Value)
    requires object_.Object? && |object_.keys| == |object_.members|
    ensures out == SetMember(object_, key, member)
  {
    var i := 0;
    while i < |object_.keys|
      invariant 0 <= i <= |object_.keys|
      invariant key !in object_.keys[..i]
    {
      if object_.keys[i] == key {
        FirstIndex(object_.keys, key, i);
        return Object(object_.keys, object_.members[i := member]);
      }
      i := i + 1;
    }
    return Object(object_.keys + [key], object_.members + [member]);
  }

  lemma FirstIndex(keys: seq<Bytes>, key: Bytes, i: nat)
    requires i < |keys| && keys[i] == key && key !in keys[..i]
    ensures IndexOf(keys, key) == i
  {
    var j := IndexOf(keys, key);
  }

  /** Parses one text, from position pos on. A method that fails leaves pos wherever it got to. */
  class Parser {
    const text: Bytes
    const maxDepth: nat
    var pos: nat

    constructor (text: Bytes, maxDepth: nat)
      ensures this.text == text && this.maxDepth == maxDepth && pos == 0
    {
      this.text, this.maxDepth := text, maxDepth;
      pos := 0;
    }

    predicate Within()
      reads this
    {
      pos <= |text|
    }

    function Rest(): (rest: Bytes)
      requires Within()
      reads this
      ensures |rest| == |text| - pos
    {
      text[pos..]
    }

    function PeekByte(): (b: Byte)
      reads this
      ensures Within() ==> b == Peek(Rest())
    {
      if pos >= |text| then 0 else text[pos]
    }

    method Advance(n: nat)
      requires Within() && n <= |Rest()|
      modifies this
      ensures Within() && Rest() == old(Rest())[n..]
    {
      pos := pos + n;
    }

    method SkipWhitespace()
      requires Within()
      modifies this
      ensures Within() && Rest() == Skipped(old(Rest()))
    {
      while pos < |text|
        invariant Within() && Skipped(Rest()) == Skipped(old(Rest()))
      {
        if !IsSpace(text[pos]) {
          return;
        }
        assert Rest()[1..] == text[pos + 1..];
        pos := pos + 1;
      }
    }

    method Consume(literal: Bytes) returns (ok: bool)
      requires Within()
      modifies this
      ensures Within() && (ok <==> literal <= old(Rest()))
      ensures Rest() == if ok then old(Rest())[|literal|..] else old(Rest())
    {
      if |literal| > |text| - pos {
        return false;
      }
      assert text[pos..pos + |literal|] == Rest()[..|literal|];
      if text[pos..pos + |literal|] != literal {
        return false;
      }
      Advance(|literal|);
      ok := true;
    }

    method ParseHex4() returns (out: Option<nat>)
      requires Within()
      modifies this
      ensures Within() && out == ReadHex4(old(Rest()))
      ensures out.Some? ==> Rest() == old(Rest())[4..]
    {
      if |text| - pos < 4 {
        return None;
      }
      ghost var s := Rest();
      var n, i := 0, 0;
      while i < 4
        invariant 0 <= i <= 4 && pos == old(pos) + i && Within() && s == old(Rest()) && |s| >= 4
        invariant forall k :: 0 <= k < i ==> HexValue(s[k]).Some?
        invariant i == 0 ==> n == 0
        invariant i == 1 ==> n == HexValue(s[0]).value
        invariant i == 2 ==> n == HexValue(s[0]).value * 16 + HexValue(s[1]).value
        invariant i == 3 ==> n == (HexValue(s[0]).value * 16 + HexValue(s[1]).value) * 16 + HexValue(s[2]).value
        invariant i == 4 ==> Some(n) == ReadHex4(s)
      {
        var c := text[pos];
        assert c == s[i];
        pos := pos + 1;
        var digit := HexValue(c);
        if digit.None? {
          return None;
        }
        n := n * 16 + digit.value;
        i := i + 1;
      }
      out := Some(n);
    }

    /** After \\u. */
    method ParseUnicode() returns (out: Option<Bytes>)
      requires Within()
      modifies this
      ensures Within() && (out.Some? <==> ReadUnicode(old(Rest())).Some?)
      ensures out.Some? ==> ReadUnicode(old(Rest())) == Some((out.value, Rest()))
    {
      var first := ParseHex4();
      if first.None? {
        return None;
      }
      var cp := first.value;
      if 0xD800 <= cp <= 0xDBFF {
        var save := pos;
        ghost var s := old(Rest());
        assert forall k :: 4 <= k <= |s| ==> s[4..][k - 4..] == s[k..];
        var low := None;
        var escaped := Consume([BACKSLASH, LOWER_U]);
        if escaped {
          assert Rest() == old(Rest())[6..];
          low := ParseHex4();
        }
        if low.Some? && 0xDC00 <= low.value <= 0xDFFF {
          cp := 0x10000 + (cp - 0xD800) * 0x400 + (low.value - 0xDC00);
          assert Rest() == old(Rest())[10..];
        } else {
          pos := save;
          cp := Utf8.REPLACEMENT;
        }
      } else if 0xDC00 <= cp <= 0xDFFF {
        cp := Utf8.REPLACEMENT;
      }
      out := Some(Utf8.Encode(cp));
    }

    /** After a backslash. */
    method ParseEscape() returns (out: Option<Bytes>)
      requires Within()
      modifies this
      ensures Within() && (out.Some? <==> ReadEscape(old(Rest())).Some?)
      ensures out.Some? ==> ReadEscape(old(Rest())) == Some((out.value, Rest()))
    {
      hide ReadUnicode;
      if pos >= |text| {
        return None;
      }
      var e := text[pos];
      Advance(1);
      if e == QUOTE || e == BACKSLASH || e == 0x2F {
        return Some([e]);
      } else if e == 0x62 {
        return Some([8]);
      } else if e == 0x66 {
        return Some([12]);
      } else if e == 0x6E {
        return Some([NEWLINE]);
      } else if e == 0x72 {
        return Some([RETURN]);
      } else if e == 0x74 {
        return Some([TAB]);
      } else if e == LOWER_U {
        out := ParseUnicode();
      } else {
        return None;
      }
    }

    /** From the opening quote on. */
    method ParseString() returns (out: Option<Bytes>)
      requires Within() && Rest() != []
      modifies this
      ensures var r := ReadString(old(Rest())[1..], []);
              && (out.Some? <==> r.Some?)
              && (out.Some? ==> Within() && r == Some((out.value, Rest())))
    {
      hide ReadEscape;
      Advance(1);
      var bytes: Bytes := [];
      while true
        invariant Within() && ReadString(Rest(), bytes) == ReadString(old(Rest())[1..], [])
        decreases |text| - pos
      {
        if pos >= |text| {
          return None;
        }
        var c := text[pos];
        ghost var s := Rest();
        Advance(1);
        if c == QUOTE {
          return Some(bytes);
        }
        if c < 0x20 {
          return None;
        }
        if c != BACKSLASH {
          bytes := bytes + [c];
        } else {
          var more := ParseEscape();
          if more.None? {
            return None;
          }
          assert |Rest()| < |s|;
          bytes := bytes + more.value;
        }
      }
    }

    method ParseDigits(start: Decimal, fraction: bool) returns (d: Decimal)
      requires Within()
      modifies this
      ensures Within() && ReadDigits(old(Rest()), start, fraction) == (d, Rest())
    {
      d := start;
      while IsDigit(PeekByte())
        invariant Within() && ReadDigits(Rest(), d, fraction) == ReadDigits(old(Rest()), start, fraction)
        decreases |text| - pos
      {
        d := AddDigit(d, text[pos] - ZERO, fraction);
        Advance(1);
      }
    }

    method ParsePower() returns (e: nat)
      requires Within()
      modifies this
      ensures Within() && ReadPower(old(Rest()), 0) == (e, Rest())
    {
      e := 0;
      while IsDigit(PeekByte())
        invariant Within() && ReadPower(Rest(), e) == ReadPower(old(Rest()), 0)
        decreases |text| - pos
      {
        if e < 100000 {
          e := e * 10 + (text[pos] - ZERO);
        }
        Advance(1);
      }
    }

    method ParseInteger() returns (out: Option<Decimal>)
      requires Within()
      modifies this
      ensures Within() && (out.Some? <==> ReadInteger(old(Rest())).Some?)
      ensures out.Some? ==> ReadInteger(old(Rest())) == Some((out.value, Rest()))
    {
      if !IsDigit(PeekByte()) {
        return None;
      }
      if PeekByte() == ZERO {
        Advance(1);
        if IsDigit(PeekByte()) {
          return None;
        }
        return Some(NOTHING_READ);
      }
      var d := ParseDigits(NOTHING_READ, false);
      out := Some(d);
    }

    method ParseFraction(integer: Decimal) returns (out: Option<Decimal>)
      requires Within()
      modifies this
      ensures Within() && (out.Some? <==> ReadFraction(old(Rest()), integer).Some?)
      ensures out.Some? ==> ReadFraction(old(Rest()), integer) == Some((out.value, Rest()))
    {
      if PeekByte() != DOT {
        return Some(integer);
      }
      Advance(1);
      if !IsDigit(PeekByte()) {
        return None;
      }
      var d := ParseDigits(integer, true);
      out := Some(d);
    }

    method ParseExponent() returns (out: Option<int>)
      requires Within()
      modifies this
      ensures Within() && (out.Some? <==> ReadExponent(old(Rest())).Some?)
      ensures out.Some? ==> ReadExponent(old(Rest())) == Some((out.value, Rest()))
    {
      if PeekByte() != 0x65 && PeekByte() != 0x45 {
        return Some(0);
      }
      Advance(1);
      var expNegative := false;
      if PeekByte() == PLUS || PeekByte() == MINUS {
        expNegative := PeekByte() == MINUS;
        assert Rest()[1..] == old(Rest())[2..];
        Advance(1);
      }
      if !IsDigit(PeekByte()) {
        return None;
      }
      var e: int := ParsePower();
      out := Some(if expNegative then 0 - e else e);
    }

    method ParseNumber() returns (out: Option<Value>)
      requires Within()
      modifies this
      ensures out.Some? <==> ReadNumber(old(Rest())).Some?
      ensures out.Some? ==> Within() && ReadNumber(old(Rest())) == Some((out.value, Rest()))
    {
      hide ReadInteger, ReadFraction, ReadExponent, Scaled, Finite;
      var negative := PeekByte() == MINUS;
      if negative {
        Advance(1);
      }
      ghost var s := Rest();
      var integer := ParseInteger();
      if integer.None? {
        return None;
      }
      var decimal := ParseFraction(integer.value);
      if decimal.None? {
        return None;
      }
      var exponent := ParseExponent();
      if exponent.None? {
        return None;
      }
      var value := Scaled(decimal.value.mantissa, decimal.value.exponent + exponent.value);
      if !Finite(value) {
        return None;
      }
      assert ReadUnsigned(s) == Some((value, Rest()));
      out := Some(Number(if negative then -value else value));
    }

    method ParseValue(depth: nat) returns (out: Option<Value>)
      requires Within()
      modifies this
      ensures out.Some? <==> ReadValue(old(Rest()), depth, maxDepth).Some?
      ensures out.Some? ==> Within() && ReadValue(old(Rest()), depth, maxDepth) == Some((out.value, Rest()))
      decreases |text| - pos, 1
    {
      hide ReadString, ReadNumber, ReadItems, ReadMembers, Skipped;
      var b := PeekByte();
      if b == OPEN_OBJECT {
        out := ParseObject(depth + 1);
      } else if b == OPEN_LIST {
        out := ParseArray(depth + 1);
      } else if b == QUOTE {
        var s := ParseString();
        out := if s.Some? then Some(String(s.value)) else None;
      } else if b == 0x74 {
        var ok := Consume(TRUE_TEXT);
        out := if ok then Some(Bool(true)) else None;
      } else if b == 0x66 {
        var ok := Consume(FALSE_TEXT);
        out := if ok then Some(Bool(false)) else None;
      } else if b == 0x6E {
        var ok := Consume(NULL_TEXT);
        out := if ok then Some(Null) else None;
      } else {
        out := ParseNumber();
      }
    }

    method ParseObject(depth: nat) returns (out: Option<Value>)
      requires Within() && depth > 0 && PeekByte() == OPEN_OBJECT
      modifies this
      ensures out.Some? <==> ReadValue(old(Rest()), depth - 1, maxDepth).Some?
      ensures out.Some? ==> Within() && ReadValue(old(Rest()), depth - 1, maxDepth) == Some((out.value, Rest()))
      decreases |text| - pos, 0
    {
      hide ReadString, ReadItems, ReadMembers, Skipped;
      if depth > maxDepth {
        return None;
      }
      Advance(1);
      SkipWhitespace();
      if PeekByte() == CLOSE_OBJECT {
        Advance(1);
        return Some(Object([], []));
      }
      out := ParseMembers(depth);
    }

    method ParseMembers(depth: nat) returns (out: Option<Value>)
      requires Within()
      modifies this
      ensures out.Some? <==> ReadMembers(old(Rest()), Object([], []), depth, maxDepth).Some?
      ensures out.Some? ==> Within() && ReadMembers(old(Rest()), Object([], []), depth, maxDepth) == Some((out.value, Rest()))
      decreases |text| - pos, 2
    {
      hide ReadString, ReadValue, Skipped, SetMember;
      var value := Object([], []);
      while true
        invariant Within() && value.Object? && |value.keys| == |value.members|
        invariant ReadMembers(Rest(), value, depth, maxDepth) == ReadMembers(old(Rest()), Object([], []), depth, maxDepth)
        invariant |Rest()| <= |old(Rest())|
        decreases |text| - pos
      {
        ghost var s := Rest();
        SkipWhitespace();
        if PeekByte() != QUOTE {
          return None;
        }
        var key := ParseString();
        if key.None? {
          return None;
        }
        SkipWhitespace();
        if PeekByte() != COLON {
          return None;
        }
        Advance(1);
        SkipWhitespace();
        var member := ParseValue(depth);
        if member.None? {
          return None;
        }
        value := Set(value, key.value, member.value);
        SkipWhitespace();
        var c := PeekByte();
        if c == CLOSE_OBJECT {
          Advance(1);
          return Some(value);
        }
        if c != COMMA {
          return None;
        }
        Advance(1);
        assert |Rest()| < |s|;
      }
    }

    method ParseArray(depth: nat) returns (out: Option<Value>)
      requires Within() && depth > 0 && PeekByte() == OPEN_LIST
      modifies this
      ensures out.Some? <==> ReadValue(old(Rest()), depth - 1, maxDepth).Some?
      ensures out.Some? ==> Within() && ReadValue(old(Rest()), depth - 1, maxDepth) == Some((out.value, Rest()))
      decreases |text| - pos, 0
    {
      hide ReadString, ReadItems, ReadMembers, Skipped;
      if depth > maxDepth {
        return None;
      }
      Advance(1);
      SkipWhitespace();
      if PeekByte() == CLOSE_LIST {
        Advance(1);
        return Some(Array([]));
      }
      out := ParseItems(depth);
    }

    method ParseItems(depth: nat) returns (out: Option<Value>)
      requires Within()
      modifies this
      ensures out.Some? <==> ReadItems(old(Rest()), [], depth, maxDepth).Some?
      ensures out.Some? ==> Within() && ReadItems(old(Rest()), [], depth, maxDepth) == Some((out.value, Rest()))
      decreases |text| - pos, 2
    {
      hide ReadValue, Skipped;
      var items: seq<Value> := [];
      while true
        invariant Within() && ReadItems(Rest(), items, depth, maxDepth) == ReadItems(old(Rest()), [], depth, maxDepth)
        invariant |Rest()| <= |old(Rest())|
        decreases |text| - pos
      {
        ghost var s := Rest();
        SkipWhitespace();
        var item := ParseValue(depth);
        if item.None? {
          return None;
        }
        items := items + [item.value];
        SkipWhitespace();
        var c := PeekByte();
        if c == CLOSE_LIST {
          Advance(1);
          return Some(Array(items));
        }
        if c != COMMA {
          return None;
        }
        Advance(1);
        assert |Rest()| < |s|;
      }
    }

    method Run() returns (out: Option<Value>)
      requires pos == 0
      modifies this
      ensures out == Parsed(text, maxDepth)
    {
      hide ReadValue, Skipped;
      if |text| >= 3 && text[0] == 0xEF && text[1] == 0xBB && text[2] == 0xBF {
        assert [0xEF, 0xBB, 0xBF] <= text;
        pos := 3;
      }
      assert Rest() == SkippedMark(text);
      SkipWhitespace();
      var value := ParseValue(0);
      if value.None? {
        return None;
      }
      SkipWhitespace();
      if pos != |text| {
        return None;
      }
      out := value;
    }
  }

  /** Appends to one growing text. */
  class Writer {
    var out: Bytes

    constructor ()
      ensures out == []
    {
      out := [];
    }

    method AppendIndent(pretty: bool, depth: nat)
      modifies this
      ensures out == old(out) + Indent(pretty, depth)
    {
      if pretty {
        out := out + [NEWLINE] + Spaces(2 * depth);
      }
    }

    method AppendQuoted(bytes: Bytes)
      modifies this
      ensures out == old(out) + Quoted(bytes)
    {
      hide Escaped;
      out := out + [QUOTE];
      var i := 0;
      assert bytes[0..] == bytes;
      while i < |bytes|
        invariant 0 <= i <= |bytes|
        invariant out + EscapedAll(bytes[i..]) == old(out) + [QUOTE] + EscapedAll(bytes)
      {
        assert bytes[i..][1..] == bytes[i + 1..];
        out := out + Escaped(bytes[i]);
        i := i + 1;
      }
      assert bytes[i..] == [];
      Regroup3(old(out), [QUOTE] + EscapedAll(bytes), [QUOTE]);
      Regroup3(old(out), [QUOTE], EscapedAll(bytes));
      out := out + [QUOTE];
    }

    method SerializeTo(value: Value, pretty: bool, depth: nat)
      requires Plain(value) && WellFormed(value)
      modifies this
      ensures out == old(out) + Written(value, pretty, depth)
      decreases value, 0
    {
      hide Quoted, Formatted, Indent, WrittenItems, WrittenMembers;
      match value {
        case Null => out := out + NULL_TEXT;
        case Bool(b) => out := out + if b then TRUE_TEXT else FALSE_TEXT;
        case Number(x) => out := out + Formatted(x);
        case String(bytes) => AppendQuoted(bytes);
        case Array(items) =>
          out := out + [OPEN_LIST];
          AppendItems(items, pretty, depth + 1);
          if items != [] {
            AppendIndent(pretty, depth);
          }
          out := out + [CLOSE_LIST];
          Regroup5(old(out), [OPEN_LIST], WrittenItems(items, pretty, depth + 1),
                  if items != [] then Indent(pretty, depth) else [], [CLOSE_LIST]);
        case Object(keys, members) =>
          out := out + [OPEN_OBJECT];
          AppendMembers(keys, members, pretty, depth + 1);
          if keys != [] {
            AppendIndent(pretty, depth);
          }
          out := out + [CLOSE_OBJECT];
          Regroup5(old(out), [OPEN_OBJECT], WrittenMembers(keys, members, pretty, depth + 1),
                  if keys != [] then Indent(pretty, depth) else [], [CLOSE_OBJECT]);
      }
    }

    method AppendItems(items: seq<Value>, pretty: bool, depth: nat)
      requires forall i :: 0 <= i < |items| ==> Plain(items[i]) && WellFormed(items[i])
      modifies this
      ensures out == old(out) + WrittenItems(items, pretty, depth)
      decreases items, 1
    {
      hide Written, WrittenItems, Indent, Plain, WellFormed, ItemText, ItemsFrom;
      var i := 0;
      ItemsBounds(items, pretty, depth);
      while i < |items|
        invariant 0 <= i <= |items|
        invariant out + ItemsFrom(items, i, pretty, depth) == old(out) + WrittenItems(items, pretty, depth)
      {
        ItemInTurn(items, i, pretty, depth);
        Regroup3(out, ItemText(items, i, pretty, depth), ItemsFrom(items, i + 1, pretty, depth));
        AppendItem(items, i, pretty, depth);
        i := i + 1;
      }
    }

    method AppendItem(items: seq<Value>, i: nat, pretty: bool, depth: nat)
      requires i < |items| && forall i :: 0 <= i < |items| ==> Plain(items[i]) && WellFormed(items[i])
      modifies this
      ensures out == old(out) + ItemText(items, i, pretty, depth)
      decreases items, 0
    {
      hide Written, Indent, Plain, WellFormed;
      if i > 0 {
        out := out + [COMMA];
      }
      AppendIndent(pretty, depth);
      SerializeTo(items[i], pretty, depth);
    }

    method AppendMembers(keys: seq<Bytes>, members: seq<Value>, pretty: bool, depth: nat)
      requires |keys| == |members| && forall i :: 0 <= i < |members| ==> Plain(members[i]) && WellFormed(members[i])
      modifies this
      ensures out == old(out) + WrittenMembers(keys, members, pretty, depth)
      decreases members, 1
    {
      hide Written, WrittenMembers, Indent, Plain, WellFormed, MemberText, MembersFrom;
      var i := 0;
      MembersBounds(keys, members, pretty, depth);
      while i < |keys|
        invariant 0 <= i <= |keys|
        invariant out + MembersFrom(keys, members, i, pretty, depth) == old(out) + WrittenMembers(keys, members, pretty, depth)
      {
        MemberInTurn(keys, members, i, pretty, depth);
        Regroup3(out, MemberText(keys, members, i, pretty, depth), MembersFrom(keys, members, i + 1, pretty, depth));
        AppendMember(keys, members, i, pretty, depth);
        i := i + 1;
      }
    }

    method AppendMember(keys: seq<Bytes>, members: seq<Value>, i: nat, pretty: bool, depth: nat)
      requires i < |keys| == |members| && forall i :: 0 <= i < |members| ==> Plain(members[i]) && WellFormed(members[i])
      modifies this
      ensures out == old(out) + MemberText(keys, members, i, pretty, depth)
      decreases members, 0
    {
      hide Written, Indent, Plain, WellFormed, Quoted;
      if i > 0 {
        out := out + [COMMA];
      }
      AppendIndent(pretty, depth);
      AppendQuoted(keys[i]);
      out := out + Colon(pretty);
      SerializeTo(members[i], pretty, depth);
    }
  }

  function ItemText(items: seq<Value>, i: nat, pretty: bool, depth: nat): Bytes
    requires i < |items| && forall i :: 0 <= i < |items| ==> Plain(items[i]) && WellFormed(items[i])
  {
    (if i > 0 then [COMMA] else []) + Indent(pretty, depth) + Written(items[i], pretty, depth)
  }

  /** What is left to write once i items are. */
  function ItemsFrom(items: seq<Value>, i: nat, pretty: bool, depth: nat): Bytes
    requires i <= |items| && forall i :: 0 <= i < |items| ==> Plain(items[i]) && WellFormed(items[i])
  {
    if i == 0 then WrittenItems(items, pretty, depth)
    else if i == |items| then []
    else [COMMA] + WrittenItems(items[i..], pretty, depth)
  }

  lemma ItemsBounds(items: seq<Value>, pretty: bool, depth: nat)
    requires forall i :: 0 <= i < |items| ==> Plain(items[i]) && WellFormed(items[i])
    ensures ItemsFrom(items, 0, pretty, depth) == WrittenItems(items, pretty, depth)
    ensures ItemsFrom(items, |items|, pretty, depth) == []
  {
  }

  lemma FirstItem(items: seq<Value>, i: nat, pretty: bool, depth: nat)
    requires i < |items| && forall i :: 0 <= i < |items| ==> Plain(items[i]) && WellFormed(items[i])
    ensures WrittenItems(items[i..], pretty, depth)
            == Indent(pretty, depth) + Written(items[i], pretty, depth) + ItemsFrom(items, i + 1, pretty, depth)
  {
    hide Written, Indent, Plain, WellFormed;
    assert items[i..][1..] == items[i + 1..];
  }

  lemma ItemInTurn(items: seq<Value>, i: nat, pretty: bool, depth: nat)
    requires i < |items| && forall i :: 0 <= i < |items| ==> Plain(items[i]) && WellFormed(items[i])
    ensures ItemsFrom(items, i, pretty, depth) == ItemText(items, i, pretty, depth) + ItemsFrom(items, i + 1, pretty, depth)
  {
    FirstItem(items, i, pretty, depth);
    assert items[0..] == items;
    hide Written, Indent, Plain, WellFormed, WrittenItems;
    Regroup4(if i > 0 then [COMMA] else [], Indent(pretty, depth), Written(items[i], pretty, depth),
              ItemsFrom(items, i + 1, pretty, depth));
  }

  function MemberText(keys: seq<Bytes>, members: seq<Value>, i: nat, pretty: bool, depth: nat): Bytes
    requires i < |keys| == |members| && forall i :: 0 <= i < |members| ==> Plain(members[i]) && WellFormed(members[i])
  {
    (if i > 0 then [COMMA] else []) + Indent(pretty, depth) + Quoted(keys[i]) + Colon(pretty) + Written(members[i], pretty, depth)
  }

  function MembersFrom(keys: seq<Bytes>, members: seq<Value>, i: nat, pretty: bool, depth: nat): Bytes
    requires i <= |keys| == |members| && forall i :: 0 <= i < |members| ==> Plain(members[i]) && WellFormed(members[i])
  {
    if i == 0 then WrittenMembers(keys, members, pretty, depth)
    else if i == |members| then []
    else [COMMA] + WrittenMembers(keys[i..], members[i..], pretty, depth)
  }

  lemma MembersBounds(keys: seq<Bytes>, members: seq<Value>, pretty: bool, depth: nat)
    requires |keys| == |members| && forall i :: 0 <= i < |members| ==> Plain(members[i]) && WellFormed(members[i])
    ensures MembersFrom(keys, members, 0, pretty, depth) == WrittenMembers(keys, members, pretty, depth)
    ensures MembersFrom(keys, members, |keys|, pretty, depth) == []
  {
  }

  lemma MemberInTurn(keys: seq<Bytes>, members: seq<Value>, i: nat, pretty: bool, depth: nat)
    requires i < |keys| == |members| && forall i :: 0 <= i < |members| ==> Plain(members[i]) && WellFormed(members[i])
    ensures MembersFrom(keys, members, i, pretty, depth)
            == MemberText(keys, members, i, pretty, depth) + MembersFrom(keys, members, i + 1, pretty, depth)
  {
    hide Written, Indent, Plain, WellFormed, Quoted, Colon;
    assert members[i..][1..] == members[i + 1..] && members[0..] == members;
    assert keys[i..][1..] == keys[i + 1..] && keys[0..] == keys;
    Regroup6(if i > 0 then [COMMA] else [], Indent(pretty, depth), Quoted(keys[i]), Colon(pretty),
               Written(members[i], pretty, depth), MembersFrom(keys, members, i + 1, pretty, depth));
  }

  method Serialize(value: Value, pretty: bool) returns (text: Bytes)
    requires Plain(value) && WellFormed(value)
    ensures text == Serialized(value, pretty)
  {
    var writer := new Writer();
    writer.SerializeTo(value, pretty, 0);
    text := writer.out;
  }

  method Parse(text: Bytes, maxDepth: nat) returns (value: Option<Value>)
    ensures value == Parsed(text, maxDepth)
  {
    var parser := new Parser(text, maxDepth);
    value := parser.Run();
  }
}
