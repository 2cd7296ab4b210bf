/** The last passes of log redaction (src/log-redact.cpp) -- long tokens and base64 -- and the cut that keeps an upload
    small. A text is a sequence of bytes. */
module LogRedact {
  import opened Seqs
  import opened Words
  import opened Utf8

  predicate IsDigit(b: Byte) { 0x30 <= b <= 0x39 }
  predicate IsUpper(b: Byte) { 0x41 <= b <= 0x5A }
  predicate IsAsciiLetter(b: Byte) { IsUpper(b) || 0x61 <= b <= 0x7A }
  predicate IsSlugChar(b: Byte) { IsAsciiLetter(b) || IsDigit(b) || b == 0x5F || b == 0x2D }

  /** "<token>" */
  const TOKEN: Bytes := [0x3C, 0x74, 0x6F, 0x6B, 0x65, 0x6E, 0x3E]

  predicate HasDigit(s: Bytes) { exists i :: 0 <= i < |s| && IsDigit(s[i]) }
  predicate HasLetter(s: Bytes) { exists i :: 0 <= i < |s| && IsAsciiLetter(s[i]) }

  /** Five groups of four letters or digits, joined by dashes. */
  predicate GroupedKey(s: Bytes) {
    |s| == 24 &&
    forall k :: 0 <= k < |s| ==> if k % 5 == 4 then s[k] == 0x2D else IsAsciiLetter(s[k]) || IsDigit(s[k])
  }

  method IsGroupedKey(run: Bytes) returns (is_: bool)
    ensures is_ == GroupedKey(run)
  {
    if |run| != 24 {
      return false;
    }
    var k := 0;
    while k < |run|
      invariant 0 <= k <= |run|
      invariant forall i :: 0 <= i < k ==> if i % 5 == 4 then run[i] == 0x2D else IsAsciiLetter(run[i]) || IsDigit(run[i])
    {
      var dash := k % 5 == 4;
      if (if dash then run[k] != 0x2D else !(IsAsciiLetter(run[k]) || IsDigit(run[k]))) {
        return false;
      }
      k := k + 1;
    }
    is_ := true;
  }

  /** A run that looks like a secret: long, with a digit and a letter, or a stream key. */
  predicate Secret(run: Bytes) { (|run| >= 24 && HasDigit(run) && HasLetter(run)) || GroupedKey(run) }

  /** [i, e) is a run of letters, digits, dashes and underscores that goes on neither way. */
  predicate MaximalRun(s: Bytes, i: nat, e: nat) {
    && i < e <= |s| && (forall k :: i <= k < e ==> IsSlugChar(s[k]))
    && (i == 0 || !IsSlugChar(s[i - 1])) && (e == |s| || !IsSlugChar(s[e]))
  }

  /** No secret is left. */
  ghost predicate Safe(s: Bytes) {
    forall i: nat, e: nat :: MaximalRun(s, i, e) ==> !Secret(s[i..e])
  }

  /** Where the run at the front ends. */
  function RunLength(s: Bytes): (n: nat)
    ensures n <= |s| && (forall k :: 0 <= k < n ==> IsSlugChar(s[k])) && (n < |s| ==> !IsSlugChar(s[n]))
  {
    if s != [] && IsSlugChar(s[0]) then 1 + RunLength(s[1..]) else 0
  }

  /** Every maximal run that looks like a secret becomes a token. */
  function TokensRedacted(s: Bytes): Bytes
    decreases |s|
  {
    if s == [] then []
    else if !IsSlugChar(s[0]) then [s[0]] + TokensRedacted(s[1..])
    else
      var n := RunLength(s);
      (if Secret(s[..n]) then TOKEN else s[..n]) + TokensRedacted(s[n..])
  }

  // --- Nothing secret gets through ---

  /** No run goes on from one text into the other. */
  predicate Apart(u: Bytes, v: Bytes) {
    u == [] || v == [] || !IsSlugChar(u[|u| - 1]) || !IsSlugChar(v[0])
  }

  lemma RunInside(u: Bytes, v: Bytes, i: nat, e: nat)
    requires Apart(u, v) && MaximalRun(u + v, i, e)
    ensures e <= |u| ==> MaximalRun(u, i, e) && (u + v)[i..e] == u[i..e]
    ensures e > |u| ==> i >= |u| && MaximalRun(v, i - |u|, e - |u|) && (u + v)[i..e] == v[i - |u|..e - |u|]
  {
    assert forall k :: 0 <= k < |u| ==> (u + v)[k] == u[k];
    assert forall k :: 0 <= k < |v| ==> (u + v)[|u| + k] == v[k];
    if e <= |u| {
    } else {
      assert forall k :: i - |u| <= k < e - |u| ==> (u + v)[|u| + k] == v[k];
    }
  }

  lemma RunOnLeft(u: Bytes, v: Bytes, i: nat, e: nat)
    requires Apart(u, v) && MaximalRun(u, i, e)
    ensures MaximalRun(u + v, i, e) && (u + v)[i..e] == u[i..e]
  {
    hide IsSlugChar;
    assert forall k :: 0 <= k < |u| ==> (u + v)[k] == u[k];
    if e == |u| < |u + v| {
      assert (u + v)[e] == v[0];
    }
  }

  lemma RunOnRight(u: Bytes, v: Bytes, i: nat, e: nat)
    requires Apart(u, v) && MaximalRun(v, i, e)
    ensures MaximalRun(u + v, |u| + i, |u| + e) && (u + v)[|u| + i..|u| + e] == v[i..e]
  {
    hide IsSlugChar;
    var both := u + v;
    assert forall k :: 0 <= k < |v| ==> both[|u| + k] == v[k];
    forall k | |u| + i <= k < |u| + e
      ensures IsSlugChar(both[k])
    {
      assert both[|u| + (k - |u|)] == v[k - |u|];
    }
    if i > 0 {
      assert both[|u| + (i - 1)] == v[i - 1];
    } else if u != [] {
      assert both[|u| - 1] == u[|u| - 1] && v[0] == v[i];
    }
  }

  /** A text is safe exactly when its parts are, if no run crosses from one to the other. */
  lemma SafeParts(u: Bytes, v: Bytes)
    requires Apart(u, v)
    ensures Safe(u + v) <==> Safe(u) && Safe(v)
  {
    hide Secret, Apart, IsSlugChar;
    if Safe(u) && Safe(v) {
      forall i: nat, e: nat | MaximalRun(u + v, i, e)
        ensures !Secret((u + v)[i..e])
      {
        RunInside(u, v, i, e);
      }
    }
    if Safe(u + v) {
      forall i: nat, e: nat | MaximalRun(u, i, e)
        ensures !Secret(u[i..e])
      {
        RunOnLeft(u, v, i, e);
      }
      forall i: nat, e: nat | MaximalRun(v, i, e)
        ensures !Secret(v[i..e])
      {
        RunOnRight(u, v, i, e);
      }
    }
  }

  lemma ShortIsSafe(s: Bytes)
    requires |s| < 24
    ensures Safe(s)
  {
  }

  /** A run on its own. */
  lemma OneRun(s: Bytes)
    requires forall k :: 0 <= k < |s| ==> IsSlugChar(s[k])
    ensures Safe(s) <==> s == [] || !Secret(s)
  {
    hide Secret;
    if s != [] {
      assert MaximalRun(s, 0, |s|) && s[0..|s|] == s;
    }
  }

  lemma {:induction false} TokensAreSafe(s: Bytes)
    ensures Safe(TokensRedacted(s))
    ensures s != [] && !IsSlugChar(s[0]) ==> TokensRedacted(s) != [] && TokensRedacted(s)[0] == s[0]
    ensures s == [] ==> TokensRedacted(s) == []
    decreases |s|
  {
    hide Secret, MaximalRun, Safe;
    if s == [] {
      ShortIsSafe([]);
    } else if !IsSlugChar(s[0]) {
      TokensAreSafe(s[1..]);
      ShortIsSafe([s[0]]);
      SafeParts([s[0]], TokensRedacted(s[1..]));
    } else {
      var n := RunLength(s);
      var head, rest := if Secret(s[..n]) then TOKEN else s[..n], TokensRedacted(s[n..]);
      TokensAreSafe(s[n..]);
      if Secret(s[..n]) {
        ShortIsSafe(TOKEN);
      } else {
        OneRun(s[..n]);
      }
      assert Apart(head, rest);
      SafeParts(head, rest);
    }
  }

  // --- Base64 ---

  predicate IsBase64Char(b: Byte) { IsAsciiLetter(b) || IsDigit(b) || b == 0x2B || b == 0x2F }

  /** 0: digit, 1: upper case, 2: lower case. */
  function CharClass(b: Byte): nat { if IsDigit(b) then 0 else if IsUpper(b) then 1 else 2 }

  /** Marks what stands next to it as part of a name: slug characters . \\ : < > */
  predicate PartOfName(b: Byte) {
    IsSlugChar(b) || b == 0x2E || b == 0x5C || b == 0x3A || b == 0x3C || b == 0x3E
  }

  /** What reading a run of base64 characters counts. */
  datatype Tally = Tally(alnum: nat, switches: nat, symbol: bool, digit: bool, upper: bool, lower: bool, last: Option<nat>)
  const NOTHING := Tally(0, 0, false, false, false, false, None)

  function Counted(t: Tally, b: Byte): Tally {
    if b == 0x2B || b == 0x2F then t.(symbol := true, last := None)
    else
      var c := CharClass(b);
      Tally(t.alnum + 1, t.switches + (if t.last.Some? && t.last.value != c then 1 else 0), t.symbol,
            t.digit || c == 0, t.upper || c == 1, t.lower || c == 2, Some(c))
  }

  /** The run of base64 characters at the front, and its counts. */
  function Base64Run(s: Bytes, t: Tally): (r: (nat, Tally))
    ensures r.0 <= |s| && (r.0 < |s| ==> !IsBase64Char(s[r.0])) && forall k :: 0 <= k < r.0 ==> IsBase64Char(s[k])
  {
    if s == [] || !IsBase64Char(s[0]) then (0, t)
    else
      var r := Base64Run(s[1..], Counted(t, s[0]));
      (1 + r.0, r.1)
  }

  function Padding(s: Bytes): (n: nat)
    ensures n <= 2 && n <= |s|
  {
    if s == [] || s[0] != 0x3D then 0 else if |s| == 1 || s[1] != 0x3D then 1 else 2
  }

  predicate LooksEncoded(t: Tally) {
    t.symbol && t.alnum >= 20 && t.digit && t.upper && t.lower && t.switches * 3 >= t.alnum
  }

  function RunEnd(s: Bytes): (end: nat)
    requires s != [] && IsBase64Char(s[0])
    ensures 0 < end <= |s|
  {
    var n := Base64Run(s, NOTHING).0;
    n + Padding(s[n..])
  }

  /** Nothing that belongs to a name on either side. */
  predicate Standalone(before: Option<Byte>, s: Bytes, end: nat)
    requires end <= |s|
  {
    (before.None? || !PartOfName(before.value)) && (end == |s| || !PartOfName(s[end]))
  }

  function Base64Redacted(before: Option<Byte>, s: Bytes): Bytes
    decreases |s|
  {
    if s == [] then []
    else if !IsBase64Char(s[0]) then [s[0]] + Base64Redacted(Some(s[0]), s[1..])
    else
      var end := RunEnd(s);
      var redact := Standalone(before, s, end) && LooksEncoded(Base64Run(s, NOTHING).1);
      (if redact then TOKEN else s[..end]) + Base64Redacted(Some(s[end - 1]), s[end..])
  }

  /** out is what has been written before s: unless it ends a name, it ends with no slug character. */
  predicate Follows(before: Option<Byte>, out: Bytes) {
    out == [] || !IsSlugChar(out[|out| - 1]) || (before.Some? && IsSlugChar(before.value))
  }

  /** What is put in for base64 text can neither bring a secret together nor leave part of one. */
  lemma {:induction false} Base64KeepsSafe(before: Option<Byte>, out: Bytes, s: Bytes)
    requires Safe(out + s) && Follows(before, out)
    ensures Safe(out + Base64Redacted(before, s))
    decreases |s|
  {
    hide Safe, LooksEncoded, Base64Run;
    if s == [] {
    } else if !IsBase64Char(s[0]) {
      Moved(out, s, 1);
      Base64KeepsSafe(Some(s[0]), out + s[..1], s[1..]);
      assert s[..1] == [s[0]];
      Regroup3(out, s[..1], Base64Redacted(Some(s[0]), s[1..]));
    } else {
      var end := RunEnd(s);
      var rest := Base64Redacted(Some(s[end - 1]), s[end..]);
      if Standalone(before, s, end) && LooksEncoded(Base64Run(s, NOTHING).1) {
        Replaced(before, out, s, end);
        Base64KeepsSafe(Some(s[end - 1]), out + TOKEN, s[end..]);
        Regroup3(out, TOKEN, rest);
      } else {
        Moved(out, s, end);
        Base64KeepsSafe(Some(s[end - 1]), out + s[..end], s[end..]);
        Regroup3(out, s[..end], rest);
      }
    }
  }

  lemma Moved(out: Bytes, s: Bytes, n: nat)
    requires 0 < n <= |s|
    ensures out + s == out + s[..n] + s[n..] && Follows(Some(s[n - 1]), out + s[..n])
  {
    assert s == s[..n] + s[n..];
  }

  lemma Replaced(before: Option<Byte>, out: Bytes, s: Bytes, end: nat)
    requires 0 < end <= |s| && Standalone(before, s, end) && Follows(before, out) && Safe(out + s)
    ensures Safe(out + TOKEN + s[end..]) && Follows(Some(s[end - 1]), out + TOKEN)
  {
    hide Safe;
    assert s == s[..end] + s[end..];
    SafeParts(out, s);
    SafeParts(s[..end], s[end..]);
    ShortIsSafe(TOKEN);
    SafeParts(out, TOKEN);
    SafeParts(out + TOKEN, s[end..]);
  }

  /** The tail of RedactLine. */
  function TailRedacted(s: Bytes): Bytes {
    if |s| < 20 then s
    else
      var tokens := TokensRedacted(s);
      if 0x2B in tokens || 0x2F in tokens then Base64Redacted(None, tokens) else tokens
  }

  /** Whatever line comes in, no run of 24 or more letters, digits, dashes and underscores with a digit and a letter
      comes out, and no stream key: not even put together by the base64 pass. */
  lemma RedactedLineIsSafe(s: Bytes)
    ensures Safe(TailRedacted(s))
  {
    hide Safe;
    if |s| < 20 {
      ShortIsSafe(s);
    } else {
      var tokens := TokensRedacted(s);
      TokensAreSafe(s);
      assert [] + tokens == tokens && [] + Base64Redacted(None, tokens) == Base64Redacted(None, tokens);
      Base64KeepsSafe(None, [], tokens);
    }
  }

  // --- The passes themselves ---

  lemma OtherCharStep(s: Bytes, i: nat)
    requires i < |s| && !IsSlugChar(s[i])
    ensures TokensRedacted(s[i..]) == s[i..i + 1] + TokensRedacted(s[i + 1..])
  {
    hide Secret, IsSlugChar, RunLength;
    assert s[i..][1..] == s[i + 1..] && [s[i..][0]] == s[i..i + 1];
  }

  lemma TokenStep(s: Bytes, i: nat)
    requires i < |s| && IsSlugChar(s[i])
    ensures var e := i + RunLength(s[i..]);
            e > i && TokensRedacted(s[i..]) == (if Secret(s[i..e]) then TOKEN else s[i..e]) + TokensRedacted(s[e..])
  {
    assert RunLength(s[i..]) > 0;
    hide Secret, IsSlugChar, RunLength;
    var rest, n := s[i..], RunLength(s[i..]);
    assert rest[..n] == s[i..i + n] && rest[n..] == s[i + n..];
  }

  method RedactLongTokens(s: Bytes) returns (out: Bytes)
    ensures out == TokensRedacted(s)
  {
    hide Secret, IsSlugChar, TokensRedacted, RunLength, HasDigit, HasLetter;
    out := [];
    var last, i := 0, 0;
    assert s[0..] == s;
    while i < |s|
      invariant 0 <= last <= i <= |s|
      invariant out + s[last..i] + TokensRedacted(s[i..]) == TokensRedacted(s)
    {
      if !IsSlugChar(s[i]) {
        OtherCharStep(s, i);
        OneOn(out, s, last, i, i + 1, TokensRedacted(s[i + 1..]));
        i := i + 1;
        continue;
      }
      TokenStep(s, i);
      var e, digit, letter := ScanRun(s, i);
      var key := IsGroupedKey(s[i..e]);
      SecretIs(s[i..e], digit, letter, key);
      if (e - i >= 24 && digit && letter) || key {
        Regroup3(out + s[last..i], TOKEN, TokensRedacted(s[e..]));
        out := out + s[last..i] + TOKEN;
        last := e;
        assert s[e..e] == [];
      } else {
        OneOn(out, s, last, i, e, TokensRedacted(s[e..]));
      }
      i := e;
    }
    assert s[last..i] == s[last..];
    NoTokens(s[i..]);
    out := out + s[last..];
  }

  lemma NoTokens(s: Bytes)
    requires s == []
    ensures TokensRedacted(s) == []
  {
  }

  lemma OneOn(out: Bytes, s: Bytes, last: nat, i: nat, e: nat, rest: Bytes)
    requires last <= i <= e <= |s|
    ensures out + s[last..i] + (s[i..e] + rest) == out + s[last..e] + rest
  {
    assert s[last..e] == s[last..i] + s[i..e];
  }

  lemma SecretIs(run: Bytes, digit: bool, letter: bool, key: bool)
    requires digit == HasDigit(run) && letter == HasLetter(run) && key == GroupedKey(run)
    ensures Secret(run) == ((|run| >= 24 && digit && letter) || key)
  {
  }

  method ScanRun(s: Bytes, i: nat) returns (e: nat, digit: bool, letter: bool)
    requires i < |s| && IsSlugChar(s[i])
    ensures i < e <= |s| && e - i == RunLength(s[i..])
    ensures digit == HasDigit(s[i..e]) && letter == HasLetter(s[i..e])
  {
    hide IsSlugChar, IsDigit, IsAsciiLetter;
    e, digit, letter := i, false, false;
    while e < |s| && IsSlugChar(s[e])
      invariant i <= e <= |s| && (e - i) + RunLength(s[e..]) == RunLength(s[i..])
      invariant digit == HasDigit(s[i..e]) && letter == HasLetter(s[i..e])
    {
      assert s[e..][1..] == s[e + 1..];
      OneMore(s[i..e], s[e]);
      assert s[i..e + 1] == s[i..e] + [s[e]];
      digit := digit || IsDigit(s[e]);
      letter := letter || IsAsciiLetter(s[e]);
      e := e + 1;
    }
    assert s[i..][0] == s[i];
  }

  lemma OneMore(s: Bytes, b: Byte)
    ensures HasDigit(s + [b]) == (HasDigit(s) || IsDigit(b)) && HasLetter(s + [b]) == (HasLetter(s) || IsAsciiLetter(b))
  {
    var both := s + [b];
    assert both[|s|] == b;
    if HasDigit(s) {
      var i :| 0 <= i < |s| && IsDigit(s[i]);
      assert IsDigit(both[i]);
    }
    if HasLetter(s) {
      var i :| 0 <= i < |s| && IsAsciiLetter(s[i]);
      assert IsAsciiLetter(both[i]);
    }
  }

  method ScanBase64(s: Bytes, i: nat) returns (e: nat, tally: Tally)
    requires i <= |s|
    ensures i <= e <= |s| && Base64Run(s[i..], NOTHING) == (e - i, tally)
  {
    hide IsBase64Char, Counted;
    e, tally := i, NOTHING;
    while e < |s| && IsBase64Char(s[e])
      invariant i <= e <= |s|
      invariant Base64Run(s[i..], NOTHING) == ((e - i) + Base64Run(s[e..], tally).0, Base64Run(s[e..], tally).1)
    {
      assert s[e..][1..] == s[e + 1..];
      tally := Counted(tally, s[e]);
      e := e + 1;
    }
  }

  /** The character before position i. */
  function Previous(s: Bytes, i: nat): Option<Byte>
    requires i <= |s|
  {
    if i == 0 then None else Some(s[i - 1])
  }

  /** The run of base64 characters at i with its padding, and whether it goes. */
  method LookAtRun(s: Bytes, i: nat) returns (end: nat, redact: bool)
    requires i < |s| && IsBase64Char(s[i])
    ensures i < end <= |s| && end - i == RunEnd(s[i..])
    ensures redact == (Standalone(Previous(s, i), s[i..], end - i) && LooksEncoded(Base64Run(s[i..], NOTHING).1))
  {
    hide IsBase64Char, LooksEncoded, PartOfName, Base64Run;
    var e, tally := ScanBase64(s, i);
    end := e;
    while end < |s| && end - e < 2 && s[end] == 0x3D
      invariant e <= end <= |s| && end - e <= 2
      invariant forall k :: e <= k < end ==> s[k] == 0x3D
    {
      end := end + 1;
    }
    EndIs(s, i, e, end, tally);
    var standalone := (i == 0 || !PartOfName(s[i - 1])) && (end == |s| || !PartOfName(s[end]));
    redact := standalone && LooksEncoded(tally);
  }

  lemma CharStep(s: Bytes, i: nat)
    requires i < |s| && !IsBase64Char(s[i])
    ensures Base64Redacted(Previous(s, i), s[i..]) == s[i..i + 1] + Base64Redacted(Previous(s, i + 1), s[i + 1..])
  {
    hide LooksEncoded, Base64Run, PartOfName, IsBase64Char, RunEnd, Standalone;
    assert s[i..][1..] == s[i + 1..] && [s[i..][0]] == s[i..i + 1];
  }

  lemma RunStep(s: Bytes, i: nat)
    requires i < |s| && IsBase64Char(s[i])
    ensures var end := i + RunEnd(s[i..]);
            Base64Redacted(Previous(s, i), s[i..])
            == (if Standalone(Previous(s, i), s[i..], end - i) && LooksEncoded(Base64Run(s[i..], NOTHING).1) then TOKEN
                else s[i..end]) + Base64Redacted(Previous(s, end), s[end..])
  {
    hide LooksEncoded, Base64Run, PartOfName, IsBase64Char, RunEnd, Standalone;
    var rest := s[i..];
    var n := RunEnd(rest);
    assert rest[..n] == s[i..i + n] && rest[n..] == s[i + n..] && rest[n - 1] == s[i + n - 1];
  }

  method RedactBase64(s: Bytes) returns (out: Bytes)
    ensures out == Base64Redacted(None, s)
  {
    hide IsBase64Char, LooksEncoded, Standalone, Base64Run, RunEnd, Base64Redacted;
    out := [];
    var last, i := 0, 0;
    assert s[0..] == s;
    while i < |s|
      invariant 0 <= last <= i <= |s|
      invariant out + s[last..i] + Base64Redacted(Previous(s, i), s[i..]) == Base64Redacted(None, s)
    {
      if !IsBase64Char(s[i]) {
        CharStep(s, i);
        OneOn(out, s, last, i, i + 1, Base64Redacted(Previous(s, i + 1), s[i + 1..]));
        i := i + 1;
        continue;
      }
      RunStep(s, i);
      var end, redact := LookAtRun(s, i);
      if redact {
        Regroup3(out + s[last..i], TOKEN, Base64Redacted(Previous(s, end), s[end..]));
        out := out + s[last..i] + TOKEN;
        last := end;
        assert s[end..end] == [];
      } else {
        OneOn(out, s, last, i, end, Base64Redacted(Previous(s, end), s[end..]));
      }
      i := end;
    }
    assert s[last..i] == s[last..];
    NothingLeft(Previous(s, i), s[i..]);
    out := out + s[last..];
  }

  lemma NothingLeft(before: Option<Byte>, s: Bytes)
    requires s == []
    ensures Base64Redacted(before, s) == []
  {
  }

  lemma EndIs(s: Bytes, i: nat, e: nat, end: nat, tally: Tally)
    requires i < |s| && IsBase64Char(s[i]) && i <= e <= end <= |s| && Base64Run(s[i..], NOTHING) == (e - i, tally)
    requires end - e <= 2 && (forall k :: e <= k < end ==> s[k] == 0x3D)
    requires end == |s| || end - e == 2 || s[end] != 0x3D
    ensures RunEnd(s[i..]) == end - i && Base64Run(s[i..], NOTHING).1 == tally
  {
    assert s[i..][e - i..] == s[e..];
    hide Base64Run;
  }

  /** What RedactLine does last. */
  method RedactTail(s: Bytes) returns (out: Bytes)
    ensures out == TailRedacted(s) && Safe(out)
  {
    hide Safe, TokensRedacted, Base64Redacted;
    RedactedLineIsSafe(s);
    out := s;
    if |s| >= 20 {
      out := RedactLongTokens(s);
      if 0x2B in out || 0x2F in out {
        out := RedactBase64(out);
      }
    }
  }

  // --- The cut for an upload ---

  const UPLOAD_CAP_BYTES: nat := 4718592
  const UPLOAD_HEAD_BYTES: nat := 262144
  /** A line of its own that says the middle was cut out. */
  const CUT_MARKER: Bytes := [0x0A, 0x5B, 0xE2, 0x80, 0xA6, 0x20, 0x72, 0x65, 0x63, 0x6F, 0x72, 0x74, 0x61, 0x64, 0x6F, 0x20, 0xE2,
                              0x80, 0xA6, 0x5D, 0x0A]

  /** Position p does not lie inside a sequence. */
  predicate Boundary(s: Bytes, p: nat) { p <= |s| && (p == |s| || !Continues(s[p])) }

  lemma EncodeShape(cp: nat)
    requires Scalar(cp)
    ensures !Continues(Encode(cp)[0]) && forall i :: 0 < i < |Encode(cp)| ==> Continues(Encode(cp)[i])
  {
  }

  ghost predicate CutBetween(cps: seq<nat>, p: nat, k: nat)
    requires forall i :: 0 <= i < |cps| ==> Scalar(cps[i])
  {
    && k <= |cps| && p <= |EncodeAll(cps)|
    && EncodeAll(cps)[..p] == EncodeAll(cps[..k]) && EncodeAll(cps)[p..] == EncodeAll(cps[k..])
  }

  lemma CutAtStart(cps: seq<nat>)
    requires forall i :: 0 <= i < |cps| ==> Scalar(cps[i])
    ensures CutBetween(cps, 0, 0)
  {
    assert EncodeAll(cps)[0..] == EncodeAll(cps) && cps[..0] == [] && cps[0..] == cps;
  }

  /** A boundary lies between two code points. */
  lemma {:induction false} BoundaryBetween(cps: seq<nat>, p: nat) returns (k: nat)
    requires forall i :: 0 <= i < |cps| ==> Scalar(cps[i])
    requires Boundary(EncodeAll(cps), p)
    ensures CutBetween(cps, p, k)
    decreases |cps|
  {
    hide CutBetween, Encode;
    var s := EncodeAll(cps);
    if p == 0 {
      k := 0;
      CutAtStart(cps);
    } else {
      var n := |Encode(cps[0])|;
      assert s == Encode(cps[0]) + EncodeAll(cps[1..]);
      EncodeShape(cps[0]);
      assert forall i :: 0 < i < n ==> Continues(s[i]);
      var j := BoundaryBetween(cps[1..], p - n);
      k := j + 1;
      FirstThenCut(cps, p - n, j);
    }
  }

  lemma FirstThenCut(cps: seq<nat>, p: nat, j: nat)
    requires cps != [] && (forall i :: 0 <= i < |cps| ==> Scalar(cps[i])) && CutBetween(cps[1..], p, j)
    ensures Scalar(cps[0]) && CutBetween(cps, |Encode(cps[0])| + p, j + 1)
  {
    hide Encode;
    var first, rest := Encode(cps[0]), EncodeAll(cps[1..]);
    assert EncodeAll(cps) == first + rest;
    assert cps[..j + 1][0] == cps[0] && cps[..j + 1][1..] == cps[1..][..j] && cps[j + 1..] == cps[1..][j..];
    assert (first + rest)[..|first| + p] == first + rest[..p] && (first + rest)[|first| + p..] == rest[p..];
  }

  /** Cut at a boundary, a text is text on both sides. */
  lemma CutIsText(text: Bytes, p: nat)
    requires Utf8.Valid(text) && Boundary(text, p)
    ensures Utf8.Valid(text[..p]) && Utf8.Valid(text[p..])
  {
    var cps := DecodeAllScalar(text);
    var k := BoundaryBetween(cps, p);
    hide DecodeAllScalar, EncodeAll, Boundary;
    DecodeEncodeAll(cps[..k]);
    DecodeEncodeAll(cps[k..]);
    hide Utf8.Valid;
  }

  /** No more than three bytes in a row continue a sequence. */
  lemma {:induction false} BoundaryNear(cps: seq<nat>, p: nat)
    requires (forall i :: 0 <= i < |cps| ==> Scalar(cps[i])) && 3 <= p < |EncodeAll(cps)|
    ensures var s := EncodeAll(cps); !Continues(s[p]) || !Continues(s[p - 1]) || !Continues(s[p - 2]) || !Continues(s[p - 3])
    decreases |cps|
  {
    var s, n := EncodeAll(cps), |Encode(cps[0])|;
    EncodeShape(cps[0]);
    var rest := EncodeAll(cps[1..]);
    assert s == Encode(cps[0]) + rest;
    hide Encode;
    if p - 3 >= n {
      if p - 3 - n + 3 < |rest| {
        if p - n >= 3 {
          BoundaryNear(cps[1..], p - n);
        }
      }
    } else if p - 3 == 0 {
      assert s[0] == Encode(cps[0])[0];
    } else if p >= n {
      FirstOfRest(cps[1..]);
      assert s[n] == rest[0];
    }
  }

  lemma FirstOfRest(cps: seq<nat>)
    requires forall i :: 0 <= i < |cps| ==> Scalar(cps[i])
    ensures cps != [] ==> EncodeAll(cps) != [] && !Continues(EncodeAll(cps)[0])
    ensures cps == [] ==> EncodeAll(cps) == []
  {
    if cps != [] {
      EncodeShape(cps[0]);
    }
  }

  /** p is the last boundary at or before pos. */
  predicate IsBoundaryAt(text: Bytes, pos: nat, p: nat) {
    p <= pos < |text| && Boundary(text, p) && forall k :: p < k <= pos ==> Continues(text[k])
  }

  /** Back to where the sequence at pos starts: at most three bytes. */
  method Utf8Boundary(text: Bytes, pos: nat) returns (p: nat)
    requires Utf8.Valid(text) && 3 <= pos < |text|
    ensures pos - 3 <= p && IsBoundaryAt(text, pos, p)
  {
    hide Utf8.Valid, Continues, DecodeAllScalar;
    NearBoundary(text, pos);
    p := pos;
    while p > 0 && p < |text| && Continues(text[p])
      invariant pos - 3 <= p <= pos
      invariant forall k :: p < k <= pos ==> Continues(text[k])
    {
      p := p - 1;
    }
    FirstIsBoundary(text);
  }

  lemma NearBoundary(text: Bytes, pos: nat)
    requires Utf8.Valid(text) && 3 <= pos < |text|
    ensures !Continues(text[pos]) || !Continues(text[pos - 1]) || !Continues(text[pos - 2]) || !Continues(text[pos - 3])
  {
    BoundaryNear(DecodeAllScalar(text), pos);
  }

  lemma FirstIsBoundary(text: Bytes)
    requires Utf8.Valid(text)
    ensures text != [] ==> !Continues(text[0])
  {
    FirstOfRest(DecodeAllScalar(text));
  }

  const LINE_FEED: Byte := 0x0A

  /** A line feed is a sequence of its own, so the byte behind it starts another. */
  lemma {:induction false} AfterLineFeed(cps: seq<nat>, p: nat)
    requires (forall i :: 0 <= i < |cps| ==> Scalar(cps[i])) && p < |EncodeAll(cps)| && EncodeAll(cps)[p] == LINE_FEED
    ensures Boundary(EncodeAll(cps), p + 1)
    decreases |cps|
  {
    var s, n, rest := EncodeAll(cps), |Encode(cps[0])|, EncodeAll(cps[1..]);
    EncodeShape(cps[0]);
    assert s == Encode(cps[0]) + rest;
    if p >= n {
      hide Encode;
      AfterLineFeed(cps[1..], p - n);
    } else {
      assert Encode(cps[0])[p] == LINE_FEED;
      LineFeedAlone(cps[0], p);
      hide Encode;
      FirstOfRest(cps[1..]);
    }
  }

  lemma LineFeedAlone(cp: nat, i: nat)
    requires Scalar(cp) && i < |Encode(cp)| && Encode(cp)[i] == LINE_FEED
    ensures |Encode(cp)| == 1
  {
  }

  /** The last line feed at or before position from, if any. */
  method LastLineFeed(text: Bytes, from: nat) returns (at: Option<nat>)
    requires from < |text|
    ensures at.Some? ==> at.value <= from && text[at.value] == LINE_FEED
    ensures forall k :: 0 <= k <= from && text[k] == LINE_FEED ==> at.Some? && k <= at.value
  {
    var i := from + 1;
    while i > 0
      invariant 0 <= i <= from + 1
      invariant forall k :: i <= k <= from ==> text[k] != LINE_FEED
    {
      i := i - 1;
      if text[i] == LINE_FEED {
        return Some(i);
      }
    }
    at := None;
  }

  method NextLineFeed(text: Bytes, from: nat) returns (at: Option<nat>)
    requires from <= |text|
    ensures at.Some? ==> from <= at.value < |text| && text[at.value] == LINE_FEED
    ensures forall k :: from <= k < |text| && text[k] == LINE_FEED ==> at.Some? && at.value <= k
  {
    var i := from;
    while i < |text|
      invariant from <= i <= |text|
      invariant forall k :: from <= k < i ==> text[k] != LINE_FEED
    {
      if text[i] == LINE_FEED {
        return Some(i);
      }
      i := i + 1;
    }
    at := None;
  }

  /** The head ends with the last full line before the boundary b; with no line to end (the first byte aside), at b. */
  ghost predicate HeadCut(text: Bytes, b: nat, h: nat) {
    && b < |text| && 0 < h <= b
    && (forall k :: h <= k < b ==> text[k] != LINE_FEED)
    && (h < b ==> text[h - 1] == LINE_FEED)
    && (text[h - 1] != LINE_FEED ==> forall k :: 0 < k < b ==> text[k] != LINE_FEED)
  }

  /** The tail starts with the first line that starts behind position from, or, if none does, with the next sequence. */
  ghost predicate TailCut(text: Bytes, from: nat, t: nat) {
    && from <= t <= |text|
    && if exists k :: from <= k < |text| - 1 && text[k] == LINE_FEED then
         from < t && text[t - 1] == LINE_FEED && forall k :: from <= k < t - 1 ==> text[k] != LINE_FEED
       else
         Boundary(text, t) && forall k :: from <= k < t ==> Continues(text[k])
  }

  /** The head of the text and its tail, each of them text, around the marker; the tail as long as the cap allows. */
  ghost predicate Capped(text: Bytes, out: Bytes, b: nat, h: nat, t: nat) {
    && IsBoundaryAt(text, UPLOAD_HEAD_BYTES, b) && HeadCut(text, b, h)
    && h + |CUT_MARKER| <= UPLOAD_CAP_BYTES < |text|
    && h < t && TailCut(text, |text| - (UPLOAD_CAP_BYTES - h - |CUT_MARKER|), t)
    && out == text[..h] + CUT_MARKER + text[t..]
    && Utf8.Valid(text[..h]) && Utf8.Valid(text[t..]) && |out| <= UPLOAD_CAP_BYTES
  }

  method CutHead(text: Bytes) returns (headEnd: nat, ghost b: nat)
    requires Utf8.Valid(text) && |text| > UPLOAD_CAP_BYTES
    ensures Boundary(text, headEnd) && IsBoundaryAt(text, UPLOAD_HEAD_BYTES, b) && HeadCut(text, b, headEnd)
  {
    hide Utf8.Valid;
    headEnd := Utf8Boundary(text, UPLOAD_HEAD_BYTES);
    b := headEnd;
    var lastNewline := LastLineFeed(text, headEnd - 1);
    if lastNewline.Some? && lastNewline.value > 0 {
      LineStarts(text, lastNewline.value);
      headEnd := lastNewline.value + 1;
    }
  }

  lemma LineStarts(text: Bytes, p: nat)
    requires Utf8.Valid(text) && p < |text| && text[p] == LINE_FEED
    ensures Boundary(text, p + 1)
  {
    AfterLineFeed(DecodeAllScalar(text), p);
  }

  method CutTail(text: Bytes, from: nat) returns (tailStart: nat)
    requires Utf8.Valid(text) && 0 < from <= |text|
    ensures Boundary(text, tailStart) && TailCut(text, from, tailStart)
  {
    hide Utf8.Valid;
    tailStart := from;
    var nextNewline := NextLineFeed(text, tailStart);
    if nextNewline.Some? && nextNewline.value + 1 < |text| {
      LineStarts(text, nextNewline.value);
      tailStart := nextNewline.value + 1;
    } else {
      while tailStart < |text| && Continues(text[tailStart])
        invariant from <= tailStart <= |text|
        invariant forall k :: from <= k < tailStart ==> Continues(text[k])
      {
        tailStart := tailStart + 1;
      }
    }
  }

  method CapForUpload(text: Bytes) returns (out: Bytes, capped: bool)
    requires Utf8.Valid(text)
    ensures capped <==> |text| > UPLOAD_CAP_BYTES
    ensures !capped ==> out == text
    ensures capped ==> exists b: nat, h: nat, t: nat :: Capped(text, out, b, h, t)
  {
    hide Utf8.Valid;
    if |text| <= UPLOAD_CAP_BYTES {
      return text, false;
    }
    var headEnd;
    ghost var b;
    headEnd, b := CutHead(text);
    var tailBudget := UPLOAD_CAP_BYTES - headEnd - |CUT_MARKER|;
    var tailStart := CutTail(text, |text| - tailBudget);
    if tailStart < headEnd {
      tailStart := headEnd;
    }
    CutIsText(text, headEnd);
    CutIsText(text, tailStart);
    out := text[..headEnd] + CUT_MARKER + text[tailStart..];
    capped := true;
    assert Capped(text, out, b, headEnd, tailStart);
  }
}
