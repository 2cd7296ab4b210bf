/** Cleaning a reply before it is shown (src/chat-text.cpp). */
module ChatText {
  import opened Seqs
  import opened Words
  import opened Utf8

  const MAX_REPLY_CHARS: nat := 4000

  datatype Range = Range(first: nat, last: nat)

  const SIGNS: seq<Range> := [
    Range(0x00A9, 0x00A9), Range(0x00AE, 0x00AE), Range(0x203C, 0x203C), Range(0x2049, 0x2049),
    Range(0x20E3, 0x20E3), Range(0x2122, 0x2122), Range(0x2139, 0x2139), Range(0x2194, 0x2199),
    Range(0x21A9, 0x21AA), Range(0x231A, 0x231B), Range(0x2328, 0x2328), Range(0x2388, 0x2388),
    Range(0x23CF, 0x23CF), Range(0x23E9, 0x23F3), Range(0x23F8, 0x23FA), Range(0x24C2, 0x24C2),
    Range(0x25AA, 0x25AB), Range(0x25B6, 0x25B6), Range(0x25C0, 0x25C0), Range(0x25FB, 0x25FE)]
  const SYMBOLS: seq<Range> := [
    Range(0x2600, 0x2605), Range(0x2607, 0x2612), Range(0x2614, 0x2685), Range(0x2690, 0x2705),
    Range(0x2708, 0x2712), Range(0x2714, 0x2714), Range(0x2716, 0x2716), Range(0x271D, 0x271D),
    Range(0x2721, 0x2721), Range(0x2728, 0x2728), Range(0x2733, 0x2734), Range(0x2744, 0x2744),
    Range(0x2747, 0x2747), Range(0x274C, 0x274C), Range(0x274E, 0x274E), Range(0x2753, 0x2755),
    Range(0x2757, 0x2757), Range(0x2763, 0x2767), Range(0x2795, 0x2797), Range(0x27A1, 0x27A1)]
  const MARKS: seq<Range> := [
    Range(0x27B0, 0x27B0), Range(0x27BF, 0x27BF), Range(0x2934, 0x2935), Range(0x2B05, 0x2B07),
    Range(0x2B1B, 0x2B1C), Range(0x2B50, 0x2B50), Range(0x2B55, 0x2B55), Range(0x3030, 0x3030),
    Range(0x303D, 0x303D), Range(0x3297, 0x3297), Range(0x3299, 0x3299), Range(0x1F000, 0x1F0FF),
    Range(0x1F10D, 0x1F10F), Range(0x1F12F, 0x1F12F), Range(0x1F16C, 0x1F171), Range(0x1F17E, 0x1F17F),
    Range(0x1F18E, 0x1F18E), Range(0x1F191, 0x1F19A), Range(0x1F1AD, 0x1F1FF), Range(0x1F201, 0x1F20F)]
  const EMOJI: seq<Range> := [
    Range(0x1F21A, 0x1F21A), Range(0x1F22F, 0x1F22F), Range(0x1F232, 0x1F23A), Range(0x1F23C, 0x1F23F),
    Range(0x1F249, 0x1F53D), Range(0x1F546, 0x1F64F), Range(0x1F680, 0x1F6FF), Range(0x1F774, 0x1F77F),
    Range(0x1F7D5, 0x1F7FF), Range(0x1F80C, 0x1F80F), Range(0x1F848, 0x1F84F), Range(0x1F85A, 0x1F85F),
    Range(0x1F888, 0x1F88F), Range(0x1F8AE, 0x1F8FF), Range(0x1F90C, 0x1F93A), Range(0x1F93C, 0x1F945),
    Range(0x1F947, 0x1FAFF), Range(0x1FC00, 0x1FFFD), Range(0xE0020, 0xE007F)]

  /** Extended_Pictographic, and what else only appears inside emoji sequences. */
  const PICTOGRAPHIC: seq<Range> := SIGNS + SYMBOLS + MARKS + EMOJI

  /** Ascending and apart. */
  predicate Ascending(ranges: seq<Range>) {
    && (forall i :: 0 <= i < |ranges| ==> ranges[i].first <= ranges[i].last)
    && (forall i :: 0 <= i < |ranges| - 1 ==> ranges[i].last < ranges[i + 1].first)
  }

  lemma SignsAscend()
    ensures Ascending(SIGNS) && |SIGNS| == 20 && SIGNS[0].first == 0xA9 && SIGNS[19].last == 0x25FE
  {
  }

  lemma SymbolsAscend()
    ensures Ascending(SYMBOLS) && |SYMBOLS| == 20 && SYMBOLS[0].first == 0x2600 && SYMBOLS[19].last == 0x27A1
  {
  }

  lemma MarksAscend()
    ensures Ascending(MARKS) && |MARKS| == 20 && MARKS[0].first == 0x27B0 && MARKS[19].last == 0x1F20F
  {
  }

  lemma EmojiAscend()
    ensures Ascending(EMOJI) && |EMOJI| == 19 && EMOJI[0].first == 0x1F21A && EMOJI[18].last == 0xE007F
  {
  }

  lemma Joined(a: seq<Range>, b: seq<Range>)
    requires a != [] && b != [] && Ascending(a) && Ascending(b) && a[|a| - 1].last < b[0].first
    ensures Ascending(a + b)
  {
  }

  lemma TableAscends()
    ensures Ascending(PICTOGRAPHIC) && |PICTOGRAPHIC| == 79 && PICTOGRAPHIC[0].first == 0xA9
  {
    SignsAscend();
    SymbolsAscend();
    MarksAscend();
    EmojiAscend();
    hide Ascending;
    Joined(SIGNS, SYMBOLS);
    Joined(SIGNS + SYMBOLS, MARKS);
    Joined(SIGNS + SYMBOLS + MARKS, EMOJI);
  }

  predicate Pictographic(cp: nat) { InOne(PICTOGRAPHIC, cp) }

  predicate InOne(ranges: seq<Range>, cp: nat) { exists i :: 0 <= i < |ranges| && ranges[i].first <= cp <= ranges[i].last }

  /** How many ranges start at or before cp. */
  method UpperBound(ranges: seq<Range>, cp: nat) returns (n: nat)
    requires Ascending(ranges)
    ensures n <= |ranges| && (forall i :: 0 <= i < n ==> ranges[i].first <= cp) && forall i :: n <= i < |ranges| ==> cp < ranges[i].first
  {
    var lo, hi := 0, |ranges|;
    while lo < hi
      invariant 0 <= lo <= hi <= |ranges|
      invariant forall i :: 0 <= i < lo ==> ranges[i].first <= cp
      invariant forall i :: hi <= i < |ranges| ==> cp < ranges[i].first
    {
      var mid := lo + (hi - lo) / 2;
      if cp < ranges[mid].first {
        AscendingFar(ranges, mid);
        hi := mid;
      } else {
        AscendingFar(ranges, mid);
        lo := mid + 1;
      }
    }
    n := lo;
  }

  lemma {:induction false} AscendingPair(ranges: seq<Range>, i: nat, j: nat)
    requires Ascending(ranges) && i < j < |ranges|
    ensures ranges[i].last < ranges[j].first
    decreases j
  {
    if i + 1 < j {
      AscendingPair(ranges, i, j - 1);
    }
  }

  lemma AscendingFar(ranges: seq<Range>, m: nat)
    requires Ascending(ranges) && m < |ranges|
    ensures forall i :: 0 <= i < m ==> ranges[i].first <= ranges[i].last < ranges[m].first
    ensures forall i :: m < i < |ranges| ==> ranges[m].first <= ranges[m].last < ranges[i].first
  {
    forall i | 0 <= i < m
      ensures ranges[i].first <= ranges[i].last < ranges[m].first
    {
      AscendingPair(ranges, i, m);
    }
    forall i | m < i < |ranges|
      ensures ranges[m].first <= ranges[m].last < ranges[i].first
    {
      AscendingPair(ranges, m, i);
    }
  }

  /** The search answers membership, for every code point. */
  method IsPictographic(cp: nat) returns (is_: bool)
    ensures is_ == Pictographic(cp)
  {
    TableAscends();
    hide Ascending, InOne;
    if cp < 0xA9 {
      AllAfter(cp);
      return false;
    }
    var n := UpperBound(PICTOGRAPHIC, cp);
    InLastStarted(PICTOGRAPHIC, n, cp);
    if n == 0 {
      return false;
    }
    return PICTOGRAPHIC[n - 1].first <= cp <= PICTOGRAPHIC[n - 1].last;
  }

  /** Only the last of the ranges that start at or before cp can hold it. */
  lemma InLastStarted(ranges: seq<Range>, n: nat, cp: nat)
    requires Ascending(ranges) && n <= |ranges|
    requires forall i :: 0 <= i < n ==> ranges[i].first <= cp
    requires forall i :: n <= i < |ranges| ==> cp < ranges[i].first
    ensures InOne(ranges, cp) <==> n > 0 && ranges[n - 1].first <= cp <= ranges[n - 1].last
  {
    if n > 0 {
      AscendingFar(ranges, n - 1);
    }
  }

  lemma AllAfter(cp: nat)
    requires cp < 0xA9
    ensures !Pictographic(cp)
  {
    TableAscends();
    AscendingFar(PICTOGRAPHIC, 0);
  }

  predicate IsDroppedFormatChar(cp: nat) {
    cp == 0x200B || cp == 0x200D || cp == 0x200E || cp == 0x200F || 0x202A <= cp <= 0x202E || cp == 0x2060
    || 0x2066 <= cp <= 0x2069 || cp == 0xFE0E || cp == 0xFE0F || cp == 0xFEFF
  }

  predicate IsControl(cp: nat) { cp < 0x20 || 0x7F <= cp <= 0x9F }

  predicate SkinTone(cp: nat) { 0x1F3FB <= cp <= 0x1F3FF }

  /** Never shown: controls but the line feed, invisible and bidirectional marks, pictographs. */
  predicate Dropped(cp: nat) {
    cp != 0x0A && (IsControl(cp) || IsDroppedFormatChar(cp) || Pictographic(cp) || SkinTone(cp))
  }

  /** Every end of line is a line feed, and a tab a space. */
  function Unified(cp: nat): (u: nat)
    requires Scalar(cp)
    ensures Scalar(u)
  {
    if cp == 0x0D || cp == 0x2028 || cp == 0x2029 then 0x0A else if cp == 0x09 then 0x20 else cp
  }

  /** The code points kept, room of them at most. */
  function Kept(s: Bytes, room: nat): (cps: seq<nat>)
    ensures forall i :: 0 <= i < |cps| ==> Scalar(cps[i])
    decreases |s|
  {
    if s == [] || room == 0 then []
    else
      var d := Decode(s);
      var rest, cp := s[d.length..], Unified(d.cp);
      if (d.cp == 0x0D && rest != [] && rest[0] == 0x0A) || Dropped(cp) then Kept(rest, room)
      else [cp] + Kept(rest, room - 1)
  }

  function Sanitized(s: Bytes): Bytes { EncodeAll(Kept(s, MAX_REPLY_CHARS)) }

  /** A code point cleaning leaves alone. */
  predicate Clean(cp: nat) { Scalar(cp) && !Dropped(cp) && Unified(cp) == cp }

  lemma {:induction false} KeptAreClean(s: Bytes, room: nat)
    ensures |Kept(s, room)| <= room && forall i :: 0 <= i < |Kept(s, room)| ==> Clean(Kept(s, room)[i])
    decreases |s|
  {
    hide Dropped, Decode;
    if s != [] && room > 0 {
      var d := Decode(s);
      UnifiedOnce(d.cp);
      KeptAreClean(s[d.length..], room);
      KeptAreClean(s[d.length..], room - 1);
    }
  }

  // --- The whole text at once ---

  /** Line ends are one line feed each, and tabs spaces. */
  function Lines(cps: seq<nat>): seq<nat>
    requires forall i :: 0 <= i < |cps| ==> Scalar(cps[i])
  {
    if cps == [] then []
    else (if cps[0] == 0x0D && |cps| > 1 && cps[1] == 0x0A then [] else [Unified(cps[0])]) + Lines(cps[1..])
  }

  /** Without what is never shown. */
  function Shown(cps: seq<nat>): seq<nat> {
    if cps == [] then [] else (if Dropped(cps[0]) then [] else [cps[0]]) + Shown(cps[1..])
  }

  function Cut(cps: seq<nat>, room: nat): seq<nat> { if |cps| <= room then cps else cps[..room] }

  lemma LineFeedIsAByte(s: Bytes)
    requires s != []
    ensures Decode(s).cp == 0x0A <==> s[0] == 0x0A
  {
    DecodedIsEncoded(s);
  }

  /** What is kept is the whole text, its line ends unified and what is never shown left out, cut to the room there is. */
  lemma {:induction false} KeptIs(s: Bytes, room: nat)
    ensures Kept(s, room) == Cut(Shown(Lines(DecodeAllScalar(s))), room)
    decreases |s|
  {
    hide Dropped, Decode;
    if s == [] {
    } else if room > 0 {
      var d := Decode(s);
      var rest, cps := s[d.length..], DecodeAllScalar(s);
      assert cps[1..] == DecodeAllScalar(rest);
      if rest != [] {
        LineFeedIsAByte(rest);
        assert cps[1] == Decode(rest).cp;
      }
      KeptIs(rest, room);
      KeptIs(rest, room - 1);
      var more := Shown(Lines(cps[1..]));
      hide Kept, DecodeAllScalar;
      if d.cp == 0x0D && rest != [] && rest[0] == 0x0A {
        assert Lines(cps) == [] + Lines(cps[1..]) == Lines(cps[1..]);
      } else {
        assert Lines(cps) == [Unified(d.cp)] + Lines(cps[1..]) && Lines(cps)[1..] == Lines(cps[1..]);
        hide Lines;
        if Dropped(Unified(d.cp)) {
          assert [] + more == more;
        } else {
          assert Cut([Unified(d.cp)] + more, room) == [Unified(d.cp)] + Cut(more, room - 1);
        }
      }
    }
  }

  /** So for the text shown. */
  lemma SanitizedIs(s: Bytes)
    ensures forall i :: 0 <= i < |Cut(Shown(Lines(DecodeAllScalar(s))), 4000)| ==> Scalar(Cut(Shown(Lines(DecodeAllScalar(s))), 4000)[i])
    ensures Sanitized(s) == EncodeAll(Cut(Shown(Lines(DecodeAllScalar(s))), 4000))
  {
    KeptIs(s, MAX_REPLY_CHARS);
    hide Kept, Lines, Shown, DecodeAllScalar, EncodeAll;
  }

  lemma UnifiedOnce(cp: nat)
    requires Scalar(cp)
    ensures Unified(Unified(cp)) == Unified(cp)
  {
  }

  lemma {:induction false} CleanIsKept(cps: seq<nat>, room: nat)
    requires |cps| <= room && forall i :: 0 <= i < |cps| ==> Scalar(cps[i]) && Clean(cps[i])
    ensures Kept(EncodeAll(cps), room) == cps
    decreases |cps|
  {
    hide Dropped, Decode, Encode;
    if cps != [] {
      var rest := EncodeAll(cps[1..]);
      assert Clean(cps[0]);
      DecodeEncode(cps[0], rest);
      assert EncodeAll(cps) == Encode(cps[0]) + rest && EncodeAll(cps)[|Encode(cps[0])|..] == rest;
      CleanIsKept(cps[1..], room - 1);
    }
  }

  /** Cleaning twice is cleaning once; and what comes out is well-formed UTF-8 of at most 4000 code points, none of
      them dropped, no carriage return or tab among them. */
  lemma SanitizeIsIdempotent(s: Bytes)
    ensures Sanitized(Sanitized(s)) == Sanitized(s)
    ensures Utf8.Valid(Sanitized(s)) && |DecodeAll(Sanitized(s))| <= MAX_REPLY_CHARS
    ensures forall i :: 0 <= i < |DecodeAll(Sanitized(s))| ==> Clean(DecodeAll(Sanitized(s))[i])
  {
    KeptAreClean(s, MAX_REPLY_CHARS);
    CleanIsKept(Kept(s, MAX_REPLY_CHARS), MAX_REPLY_CHARS);
    DecodeEncodeAll(Kept(s, MAX_REPLY_CHARS));
    hide Kept, EncodeAll, DecodeAll, Utf8.Valid, Clean;
  }

  method Sanitize(utf8: Bytes) returns (out: Bytes)
    ensures out == Sanitized(utf8)
  {
    hide Decode, Encode, Pictographic;
    out := [];
    var chars, i := 0, 0;
    assert utf8[0..] == utf8;
    while i < |utf8| && chars < MAX_REPLY_CHARS
      invariant 0 <= i <= |utf8| && 0 <= chars <= MAX_REPLY_CHARS
      invariant out + EncodeAll(Kept(utf8[i..], MAX_REPLY_CHARS - chars)) == Sanitized(utf8)
      decreases |utf8| - i
    {
      var d := DecodeAt(utf8, i);
      assert utf8[i..][d.length..] == utf8[i + d.length..];
      i := i + d.length;
      var cp := d.cp;
      if cp == 0x0D {
        if i < |utf8| && utf8[i] == 0x0A {
          continue;
        }
        cp := 0x0A;
      }
      if cp == 0x2028 || cp == 0x2029 {
        cp := 0x0A;
      }
      if cp == 0x09 {
        cp := 0x20;
      }
      var pictographic := IsPictographic(cp);
      if cp != 0x0A && (IsControl(cp) || IsDroppedFormatChar(cp) || pictographic || 0x1F3FB <= cp <= 0x1F3FF) {
        continue;
      }
      Regroup3(out, Encode(cp), EncodeAll(Kept(utf8[i..], MAX_REPLY_CHARS - chars - 1)));
      out := out + Encode(cp);
      chars := chars + 1;
    }
    assert out == Sanitized(utf8);
  }
}
