/** What the last passes of log redaction do to a whole line (src/log-redact.cpp), piece by piece: everything comes through
    unchanged and in order but the runs that look like secrets. */
module LogPieces {
  import opened Words
  import opened Utf8
  import opened LogRedact
  import opened Seqs

  /** Positions that cut s[i..] into pieces. */
  ghost predicate Cuts(cuts: seq<nat>, i: nat, n: nat) {
    && cuts != [] && cuts[0] == i && cuts[|cuts| - 1] == n
    && forall k :: 0 < k < |cuts| ==> cuts[k - 1] < cuts[k]
  }

  lemma {:induction false} CutsWithin(cuts: seq<nat>, i: nat, n: nat)
    requires Cuts(cuts, i, n)
    ensures forall k :: 0 <= k < |cuts| ==> i <= cuts[k] <= n
    decreases |cuts|
  {
    if |cuts| > 1 {
      CutsWithin(cuts[1..], cuts[1], n);
      forall k | 0 <= k < |cuts|
        ensures i <= cuts[k] <= n
      {
        assert k > 0 ==> cuts[1..][k - 1] == cuts[k];
      }
    }
  }

  lemma OneMoreCut(i: nat, cuts: seq<nat>, n: nat)
    requires cuts != [] && i < cuts[0] && Cuts(cuts, cuts[0], n)
    ensures Cuts([i] + cuts, i, n)
  {
    var more := [i] + cuts;
    assert forall k :: 0 < k < |more| ==> more[k] == cuts[k - 1];
  }

  // --- Tokens ---

  /** A character that belongs to no token, or a run of letters, digits, dashes and underscores that goes on neither way. */
  predicate TokenPiece(s: Bytes, i: nat, e: nat) {
    MaximalRun(s, i, e) || (i + 1 == e <= |s| && !IsSlugChar(s[i]))
  }

  ghost predicate TokenPieces(s: Bytes, cuts: seq<nat>) {
    forall k :: 0 < k < |cuts| ==> TokenPiece(s, cuts[k - 1], cuts[k])
  }

  /** The pieces one after the other, secrets replaced. */
  function TokensJoined(s: Bytes, cuts: seq<nat>): Bytes
    requires forall k :: 0 < k < |cuts| ==> cuts[k - 1] <= cuts[k] <= |s|
  {
    if |cuts| < 2 then []
    else (if MaximalRun(s, cuts[0], cuts[1]) && Secret(s[cuts[0]..cuts[1]]) then TOKEN else s[cuts[0]..cuts[1]])
         + TokensJoined(s, cuts[1..])
  }

  ghost predicate InBounds(s: Bytes, cuts: seq<nat>) { forall k :: 0 < k < |cuts| ==> cuts[k - 1] <= cuts[k] <= |s| }

  lemma CutsInBounds(s: Bytes, cuts: seq<nat>, i: nat)
    requires Cuts(cuts, i, |s|)
    ensures InBounds(s, cuts)
  {
    CutsWithin(cuts, i, |s|);
  }

  lemma PiecesGrow(s: Bytes, i: nat, cuts: seq<nat>)
    requires cuts != [] && TokenPiece(s, i, cuts[0]) && TokenPieces(s, cuts)
    ensures TokenPieces(s, [i] + cuts)
  {
    var more := [i] + cuts;
    assert forall k :: 0 < k < |more| ==> more[k] == cuts[k - 1];
    forall k | 0 < k < |more|
      ensures TokenPiece(s, more[k - 1], more[k])
    {
      if k > 1 {
        assert TokenPiece(s, cuts[k - 2], cuts[k - 1]);
      }
    }
  }

  lemma RunIsMaximal(s: Bytes, i: nat)
    requires i < |s| && IsSlugChar(s[i]) && (i == 0 || !IsSlugChar(s[i - 1]))
    ensures MaximalRun(s, i, i + RunLength(s[i..])) && i + RunLength(s[i..]) <= |s|
    ensures var e := i + RunLength(s[i..]); e == |s| || !IsSlugChar(s[e])
  {
    var rest, n := s[i..], RunLength(s[i..]);
    assert n > 0;
    hide RunLength, IsSlugChar;
    forall k | i <= k < i + n
      ensures IsSlugChar(s[k])
    {
      assert s[k] == rest[k - i];
    }
    assert n < |rest| ==> s[i + n] == rest[n];
  }

  /** No run crosses position i. */
  predicate Between(s: Bytes, i: nat) { i <= |s| && (i == 0 || i == |s| || !IsSlugChar(s[i - 1]) || !IsSlugChar(s[i])) }

  lemma FirstToken(s: Bytes, i: nat) returns (e: nat)
    requires i < |s| && Between(s, i)
    ensures i < e <= |s| && Between(s, e) && TokenPiece(s, i, e)
    ensures TokensRedacted(s[i..])
            == (if MaximalRun(s, i, e) && Secret(s[i..e]) then TOKEN else s[i..e]) + TokensRedacted(s[e..])
  {
    e := i + 1;
    if IsSlugChar(s[i]) {
      TokenStep(s, i);
      e := i + RunLength(s[i..]);
      RunIsMaximal(s, i);
    } else {
      OtherCharStep(s, i);
    }
    hide IsSlugChar, Secret, RunLength, TokensRedacted;
  }

  lemma {:induction false} TokenPiecesFrom(s: Bytes, i: nat) returns (cuts: seq<nat>)
    requires Between(s, i)
    ensures Cuts(cuts, i, |s|) && TokenPieces(s, cuts) && InBounds(s, cuts)
    ensures TokensRedacted(s[i..]) == TokensJoined(s, cuts)
    decreases |s| - i
  {
    hide Secret, MaximalRun, TokenPiece;
    if i == |s| {
      cuts := [i];
    } else {
      hide TokensRedacted, Between;
      var e := FirstToken(s, i);
      var rest := TokenPiecesFrom(s, e);
      cuts := [i] + rest;
      OneMoreCut(i, rest, |s|);
      PiecesGrow(s, i, rest);
      CutsInBounds(s, cuts, i);
      hide InBounds, TokenPieces;
      assert cuts[1..] == rest && cuts[0] == i && cuts[1] == e;
    }
  }

  /** For every line: the tokens pass puts its pieces together again, in order and unchanged, but for the maximal runs that
      look like secrets. */
  lemma TokensKeepTheRest(s: Bytes) returns (cuts: seq<nat>)
    ensures Cuts(cuts, 0, |s|) && TokenPieces(s, cuts) && InBounds(s, cuts) && TokensRedacted(s) == TokensJoined(s, cuts)
  {
    cuts := TokenPiecesFrom(s, 0);
    assert s[0..] == s;
  }

  // --- Base64 ---

  predicate Symbol(b: Byte) { b == 0x2B || b == 0x2F }
  predicate Lower(b: Byte) { !Symbol(b) && !IsDigit(b) && !IsUpper(b) }

  /** How many letters and digits. */
  function Alnums(run: Bytes): nat {
    if run == [] then 0 else (if Symbol(run[0]) then 0 else 1) + Alnums(run[1..])
  }

  /** How often a letter or digit follows one of another kind: digit, upper case, lower case. */
  function Switches(run: Bytes): nat {
    if |run| < 2 then 0
    else (if !Symbol(run[0]) && !Symbol(run[1]) && CharClass(run[0]) != CharClass(run[1]) then 1 else 0) + Switches(run[1..])
  }

  /** A symbol, twenty letters and digits of all three kinds, and a switch for at least every third of them. */
  predicate Encoded(run: Bytes) {
    && (exists k :: 0 <= k < |run| && Symbol(run[k])) && Alnums(run) >= 20 && Switches(run) * 3 >= Alnums(run)
    && (exists k :: 0 <= k < |run| && IsDigit(run[k])) && (exists k :: 0 <= k < |run| && IsUpper(run[k]))
    && (exists k :: 0 <= k < |run| && Lower(run[k]))
  }

  /** [i, m) is a run of base64 characters that goes on neither way, and [m, e) its padding: at most two equals signs. */
  predicate Base64Piece(s: Bytes, i: nat, m: nat, e: nat) {
    && i < m <= e <= |s| && e - m <= 2 && (forall k :: i <= k < m ==> IsBase64Char(s[k])) && (forall k :: m <= k < e ==> s[k] == 0x3D)
    && (i == 0 || !IsBase64Char(s[i - 1])) && (m == |s| || !IsBase64Char(s[m])) && (e - m == 2 || e == |s| || s[e] != 0x3D)
  }

  /** Nothing that belongs to a name stands next to it. */
  predicate Alone(s: Bytes, i: nat, e: nat)
    requires i <= e <= |s|
  {
    (i == 0 || !PartOfName(s[i - 1])) && (e == |s| || !PartOfName(s[e]))
  }

  /** What goes: a run with its padding that stands alone and looks encoded. */
  ghost predicate Goes(s: Bytes, i: nat, e: nat) {
    i <= e <= |s| && Alone(s, i, e) && exists m: nat :: Base64Piece(s, i, m, e) && Encoded(s[i..m])
  }

  ghost predicate Base64Pieces(s: Bytes, cuts: seq<nat>) {
    forall k :: 0 < k < |cuts| ==> APiece(s, cuts[k - 1], cuts[k])
  }

  ghost predicate APiece(s: Bytes, i: nat, e: nat) {
    (exists m: nat :: Base64Piece(s, i, m, e)) || (i + 1 == e <= |s| && !IsBase64Char(s[i]))
  }

  ghost function Base64Joined(s: Bytes, cuts: seq<nat>): Bytes
    requires InBounds(s, cuts)
  {
    if |cuts| < 2 then []
    else
      assert forall k :: 0 < k < |cuts[1..]| ==> cuts[1..][k - 1] == cuts[k] && cuts[1..][k] == cuts[k + 1];
      (if Goes(s, cuts[0], cuts[1]) then TOKEN else s[cuts[0]..cuts[1]]) + Base64Joined(s, cuts[1..])
  }

  /** The counts of the loop are the counts of the run. */
  lemma {:induction false} CountsAre(s: Bytes, t: Tally)
    ensures var (n, r) := Base64Run(s, t);
            var run := s[..n];
            && r.alnum == t.alnum + Alnums(run)
            && r.switches == t.switches + Switches(run)
                             + (if run != [] && !Symbol(run[0]) && t.last.Some? && t.last.value != CharClass(run[0]) then 1 else 0)
    decreases |s|
  {
    if s != [] && IsBase64Char(s[0]) {
      CountsAre(s[1..], Counted(t, s[0]));
      var n := Base64Run(s, t).0;
      var run := s[..n];
      assert run[1..] == s[1..][..n - 1] && run[0] == s[0];
      hide Base64Run, IsBase64Char;
    }
  }

  lemma CountedKinds(t: Tally, b: Byte)
    requires IsBase64Char(b)
    ensures var t' := Counted(t, b);
            && (t'.symbol <==> t.symbol || Symbol(b)) && (t'.digit <==> t.digit || IsDigit(b))
            && (t'.upper <==> t.upper || IsUpper(b)) && (t'.lower <==> t.lower || Lower(b))
  {
  }

  /** And its kinds of characters those of the run. */
  lemma {:induction false} KindsAre(s: Bytes, t: Tally)
    ensures var (n, r) := Base64Run(s, t);
            && (r.symbol <==> t.symbol || exists k :: 0 <= k < n && Symbol(s[k]))
            && (r.digit <==> t.digit || exists k :: 0 <= k < n && IsDigit(s[k]))
            && (r.upper <==> t.upper || exists k :: 0 <= k < n && IsUpper(s[k]))
            && (r.lower <==> t.lower || exists k :: 0 <= k < n && Lower(s[k]))
    decreases |s|
  {
    if s != [] && IsBase64Char(s[0]) {
      hide IsBase64Char, Counted, Symbol, IsDigit, IsUpper, Lower;
      var rest, n, t' := s[1..], Base64Run(s, t).0, Counted(t, s[0]);
      KindsAre(rest, t');
      CountedKinds(t, s[0]);
      assert Base64Run(s, t).1 == Base64Run(rest, t').1 && Base64Run(rest, t').0 == n - 1;
      hide Base64Run;
      assert forall k :: 1 <= k < n ==> s[k] == rest[k - 1];
      assert forall k :: 0 <= k < n - 1 ==> rest[k] == s[k + 1];
    }
  }

  lemma EncodedIs(s: Bytes)
    ensures var (n, t) := Base64Run(s, NOTHING); LooksEncoded(t) <==> Encoded(s[..n])
  {
    CountsAre(s, NOTHING);
    KindsAre(s, NOTHING);
    var run := s[..Base64Run(s, NOTHING).0];
    hide Base64Run, IsBase64Char, Alnums, Switches, Symbol, IsDigit, IsUpper, Lower;
    assert forall k :: 0 <= k < |run| ==> run[k] == s[k];
  }

  /** The run at i and its padding. */
  lemma RunIsAPiece(s: Bytes, i: nat) returns (m: nat)
    requires i < |s| && IsBase64Char(s[i]) && (i == 0 || !IsBase64Char(s[i - 1]))
    ensures var e := i + RunEnd(s[i..]); Base64Piece(s, i, m, e) && (e == |s| || !IsBase64Char(s[e]) || s[e - 1] == 0x3D)
    ensures m - i == Base64Run(s[i..], NOTHING).0
    ensures LooksEncoded(Base64Run(s[i..], NOTHING).1) <==> Encoded(s[i..m])
  {
    var rest := s[i..];
    var n := Base64Run(rest, NOTHING).0;
    m := i + n;
    EncodedIs(rest);
    assert rest[..n] == s[i..m] && rest[n..] == s[m..];
    assert n > 0;
    hide Base64Run, LooksEncoded, Encoded, IsBase64Char;
    assert forall k :: i <= k < m ==> s[k] == rest[k - i];
    assert m < |s| ==> s[m] == rest[n];
    var tail := s[m..];
    assert forall k :: 0 <= k < |tail| ==> tail[k] == s[m + k];
  }

  /** No run crosses position i. */
  predicate Base64Between(s: Bytes, i: nat) { i <= |s| && (i == 0 || i == |s| || !IsBase64Char(s[i - 1]) || !IsBase64Char(s[i])) }

  lemma OnePiece(s: Bytes, i: nat, m: nat, e: nat)
    requires Base64Piece(s, i, m, e)
    ensures Goes(s, i, e) <==> Alone(s, i, e) && Encoded(s[i..m])
  {
    hide Encoded, Alone, PartOfName, IsBase64Char;
    forall m': nat | Base64Piece(s, i, m', e)
      ensures m' == m
    {
      SameRun(s, i, m, m', e);
      SameRun(s, i, m', m, e);
    }
  }

  lemma SameRun(s: Bytes, i: nat, m: nat, m': nat, e: nat)
    requires Base64Piece(s, i, m, e) && Base64Piece(s, i, m', e)
    ensures m' <= m
  {
  }

  lemma FirstPiece(s: Bytes, i: nat) returns (e: nat)
    requires i < |s| && Base64Between(s, i)
    ensures i < e <= |s| && Base64Between(s, e) && APiece(s, i, e)
    ensures Base64Redacted(Previous(s, i), s[i..])
            == (if Goes(s, i, e) then TOKEN else s[i..e]) + Base64Redacted(Previous(s, e), s[e..])
  {
    hide Base64Redacted, Base64Run, LooksEncoded, Encoded, RunEnd, Standalone, Alone, PartOfName;
    e := i + 1;
    if IsBase64Char(s[i]) {
      RunStep(s, i);
      e := i + RunEnd(s[i..]);
      var m := RunIsAPiece(s, i);
      EqualsSign();
      OnePiece(s, i, m, e);
      AloneIs(s, i, e);
    } else {
      CharStep(s, i);
    }
  }

  lemma EqualsSign()
    ensures !IsBase64Char(0x3D)
  {
  }

  lemma AloneIs(s: Bytes, i: nat, e: nat)
    requires i <= e <= |s|
    ensures Alone(s, i, e) <==> Standalone(Previous(s, i), s[i..], e - i)
  {
    hide PartOfName;
  }

  lemma Base64PiecesGrow(s: Bytes, i: nat, cuts: seq<nat>)
    requires cuts != [] && APiece(s, i, cuts[0]) && Base64Pieces(s, cuts)
    ensures Base64Pieces(s, [i] + cuts)
  {
    hide APiece;
    var more := [i] + cuts;
    assert forall k :: 0 < k < |more| ==> more[k] == cuts[k - 1];
    forall k | 0 < k < |more|
      ensures APiece(s, more[k - 1], more[k])
    {
      if k > 1 {
        assert APiece(s, cuts[k - 2], cuts[k - 1]);
      }
    }
  }

  lemma {:induction false} Base64PiecesFrom(s: Bytes, i: nat) returns (cuts: seq<nat>)
    requires Base64Between(s, i)
    ensures Cuts(cuts, i, |s|) && Base64Pieces(s, cuts) && InBounds(s, cuts)
    ensures Base64Redacted(Previous(s, i), s[i..]) == Base64Joined(s, cuts)
    decreases |s| - i
  {
    hide APiece, Goes;
    if i == |s| {
      cuts := [i];
    } else {
      hide Base64Redacted, Base64Between, Previous;
      var e := FirstPiece(s, i);
      var rest := Base64PiecesFrom(s, e);
      cuts := [i] + rest;
      OneMoreCut(i, rest, |s|);
      Base64PiecesGrow(s, i, rest);
      CutsInBounds(s, cuts, i);
      hide InBounds, Base64Pieces;
      assert cuts[1..] == rest && cuts[0] == i && cuts[1] == e;
    }
  }

  /** For every line: the base64 pass puts its pieces together again, in order and unchanged, but for the runs that stand
      alone and look encoded. */
  lemma Base64KeepsTheRest(s: Bytes) returns (cuts: seq<nat>)
    ensures Cuts(cuts, 0, |s|) && Base64Pieces(s, cuts) && InBounds(s, cuts) && Base64Redacted(None, s) == Base64Joined(s, cuts)
  {
    cuts := Base64PiecesFrom(s, 0);
    assert s[0..] == s && Previous(s, 0) == None;
  }
}
