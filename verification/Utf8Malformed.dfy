/** What the decoder makes of malformed UTF-8: errors stay where they are, and each piece of input has
    a fixed outcome. */
module Utf8Malformed {
  import opened Utf8To16

  lemma {:induction false} FollowStopsAtLead(ret: bv32, a: seq<Byte>, b: seq<Byte>, i: nat, n: nat)
    requires i <= |a| && (b != [] ==> !IsExtension(b[0]))
    ensures Follow(ret, a + b, i, n) == Follow(ret, a, i, n)
    decreases |a| - i
  {
    if i < n {
      if i == |a| {
        assert b != [] ==> (a + b)[i] == b[0];
      } else if IsExtension(a[i]) {
        FollowStopsAtLead(ShiftAndMask(ret, a[i]), a, b, i + 1, n);
      }
    }
  }

  lemma NextCharStopsAtLead(a: seq<Byte>, b: seq<Byte>)
    requires a != [] && (b != [] ==> !IsExtension(b[0]))
    ensures NextChar(a + b) == NextChar(a)
  {
    assert (a + b)[0] == a[0];
    if !IsExtension(a[0]) {
      FollowStopsAtLead(a[0] as bv32 & LeaderMask(SeqLength(a[0])), a, b, 1, SeqLength(a[0]));
    }
  }

  /** Errors do not spread: whatever stands before a byte that is no extension byte decodes the same
      with or without what follows. */
  lemma {:induction false} DecodeSplits(a: seq<Byte>, b: seq<Byte>)
    requires b != [] ==> !IsExtension(b[0])
    ensures Decode(a + b) == Decode(a) + Decode(b)
    decreases |a|
  {
    if a == [] {
      assert a + b == b;
    } else {
      var k := NextCharStepsOver(a, b);
      DecodeSplits(a[k..], b);
    }
  }

  /** The first character of a comes off both sides. */
  lemma NextCharStepsOver(a: seq<Byte>, b: seq<Byte>) returns (k: nat)
    requires a != [] && (b != [] ==> !IsExtension(b[0]))
    ensures 1 <= k <= |a|
    ensures Decode(a[k..] + b) == Decode(a[k..]) + Decode(b) ==> Decode(a + b) == Decode(a) + Decode(b)
  {
    k := NextChar(a).1;
    var us := UnitsOf(NextChar(a).0);
    NextCharStopsAtLead(a, b);
    assert (a + b)[k..] == a[k..] + b;
    assert Decode(a) == us + Decode(a[k..]) by { DecodeUnfold(a); }
    assert Decode(a + b) == us + Decode(a[k..] + b) by { DecodeUnfold(a + b); }
    assert us + (Decode(a[k..]) + Decode(b)) == (us + Decode(a[k..])) + Decode(b);
  }

  lemma DecodeUnfold(s: seq<Byte>)
    requires s != []
    ensures Decode(s) == UnitsOf(NextChar(s).0) + Decode(s[NextChar(s).1..])
  {
  }

  function Replacements(n: nat): (r: seq<Unit>)
    ensures |r| == n
  {
    if n == 0 then [] else [0xfffd] + Replacements(n - 1)
  }

  predicate ExtensionsFrom(s: seq<Byte>, i: nat) {
    forall j | i <= j < |s| :: IsExtension(s[j])
  }

  lemma ReplacementIsOneUnit()
    ensures UnitsOf(REPLACEMENT) == [0xfffd]
  {
  }

  /** Extension bytes on their own become one replacement each. */
  lemma {:induction false} StrayExtensions(s: seq<Byte>)
    requires ExtensionsFrom(s, 0)
    ensures Decode(s) == Replacements(|s|)
  {
    if s != [] {
      DecodeUnfold(s);
      ReplacementIsOneUnit();
      StrayExtensions(s[1..]);
    }
  }

  /** More than 2^31 stray bytes in a row: the count is less than what is written. */
  lemma TooManyStrays(s: seq<Byte>)
    requires ExtensionsFrom(s, 0) && |s| > INT_LIMIT
    ensures Counted(s, 0) < |Decode(s)| == |s|
  {
    StrayExtensions(s);
    StraysMeasure(s, 0);
    assert OverflowsAt(s, 0, 0, |s|);
    CountedIsMeasureIff(s, 0);
  }

  lemma {:induction false} StraysMeasure(s: seq<Byte>, expected: int)
    requires ExtensionsFrom(s, 0) && expected <= 0
    ensures Measure(s, expected) == |s|
  {
    if s != [] {
      StraysMeasure(s[1..], expected - 1);
    }
  }

  lemma {:induction false} FollowRunsOut(ret: bv32, s: seq<Byte>, i: nat, n: nat)
    requires i <= |s| && ExtensionsFrom(s, i)
    ensures |s| < n ==> Follow(ret, s, i, n) == (REPLACEMENT, |s|)
    ensures i <= n <= |s| ==> Follow(ret, s, i, n).1 == n
    decreases |s| - i
  {
    if i < n && i < |s| {
      FollowRunsOut(ShiftAndMask(ret, s[i]), s, i + 1, n);
    }
  }

  lemma NextCharOfPiece(s: seq<Byte>)
    requires s != [] && !IsExtension(s[0]) && ExtensionsFrom(s, 1)
    ensures |s| < SeqLength(s[0]) ==> NextChar(s) == (REPLACEMENT, |s|)
    ensures SeqLength(s[0]) <= |s| ==> NextChar(s).1 == SeqLength(s[0])
  {
    FollowRunsOut(s[0] as bv32 & LeaderMask(SeqLength(s[0])), s, 1, SeqLength(s[0]));
  }

  /** A lead byte with extension bytes after it: one replacement when they are too few; otherwise its
      character, and one replacement for each that is too many. Every byte string is some stray
      extension bytes followed by such pieces. */
  lemma OnePiece(s: seq<Byte>)
    requires s != [] && !IsExtension(s[0]) && ExtensionsFrom(s, 1)
    ensures |s| < SeqLength(s[0]) ==> Decode(s) == [0xfffd]
    ensures SeqLength(s[0]) <= |s| ==>
      Decode(s) == UnitsOf(NextChar(s).0) + Replacements(|s| - SeqLength(s[0]))
  {
    NextCharOfPiece(s);
    var (c, k) := NextChar(s);
    RestOfPiece(s, c, k);
    if k == |s| {
      ReplacementIsOneUnit();
      assert [0xfffd] + Replacements(0) == [0xfffd];
    }
  }

  lemma RestOfPiece(s: seq<Byte>, c: bv32, k: nat)
    requires s != [] && ExtensionsFrom(s, 1) && NextChar(s) == (c, k)
    ensures 1 <= k <= |s| && Decode(s) == UnitsOf(c) + Replacements(|s| - k)
  {
    DecodeUnfold(s);
    StrayTail(s, k);
  }

  lemma StrayTail(s: seq<Byte>, k: nat)
    requires 1 <= k <= |s| && ExtensionsFrom(s, 1)
    ensures Decode(s[k..]) == Replacements(|s| - k)
  {
    forall j | 0 <= j < |s[k..]| ensures IsExtension(s[k..][j]) {
      assert s[k..][j] == s[k + j];
    }
    StrayExtensions(s[k..]);
  }
}
