/** strdup8to16: measuring and decoding (modified) UTF-8 into UTF-16, malformed input included.
    Strings here are the bytes before the terminating NUL; running off their end is reading it. */
module Utf8To16 {

  type Byte = bv8
  type Unit = bv16

  const REPLACEMENT: bv32 := 0xfffd
  const UPPER_LIMIT: bv32 := 0x10fffd

  /** UTF8_SEQ_LENGTH: two bits per high nibble, looked up by shifting a constant. The sign extension
      of a signed char does not reach the bits that are used. */
  function SeqLengthTable(b: Byte): bv32 {
    ((0xe500_0000 as bv32 >> ((b as bv32 >> 3) & 0x1e)) & 3) + 1
  }

  /** The length by the lead-byte classes of section 3 of RFC 3629. */
  function SeqLength(b: Byte): nat {
    if b < 0xc0 then 1 else if b < 0xe0 then 2 else if b < 0xf0 then 3 else 4
  }

  /** The shifted constant computes those classes. */
  lemma TableIsByClass(b: Byte)
    ensures SeqLengthTable(b) as nat == SeqLength(b)
  {
    assert SeqLengthTable(b) ==
      match SeqLength(b) case 1 => 1 case 2 => 2 case 3 => 3 case _ => 4;
  }

  predicate IsExtension(b: Byte) {
    b & 0xc0 == 0x80
  }

  function LeaderMask(n: nat): bv32 {
    if n == 1 then 0xff else if n == 2 then 0x1f else if n == 3 then 0x0f else 0x07
  }

  function ShiftAndMask(ret: bv32, b: Byte): bv32 {
    (ret << 6) | (0x3f & b as bv32)
  }

  /** The extension bytes of a sequence of n bytes, from position i on: what is decoded, and where it stops. */
  function Follow(ret: bv32, s: seq<Byte>, i: nat, n: nat): (r: (bv32, nat))
    requires i <= |s|
    ensures i <= r.1 <= |s|
    decreases |s| - i
  {
    if i >= n then (ret, i)
    else if i == |s| || !IsExtension(s[i]) then (REPLACEMENT, i)
    else Follow(ShiftAndMask(ret, s[i]), s, i + 1, n)
  }

  /** getUtf32FromUtf8: the next character and how many bytes it takes. */
  function NextChar(s: seq<Byte>): (r: (bv32, nat))
    requires s != []
    ensures 1 <= r.1 <= |s|
  {
    if IsExtension(s[0]) then (REPLACEMENT, 1)
    else
      var n := SeqLength(s[0]);
      Follow(s[0] as bv32 & LeaderMask(n), s, 1, n)
  }

  /** The units strcpy8to16 writes for one character. */
  function UnitsOf(c: bv32): (us: seq<Unit>)
    ensures |us| == if 0xffff < c <= UPPER_LIMIT then 2 else 1
  {
    if c <= 0xffff then [c as Unit]
    else if c <= UPPER_LIMIT then
      [(0xd800 | ((c - 0x10000) >> 10)) as Unit, (0xdc00 | ((c - 0x10000) & 0x3ff)) as Unit]
    else [REPLACEMENT as Unit]
  }

  /** What strcpy8to16 writes. */
  function Decode(s: seq<Byte>): seq<Unit> {
    if s == [] then [] else
      var (c, k) := NextChar(s);
      UnitsOf(c) + Decode(s[k..])
  }

  /** The length to be measured, byte by byte, with `expected` extension bytes still due. */
  function Measure(s: seq<Byte>, expected: int): nat {
    if s == [] then 0
    else if IsExtension(s[0]) then (if expected - 1 < 0 then 1 else 0) + Measure(s[1..], expected - 1)
    else
      var n := SeqLength(s[0]);
      (if n == 4 then 2 else 1) + Measure(s[1..], n - 1)
  }

  /** One more than the largest int. */
  const INT_LIMIT := 0x8000_0000

  /** Decrementing an int wraps around. */
  function Down(n: int): (r: int)
    ensures -INT_LIMIT <= n < INT_LIMIT ==>
      -INT_LIMIT <= r < INT_LIMIT && (r == n - 1 || r == n - 1 + 2 * INT_LIMIT)
  {
    if n == -INT_LIMIT then INT_LIMIT - 1 else n - 1
  }

  /** What strlen8to16 counts: its `expected` is an int. */
  function Counted(s: seq<Byte>, expected: int): nat {
    if s == [] then 0
    else if IsExtension(s[0]) then (if Down(expected) < 0 then 1 else 0) + Counted(s[1..], Down(expected))
    else
      var n := SeqLength(s[0]);
      (if n == 4 then 2 else 1) + Counted(s[1..], n - 1)
  }

  /** A run of k extension bytes at i, at the start or after a lead, that takes the counter below its range. */
  predicate OverflowsAt(s: seq<Byte>, expected: int, i: nat, k: nat) {
    && i + k <= |s| && (i > 0 ==> !IsExtension(s[i - 1]))
    && (forall j | i <= j < i + k :: IsExtension(s[j]))
    && k > INT_LIMIT + if i == 0 then expected else SeqLength(s[i - 1]) - 1
  }

  ghost predicate LongRun(s: seq<Byte>, expected: int) {
    exists i: nat, k: nat :: OverflowsAt(s, expected, i, k)
  }

  /** The four-byte lead bytes that yield one unit instead of two. */
  function Shortfall(s: seq<Byte>): nat {
    if s == [] then 0 else
      var (c, k) := NextChar(s);
      (if !IsExtension(s[0]) && SeqLength(s[0]) == 4 && |UnitsOf(c)| == 1 then 1 else 0) + Shortfall(s[k..])
  }

  // ---------- the measure bounds what is written, exactly ----------

  /** The measuring loop walks over the bytes of one sequence without counting any of them. */
  lemma {:induction false} MeasureSkipsSequence(ret: bv32, s: seq<Byte>, i: nat, n: nat)
    requires i <= |s| && i <= n
    ensures var k := Follow(ret, s, i, n).1;
      && k <= n
      && Measure(s[i..], n - i) == Measure(s[k..], n - k)
      && (k < n ==> k == |s| || !IsExtension(s[k]))
    decreases |s| - i
  {
    if i < n && i < |s| && IsExtension(s[i]) {
      assert s[i..][1..] == s[i + 1..];
      MeasureSkipsSequence(ShiftAndMask(ret, s[i]), s, i + 1, n);
    }
  }

  /** How large a partly decoded character can be after i of its n bytes, n at most 3. */
  predicate Small(c: bv32, i: nat, n: nat) {
    match n
    case 1 => c < 0x100
    case 2 => if i == 1 then c < 0x20 else c < 0x800
    case _ => if i == 1 then c < 0x10 else if i == 2 then c < 0x400 else c < 0x10000
  }

  lemma {:induction false} ShortSequencesStaySmall(ret: bv32, s: seq<Byte>, i: nat, n: nat)
    requires 1 <= i <= |s| && i <= n <= 3 && Small(ret, i, n)
    ensures Follow(ret, s, i, n).0 <= 0xffff
    decreases |s| - i
  {
    if i < n && i < |s| && IsExtension(s[i]) {
      assert ret < 0x20 ==> ShiftAndMask(ret, s[i]) < 0x800;
      assert ret < 0x10 ==> ShiftAndMask(ret, s[i]) < 0x400;
      assert ret < 0x400 ==> ShiftAndMask(ret, s[i]) < 0x10000;
      ShortSequencesStaySmall(ShiftAndMask(ret, s[i]), s, i + 1, n);
    }
  }

  lemma ShortLeadsYieldOneUnit(s: seq<Byte>)
    requires s != [] && (IsExtension(s[0]) || SeqLength(s[0]) < 4)
    ensures |UnitsOf(NextChar(s).0)| == 1
  {
    if !IsExtension(s[0]) {
      var n := SeqLength(s[0]);
      assert n <= 3;
      assert s[0] as bv32 & 0xff < 0x100 && s[0] as bv32 & 0x1f < 0x20 && s[0] as bv32 & 0x0f < 0x10;
      ShortSequencesStaySmall(s[0] as bv32 & LeaderMask(n), s, 1, n);
    }
  }

  /** One character: what the measure counts for it, what is written, and what falls short. */
  lemma MeasureOneChar(s: seq<Byte>, expected: int) returns (next: int)
    requires s != [] && (IsExtension(s[0]) ==> expected <= 0)
    ensures var (c, k) := NextChar(s);
      && Measure(s, expected) + Shortfall(s[k..]) == |UnitsOf(c)| + Shortfall(s) + Measure(s[k..], next)
      && (k < |s| && IsExtension(s[k]) ==> next <= 0)
  {
    var k := NextChar(s).1;
    if IsExtension(s[0]) {
      next := expected - 1;
    } else {
      var n := SeqLength(s[0]);
      MeasureSkipsSequence(s[0] as bv32 & LeaderMask(n), s, 1, n);
      next := n - k;
      if n < 4 { ShortLeadsYieldOneUnit(s); }
    }
  }

  lemma {:induction false} MeasureFrom(s: seq<Byte>, expected: int)
    requires s != [] && IsExtension(s[0]) ==> expected <= 0
    ensures Measure(s, expected) == |Decode(s)| + Shortfall(s)
    decreases |s|
  {
    if s != [] {
      var next := MeasureOneChar(s, expected);
      var (c, k) := NextChar(s);
      assert k < |s| ==> s[k..][0] == s[k];
      MeasureFrom(s[k..], next);
      assert Decode(s) == UnitsOf(c) + Decode(s[k..]);
    }
  }

  /** For every byte string, well-formed or not, the measured length is the decoded length plus the
      number of four-byte leads that came to nothing: never too small a buffer. */
  lemma MeasureIsExact(s: seq<Byte>)
    ensures Measure(s, 0) == |Decode(s)| + Shortfall(s)
    ensures |Decode(s)| <= Measure(s, 0)
  {
    MeasureFrom(s, 0);
  }

  lemma {:induction false} MeasureAtMostTwice(s: seq<Byte>, expected: int)
    ensures Measure(s, expected) <= 2 * |s|
  {
    if s != [] {
      MeasureAtMostTwice(s[1..], if IsExtension(s[0]) then expected - 1 else SeqLength(s[0]) - 1);
    }
  }

  // ---------- how far the int reaches ----------

  /** A counter that is too high misses strays but never invents one. */
  lemma {:induction false} CountedAtMost(s: seq<Byte>, expected: int, counter: int)
    requires expected <= counter < INT_LIMIT
    ensures Counted(s, counter) <= Measure(s, expected)
  {
    if s != [] && IsExtension(s[0]) {
      CountedAtMost(s[1..], expected - 1, Down(counter));
    } else if s != [] {
      CountedAtMost(s[1..], SeqLength(s[0]) - 1, SeqLength(s[0]) - 1);
    }
  }

  /** What is left of a long run, or of the search for one, after the first byte. */
  lemma LongRunStep(s: seq<Byte>, expected: int)
    requires s != [] && -INT_LIMIT <= expected && (IsExtension(s[0]) ==> expected > -INT_LIMIT)
    ensures LongRun(s, expected) <==>
      LongRun(s[1..], if IsExtension(s[0]) then expected - 1 else SeqLength(s[0]) - 1)
  {
    var expected' := if IsExtension(s[0]) then expected - 1 else SeqLength(s[0]) - 1;
    if LongRun(s, expected) {
      var i: nat, k: nat :| OverflowsAt(s, expected, i, k);
      if i == 0 {
        assert k > 0 && IsExtension(s[0]);
        assert OverflowsAt(s[1..], expected', 0, k - 1);
      } else {
        assert OverflowsAt(s[1..], expected', i - 1, k);
      }
    }
    if LongRun(s[1..], expected') {
      var i: nat, k: nat :| OverflowsAt(s[1..], expected', i, k);
      assert forall j | i < j < i + 1 + k :: s[j] == s[1..][j - 1];
      if i == 0 && IsExtension(s[0]) {
        assert OverflowsAt(s, expected, 0, k + 1);
      } else {
        assert OverflowsAt(s, expected, i + 1, k);
      }
    }
  }

  /** The count is the measure if and only if no run of extension bytes is longer than 2^31 plus what its
      lead allows; otherwise it is less. */
  lemma {:induction false} CountedIsMeasureIff(s: seq<Byte>, expected: int)
    requires -INT_LIMIT <= expected < INT_LIMIT
    ensures Counted(s, expected) <= Measure(s, expected)
    ensures Counted(s, expected) == Measure(s, expected) <==> !LongRun(s, expected)
  {
    CountedAtMost(s, expected, expected);
    if s == [] {
      assert forall i: nat, k: nat :: !OverflowsAt(s, expected, i, k);
    } else if IsExtension(s[0]) && expected == -INT_LIMIT {
      assert OverflowsAt(s, expected, 0, 1);
      CountedAtMost(s[1..], expected - 1, INT_LIMIT - 1);
    } else {
      LongRunStep(s, expected);
      CountedIsMeasureIff(s[1..], if IsExtension(s[0]) then expected - 1 else SeqLength(s[0]) - 1);
    }
  }

  /** The count is what is written plus the leads that fall short, if and only if there is no such run. */
  lemma CountIsExactIff(s: seq<Byte>)
    ensures Counted(s, 0) == |Decode(s)| + Shortfall(s) <==> !LongRun(s, 0)
  {
    CountedIsMeasureIff(s, 0);
    MeasureIsExact(s);
  }

  /** So a buffer of the returned length is large enough for every string without such a run whose measure
      fits a size_t; every string of up to 2^31 bytes is without one. */
  lemma CountIsEnough(s: seq<Byte>, sizeMax: nat)
    requires !LongRun(s, 0) && Measure(s, 0) <= sizeMax
    ensures |Decode(s)| <= SizeT(Counted(s, 0), sizeMax) == Measure(s, 0)
  {
    CountedIsMeasureIff(s, 0);
    MeasureIsExact(s);
  }

  lemma ShortStringHasNoLongRun(s: seq<Byte>)
    requires |s| <= INT_LIMIT
    ensures !LongRun(s, 0)
  {
  }

  // ---------- the code ----------

  /** The bytes from `start` to the NUL at `end`. */
  predicate CString(a: array<Byte>, start: nat, end: nat)
    reads a
  {
    start <= end < a.Length && a[end] == 0 && forall i | start <= i < end :: a[i] != 0
  }

  /** A count kept in a size_t wraps around. */
  function SizeT(n: nat, sizeMax: nat): (r: nat)
    ensures r <= sizeMax
  {
    if n <= sizeMax then n else SizeT(n - sizeMax - 1, sizeMax)
  }

  lemma {:induction false} SizeTIncrements(n: nat, sizeMax: nat)
    ensures SizeT(n + 1, sizeMax) == if SizeT(n, sizeMax) == sizeMax then 0 else SizeT(n, sizeMax) + 1
  {
    if n > sizeMax {
      SizeTIncrements(n - sizeMax - 1, sizeMax);
    }
  }

  /** ... to the remainder by one more than the largest. */
  lemma {:induction false} SizeTIsRemainder(n: nat, sizeMax: nat) returns (q: nat)
    ensures n == q * (sizeMax + 1) + SizeT(n, sizeMax)
  {
    q := 0;
    if n > sizeMax {
      var q' := SizeTIsRemainder(n - (sizeMax + 1), sizeMax);
      q := q' + 1;
    }
  }

  /** len++ on a size_t. */
  method Increment(len: nat, sizeMax: nat, ghost total: nat) returns (len': nat)
    requires len == SizeT(total, sizeMax)
    ensures len' == SizeT(total + 1, sizeMax)
  {
    len' := if len == sizeMax then 0 else len + 1;
    SizeTIncrements(total, sizeMax);
  }

  method Strlen8to16(utf8Str: array<Byte>, ghost end: nat, sizeMax: nat) returns (len: nat)
    requires CString(utf8Str, 0, end)
    ensures len == SizeT(Counted(utf8Str[..end], 0), sizeMax)
  {
    len := 0;
    var p, expected := 0, 0;
    ghost var s, total: nat := utf8Str[..end], 0;
    while utf8Str[p] != 0
      invariant p <= end
      invariant len == SizeT(total, sizeMax)
      invariant total + Counted(s[p..], expected) == Counted(s, 0)
      decreases end - p
    {
      var ic := utf8Str[p];
      assert s[p..][0] == ic && s[p..][1..] == s[p + 1..];
      p := p + 1;
      if ic & 0xc0 == 0x80 {
        expected := Down(expected);
        if expected < 0 {
          len := Increment(len, sizeMax, total);
          total := total + 1;
        }
      } else {
        len := Increment(len, sizeMax, total);
        total := total + 1;
        TableIsByClass(ic);
        expected := SeqLengthTable(ic) as int - 1;
        if expected == 3 {
          len := Increment(len, sizeMax, total);
          total := total + 1;
        }
      }
    }
    assert s[end..] == [];
  }

  method GetUtf32FromUtf8(utf8: array<Byte>, start: nat, ghost end: nat) returns (ret: bv32, p: nat)
    requires CString(utf8, start, end) && start < end
    ensures (ret, p - start) == NextChar(utf8[start..end])
  {
    p := start;
    ghost var s := utf8[start..end];
    if utf8[p] & 0xc0 == 0x80 {
      return REPLACEMENT, p + 1;
    }
    TableIsByClass(utf8[p]);
    var seqLen := SeqLengthTable(utf8[p]) as nat;
    ret := utf8[p] as bv32 & LeaderMask(seqLen);
    p := p + 1;
    var i := 1;
    while i < seqLen
      invariant 1 <= i <= seqLen && p == start + i <= end
      invariant Follow(ret, s, i, seqLen) == NextChar(s)
    {
      assert p < end ==> s[i] == utf8[p];
      if utf8[p] == 0 { return REPLACEMENT, p; }
      if utf8[p] & 0xc0 != 0x80 { return REPLACEMENT, p; }
      ret := ShiftAndMask(ret, utf8[p]);
      i, p := i + 1, p + 1;
    }
  }

  /** The body of the copying loop: the units of one character at `dest`. */
  method WriteChar(utf16Str: array<Unit>, dest: nat, ret: bv32) returns (next: nat)
    requires dest + |UnitsOf(ret)| <= utf16Str.Length
    modifies utf16Str
    ensures next == dest + |UnitsOf(ret)|
    ensures utf16Str[..next] == old(utf16Str[..dest]) + UnitsOf(ret)
    ensures forall k | next <= k < utf16Str.Length :: utf16Str[k] == old(utf16Str[k])
  {
    next := dest + 1;
    if ret <= 0xffff {
      utf16Str[dest] := ret as Unit;
    } else if ret <= UPPER_LIMIT {
      utf16Str[dest] := (0xd800 | ((ret - 0x10000) >> 10)) as Unit;
      utf16Str[dest + 1] := (0xdc00 | ((ret - 0x10000) & 0x3ff)) as Unit;
      next := dest + 2;
    } else {
      utf16Str[dest] := REPLACEMENT as Unit;
    }
  }

  lemma DecodeStep(s: seq<Byte>, written: seq<Unit>, target: seq<Unit>)
    requires s != [] && written + Decode(s) == target
    ensures var (c, k) := NextChar(s);
      (written + UnitsOf(c)) + Decode(s[k..]) == target && |written| + |UnitsOf(c)| <= |target|
  {
    var (c, k) := NextChar(s);
    assert written + (UnitsOf(c) + Decode(s[k..])) == (written + UnitsOf(c)) + Decode(s[k..]);
  }

  /** Writes exactly the decoded units. Nothing in it looks at the size of the buffer: when that is too small
      for them a write runs over its end, which is where the model stops. */
  method Strcpy8to16(utf16Str: array<Unit>, utf8Str: array<Byte>, ghost end: nat)
    returns (outLen: nat, overruns: bool)
    requires CString(utf8Str, 0, end)
    modifies utf16Str
    ensures overruns <==> |Decode(utf8Str[..end])| > utf16Str.Length
    ensures !overruns ==>
      && outLen <= utf16Str.Length && utf16Str[..outLen] == Decode(utf8Str[..end])
      && utf16Str[outLen..] == old(utf16Str[..])[outLen..]
  {
    ghost var s, target := utf8Str[..end], Decode(utf8Str[..end]);
    assert s[0..] == s;
    var dest: nat, p: nat := 0, 0;
    overruns := false;
    while utf8Str[p] != 0
      invariant p <= end && dest <= utf16Str.Length && !overruns
      invariant utf8Str[..end] == s
      invariant utf16Str[..dest] + Decode(s[p..]) == target
      invariant forall k | dest <= k < utf16Str.Length :: utf16Str[k] == old(utf16Str[k])
      decreases end - p
    {
      DecodeStep(s[p..], utf16Str[..dest], target);
      dest, p, overruns := CopyOne(utf16Str, dest, utf8Str, p, end, s);
      if overruns { return dest, true; }
    }
    assert s[p..] == [];
    outLen := dest;
  }

  /** One round of the copying loop. */
  method CopyOne(utf16Str: array<Unit>, dest: nat, utf8Str: array<Byte>, p: nat, ghost end: nat, ghost s: seq<Byte>)
    returns (dest': nat, p': nat, overruns: bool)
    requires CString(utf8Str, 0, end) && p < end && s == utf8Str[..end] && dest <= utf16Str.Length
    modifies utf16Str
    ensures overruns <==> dest + |UnitsOf(NextChar(s[p..]).0)| > utf16Str.Length
    ensures p < p' <= end && s[p'..] == s[p..][NextChar(s[p..]).1..]
    ensures !overruns ==>
      && dest' <= utf16Str.Length
      && utf16Str[..dest'] == old(utf16Str[..dest]) + UnitsOf(NextChar(s[p..]).0)
      && forall k | dest' <= k < utf16Str.Length :: utf16Str[k] == old(utf16Str[k])
  {
    var ret;
    assert utf8Str[p..end] == s[p..];
    ret, p' := GetUtf32FromUtf8(utf8Str, p, end);
    dest' := dest;
    overruns := utf16Str.Length - dest < if 0xffff < ret <= UPPER_LIMIT then 2 else 1;
    if !overruns {
      dest' := WriteChar(utf16Str, dest, ret);
    }
  }

  lemma HalfSize(len: nat, sizeMax: nat)
    ensures len != 0 ==> (sizeMax / len < 2 <==> sizeMax < 2 * len)
  {
    if len != 0 {
      assert sizeMax == len * (sizeMax / len) + sizeMax % len;
      if sizeMax / len >= 2 {
        assert len * (sizeMax / len) >= len * 2;
      }
    }
  }

  /** NULL in, NULL out; NULL too when the buffer's byte count would overflow size_t. The result of malloc is
      not looked at: when it fails, the copy writes through NULL, unless there is nothing to write. Otherwise
      it writes past the buffer exactly when the count falls short of the decoded length. */
  method Strdup8to16(s: array?<Byte>, ghost end: nat, sizeMax: nat, mallocSucceeds: bool)
    returns (ret: array?<Unit>, outLen: nat, strayWrite: bool)
    requires s != null ==> CString(s, 0, end)
    ensures s == null ==> ret == null && !strayWrite
    ensures s != null ==>
      var len := SizeT(Counted(s[..end], 0), sizeMax);
      && (ret != null <==> 2 * len <= sizeMax && mallocSucceeds)
      && (strayWrite <==> 2 * len <= sizeMax && if mallocSucceeds then |Decode(s[..end])| > len else end > 0)
      && (ret != null ==> fresh(ret) && ret.Length == len)
      && (ret != null && !strayWrite ==> outLen <= len && ret[..outLen] == Decode(s[..end]))
  {
    ret, outLen, strayWrite := null, 0, false;
    if s == null { return; }
    var len := Strlen8to16(s, end, sizeMax);
    HalfSize(len, sizeMax);
    if len != 0 && sizeMax / len < 2 { return; }
    if mallocSucceeds {
      ret := new Unit[len];
      outLen, strayWrite := Strcpy8to16(ret, s, end);
    } else {
      strayWrite := s[0] != 0;
    }
  }
}
