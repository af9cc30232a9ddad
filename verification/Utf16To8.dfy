/** strdup16to8: measuring and encoding UTF-16 units as modified UTF-8 (section 4.4.7 of the JVM
    specification), in size_t arithmetic that wraps at `sizeMax`. */
module Utf16To8 {
  import opened Utf8To16

  /** The bytes of one 16-bit unit; a zero takes two, so that no byte is NUL. */
  function EncodeUnit(u: Unit): (bs: seq<Byte>)
    ensures |bs| == if u > 0x07ff then 3 else if u > 0x7f || u == 0 then 2 else 1
  {
    if u > 0x07ff then
      [((u >> 12) | 0xe0) as Byte, (((u >> 6) & 0x3f) | 0x80) as Byte, ((u & 0x3f) | 0x80) as Byte]
    else if u > 0x7f || u == 0 then
      [((u >> 6) | 0xc0) as Byte, ((u & 0x3f) | 0x80) as Byte]
    else
      [u as Byte]
  }

  function Encode(us: seq<Unit>): seq<Byte> {
    if us == [] then [] else EncodeUnit(us[0]) + Encode(us[1..])
  }

  lemma {:induction false} EncodeAppend(us: seq<Unit>, u: Unit)
    ensures Encode(us + [u]) == Encode(us) + EncodeUnit(u)
  {
    if us == [] {
      assert Encode([u]) == EncodeUnit(u) + Encode([]);
    } else {
      assert (us + [u])[1..] == us[1..] + [u];
      EncodeAppend(us[1..], u);
    }
  }

  lemma {:induction false} EncodeLengthBounds(us: seq<Unit>)
    ensures |us| <= |Encode(us)| <= 3 * |us|
  {
    if us != [] {
      EncodeLengthBounds(us[1..]);
    }
  }

  lemma {:induction false} EncodeGrows(us: seq<Unit>, i: nat)
    requires i <= |us|
    ensures |Encode(us[..i])| <= |Encode(us)|
  {
    if i > 0 {
      assert us[..i][1..] == us[1..][..i - 1];
      EncodeGrows(us[1..], i - 1);
    }
  }

  /** No encoded byte is the terminator. */
  lemma {:induction false} EncodeHasNoNul(us: seq<Unit>)
    ensures forall i | 0 <= i < |Encode(us)| :: Encode(us)[i] != 0
  {
    if us != [] {
      EncodeHasNoNul(us[1..]);
      UnitHasNoNul(us[0]);
    }
  }

  lemma UnitHasNoNul(u: Unit)
    ensures forall i | 0 <= i < |EncodeUnit(u)| :: EncodeUnit(u)[i] != 0
  {
  }

  /** size_t addition of two size_t values: wraps past sizeMax. */
  function AddSize(a: nat, b: nat, sizeMax: nat): nat
    requires a <= sizeMax && b <= sizeMax
  {
    if a + b <= sizeMax then a + b else a + b - sizeMax - 1
  }

  function UnitCost(u: Unit): nat {
    if u > 0x07ff then 3 else if u > 0x7f || u == 0 then 2 else 1
  }

  function Min(a: nat, b: nat): nat {
    if a < b then a else b
  }

  /** The smaller of the true encoded length and SIZE_MAX - 1, on both paths: the fast one cannot wrap,
      and the slow one notices every wrap. */
  method Strnlen16to8(utf16Str: array<Unit>, len: nat, sizeMax: nat) returns (utf8Len: nat)
    requires len <= utf16Str.Length && len <= sizeMax && 0xffff <= sizeMax
    ensures utf8Len == Min(|Encode(utf16Str[..len])|, sizeMax - 1)
  {
    ghost var us := utf16Str[..len];
    EncodeLengthBounds(us);
    utf8Len := 0;
    var i := 0;
    if len < (sizeMax - 1) / 3 {
      while i < len
        invariant i <= len && utf8Len == |Encode(us[..i])| <= 3 * i
      {
        PrefixCost(us, i);
        utf8Len := AddSize(utf8Len, UnitCost(utf16Str[i]), sizeMax);
        i := i + 1;
      }
      assert us[..len] == us;
      return;
    }
    while i < len
      invariant i <= len && utf8Len == |Encode(us[..i])| <= sizeMax
    {
      PrefixCost(us, i);
      var utf8Cur := utf8Len;
      utf8Len := AddSize(utf8Len, UnitCost(utf16Str[i]), sizeMax);
      if utf8Len < utf8Cur {
        EncodeGrows(us, i + 1);
        return sizeMax - 1;
      }
      i := i + 1;
    }
    assert us[..len] == us;
    if utf8Len == sizeMax {
      utf8Len := sizeMax - 1;
    }
  }

  lemma PrefixCost(us: seq<Unit>, i: nat)
    requires i < |us|
    ensures |Encode(us[..i + 1])| == |Encode(us[..i])| + UnitCost(us[i])
    ensures Encode(us[..i + 1]) == Encode(us[..i]) + EncodeUnit(us[i])
  {
    assert us[..i + 1] == us[..i] + [us[i]];
    EncodeAppend(us[..i], us[i]);
  }

  /** Writes exactly the encoded bytes and a NUL, and nothing behind it. */
  method Strncpy16to8(utf8Str: array<Byte>, utf16Str: array<Unit>, len: nat)
    requires len <= utf16Str.Length && |Encode(utf16Str[..len])| < utf8Str.Length
    modifies utf8Str
    ensures var n := |Encode(utf16Str[..len])|;
      && utf8Str[..n] == Encode(utf16Str[..len])
      && CString(utf8Str, 0, n)
      && utf8Str[n + 1..] == old(utf8Str[..])[n + 1..]
  {
    ghost var us, before := utf16Str[..len], utf8Str[..];
    EncodeHasNoNul(us);
    var cur, i := 0, 0;
    while i < len
      invariant i <= len && cur == |Encode(us[..i])| < utf8Str.Length
      invariant utf8Str[..cur] == Encode(us[..i])
      invariant utf8Str[cur..] == before[cur..]
    {
      PrefixCost(us, i);
      EncodeGrows(us, i + 1);
      cur := WriteUnit(utf8Str, cur, utf16Str[i]);
      i := i + 1;
    }
    assert us[..len] == us;
    utf8Str[cur] := 0;
    assert forall k | 0 <= k < cur :: utf8Str[k] == utf8Str[..cur][k];
  }

  /** The body of the copying loop: the bytes of one unit at `cur`. */
  method WriteUnit(utf8Str: array<Byte>, cur: nat, uic: Unit) returns (next: nat)
    requires cur + |EncodeUnit(uic)| <= utf8Str.Length
    modifies utf8Str
    ensures next == cur + |EncodeUnit(uic)|
    ensures utf8Str[..next] == old(utf8Str[..cur]) + EncodeUnit(uic)
    ensures utf8Str[next..] == old(utf8Str[next..])
  {
    if uic > 0x07ff {
      utf8Str[cur] := ((uic >> 12) | 0xe0) as Byte;
      utf8Str[cur + 1] := (((uic >> 6) & 0x3f) | 0x80) as Byte;
      utf8Str[cur + 2] := ((uic & 0x3f) | 0x80) as Byte;
      next := cur + 3;
    } else if uic > 0x7f || uic == 0 {
      utf8Str[cur] := ((uic >> 6) | 0xc0) as Byte;
      utf8Str[cur + 1] := ((uic & 0x3f) | 0x80) as Byte;
      next := cur + 2;
    } else {
      utf8Str[cur] := uic as Byte;
      next := cur + 1;
    }
  }

  /** NULL in, NULL out; NULL when the length saturates or malloc fails; otherwise a buffer of exactly
      the encoded bytes and the terminator. */
  method Strndup16to8(s: array?<Unit>, n: nat, sizeMax: nat, mallocSucceeds: bool) returns (ret: array?<Byte>)
    requires s != null ==> n <= s.Length && n <= sizeMax
    requires 0xffff <= sizeMax
    ensures ret != null <==> s != null && |Encode(s[..n])| < sizeMax - 1 && mallocSucceeds
    ensures ret != null ==>
      && fresh(ret) && ret.Length == |Encode(s[..n])| + 1
      && ret[..ret.Length - 1] == Encode(s[..n]) && CString(ret, 0, ret.Length - 1)
  {
    if s == null { return null; }
    var len := Strnlen16to8(s, n, sizeMax);
    if len >= sizeMax - 1 || !mallocSucceeds { return null; }
    ret := new Byte[len + 1];
    Strncpy16to8(ret, s, n);
  }
}
