/** Shared value types and helpers used by every model in this project:
    bytes, optional and fallible results, XOR folding, big-endian and
    little-endian integer encodings, hexadecimal digits and ASCII case. */
module Common {

  /** One octet, as Python `bytes` and C `uint8_t` hold it. */
  type byte = bv8

  type Bytes = seq<byte>

  datatype Option<+T> = None | Some(value: T)

  datatype Result<+T, +E> = Ok(value: T) | Err(error: E)

  /** The octet holding the small integer `k`, counted up from zero; the
      counting keeps integer-to-bit-vector conversion out of every formula
      that mentions it. */
  function ByteOf(k: nat): (b: byte)
    requires k < 256
  {
    if k == 0 then 0 else ByteOf(k - 1) + 1
  }

  /** Converting a small integer to an octet and back loses nothing. */
  lemma {:induction false} ByteOfValue(k: nat)
    requires k < 256
    ensures ByteOf(k) as int == k
  {
    if k > 0 {
      ByteOfValue(k - 1);
      var b := ByteOf(k - 1);
      assert b as int < 255;
      assert (b + 1) as int == b as int + 1;
    }
  }

  /** Every octet is the count of its own value. */
  lemma ByteOfInverse(x: byte)
    ensures ByteOf(x as int) == x
  {
    ByteOfValue(x as int);
  }

  // ---------------------------------------------------------------------
  // XOR

  /** `functools.reduce(operator.xor, s, 0)`: a left fold of XOR from 0. */
  function XorFold(s: Bytes): byte
  {
    if s == [] then 0 else XorFold(s[..|s| - 1]) ^ s[|s| - 1]
  }

  lemma {:induction false} XorFoldAppend(a: Bytes, b: Bytes)
    ensures XorFold(a + b) == XorFold(a) ^ XorFold(b)
    decreases |b|
  {
    if b == [] {
      assert a + b == a;
    } else {
      var b' := b[..|b| - 1];
      assert (a + b)[..|a + b| - 1] == a + b';
      XorFoldAppend(a, b');
    }
  }

  /** The XOR of a sequence followed by its own XOR is zero. */
  lemma XorFoldWithCheck(s: Bytes)
    ensures XorFold(s + [XorFold(s)]) == 0
  {
    assert (s + [XorFold(s)])[..|s|] == s;
  }

  // ---------------------------------------------------------------------
  // Fixed-width integers

  /** `struct.pack(">H", n)`. */
  function U16BE(n: nat): (r: Bytes)
    requires n < 0x1_0000
    ensures |r| == 2
  {
    BigEndian(n, 2)
  }

  /** The `n`-byte big-endian image of `v` (network order), most
      significant byte first. */
  function BigEndian(v: nat, n: nat): (r: Bytes)
    ensures |r| == n
  {
    if n == 0 then [] else BigEndian(v / 256, n - 1) + [ByteOf(v % 256)]
  }

  /** The two bytes of `struct.pack(">H", n)` are its high and low halves. */
  lemma U16BEValue(n: nat)
    requires n < 0x1_0000
    ensures (U16BE(n)[0] as nat) * 256 + (U16BE(n)[1] as nat) == n
  {
    ByteOfValue(n / 256);
    ByteOfValue(n % 256);
    assert (n / 256) % 256 == n / 256;
    assert BigEndian(n / 256, 1) == BigEndian(n / 256 / 256, 0) + [ByteOf(n / 256)];
    assert U16BE(n) == BigEndian(n / 256, 1) + [ByteOf(n % 256)];
  }

  /** The `n`-byte little-endian image of `v`, as a little-endian CPU stores
      a `uint8_t`/`uint16_t`/`uint32_t` in memory. */
  function LittleEndian(v: nat, n: nat): (r: Bytes)
    ensures |r| == n
    decreases n
  {
    if n == 0 then [] else [ByteOf(v % 256)] + LittleEndian(v / 256, n - 1)
  }

  function Pow256(n: nat): (r: nat)
    ensures r > 0
  {
    if n == 0 then 1 else 256 * Pow256(n - 1)
  }

  function FromLittleEndian(s: Bytes): (r: nat)
    ensures r < Pow256(|s|)
  {
    if s == [] then 0 else (s[0] as nat) + 256 * FromLittleEndian(s[1..])
  }

  lemma {:induction false} LittleEndianRoundTrip(v: nat, n: nat)
    requires v < Pow256(n)
    ensures FromLittleEndian(LittleEndian(v, n)) == v
    decreases n
  {
    if n > 0 {
      ByteOfValue(v % 256);
      LittleEndianRoundTrip(v / 256, n - 1);
      assert LittleEndian(v, n)[1..] == LittleEndian(v / 256, n - 1);
    }
  }

  // ---------------------------------------------------------------------
  // Sequences

  function Concat<T>(ss: seq<seq<T>>): (r: seq<T>)
  {
    if ss == [] then [] else Concat(ss[..|ss| - 1]) + ss[|ss| - 1]
  }

  lemma {:induction false} ConcatAppend<T>(a: seq<seq<T>>, b: seq<seq<T>>)
    ensures Concat(a + b) == Concat(a) + Concat(b)
    decreases |b|
  {
    if b == [] {
      assert a + b == a;
    } else {
      assert (a + b)[..|a + b| - 1] == a + b[..|b| - 1];
      ConcatAppend(a, b[..|b| - 1]);
    }
  }

  lemma ConcatOne<T>(a: seq<seq<T>>, x: seq<T>)
    ensures Concat(a + [x]) == Concat(a) + x
  {
    assert (a + [x])[..|a|] == a;
  }

  // ---------------------------------------------------------------------
  // Characters

  /** The value of an ASCII hexadecimal digit of either case. */
  function HexDigit(c: char): (r: Option<nat>)
    ensures r.Some? ==> r.value < 16
    ensures r.Some? <==> ('0' <= c <= '9' || 'a' <= c <= 'f' || 'A' <= c <= 'F')
  {
    if '0' <= c <= '9' then Some(c as nat - '0' as nat)
    else if 'a' <= c <= 'f' then Some(c as nat - 'a' as nat + 10)
    else if 'A' <= c <= 'F' then Some(c as nat - 'A' as nat + 10)
    else None
  }

  function HexChar(v: nat): (c: char)
    requires v < 16
    ensures HexDigit(c) == Some(v)
  {
    if v < 10 then ('0' as int + v) as char else ('a' as int + v - 10) as char
  }

  /** C `tolower` in the "C" locale: only A-Z change. */
  function AsciiLower(c: char): (r: char)
    ensures 'A' <= c <= 'Z' ==> r as int == c as int + 32
    ensures !('A' <= c <= 'Z') ==> r == c
  {
    if 'A' <= c <= 'Z' then (c as int + 32) as char else c
  }

  /** Upper-casing restricted to ASCII: only a-z change. */
  function AsciiUpper(c: char): (r: char)
    ensures 'a' <= c <= 'z' ==> r as int == c as int - 32
    ensures !('a' <= c <= 'z') ==> r == c
  {
    if 'a' <= c <= 'z' then (c as int - 32) as char else c
  }

  function UpperString(s: string): (r: string)
    ensures |r| == |s| && forall i :: 0 <= i < |s| ==> r[i] == AsciiUpper(s[i])
  {
    if s == [] then [] else [AsciiUpper(s[0])] + UpperString(s[1..])
  }

  lemma {:induction false} UpperIdempotent(s: string)
    ensures UpperString(UpperString(s)) == UpperString(s)
  {
    var u := UpperString(s);
    var uu := UpperString(u);
    assert forall i :: 0 <= i < |s| ==> uu[i] == u[i];
  }

  /** Python's `str.isspace()`: the characters `str.strip()` removes. */
  predicate IsPySpace(c: char)
  {
    ('\t' <= c <= '\r') || ('\U{001C}' <= c <= ' ') || c == '\U{0085}' || c == '\U{00A0}'
    || c == '\U{1680}' || ('\U{2000}' <= c <= '\U{200A}') || c == '\U{2028}' || c == '\U{2029}'
    || c == '\U{202F}' || c == '\U{205F}' || c == '\U{3000}'
  }

  /** `s.lstrip()`. */
  function StripLeft(s: string): (r: string)
    ensures |r| <= |s| && (r != [] ==> !IsPySpace(r[0]))
  {
    if s != [] && IsPySpace(s[0]) then StripLeft(s[1..]) else s
  }

  /** `s.lstrip()` is a suffix of `s`, and what it drops is whitespace. */
  lemma {:induction false} StripLeftDrops(s: string)
    ensures StripLeft(s) == s[|s| - |StripLeft(s)|..]
    ensures forall i :: 0 <= i < |s| - |StripLeft(s)| ==> IsPySpace(s[i])
  {
    if s != [] && IsPySpace(s[0]) {
      StripLeftDrops(s[1..]);
      assert s[1..][|s| - 1 - |StripLeft(s)|..] == s[|s| - |StripLeft(s)|..];
      assert forall i :: 1 <= i < |s| - |StripLeft(s)| ==> s[i] == s[1..][i - 1];
    }
  }

  /** `s.rstrip()`. */
  function StripRight(s: string): (r: string)
    ensures |r| <= |s| && (r != [] ==> !IsPySpace(r[|r| - 1]))
  {
    if s != [] && IsPySpace(s[|s| - 1]) then StripRight(s[..|s| - 1]) else s
  }

  /** `s.rstrip()` is a prefix of `s`, and what it drops is whitespace. */
  lemma {:induction false} StripRightDrops(s: string)
    ensures StripRight(s) == s[..|StripRight(s)|]
    ensures forall i :: |StripRight(s)| <= i < |s| ==> IsPySpace(s[i])
  {
    if s != [] && IsPySpace(s[|s| - 1]) {
      StripRightDrops(s[..|s| - 1]);
      assert s[..|s| - 1][..|StripRight(s)|] == s[..|StripRight(s)|];
      assert forall i :: |StripRight(s)| <= i < |s| - 1 ==> s[i] == s[..|s| - 1][i];
    }
  }

  /** `s.strip()`. */
  function Strip(s: string): (r: string)
  {
    StripRight(StripLeft(s))
  }
}
