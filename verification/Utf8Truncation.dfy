/** Cutting a UTF-8 string (section 3 of RFC 3629) to a byte limit on a character boundary. */
module Utf8Truncation {
  import opened Wrappers

  const MAX_LEN: nat := 500

  predicate Continuation(b: byte) { 0x80 <= b < 0xC0 }

  /** The length of the character that `s` starts with, or 0 if it starts with none. */
  function CharLength(s: seq<byte>): (n: nat)
    ensures n <= 4 && n <= |s|
  {
    if |s| >= 1 && s[0] < 0x80 then 1
    else if |s| >= 2 && 0xC2 <= s[0] <= 0xDF && Continuation(s[1]) then 2
    else if |s| >= 3 && Continuation(s[1]) && Continuation(s[2]) &&
            ((s[0] == 0xE0 && 0xA0 <= s[1]) || (0xE1 <= s[0] <= 0xEC) ||
             (s[0] == 0xED && s[1] <= 0x9F) || (0xEE <= s[0] <= 0xEF)) then 3
    else if |s| >= 4 && Continuation(s[1]) && Continuation(s[2]) && Continuation(s[3]) &&
            ((s[0] == 0xF0 && 0x90 <= s[1]) || (0xF1 <= s[0] <= 0xF3) ||
             (s[0] == 0xF4 && s[1] <= 0x8F)) then 4
    else 0
  }

  /** A sequence of whole characters. */
  predicate WellFormed(s: seq<byte>) {
    s == [] || (CharLength(s) > 0 && WellFormed(s[CharLength(s)..]))
  }

  type Scalar = v: nat | v <= 0x10FFFF && !(0xD800 <= v <= 0xDFFF)

  /** The bytes of one character, by the table in section 3 of RFC 3629. */
  function EncodeScalar(v: Scalar): (b: seq<byte>)
    ensures |b| >= 1
  {
    if v < 0x80 then [v]
    else if v < 0x800 then [0xC0 + v / 64, 0x80 + v % 64]
    else if v < 0x10000 then [0xE0 + v / 4096, 0x80 + v / 64 % 64, 0x80 + v % 64]
    else [0xF0 + v / 262144, 0x80 + v / 4096 % 64, 0x80 + v / 64 % 64, 0x80 + v % 64]
  }

  function EncodeScalars(vs: seq<Scalar>): seq<byte> {
    if vs == [] then [] else EncodeScalar(vs[0]) + EncodeScalars(vs[1..])
  }

  lemma {:induction false} EncodedLength(v: Scalar, rest: seq<byte>)
    ensures CharLength(EncodeScalar(v) + rest) == |EncodeScalar(v)|
  {
  }

  /** Digits in base 64 are read back by division. */
  lemma {:induction false} Base64Digits(x: nat, y: nat, z: nat, w: nat)
    requires y < 64 && z < 64 && w < 64
    ensures (x * 64 + y) / 64 == x && (x * 64 + y) % 64 == y
    ensures var v := (x * 64 + y) * 64 + z; v / 4096 == x && v / 64 % 64 == y && v % 64 == z
    ensures var v := ((x * 64 + y) * 64 + z) * 64 + w;
            v / 262144 == x && v / 4096 % 64 == y && v / 64 % 64 == z && v % 64 == w
  {
  }

  lemma {:induction false} DecodedTwo(x: nat, y: nat) returns (v: Scalar)
    requires 2 <= x < 32 && y < 64
    ensures EncodeScalar(v) == [0xC0 + x, 0x80 + y]
  {
    Base64Digits(x, y, 0, 0);
    v := x * 64 + y;
  }

  lemma {:induction false} DecodedThree(x: nat, y: nat, z: nat) returns (v: Scalar)
    requires x < 16 && y < 64 && z < 64 && (x == 0 ==> 32 <= y) && (x == 13 ==> y < 32)
    ensures EncodeScalar(v) == [0xE0 + x, 0x80 + y, 0x80 + z]
  {
    Base64Digits(x, y, z, 0);
    v := (x * 64 + y) * 64 + z;
  }

  lemma {:induction false} DecodedFour(x: nat, y: nat, z: nat, w: nat) returns (v: Scalar)
    requires x < 5 && y < 64 && z < 64 && w < 64 && (x == 0 ==> 16 <= y) && (x == 4 ==> y < 16)
    ensures EncodeScalar(v) == [0xF0 + x, 0x80 + y, 0x80 + z, 0x80 + w]
  {
    Base64Digits(x, y, z, w);
    v := ((x * 64 + y) * 64 + z) * 64 + w;
  }

  lemma {:induction false} DecodedIsScalar(s: seq<byte>) returns (v: Scalar)
    requires CharLength(s) > 0
    ensures s[..CharLength(s)] == EncodeScalar(v)
  {
    var n := CharLength(s);
    if n == 1 {
      v := s[0];
    } else if n == 2 {
      v := DecodedTwo(s[0] as int - 0xC0, s[1] as int - 0x80);
    } else if n == 3 {
      v := DecodedThree(s[0] as int - 0xE0, s[1] as int - 0x80, s[2] as int - 0x80);
    } else {
      v := DecodedFour(s[0] as int - 0xF0, s[1] as int - 0x80, s[2] as int - 0x80, s[3] as int - 0x80);
    }
  }

  lemma {:induction false} Characters(s: seq<byte>) returns (vs: seq<Scalar>)
    requires WellFormed(s)
    ensures s == EncodeScalars(vs)
    decreases |s|
  {
    if s == [] {
      vs := [];
    } else {
      var n := CharLength(s);
      var v := DecodedIsScalar(s);
      var rest := Characters(s[n..]);
      vs := [v] + rest;
      assert vs[1..] == rest && s == s[..n] + s[n..];
    }
  }

  lemma {:induction false} EncodedWellFormed(vs: seq<Scalar>)
    ensures WellFormed(EncodeScalars(vs))
  {
    if vs != [] {
      EncodedWellFormed(vs[1..]);
      EncodedLength(vs[0], EncodeScalars(vs[1..]));
      assert EncodeScalars(vs)[|EncodeScalar(vs[0])|..] == EncodeScalars(vs[1..]);
    }
  }

  /** Well-formed text is exactly the encoding of a sequence of characters. */
  lemma {:induction false} WellFormedIff(s: seq<byte>)
    ensures WellFormed(s) <==> exists vs :: s == EncodeScalars(vs)
  {
    if WellFormed(s) {
      var vs := Characters(s);
    }
    if vs :| s == EncodeScalars(vs) {
      EncodedWellFormed(vs);
    }
  }

  /** The test that `str::is_char_boundary` makes: one look at the byte after the position. */
  predicate IsCharBoundary(s: seq<byte>, k: nat) {
    if k == 0 then true
    else if k >= |s| then k == |s|
    else !Continuation(s[k])
  }

  lemma {:induction false} CharPrefix(s: seq<byte>, k: nat)
    requires CharLength(s) > 0 && 0 < k <= |s|
    ensures k < CharLength(s) ==> CharLength(s[..k]) == 0 && Continuation(s[k])
    ensures k >= CharLength(s) ==> CharLength(s[..k]) == CharLength(s)
  {
  }

  /** In well-formed text, boundaries are exactly the positions that leave a well-formed prefix. */
  lemma {:induction false} BoundaryIff(s: seq<byte>, k: nat)
    requires WellFormed(s) && k <= |s|
    ensures IsCharBoundary(s, k) <==> WellFormed(s[..k])
    decreases |s|
  {
    if k > 0 {
      var n := CharLength(s);
      CharPrefix(s, k);
      if k >= n {
        var rest := s[n..];
        BoundaryIff(rest, k - n);
        assert s[..k][n..] == rest[..k - n];
        assert k < |s| ==> s[k] == rest[k - n];
        assert rest != [] ==> !Continuation(rest[0]);
      }
    }
  }

  /** Within any four neighbouring positions of well-formed text there is a boundary. */
  lemma {:induction false} BoundaryNearby(s: seq<byte>, k: nat) returns (b: nat)
    requires WellFormed(s) && k <= |s|
    ensures b <= k <= b + 3 && IsCharBoundary(s, b)
    decreases |s|
  {
    if k == 0 {
      b := 0;
    } else {
      var n := CharLength(s);
      if k < n {
        b := 0;
      } else {
        var rest := s[n..];
        var r := BoundaryNearby(rest, k - n);
        b := n + r;
        assert b < |s| ==> s[b] == rest[r];
        assert rest != [] ==> !Continuation(rest[0]);
      }
    }
  }

  /** The longest well-formed prefix of `s` of at most `limit` bytes. */
  ghost predicate LongestPrefix(s: seq<byte>, limit: nat, r: seq<byte>) {
    && r <= s && WellFormed(r) && |r| <= limit
    && forall k :: |r| < k <= limit && k <= |s| ==> !WellFormed(s[..k])
  }

  /** Cuts to at most 500 bytes, stepping back to a character boundary. */
  method Truncate(s: seq<byte>) returns (r: seq<byte>)
    requires WellFormed(s)
    ensures LongestPrefix(s, 500, r)
    ensures |s| <= 500 ==> r == s
    ensures |s| > 500 ==> 497 <= |r| <= 500
  {
    if |s| <= MAX_LEN {
      return s;
    }
    var end := MAX_LEN;
    ghost var near := BoundaryNearby(s, MAX_LEN);
    while !IsCharBoundary(s, end)
      invariant near <= end <= MAX_LEN
      invariant forall k :: end < k <= MAX_LEN ==> !IsCharBoundary(s, k)
      decreases end
    {
      end := end - 1;
    }
    BoundaryIff(s, end);
    forall k | end < k <= MAX_LEN && k <= |s| ensures !WellFormed(s[..k]) {
      BoundaryIff(s, k);
    }
    r := s[..end];
  }
}
