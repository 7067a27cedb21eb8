/** Base64 and base64url (sections 4 and 5 of RFC 4648) with a permissive decoder. */
module Base64 {
  import opened Wrappers
  import opened Digits

  type sextet = v: nat | v < 64

  datatype Alphabet = Standard | UrlSafe

  datatype Encoding = Encoding(alphabet: Alphabet, padded: bool)

  const BASE64 := Encoding(Standard, true)
  const BASE64URL_NOPAD := Encoding(UrlSafe, false)
  const PADDING: char := '='

  function Symbol(a: Alphabet, v: sextet): char {
    if v < 26 then (65 + v) as char
    else if v < 52 then (71 + v) as char
    else if v < 62 then (v - 4) as char
    else if v == 62 then (if a.Standard? then '+' else '-')
    else (if a.Standard? then '/' else '_')
  }

  function Value(a: Alphabet, c: char): Option<sextet> {
    if 'A' <= c <= 'Z' then Some(c as int - 65)
    else if 'a' <= c <= 'z' then Some(c as int - 71)
    else if '0' <= c <= '9' then Some(c as int + 4)
    else if c == (if a.Standard? then '+' else '-') then Some(62)
    else if c == (if a.Standard? then '/' else '_') then Some(63)
    else None
  }

  /** The alphabet is a bijection, and padding is not part of it. */
  lemma {:induction false} SymbolValue(a: Alphabet, v: sextet, c: char)
    ensures Symbol(a, v) == c <==> Value(a, c) == Some(v)
    ensures Value(a, PADDING) == None
  {
  }

  // ---------------------------------------------------------------- groups

  /** The four sextets of a three-byte group. */
  function Group(x: byte, y: byte, z: byte): (r: seq<sextet>)
    ensures |r| == 4
  {
    [x / 4, x % 4 * 16 + y / 16, y % 16 * 4 + z / 64, z % 64]
  }

  /** The three bytes of a four-sextet group. */
  function Ungroup(p: sextet, q: sextet, r: sextet, t: sextet): (b: seq<byte>)
    ensures |b| == 3
  {
    [p as int * 4 + q as int / 16, q as int % 16 * 16 + r as int / 4, r as int % 4 * 64 + t as int]
  }

  lemma {:induction false} GroupUngroup(p: sextet, q: sextet, r: sextet, t: sextet)
    ensures var b := Ungroup(p, q, r, t); Group(b[0], b[1], b[2]) == [p, q, r, t]
    ensures var b := Ungroup(p, q, 0, 0); Group(b[0], 0, 0)[..2] == [p, q / 16 * 16]
    ensures var b := Ungroup(p, q, r, 0); Group(b[0], b[1], 0)[..3] == [p, q, r / 4 * 4]
  {
  }

  lemma {:induction false} UngroupGroup(x: byte, y: byte, z: byte)
    ensures var g := Group(x, y, z); Ungroup(g[0], g[1], g[2], g[3]) == [x, y, z]
  {
    DivMod(x % 4, y / 16, 16);
    DivMod(y % 16, z / 64, 4);
  }

  lemma {:induction false} GroupNumber(x: byte, y: byte, z: byte)
    ensures var g: seq<nat> := Group(x, y, z); ((g[0] * 64 + g[1]) * 64 + g[2]) * 64 + g[3] == (x * 256 + y) * 256 + z
    ensures var g: seq<nat> := Group(x, 0, 0); g[0] * 64 + g[1] == x * 16
    ensures var g: seq<nat> := Group(x, y, 0); (g[0] * 64 + g[1]) * 64 + g[2] == (x * 256 + y) * 4
  {
  }

  /** The input as sextets; a final group of one or two bytes is filled with zero bits. */
  function Sextets(b: seq<byte>): seq<sextet> {
    if |b| == 0 then []
    else if |b| == 1 then Group(b[0], 0, 0)[..2]
    else if |b| == 2 then Group(b[0], b[1], 0)[..3]
    else Group(b[0], b[1], b[2]) + Sextets(b[3..])
  }

  /** Undoes `Sextets`; the unused low bits of the last sextet are not looked at. */
  function Octets(v: seq<sextet>): seq<byte>
    requires |v| % 4 != 1
  {
    if |v| == 0 then []
    else if |v| == 2 then Ungroup(v[0], v[1], 0, 0)[..1]
    else if |v| == 3 then Ungroup(v[0], v[1], v[2], 0)[..2]
    else Ungroup(v[0], v[1], v[2], v[3]) + Octets(v[4..])
  }

  lemma {:induction false} SextetsLength(b: seq<byte>)
    ensures |Sextets(b)| == |b| / 3 * 4 + if |b| % 3 == 0 then 0 else |b| % 3 + 1
    ensures |Sextets(b)| % 4 != 1
  {
    if |b| >= 3 {
      SextetsLength(b[3..]);
    }
  }

  /** Clears the bits of the last sextet that carry no data. */
  function Canonical(v: seq<sextet>): seq<sextet>
    requires |v| % 4 != 1
  {
    var n := |v| - 1;
    if |v| % 4 == 2 then v[..n] + [v[n] / 16 * 16]
    else if |v| % 4 == 3 then v[..n] + [v[n] / 4 * 4]
    else v
  }

  lemma {:induction false} OctetsStep(g: seq<sextet>, v: seq<sextet>)
    requires |g| == 4 && |v| % 4 != 1
    ensures |g + v| % 4 != 1 && Octets(g + v) == Ungroup(g[0], g[1], g[2], g[3]) + Octets(v)
  {
    assert (g + v)[4..] == v;
  }

  lemma {:induction false} OctetsSextets(b: seq<byte>)
    ensures |Sextets(b)| % 4 != 1 && Octets(Sextets(b)) == b
  {
    if |b| >= 3 {
      OctetsSextets(b[3..]);
      OctetsStep(Group(b[0], b[1], b[2]), Sextets(b[3..]));
      UngroupGroup(b[0], b[1], b[2]);
      assert b == [b[0], b[1], b[2]] + b[3..];
    } else if |b| == 2 {
      UngroupGroup(b[0], b[1], 0);
    } else if |b| == 1 {
      UngroupGroup(b[0], 0, 0);
    }
  }

  lemma {:induction false} CanonicalStep(v: seq<sextet>)
    requires |v| % 4 != 1 && |v| >= 4
    ensures Canonical(v) == v[..4] + Canonical(v[4..])
  {
    var n := |v| - 1;
    assert |v[4..]| % 4 == |v| % 4;
    if |v| % 4 == 2 || |v| % 4 == 3 {
      assert v[4..][|v[4..]| - 1] == v[n];
      assert v[..n] == v[..4] + v[4..][..n - 4];
    } else {
      assert v == v[..4] + v[4..];
    }
  }

  lemma {:induction false} SextetsStep(t: seq<byte>, b: seq<byte>)
    requires |t| == 3
    ensures Sextets(t + b) == Group(t[0], t[1], t[2]) + Sextets(b)
  {
    assert (t + b)[3..] == b;
  }

  lemma {:induction false} SextetsOctets(v: seq<sextet>)
    requires |v| % 4 != 1
    ensures Sextets(Octets(v)) == Canonical(v)
  {
    if |v| >= 4 {
      SextetsOctets(v[4..]);
      CanonicalStep(v);
      GroupUngroup(v[0], v[1], v[2], v[3]);
      SextetsStep(Ungroup(v[0], v[1], v[2], v[3]), Octets(v[4..]));
      assert v[..4] == [v[0], v[1], v[2], v[3]];
    } else if |v| == 3 {
      GroupUngroup(v[0], v[1], v[2], 0);
      assert v[..2] == [v[0], v[1]];
    } else if |v| == 2 {
      GroupUngroup(v[0], v[1], 0, 0);
      assert v[..1] == [v[0]];
    }
  }

  lemma {:induction false} OctetsCanonical(v: seq<sextet>)
    requires |v| % 4 != 1
    ensures |Canonical(v)| == |v| && Octets(Canonical(v)) == Octets(v)
  {
    SextetsOctets(v);
    OctetsSextets(Octets(v));
  }

  lemma {:induction false} SextetsMore(t: seq<byte>, rest: seq<byte>, b: seq<byte>)
    requires |t| == 3 && Sextets(rest + b) == Sextets(rest) + Sextets(b)
    ensures Sextets(t + (rest + b)) == Sextets(t + rest) + Sextets(b)
  {
    SextetsStep(t, rest);
    SextetsStep(t, rest + b);
    var g, x, y := Group(t[0], t[1], t[2]), Sextets(rest), Sextets(b);
    assert g + (x + y) == g + x + y;
  }

  /** Whole groups encode independently of what follows. */
  lemma {:induction false} SextetsConcat(a: seq<byte>, b: seq<byte>)
    requires |a| % 3 == 0
    ensures Sextets(a + b) == Sextets(a) + Sextets(b)
  {
    if a == [] {
      assert a + b == b;
    } else {
      var t, rest := a[..3], a[3..];
      SextetsConcat(rest, b);
      SextetsMore(t, rest, b);
      assert a == t + rest && a + b == t + (rest + b);
    }
  }

  /** How far the input number is shifted left to fill the last sextet. */
  function Shift(n: nat): nat {
    if n % 3 == 0 then 1 else if n % 3 == 1 then 16 else 4
  }

  lemma {:induction false} NumberTail(d: seq<nat>, t: seq<nat>, base: nat)
    requires |t| <= 4
    ensures |t| == 1 ==> Number(d + t, base) == Number(d, base) * base + t[0]
    ensures |t| == 2 ==> Number(d + t, base) == (Number(d, base) * base + t[0]) * base + t[1]
    ensures |t| == 3 ==> Number(d + t, base) == ((Number(d, base) * base + t[0]) * base + t[1]) * base + t[2]
    ensures |t| == 4 ==>
              Number(d + t, base) == (((Number(d, base) * base + t[0]) * base + t[1]) * base + t[2]) * base + t[3]
  {
    assert |t| >= 1 ==> (d + t)[..|d + t| - 1] == d + t[..|t| - 1];
    if |t| >= 2 {
      NumberTail(d, t[..|t| - 1], base);
    } else if |t| == 1 {
      assert d + t[..0] == d;
    }
  }

  /** One more group after whole groups, as a step from number `n` to the next. */
  lemma {:induction false} GroupStep(d: seq<nat>, t: seq<byte>, n: nat)
    requires 1 <= |t| <= 3 && Number(d, 64) == n
    ensures |t| == 1 ==> Number(d + Sextets(t), 64) == (n * 256 + t[0]) * 16
    ensures |t| == 2 ==> Number(d + Sextets(t), 64) == ((n * 256 + t[0]) * 256 + t[1]) * 4
    ensures |t| == 3 ==> Number(d + Sextets(t), 64) == ((n * 256 + t[0]) * 256 + t[1]) * 256 + t[2]
  {
    if |t| == 3 {
      assert Sextets(t) == Group(t[0], t[1], t[2]) + Sextets(t[3..]) == Group(t[0], t[1], t[2]);
    }
    NumberTail(d, Sextets(t), 64);
    if |t| == 1 {
      GroupNumber(t[0], 0, 0);
    } else if |t| == 2 {
      GroupNumber(t[0], t[1], 0);
    } else {
      GroupNumber(t[0], t[1], t[2]);
    }
  }

  lemma {:induction false} GroupDigits(d: seq<byte>, t: seq<byte>)
    requires |d| % 3 == 0 && 1 <= |t| <= 3
    requires Number(Sextets(d), 64) == Number(d, 256)
    ensures Number(Sextets(d + t), 64) == Number(d + t, 256) * Shift(|t|)
  {
    SextetsConcat(d, t);
    GroupStep(Sextets(d), t, Number(d, 256));
    NumberTail(d, t, 256);
    assert Shift(|t|) == if |t| == 1 then 16 else if |t| == 2 then 4 else 1;
  }

  /** The sextets are the base-64 digits of the input number, shifted to fill the last one. */
  lemma {:induction false} SextetsAreDigits(b: seq<byte>)
    ensures Number(Sextets(b), 64) == Number(b, 256) * Shift(|b|)
  {
    if b != [] {
      var k := if |b| % 3 == 0 then 3 else |b| % 3;
      var d, t := b[..|b| - k], b[|b| - k..];
      assert b == d + t && Shift(|d|) == 1 && Shift(|t|) == Shift(|b|);
      SextetsAreDigits(d);
      GroupDigits(d, t);
    }
  }

  // ---------------------------------------------------------------- text

  function Symbols(a: Alphabet, v: seq<sextet>): (t: string)
    ensures |t| == |v|
    ensures forall i :: 0 <= i < |v| ==> t[i] == Symbol(a, v[i])
  {
    seq(|v|, i requires 0 <= i < |v| => Symbol(a, v[i]))
  }

  function Values(a: Alphabet, t: string): Option<seq<sextet>> {
    if forall i :: 0 <= i < |t| ==> Value(a, t[i]).Some?
    then Some(seq(|t|, i requires 0 <= i < |t| => Value(a, t[i]).value))
    else None
  }

  function Repeat(c: char, n: nat): (r: string)
    ensures |r| == n && forall i :: 0 <= i < n ==> r[i] == c
  {
    seq(n, i => c)
  }

  /** Whole-input encoding. */
  function Encode(e: Encoding, b: seq<byte>): string {
    Symbols(e.alphabet, Sextets(b)) + if e.padded then Repeat(PADDING, (3 - |b| % 3) % 3) else ""
  }

  /** Drops every trailing padding character. */
  function TrimPadding(s: string): (t: string)
    ensures t <= s && (t != [] ==> t[|t| - 1] != PADDING)
    ensures forall i :: |t| <= i < |s| ==> s[i] == PADDING
  {
    if s != [] && s[|s| - 1] == PADDING then TrimPadding(s[..|s| - 1]) else s
  }

  function Decode(a: Alphabet, s: string): Option<seq<byte>> {
    var t := TrimPadding(s);
    if |t| % 4 == 1 then None
    else
      match Values(a, t)
      case None => None
      case Some(v) => Some(Octets(v))
  }

  lemma {:induction false} TrimUnique(a: Alphabet, t: string, n: nat)
    requires forall i :: 0 <= i < |t| ==> Value(a, t[i]).Some?
    ensures TrimPadding(t + Repeat(PADDING, n)) == t
  {
    var s := t + Repeat(PADDING, n);
    if n == 0 {
      assert s == t;
    } else {
      assert s[..|s| - 1] == t + Repeat(PADDING, n - 1);
      TrimUnique(a, t, n - 1);
    }
  }

  /** A string decodes exactly when, without trailing padding, it is symbols of a possible length. */
  lemma {:induction false} DecodeAccepts(a: Alphabet, s: string)
    ensures Decode(a, s).Some? <==>
            exists t: string, n: nat {:trigger t + Repeat(PADDING, n)} ::
              && s == t + Repeat(PADDING, n)
              && |t| % 4 != 1
              && forall i :: 0 <= i < |t| ==> Value(a, t[i]).Some?
  {
    if Decode(a, s).Some? {
      var t := TrimPadding(s);
      assert s == t + Repeat(PADDING, |s| - |t|);
    }
    if t: string, n: nat {:trigger t + Repeat(PADDING, n)} :|
       s == t + Repeat(PADDING, n) && |t| % 4 != 1 && forall i :: 0 <= i < |t| ==> Value(a, t[i]).Some? {
      TrimUnique(a, t, n);
    }
  }

  lemma {:induction false} ValuesSymbols(a: Alphabet, v: seq<sextet>)
    ensures Values(a, Symbols(a, v)) == Some(v)
  {
    forall i | 0 <= i < |v| ensures Value(a, Symbol(a, v[i])) == Some(v[i]) {
      SymbolValue(a, v[i], Symbol(a, v[i]));
    }
    assert Values(a, Symbols(a, v)).value == v;
  }

  lemma {:induction false} TrimEncode(e: Encoding, b: seq<byte>)
    ensures TrimPadding(Encode(e, b)) == Symbols(e.alphabet, Sextets(b))
  {
    var t := Symbols(e.alphabet, Sextets(b));
    ValuesSymbols(e.alphabet, Sextets(b));
    var n := if e.padded then (3 - |b| % 3) % 3 else 0;
    assert Encode(e, b) == t + Repeat(PADDING, n);
    TrimUnique(e.alphabet, t, n);
  }

  /** Encoded text holds only symbols and padding. */
  lemma {:induction false} EncodeCharacters(e: Encoding, b: seq<byte>, c: char)
    requires Value(e.alphabet, c) == None && c != PADDING
    ensures c !in Encode(e, b)
  {
    var t := Symbols(e.alphabet, Sextets(b));
    forall i | 0 <= i < |t| ensures t[i] != c {
      SymbolValue(e.alphabet, Sextets(b)[i], t[i]);
    }
  }

  /** Decoding undoes encoding, with or without padding. */
  lemma {:induction false} DecodeEncode(e: Encoding, b: seq<byte>)
    ensures Decode(e.alphabet, Encode(e, b)) == Some(b)
  {
    TrimEncode(e, b);
    ValuesSymbols(e.alphabet, Sextets(b));
    OctetsSextets(b);
  }

  /** All spellings of a value: its symbols up to the unused low bits, then any padding. */
  lemma {:induction false} DecodeSpellings(a: Alphabet, s: string, b: seq<byte>)
    ensures Decode(a, s) == Some(b) <==>
            && Values(a, TrimPadding(s)).Some?
            && |TrimPadding(s)| % 4 != 1
            && Canonical(Values(a, TrimPadding(s)).value) == Sextets(b)
  {
    var t := TrimPadding(s);
    if Values(a, t).Some? && |t| % 4 != 1 {
      var v := Values(a, t).value;
      SextetsOctets(v);
      OctetsSextets(b);
      OctetsCanonical(v);
    }
  }

  /** The one spelling that the encoder itself produces for what `s` decodes to. */
  function NormalForm(e: Encoding, s: string): Option<string> {
    match Decode(e.alphabet, s)
    case None => None
    case Some(b) => Some(Encode(e, b))
  }

  /** Re-encoding keeps the value, is idempotent, and identifies exactly the equal values. */
  lemma {:induction false} NormalFormExact(e: Encoding, s: string, u: string)
    requires Decode(e.alphabet, s).Some? && Decode(e.alphabet, u).Some?
    ensures Decode(e.alphabet, NormalForm(e, s).value) == Decode(e.alphabet, s)
    ensures NormalForm(e, NormalForm(e, s).value) == NormalForm(e, s)
    ensures Decode(e.alphabet, s) == Decode(e.alphabet, u) <==> NormalForm(e, s) == NormalForm(e, u)
  {
    DecodeEncode(e, Decode(e.alphabet, s).value);
    DecodeEncode(e, Decode(e.alphabet, u).value);
  }

  lemma {:induction false} PaddingLength(n: nat, m: nat)
    requires m == n / 3 * 4 + if n % 3 == 0 then 0 else n % 3 + 1
    ensures (4 - m % 4) % 4 == (3 - n % 3) % 3
  {
  }

  lemma {:induction false} EncodeOctets(e: Encoding, v: seq<sextet>)
    requires |v| % 4 != 1
    ensures Encode(e, Octets(v))
         == Symbols(e.alphabet, Canonical(v)) + Repeat(PADDING, if e.padded then (4 - |v| % 4) % 4 else 0)
  {
    var b := Octets(v);
    SextetsOctets(v);
    SextetsLength(b);
    OctetsCanonical(v);
    PaddingLength(|b|, |v|);
  }

  lemma {:induction false} SymbolsInjective(a: Alphabet, v: seq<sextet>, w: seq<sextet>)
    ensures Symbols(a, v) == Symbols(a, w) <==> v == w
  {
    ValuesSymbols(a, v);
    ValuesSymbols(a, w);
  }

  lemma {:induction false} PaddedEqual(t: string, n: nat, u: string, m: nat)
    requires |t| == |u|
    ensures t + Repeat(PADDING, n) == u + Repeat(PADDING, m) <==> t == u && n == m
  {
    var x, y := t + Repeat(PADDING, n), u + Repeat(PADDING, m);
    assert x[..|t|] == t && y[..|t|] == u;
    assert |x| == |t| + n && |y| == |u| + m;
  }

  lemma {:induction false} NormalSpelling(e: Encoding, v: seq<sextet>, m: nat)
    requires |v| % 4 != 1
    ensures Encode(e, Octets(v)) == Symbols(e.alphabet, v) + Repeat(PADDING, m) <==>
            Canonical(v) == v && m == if e.padded then (4 - |v| % 4) % 4 else 0
  {
    var n := if e.padded then (4 - |v| % 4) % 4 else 0;
    OctetsCanonical(v);
    EncodeOctets(e, v);
    SymbolsInjective(e.alphabet, Canonical(v), v);
    PaddedEqual(Symbols(e.alphabet, Canonical(v)), n, Symbols(e.alphabet, v), m);
  }

  lemma {:induction false} DecodeSymbols(a: Alphabet, v: seq<sextet>, m: nat)
    requires |v| % 4 != 1
    ensures Decode(a, Symbols(a, v) + Repeat(PADDING, m)) == Some(Octets(v))
  {
    ValuesSymbols(a, v);
    TrimUnique(a, Symbols(a, v), m);
  }

  /** A decodable string is in normal form exactly when its spare bits are clear and its padding is exact. */
  lemma {:induction false} NormalFormIff(e: Encoding, v: seq<sextet>, m: nat)
    requires |v| % 4 != 1
    ensures var s := Symbols(e.alphabet, v) + Repeat(PADDING, m);
            NormalForm(e, s) == Some(s) <==>
            Canonical(v) == v && m == if e.padded then (4 - |v| % 4) % 4 else 0
  {
    DecodeSymbols(e.alphabet, v, m);
    NormalSpelling(e, v, m);
  }

  // ---------------------------------------------------------------- the texts themselves

  lemma {:induction false} UpperLetter(i: nat)
    requires i < 26
    ensures "ABCDEFGHIJKLMNOPQRSTUVWXYZ"[i] as int == 65 + i
  {
  }

  lemma {:induction false} LowerLetter(i: nat)
    requires i < 26
    ensures "abcdefghijklmnopqrstuvwxyz"[i] as int == 97 + i
  {
  }

  lemma {:induction false} Digit(i: nat)
    requires i < 10
    ensures "0123456789"[i] as int == 48 + i
  {
  }

  /** The alphabets of sections 4 and 5 of RFC 4648: capitals, small letters, digits and two signs. */
  lemma {:induction false} AlphabetText(a: Alphabet, v: sextet)
    ensures Symbol(a, v) ==
            if v < 26 then "ABCDEFGHIJKLMNOPQRSTUVWXYZ"[v]
            else if v < 52 then "abcdefghijklmnopqrstuvwxyz"[v - 26]
            else if v < 62 then "0123456789"[v - 52]
            else (if a.Standard? then "+/" else "-_")[v - 62]
  {
    if v < 26 {
      UpperLetter(v);
    } else if v < 52 {
      LowerLetter(v - 26);
    } else if v < 62 {
      Digit(v - 52);
    }
  }

  /** Padded text fills whole groups of four and has `=` exactly where the last group has no data. */
  lemma {:induction false} PaddedText(b: seq<byte>, i: nat)
    requires i < |Encode(BASE64, b)|
    ensures |Encode(BASE64, b)| == (|b| + 2) / 3 * 4
    ensures Encode(BASE64, b)[i] == '=' <==> i >= |Encode(BASE64, b)| - (3 - |b| % 3) % 3
  {
    SextetsLength(b);
    var t := Symbols(Standard, Sextets(b));
    if i < |t| {
      SymbolValue(Standard, Sextets(b)[i], t[i]);
    }
  }

  /** The url form has no `=` at all. */
  lemma {:induction false} UrlTextUnpadded(b: seq<byte>)
    ensures '=' !in Encode(BASE64URL_NOPAD, b)
  {
    var t := Symbols(UrlSafe, Sextets(b));
    forall i | 0 <= i < |t| ensures t[i] != '=' {
      SymbolValue(UrlSafe, Sextets(b)[i], t[i]);
    }
    assert Encode(BASE64URL_NOPAD, b) == t + "" == t;
  }
}
