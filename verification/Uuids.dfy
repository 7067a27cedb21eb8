/** UUIDs and their text forms (section 4 of RFC 9562). */
module Uuids {
  import opened Wrappers

  type Uuid = b: seq<byte> | |b| == 16 witness seq(16, i => 0)

  type nibble = v: nat | v < 16

  function HexChar(v: nibble): char {
    if v < 10 then (48 + v) as char else (87 + v) as char
  }

  function HexValue(c: char): Option<nibble> {
    if '0' <= c <= '9' then Some(c as int - 48)
    else if 'a' <= c <= 'f' then Some(c as int - 87)
    else if 'A' <= c <= 'F' then Some(c as int - 55)
    else None
  }

  function Nibble(u: Uuid, i: nat): nibble
    requires i < 32
  {
    if i % 2 == 0 then u[i / 2] / 16 else u[i / 2] % 16
  }

  /** The 32 lowercase digits. */
  function Hex(u: Uuid): (t: string)
    ensures |t| == 32 && forall i :: 0 <= i < 32 ==> t[i] == HexChar(Nibble(u, i))
  {
    seq(32, i requires 0 <= i < 32 => HexChar(Nibble(u, i)))
  }

  /** Groups of 8, 4, 4, 4 and 12 digits. */
  function Hyphenate(t: string): (s: string)
    requires |t| == 32
    ensures |s| == 36
  {
    t[..8] + "-" + t[8..12] + "-" + t[12..16] + "-" + t[16..20] + "-" + t[20..]
  }

  function Format(u: Uuid): string {
    Hyphenate(Hex(u))
  }

  /** The byte that two digits spell. */
  function ByteAt(t: string, k: nat): byte
    requires |t| == 32 && k < 16 && HexValue(t[2 * k]).Some? && HexValue(t[2 * k + 1]).Some?
  {
    HexValue(t[2 * k]).value as int * 16 + HexValue(t[2 * k + 1]).value as int
  }

  function ParseSimple(t: string): Option<Uuid>
    requires |t| == 32
  {
    if forall i :: 0 <= i < 32 ==> HexValue(t[i]).Some? then
      Some(seq(16, k requires 0 <= k < 16 => ByteAt(t, k)))
    else None
  }

  function ParseHyphenated(s: string): Option<Uuid>
    requires |s| == 36
  {
    if s[8] == s[13] == s[18] == s[23] == '-' then
      ParseSimple(s[..8] + s[9..13] + s[14..18] + s[19..23] + s[24..])
    else None
  }

  /** Accepts the plain, hyphenated, braced and URN forms, in either case. */
  function Parse(s: string): Option<Uuid> {
    if |s| == 32 then ParseSimple(s)
    else if |s| == 36 then ParseHyphenated(s)
    else if |s| == 38 && s[0] == '{' && s[37] == '}' then ParseHyphenated(s[1..37])
    else if |s| == 45 && s[..9] == "urn:uuid:" then ParseHyphenated(s[9..])
    else None
  }

  /** `t` is the digits of `u`, in any mix of cases. */
  ghost predicate Spells(t: string, u: Uuid) {
    |t| == 32 && forall i :: 0 <= i < 32 ==> HexValue(t[i]) == Some(Nibble(u, i))
  }

  lemma {:induction false} HexSpells(u: Uuid)
    ensures Spells(Hex(u), u)
  {
  }

  lemma {:induction false} ByteIff(high: nibble, low: nibble, b: byte)
    ensures high as int * 16 + low as int == b <==> high == b / 16 && low == b % 16
  {
  }

  lemma {:induction false} DigitsOf(t: string, u: Uuid, k: nat)
    requires |t| == 32 && k < 16 && HexValue(t[2 * k]).Some? && HexValue(t[2 * k + 1]).Some?
    ensures ByteAt(t, k) == u[k] <==>
            HexValue(t[2 * k]).value == Nibble(u, 2 * k) && HexValue(t[2 * k + 1]).value == Nibble(u, 2 * k + 1)
  {
    ByteIff(HexValue(t[2 * k]).value, HexValue(t[2 * k + 1]).value, u[k]);
  }

  lemma {:induction false} BytesIff(t: string, u: Uuid)
    requires |t| == 32 && forall i :: 0 <= i < 32 ==> HexValue(t[i]).Some?
    ensures (forall k :: 0 <= k < 16 ==> ByteAt(t, k) == u[k]) <==> Spells(t, u)
  {
    if forall k :: 0 <= k < 16 ==> ByteAt(t, k) == u[k] {
      forall i | 0 <= i < 32 ensures HexValue(t[i]) == Some(Nibble(u, i)) {
        assert i == 2 * (i / 2) || i == 2 * (i / 2) + 1;
        DigitsOf(t, u, i / 2);
      }
    }
    if Spells(t, u) {
      forall k | 0 <= k < 16 ensures ByteAt(t, k) == u[k] {
        DigitsOf(t, u, k);
      }
    }
  }

  lemma {:induction false} ParseSimpleIff(t: string, u: Uuid)
    requires |t| == 32
    ensures ParseSimple(t) == Some(u) <==> Spells(t, u)
  {
    if forall i :: 0 <= i < 32 ==> HexValue(t[i]).Some? {
      BytesIff(t, u);
      assert ParseSimple(t).value == u <==> forall k :: 0 <= k < 16 ==> ByteAt(t, k) == u[k];
    }
  }

  /** Five groups of digits, joined with hyphens. */
  lemma {:induction false} HyphenateGroups(a: string, b: string, c: string, d: string, e: string)
    requires |a| == 8 && |b| == |c| == |d| == 4 && |e| == 12
    ensures var t := a + b + c + d + e;
            t[..8] == a && t[8..12] == b && t[12..16] == c && t[16..20] == d && t[20..] == e
    ensures Hyphenate(a + b + c + d + e) == a + "-" + b + "-" + c + "-" + d + "-" + e
  {
  }

  lemma {:induction false} GroupsRead(a: string, b: string, c: string, d: string, e: string)
    requires |a| == 8 && |b| == |c| == |d| == 4 && |e| == 12
    ensures var s := a + "-" + b + "-" + c + "-" + d + "-" + e;
            && s[8] == s[13] == s[18] == s[23] == '-'
            && s[..8] == a && s[9..13] == b && s[14..18] == c && s[19..23] == d && s[24..] == e
  {
  }

  lemma {:induction false} HyphensOut(s: string)
    requires |s| == 36 && s[8] == s[13] == s[18] == s[23] == '-'
    ensures s == s[..8] + "-" + s[9..13] + "-" + s[14..18] + "-" + s[19..23] + "-" + s[24..]
  {
  }

  lemma {:induction false} Unhyphenate(s: string, t: string)
    requires |s| == 36 && |t| == 32
    ensures s == Hyphenate(t) <==>
            s[8] == s[13] == s[18] == s[23] == '-' && s[..8] + s[9..13] + s[14..18] + s[19..23] + s[24..] == t
  {
    if s == Hyphenate(t) {
      GroupsRead(t[..8], t[8..12], t[12..16], t[16..20], t[20..]);
      assert t == t[..8] + t[8..12] + t[12..16] + t[16..20] + t[20..];
    }
    if s[8] == s[13] == s[18] == s[23] == '-' {
      HyphensOut(s);
      HyphenateGroups(s[..8], s[9..13], s[14..18], s[19..23], s[24..]);
    }
  }

  /** Printing and parsing are inverse. */
  lemma {:induction false} ParseFormat(u: Uuid)
    ensures Parse(Format(u)) == Some(u)
  {
    Unhyphenate(Format(u), Hex(u));
    HexSpells(u);
    ParseSimpleIff(Hex(u), u);
  }

  lemma {:induction false} ParseHyphenatedIff(s: string, u: Uuid)
    requires |s| == 36
    ensures ParseHyphenated(s) == Some(u) <==> exists t :: Spells(t, u) && s == Hyphenate(t)
  {
    var t := s[..8] + s[9..13] + s[14..18] + s[19..23] + s[24..];
    Unhyphenate(s, t);
    ParseSimpleIff(t, u);
    if t' :| Spells(t', u) && s == Hyphenate(t') {
      Unhyphenate(s, t');
    }
  }

  /** The texts that parse to `u`: its digits in any case, in one of four forms. */
  lemma {:induction false} ParseIff(s: string, u: Uuid)
    ensures Parse(s) == Some(u) <==>
            exists t :: Spells(t, u) &&
              (s == t || s == Hyphenate(t) || s == "{" + Hyphenate(t) + "}" || s == "urn:uuid:" + Hyphenate(t))
  {
    if |s| == 32 {
      ParseSimpleIff(s, u);
    } else if |s| == 36 {
      ParseHyphenatedIff(s, u);
    } else if |s| == 38 {
      ParseHyphenatedIff(s[1..37], u);
      assert s == [s[0]] + s[1..37] + [s[37]];
      if t :| Spells(t, u) && s == "{" + Hyphenate(t) + "}" {
        assert s[1..37] == Hyphenate(t);
      }
    } else if |s| == 45 {
      ParseHyphenatedIff(s[9..], u);
      assert s == s[..9] + s[9..];
      if t :| Spells(t, u) && s == "urn:uuid:" + Hyphenate(t) {
        assert s[9..] == Hyphenate(t);
      }
    }
  }

  /** The printed form holds only lowercase hex digits and hyphens. */
  lemma {:induction false} FormatCharacters(u: Uuid, c: char)
    requires HexValue(c) == None && c != '-'
    ensures c !in Format(u)
  {
    var t := Hex(u);
    forall i | 0 <= i < 32 ensures t[i] != c {
      HexSpells(u);
    }
    assert c !in t;
    assert c !in t[..8] && c !in t[8..12] && c !in t[12..16] && c !in t[16..20] && c !in t[20..];
  }

  lemma {:induction false} HexDigit(v: nibble)
    ensures HexChar(v) == "0123456789abcdef"[v]
  {
  }

  lemma {:induction false} HexText(u: Uuid, k: nat)
    requires k < 16
    ensures |Hex(u)| == 32
    ensures Hex(u)[2 * k] == "0123456789abcdef"[u[k] / 16] && Hex(u)[2 * k + 1] == "0123456789abcdef"[u[k] % 16]
  {
    HexDigit(u[k] / 16);
    HexDigit(u[k] % 16);
    assert Hex(u)[2 * k] == HexChar(Nibble(u, 2 * k)) && Hex(u)[2 * k + 1] == HexChar(Nibble(u, 2 * k + 1));
  }

  /** Where the two digits of byte `k` stand once the four hyphens are in. */
  function Place(k: nat): nat {
    2 * k + if k < 4 then 0 else if k < 6 then 1 else if k < 8 then 2 else if k < 10 then 3 else 4
  }

  lemma {:induction false} HyphenateAt(t: string, k: nat)
    requires |t| == 32 && k < 16
    ensures |Hyphenate(t)| == 36
    ensures Hyphenate(t)[Place(k)] == t[2 * k] && Hyphenate(t)[Place(k) + 1] == t[2 * k + 1]
    ensures Hyphenate(t)[8] == Hyphenate(t)[13] == Hyphenate(t)[18] == Hyphenate(t)[23] == '-'
  {
  }

  /** The printed form, character by character: lowercase digits, high half first, and four hyphens. */
  lemma {:induction false} FormatText(u: Uuid, k: nat)
    requires k < 16
    ensures |Format(u)| == 36
    ensures var at := 2 * k + if k < 4 then 0 else if k < 6 then 1 else if k < 8 then 2 else if k < 10 then 3 else 4;
            && Format(u)[at] == "0123456789abcdef"[u[k] / 16] && Format(u)[at + 1] == "0123456789abcdef"[u[k] % 16]
    ensures Format(u)[8] == Format(u)[13] == Format(u)[18] == Format(u)[23] == '-'
  {
    HexText(u, k);
    HyphenateAt(Hex(u), k);
  }
}
