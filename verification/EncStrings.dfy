/** Text and byte forms of encrypted strings. */
module EncStrings {
  import opened Wrappers
  import opened Text
  import opened Base64

  datatype EncString =
    | Aes256Cbc(iv: seq<byte>, data: seq<byte>)
    | Aes256CbcHmac(iv: seq<byte>, mac: seq<byte>, data: seq<byte>)
    | CoseEncrypt0(data: seq<byte>)
    | Unparseable(raw: string)
  {
    /** The fixed-size parts have their size. */
    predicate Sized() {
      match this
      case Aes256Cbc(iv, _) => |iv| == 16
      case Aes256CbcHmac(iv, mac, _) => |iv| == 16 && |mac| == 32
      case CoseEncrypt0(_) => true
      case Unparseable(_) => true
    }
  }

  function B64(b: seq<byte>): string {
    Encode(BASE64, b)
  }

  function FromB64(s: string): Option<seq<byte>> {
    Decode(Standard, s)
  }

  function TypeDigit(e: EncString): string
    requires !e.Unparseable?
  {
    match e
    case Aes256Cbc(_, _) => "0"
    case Aes256CbcHmac(_, _, _) => "2"
    case CoseEncrypt0(_) => "7"
  }

  function Parts(e: EncString): seq<string>
    requires !e.Unparseable?
  {
    match e
    case Aes256Cbc(iv, data) => [B64(iv), B64(data)]
    case Aes256CbcHmac(iv, mac, data) => [B64(iv), B64(data), B64(mac)]
    case CoseEncrypt0(data) => [B64(data)]
  }

  function ToString(e: EncString): string {
    if e.Unparseable? then e.raw else TypeDigit(e) + "." + Join(Parts(e), "|")
  }

  /** The type digit and the parts; text without exactly one dot has the legacy form. */
  function SplitEncString(s: string): (string, seq<string>) {
    var header := Split(s, '.');
    if |header| == 2 then (header[0], Split(header[1], '|'))
    else
      var parts := Split(s, '|');
      (if |parts| == 3 then "1" else "0", parts)
  }

  function FromB64Sized(s: string, n: nat): (r: Option<seq<byte>>)
    ensures r.Some? ==> |r.value| == n
  {
    match FromB64(s)
    case Some(b) => if |b| == n then Some(b) else None
    case None => None
  }

  function ParseParts(kind: string, parts: seq<string>): (r: Option<EncString>)
    ensures r.Some? ==> r.value.Sized() && !r.value.Unparseable?
  {
    if kind == "0" && |parts| == 2 then
      match (FromB64Sized(parts[0], 16), FromB64(parts[1]))
      case (Some(iv), Some(data)) => Some(Aes256Cbc(iv, data))
      case _ => None
    else if kind == "2" && |parts| == 3 then
      match (FromB64Sized(parts[0], 16), FromB64(parts[1]), FromB64Sized(parts[2], 32))
      case (Some(iv), Some(data), Some(mac)) => Some(Aes256CbcHmac(iv, mac, data))
      case _ => None
    else if kind == "7" && |parts| == 1 then
      match FromB64(parts[0])
      case Some(data) => Some(CoseEncrypt0(data))
      case None => None
    else None
  }

  function ParseKnownFormat(s: string): (r: Option<EncString>)
    ensures r.Some? ==> r.value.Sized() && !r.value.Unparseable?
  {
    var (kind, parts) := SplitEncString(s);
    ParseParts(kind, parts)
  }

  /** Parsing never fails: other text is kept as it is. */
  function FromStr(s: string): (e: EncString)
    ensures e.Sized()
  {
    match ParseKnownFormat(s)
    case Some(e) => e
    case None => Unparseable(s)
  }

  lemma {:induction false} B64Plain(b: seq<byte>)
    ensures '.' !in B64(b) && '|' !in B64(b) && ':' !in B64(b)
    ensures FromB64(B64(b)) == Some(b)
  {
    EncodeCharacters(BASE64, b, '.');
    EncodeCharacters(BASE64, b, '|');
    EncodeCharacters(BASE64, b, ':');
    DecodeEncode(BASE64, b);
  }

  lemma {:induction false} SplitTyped(kind: string, parts: seq<string>)
    requires '.' !in kind && parts != []
    requires forall i :: 0 <= i < |parts| ==> '.' !in parts[i] && '|' !in parts[i]
    ensures SplitEncString(kind + "." + Join(parts, "|")) == (kind, parts)
  {
    var body := Join(parts, "|");
    JoinLacks(parts, "|", '.');
    SplitAt(kind, '.', body);
    SplitNone(kind, '.');
    SplitNone(body, '.');
    SplitJoin(parts, '|');
  }

  lemma {:induction false} PartIsB64(e: EncString, i: nat) returns (b: seq<byte>)
    requires !e.Unparseable? && i < |Parts(e)|
    ensures Parts(e)[i] == B64(b)
  {
    if e.CoseEncrypt0? || i == 1 {
      b := e.data;
    } else if i == 0 {
      b := e.iv;
    } else {
      b := e.mac;
    }
  }

  lemma {:induction false} PartPlain(e: EncString, i: nat)
    requires !e.Unparseable? && i < |Parts(e)|
    ensures '.' !in Parts(e)[i] && '|' !in Parts(e)[i]
  {
    var b := PartIsB64(e, i);
    B64Plain(b);
  }

  lemma {:induction false} SplitPrinted(e: EncString)
    requires !e.Unparseable?
    ensures SplitEncString(ToString(e)) == (TypeDigit(e), Parts(e))
  {
    forall i | 0 <= i < |Parts(e)| ensures '.' !in Parts(e)[i] && '|' !in Parts(e)[i] {
      PartPlain(e, i);
    }
    SplitTyped(TypeDigit(e), Parts(e));
  }

  lemma {:induction false} SizedPart(b: seq<byte>)
    ensures FromB64Sized(B64(b), |b|) == Some(b)
  {
    B64Plain(b);
  }

  lemma {:induction false} PartsRead(e: EncString)
    requires e.Sized() && !e.Unparseable?
    ensures ParseParts(TypeDigit(e), Parts(e)) == Some(e)
  {
    B64Plain(e.data);
    if !e.CoseEncrypt0? {
      SizedPart(e.iv);
    }
    if e.Aes256CbcHmac? {
      SizedPart(e.mac);
    }
  }

  /** Printing then parsing gives back every known format. */
  lemma {:induction false} ParsePrinted(e: EncString)
    requires e.Sized() && !e.Unparseable?
    ensures ParseKnownFormat(ToString(e)) == Some(e)
  {
    SplitPrinted(e);
    PartsRead(e);
  }

  /** Printing and parsing give back `e` exactly when it is not a known format kept as raw text. */
  lemma {:induction false} PrintParseIff(e: EncString)
    requires e.Sized()
    ensures FromStr(ToString(e)) == e <==> !(e.Unparseable? && ParseKnownFormat(e.raw).Some?)
  {
    if !e.Unparseable? {
      ParsePrinted(e);
    }
  }

  /** Whatever text comes in, one pass through the printer is enough: parsing is stable. */
  lemma {:induction false} ParseStable(s: string)
    ensures FromStr(ToString(FromStr(s))) == FromStr(s)
  {
    PrintParseIff(FromStr(s));
  }

  // ---------------------------------------------------------------- bytes

  function ToBuffer(e: EncString): Option<seq<byte>> {
    match e
    case Aes256Cbc(iv, data) => Some([0] + iv + data)
    case Aes256CbcHmac(iv, mac, data) => Some([2] + iv + mac + data)
    case CoseEncrypt0(data) => Some([7] + data)
    case Unparseable(_) => None
  }

  function FromBuffer(b: seq<byte>): Option<EncString> {
    if b == [] then None
    else if b[0] == 0 then (if |b| < 18 then None else Some(Aes256Cbc(b[1..17], b[17..])))
    else if b[0] == 2 then (if |b| < 50 then None else Some(Aes256CbcHmac(b[1..17], b[17..49], b[49..])))
    else if b[0] == 7 then Some(CoseEncrypt0(b[1..]))
    else None
  }

  /** The byte form is read back exactly when it exists and, for the legacy types, the data is not empty. */
  lemma {:induction false} BufferRoundTripIff(e: EncString)
    requires e.Sized()
    ensures ToBuffer(e).Some? && FromBuffer(ToBuffer(e).value) == Some(e) <==>
            !e.Unparseable? && (e.CoseEncrypt0? || e.data != [])
  {
    match e
    case Aes256Cbc(iv, data) =>
      var b := [0] + iv + data;
      assert b[1..17] == iv && b[17..] == data;
    case Aes256CbcHmac(iv, mac, data) =>
      var b := [2] + iv + mac + data;
      assert b[1..17] == iv && b[17..49] == mac && b[49..] == data;
    case CoseEncrypt0(data) =>
      assert ([7] + data)[1..] == data;
    case Unparseable(_) =>
  }

  /** Every accepted byte form is the byte form of what it was read as. */
  lemma {:induction false} BufferExact(b: seq<byte>)
    requires FromBuffer(b).Some?
    ensures ToBuffer(FromBuffer(b).value) == Some(b) && FromBuffer(b).value.Sized()
  {
    if b[0] == 0 {
      assert b == [b[0]] + b[1..17] + b[17..];
    } else if b[0] == 2 {
      assert b == [b[0]] + b[1..17] + b[17..49] + b[49..];
    } else {
      assert b == [b[0]] + b[1..];
    }
  }

  // ---------------------------------------------------------------- the forms themselves

  lemma {:induction false} Headed(digit: string, x: string, y: string)
    ensures digit + "." + (x + "|" + y) == (digit + ".") + x + "|" + y
  {
  }

  lemma {:induction false} HeadedThree(digit: string, x: string, y: string, z: string)
    ensures digit + "." + ((x + "|" + y) + ("|" + z)) == (digit + ".") + x + "|" + y + "|" + z
  {
  }

  /** The printed forms, written out. */
  lemma {:induction false} PrintedText(iv: seq<byte>, mac: seq<byte>, data: seq<byte>, raw: string)
    ensures ToString(Aes256Cbc(iv, data)) == "0." + B64(iv) + "|" + B64(data)
    ensures ToString(Aes256CbcHmac(iv, mac, data)) == "2." + B64(iv) + "|" + B64(data) + "|" + B64(mac)
    ensures ToString(CoseEncrypt0(data)) == "7." + B64(data)
    ensures ToString(Unparseable(raw)) == raw
  {
    JoinTwo(B64(iv), B64(data), "|");
    JoinThree(B64(iv), B64(data), B64(mac), "|");
    Headed("0", B64(iv), B64(data));
    HeadedThree("2", B64(iv), B64(data), B64(mac));
    assert "0" + "." == "0." && "2" + "." == "2." && "7" + "." == "7.";
  }

  lemma {:induction false} LegacyTwo(x: string, y: string)
    requires '.' !in x && '|' !in x && '.' !in y && '|' !in y
    ensures SplitEncString(x + "|" + y) == ("0", [x, y])
  {
    SplitNone(x + "|" + y, '.');
    JoinTwo(x, y, "|");
    SplitJoin([x, y], '|');
    assert "|" == ['|'];
  }

  lemma {:induction false} LegacyThree(x: string, y: string, z: string)
    requires '.' !in x && '|' !in x && '.' !in y && '|' !in y && '.' !in z && '|' !in z
    ensures SplitEncString(x + "|" + y + "|" + z) == ("1", [x, y, z])
  {
    SplitNone(x + "|" + y + "|" + z, '.');
    JoinThree(x, y, z, "|");
    SplitJoin([x, y, z], '|');
    assert "|" == ['|'] && (x + "|" + y) + ("|" + z) == x + "|" + y + "|" + z;
  }

  lemma {:induction false} LegacyParts(iv: seq<byte>, data: seq<byte>)
    requires |iv| == 16
    ensures ParseParts("0", [B64(iv), B64(data)]) == Some(Aes256Cbc(iv, data))
  {
    PartsRead(Aes256Cbc(iv, data));
  }

  /** Text without a header: two parts are the oldest format, three parts are not supported any more. */
  lemma {:induction false} LegacyText(iv: seq<byte>, data: seq<byte>, mac: seq<byte>)
    requires |iv| == 16
    ensures FromStr(B64(iv) + "|" + B64(data)) == Aes256Cbc(iv, data)
    ensures FromStr(B64(iv) + "|" + B64(data) + "|" + B64(mac)).Unparseable?
  {
    B64Plain(iv);
    B64Plain(data);
    B64Plain(mac);
    LegacyTwo(B64(iv), B64(data));
    LegacyThree(B64(iv), B64(data), B64(mac));
    LegacyParts(iv, data);
    assert ParseParts("1", [B64(iv), B64(data), B64(mac)]) == None;
  }

  /** The byte forms, written out. */
  lemma {:induction false} BufferBytes(iv: seq<byte>, mac: seq<byte>, data: seq<byte>, raw: string)
    ensures ToBuffer(Aes256Cbc(iv, data)) == Some([0] + iv + data)
    ensures ToBuffer(Aes256CbcHmac(iv, mac, data)) == Some([2] + iv + mac + data)
    ensures ToBuffer(CoseEncrypt0(data)) == Some([7] + data)
    ensures ToBuffer(Unparseable(raw)) == None
  {
  }
}
