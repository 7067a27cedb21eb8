/** The access token string: assembling it and parsing it. */
module AccessTokens {
  import opened Wrappers
  import opened Uuids
  import opened Text
  import opened Base64

  datatype Kind = AccessConnector | SecretsManager

  const TOKEN_VERSION: string := "0"
  const SEED_LEN: nat := 16

  type Seed = b: seq<byte> | |b| == 16 witness seq(16, i => 0)

  /** The client-kind segment; Secrets Manager tokens have none. */
  function Segment(k: Kind): Option<string> {
    match k
    case AccessConnector => Some("access-connector")
    case SecretsManager => None
  }

  /** The key-derivation purpose of a kind. */
  function Purpose(k: Kind): string {
    match k
    case AccessConnector => "access-connector"
    case SecretsManager => "sm-access-token"
  }

  datatype AccessToken<K> = AccessToken(kind: Kind, apiKeyId: Uuid, clientSecret: string, key: K)

  datatype TokenError =
    | WrongParts
    | WrongVersion
    | WrongPrefix
    | InvalidUuid
    | InvalidBase64
    | InvalidLength(expected: nat, got: nat)

  /** The fixed segments that precede the secret. */
  function Lead(k: Kind, idText: string): seq<string> {
    match Segment(k)
    case Some(segment) => [TOKEN_VERSION, segment, idText]
    case None => [TOKEN_VERSION, idText]
  }

  /** The text before the colon. */
  function Prefix(k: Kind, idText: string, secret: string): string {
    Join(Lead(k, idText) + [secret], ".")
  }

  /** The token for an issued API key: `0.<kind>.<id>.<secret>:<seed>`. */
  function IntoToken(k: Kind, id: Uuid, secret: string, seed: Seed): string {
    Prefix(k, Format(id), secret) + ":" + Encode(BASE64, seed)
  }

  /** The segments around the optional client kind. */
  function SplitParts(k: Kind, parts: seq<string>): Option<(string, Option<string>, string, string)> {
    if Segment(k).Some? then
      if |parts| == 4 then Some((parts[0], Some(parts[1]), parts[2], parts[3])) else None
    else
      if |parts| == 3 then Some((parts[0], None, parts[1], parts[2])) else None
  }

  function Parse<K>(derive: (Seed, string) -> K, token: string, expected: Kind): Result<AccessToken<K>, TokenError> {
    match SplitOnce(token, ':')
    case None => Err(WrongParts)
    case Some((prefix, seedB64)) =>
      match SplitParts(expected, Split(prefix, '.'))
      case None => Err(WrongParts)
      case Some((version, clientKind, apiKeyId, clientSecret)) =>
        if version != TOKEN_VERSION then Err(WrongVersion)
        else if clientKind != Segment(expected) then Err(WrongPrefix)
        else
          match Uuids.Parse(apiKeyId)
          case None => Err(InvalidUuid)
          case Some(id) =>
            match Decode(Standard, seedB64)
            case None => Err(InvalidBase64)
            case Some(seed) =>
              if |seed| != SEED_LEN then Err(InvalidLength(SEED_LEN, |seed|))
              else Ok(AccessToken(expected, id, clientSecret, derive(seed, Purpose(expected))))
  }

  /** The OAuth client id: the kind, if the format has one, and the API key id. */
  function ClientId(k: Kind, id: Uuid): string {
    match Segment(k)
    case Some(segment) => segment + "." + Format(id)
    case None => Format(id)
  }

  // ---------------------------------------------------------------- segments

  lemma {:induction false} SplitPartsLead(k: Kind, idText: string, pieces: seq<string>)
    requires pieces != []
    ensures SplitParts(k, Lead(k, idText) + pieces)
         == if |pieces| == 1 then Some((TOKEN_VERSION, Segment(k), idText, pieces[0])) else None
  {
  }

  /** Parsing a string whose first colon ends a well-shaped prefix. */
  lemma {:induction false} ParseShaped<K>(derive: (Seed, string) -> K, k: Kind, idText: string, secret: string, seedText: string)
    requires '.' !in idText && ':' !in idText && ':' !in secret
    ensures Parse(derive, Prefix(k, idText, secret) + ":" + seedText, k)
         == if '.' in secret then Err(WrongParts)
            else if Uuids.Parse(idText).None? then Err(InvalidUuid)
            else if Decode(Standard, seedText).None? then Err(InvalidBase64)
            else if |Decode(Standard, seedText).value| != 16 then
              Err(InvalidLength(16, |Decode(Standard, seedText).value|))
            else
              Ok(AccessToken(k, Uuids.Parse(idText).value, secret, derive(Decode(Standard, seedText).value, Purpose(k))))
  {
    JoinLacks(Lead(k, idText) + [secret], ".", ':');
    SplitOnceAt(Prefix(k, idText, secret), ':', seedText);
    SplitJoinTail(Lead(k, idText), secret, '.');
    SplitPartsLead(k, idText, Split(secret, '.'));
    SplitCount(secret, '.');
    if '.' !in secret {
      SplitNone(secret, '.');
    }
  }

  // ---------------------------------------------------------------- round trip

  /** The part of the secret before its first colon, and what the parser takes for the seed. */
  function Cut(secret: string, seedText: string): (string, string) {
    match SplitOnce(secret, ':')
    case None => (secret, seedText)
    case Some((before, after)) => (before, after + ":" + seedText)
  }

  lemma {:induction false} ColonNotBase64(a: string, seed: Seed)
    ensures Decode(Standard, a + ":" + Encode(BASE64, seed)) == None
  {
    var s := a + ":" + Encode(BASE64, seed);
    var t := TrimPadding(s);
    assert s[|a|] == ':';
    assert |a| < |t|;
    assert Value(Standard, t[|a|]) == None;
  }

  /** The parser sees the token cut at the first colon of the secret, if it has one. */
  lemma {:induction false} TokenCut(k: Kind, id: Uuid, secret: string, seed: Seed)
    ensures var (before, rest) := Cut(secret, Encode(BASE64, seed));
            && ':' !in before
            && IntoToken(k, id, secret, seed) == Prefix(k, Format(id), before) + ":" + rest
  {
    var seedText := Encode(BASE64, seed);
    if SplitOnce(secret, ':').Some? {
      var (before, after) := SplitOnce(secret, ':').value;
      assert secret == before + (":" + after);
      JoinTail(Lead(k, Format(id)), before, ":" + after, ".");
      assert Prefix(k, Format(id), before) + (":" + after) + ":" + seedText
          == Prefix(k, Format(id), before) + ":" + (after + ":" + seedText);
    }
  }

  /** What parsing an assembled token returns, for every secret. */
  lemma {:induction false} ParseAssembled<K>(derive: (Seed, string) -> K, k: Kind, id: Uuid, secret: string, seed: Seed)
    ensures Parse(derive, IntoToken(k, id, secret, seed), k)
         == if '.' in Cut(secret, "").0 then Err(WrongParts)
            else if ':' in secret then Err(InvalidBase64)
            else Ok(AccessToken(k, id, secret, derive(seed, Purpose(k))))
  {
    var idText, seedText := Format(id), Encode(BASE64, seed);
    FormatCharacters(id, '.');
    FormatCharacters(id, ':');
    ParseFormat(id);
    DecodeEncode(BASE64, seed);
    TokenCut(k, id, secret, seed);
    var (before, rest) := Cut(secret, seedText);
    ParseShaped(derive, k, idText, before, rest);
    if ':' in secret {
      ColonNotBase64(SplitOnce(secret, ':').value.1, seed);
    }
  }

  /** The assembled token parses back to its values exactly when the secret has no dot and no colon. */
  lemma {:induction false} RoundTripIff<K>(derive: (Seed, string) -> K, k: Kind, id: Uuid, secret: string, seed: Seed)
    ensures var r := Parse(derive, IntoToken(k, id, secret, seed), k);
            && (r == Ok(AccessToken(k, id, secret, derive(seed, Purpose(k)))) <==> '.' !in secret && ':' !in secret)
            && (r.Ok? ==> r == Ok(AccessToken(k, id, secret, derive(seed, Purpose(k)))))
  {
    ParseAssembled(derive, k, id, secret, seed);
  }

  /** No string is a token of both kinds. */
  lemma {:induction false} KindsDisjoint<K>(derive: (Seed, string) -> K, s: string)
    ensures !(Parse(derive, s, AccessConnector).Ok? && Parse(derive, s, SecretsManager).Ok?)
  {
  }

  lemma {:induction false} RefusedByParts<K>(derive: (Seed, string) -> K, prefix: string, rest: string, k: Kind)
    requires ':' !in prefix
    requires var parts := SplitParts(k, Split(prefix, '.')); parts.None? || parts.value.1 != Segment(k)
    ensures Parse(derive, prefix + ":" + rest, k).Err?
  {
    SplitOnceAt(prefix, ':', rest);
  }

  /** A token assembled for one kind never parses as the other, whatever its secret. */
  lemma {:induction false} WrongKindRefused<K>(derive: (Seed, string) -> K, k: Kind, other: Kind, id: Uuid, secret: string, seed: Seed)
    requires k != other
    ensures Parse(derive, IntoToken(k, id, secret, seed), other).Err?
  {
    var idText := Format(id);
    FormatCharacters(id, '.');
    FormatCharacters(id, ':');
    TokenCut(k, id, secret, seed);
    var (before, rest) := Cut(secret, Encode(BASE64, seed));
    JoinLacks(Lead(k, idText) + [before], ".", ':');
    SplitJoinTail(Lead(k, idText), before, '.');
    assert |idText| == 36 && |"access-connector"| == 16;
    RefusedByParts(derive, Prefix(k, idText, before), rest, other);
  }

  /** `s` has the shape of a token of kind `k` that spells out `t`. */
  ghost predicate Shaped<K(!new)>(
    derive: (Seed, string) -> K, s: string, k: Kind, t: AccessToken<K>, idText: string, seedText: string)
  {
    && s == Prefix(k, idText, t.clientSecret) + ":" + seedText
    && '.' !in idText && ':' !in idText && '.' !in t.clientSecret && ':' !in t.clientSecret
    && t.kind == k && Uuids.Parse(idText) == Some(t.apiKeyId)
    && var seed := Decode(Standard, seedText);
    && seed.Some? && |seed.value| == SEED_LEN && t.key == derive(seed.value, Purpose(k))
  }

  lemma {:induction false} AcceptedParts(prefix: string, k: Kind, idText: string, secret: string)
    requires SplitParts(k, Split(prefix, '.')) == Some((TOKEN_VERSION, Segment(k), idText, secret))
    ensures prefix == Prefix(k, idText, secret) && '.' !in idText && '.' !in secret
  {
    var parts := Split(prefix, '.');
    JoinSplit(prefix, '.');
    SplitPieces(prefix, '.');
    assert parts == Lead(k, idText) + [secret];
    assert parts[|parts| - 1] == secret && parts[|parts| - 2] == idText;
  }

  lemma {:induction false} AcceptedIsShaped<K(!new)>(derive: (Seed, string) -> K, s: string, k: Kind, t: AccessToken<K>)
    returns (idText: string, seedText: string)
    requires Parse(derive, s, k) == Ok(t)
    ensures Shaped(derive, s, k, t, idText, seedText)
  {
    var (prefix, rest) := SplitOnce(s, ':').value;
    var (_, _, id, secret) := SplitParts(k, Split(prefix, '.')).value;
    AcceptedParts(prefix, k, id, secret);
    idText, seedText := id, rest;
    assert ':' !in idText && ':' !in secret by {
      InJoin(Lead(k, idText) + [secret], ".", ':');
      assert (Lead(k, idText) + [secret])[|Lead(k, idText)|] == secret;
      assert (Lead(k, idText) + [secret])[|Lead(k, idText)| - 1] == idText;
    }
  }

  /** A string is accepted exactly when it has the token shape, and then the parts are the token. */
  lemma {:induction false} AcceptedIff<K(!new)>(derive: (Seed, string) -> K, s: string, k: Kind, t: AccessToken<K>)
    ensures Parse(derive, s, k) == Ok(t) <==> exists idText, seedText :: Shaped(derive, s, k, t, idText, seedText)
  {
    if Parse(derive, s, k) == Ok(t) {
      var idText, seedText := AcceptedIsShaped(derive, s, k, t);
    }
    if idText, seedText :| Shaped(derive, s, k, t, idText, seedText) {
      ParseShaped(derive, k, idText, t.clientSecret, seedText);
    }
  }

  /** The client id is what stands between the version and the secret, and it names kind and id. */
  lemma {:induction false} ClientIdInToken(k: Kind, id: Uuid, secret: string, seed: Seed)
    ensures IntoToken(k, id, secret, seed) == "0." + ClientId(k, id) + "." + secret + ":" + Encode(BASE64, seed)
  {
    var text := Format(id);
    if k == AccessConnector {
      assert Lead(k, text) + [secret] == ["0", "access-connector", text, secret];
      JoinFour("0", "access-connector", text, secret, ".");
      assert "0" + "." + ("access-connector" + "." + text) == "0." + ("access-connector" + "." + text);
    } else {
      assert Lead(k, text) + [secret] == ["0", text, secret];
      JoinThree("0", text, secret, ".");
      assert "0" + "." + text == "0." + text;
    }
  }

  lemma {:induction false} ClientIdInjective(k: Kind, id: Uuid, k': Kind, id': Uuid)
    requires ClientId(k, id) == ClientId(k', id')
    ensures k == k' && id == id'
  {
    ParseFormat(id);
    ParseFormat(id');
    assert |Format(id)| == 36 && |Format(id')| == 36;
    if k == k' == AccessConnector {
      var n := |"access-connector" + "."|;
      assert ClientId(k, id)[n..] == Format(id) && ClientId(k', id')[n..] == Format(id');
    }
  }

  // ---------------------------------------------------------------- the texts and purposes themselves

  /** The token and the client id, written out. */
  lemma {:induction false} TokenText(id: Uuid, secret: string, seed: Seed)
    ensures IntoToken(AccessConnector, id, secret, seed)
         == "0.access-connector." + Format(id) + "." + secret + ":" + Encode(BASE64, seed)
    ensures IntoToken(SecretsManager, id, secret, seed) == "0." + Format(id) + "." + secret + ":" + Encode(BASE64, seed)
    ensures ClientId(AccessConnector, id) == "access-connector." + Format(id) && ClientId(SecretsManager, id) == Format(id)
  {
    ClientIdInToken(AccessConnector, id, secret, seed);
    ClientIdInToken(SecretsManager, id, secret, seed);
    assert "0." + ("access-connector." + Format(id)) == "0.access-connector." + Format(id);
  }

  /** What is left to check once version and kind are right, with the key purpose given. */
  function FinishParse<K>(
    derive: (Seed, string) -> K, k: Kind, purpose: string, idText: string, secret: string, seedText: string)
    : Result<AccessToken<K>, TokenError>
  {
    var id, seed := Uuids.Parse(idText), Decode(Standard, seedText);
    if id.None? then Err(InvalidUuid)
    else if seed.None? then Err(InvalidBase64)
    else if |seed.value| != 16 then Err(InvalidLength(16, |seed.value|))
    else Ok(AccessToken(k, id.value, secret, derive(seed.value, purpose)))
  }

  /** Parsing any string with a colon, by the pieces before it: which error comes first, and which key a token gets. */
  lemma {:induction false} ParseByParts<K>(derive: (Seed, string) -> K, parts: seq<string>, seedText: string)
    requires parts != [] && forall i :: 0 <= i < |parts| ==> '.' !in parts[i] && ':' !in parts[i]
    ensures Parse(derive, Join(parts, ".") + ":" + seedText, AccessConnector) ==
            if |parts| != 4 then Err(WrongParts)
            else if parts[0] != "0" then Err(WrongVersion)
            else if parts[1] != "access-connector" then Err(WrongPrefix)
            else FinishParse(derive, AccessConnector, "access-connector", parts[2], parts[3], seedText)
    ensures Parse(derive, Join(parts, ".") + ":" + seedText, SecretsManager) ==
            if |parts| != 3 then Err(WrongParts)
            else if parts[0] != "0" then Err(WrongVersion)
            else FinishParse(derive, SecretsManager, "sm-access-token", parts[1], parts[2], seedText)
  {
    JoinLacks(parts, ".", ':');
    SplitOnceAt(Join(parts, "."), ':', seedText);
    SplitJoin(parts, '.');
  }

  /** Without a colon there are no parts. */
  lemma {:induction false} ParseWithoutColon<K>(derive: (Seed, string) -> K, s: string, k: Kind)
    requires ':' !in s
    ensures Parse(derive, s, k) == Err(WrongParts)
  {
  }

  /** Every accepted token has the key derived from its seed for the purpose of its kind. */
  lemma {:induction false} AcceptedKey<K>(derive: (Seed, string) -> K, s: string, k: Kind) returns (seed: Seed)
    requires Parse(derive, s, k).Ok?
    ensures SplitOnce(s, ':').Some? && Decode(Standard, SplitOnce(s, ':').value.1) == Some(seed)
    ensures k.AccessConnector? ==> Parse(derive, s, k).value.key == derive(seed, "access-connector")
    ensures k.SecretsManager? ==> Parse(derive, s, k).value.key == derive(seed, "sm-access-token")
  {
    seed := Decode(Standard, SplitOnce(s, ':').value.1).value;
  }
}
