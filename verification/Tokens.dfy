/**
 Session tokens `mk_<payload>.<signature>`: minted by the scripts, verified by the engine. The
 MAC, the JSON printer and the JSON parser are left abstract.
 */
module Tokens {
  import opened Wrappers
  import opened Text
  import opened Bytes
  import opened Base64

  const I64_MIN: int := -0x8000_0000_0000_0000
  const I64_MAX: int := 0x7FFF_FFFF_FFFF_FFFF

  datatype Claims = Claims(tid: string, uid: string, iat: int, exp: int, jti: string)

  /// What a reader gets out of a JSON text: each field if it is there with the right type.
  datatype Fields = Fields(tid: Option<string>, uid: Option<string>, exp: Option<int>, jti: Option<string>)

  datatype VerifiedToken = VerifiedToken(tenantId: string, userId: string, jti: string, exp: int)

  type Mac = (seq<Byte>, seq<Byte>) -> seq<Byte>
  type JsonPrinter = Claims -> seq<Byte>
  type JsonParser = seq<Byte> -> Option<Fields>

  /// The parser reads back every field the printer wrote. `exp` only if it fits a signed word.
  ghost predicate ReadsBack(print_: JsonPrinter, parse: JsonParser) {
    forall c :: parse(print_(c)) == Some(Fields(Some(c.tid), Some(c.uid),
                                                if I64_MIN <= c.exp <= I64_MAX then Some(c.exp) else None,
                                                Some(c.jti)))
  }

  function TokenOf(mac: Mac, secret: seq<Byte>, payload: seq<Byte>): string {
    "mk_" + Encode(UrlSafe, payload) + "." + Encode(UrlSafe, mac(secret, payload))
  }

  /// mint_hmac_token: the padded forms with the padding stripped, at time `now`.
  function Mint(mac: Mac, print_: JsonPrinter, secret: seq<Byte>, tenant: string, user: string, now: int, ttl: int, jti: string,
                bearer: bool): string
  {
    var payload := print_(Claims(tenant, user, now, now + ttl, jti));
    var payloadText := RightStrip(EncodePadded(UrlSafe, payload), '=');
    var signature := RightStrip(EncodePadded(UrlSafe, mac(secret, payload)), '=');
    var token := "mk_" + payloadText + "." + signature;
    if bearer then "Bearer " + token else token
  }

  /// The interceptor's view of the authorization header.
  function SessionToken(header: string): string {
    match StripPrefix(header, "Bearer ")
    case Some(token) => token
    case None => match StripPrefix(header, "bearer ") case Some(token) => token case None => header
  }

  /// HmacTokenVerifier::verify, with the clock as a parameter.
  function Verify(mac: Mac, parse: JsonParser, secret: seq<Byte>, raw: string, skew: int, now: int): Option<VerifiedToken> {
    match StripPrefix(raw, "mk_")
    case None => None
    case Some(token) =>
      match Find(token, '.')
      case None => None
      case Some(dot) =>
        match Decode(UrlSafe, token[..dot])
        case None => None
        case Some(payload) =>
          match Decode(UrlSafe, token[dot + 1..])
          case None => None
          case Some(signature) =>
            if mac(secret, payload) != signature then None
            else
              match parse(payload)
              case None => None
              case Some(f) =>
                if f.exp.None? || f.exp.value + skew <= now then None
                else if f.tid.None? || f.uid.None? || f.jti.None? then None
                else Some(VerifiedToken(f.tid.value, f.uid.value, f.jti.value, f.exp.value))
  }

  lemma MintedIsToken(mac: Mac, print_: JsonPrinter, secret: seq<Byte>, tenant: string, user: string, now: int, ttl: int,
                      jti: string, bearer: bool)
    ensures var header := Mint(mac, print_, secret, tenant, user, now, ttl, jti, bearer);
            SessionToken(header) == TokenOf(mac, secret, print_(Claims(tenant, user, now, now + ttl, jti)))
  {
    hide Encode, EncodePadded, RightStrip;
    var payload := print_(Claims(tenant, user, now, now + ttl, jti));
    StrippedIsUnpadded(UrlSafe, payload);
    StrippedIsUnpadded(UrlSafe, mac(secret, payload));
    var token := TokenOf(mac, secret, payload);
    assert token[0] == 'm' && ("Bearer " + token)[7..] == token;
  }

  /// Taking a token apart finds the two texts it was put together from.
  lemma TokenSplits(mac: Mac, secret: seq<Byte>, payload: seq<Byte>)
    ensures var token := TokenOf(mac, secret, payload);
            && StripPrefix(token, "mk_").Some?
            && var rest := StripPrefix(token, "mk_").value;
               && Find(rest, '.') == Some(|Encode(UrlSafe, payload)|)
               && rest[..|Encode(UrlSafe, payload)|] == Encode(UrlSafe, payload)
               && rest[|Encode(UrlSafe, payload)| + 1..] == Encode(UrlSafe, mac(secret, payload))
  {
    hide Encode;
    var a, b := Encode(UrlSafe, payload), Encode(UrlSafe, mac(secret, payload));
    var token := TokenOf(mac, secret, payload);
    assert token[3..] == a + ['.'] + b;
    NoPadSymbol(UrlSafe, payload);
    FindAfterPrefix(a, '.', b);
  }

  /// The verifier accepts exactly the authentic, live tokens: some payload's token, letter for
  /// letter, whose claims are complete and not yet expired beyond the skew. Nothing else
  /// about the text can vary.
  lemma VerifiesExactlyAuthentic(mac: Mac, parse: JsonParser, secret: seq<Byte>, raw: string, skew: int, now: int, v: VerifiedToken)
    ensures Verify(mac, parse, secret, raw, skew, now) == Some(v) <==>
            exists payload :: raw == TokenOf(mac, secret, payload) && Live(parse, payload, skew, now, v)
  {
    hide Encode, Decode, Find;
    if Verify(mac, parse, secret, raw, skew, now) == Some(v) {
      var token := raw[3..];
      var dot := Find(token, '.').value;
      var payload := Decode(UrlSafe, token[..dot]).value;
      DecodesExactly(UrlSafe, token[..dot], payload);
      DecodesExactly(UrlSafe, token[dot + 1..], mac(secret, payload));
      assert token == token[..dot] + ['.'] + token[dot + 1..];
      assert raw == TokenOf(mac, secret, payload);
      assert Live(parse, payload, skew, now, v);
    }
    forall payload | raw == TokenOf(mac, secret, payload) && Live(parse, payload, skew, now, v)
      ensures Verify(mac, parse, secret, raw, skew, now) == Some(v)
    {
      TokenVerifies(mac, parse, secret, payload, skew, now);
    }
  }

  ghost predicate Live(parse: JsonParser, payload: seq<Byte>, skew: int, now: int, v: VerifiedToken) {
    && parse(payload).Some?
    && var f := parse(payload).value;
       && f.tid == Some(v.tenantId) && f.uid == Some(v.userId) && f.jti == Some(v.jti) && f.exp == Some(v.exp)
       && now < v.exp + skew
  }

  lemma TokenVerifies(mac: Mac, parse: JsonParser, secret: seq<Byte>, payload: seq<Byte>, skew: int, now: int)
    ensures forall v :: Verify(mac, parse, secret, TokenOf(mac, secret, payload), skew, now) == Some(v) <==>
                        Live(parse, payload, skew, now, v)
  {
    hide Encode, Decode, Find, TokenOf, StripPrefix;
    TokenSplits(mac, secret, payload);
    DecodesExactly(UrlSafe, Encode(UrlSafe, payload), payload);
    DecodesExactly(UrlSafe, Encode(UrlSafe, mac(secret, payload)), mac(secret, payload));
  }

  /// Every minted token verifies under the same secret to what was put in, until expiry plus
  /// skew, and never after.
  lemma MintedVerifiesUntilExpiry(mac: Mac, print_: JsonPrinter, parse: JsonParser, secret: seq<Byte>, tenant: string, user: string,
                                  minted: int, ttl: int, jti: string, bearer: bool, skew: int, now: int)
    requires ReadsBack(print_, parse) && I64_MIN <= minted + ttl <= I64_MAX
    ensures var header := Mint(mac, print_, secret, tenant, user, minted, ttl, jti, bearer);
            Verify(mac, parse, secret, SessionToken(header), skew, now)
            == if now < minted + ttl + skew then Some(VerifiedToken(tenant, user, jti, minted + ttl)) else None
  {
    hide Mint, Verify, SessionToken, TokenOf;
    MintedIsToken(mac, print_, secret, tenant, user, minted, ttl, jti, bearer);
    var payload := print_(Claims(tenant, user, minted, minted + ttl, jti));
    TokenVerifies(mac, parse, secret, payload, skew, now);
    var got := Verify(mac, parse, secret, TokenOf(mac, secret, payload), skew, now);
    var v := VerifiedToken(tenant, user, jti, minted + ttl);
    assert got.Some? ==> Live(parse, payload, skew, now, got.value);
    if now < minted + ttl + skew {
      assert Live(parse, payload, skew, now, v);
    }
  }
}
