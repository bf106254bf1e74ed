/** Payment challenges: built and encoded by api_server/x402_paywall.py, decoded from a response
    by api_server/payment_required.py.

    Header names are compared without regard to case (section 5.1 of RFC 9110). */
module Challenge {
  import opened Wrappers
  import opened Json
  import opened Text
  import Base64
  import BatchSettlement
  import opened Wires

  // ----- encoding -----

  /** `encode_payment_required` */
  function EncodeToken(o: map<string, Json>, w: Wire): string {
    Base64.Encode(w.encode(w.codec.print_(Obj(o))))
  }

  // ----- decoding -----

  function ObjectIn(text: string, w: Wire): Option<map<string, Json>> {
    match w.codec.Parse(text)
    case Some(Obj(fields)) => Some(fields)
    case _ => None
  }

  /** `_b64_to_obj`, the same function as `decode_b64_json` */
  function DecodeToken(token: string, w: Wire): Option<map<string, Json>> {
    var raw := Base64.DecodeToken(token);
    if raw.Failure? || w.decode(raw.value).None? then None
    else ObjectIn(w.decode(raw.value).value, w)
  }

  datatype Body = NoBody | TextBody(text: string) | RawBody(bytes: Bytes)

  /** `_body_to_obj` */
  function DecodeBody(body: Body, w: Wire): Option<map<string, Json>> {
    var text := match body
      case NoBody => None
      case TextBody(t) => Some(t)
      case RawBody(b) => w.decode(b);
    if text.None? || Strip(text.value) == "" then None else ObjectIn(Strip(text.value), w)
  }

  /** `_lower_headers`: of names that differ in case only, the last one wins. */
  function LowerHeaders(headers: seq<(string, string)>): map<string, string> {
    if headers == [] then map[]
    else
      var (name, value) := headers[|headers| - 1];
      LowerHeaders(headers[..|headers| - 1])[Lower(name) := value]
  }

  function FromHeader(headers: map<string, string>, name: string, w: Wire): Option<map<string, Json>> {
    if name in headers && headers[name] != "" then DecodeToken(headers[name], w) else None
  }

  /** `decode_payment_required`: the body, then the two headers; the first object wins. */
  function DecodePaymentRequired(body: Body, headers: seq<(string, string)>, w: Wire): Option<map<string, Json>> {
    var inBody := DecodeBody(body, w);
    if inBody.Some? then inBody
    else
      var h := LowerHeaders(headers);
      var first := FromHeader(h, "payment-required", w);
      if first.Some? then first else FromHeader(h, "x-payment-required", w)
  }

  // ----- round trips -----

  // What a wire promises about the text of one object.
  lemma PrintedObject(o: map<string, Json>, w: Wire)
    requires Undoes(w)
    ensures var text := w.codec.print_(Obj(o));
      && w.decode(w.encode(text)) == Some(text) && w.codec.Parse(text) == Some(Obj(o))
      && |text| >= 2 && text[0] == '{' && text[|text| - 1] == '}' && w.encode(text) != []
  {
  }

  lemma TokenIsNotEmpty(o: map<string, Json>, w: Wire)
    requires Undoes(w)
    ensures EncodeToken(o, w) != ""
  {
    PrintedObject(o, w);
    hide Undoes;
  }

  lemma DecodedObject(token: string, o: map<string, Json>, w: Wire)
    requires Undoes(w) && Base64.DecodeToken(token) == Success(w.encode(w.codec.print_(Obj(o))))
    ensures DecodeToken(token, w) == Some(o)
  {
    PrintedObject(o, w);
    hide Undoes, Base64.DecodeToken;
  }

  /** A token that lost any of its trailing '=' still decodes to what was encoded. */
  lemma TokenRoundTrip(o: map<string, Json>, w: Wire, lost: nat)
    requires Undoes(w)
    requires lost <= |EncodeToken(o, w)|
    requires forall i :: |EncodeToken(o, w)| - lost <= i < |EncodeToken(o, w)| ==> EncodeToken(o, w)[i] == '='
    ensures DecodeToken(EncodeToken(o, w)[..|EncodeToken(o, w)| - lost], w) == Some(o)
  {
    hide Undoes, DecodeToken, Base64.DecodeToken, Base64.Encode;
    Base64.TokenRoundTrip(w.encode(w.codec.print_(Obj(o))), lost);
    DecodedObject(EncodeToken(o, w)[..|EncodeToken(o, w)| - lost], o, w);
  }

  /** A challenge in the URL-safe spelling is recovered when its token comes through. */
  lemma UrlSafeTokenRoundTrip(o: map<string, Json>, w: Wire, bs: Bytes, lost: nat)
    requires Undoes(w) && bs == w.encode(w.codec.print_(Obj(o)))
    requires lost <= Base64.Pads(bs) <= |EncodeToken(o, w)|
    requires Base64.ComesThrough(|EncodeToken(o, w)| - Base64.Pads(bs), Base64.Dropped(Base64.UrlSafe(EncodeToken(o, w))), Base64.Pads(bs))
    ensures DecodeToken(Base64.UrlSafe(EncodeToken(o, w))[..|EncodeToken(o, w)| - lost], w) == Some(o)
  {
    hide Undoes, DecodeToken, Base64.DecodeToken, Base64.Encode, Base64.UrlSafe, Base64.Dropped, Base64.ComesThrough;
    Base64.UrlSafeRoundTripIff(bs, lost);
    DecodedObject(Base64.UrlSafe(EncodeToken(o, w))[..|EncodeToken(o, w)| - lost], o, w);
  }

  /** The value looked up is that of the last header of this name, in any casing. */
  lemma {:induction false} LastHeaderWins(headers: seq<(string, string)>, i: nat, name: string)
    requires i < |headers| && Lower(headers[i].0) == name
    requires forall k :: i < k < |headers| ==> Lower(headers[k].0) != name
    ensures name in LowerHeaders(headers) && LowerHeaders(headers)[name] == headers[i].1
  {
    var n := |headers| - 1;
    if i < n {
      LastHeaderWins(headers[..n], i, name);
    }
  }

  /** A header is found under a name exactly when some header has that name in some casing. */
  lemma {:induction false} HeaderFoundIff(headers: seq<(string, string)>, name: string)
    ensures name in LowerHeaders(headers) <==> exists i :: 0 <= i < |headers| && Lower(headers[i].0) == name
  {
    hide Lower;
    if headers != [] {
      var n := |headers| - 1;
      HeaderFoundIff(headers[..n], name);
      if name in LowerHeaders(headers[..n]) {
        var i :| 0 <= i < n && Lower(headers[..n][i].0) == name;
        assert Lower(headers[i].0) == name;
      }
      assert Lower(headers[n].0) == name ==> name in LowerHeaders(headers);
      forall i | 0 <= i < n && Lower(headers[i].0) == name ensures name in LowerHeaders(headers) {
        assert Lower(headers[..n][i].0) == name;
      }
    }
  }

  /** The header that counts for a name, or None: the last of that name, in whatever casing. */
  function HeaderValue(headers: seq<(string, string)>, name: string): Option<string> {
    if headers == [] then None
    else if Lower(headers[|headers| - 1].0) == name then Some(headers[|headers| - 1].1)
    else HeaderValue(headers[..|headers| - 1], name)
  }

  lemma {:induction false} LoweredValue(headers: seq<(string, string)>, name: string)
    ensures HeaderValue(headers, name) == if name in LowerHeaders(headers) then Some(LowerHeaders(headers)[name]) else None
  {
    if headers != [] {
      LoweredValue(headers[..|headers| - 1], name);
    }
  }

  /** A token decodes to an object exactly when its bytes are the text of that object. */
  lemma TokenMeans(token: string, o: map<string, Json>, w: Wire)
    ensures DecodeToken(token, w) == Some(o) <==>
              exists bs, text :: Base64.DecodeToken(token) == Success(bs) && w.decode(bs) == Some(text) && w.codec.Parse(text) == Some(Obj(o))
  {
    hide Base64.DecodeToken;
    if DecodeToken(token, w) == Some(o) {
      var bs := Base64.DecodeToken(token).value;
      assert Base64.DecodeToken(token) == Success(bs) && w.decode(bs) == Some(w.decode(bs).value);
    }
  }

  /** What a response says, whatever else is in it: the object in its body if it has one; else the
      one in its payment-required header; else the one in its x-payment-required header; else none. */
  lemma ResponseMeans(body: Body, headers: seq<(string, string)>, w: Wire)
    ensures var first, second := HeaderValue(headers, "payment-required"), HeaderValue(headers, "x-payment-required");
      DecodePaymentRequired(body, headers, w)
      == if DecodeBody(body, w).Some? then DecodeBody(body, w)
         else if first.Some? && first.value != "" && DecodeToken(first.value, w).Some? then DecodeToken(first.value, w)
         else if second.Some? && second.value != "" then DecodeToken(second.value, w)
         else None
  {
    hide LowerHeaders, HeaderValue, DecodeBody, DecodeToken;
    LoweredValue(headers, "payment-required");
    LoweredValue(headers, "x-payment-required");
  }

  /** The challenge in a header is recovered, however the header's name is cased and however
      many '=' its token has lost, if the body holds no object: from payment-required always,
      from x-payment-required if the other header yields nothing. */
  lemma ChallengeRoundTrip(o: map<string, Json>, w: Wire, body: Body, headers: seq<(string, string)>, i: nat, lost: nat)
    requires Undoes(w) && DecodeBody(body, w).None?
    requires lost <= |EncodeToken(o, w)|
    requires forall k :: |EncodeToken(o, w)| - lost <= k < |EncodeToken(o, w)| ==> EncodeToken(o, w)[k] == '='
    requires i < |headers| && headers[i].1 == EncodeToken(o, w)[..|EncodeToken(o, w)| - lost] != ""
    requires Lower(headers[i].0) == "payment-required"
             || (Lower(headers[i].0) == "x-payment-required" && FromHeader(LowerHeaders(headers), "payment-required", w).None?)
    requires forall k :: i < k < |headers| ==> Lower(headers[k].0) != Lower(headers[i].0)
    ensures DecodePaymentRequired(body, headers, w) == Some(o)
  {
    hide EncodeToken, DecodeToken, DecodeBody, LowerHeaders, Lower, Undoes;
    LastHeaderWins(headers, i, Lower(headers[i].0));
    TokenRoundTrip(o, w, lost);
  }

  lemma BracesAreNotBlank(text: string)
    requires |text| >= 2 && text[0] == '{' && text[|text| - 1] == '}'
    ensures Strip(text) == text && Trimmed(text)
  {
    assert StripLeft(text) == text;
  }

  /** A decodable body object takes precedence over every header, with blanks around it or not. */
  lemma BodyTakesPrecedence(o: map<string, Json>, w: Wire, headers: seq<(string, string)>, l: string, r: string)
    requires Undoes(w) && Blank(l) && Blank(r)
    ensures DecodePaymentRequired(TextBody(l + w.codec.print_(Obj(o)) + r), headers, w) == Some(o)
    ensures DecodePaymentRequired(RawBody(w.encode(w.codec.print_(Obj(o)))), headers, w) == Some(o)
  {
    hide LowerHeaders, FromHeader, Undoes, Strip, Blank, DecodeBody;
    PrintedObject(o, w);
    BracesAreNotBlank(w.codec.print_(Obj(o)));
    TextBodyMeans(w.codec.print_(Obj(o)), o, w, l, r);
    BodyBytesMean(w.encode(w.codec.print_(Obj(o))), w.codec.print_(Obj(o)), o, w);
  }

  lemma TextBodyMeans(text: string, o: map<string, Json>, w: Wire, l: string, r: string)
    requires w.codec.Parse(text) == Some(Obj(o)) && text != "" && Trimmed(text) && Blank(l) && Blank(r)
    ensures DecodeBody(TextBody(l + text + r), w) == Some(o)
  {
    hide Strip, Blank;
    StripIff(l + text + r, text);
  }

  lemma BodyBytesMean(bs: Bytes, text: string, o: map<string, Json>, w: Wire)
    requires w.codec.Parse(text) == Some(Obj(o)) && text != "" && Strip(text) == text && w.decode(bs) == Some(text)
    ensures DecodeBody(RawBody(bs), w) == Some(o)
  {
    hide Strip;
  }

  /** No body, a blank one, and bytes that are no text say nothing. */
  lemma NothingInBody(text: string, bs: Bytes, w: Wire)
    ensures DecodeBody(NoBody, w).None?
    ensures Blank(text) ==> DecodeBody(TextBody(text), w).None?
    ensures w.decode(bs).None? ==> DecodeBody(RawBody(bs), w).None?
  {
    hide Strip;
    StripStops(text);
  }

  /** Casing of header names never matters. */
  lemma {:induction false} CasingIsIrrelevant(headers: seq<(string, string)>, headers': seq<(string, string)>, body: Body, w: Wire)
    requires |headers| == |headers'|
    requires forall k :: 0 <= k < |headers| ==>
               Lower(headers[k].0) == Lower(headers'[k].0) && headers[k].1 == headers'[k].1
    ensures LowerHeaders(headers) == LowerHeaders(headers')
    ensures DecodePaymentRequired(body, headers, w) == DecodePaymentRequired(body, headers', w)
  {
    hide DecodeBody, FromHeader;
    if headers != [] {
      var n := |headers| - 1;
      CasingIsIrrelevant(headers[..n], headers'[..n], body, w);
    }
  }

  // ----- the server's own challenge -----

  datatype Settings = Settings(payTo: Option<string>, network: string, asset: string, amount: string,
                               maxTimeout: Integer, resource: string, description: string,
                               unpaid: string, unconfigured: string)

  const PLACEHOLDER := "0x4024024024024024024024024024024024024024"

  /** `pay_to_for_challenge`: a configured address if it is one, else the placeholder. */
  function PayTo(s: Settings): string {
    if s.payTo.Some? && BatchSettlement.IsAddress(Strip(s.payTo.value)) then Strip(s.payTo.value) else PLACEHOLDER
  }

  predicate Configured(s: Settings) {
    s.payTo.Some? && BatchSettlement.IsAddress(Strip(s.payTo.value))
  }

  function Offer(s: Settings): Json {
    Obj(map["scheme" := Str("exact"), "network" := Str(s.network), "asset" := Str(s.asset), "amount" := Str(s.amount),
            "payTo" := Str(PayTo(s)), "maxTimeoutSeconds" := Int(s.maxTimeout),
            "extra" := Obj(map["name" := Str("USD Coin"), "version" := Str("2")])])
  }

  /** `build_payment_required` */
  function BuildPaymentRequired(s: Settings): map<string, Json> {
    map["x402Version" := Int(2),
        "error" := Str(if Configured(s) then s.unpaid else s.unconfigured),
        "resource" := Obj(map["url" := Str(s.resource), "description" := Str(s.description), "mimeType" := Str("application/json")]),
        "accepts" := Arr([Offer(s)])]
  }

  /** The headers of `payment_required_response`. */
  function ResponseHeaders(s: Settings, w: Wire): seq<(string, string)> {
    ChallengeHeaders(EncodeToken(BuildPaymentRequired(s), w))
  }

  function ChallengeHeaders(token: string): seq<(string, string)> {
    [("PAYMENT-REQUIRED", token), ("X-PAYMENT-REQUIRED", token), ("Cache-Control", "no-store")]
  }

  /** What the server sends in its headers is what a client reads back, and the server's own
      batch-settlement check finds nothing to object to in it. */
  lemma ServerChallengeRoundTrip(s: Settings, w: Wire)
    requires Undoes(w)
    ensures DecodePaymentRequired(NoBody, ResponseHeaders(s, w), w) == Some(BuildPaymentRequired(s))
    ensures BatchSettlement.IsAddress(PayTo(s))
    ensures BatchSettlement.Accepts(Obj(BuildPaymentRequired(s))) == Some([Offer(s)])
    ensures !BatchSettlement.HasBatch([Offer(s)])
  {
    hide BuildPaymentRequired, Offer, PayTo, BatchSettlement.IsAddress, BatchSettlement.IsBatch, DecodePaymentRequired, ResponseHeaders;
    ServerHeadersDecode(s, w);
    PayToIsAddress(s);
    OffersOne(s);
    ExactIsNotBatch(s);
  }

  /** What the server asks for: version 2; payment to the configured address, trimmed, if it is
      one, and else to a placeholder, which the error says; and the configured terms. */
  lemma ChallengeSays(s: Settings)
    ensures var c, offers := BuildPaymentRequired(s), Get(BuildPaymentRequired(s), "accepts");
      && Get(c, "x402Version") == Int(2)
      && Get(c, "error") == Str(if s.payTo.Some? && BatchSettlement.IsAddress(Strip(s.payTo.value)) then s.unpaid else s.unconfigured)
      && Get(c, "resource").Obj? && Get(Get(c, "resource").fields, "url") == Str(s.resource)
      && Get(Get(c, "resource").fields, "description") == Str(s.description)
      && Get(Get(c, "resource").fields, "mimeType") == Str("application/json")
      && offers == Arr([Obj(Terms(s))])
    ensures Get(Terms(s), "scheme") == Str("exact")
    ensures Get(Terms(s), "network") == Str(s.network) && Get(Terms(s), "asset") == Str(s.asset) && Get(Terms(s), "amount") == Str(s.amount)
    ensures Get(Terms(s), "maxTimeoutSeconds") == Int(s.maxTimeout)
    ensures Get(Terms(s), "extra") == Obj(map["name" := Str("USD Coin"), "version" := Str("2")])
    ensures s.payTo.Some? && BatchSettlement.IsAddress(Strip(s.payTo.value)) ==> Get(Terms(s), "payTo") == Str(Strip(s.payTo.value))
    ensures s.payTo.None? || !BatchSettlement.IsAddress(Strip(s.payTo.value)) ==> Get(Terms(s), "payTo") == Str(PLACEHOLDER)
  {
    hide Strip, BatchSettlement.IsAddress, PLACEHOLDER;
  }

  function Terms(s: Settings): map<string, Json> {
    Offer(s).fields
  }

  lemma PayToIsAddress(s: Settings)
    ensures BatchSettlement.IsAddress(PayTo(s))
  {
  }

  lemma OffersOne(s: Settings)
    ensures BatchSettlement.Accepts(Obj(BuildPaymentRequired(s))) == Some([Offer(s)])
  {
    hide Offer;
  }

  lemma LoweredNames()
    ensures Lower("PAYMENT-REQUIRED") == "payment-required"
    ensures Lower("X-PAYMENT-REQUIRED") != "payment-required" && Lower("Cache-Control") != "payment-required"
  {
    assert Lower("X-PAYMENT-REQUIRED")[0] == 'x';
    assert |Lower("Cache-Control")| != |"payment-required"|;
  }

  // The challenge is in the first header, and no other has its name.
  lemma FirstHeaderIsTheChallenge(token: string)
    ensures var headers := ChallengeHeaders(token);
      && |headers| == 3 && headers[0].1 == token && Lower(headers[0].0) == "payment-required"
      && forall k :: 0 < k < 3 ==> Lower(headers[k].0) != "payment-required"
  {
    LoweredNames();
    hide Lower;
  }

  lemma HeadersDecode(o: map<string, Json>, w: Wire, token: string)
    requires Undoes(w) && token == EncodeToken(o, w)
    ensures DecodePaymentRequired(NoBody, ChallengeHeaders(token), w) == Some(o)
  {
    assert DecodeBody(NoBody, w).None?;
    hide EncodeToken, LowerHeaders, Lower, DecodeBody, DecodePaymentRequired, FromHeader, Undoes, ChallengeHeaders;
    TokenIsNotEmpty(o, w);
    FirstHeaderIsTheChallenge(token);
    assert token[..|token| - 0] == token;
    ChallengeRoundTrip(o, w, NoBody, ChallengeHeaders(token), 0, 0);
  }

  lemma ServerHeadersDecode(s: Settings, w: Wire)
    requires Undoes(w)
    ensures DecodePaymentRequired(NoBody, ResponseHeaders(s, w), w) == Some(BuildPaymentRequired(s))
  {
    hide BuildPaymentRequired, EncodeToken, DecodePaymentRequired, Undoes;
    HeadersDecode(BuildPaymentRequired(s), w, EncodeToken(BuildPaymentRequired(s), w));
  }

  lemma OneHeader(name: string, value: string)
    ensures HeaderValue([(name, value)], "payment-required") == if Lower(name) == "payment-required" then Some(value) else None
    ensures HeaderValue([(name, value)], "x-payment-required") == if Lower(name) == "x-payment-required" then Some(value) else None
  {
    hide Lower;
  }

  lemma BothNames()
    ensures Lower("PAYMENT-REQUIRED") == "payment-required" && Lower("X-PAYMENT-REQUIRED") == "x-payment-required"
    ensures "x-payment-required" != "payment-required"
  {
    assert "x-payment-required"[0] == 'x' && "payment-required"[0] == 'p';
  }

  /** Either of the two headers alone is enough; the third forbids caching. */
  lemma EitherHeaderSuffices(s: Settings, w: Wire)
    requires Undoes(w)
    ensures var hs := ResponseHeaders(s, w);
      && |hs| == 3 && hs[2] == ("Cache-Control", "no-store")
      && DecodePaymentRequired(NoBody, [hs[0]], w) == Some(BuildPaymentRequired(s))
      && DecodePaymentRequired(NoBody, [hs[1]], w) == Some(BuildPaymentRequired(s))
  {
    hide BuildPaymentRequired, EncodeToken, DecodePaymentRequired, DecodeToken, Undoes, Lower, HeaderValue;
    var o, token := BuildPaymentRequired(s), EncodeToken(BuildPaymentRequired(s), w);
    TokenIsNotEmpty(o, w);
    TokenRoundTrip(o, w, 0);
    assert token[..|token| - 0] == token;
    BothNames();
    OneHeader("PAYMENT-REQUIRED", token);
    OneHeader("X-PAYMENT-REQUIRED", token);
    ResponseMeans(NoBody, [("PAYMENT-REQUIRED", token)], w);
    ResponseMeans(NoBody, [("X-PAYMENT-REQUIRED", token)], w);
  }

  lemma ExactIsNotBatch(s: Settings)
    ensures !BatchSettlement.IsBatch(Offer(s))
  {
    assert StripLeft("exact") == "exact" && StripRight("exact") == "exact";
  }
}
