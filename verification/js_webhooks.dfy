/**
  The Node back end's webhook routes: the signature gate in front of the
  provider routes, the inbound SMS handlers for Twilio and Nexmo, the
  Twilio delivery-status callback and the development-only test route.

  A request body is the map of its (string) form fields. The keyed hashes
  (HMAC-SHA1 in base64 and HMAC-SHA256 in hex, section 2 of RFC 2104) are
  parameters, and so is the serialised body they are computed over.
 */
module JsWebhooks {
  import opened Wrappers
  import opened Text
  import opened Collections
  import opened Http
  import opened OtpPatterns
  import ErrorHandler
  import JsPhoneNumber
  import JsMessage

  // ---------------------------------------------------------------------
  // The signature gate

  /** `HMAC(secret, payload)` as Twilio (SHA-1, base64) and Nexmo (SHA-256, hex) sign it. */
  datatype Keyed = Keyed(sha1Base64: (string, string) -> string, sha256Hex: (string, string) -> string)

  /** The two signature headers a request may carry. */
  datatype Headers = Headers(twilio: Option<string>, nexmo: Option<string>)

  /** What the gate does with a request: pass it on, or answer it with an error. */
  datatype Gate = Proceed | Refuse(status: nat, code: string)

  predicate Truthy(o: Option<string>) { JsMessage.Truthy(o) }

  /** `x-twilio-signature || x-nexmo-signature`. */
  function Signature(h: Headers): (r: Option<string>)
    ensures Truthy(r) <==> Truthy(h.twilio) || Truthy(h.nexmo)
    ensures Truthy(h.twilio) ==> r == h.twilio
    ensures !Truthy(h.twilio) ==> r == h.nexmo
  {
    if Truthy(h.twilio) then h.twilio else h.nexmo
  }

  /** The signature the gate expects for a provider; only twilio and nexmo have one. */
  function Expected(provider: string, secret: string, payload: string, keyed: Keyed): (r: Option<string>)
    ensures r.Some? <==> provider == "twilio" || provider == "nexmo"
    ensures provider == "twilio" ==> r == Some(keyed.sha1Base64(secret, payload))
    ensures provider == "nexmo" ==> r == Some(keyed.sha256Hex(secret, payload))
  {
    if provider == "twilio" then Some(keyed.sha1Base64(secret, payload))
    else if provider == "nexmo" then Some(keyed.sha256Hex(secret, payload))
    else None
  }

  /**
    `verifyWebhookSignature(provider)`: without a configured secret every
    request passes; with one, a request passes only when it carries a
    signature equal to the expected keyed hash of its body.
   */
  function VerifySignature(provider: string, secret: Option<string>, headers: Headers, payload: string, keyed: Keyed): (r: Gate)
    ensures !Truthy(secret) ==> r == Proceed
    ensures Truthy(secret) && !Truthy(Signature(headers)) ==> r == Refuse(401, "MISSING_SIGNATURE")
    ensures r == Proceed <==>
      !Truthy(secret) || (Truthy(Signature(headers)) && Expected(provider, secret.value, payload, keyed) == Signature(headers))
    ensures r.Refuse? ==> r.status == 401 && (r.code == "MISSING_SIGNATURE" || r.code == "INVALID_SIGNATURE")
  {
    if !Truthy(secret) then Proceed
    else
      var signature := Signature(headers);
      if !Truthy(signature) then Refuse(401, "MISSING_SIGNATURE")
      else if Expected(provider, secret.value, payload, keyed) == signature then Proceed
      else Refuse(401, "INVALID_SIGNATURE")
  }

  /** With a secret set, a provider other than twilio and nexmo never gets through. */
  lemma UnknownProviderNeverPasses(provider: string, secret: Option<string>, headers: Headers, payload: string, keyed: Keyed)
    requires Truthy(secret) && provider != "twilio" && provider != "nexmo"
    ensures VerifySignature(provider, secret, headers, payload, keyed).Refuse?
  {
  }

  /** A Twilio request signed with the keyed hash of its own body gets through. */
  lemma SignedTwilioRequestPasses(secret: string, nexmo: Option<string>, payload: string, keyed: Keyed)
    requires secret != [] && keyed.sha1Base64(secret, payload) != []
    ensures VerifySignature("twilio", Some(secret), Headers(Some(keyed.sha1Base64(secret, payload)), nexmo), payload, keyed) == Proceed
  {
  }

  // ---------------------------------------------------------------------
  // Reading the form

  function Lookup(body: map<string, string>, key: string): (r: Option<string>)
    ensures r.Some? <==> key in body
    ensures r.Some? ==> r.value == body[key]
  {
    if key in body then Some(body[key]) else None
  }

  /**
    `parseInt(s)` in base ten: leading white space, an optional sign and the
    longest run of digits after it; `None` (NaN) when there is no digit.
   */
  function ParseInt(s: string): (r: Option<int>)
    ensures r.Some? ==> exists i :: 0 <= i < |s| && IsDigit(s[i])
  {
    var t := s[LeadingCount(s, IsJsSpace)..];
    var signed := |t| > 0 && (t[0] == '-' || t[0] == '+');
    var u := if signed then t[1..] else t;
    var n := DigitRun(u, 0);
    if n == 0 then None
    else
      assert IsDigit(u[0]) && u[0] in s;
      var v: int := ParseDigits(u[..n]);
      Some(if signed && t[0] == '-' then -v else v)
  }

  /** A string of digits is every digit of itself. */
  lemma {:induction false} DigitRunOfDigits(s: string, i: nat)
    requires i <= |s| && AllDigits(s)
    ensures DigitRun(s, i) == |s| - i
    decreases |s| - i
  {
    if i < |s| {
      DigitRunOfDigits(s, i + 1);
    }
  }

  /** `parseInt` reads back a decimal rendering. */
  lemma ParseIntOfDecimal(n: nat)
    ensures ParseInt(NatToString(n)) == Some(n)
  {
    var s := NatToString(n);
    assert !IsJsSpace(s[0]);
    assert s[0] != '-' && s[0] != '+';
    assert s[LeadingCount(s, IsJsSpace)..] == s;
    DigitRunOfDigits(s, 0);
    assert s[..|s|] == s;
    ParseNatToString(n);
  }

  // ---------------------------------------------------------------------
  // MMS attachments

  datatype AttachmentKind = Image | Video | Audio | Document

  datatype Attachment = Attachment(kind: AttachmentKind, url: string, mimeType: Option<string>)

  /** The attachment kind of a content type: by its `image/`, `video/` or `audio/` prefix, else a document. */
  function KindOf(mime: Option<string>): (r: AttachmentKind)
    ensures r == Image <==> mime.Some? && StartsWith(mime.value, "image/")
    ensures r == Video <==> mime.Some? && StartsWith(mime.value, "video/")
    ensures r == Audio <==> mime.Some? && StartsWith(mime.value, "audio/")
  {
    if mime.None? then Document
    else if StartsWith(mime.value, "image/") then Image
    else if StartsWith(mime.value, "video/") then Video
    else if StartsWith(mime.value, "audio/") then Audio
    else Document
  }

  /** The form field `MediaUrl<i>` or `MediaContentType<i>`. */
  function MediaKey(prefix: string, i: nat): string { prefix + NatToString(i) }

  predicate HasMediaUrl(body: map<string, string>, i: nat) {
    Truthy(Lookup(body, MediaKey("MediaUrl", i)))
  }

  /** The attachments of the first `n` media entries; an entry without a URL is skipped. */
  function Attachments(body: map<string, string>, n: nat): (r: seq<Attachment>)
    ensures |r| <= n
    ensures |r| == n <==> forall i :: 0 <= i < n ==> HasMediaUrl(body, i)
    ensures forall k :: 0 <= k < |r| ==> r[k].url != [] && r[k].kind == KindOf(r[k].mimeType)
    ensures forall k :: 0 <= k < |r| ==>
      exists i :: (0 <= i < n && Lookup(body, MediaKey("MediaUrl", i)) == Some(r[k].url)
                   && r[k].mimeType == Lookup(body, MediaKey("MediaContentType", i)))
  {
    if n == 0 then []
    else
      var before := Attachments(body, n - 1);
      var url := Lookup(body, MediaKey("MediaUrl", n - 1));
      if Truthy(url) then
        var mime := Lookup(body, MediaKey("MediaContentType", n - 1));
        before + [Attachment(KindOf(mime), url.value, mime)]
      else
        assert !HasMediaUrl(body, n - 1);
        before
  }

  // ---------------------------------------------------------------------
  // Inbound messages

  /** What a handler builds before calling `createFromWebhook`. */
  datatype MessageData = MessageData(webhook: JsMessage.WebhookData, attachments: seq<Attachment>, mms: bool)

  /** Puts `key` in the map when the value is present; an absent value leaves no key. */
  function WithOptional(m: map<string, string>, key: string, v: Option<string>): (r: map<string, string>)
    ensures v.Some? ==> key in r && r[key] == v.value
    ensures v.None? ==> key !in r
    ensures forall k :: k != key ==> (k in r <==> k in m) && (k in m ==> r[k] == m[k])
  {
    if v.Some? then m[key := v.value] else m - {key}
  }

  /** The number of media entries the Twilio handler walks, when it walks any. */
  function MediaCount(body: map<string, string>): (r: nat)
    ensures r > 0 ==> Truthy(Lookup(body, "NumMedia")) && ParseInt(body["NumMedia"]) == Some(r)
  {
    var numMedia := Lookup(body, "NumMedia");
    if Truthy(numMedia) && ParseInt(numMedia.value).Some? && ParseInt(numMedia.value).value > 0
    then ParseInt(numMedia.value).value else 0
  }

  /** The Twilio handler's message data: a missing `Body` becomes empty content. */
  function TwilioMessageData(body: map<string, string>): (r: MessageData)
    ensures r.webhook.fromNumber == Lookup(body, "From") && r.webhook.toNumber == Lookup(body, "To")
    ensures r.webhook.content == Lookup(body, "Body").GetOr("")
    ensures r.webhook.provider == Some("twilio") && r.webhook.providerMessageId == Lookup(body, "MessageSid")
    ensures "numMedia" in r.webhook.metadata && r.webhook.metadata["numMedia"] == (if Truthy(Lookup(body, "NumMedia")) then body["NumMedia"] else "0")
    ensures r.mms <==> MediaCount(body) > 0
    ensures |r.attachments| <= MediaCount(body)
    ensures r.attachments == Attachments(body, MediaCount(body))
  {
    var numMedia := Lookup(body, "NumMedia");
    var metadata := WithOptional(WithOptional(
      map["numMedia" := if Truthy(numMedia) then numMedia.value else "0"],
      "mediaUrl", Lookup(body, "MediaUrl0")),
      "mediaContentType", Lookup(body, "MediaContentType0"));
    var webhook := JsMessage.WebhookData(
      Lookup(body, "From"), Lookup(body, "To"), Lookup(body, "Body").GetOr(""),
      Some("twilio"), Lookup(body, "MessageSid"), metadata);
    var n := MediaCount(body);
    MessageData(webhook, Attachments(body, n), n > 0)
  }

  /** The Nexmo handler's message data: a missing `text` becomes empty content. */
  function NexmoMessageData(body: map<string, string>): (r: MessageData)
    ensures r.webhook.fromNumber == Lookup(body, "from") && r.webhook.toNumber == Lookup(body, "to")
    ensures r.webhook.content == Lookup(body, "text").GetOr("")
    ensures r.webhook.provider == Some("nexmo") && r.webhook.providerMessageId == Lookup(body, "messageId")
    ensures r.attachments == [] && !r.mms
  {
    var metadata := WithOptional(WithOptional(map[], "type", Lookup(body, "type")),
                                 "timestamp", Lookup(body, "message-timestamp"));
    var webhook := JsMessage.WebhookData(
      Lookup(body, "from"), Lookup(body, "to"), Lookup(body, "text").GetOr(""),
      Some("nexmo"), Lookup(body, "messageId"), metadata);
    MessageData(webhook, [], false)
  }

  /** The two collections the handlers read and write, and the ids of the existing users. */
  datatype Stores = Stores(messages: seq<JsMessage.Message>, leases: seq<JsPhoneNumber.Lease>, users: set<nat>)

  datatype Handled = Handled(reply: Reply<nat>, stores: Stores)

  /** A schema refusal passed to the error middleware: 400 `VALIDATION_ERROR`. */
  function ValidationFailure<T>(paths: seq<string>): (r: Reply<T>)
    ensures r == Fail(400, "VALIDATION_ERROR")
  {
    var entries := Map(paths, (p: string) => ErrorHandler.FieldError(p, "Path " + p + " is invalid", ""));
    var err := ErrorHandler.Err("ValidationError", ErrorHandler.NoCode, None, "Validation failed", None, Some(entries), None, "");
    ErrorHandler.ValidationEntries(err, false);
    var out := ErrorHandler.Handle(err, false);
    Fail(out.response.statusCode as nat, out.response.code.s)
  }

  /** A plain thrown error passed to the error middleware: 500 `INTERNAL_ERROR`. */
  function InternalFailure<T>(message: string): (r: Reply<T>)
    ensures r == Fail(500, "INTERNAL_ERROR")
  {
    var err := ErrorHandler.Err("Error", ErrorHandler.NoCode, None, message, None, None, None, "");
    ErrorHandler.PlainErrorIsInternal(err, false);
    var out := ErrorHandler.Handle(err, false);
    Fail(out.response.statusCode as nat, out.response.code.s)
  }

  /** The recipient number document the handlers look up (`findOne({ phoneNumber: To })`). */
  function Addressed(s: Stores, data: JsMessage.WebhookData): (r: Option<nat>)
    ensures r.Some? ==> data.toNumber.Some? && r.value < |s.leases|
    ensures r.Some? ==> r == JsMessage.FindNumber(s.leases, JsTrim(data.toNumber.value))
    ensures r.None? ==> data.toNumber.None? || JsMessage.FindNumber(s.leases, JsTrim(data.toNumber.value)).None?
  {
    if data.toNumber.None? then None else JsMessage.FindNumber(s.leases, JsTrim(data.toNumber.value))
  }

  /**
    The shared body of the SMS handlers: the gate, the recipient lookup
    (404 for an unknown number, 400 for a number nobody holds), then
    `createFromWebhook`, whose schema refusals reach the error middleware.
   */
  function Ingest(gate: Gate, data: JsMessage.WebhookData, s: Stores, newId: nat, now: nat): (r: Handled)
    ensures gate.Refuse? ==> r == Handled(Fail(gate.status, gate.code), s)
    ensures gate.Proceed? && Addressed(s, data).None? ==> r == Handled(Fail(404, "PHONE_NUMBER_NOT_FOUND"), s)
    ensures gate.Proceed? && Addressed(s, data).Some? && JsMessage.Recipient(s.leases, s.users, data).None? ==>
      r == Handled(Fail(400, "PHONE_NUMBER_NOT_ASSIGNED"), s)
    ensures r.reply.Fail? ==> r.stores == s
    ensures r.reply.Ok? <==>
      && gate.Proceed?
      && JsMessage.Recipient(s.leases, s.users, data).Some?
      && JsMessage.SchemaErrors(data.fromNumber, data.toNumber, data.content, data.provider) == []
    ensures r.reply.Ok? ==>
      var created := JsMessage.CreateFromWebhook(s.messages, s.leases, s.users, data, newId, now);
      && created.Created?
      && r.reply == Ok(200, newId)
      && r.stores == Stores(created.messages, created.leases, s.users)
    ensures (&& gate.Proceed? && JsMessage.Recipient(s.leases, s.users, data).Some?
             && JsMessage.SchemaErrors(data.fromNumber, data.toNumber, data.content, data.provider) != []) ==>
      r == Handled(Fail(400, "VALIDATION_ERROR"), s)
  {
    if gate.Refuse? then Handled(Fail(gate.status, gate.code), s)
    else match Addressed(s, data)
      case None => Handled(Fail(404, "PHONE_NUMBER_NOT_FOUND"), s)
      case Some(k) =>
        if s.leases[k].user.None? || s.leases[k].user.value !in s.users then
          Handled(Fail(400, "PHONE_NUMBER_NOT_ASSIGNED"), s)
        else
          var unreachable := Handled(Fail(500, "INTERNAL_ERROR"), s);
          match JsMessage.CreateFromWebhook(s.messages, s.leases, s.users, data, newId, now)
          case Created(messages, leases, _) => Handled(Ok(200, newId), Stores(messages, leases, s.users))
          case Invalid(paths) => Handled(ValidationFailure(paths), s)
          case NoHolder => assert false; unreachable
  }

  /** Signature settings of the server: the configured secret and the keyed hashes. */
  datatype Config = Config(secret: Option<string>, keyed: Keyed)

  /**
    POST /twilio/sms. The attachments and the `mms` type it computes are
    not passed on by `createFromWebhook`, so a stored message never has
    type `mms`.
   */
  function TwilioSms(config: Config, headers: Headers, payload: string, body: map<string, string>,
                     s: Stores, newId: nat, now: nat): (r: Handled)
    ensures var gate := VerifySignature("twilio", config.secret, headers, payload, config.keyed);
      r == Ingest(gate, TwilioMessageData(body).webhook, s, newId, now)
    ensures r.reply.Ok? ==>
      && |r.stores.messages| == |s.messages| + 1
      && r.stores.messages[..|s.messages|] == s.messages
      && var m := r.stores.messages[|s.messages|];
         && m.id == newId && m.content == Lookup(body, "Body").GetOr("")
         && m.provider == "twilio" && m.providerMessageId == Lookup(body, "MessageSid")
         && m.messageType != JsMessage.Mms
  {
    var gate := VerifySignature("twilio", config.secret, headers, payload, config.keyed);
    var r := Ingest(gate, TwilioMessageData(body).webhook, s, newId, now);
    assert r.reply.Ok? ==> r.stores.messages[..|s.messages|] == s.messages;
    r
  }

  /** POST /nexmo/sms. */
  function NexmoSms(config: Config, headers: Headers, payload: string, body: map<string, string>,
                    s: Stores, newId: nat, now: nat): (r: Handled)
    ensures var gate := VerifySignature("nexmo", config.secret, headers, payload, config.keyed);
      r == Ingest(gate, NexmoMessageData(body).webhook, s, newId, now)
    ensures r.reply.Ok? ==>
      && |r.stores.messages| == |s.messages| + 1
      && r.stores.messages[..|s.messages|] == s.messages
      && var m := r.stores.messages[|s.messages|];
         && m.id == newId && m.content == Lookup(body, "text").GetOr("")
         && m.provider == "nexmo" && m.providerMessageId == Lookup(body, "messageId")
  {
    var gate := VerifySignature("nexmo", config.secret, headers, payload, config.keyed);
    var r := Ingest(gate, NexmoMessageData(body).webhook, s, newId, now);
    assert r.reply.Ok? ==> r.stores.messages[..|s.messages|] == s.messages;
    r
  }

  /** An SMS without text reaches the schema as empty content, which it refuses: nothing is stored. */
  lemma EmptyTwilioBodyIsRefused(config: Config, headers: Headers, payload: string, body: map<string, string>,
                                 s: Stores, newId: nat, now: nat)
    requires "Body" !in body || body["Body"] == ""
    ensures TwilioSms(config, headers, payload, body, s, newId, now).reply.Fail?
    ensures TwilioSms(config, headers, payload, body, s, newId, now).stores == s
  {
    var data := TwilioMessageData(body).webhook;
    assert data.content == "";
  }

  // ---------------------------------------------------------------------
  // Delivery status

  const DeliveryKeys: set<string> := {"deliveryStatus", "errorCode", "errorMessage", "statusUpdatedAt"}

  /** The metadata after a status report: the four delivery fields replaced, every other key kept. */
  function DeliveryFields(meta: map<string, string>, body: map<string, string>, now: nat): (r: map<string, string>)
    ensures forall k :: k in meta && k !in DeliveryKeys ==> k in r && r[k] == meta[k]
    ensures forall k :: k in r ==> k in meta || k in DeliveryKeys
    ensures Lookup(r, "deliveryStatus") == Lookup(body, "MessageStatus")
    ensures Lookup(r, "errorCode") == Lookup(body, "ErrorCode")
    ensures Lookup(r, "errorMessage") == Lookup(body, "ErrorMessage")
    ensures "statusUpdatedAt" in r && r["statusUpdatedAt"] == NatToString(now)
  {
    var m1 := WithOptional(meta, "deliveryStatus", Lookup(body, "MessageStatus"));
    var m2 := WithOptional(m1, "errorCode", Lookup(body, "ErrorCode"));
    var m3 := WithOptional(m2, "errorMessage", Lookup(body, "ErrorMessage"));
    m3["statusUpdatedAt" := NatToString(now)]
  }

  /** The message a status report is about: a Twilio message with that provider id. */
  predicate ReportedOn(m: JsMessage.Message, sid: Option<string>) {
    m.provider == "twilio" && m.providerMessageId == sid
  }

  /**
    POST /twilio/status: merges the delivery fields into the metadata of
    the first Twilio message with the reported id. It answers success
    whether or not such a message exists, and never creates one.
   */
  function StatusCallback(gate: Gate, body: map<string, string>, messages: seq<JsMessage.Message>, now: nat)
    : (r: (Reply<Option<nat>>, seq<JsMessage.Message>))
    ensures gate.Refuse? ==> r == (Fail(gate.status, gate.code), messages)
    ensures gate.Proceed? ==> r.0.Ok? && r.0.status == 200
    ensures |r.1| == |messages|
    ensures r.0.Ok? ==> (r.0.value.Some? <==> exists i :: 0 <= i < |messages| && ReportedOn(messages[i], Lookup(body, "MessageSid")))
    ensures forall i :: 0 <= i < |messages| && !ReportedOn(messages[i], Lookup(body, "MessageSid")) ==> r.1[i] == messages[i]
    ensures forall i :: 0 <= i < |messages| ==>
      r.1[i] == messages[i] || r.1[i] == messages[i].(metadata := DeliveryFields(messages[i].metadata, body, now))
    ensures forall i, j :: 0 <= i < j < |messages| && r.1[i] != messages[i] ==> r.1[j] == messages[j]
    ensures r.0.Ok? && r.0.value.None? ==> r.1 == messages
    ensures r.0.Ok? && r.0.value.Some? ==>
      exists i :: 0 <= i < |messages|
        && ReportedOn(messages[i], Lookup(body, "MessageSid"))
        && (forall j :: 0 <= j < i ==> !ReportedOn(messages[j], Lookup(body, "MessageSid")))
        && r.0.value.value == messages[i].id
        && r.1 == messages[i := messages[i].(metadata := DeliveryFields(messages[i].metadata, body, now))]
  {
    if gate.Refuse? then (Fail(gate.status, gate.code), messages)
    else
      var sid := Lookup(body, "MessageSid");
      match FirstIndex(messages, (m: JsMessage.Message) => ReportedOn(m, sid))
      case None => (Ok(200, None), messages)
      case Some(i) =>
        var updated := messages[i].(metadata := DeliveryFields(messages[i].metadata, body, now));
        assert JsMessage.PreSave(updated, false) == updated;
        (Ok(200, Some(messages[i].id)), messages[i := updated])
  }

  // ---------------------------------------------------------------------
  // The test route

  /**
    POST /test/message with the given provider name: 404 in production,
    400 unless `phoneNumber`, `fromNumber` and `content` are all non-empty,
    then `createFromWebhook`. A number nobody holds makes it throw a plain
    error (500); a schema refusal is a 400.
   */
  function TestMessageAs(provider: string, production: bool, body: map<string, string>, s: Stores, newId: nat, now: nat)
    : (r: Handled)
    ensures production ==> r == Handled(Fail(404, "NOT_FOUND"), s)
    ensures !production && !(Truthy(Lookup(body, "phoneNumber")) && Truthy(Lookup(body, "fromNumber")) && Truthy(Lookup(body, "content"))) ==>
      r == Handled(Fail(400, "MISSING_REQUIRED_FIELDS"), s)
    ensures r.reply.Fail? ==> r.stores == s
    ensures r.reply.Ok? ==> !production && JsPhoneNumber.IsProvider(provider)
    ensures r.reply.Ok? ==>
      && |r.stores.messages| == |s.messages| + 1
      && r.stores.messages[|s.messages|].content == body["content"]
      && r.stores.messages[|s.messages|].provider == provider
  {
    if production then Handled(Fail(404, "NOT_FOUND"), s)
    else
      var phone := Lookup(body, "phoneNumber");
      var from := Lookup(body, "fromNumber");
      var content := Lookup(body, "content");
      if !(Truthy(phone) && Truthy(from) && Truthy(content)) then Handled(Fail(400, "MISSING_REQUIRED_FIELDS"), s)
      else
        var data := JsMessage.WebhookData(from, phone, content.value, Some(provider),
                                          Some("test_" + NatToString(now)), map["test" := "true", "createdAt" := NatToString(now)]);
        match JsMessage.CreateFromWebhook(s.messages, s.leases, s.users, data, newId, now)
        case Created(messages, leases, _) => Handled(Ok(200, newId), Stores(messages, leases, s.users))
        case Invalid(paths) => Handled(ValidationFailure(paths), s)
        case NoHolder => Handled(InternalFailure("Phone number not found or not assigned to user"), s)
  }

  /** The route as written: it files test messages under the provider name `test`. */
  function TestMessage(production: bool, body: map<string, string>, s: Stores, newId: nat, now: nat): (r: Handled)
    ensures r.reply.Fail?
    ensures r.stores == s
  {
    assert !JsPhoneNumber.IsProvider("test");
    TestMessageAs("test", production, body, s, newId, now)
  }

  /**
    The provider name `test` is not one the message schema allows, so the
    route as written can never store a message: an addressed request is a
    400 `VALIDATION_ERROR` naming the provider path.
   */
  lemma TestMessageAlwaysRefused(body: map<string, string>, s: Stores, newId: nat, now: nat)
    requires Truthy(Lookup(body, "phoneNumber")) && Truthy(Lookup(body, "fromNumber")) && Truthy(Lookup(body, "content"))
    requires JsMessage.Recipient(s.leases, s.users, JsMessage.WebhookData(Lookup(body, "fromNumber"), Lookup(body, "phoneNumber"),
      body["content"], Some("test"), Some("test_" + NatToString(now)), map["test" := "true", "createdAt" := NatToString(now)])).Some?
    ensures TestMessage(false, body, s, newId, now) == Handled(Fail(400, "VALIDATION_ERROR"), s)
  {
    assert !JsPhoneNumber.IsProvider("test");
  }

  /** The route as intended: test messages are filed under `other`, a provider the schema allows. */
  function TestMessageFixed(production: bool, body: map<string, string>, s: Stores, newId: nat, now: nat): (r: Handled)
    ensures production ==> r.reply == Fail(404, "NOT_FOUND")
    ensures r.reply.Ok? ==> |r.stores.messages| == |s.messages| + 1 && r.stores.messages[|s.messages|].provider == "other"
  {
    TestMessageAs("other", production, body, s, newId, now)
  }

  /** With the corrected provider, a well-formed request for a held number stores its message. */
  lemma TestMessageFixedStores(body: map<string, string>, s: Stores, newId: nat, now: nat)
    requires Truthy(Lookup(body, "phoneNumber")) && Truthy(Lookup(body, "fromNumber")) && Truthy(Lookup(body, "content"))
    requires JsTrim(body["fromNumber"]) != [] && JsTrim(body["phoneNumber"]) != [] && Utf16Length(body["content"]) <= JsMessage.MaxContent
    requires JsMessage.Recipient(s.leases, s.users, JsMessage.WebhookData(Lookup(body, "fromNumber"), Lookup(body, "phoneNumber"),
      body["content"], Some("other"), Some("test_" + NatToString(now)), map["test" := "true", "createdAt" := NatToString(now)])).Some?
    ensures TestMessageFixed(false, body, s, newId, now).reply == Ok(200, newId)
    ensures |TestMessageFixed(false, body, s, newId, now).stores.messages| == |s.messages| + 1
  {
    assert JsPhoneNumber.IsProvider("other");
  }
}
