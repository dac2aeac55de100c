/**
  The Python back end's webhook routes: an SMS provider posts an inbound
  message, the fields are validated and mapped from the provider's own
  names, the recipient number is looked up, and a message row is created.

  A request body is the map of its fields (form fields are strings). The
  real-time notification sent after a message is stored is left out: its
  failure is caught and does not change the outcome.
 */
module PyWebhooks {
  import opened Wrappers
  import opened Text
  import opened Collections
  import PyPhoneNumber
  import PyMessage
  import SmsProvider

  // ---------------------------------------------------------------------
  // Phone-number normalisation

  predicate IsDialChar(c: char) { IsDigit(c) || c == '+' }

  /** The digits and plus signs of `s`, in order. */
  function DialChars(s: string): (r: string)
    ensures |r| <= |s|
    ensures forall i :: 0 <= i < |r| ==> IsDialChar(r[i])
  {
    Filter(s, IsDialChar)
  }

  /** Dropping everything but digits and plus signs keeps every digit. */
  lemma {:induction false} DialCharsKeepDigits(s: string)
    ensures KeepDigits(DialChars(s)) == KeepDigits(s)
    decreases |s|
  {
    if |s| > 0 {
      DialCharsKeepDigits(s[1..]);
      var head := if IsDialChar(s[0]) then [s[0]] else [];
      assert DialChars(s) == head + DialChars(s[1..]);
      KeepDigitsAppend(head, DialChars(s[1..]));
      assert s == [s[0]] + s[1..];
      KeepDigitsAppend([s[0]], s[1..]);
    }
  }

  /**
    `normalize_phone_number`: keeps only digits and '+', then puts a '+'
    in front unless the result already starts with one.
   */
  function Normalize(s: string): (r: string)
    ensures |r| > 0 && r[0] == '+'
    ensures forall i :: 0 <= i < |r| ==> IsDialChar(r[i])
    ensures KeepDigits(r) == KeepDigits(s)
    ensures |r| <= |s| + 1
    ensures r == DialChars(s) || r == "+" + DialChars(s)
    ensures r == DialChars(s) <==> (DialChars(s) != [] && DialChars(s)[0] == '+')
    ensures s == [] ==> r == "+"
  {
    var d := DialChars(s);
    DialCharsKeepDigits(s);
    if |d| > 0 && d[0] == '+' then d
    else
      KeepDigitsAppend("+", d);
      "+" + d
  }

  /** A normalised number normalises to itself. */
  lemma NormalizeIdempotent(s: string)
    ensures Normalize(Normalize(s)) == Normalize(s)
  {
    var n := Normalize(s);
    FilterAll(n, IsDialChar);
  }

  /** An empty number normalises to a lone '+', so a normalised number is never empty. */
  lemma NormalizeEmpty()
    ensures Normalize("") == "+"
  {
    assert DialChars("") == [];
  }

  // ---------------------------------------------------------------------
  // Field validation and mapping

  /** The first of `fields` that is not a key of `data`: the field the validators report. */
  function FirstMissing(data: map<string, string>, fields: seq<string>): (r: Option<string>)
    ensures r.None? <==> forall i :: 0 <= i < |fields| ==> fields[i] in data
    ensures r.Some? ==> exists i :: 0 <= i < |fields| && fields[i] == r.value && r.value !in data && forall j :: 0 <= j < i ==> fields[j] in data
  {
    match FirstIndex(fields, (f: string) => f !in data)
    case None => None
    case Some(i) => Some(fields[i])
  }

  const TwilioFields: seq<string> := ["From", "To", "Body"]
  const NexmoFields: seq<string> := ["msisdn", "to", "text"]

  /** `validate_twilio_webhook` / `validate_nexmo_webhook`: `None` when valid, else the message. */
  function ValidateFields(data: map<string, string>, fields: seq<string>): (r: Option<string>)
    ensures r.None? <==> forall i :: 0 <= i < |fields| ==> fields[i] in data
    ensures r.Some? ==> exists f :: f in fields && f !in data && r.value == "Missing required field: " + f
  {
    match FirstMissing(data, fields)
    case None => None
    case Some(f) => Some("Missing required field: " + f)
  }

  /** `data.get(k1, data.get(k2, ...))`: the value of the first of `keys` that is present. */
  function FirstPresent(data: map<string, string>, keys: seq<string>): (r: Option<string>)
    ensures r.None? <==> forall i :: 0 <= i < |keys| ==> keys[i] !in data
    ensures r.Some? ==> exists i :: 0 <= i < |keys| && keys[i] in data && r.value == data[keys[i]] && forall j :: 0 <= j < i ==> keys[j] !in data
  {
    match FirstIndex(keys, (k: string) => k in data)
    case None => None
    case Some(i) => Some(data[keys[i]])
  }

  /** The fields a message is made of, after mapping and normalisation. */
  datatype Extracted = Extracted(sender: string, recipient: string, content: string, providerMessageId: string)

  /** The field names a provider uses: sender, recipient, content and message id, each with its fallbacks. */
  function FieldNames(providerName: string): (r: (seq<string>, seq<string>, seq<string>, seq<string>))
    ensures Lower(providerName) == "twilio" ==> r == (["From"], ["To"], ["Body"], ["MessageSid"])
    ensures Lower(providerName) == "nexmo" ==> r == (["msisdn"], ["to"], ["text"], ["messageId"])
    ensures Lower(providerName) != "twilio" && Lower(providerName) != "nexmo" ==>
      r == (["from", "sender"], ["to", "recipient"], ["message", "text", "body"], ["message_id", "id"])
  {
    var name := Lower(providerName);
    if name == "twilio" then (["From"], ["To"], ["Body"], ["MessageSid"])
    else if name == "nexmo" then (["msisdn"], ["to"], ["text"], ["messageId"])
    else (["from", "sender"], ["to", "recipient"], ["message", "text", "body"], ["message_id", "id"])
  }

  /** The extraction step of `process_sms_webhook`: a missing field is `''`, numbers are normalised. */
  function Extract(providerName: string, data: map<string, string>): (r: Extracted)
    ensures r.sender == Normalize(FirstPresent(data, FieldNames(providerName).0).GetOr(""))
    ensures r.recipient == Normalize(FirstPresent(data, FieldNames(providerName).1).GetOr(""))
    ensures r.content == FirstPresent(data, FieldNames(providerName).2).GetOr("")
    ensures r.providerMessageId == FirstPresent(data, FieldNames(providerName).3).GetOr("")
  {
    var (senders, recipients, contents, ids) := FieldNames(providerName);
    Extracted(
      Normalize(FirstPresent(data, senders).GetOr("")),
      Normalize(FirstPresent(data, recipients).GetOr("")),
      FirstPresent(data, contents).GetOr(""),
      FirstPresent(data, ids).GetOr(""))
  }

  /** The generic format's content falls back from `message` to `text` to `body`. */
  lemma GenericContentFallback(data: map<string, string>)
    requires "message" !in data && "text" in data
    ensures Extract("generic", data).content == data["text"]
  {
    assert Lower("generic") == "generic";
    assert "generic" != "twilio" && "generic" != "nexmo";
    var r := FirstPresent(data, ["message", "text", "body"]);
    var i :| 0 <= i < 3 && ["message", "text", "body"][i] in data && r.value == data[["message", "text", "body"][i]]
      && forall j :: 0 <= j < i ==> ["message", "text", "body"][j] !in data;
    assert i == 1;
  }

  /** `all([sender, recipient, content])`: normalised numbers are never empty, so only empty content fails. */
  lemma MissingDataMeansEmptyContent(e: Extracted, providerName: string, data: map<string, string>)
    requires e == Extract(providerName, data)
    ensures (e.sender != [] && e.recipient != [] && e.content != []) <==> e.content != []
  {
  }

  // ---------------------------------------------------------------------
  // Processing

  datatype Processed =
    | Stored(table: seq<PyMessage.Message>, id: nat)
    | Refused(reason: string)

  /** `filter_by(name=..., is_active=True).first()`. */
  function ConfiguredProvider(providers: seq<SmsProvider.Provider>, name: string): (r: Option<nat>)
    ensures r.Some? ==> r.value < |providers| && providers[r.value].name == name && providers[r.value].isActive
    ensures r.None? <==> forall i :: 0 <= i < |providers| ==> !(providers[i].name == name && providers[i].isActive)
  {
    FirstIndex(providers, (p: SmsProvider.Provider) => p.name == name && p.isActive)
  }

  /** `filter_by(phone_number=...).first()`. */
  function NumberRow(leases: seq<PyPhoneNumber.Lease>, number: string): (r: Option<nat>)
    ensures r.Some? ==> r.value < |leases| && leases[r.value].phoneNumber == number
    ensures r.None? <==> forall i :: 0 <= i < |leases| ==> leases[i].phoneNumber != number
  {
    FirstIndex(leases, (l: PyPhoneNumber.Lease) => l.phoneNumber == number)
  }

  /**
    `process_sms_webhook`: an active provider of that name, non-empty
    content and a registered recipient number are needed; the message is
    filed under the number whether or not anyone holds it.
   */
  function ProcessSms(
    providerName: string, data: map<string, string>, providers: seq<SmsProvider.Provider>,
    leases: seq<PyPhoneNumber.Lease>, table: seq<PyMessage.Message>, newId: nat, now: nat): (r: Processed)
    ensures ConfiguredProvider(providers, providerName).None? ==> r == Refused("Provider " + providerName + " not configured")
    ensures ConfiguredProvider(providers, providerName).Some? && Extract(providerName, data).content == [] ==>
      r == Refused("Missing required message data")
    ensures r.Stored? <==>
      && ConfiguredProvider(providers, providerName).Some?
      && Extract(providerName, data).content != []
      && NumberRow(leases, Extract(providerName, data).recipient).Some?
    ensures r.Stored? ==>
      && r.id == newId
      && |r.table| == |table| + 1 && r.table[..|table|] == table
      && var m := r.table[|table|];
         var e := Extract(providerName, data);
         && m.id == newId
         && m.phoneNumberId == leases[NumberRow(leases, e.recipient).value].id
         && leases[NumberRow(leases, e.recipient).value].phoneNumber == e.recipient
         && m.senderNumber == e.sender && m.content == e.content
         && m.messageType == PyMessage.DetectMessageType(e.content)
         && m.providerId == Some(providers[ConfiguredProvider(providers, providerName).value].id)
         && m.providerMessageId == Some(e.providerMessageId)
         && m.receivedAt == now && !m.isRead
  {
    match ConfiguredProvider(providers, providerName)
    case None => Refused("Provider " + providerName + " not configured")
    case Some(p) =>
      var e := Extract(providerName, data);
      if !(e.sender != [] && e.recipient != [] && e.content != []) then Refused("Missing required message data")
      else match NumberRow(leases, e.recipient)
        case None => Refused("Phone number " + e.recipient + " not registered")
        case Some(k) =>
          var t := PyMessage.CreateFromWebhook(table, newId, leases[k].id, e.sender, e.content,
                                               Some(providers[p].id), Some(e.providerMessageId), now);
          Stored(t, newId)
  }

  // ---------------------------------------------------------------------
  // Routes

  /** A route's answer: a plain body, or a JSON `{"error": ...}` body. */
  datatype Answer = Body(status: nat, text: string) | Error(status: nat, message: string)

  const EmptyTwiml: string := "<?xml version=\"1.0\" encoding=\"UTF-8\"?><Response></Response>"

  /** Validation of the receive route: `None` when the data may be processed, else the message. */
  function ValidateFor(providerName: string, data: map<string, string>): (r: Option<string>)
    ensures providerName == "twilio" ==> r == ValidateFields(data, TwilioFields)
    ensures providerName == "nexmo" ==> r == ValidateFields(data, NexmoFields)
    ensures providerName != "twilio" && providerName != "nexmo" ==> (r.None? <==> data != map[])
  {
    if providerName == "twilio" then ValidateFields(data, TwilioFields)
    else if providerName == "nexmo" then ValidateFields(data, NexmoFields)
    else if data == map[] then Some("No data received")
    else None
  }

  /**
    POST /webhooks/sms?provider=...: the provider name is lower-cased and
    required; the data are validated, then processed. A stored message
    is acknowledged with an empty TwiML document for twilio, `OK` otherwise.
   */
  function ReceiveSms(
    providerArg: Option<string>, data: map<string, string>, providers: seq<SmsProvider.Provider>,
    leases: seq<PyPhoneNumber.Lease>, table: seq<PyMessage.Message>, newId: nat, now: nat): (r: (Answer, seq<PyMessage.Message>))
    ensures Lower(providerArg.GetOr("")) == [] ==> r == (Error(400, "Missing provider parameter"), table)
    ensures Lower(providerArg.GetOr("")) != [] && ValidateFor(Lower(providerArg.GetOr("")), data).Some? ==>
      r == (Error(400, "Invalid webhook data: " + ValidateFor(Lower(providerArg.GetOr("")), data).value), table)
    ensures (&& Lower(providerArg.GetOr("")) != []
             && ValidateFor(Lower(providerArg.GetOr("")), data).None?
             && ProcessSms(Lower(providerArg.GetOr("")), data, providers, leases, table, newId, now).Refused?) ==>
      r == (Error(500, ProcessSms(Lower(providerArg.GetOr("")), data, providers, leases, table, newId, now).reason), table)
    ensures r.0.status == 200 <==>
      && Lower(providerArg.GetOr("")) != []
      && ValidateFor(Lower(providerArg.GetOr("")), data).None?
      && ProcessSms(Lower(providerArg.GetOr("")), data, providers, leases, table, newId, now).Stored?
    ensures r.0.status == 200 ==>
      r.0 == Body(200, if Lower(providerArg.GetOr("")) == "twilio" then EmptyTwiml else "OK")
      && r.1 == ProcessSms(Lower(providerArg.GetOr("")), data, providers, leases, table, newId, now).table
    ensures r.0.status != 200 ==> r.1 == table
    ensures r.0.status in {200, 400, 500}
  {
    var name := Lower(providerArg.GetOr(""));
    if name == [] then (Error(400, "Missing provider parameter"), table)
    else match ValidateFor(name, data)
      case Some(msg) => (Error(400, "Invalid webhook data: " + msg), table)
      case None =>
        match ProcessSms(name, data, providers, leases, table, newId, now)
        case Refused(reason) => (Error(500, reason), table)
        case Stored(t, _) => (Body(200, if name == "twilio" then EmptyTwiml else "OK"), t)
  }

  /** A twilio post whose `Body` is present but empty passes validation and is then refused with 500. */
  lemma EmptyTwilioBodyIsRefused(
    data: map<string, string>, providers: seq<SmsProvider.Provider>,
    leases: seq<PyPhoneNumber.Lease>, table: seq<PyMessage.Message>, newId: nat, now: nat)
    requires "From" in data && "To" in data && "Body" in data && data["Body"] == ""
    requires ConfiguredProvider(providers, "twilio").Some?
    ensures ReceiveSms(Some("Twilio"), data, providers, leases, table, newId, now) ==
      (Error(500, "Missing required message data"), table)
  {
    assert Lower("Twilio") == "twilio";
    assert ValidateFor("twilio", data).None?;
    TwilioEmptyContent(data);
  }

  lemma TwilioEmptyContent(data: map<string, string>)
    requires "Body" in data && data["Body"] == ""
    ensures Extract("twilio", data).content == []
  {
    assert Lower("twilio") == "twilio";
    assert FieldNames("twilio").2 == ["Body"];
    var found := FirstPresent(data, ["Body"]);
    var i :| 0 <= i < 1 && ["Body"][i] in data && found.value == data[["Body"][i]];
  }

  /**
    POST /webhooks/delivery: only checks that a provider is named; delivery
    reports are not processed, so the message table is returned as it was.
   */
  function ReceiveDelivery(providerArg: Option<string>, table: seq<PyMessage.Message>): (r: (Answer, seq<PyMessage.Message>))
    ensures r.1 == table
    ensures r.0.status == 200 <==> Lower(providerArg.GetOr("")) != []
    ensures r.0.status != 200 ==> r.0 == Error(400, "Missing provider parameter")
  {
    if Lower(providerArg.GetOr("")) == [] then (Error(400, "Missing provider parameter"), table)
    else (Body(200, "OK"), table)
  }

  /**
    POST /webhooks/test: files a message for `to` (default `+1234567890`)
    from `from` (default `+0987654321`) with content `message` (default
    `Test message`), with no provider and no normalisation; an unknown
    number gives 404.
   */
  function TestWebhook(data: map<string, string>, leases: seq<PyPhoneNumber.Lease>, table: seq<PyMessage.Message>,
                       newId: nat, now: nat): (r: (Answer, seq<PyMessage.Message>))
    ensures var to := if "to" in data then data["to"] else "+1234567890";
      && (r.0.status == 200 <==> NumberRow(leases, to).Some?)
      && (r.0.status != 200 ==> r == (Error(404, "Phone number " + to + " not found"), table))
      && (r.0.status == 200 ==>
            && |r.1| == |table| + 1 && r.1[..|table|] == table
            && r.1[|table|].phoneNumberId == leases[NumberRow(leases, to).value].id
            && r.1[|table|].providerId.None?
            && r.1[|table|].senderNumber == (if "from" in data then data["from"] else "+0987654321")
            && r.1[|table|].content == (if "message" in data then data["message"] else "Test message"))
  {
    var to := if "to" in data then data["to"] else "+1234567890";
    var from := if "from" in data then data["from"] else "+0987654321";
    var content := if "message" in data then data["message"] else "Test message";
    match NumberRow(leases, to)
    case None => (Error(404, "Phone number " + to + " not found"), table)
    case Some(k) =>
      var t := PyMessage.CreateFromWebhook(table, newId, leases[k].id, from, content, None, Some("test_" + NatToString(now)), now);
      (Body(200, "Test webhook processed successfully"), t)
  }
}
