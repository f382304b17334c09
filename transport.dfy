/** The transport's `send`: the four stages run in a fixed order on the mail
    data, the filtered option bag goes to the provider's client, and the
    client's reply is settled into the caller's callback. */
module Transport {
  import opened Values
  import opened Addresses
  import opened KeyMapping
  import opened Attachments
  import opened OptionFilter

  /** The first three stages only touch the address fields, `headers`,
      `replyTo` and `h:Reply-To`, so the attachment list reaches the third
      stage as the caller gave it. */
  lemma {:induction false} AttachmentsSurviveEarlyStages(m: map<string, Value>)
    ensures Lookup(TransformedMailData(ConvertedAddresses(m)), "attachments") == Lookup(m, "attachments")
  {
    assert "attachments" !in AddressFields;
    TransformedMailDataEffect(ConvertedAddresses(m), "attachments");
  }

  /** The mail data after the three in-place stages (lines 185-187). */
  function PreparedMailData(m: map<string, Value>): map<string, Value>
    requires AddressesWellFormed(m) && AttachmentsWellFormed(m)
  {
    AttachmentsSurviveEarlyStages(m);
    ResolvedAttachments(TransformedMailData(ConvertedAddresses(m)))
  }

  /** The option bag handed to the provider's client (lines 165-170, 185-189). */
  function OutboundOptions(m: map<string, Value>): map<string, Value>
    requires AddressesWellFormed(m) && AttachmentsWellFormed(m)
  {
    FilterOptions(PreparedMailData(m))
  }

  // ---------------------------------------------------------------------
  // Properties of the whole pipeline

  /** The nodemailer-only keys never reach the provider, and nothing outside
      the allow-list does. */
  lemma OutboundOmitsNodemailerKeys(m: map<string, Value>)
    requires AddressesWellFormed(m) && AttachmentsWellFormed(m)
    ensures var out := OutboundOptions(m);
      && "headers" !in out && "replyTo" !in out && "attachments" !in out
      && forall k :: k in out ==> Allowed(k)
  {
    NodemailerKeyNotAllowed("headers");
    NodemailerKeyNotAllowed("replyTo");
    NodemailerKeyNotAllowed("attachments");
  }

  /** A reply-to that is truthy once converted reaches the provider as the
      `h:Reply-To` header, holding the converted value. */
  lemma OutboundReplyTo(m: map<string, Value>)
    requires AddressesWellFormed(m) && AttachmentsWellFormed(m)
    requires Truthy(ConvertField(Lookup(m, "replyTo")))
    ensures var out := OutboundOptions(m);
      "h:Reply-To" in out && out["h:Reply-To"] == ConvertField(m["replyTo"])
  {
    var m1 := ConvertedAddresses(m);
    var m2 := TransformedMailData(m1);
    assert Lookup(m1, "replyTo") == ConvertField(m["replyTo"]);
    TransformedMailDataEffect(m1, "h:Reply-To");
    AttachmentsSurviveEarlyStages(m);
    ResolvedAttachmentsEffect(m2, "h:Reply-To");
    ProviderKeysAllowed();
  }

  /** The sender and the recipient fields reach the provider converted. */
  lemma OutboundRecipients(m: map<string, Value>, k: string)
    requires AddressesWellFormed(m) && AttachmentsWellFormed(m)
    requires (k == "from" || k == "to" || k == "cc" || k == "bcc") && k in m
    ensures var out := OutboundOptions(m); k in out && out[k] == ConvertField(m[k])
  {
    var m1 := ConvertedAddresses(m);
    var m2 := TransformedMailData(m1);
    assert k in AddressFields && k in WhitelistExact;
    TransformedMailDataEffect(m1, k);
    AttachmentsSurviveEarlyStages(m);
    ResolvedAttachmentsEffect(m2, k);
  }

  /** Every other allowed key (subject, text, html, provider options, custom
      headers and variables) passes through untouched, present iff it was. */
  lemma OutboundPassThrough(m: map<string, Value>, k: string)
    requires AddressesWellFormed(m) && AttachmentsWellFormed(m)
    requires Allowed(k) && k !in AddressFields && k != "h:Reply-To" && k != "attachment" && k != "inline"
    ensures SameAt(OutboundOptions(m), m, k)
  {
    var m1 := ConvertedAddresses(m);
    var m2 := TransformedMailData(m1);
    NodemailerKeyNotAllowed("headers");
    TransformedMailDataEffect(m1, k);
    AttachmentsSurviveEarlyStages(m);
    NodemailerKeyNotAllowed("attachments");
    ResolvedAttachmentsEffect(m2, k);
  }

  /** A truthy attachment list reaches the provider as the two lists, which
      together hold one converted attachment per input element. */
  lemma OutboundAttachments(m: map<string, Value>)
    requires AddressesWellFormed(m) && AttachmentsWellFormed(m)
    requires Truthy(Lookup(m, "attachments"))
    ensures var out := OutboundOptions(m); var items := m["attachments"].items;
      && "attachment" in out && out["attachment"] == Arr(AttachmentList(items))
      && "inline" in out && out["inline"] == Arr(InlineList(items))
      && |AttachmentList(items)| + |InlineList(items)| == |items|
  {
    var m1 := ConvertedAddresses(m);
    var m2 := TransformedMailData(m1);
    AttachmentsSurviveEarlyStages(m);
    ResolvedAttachmentsEffect(m2, "attachment");
    ProviderKeysAllowed();
  }

  // ---------------------------------------------------------------------
  // The client's reply

  /** How the callback is invoked: `callback(err)` or `callback(null, data)`. */
  datatype Completion = Failed(error: Value) | Delivered(result: Option<map<string, Value>>)

  /** Lines 173-175: the provider's `id` copied into `messageId`. */
  function WithMessageId(data: map<string, Value>): (r: map<string, Value>)
    ensures "messageId" in r && r["messageId"] == Lookup(data, "id")
    ensures forall k :: k != "messageId" ==> (k in r <==> k in data) && (k in r ==> r[k] == data[k])
  {
    data["messageId" := Lookup(data, "id")]
  }

  /** Lines 172-195: the reply settles the promise once, and an error wins
      because the rejection comes first; on success the data, if any, carries
      the message id. */
  function Settle(err: Value, data: Option<map<string, Value>>): (c: Completion)
    ensures c.Failed? <==> Truthy(err)
    ensures c.Failed? ==> c.error == err
    ensures c.Delivered? ==> (c.result.Some? <==> data.Some?)
    ensures c.Delivered? && data.Some? ==>
      c.result.Some? && "messageId" in c.result.value &&
      c.result.value["messageId"] == Lookup(data.value, "id") &&
      forall k :: k != "messageId" ==> SameAt(c.result.value, data.value, k)
  {
    var augmented := if data.Some? then Some(WithMessageId(data.value)) else None;
    if Truthy(err) then Failed(err) else Delivered(augmented)
  }

  /** Lines 184-196: run the three in-place stages on the mail data, filter
      it, hand the options to the client and settle its reply (given here as
      the error and data the client answers with). */
  method Send(mail: MailData, clientErr: Value, clientData: Option<map<string, Value>>)
    returns (options: map<string, Value>, outcome: Completion)
    requires AddressesWellFormed(mail.fields) && AttachmentsWellFormed(mail.fields)
    modifies mail
    ensures mail.fields == PreparedMailData(old(mail.fields))
    ensures options == OutboundOptions(old(mail.fields))
    ensures outcome == Settle(clientErr, clientData)
  {
    ghost var m := mail.fields;
    ConvertAddressesToStrings(mail);
    TransformMailData(mail);
    AttachmentsSurviveEarlyStages(m);
    ResolveAttachments(mail);
    options := FilterOptions(mail.fields);
    outcome := Settle(clientErr, clientData);
  }

  // ---------------------------------------------------------------------
  // Worked examples

  /** A single address record with a name is formatted and the header map is
      dropped. */
  lemma ExampleAddressRecord()
    ensures var out := OutboundOptions(map["to" := Record("Jo", "jo@x.com"), "subject" := Str("Hi"),
                                           "text" := Str("Body"), "headers" := Object]);
      && "to" in out && out["to"] == Str("Jo <jo@x.com>")
      && "headers" !in out
  {
    var m := map["to" := Record("Jo", "jo@x.com"), "subject" := Str("Hi"),
                 "text" := Str("Body"), "headers" := Object];
    assert FormatMailbox("Jo", "jo@x.com") == "Jo <jo@x.com>";
    OutboundOmitsNodemailerKeys(m);
    OutboundRecipients(m, "to");
  }

  /** Text content is encoded and goes to `attachment`; a descriptor with a
      content id takes its data from the path, is named after the content id
      and goes to `inline`. */
  lemma ExampleAttachments()
    ensures var text := AttachmentDescriptor(Str("hello"), Str("utf8"), Undefined, Undefined,
                                             Str("a.txt"), Undefined, Undefined);
            var image := AttachmentDescriptor(Undefined, Undefined, Str("/tmp/b.png"), Str("img1"),
                                              Str("b.png"), Undefined, Undefined);
            var items := [Descriptor(text), Descriptor(image)];
            && AttachmentList(items) == [Attachment(MailgunAttachment(Buffer("hello", Str("utf8")), Str("a.txt"), Undefined, Undefined))]
            && InlineList(items) == [Attachment(MailgunAttachment(Str("/tmp/b.png"), Str("img1"), Undefined, Undefined))]
  {
    var text := AttachmentDescriptor(Str("hello"), Str("utf8"), Undefined, Undefined,
                                     Str("a.txt"), Undefined, Undefined);
    var image := AttachmentDescriptor(Undefined, Undefined, Str("/tmp/b.png"), Str("img1"),
                                      Str("b.png"), Undefined, Undefined);
    var items := [Descriptor(text), Descriptor(image)];
    assert items[..1] == [Descriptor(text)];
    assert items[..1][..0] == [];
  }

  /** A provider reply without an error reaches the callback with the id
      mirrored into `messageId`. */
  lemma ExampleReply()
    ensures Settle(Null, Some(map["id" := Str("abc123"), "message" := Str("Queued")]))
         == Delivered(Some(map["id" := Str("abc123"), "message" := Str("Queued"), "messageId" := Str("abc123")]))
  {
  }
}
