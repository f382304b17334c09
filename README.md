# Mailgun transport for nodemailer, modelled in Dafny

This project models the part of the nodemailer Mailgun transport that does
the translation work. The transport takes a nodemailer mail-data dictionary
and turns it into the option bag for the Mailgun messages API. It does this
in four stages that always run in the same order:

1. **Address normalisation.** Each of `from`, `to`, `cc`, `bcc` and
   `replyTo` that holds an object (an address record or an array) is
   replaced by a comma-joined string. A record becomes `name <address>`, or
   the bare address when it has no name.
2. **Key mapping.** `headers` is deleted. A truthy `replyTo` moves to
   `h:Reply-To`.
3. **Attachment resolution.** The `attachments` list is converted into
   provider attachments and split, in order, into `attachment` (no content
   id) and `inline` (a truthy content id). Then `attachments` is deleted.
4. **Allow-list filter.** A key is kept iff it is one of 21 exact names or
   starts with `h:` or `v:`.

The provider's reply then gets `messageId` copied from its `id`, and the
callback receives either the error or the reply.

Layout, one module per component:

- `values.dfy` (`Values`): JavaScript values, as far as the transport tells
  them apart. It also holds truthiness, `typeof … === 'object'`, `||`, and
  the `MailData` class. `MailData` is the dictionary the stages mutate in
  place.
- `addresses.dfy` (`Addresses`): stage 1.
- `key_mapping.dfy` (`KeyMapping`): stage 2.
- `attachments.dfy` (`Attachments`): stage 3.
- `option_filter.dfy` (`OptionFilter`): stage 4.
- `transport.dfy` (`Transport`): the pipeline, the reply handling, and
  properties of the whole pipeline.

The three mutating stages are methods that take a `MailData` and modify it.
Each method is proved to leave the dictionary equal to a specification
function of the old dictionary (`ConvertedAddresses`, `TransformedMailData`,
`ResolvedAttachments`). The loops that build results become read-only
methods with loop invariants (`CollectTargets` walks the wrapped list,
`PushElements` walks an address array) or invariants inside the stage
method (the attachment loop, the rename-table loop). `PushEntry` has no
loop: it is the per-entry branch that hands an array to `PushElements` or
formats a single record. The key filter is pure, so it is a function.

### Behaviour worth noting

- An inline attachment is named after its content id, not its declared file
  name (line 143). The descriptor `{path: '/tmp/b.png', cid: 'img1',
  filename: 'b.png'}` becomes an inline attachment named `img1`, with the
  path as its data; `Transport.ExampleAttachments` proves this.
- The reply-to rename (line 103) and attachment resolution (line 117) test
  for a truthy value, not for presence. An empty-string `replyTo` stays
  where it is, and the filter then drops it.
- Any non-null object in an address field is rewritten (line 71). A record
  without an address, or any other object, becomes the empty string; it is
  not left alone.

## Model

| member | source | states |
|---|---|---|
| `Addresses.ElementStrings` | src/mailgun-transport.js:77-83 | an array element contributes exactly one string iff it is a string or an object with a truthy address, and nothing otherwise; a string is contributed verbatim, an addressed record as its formatted mailbox |
| `Addresses.ConvertField` | src/mailgun-transport.js:69-92 | strings, null, undefined, booleans and numbers are left unchanged; a record becomes `name <address>`, the bare address, or `""` when it has no address; any other non-array object becomes `""`; an array becomes the comma-join of the strings its elements emit; a changed value is always a string |
| `Addresses.ConvertedAddresses` | src/mailgun-transport.js:66-96 | the stage adds and removes no key, and leaves every key other than the five address fields unchanged |
| `Addresses.JoinSplitRoundTrip` | src/mailgun-transport.js:91 | the join uses single commas and no spaces: splitting the joined string at commas gives back the comma-free parts, in order |
| `Addresses.FormatParseRoundTrip` | src/mailgun-transport.js:79 | the formatted mailbox reads back as exactly its name and address, for any name and any non-empty address without angle brackets |
| `Addresses.QualifyingElementsInOrder` | src/mailgun-transport.js:76-84 | an array of strings and addressed records yields one string per element, in input order |
| `Addresses.ElementsStringsAppend` | src/mailgun-transport.js:76-84 | the strings emitted for two arrays back to back are those of the first followed by those of the second: each element contributes independently of its neighbours |
| `Addresses.NonQualifyingElementDropped` | src/mailgun-transport.js:76-84 | a non-null element that is neither a string nor an object with an address (a record without address, a nested array, a number) contributes nothing, wherever it sits in the array |
| `Addresses.ArrayFieldRoundTrip` | src/mailgun-transport.js:76-91 | an address array of strings and addressed records becomes a string that splits back into the formatted entries, one per element, in order |
| `Addresses.ConvertAddressesIdempotent` | src/mailgun-transport.js:69-92 | running the address stage on its own output changes nothing |
| `Addresses.PushElements` | src/mailgun-transport.js:76-84 | the inner loop appends exactly the strings the array's elements emit, in order |
| `Addresses.PushEntry` | src/mailgun-transport.js:75-89 | the per-entry branch: one entry of the wrapped list appends exactly what that entry emits |
| `Addresses.CollectTargets` | src/mailgun-transport.js:72-89 | wrapping the value and walking the list collects exactly the strings the value emits |
| `Addresses.ConvertAddressesToStrings` | src/mailgun-transport.js:66-96 | the dictionary is rewritten in place to the address-stage result |
| `KeyMapping.TransformedMailDataEffect` | src/mailgun-transport.js:98-110 | `headers` is absent afterwards; a truthy `replyTo` is moved to `h:Reply-To` and removed; a falsy one leaves both keys as they were; every other key is unchanged |
| `KeyMapping.TransformMailData` | src/mailgun-transport.js:98-110 | the dictionary is rewritten in place to the key-mapping result, applying the table of lines 31-36 entry by entry |
| `Attachments.ToMailgunAttachment` | src/mailgun-transport.js:135-146 | text content becomes a buffer with the declared encoding; otherwise the data is the content if truthy, else the path if truthy, else undefined; the file name is the content id if truthy, else the file name if truthy, else undefined; content type and known length are copied |
| `Attachments.PartitionSizes` | src/mailgun-transport.js:123-153 | every element lands in exactly one of the two lists |
| `Attachments.PartitionPrefix` | src/mailgun-transport.js:123-153 | the lists built from a prefix of the input are prefixes of the lists built from all of it |
| `Attachments.PartitionRoute` | src/mailgun-transport.js:148-152 | element i goes to `inline` iff its content id is truthy, else to `attachment`, placed after the earlier elements of the same kind (stable partition) |
| `Attachments.InlineNamed` | src/mailgun-transport.js:143-149 | every inline attachment carries a truthy file name, and that name is the content id of an input element with a truthy content id |
| `Attachments.ResolvedAttachmentsEffect` | src/mailgun-transport.js:113-161 | with a truthy `attachments`, the key is removed and `attachment` plus `inline` hold the partition, with lengths summing to the input's; with a falsy one the dictionary is unchanged; no other key changes |
| `Attachments.ResolveAttachments` | src/mailgun-transport.js:113-161 | the loop builds both lists and the dictionary is rewritten in place to the attachment-stage result |
| `OptionFilter.FindExact` | src/mailgun-transport.js:166 | `find` over the exact names returns a value iff the key is in the list, and then it returns the key |
| `OptionFilter.FindPrefix` | src/mailgun-transport.js:166 | `find` over the prefixes returns a value iff some prefix starts the key, and then it returns such a prefix |
| `OptionFilter.KeepKeyIff` | src/mailgun-transport.js:4-30 | the `find`-based test keeps exactly the keys that are one of the 21 exact names or start with `h:` or `v:` |
| `OptionFilter.FilterOptions` | src/mailgun-transport.js:165-170 | the option bag has key k iff the dictionary has k and k is allowed, and each kept key keeps its value |
| `OptionFilter.NodemailerKeyNotAllowed` | src/mailgun-transport.js:4-30 | `headers`, `replyTo` and `attachments` are not allowed keys |
| `OptionFilter.ProviderKeysAllowed` | src/mailgun-transport.js:4-30 | `h:Reply-To`, `attachment` and `inline` are allowed keys |
| `Transport.AttachmentsSurviveEarlyStages` | src/mailgun-transport.js:185-187 | the first two stages do not touch `attachments` |
| `Transport.OutboundOmitsNodemailerKeys` | src/mailgun-transport.js:185-189 | after the whole pipeline, `headers`, `replyTo` and `attachments` are never present, and every key present is allowed |
| `Transport.OutboundReplyTo` | src/mailgun-transport.js:185-189 | a reply-to that is truthy after conversion reaches the provider as `h:Reply-To`, holding the converted value |
| `Transport.OutboundRecipients` | src/mailgun-transport.js:185-189 | `from`, `to`, `cc` and `bcc`, when present, reach the provider converted |
| `Transport.OutboundPassThrough` | src/mailgun-transport.js:185-189 | every other allowed key reaches the provider iff it was given, with its value unchanged |
| `Transport.OutboundAttachments` | src/mailgun-transport.js:185-189 | a truthy attachment list reaches the provider as the `attachment` and `inline` lists, with lengths summing to the input's |
| `Transport.WithMessageId` | src/mailgun-transport.js:173-175 | `messageId` equals the reply's `id` (undefined when there is none), and every other field is unchanged |
| `Transport.Settle` | src/mailgun-transport.js:172-195 | the callback gets the error iff it is truthy; otherwise it gets the reply, if any, with `messageId` mirrored from `id` and the other fields kept |
| `Transport.Send` | src/mailgun-transport.js:184-196 | the three stages rewrite the mail data in place, in order; the options handed to the client are the filtered result; the outcome is the settled reply |
| `Transport.ExampleAddressRecord` | src/mailgun-transport.js:85-91 | `{to: {name: 'Jo', address: 'jo@x.com'}, headers: …}` yields `to: 'Jo <jo@x.com>'` and no `headers` |
| `Transport.ExampleAttachments` | src/mailgun-transport.js:135-152 | a text attachment is encoded and goes to `attachment`; a path attachment with a content id goes to `inline`, named after the content id |
| `Transport.ExampleReply` | src/mailgun-transport.js:173-179 | reply `{id: 'abc123', message: 'Queued'}` with no error yields the same object plus `messageId: 'abc123'` |

## Left out

- Constructing the transport and the `mailgun-js` client (lines 1-2,
  39-63), including the `name` and `version` fields. This is configuration
  of a foreign library.
- The network call itself (line 172). The client's answer, an error and
  optional reply data, is a parameter of `Transport.Send`. The
  promise-to-callback wiring (lines 164, 176-195) is reduced to the pure
  outcome function `Transport.Settle`.
- Reply data is taken to be an object or absent (`Option` of a map). A
  truthy reply that is not an object, such as a string body, would make the
  `messageId` assignment at line 174 throw; it is not modelled. A `null` and
  an `undefined` reply are both the absent case.
- `Buffer.from(content, encoding)` (line 136) is the symbolic value
  `Buffer(text, encoding)`. Encodings are not interpreted.
- `new this.mailgun.Attachment(...)` (line 141) is a plain record of the
  four fields passed to it.
- JavaScript throws are excluded by preconditions, not modelled. The
  excluded inputs are: a null element inside an address array (line 78); a
  truthy `attachments` that is not iterable (line 123); a null or undefined
  attachment element (line 132). The stage methods, `Transport.Send`, the
  pipeline functions `PreparedMailData` and `OutboundOptions`, and every
  pipeline lemma require `AddressesWellFormed` and `AttachmentsWellFormed`.
  `ElementStrings` itself gives a null element no strings, so lemmas about
  it alone exclude null elements explicitly.
- A truthy `attachments` that is iterable but not an array (a string or a
  buffer, walked character by character or byte by byte at line 123) is
  not modelled: the precondition of the attachment stage asks for an
  array.
- A provider attachment object as an element of `attachments` is excluded
  too. Its properties are set by the provider's library, which is not part
  of this model.
- Address records hold string names and addresses. A non-string name or
  address, and its template-literal string conversion, is not modelled.
- Numbers are integers. NaN and floating point are not modelled.
- Other objects are opaque (`Object`): their properties are assumed
  absent, so every property reads as undefined. An object that does carry
  such a property (a stream with a `path` placed straight into
  `attachments`) is not covered. Functions (`typeof 'function'`) are not
  modelled.
- Key order in the option bag is not modelled. Maps are unordered, and the
  provider does not depend on the order.
