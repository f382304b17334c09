/** The JavaScript values that travel through the transport, the truthiness
    tests the transport applies to them, and the mail-data dictionary that
    every stage rewrites in place. */
module Values {

  datatype Option<+T> = None | Some(value: T)

  /** A JavaScript value as far as the transport can tell values apart.
      `Record` is a plain address object `{name, address}`; an empty string
      stands for a missing or empty property. `Descriptor` is a nodemailer
      attachment object, `Attachment` the provider's attachment object, and
      `Buffer` the result of `Buffer.from(text, encoding)`, kept symbolic.
      `Object` is any other object (a header map, a stream, ...). */
  datatype Value =
    | Undefined
    | Null
    | Bool(b: bool)
    | Num(n: int)
    | Str(s: string)
    | Arr(items: seq<Value>)
    | Record(name: string, address: string)
    | Descriptor(d: AttachmentDescriptor)
    | Attachment(a: MailgunAttachment)
    | Buffer(text: string, encoding: Value)
    | Object

  /** The properties the transport destructures from a nodemailer attachment;
      a property the object lacks reads as `Undefined`. */
  datatype AttachmentDescriptor = AttachmentDescriptor(
    content: Value,
    encoding: Value,
    path: Value,
    cid: Value,
    filename: Value,
    contentType: Value,
    knownLength: Value)

  /** The four fields handed to the provider's attachment constructor. */
  datatype MailgunAttachment = MailgunAttachment(
    data: Value,
    filename: Value,
    contentType: Value,
    knownLength: Value)

  /** JavaScript truthiness. */
  predicate Truthy(v: Value) {
    match v
    case Undefined => false
    case Null => false
    case Bool(b) => b
    case Num(n) => n != 0
    case Str(s) => s != ""
    case _ => true
  }

  /** `typeof v === 'object'`, which holds for null and for arrays too. */
  predicate TypeofObject(v: Value) {
    !(v.Undefined? || v.Bool? || v.Num? || v.Str?)
  }

  /** The JavaScript `a || b`. */
  function Or(a: Value, b: Value): (r: Value)
    ensures Truthy(r) <==> Truthy(a) || Truthy(b)
    ensures r == a || r == b
  {
    if Truthy(a) then a else b
  }

  /** Reading a property of a dictionary: a missing key reads as undefined. */
  function Lookup(m: map<string, Value>, k: string): (r: Value)
    ensures k in m ==> r == m[k]
    ensures k !in m ==> r == Undefined
  {
    if k in m then m[k] else Undefined
  }

  /** Two dictionaries agree on a key: both lack it, or both hold the same value. */
  predicate SameAt(a: map<string, Value>, b: map<string, Value>, k: string) {
    (k in a <==> k in b) && (k in a ==> a[k] == b[k])
  }

  /** The mail-data dictionary (`mail.data`), which every stage of the
      transport rewrites in place and hands on to the next. */
  class MailData {
    var fields: map<string, Value>

    constructor (fields: map<string, Value>)
      ensures this.fields == fields
    {
      this.fields := fields;
    }
  }
}
