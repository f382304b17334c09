/** The third stage of the transport: the nodemailer `attachments` list is
    converted element by element into provider attachments and split, in
    order, into the `attachment` and `inline` lists, in place. */
module Attachments {
  import opened Values

  /** Destructuring an element of the list (lines 124-132): a nodemailer
      descriptor yields its properties; any other non-null value has none of
      them, so every property reads as undefined. */
  function DescriptorOf(v: Value): AttachmentDescriptor {
    if v.Descriptor? then v.d
    else AttachmentDescriptor(Undefined, Undefined, Undefined, Undefined, Undefined, Undefined, Undefined)
  }

  /** A value the loop can destructure without a throw: not null or undefined,
      and not a provider attachment object, whose properties come from the
      provider's client library. */
  predicate Destructurable(v: Value) {
    !(v.Undefined? || v.Null? || v.Attachment?)
  }

  /** An element goes to the inline list when it carries a truthy content id. */
  predicate IsInline(d: AttachmentDescriptor) {
    Truthy(d.cid)
  }

  /** The provider attachment built for one descriptor (lines 135-146). */
  function ToMailgunAttachment(d: AttachmentDescriptor): (a: MailgunAttachment)
    // the data: text is encoded with the declared encoding, otherwise the
    // content if truthy, else the path if truthy, else undefined
    ensures d.content.Str? ==> a.data == Buffer(d.content.s, d.encoding)
    ensures !d.content.Str? ==> a.data in {d.content, d.path, Undefined}
    ensures !d.content.Str? ==> (Truthy(a.data) <==> Truthy(d.content) || Truthy(d.path))
    ensures !d.content.Str? && Truthy(d.content) ==> a.data == d.content
    ensures !d.content.Str? && !Truthy(d.content) && !Truthy(d.path) ==> a.data == Undefined
    // the file name: the content id wins over the declared file name
    ensures Truthy(a.filename) <==> Truthy(d.cid) || Truthy(d.filename)
    ensures IsInline(d) ==> a.filename == d.cid
    ensures !IsInline(d) && Truthy(d.filename) ==> a.filename == d.filename
    ensures !Truthy(a.filename) ==> a.filename == Undefined
    // the declared type and length pass through untouched
    ensures a.contentType == d.contentType && a.knownLength == d.knownLength
  {
    var data := if d.content.Str? then Buffer(d.content.s, d.encoding)
                else Or(Or(d.content, d.path), Undefined);
    MailgunAttachment(data, Or(Or(d.cid, d.filename), Undefined), d.contentType, d.knownLength)
  }

  /** The provider attachment for one element of the list, as a value. */
  function Converted(v: Value): Value {
    Attachment(ToMailgunAttachment(DescriptorOf(v)))
  }

  /** The converted elements without a content id, in input order. */
  function AttachmentList(items: seq<Value>): (r: seq<Value>)
    ensures |r| <= |items|
  {
    if |items| == 0 then []
    else
      var last := items[|items| - 1];
      AttachmentList(items[..|items| - 1]) + (if IsInline(DescriptorOf(last)) then [] else [Converted(last)])
  }

  /** The converted elements with a content id, in input order. */
  function InlineList(items: seq<Value>): (r: seq<Value>)
    ensures |r| <= |items|
  {
    if |items| == 0 then []
    else
      var last := items[|items| - 1];
      InlineList(items[..|items| - 1]) + (if IsInline(DescriptorOf(last)) then [Converted(last)] else [])
  }

  /** A dictionary the stage can process without a throw: a truthy
      `attachments` is an array of destructurable values. */
  predicate AttachmentsWellFormed(m: map<string, Value>) {
    var atts := Lookup(m, "attachments");
    Truthy(atts) ==>
      atts.Arr? && forall i :: 0 <= i < |atts.items| ==> Destructurable(atts.items[i])
  }

  /** The attachment stage as a whole (lines 113-161). */
  function ResolvedAttachments(m: map<string, Value>): map<string, Value>
    requires AttachmentsWellFormed(m)
  {
    var atts := Lookup(m, "attachments");
    if Truthy(atts)
    then m["attachment" := Arr(AttachmentList(atts.items))]["inline" := Arr(InlineList(atts.items))] - {"attachments"}
    else m
  }

  // ---------------------------------------------------------------------
  // Lemmas: a stable partition

  /** Every element lands in exactly one of the two lists. */
  lemma {:induction false} PartitionSizes(items: seq<Value>)
    ensures |AttachmentList(items)| + |InlineList(items)| == |items|
    decreases |items|
  {
    if |items| > 0 {
      PartitionSizes(items[..|items| - 1]);
    }
  }

  /** The lists built from a prefix of the input are prefixes of the lists
      built from the whole input. */
  lemma {:induction false} PartitionPrefix(items: seq<Value>, n: nat)
    requires n <= |items|
    ensures AttachmentList(items[..n]) <= AttachmentList(items)
    ensures InlineList(items[..n]) <= InlineList(items)
    decreases |items| - n
  {
    if n < |items| {
      PartitionPrefix(items, n + 1);
      assert items[..n + 1][..n] == items[..n];
    } else {
      assert items[..n] == items;
    }
  }

  /** Routing and order: element i goes to the inline list iff it has a
      truthy content id, and it sits there right after the converted
      elements of the same kind that precede it. */
  lemma PartitionRoute(items: seq<Value>, i: nat)
    requires i < |items|
    ensures var k := |InlineList(items[..i])|;
      IsInline(DescriptorOf(items[i])) ==> k < |InlineList(items)| && InlineList(items)[k] == Converted(items[i])
    ensures var k := |AttachmentList(items[..i])|;
      !IsInline(DescriptorOf(items[i])) ==> k < |AttachmentList(items)| && AttachmentList(items)[k] == Converted(items[i])
  {
    PartitionPrefix(items, i + 1);
    assert items[..i + 1][..i] == items[..i];
  }

  /** Every element of the inline list is named after the content id of the
      input element it was built from, so it carries a truthy file name. */
  lemma {:induction false} InlineNamed(items: seq<Value>)
    ensures forall x :: x in InlineList(items) ==> x.Attachment? && Truthy(x.a.filename)
    ensures forall x :: x in InlineList(items) ==>
      x.Attachment? && exists i :: 0 <= i < |items| && IsInline(DescriptorOf(items[i])) && x.a.filename == DescriptorOf(items[i]).cid
    decreases |items|
  {
    if |items| > 0 {
      var init, last := items[..|items| - 1], items[|items| - 1];
      InlineNamed(init);
      forall x | x in InlineList(items)
        ensures x.Attachment? && exists i :: 0 <= i < |items| && IsInline(DescriptorOf(items[i])) && x.a.filename == DescriptorOf(items[i]).cid
      {
        if x in InlineList(init) {
          var i :| 0 <= i < |init| && IsInline(DescriptorOf(init[i])) && x.a.filename == DescriptorOf(init[i]).cid;
          assert items[i] == init[i];
        } else {
          assert x == Converted(last);
          assert items[|items| - 1] == last;
        }
      }
    }
  }

  /** What the stage does to the dictionary, stated for any key k: with a
      truthy `attachments` the key is removed and `attachment` and `inline`
      together hold one converted element per input element; with a falsy
      one nothing changes. No other key changes. */
  lemma ResolvedAttachmentsEffect(m: map<string, Value>, k: string)
    requires AttachmentsWellFormed(m)
    ensures var atts := Lookup(m, "attachments");
      Truthy(atts) ==>
        var r := ResolvedAttachments(m);
        && "attachments" !in r
        && "attachment" in r && r["attachment"] == Arr(AttachmentList(atts.items))
        && "inline" in r && r["inline"] == Arr(InlineList(atts.items))
        && |r["attachment"].items| + |r["inline"].items| == |atts.items|
    ensures !Truthy(Lookup(m, "attachments")) ==> ResolvedAttachments(m) == m
    ensures k != "attachments" && k != "attachment" && k != "inline" ==> SameAt(ResolvedAttachments(m), m, k)
  {
    var atts := Lookup(m, "attachments");
    if Truthy(atts) {
      PartitionSizes(atts.items);
    }
  }

  // ---------------------------------------------------------------------
  // The stage as the source runs it

  /** Lines 113-161: convert and route every element, then store both lists
      and delete `attachments`, in place. */
  method ResolveAttachments(mail: MailData)
    requires AttachmentsWellFormed(mail.fields)
    modifies mail
    ensures mail.fields == ResolvedAttachments(old(mail.fields))
  {
    var attachments := Lookup(mail.fields, "attachments");
    if Truthy(attachments) {
      var items := attachments.items;
      var attachmentList: seq<Value> := [];
      var inlineList: seq<Value> := [];
      for i := 0 to |items|
        invariant attachmentList == AttachmentList(items[..i])
        invariant inlineList == InlineList(items[..i])
      {
        assert items[..i + 1][..i] == items[..i];
        var d := DescriptorOf(items[i]);
        var mailgunAttachment := Attachment(ToMailgunAttachment(d));
        if Truthy(d.cid) {
          inlineList := inlineList + [mailgunAttachment];
        } else {
          attachmentList := attachmentList + [mailgunAttachment];
        }
      }
      assert items[..|items|] == items;
      mail.fields := mail.fields["attachment" := Arr(attachmentList)];
      mail.fields := mail.fields["inline" := Arr(inlineList)];
      mail.fields := mail.fields - {"attachments"};
    }
  }
}
