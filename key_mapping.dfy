/** The second stage of the transport: the raw header map is dropped and the
    nodemailer keys in the rename table are moved to the provider's names,
    in place. */
module KeyMapping {
  import opened Values

  /** One entry of the rename table. */
  datatype KeyRename = KeyRename(nodemailerKey: string, mailgunKey: string)

  /** The rename table: a reply-to address travels as a custom header. */
  const TransformList: seq<KeyRename> := [KeyRename("replyTo", "h:Reply-To")]

  /** One entry of the table applied (lines 103-106): a truthy value under the
      nodemailer key is copied to the provider key, then the nodemailer key is
      deleted; a falsy or missing value leaves the dictionary alone. */
  function ApplyRename(m: map<string, Value>, t: KeyRename): map<string, Value> {
    if Truthy(Lookup(m, t.nodemailerKey))
    then m[t.mailgunKey := m[t.nodemailerKey]] - {t.nodemailerKey}
    else m
  }

  /** The entries of a table applied in order. */
  function ApplyRenames(m: map<string, Value>, table: seq<KeyRename>): map<string, Value> {
    if |table| == 0 then m
    else ApplyRename(ApplyRenames(m, table[..|table| - 1]), table[|table| - 1])
  }

  /** The key-mapping stage as a whole (lines 98-110). */
  function TransformedMailData(m: map<string, Value>): map<string, Value> {
    ApplyRenames(m - {"headers"}, TransformList)
  }

  /** What the stage does, stated for any key k: `headers` is gone whatever
      it held; a truthy `replyTo` is moved to `h:Reply-To` and removed; a
      falsy one stays where it was; no other key changes. */
  lemma {:induction false} TransformedMailDataEffect(m: map<string, Value>, k: string)
    ensures "headers" !in TransformedMailData(m)
    ensures Truthy(Lookup(m, "replyTo")) ==>
      var r := TransformedMailData(m);
      "replyTo" !in r && "h:Reply-To" in r && r["h:Reply-To"] == m["replyTo"]
    ensures !Truthy(Lookup(m, "replyTo")) ==>
      SameAt(TransformedMailData(m), m, "replyTo") && SameAt(TransformedMailData(m), m, "h:Reply-To")
    ensures k != "headers" && k != "replyTo" && k != "h:Reply-To" ==> SameAt(TransformedMailData(m), m, k)
  {
    var m0 := m - {"headers"};
    assert TransformList[..0] == [];
    assert ApplyRenames(m0, TransformList) == ApplyRename(m0, TransformList[0]);
    assert Lookup(m0, "replyTo") == Lookup(m, "replyTo");
  }

  /** Lines 98-110: delete `headers`, then apply the rename table entry by
      entry, all in place. */
  method TransformMailData(mail: MailData)
    modifies mail
    ensures mail.fields == TransformedMailData(old(mail.fields))
  {
    mail.fields := mail.fields - {"headers"};
    ghost var m0 := mail.fields;
    for i := 0 to |TransformList|
      invariant mail.fields == ApplyRenames(m0, TransformList[..i])
    {
      var t := TransformList[i];
      assert TransformList[..i + 1][..i] == TransformList[..i];
      if Truthy(Lookup(mail.fields, t.nodemailerKey)) {
        mail.fields := mail.fields[t.mailgunKey := mail.fields[t.nodemailerKey]];
        mail.fields := mail.fields - {t.nodemailerKey};
      }
    }
    assert TransformList[..|TransformList|] == TransformList;
  }
}
