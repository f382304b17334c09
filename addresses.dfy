/** The first stage of the transport: every address field that holds an
    object (a single address record or an array of entries) is replaced by
    one comma-joined string, in place. */
module Addresses {
  import opened Values

  /** The fields rewritten by the address stage, in the order it visits them. */
  const AddressFields: seq<string> := ["from", "to", "cc", "bcc", "replyTo"]

  /** `name <address>` when the name is non-empty, else the bare address.
      Nothing is quoted or escaped. */
  function FormatMailbox(name: string, address: string): string {
    if name != "" then name + " <" + address + ">" else address
  }

  /** An object whose `address` property is truthy. */
  predicate HasAddress(v: Value) {
    v.Record? && v.address != ""
  }

  // ---------------------------------------------------------------------
  // Array.prototype.join() and a reader for what it produces

  /** `parts.join()`: the parts separated by single commas, no spaces. */
  function Join(parts: seq<string>): string {
    if |parts| == 0 then ""
    else if |parts| == 1 then parts[0]
    else Join(parts[..|parts| - 1]) + "," + parts[|parts| - 1]
  }

  /** Splitting a string at every comma; the reading a consumer of the joined
      list performs. */
  function Split(s: string): (r: seq<string>)
    ensures |r| >= 1
  {
    if |s| == 0 then [""]
    else if s[|s| - 1] == ',' then Split(s[..|s| - 1]) + [""]
    else
      var r := Split(s[..|s| - 1]);
      r[..|r| - 1] + [r[|r| - 1] + [s[|s| - 1]]]
  }

  lemma {:induction false} SplitAppendPart(s: string, p: string)
    requires ',' !in p
    ensures Split(s + "," + p) == Split(s) + [p]
    decreases |p|
  {
    if |p| == 0 {
      assert s + "," + p == s + ",";
      assert (s + ",")[..|s + ","| - 1] == s;
    } else {
      var q := p[..|p| - 1];
      assert ',' !in q by {
        forall i | 0 <= i < |q| ensures q[i] != ',' { assert q[i] == p[i]; }
      }
      SplitAppendPart(s, q);
      var t := s + "," + p;
      assert t[..|t| - 1] == s + "," + q;
      assert t[|t| - 1] == p[|p| - 1];
      assert q + [p[|p| - 1]] == p;
    }
  }

  lemma {:induction false} SplitSinglePart(p: string)
    requires ',' !in p
    ensures Split(p) == [p]
    decreases |p|
  {
    if |p| > 0 {
      var q := p[..|p| - 1];
      assert ',' !in q by {
        forall i | 0 <= i < |q| ensures q[i] != ',' { assert q[i] == p[i]; }
      }
      SplitSinglePart(q);
      assert q + [p[|p| - 1]] == p;
    }
  }

  /** Joining recipients that contain no comma loses nothing: splitting the
      joined string at commas gives back the same parts, in the same order. */
  lemma {:induction false} JoinSplitRoundTrip(parts: seq<string>)
    requires |parts| >= 1
    requires forall i :: 0 <= i < |parts| ==> ',' !in parts[i]
    ensures Split(Join(parts)) == parts
    decreases |parts|
  {
    if |parts| == 1 {
      SplitSinglePart(parts[0]);
    } else {
      var init := parts[..|parts| - 1];
      JoinSplitRoundTrip(init);
      SplitAppendPart(Join(init), parts[|parts| - 1]);
      assert init + [parts[|parts| - 1]] == parts;
    }
  }

  // ---------------------------------------------------------------------
  // Reading a formatted mailbox back

  /** The position of the last `c` in `s`, or -1. */
  function LastIndexOf(s: string, c: char): (r: int)
    ensures -1 <= r < |s|
    ensures r >= 0 ==> s[r] == c && forall i :: r < i < |s| ==> s[i] != c
    ensures r < 0 ==> forall i :: 0 <= i < |s| ==> s[i] != c
  {
    if |s| == 0 then -1
    else if s[|s| - 1] == c then |s| - 1
    else LastIndexOf(s[..|s| - 1], c)
  }

  /** Reads `name <address>` (split at the last `<`) or a bare address. */
  function ParseMailbox(s: string): (string, string) {
    var j := LastIndexOf(s, '<');
    if |s| >= 2 && s[|s| - 1] == '>' && 1 <= j && s[j - 1] == ' '
    then (s[..j - 1], s[j + 1..|s| - 1])
    else ("", s)
  }

  /** A formatted mailbox can be read back into the name and the address it
      was made from, whatever the name holds, as long as the address itself
      holds no angle bracket. */
  lemma FormatParseRoundTrip(name: string, address: string)
    requires address != ""
    requires '<' !in address && '>' !in address
    ensures ParseMailbox(FormatMailbox(name, address)) == (name, address)
  {
    var s := FormatMailbox(name, address);
    if name == "" {
      assert s[|s| - 1] == address[|address| - 1];
    } else {
      var k := |name| + 1;
      assert s[k] == '<';
      forall i | k < i < |s| ensures s[i] != '<' {
        if i < |s| - 1 { assert s[i] == address[i - k - 1]; }
      }
      var j := LastIndexOf(s, '<');
      assert j == k;
      assert s[..j - 1] == name;
      assert s[j + 1..|s| - 1] == address;
    }
  }

  // ---------------------------------------------------------------------
  // What the stage emits for one field value

  /** What one element of an address array contributes (lines 77-83): a
      qualifying object is formatted, a string is kept verbatim, anything
      else (an object without an address, a nested array, a number, ...)
      contributes nothing. */
  function ElementStrings(e: Value): (r: seq<string>)
    ensures |r| <= 1
    ensures |r| == 1 <==> e.Str? || HasAddress(e)
    ensures e.Str? ==> r == [e.s]
    ensures HasAddress(e) ==> r == [FormatMailbox(e.name, e.address)]
  {
    if TypeofObject(e) && HasAddress(e) then [FormatMailbox(e.name, e.address)]
    else if e.Str? then [e.s]
    else []
  }

  /** The strings emitted for the elements of an address array, in order. */
  function ElementsStrings(items: seq<Value>): (r: seq<string>)
    ensures |r| <= |items|
  {
    if |items| == 0 then []
    else ElementsStrings(items[..|items| - 1]) + ElementStrings(items[|items| - 1])
  }

  /** What one entry of the wrapped list contributes (lines 75-89): an array
      contributes its elements, an object its formatted address if it has one. */
  function EntryStrings(v: Value): seq<string> {
    if v.Arr? then ElementsStrings(v.items)
    else if HasAddress(v) then [FormatMailbox(v.name, v.address)]
    else []
  }

  /** The strings emitted for a list of entries, in order. */
  function EntriesStrings(list: seq<Value>): seq<string> {
    if |list| == 0 then []
    else EntriesStrings(list[..|list| - 1]) + EntryStrings(list[|list| - 1])
  }

  /** The new value of one address field (lines 70-92): a non-null object or
      array becomes the joined string of what its entries emit; a string,
      null, undefined or other primitive is left as it is. */
  function ConvertField(v: Value): (r: Value)
    ensures r != v ==> r.Str?
    ensures v.Str? || v.Undefined? || v.Null? || v.Bool? || v.Num? ==> r == v
    ensures v.Record? ==> r == Str(if v.address != "" then FormatMailbox(v.name, v.address) else "")
    ensures v.Descriptor? || v.Attachment? || v.Buffer? || v.Object? ==> r == Str("")
    ensures v.Arr? ==> r == Str(Join(ElementsStrings(v.items)))
  {
    if v != Null && (TypeofObject(v) || v.Arr?) then Str(Join(EntryStrings(v))) else v
  }

  /** The address stage as a whole: the five address fields converted, every
      other key and value as it was, no key added or removed. */
  function ConvertedAddresses(m: map<string, Value>): (r: map<string, Value>)
    ensures r.Keys == m.Keys
    ensures forall k :: k in m && k !in AddressFields ==> r[k] == m[k]
  {
    map k | k in m :: if k in AddressFields then ConvertField(m[k]) else m[k]
  }

  /** An address array that the stage can walk without a TypeError: no
      element is null, whose `.address` would throw (line 78). */
  predicate NoNullElement(v: Value) {
    v.Arr? ==> forall i :: 0 <= i < |v.items| ==> v.items[i] != Null
  }

  /** The whole dictionary can go through the address stage without a throw. */
  predicate AddressesWellFormed(m: map<string, Value>) {
    forall k :: k in m && k in AddressFields ==> NoNullElement(m[k])
  }

  // ---------------------------------------------------------------------
  // Lemmas about the stage

  /** An array whose every element qualifies (a string, or an object with an
      address) yields exactly one string per element, in input order. */
  lemma {:induction false} QualifyingElementsInOrder(items: seq<Value>)
    requires forall i :: 0 <= i < |items| ==> items[i].Str? || HasAddress(items[i])
    ensures |ElementsStrings(items)| == |items|
    ensures forall i :: 0 <= i < |items| ==> ElementsStrings(items)[i] == ElementStrings(items[i])[0]
    decreases |items|
  {
    if |items| > 0 {
      var init := items[..|items| - 1];
      QualifyingElementsInOrder(init);
    }
  }

  /** The strings emitted for two arrays placed one after the other are the
      strings of the first followed by those of the second. */
  lemma {:induction false} ElementsStringsAppend(a: seq<Value>, b: seq<Value>)
    ensures ElementsStrings(a + b) == ElementsStrings(a) + ElementsStrings(b)
    decreases |b|
  {
    if |b| == 0 {
      assert a + b == a;
    } else {
      var init := b[..|b| - 1];
      ElementsStringsAppend(a, init);
      LastOfConcat(a, b);
    }
  }

  /** Dropping the last element of `a + b`, for a non-empty `b`. */
  lemma LastOfConcat<T>(a: seq<T>, b: seq<T>)
    requires |b| > 0
    ensures (a + b)[..|a + b| - 1] == a + b[..|b| - 1]
    ensures (a + b)[|a + b| - 1] == b[|b| - 1]
  {
    assert (a + b)[..|a + b| - 1] == a + b[..|b| - 1];
  }

  /** Elements that do not qualify are dropped wherever they sit: removing
      one from an address array leaves the emitted strings unchanged. */
  lemma NonQualifyingElementDropped(a: seq<Value>, e: Value, b: seq<Value>)
    requires e != Null && !e.Str? && !HasAddress(e)
    ensures ElementsStrings(a + [e] + b) == ElementsStrings(a + b)
  {
    ElementsStringsAppend(a + [e], b);
    ElementsStringsAppend(a, b);
    assert (a + [e])[..|a|] == a;
  }

  /** An address array of strings and addressed records, none of which holds
      a comma, becomes a string that a reader splitting at commas turns back
      into the formatted entries, one per element, in order. */
  lemma ArrayFieldRoundTrip(items: seq<Value>)
    requires |items| >= 1
    requires forall i :: 0 <= i < |items| ==> items[i].Str? || HasAddress(items[i])
    requires forall i :: 0 <= i < |items| ==> forall p :: p in ElementStrings(items[i]) ==> ',' !in p
    ensures ConvertField(Arr(items)).Str?
    ensures var parts := Split(ConvertField(Arr(items)).s);
      |parts| == |items| &&
      forall i :: 0 <= i < |items| ==> parts[i] == ElementStrings(items[i])[0]
  {
    QualifyingElementsInOrder(items);
    var parts := ElementsStrings(items);
    forall i | 0 <= i < |parts| ensures ',' !in parts[i] {
      assert parts[i] == ElementStrings(items[i])[0];
    }
    JoinSplitRoundTrip(parts);
  }

  /** Running the stage on its own output changes nothing: every converted
      field is a string, and strings are left alone. */
  lemma ConvertAddressesIdempotent(m: map<string, Value>)
    ensures ConvertedAddresses(ConvertedAddresses(m)) == ConvertedAddresses(m)
  {
  }

  // ---------------------------------------------------------------------
  // The stage as the source runs it

  /** Lines 76-84: the elements of an address array pushed in order. */
  method PushElements(targets: seq<string>, items: seq<Value>) returns (pushed: seq<string>)
    requires forall i :: 0 <= i < |items| ==> items[i] != Null
    ensures pushed == targets + ElementsStrings(items)
  {
    pushed := targets;
    for j := 0 to |items|
      invariant pushed == targets + ElementsStrings(items[..j])
    {
      var sendTo := items[j];
      assert items[..j + 1][..j] == items[..j];
      if TypeofObject(sendTo) && HasAddress(sendTo) {
        pushed := pushed + [FormatMailbox(sendTo.name, sendTo.address)];
      } else if sendTo.Str? {
        pushed := pushed + [sendTo.s];
      }
    }
    assert items[..|items|] == items;
  }

  /** The callback of lines 75-89 for one entry of the wrapped list: an array
      has its elements pushed, an object its formatted address. */
  method PushEntry(targets: seq<string>, entry: Value) returns (pushed: seq<string>)
    requires NoNullElement(entry)
    ensures pushed == targets + EntryStrings(entry)
  {
    if entry.Arr? {
      pushed := PushElements(targets, entry.items);
    } else if HasAddress(entry) {
      pushed := targets + [FormatMailbox(entry.name, entry.address)];
    } else {
      pushed := targets;
    }
  }

  /** Lines 72-89: wrap the field value in a one-element list (arrays are
      objects too, so the source wraps every value) and push what each entry
      emits. */
  method CollectTargets(v: Value) returns (targets: seq<string>)
    requires v != Null && (TypeofObject(v) || v.Arr?)
    requires NoNullElement(v)
    ensures targets == EntryStrings(v)
  {
    targets := [];
    var list := [v];
    for i := 0 to |list|
      invariant targets == EntriesStrings(list[..i])
    {
      assert list[..i + 1][..i] == list[..i];
      targets := PushEntry(targets, list[i]);
    }
    assert list[..|list|] == list;
    assert list[..0] == [];
  }

  /** Lines 66-96: rewrite the five address fields of the dictionary in place. */
  method ConvertAddressesToStrings(mail: MailData)
    requires AddressesWellFormed(mail.fields)
    modifies mail
    ensures mail.fields == ConvertedAddresses(old(mail.fields))
  {
    ghost var m := mail.fields;
    for i := 0 to |AddressFields|
      invariant mail.fields.Keys == m.Keys
      invariant forall k :: k in m ==>
        mail.fields[k] == if k in AddressFields[..i] then ConvertField(m[k]) else m[k]
    {
      var target := AddressFields[i];
      assert AddressFields[..i + 1] == AddressFields[..i] + [target];
      var value := Lookup(mail.fields, target);
      if value != Null && (TypeofObject(value) || value.Arr?) {
        assert target in m && target !in AddressFields[..i];
        var targets := CollectTargets(value);
        mail.fields := mail.fields[target := Str(Join(targets))];
      }
    }
    assert AddressFields[..|AddressFields|] == AddressFields;
  }
}
