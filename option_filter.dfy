/** The fourth stage of the transport: only the keys the provider accepts
    are passed on, every one with its value untouched. */
module OptionFilter {
  import opened Values

  /** The exact option names the provider accepts. */
  const WhitelistExact: seq<string> := [
    "from", "to", "cc", "bcc", "subject", "text", "html", "attachment", "inline",
    "recipient-variables", "o:tag", "o:campaign", "o:dkim", "o:deliverytime",
    "o:testmode", "o:tracking", "o:tracking-clicks", "o:tracking-opens",
    "o:require-tls", "o:skip-verification", "X-Mailgun-Variables"
  ]

  /** The accepted prefixes: custom headers and custom variables. */
  const WhitelistPrefix: seq<string> := ["h:", "v:"]

  /** `list.find(x => x === key)`: the first entry equal to the key. */
  function FindExact(list: seq<string>, key: string): (r: Option<string>)
    ensures r.Some? <==> key in list
    ensures r.Some? ==> r.value == key
  {
    if |list| == 0 then None
    else if list[0] == key then Some(list[0])
    else FindExact(list[1..], key)
  }

  /** `list.find(p => key.startsWith(p))`: the first entry the key starts with. */
  function FindPrefix(list: seq<string>, key: string): (r: Option<string>)
    ensures r.Some? <==> exists i :: 0 <= i < |list| && list[i] <= key
    ensures r.Some? ==> r.value in list && r.value <= key
  {
    if |list| == 0 then None
    else if list[0] <= key then Some(list[0])
    else
      var r := FindPrefix(list[1..], key);
      assert forall i :: 1 <= i < |list| ==> list[i] == list[1..][i - 1];
      r
  }

  /** The found entry as the filter's condition sees it: a truthy string. */
  predicate Found(o: Option<string>) {
    o.Some? && o.value != ""
  }

  /** The condition of the filter on line 166, as the source computes it. */
  predicate KeepKey(key: string) {
    Found(FindExact(WhitelistExact, key)) || Found(FindPrefix(WhitelistPrefix, key))
  }

  /** The accepted keys, stated directly: an exact name, or a key that
      starts with one of the prefixes. */
  predicate Allowed(key: string) {
    key in WhitelistExact || exists i :: 0 <= i < |WhitelistPrefix| && WhitelistPrefix[i] <= key
  }

  /** No entry of either list is the empty string, so a found entry is truthy. */
  lemma NoEmptyEntry()
    ensures "" !in WhitelistExact && "" !in WhitelistPrefix
  {
  }

  /** The `find` calls of line 166 accept exactly the allowed keys. */
  lemma KeepKeyIff(key: string)
    ensures KeepKey(key) <==> Allowed(key)
  {
    NoEmptyEntry();
  }

  /** Lines 165-170: the option bag handed to the provider's client holds the
      allowed keys of the dictionary and nothing else, each with its value. */
  function FilterOptions(m: map<string, Value>): (r: map<string, Value>)
    ensures forall k :: k in r <==> k in m && Allowed(k)
    ensures forall k :: k in r ==> r[k] == m[k]
  {
    var r := map k | k in m && KeepKey(k) :: m[k];
    assert forall k :: KeepKey(k) <==> Allowed(k) by {
      forall k ensures KeepKey(k) <==> Allowed(k) {
        KeepKeyIff(k);
      }
    }
    r
  }

  /** The nodemailer names the earlier stages may leave behind are not
      accepted: a raw header map, a falsy reply-to and a falsy attachment
      list never reach the provider. */
  lemma NodemailerKeyNotAllowed(k: string)
    requires k == "headers" || k == "replyTo" || k == "attachments"
    ensures !Allowed(k)
  {
    assert k !in WhitelistExact;
    assert k[0] != WhitelistPrefix[0][0] || k[1] != WhitelistPrefix[0][1];
    assert k[0] != WhitelistPrefix[1][0];
  }

  /** The provider's reply-to header and both attachment lists are accepted. */
  lemma ProviderKeysAllowed()
    ensures Allowed("h:Reply-To") && Allowed("attachment") && Allowed("inline")
  {
    assert WhitelistPrefix[0] <= "h:Reply-To";
    assert WhitelistExact[7] == "attachment" && WhitelistExact[8] == "inline";
  }
}
