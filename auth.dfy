/** The API-key check in front of `/extract`. */
module Auth {
  import opened Wrappers
  import opened Strings

  const BearerPrefix := "Bearer "

  /** Let the request through, or answer it with a status and an error text. */
  datatype Decision = Pass | Deny(status: nat, error: string)

  /** `SERVICE_API_KEY || API_KEY || ""` over the two environment variables. */
  function ConfiguredKey(serviceApiKey: Option<string>, apiKey: Option<string>): (key: string)
    ensures serviceApiKey.Some? && serviceApiKey.value != "" ==> key == serviceApiKey.value
    ensures (serviceApiKey.None? || serviceApiKey.value == "") ==> key == apiKey.GetOr("")
  {
    if serviceApiKey.Some? && serviceApiKey.value != "" then serviceApiKey.value
    else apiKey.GetOr("")
  }

  /** `requireApiKey`, given the configured key and the `authorization` header (header
      names are matched case-insensitively, so both lookups read the same header). */
  function RequireApiKey(serverKey: string, header: Option<string>): (d: Decision)
    ensures d.Deny? ==> d.status in {401, 403, 500}
  {
    if serverKey == "" then Deny(500, "server misconfigured")
    else if header.None? || header.value == "" || !HasPrefix(header.value, BearerPrefix) then
      Deny(401, "missing auth")
    else if header.value[|BearerPrefix|..] != serverKey then Deny(403, "invalid api key")
    else Pass
  }

  /** Without a configured key every request is refused with 500, whatever it carries. */
  lemma MisconfiguredRefusesAll(header: Option<string>)
    ensures RequireApiKey("", header) == Deny(500, "server misconfigured")
  {
  }

  /** 401 exactly when a key is configured and the header is absent or lacks the
      `Bearer ` prefix. */
  lemma MissingAuthIff(serverKey: string, header: Option<string>)
    ensures RequireApiKey(serverKey, header).Deny? && RequireApiKey(serverKey, header).status == 401 <==>
            serverKey != "" && (header.None? || !HasPrefix(header.value, BearerPrefix))
  {
  }

  /** 403 exactly when the header has the prefix and the token after the seven characters
      of `Bearer ` differs from the key. */
  lemma WrongKeyIff(serverKey: string, header: Option<string>)
    ensures RequireApiKey(serverKey, header) == Deny(403, "invalid api key") <==>
            serverKey != "" && header.Some? && HasPrefix(header.value, BearerPrefix) &&
            header.value[7..] != serverKey
  {
  }

  /** The request passes exactly when a key is configured and the header is `Bearer `
      followed by that key. */
  lemma PassIff(serverKey: string, header: Option<string>)
    ensures RequireApiKey(serverKey, header) == Pass <==>
            serverKey != "" && header == Some(BearerPrefix + serverKey)
  {
    if serverKey != "" && header == Some(BearerPrefix + serverKey) {
      var h := header.value;
      assert h[..|BearerPrefix|] == BearerPrefix;
      assert h[|BearerPrefix|..] == serverKey;
    }
    if RequireApiKey(serverKey, header) == Pass {
      var h := header.value;
      assert h == h[..|BearerPrefix|] + h[|BearerPrefix|..];
    }
  }
}
