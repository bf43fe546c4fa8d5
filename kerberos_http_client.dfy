/**
 * The decision logic of KerberosHttpClient.java: the JAAS configuration the
 * client logs in with (ticket cache or keytab), and the rule that only a
 * response with status 200 yields a body. The login itself, running the
 * request as the logged-in subject and the HTTP transport are not modelled.
 */
module KerberosHttpClient {
  import opened Wrappers
  import opened JavaStrings

  /** `AppConfigurationEntry.LoginModuleControlFlag`. */
  datatype ControlFlag = Required | Requisite | Sufficient | Optional

  /** One entry of a JAAS configuration: a login module, its flag and its options. */
  datatype AppConfigurationEntry = AppConfigurationEntry(
    loginModuleName: string,
    controlFlag: ControlFlag,
    options: map<string, string>)

  const Krb5LoginModule: string := "com.sun.security.auth.module.Krb5LoginModule"

  /** The option keys the ticket-cache login sets. */
  const TicketCacheKeys: set<string> := {"useTicketCache", "doNotPrompt", "isInitiator"}

  /** The option keys the keytab login sets. */
  const KeyTabKeys: set<string> := {"useKeyTab", "keyTab", "principal", "storeKey", "doNotPrompt", "isInitiator"}

  /**
   * `ClientLoginConfig`: the keytab location, the user principal and extra
   * login options, each possibly null; the fields are final.
   */
  datatype ClientLoginConfig = ClientLoginConfig(
    keyTabLocation: Option<string>,
    userPrincipal: Option<string>,
    loginOptions: Option<map<string, string>>)
  {
    /** Keytab login is chosen only when both the location and the principal have text. */
    predicate UsesKeyTab() {
      HasText(keyTabLocation) && HasText(userPrincipal)
    }

    /**
     * The options computed before the caller's are merged: ticket-cache or
     * keytab login, never prompting, as initiator.
     */
    function LoginOptions(): map<string, string> {
      var computed :=
        if UsesKeyTab() then
          map["useKeyTab" := "true", "keyTab" := keyTabLocation.value,
              "principal" := userPrincipal.value, "storeKey" := "true"]
        else
          map["useTicketCache" := "true"];
      computed["doNotPrompt" := "true"]["isInitiator" := "true"]
    }

    /** The caller's options; a null map contributes none. */
    function CallerOptions(): map<string, string> {
      loginOptions.GetOr(map[])
    }

    /**
     * `getAppConfigurationEntry`: one Krb5LoginModule entry, REQUIRED, whose
     * options select ticket-cache or keytab login, never prompt, act as
     * initiator, and are then overridden by the caller's options. The
     * requested configuration name plays no part.
     */
    method GetAppConfigurationEntry(name: string) returns (entries: seq<AppConfigurationEntry>)
      ensures |entries| == 1
      ensures entries[0].loginModuleName == Krb5LoginModule && entries[0].controlFlag == Required
      ensures entries[0].options == LoginOptions() + CallerOptions()
      ensures entries[0].options.Keys == CallerOptions().Keys + (if UsesKeyTab() then KeyTabKeys else TicketCacheKeys)
      ensures forall k :: k in CallerOptions() ==> entries[0].options[k] == CallerOptions()[k]
      ensures "doNotPrompt" !in CallerOptions() ==> entries[0].options["doNotPrompt"] == "true"
      ensures "isInitiator" !in CallerOptions() ==> entries[0].options["isInitiator"] == "true"
      ensures !UsesKeyTab() && "useTicketCache" !in CallerOptions() ==> entries[0].options["useTicketCache"] == "true"
      ensures UsesKeyTab() ==>
        && ("useKeyTab" !in CallerOptions() ==> entries[0].options["useKeyTab"] == "true")
        && ("keyTab" !in CallerOptions() ==> entries[0].options["keyTab"] == keyTabLocation.value)
        && ("principal" !in CallerOptions() ==> entries[0].options["principal"] == userPrincipal.value)
        && ("storeKey" !in CallerOptions() ==> entries[0].options["storeKey"] == "true")
    {
      var options: map<string, string> := map[];
      if !HasText(keyTabLocation) || !HasText(userPrincipal) {
        options := options["useTicketCache" := "true"];
      } else {
        options := options["useKeyTab" := "true"];
        options := options["keyTab" := keyTabLocation.value];
        options := options["principal" := userPrincipal.value];
        options := options["storeKey" := "true"];
      }
      options := options["doNotPrompt" := "true"];
      options := options["isInitiator" := "true"];
      if loginOptions.Some? {
        options := options + loginOptions.value;
      }
      entries := [AppConfigurationEntry(Krb5LoginModule, Required, options)];
    }
  }

  /**
   * The computed options hold the keytab settings exactly when neither the
   * location nor the principal is null, empty or only whitespace, and the
   * ticket-cache setting otherwise, never both; a partial configuration
   * always falls back to the ticket cache. Prompting is always off and the
   * client always acts as initiator.
   */
  lemma LoginOptionsChoice(config: ClientLoginConfig)
    ensures var opts := config.LoginOptions();
      && (("useKeyTab" in opts && "keyTab" in opts && "principal" in opts && "storeKey" in opts) <==>
          && config.keyTabLocation.Some? && !OnlyWhitespace(config.keyTabLocation.value)
          && config.userPrincipal.Some? && !OnlyWhitespace(config.userPrincipal.value))
      && ("useTicketCache" in opts <==> "useKeyTab" !in opts)
      && ("useKeyTab" in opts ==>
            && opts["useKeyTab"] == "true" && opts["storeKey"] == "true"
            && opts["keyTab"] == config.keyTabLocation.value
            && opts["principal"] == config.userPrincipal.value)
      && ("useTicketCache" in opts ==>
            && opts["useTicketCache"] == "true"
            && "keyTab" !in opts && "principal" !in opts && "storeKey" !in opts)
      && "doNotPrompt" in opts && opts["doNotPrompt"] == "true"
      && "isInitiator" in opts && opts["isInitiator"] == "true"
  {
  }

  predicate OnlyWhitespace(s: string) {
    forall i :: 0 <= i < |s| ==> IsJavaWhitespace(s[i])
  }

  // ---------------------------------------------------------------------
  // executeRequest: accepting the response
  // ---------------------------------------------------------------------

  /** The parts of an HTTP response the client looks at. */
  datatype Response = Response(statusCode: int, reasonPhrase: string, body: string)

  /** The RuntimeException raised for a response whose status is not 200. */
  datatype RequestError = RequestFailed(url: string, statusCode: int, reasonPhrase: string) {
    /** The exception's message. */
    function Message(): string {
      "Error in request to " + url + ", status is " + DecimalString(statusCode) + ", reason " + reasonPhrase
    }
  }

  /** The status test in `executeRequest`: status 200 yields the body, anything else an error naming the request. */
  function ExecuteRequest(url: string, response: Response): (r: Result<string, RequestError>)
    ensures r.Success? <==> response.statusCode == 200
    ensures r.Success? ==> r.value == response.body
    ensures r.Failure? ==>
      r.error.url == url && r.error.statusCode == response.statusCode && r.error.reasonPhrase == response.reasonPhrase
  {
    if response.statusCode != 200 then
      Failure(RequestFailed(url, response.statusCode, response.reasonPhrase))
    else
      Success(response.body)
  }

  /**
   * The message names the URL, then the status code, then the reason
   * phrase; the status code can be read back from it.
   */
  lemma MessageCarriesStatus(e: RequestError)
    ensures var prefix := "Error in request to " + e.url + ", status is ";
            var suffix := ", reason " + e.reasonPhrase;
            && |prefix| + |suffix| < |e.Message()|
            && e.Message()[..|prefix|] == prefix
            && e.Message()[|e.Message()| - |suffix|..] == suffix
            && ParseDecimal(e.Message()[|prefix|..|e.Message()| - |suffix|]) == e.statusCode
  {
    var prefix := "Error in request to " + e.url + ", status is ";
    var suffix := ", reason " + e.reasonPhrase;
    var digits := DecimalString(e.statusCode);
    assert e.Message() == prefix + digits + suffix;
    assert e.Message()[|prefix|..|e.Message()| - |suffix|] == digits;
    DecimalStringRoundTrip(e.statusCode);
  }
}
