/**
 * The SPNEGO authentication scheme that the HTTP client asks for a token on
 * every authentication challenge (CustomSPNegoScheme.java). The scheme
 * derives the name of the target service from its configured principal,
 * its name strategy and the host the transport is talking to; it then asks
 * the GSS layer for a security context on that name and feeds it the
 * server's challenge. The GSS layer itself is not modelled: the model stops
 * at the request the scheme makes of it.
 */
module SpnegoScheme {
  import opened Wrappers
  import opened JavaStrings

  /** The configured strategy (the `ServiceNameSource` enum). */
  datatype ServiceNameSource = HostBased | UserBased

  /** The GSS name form the name is created with. */
  datatype NameType =
    | HostBasedService  // GSSName.NT_HOSTBASED_SERVICE
    | UserName          // GSSName.NT_USER_NAME

  /** The arguments of `GSSManager.createName`. */
  datatype GssName = GssName(nameStr: string, nameType: NameType)

  /** The runtime exceptions name derivation can throw. */
  datatype NameError =
    | NullPrincipal                                    // NullPointerException at spnPrincipal.split
    | NullServiceNameSource                            // NullPointerException dereferencing a null strategy
    | IndexOutOfBounds(index: nat, length: nat)        // ArrayIndexOutOfBoundsException

  /** The two fields of a scheme object; both may be null, neither changes after construction. */
  datatype SchemeConfig = SchemeConfig(spnPrincipal: Option<string>, serviceNameSource: Option<ServiceNameSource>)

  /** The service prefix used when nothing is configured. */
  const DefaultPrefix: string := "HTTP"

  /** `generateGSSName`: the name to create for `authServer`, with `createName` abstracted away. */
  function GenerateGssName(config: SchemeConfig, authServer: string): (r: Result<GssName, NameError>)
    ensures r.Success? && r.value.nameType == UserName ==> config.serviceNameSource == Some(UserBased)
    ensures r.Success? && config.spnPrincipal.Some? ==> config.serviceNameSource.Some?
  {
    if config.spnPrincipal.None? && config.serviceNameSource.None? then
      Success(GssName(DefaultPrefix + "@" + authServer, HostBasedService))
    else if config.spnPrincipal.None? then
      Failure(NullPrincipal)
    else
      var spnPrincipalParts := Split(config.spnPrincipal.value, '@');
      if |spnPrincipalParts| < 1 then Failure(IndexOutOfBounds(0, |spnPrincipalParts|))
      else
        var prefixAndUser := spnPrincipalParts[0];
        var prefixAndHostOrUserParts := Split(prefixAndUser, '/');
        if |prefixAndHostOrUserParts| < 1 then Failure(IndexOutOfBounds(0, |prefixAndHostOrUserParts|))
        else if |prefixAndHostOrUserParts| < 2 then Failure(IndexOutOfBounds(1, |prefixAndHostOrUserParts|))
        else
          var prefix := prefixAndHostOrUserParts[0];
          var hostOrUser := prefixAndHostOrUserParts[1];
          match config.serviceNameSource
          case None => Failure(NullServiceNameSource)
          case Some(HostBased) => Success(GssName(prefix + "@" + authServer, HostBasedService))
          case Some(UserBased) => Success(GssName(prefix + "@" + hostOrUser, UserName))
  }

  // ---------------------------------------------------------------------
  // The principal's parts, defined by first occurrences
  // ---------------------------------------------------------------------

  /** The part of the principal before its first '@' ("HTTP/web.example.com" in "HTTP/web.example.com@EXAMPLE.COM"). */
  function PrefixAndUser(principal: string): string {
    BeforeFirst(principal, '@')
  }

  /** The service prefix: the text before the first '/' of the part before '@'. */
  function ServicePrefix(principal: string): string {
    BeforeFirst(PrefixAndUser(principal), '/')
  }

  /**
   * The part before '@' has a '/' with some character other than '/' after
   * it, so that the split on '/' has an element 1.
   */
  predicate HasHostOrUser(principal: string) {
    var p := PrefixAndUser(principal);
    '/' in p && !OnlySeparators(AfterFirst(p, '/'), '/')
  }

  /** The host-or-user part: the text between the first '/' and the next '/' of the part before '@'. */
  function HostOrUser(principal: string): string
    requires HasHostOrUser(principal)
  {
    BeforeFirst(AfterFirst(PrefixAndUser(principal), '/'), '/')
  }

  /** The splits the Java code performs, described by first occurrences. */
  lemma PrincipalSplits(principal: string)
    ensures |Split(principal, '@')| >= 1 ==> Split(principal, '@')[0] == PrefixAndUser(principal)
    ensures |Split(principal, '@')| >= 1 ==>
      var parts := Split(PrefixAndUser(principal), '/');
      && (|parts| >= 2 <==> HasHostOrUser(principal))
      && (|parts| >= 1 ==> parts[0] == ServicePrefix(principal))
      && (|parts| >= 2 ==> parts[1] == HostOrUser(principal))
    ensures |Split(principal, '@')| == 0 ==> !HasHostOrUser(principal)
  {
    SplitIsEmpty(principal, '@');
    if |Split(principal, '@')| >= 1 {
      SplitFirst(principal, '@');
      var p := PrefixAndUser(principal);
      SplitSecond(p, '/');
      if |Split(p, '/')| >= 1 {
        SplitFirst(p, '/');
      }
    } else {
      assert principal[0] == '@';
      assert PrefixAndUser(principal) == [];
    }
  }

  // ---------------------------------------------------------------------
  // Properties of name derivation
  // ---------------------------------------------------------------------

  /** Nothing configured: the default host-based name "HTTP@" + authServer. */
  lemma DefaultServiceName(authServer: string)
    ensures GenerateGssName(SchemeConfig(None, None), authServer)
         == Success(GssName("HTTP@" + authServer, HostBasedService))
  {
    assert DefaultPrefix + "@" + authServer == "HTTP@" + authServer;
  }

  /** HOST_BASED: the prefix of the principal at the transport's host, as a host-based service name. */
  lemma HostBasedServiceName(principal: string, authServer: string)
    requires HasHostOrUser(principal)
    ensures GenerateGssName(SchemeConfig(Some(principal), Some(HostBased)), authServer)
         == Success(GssName(ServicePrefix(principal) + "@" + authServer, HostBasedService))
  {
    PrincipalSplits(principal);
  }

  /** USER_BASED: the prefix of the principal at its second '/'-segment, as a user name. */
  lemma UserBasedServiceName(principal: string, authServer: string)
    requires HasHostOrUser(principal)
    ensures GenerateGssName(SchemeConfig(Some(principal), Some(UserBased)), authServer)
         == Success(GssName(ServicePrefix(principal) + "@" + HostOrUser(principal), UserName))
  {
    PrincipalSplits(principal);
  }

  /**
   * Derivation succeeds exactly when nothing is configured, or both fields
   * are set and the principal has a host-or-user part.
   */
  lemma GenerateGssNameSucceeds(config: SchemeConfig, authServer: string)
    ensures GenerateGssName(config, authServer).Success? <==>
      || (config.spnPrincipal.None? && config.serviceNameSource.None?)
      || (config.spnPrincipal.Some? && config.serviceNameSource.Some? && HasHostOrUser(config.spnPrincipal.value))
  {
    if config.spnPrincipal.Some? {
      PrincipalSplits(config.spnPrincipal.value);
    }
  }

  /**
   * A principal without a host-or-user part ("HTTP@R", "HTTP/@R", "@", "/@R")
   * makes the array indexing throw, whatever the strategy.
   */
  lemma MalformedPrincipalFails(principal: string, source: Option<ServiceNameSource>, authServer: string)
    requires !HasHostOrUser(principal)
    ensures GenerateGssName(SchemeConfig(Some(principal), source), authServer).Failure?
    ensures GenerateGssName(SchemeConfig(Some(principal), source), authServer).error.IndexOutOfBounds?
  {
    PrincipalSplits(principal);
  }

  /** Exactly one of the two fields set: derivation throws. */
  lemma HalfConfiguredFails(config: SchemeConfig, authServer: string)
    requires config.spnPrincipal.Some? != config.serviceNameSource.Some?
    ensures GenerateGssName(config, authServer).Failure?
    ensures config.spnPrincipal.None? ==> GenerateGssName(config, authServer).error == NullPrincipal
    ensures config.spnPrincipal.Some? && HasHostOrUser(config.spnPrincipal.value) ==>
      GenerateGssName(config, authServer).error == NullServiceNameSource
  {
    if config.spnPrincipal.Some? {
      PrincipalSplits(config.spnPrincipal.value);
    }
  }

  /**
   * The realm never shows in the name: two principals that agree before
   * their first '@' both fail, or give the same name.
   */
  lemma RealmIsIgnored(p1: string, p2: string, source: Option<ServiceNameSource>, authServer: string)
    requires PrefixAndUser(p1) == PrefixAndUser(p2)
    ensures GenerateGssName(SchemeConfig(Some(p1), source), authServer).Success?
        ==  GenerateGssName(SchemeConfig(Some(p2), source), authServer).Success?
    ensures GenerateGssName(SchemeConfig(Some(p1), source), authServer).Success? ==>
              (GenerateGssName(SchemeConfig(Some(p1), source), authServer)
               == GenerateGssName(SchemeConfig(Some(p2), source), authServer))
  {
    PrincipalSplits(p1);
    PrincipalSplits(p2);
  }

  /** A principal written "prefix/hostOrUser@realm" has exactly those parts. */
  lemma PrincipalParts(prefix: string, hostOrUser: string, realm: string)
    requires '/' !in prefix && '@' !in prefix
    requires hostOrUser != [] && '/' !in hostOrUser && '@' !in hostOrUser
    ensures var principal := prefix + "/" + hostOrUser + "@" + realm;
      && PrefixAndUser(principal) == prefix + "/" + hostOrUser
      && HasHostOrUser(principal)
      && ServicePrefix(principal) == prefix
      && HostOrUser(principal) == hostOrUser
  {
    var user := prefix + "/" + hostOrUser;
    var principal := prefix + "/" + hostOrUser + "@" + realm;
    assert principal == user + "@" + realm;
    Locate(principal, '@', user, realm);
    Locate(user, '/', prefix, hostOrUser);
    assert hostOrUser[0] != '/';
  }

  /** Extra '/'-segments after the host-or-user part are ignored. */
  lemma FurtherSegmentsIgnored(prefix: string, hostOrUser: string, more: string, realm: string,
                               source: ServiceNameSource, authServer: string)
    requires '/' !in prefix && '@' !in prefix
    requires hostOrUser != [] && '/' !in hostOrUser && '@' !in hostOrUser && '@' !in more
    ensures GenerateGssName(SchemeConfig(Some(prefix + "/" + hostOrUser + "/" + more + "@" + realm), Some(source)), authServer)
         == GenerateGssName(SchemeConfig(Some(prefix + "/" + hostOrUser + "@" + realm), Some(source)), authServer)
  {
    var tail := hostOrUser + "/" + more;
    var longUser := prefix + "/" + tail;
    var shortUser := prefix + "/" + hostOrUser;
    var long := longUser + "@" + realm;
    var short := shortUser + "@" + realm;
    assert long == prefix + "/" + hostOrUser + "/" + more + "@" + realm;
    assert short == prefix + "/" + hostOrUser + "@" + realm;
    Locate(long, '@', longUser, realm);
    Locate(short, '@', shortUser, realm);
    Locate(longUser, '/', prefix, tail);
    Locate(shortUser, '/', prefix, hostOrUser);
    Locate(tail, '/', hostOrUser, more);
    assert tail[0] == hostOrUser[0] != '/';
    assert hostOrUser[0] != '/';
    assert HasHostOrUser(long) && HasHostOrUser(short);
    assert HostOrUser(long) == hostOrUser;
    assert HostOrUser(short) == hostOrUser by {
      assert '/' !in hostOrUser;
    }
    if source == HostBased {
      HostBasedServiceName(long, authServer);
      HostBasedServiceName(short, authServer);
    } else {
      UserBasedServiceName(long, authServer);
      UserBasedServiceName(short, authServer);
    }
  }

  /** Where the first separator of `a + [c] + b` is when `a` has none. */
  lemma Locate(s: string, c: char, a: string, b: string)
    requires s == a + [c] + b && c !in a
    ensures c in s && FirstIndex(s, c) == |a|
    ensures BeforeFirst(s, c) == a && AfterFirst(s, c) == b
  {
    assert s[|a|] == c;
  }

  // ---------------------------------------------------------------------
  // generateGSSToken: what is handed to the GSS layer
  // ---------------------------------------------------------------------

  /** A Java byte. */
  newtype Byte = b: int | -128 <= b < 128

  /** A GSS credential handle, opaque to the client. */
  datatype GssCredential = GssCredential(handle: nat)

  /** The credentials the transport passes in: Kerberos ones carry a GSS credential. */
  datatype Credentials = KerberosCredentials(gssCredential: GssCredential) | OtherCredentials

  /**
   * What `generateGSSToken` asks of the GSS layer: a context for `target`
   * with `credential` (null when absent), mutual authentication and
   * credential delegation requested, then `initSecContext(input, offset, length)`.
   */
  datatype ContextRequest = ContextRequest(
    target: GssName,
    credential: Option<GssCredential>,
    requestMutualAuth: bool,
    requestCredDeleg: bool,
    input: seq<Byte>,
    offset: nat,
    length: nat)

  /** The challenge handed to `initSecContext`: a null challenge becomes an empty buffer. */
  function InputBuffer(challenge: Option<seq<Byte>>): seq<Byte> {
    match challenge
    case None => []
    case Some(bytes) => bytes
  }

  /** `generateGSSToken` up to the call into the GSS layer. */
  function TokenRequest(config: SchemeConfig, challenge: Option<seq<Byte>>, authServer: string,
                        credentials: Credentials): (r: Result<ContextRequest, NameError>)
    ensures r.Success? <==> GenerateGssName(config, authServer).Success?
    ensures r.Failure? ==> r.error == GenerateGssName(config, authServer).error
    ensures r.Success? ==>
      && r.value.target == GenerateGssName(config, authServer).value
      && r.value.requestMutualAuth && r.value.requestCredDeleg
      && r.value.input == challenge.GetOr([])
      && r.value.offset == 0 && r.value.length == |r.value.input|
      && r.value.credential == (if credentials.KerberosCredentials? then Some(credentials.gssCredential) else None)
  {
    var inputBuff := InputBuffer(challenge);
    match GenerateGssName(config, authServer)
    case Failure(e) => Failure(e)
    case Success(gssName) =>
      var gssCredential := if credentials.KerberosCredentials? then Some(credentials.gssCredential) else None;
      Success(ContextRequest(gssName, gssCredential, true, true, inputBuff, 0, |inputBuff|))
  }

  /** No challenge yet and an empty challenge produce the same request. */
  lemma NullChallengeIsEmpty(config: SchemeConfig, authServer: string, credentials: Credentials)
    ensures TokenRequest(config, None, authServer, credentials)
         == TokenRequest(config, Some([]), authServer, credentials)
  {
  }

  // ---------------------------------------------------------------------
  // Worked cases
  // ---------------------------------------------------------------------

  /** USER_BASED on "prefix/hostOrUser@realm" names "prefix@hostOrUser", whatever the realm. */
  lemma UserBasedFromParts(prefix: string, hostOrUser: string, realm: string, authServer: string)
    requires '/' !in prefix && '@' !in prefix
    requires hostOrUser != [] && '/' !in hostOrUser && '@' !in hostOrUser
    ensures GenerateGssName(SchemeConfig(Some(prefix + "/" + hostOrUser + "@" + realm), Some(UserBased)), authServer)
         == Success(GssName(prefix + "@" + hostOrUser, UserName))
  {
    PrincipalParts(prefix, hostOrUser, realm);
    UserBasedServiceName(prefix + "/" + hostOrUser + "@" + realm, authServer);
  }

  /** HOST_BASED on "prefix/hostOrUser@realm" names "prefix@" + authServer. */
  lemma HostBasedFromParts(prefix: string, hostOrUser: string, realm: string, authServer: string)
    requires '/' !in prefix && '@' !in prefix
    requires hostOrUser != [] && '/' !in hostOrUser && '@' !in hostOrUser
    ensures GenerateGssName(SchemeConfig(Some(prefix + "/" + hostOrUser + "@" + realm), Some(HostBased)), authServer)
         == Success(GssName(prefix + "@" + authServer, HostBasedService))
  {
    PrincipalParts(prefix, hostOrUser, realm);
    HostBasedServiceName(prefix + "/" + hostOrUser + "@" + realm, authServer);
  }

  /** "HTTP/custom@REALM", host-based, at h.example.com: "HTTP@h.example.com". */
  lemma HostBasedExample()
    ensures GenerateGssName(SchemeConfig(Some("HTTP" + "/" + "custom" + "@" + "REALM"), Some(HostBased)), "h.example.com")
         == Success(GssName("HTTP" + "@" + "h.example.com", HostBasedService))
  {
    HostBasedFromParts("HTTP", "custom", "REALM", "h.example.com");
  }

  /** "svc/alice@REALM", user-based: "svc@alice", the second segment and not the realm. */
  lemma UserBasedExample()
    ensures GenerateGssName(SchemeConfig(Some("svc" + "/" + "alice" + "@" + "REALM"), Some(UserBased)), "h.example.com")
         == Success(GssName("svc" + "@" + "alice", UserName))
  {
    UserBasedFromParts("svc", "alice", "REALM", "h.example.com");
  }

  /** "HTTP/@" + realm: nothing after the '/', so derivation throws. */
  lemma EmptyHostOrUserExample(realm: string, source: Option<ServiceNameSource>, authServer: string)
    ensures GenerateGssName(SchemeConfig(Some("HTTP/@" + realm), source), authServer).Failure?
  {
    assert "HTTP/@" + realm == "HTTP/" + "@" + realm;
    Locate("HTTP/@" + realm, '@', "HTTP/", realm);
    Locate("HTTP/", '/', "HTTP", "");
    MalformedPrincipalFails("HTTP/@" + realm, source, authServer);
  }

  /** "alice@" + realm: no '/' before the '@', so derivation throws. */
  lemma NoSlashExample(realm: string, source: Option<ServiceNameSource>, authServer: string)
    ensures GenerateGssName(SchemeConfig(Some("alice@" + realm), source), authServer).Failure?
  {
    assert "alice@" + realm == "alice" + "@" + realm;
    Locate("alice@" + realm, '@', "alice", realm);
    MalformedPrincipalFails("alice@" + realm, source, authServer);
  }

  // ---------------------------------------------------------------------
  // The debug line of generateGSSName
  // ---------------------------------------------------------------------

  /** `ServiceNameSource.name()`. */
  function SourceName(source: ServiceNameSource): string {
    match source
    case HostBased => "HOST_BASED"
    case UserBased => "USER_BASED"
  }

  /** Java's rendering of a possibly null string in a concatenation. */
  function OrNull(s: Option<string>): string {
    s.GetOr("null")
  }

  /**
   * The debug line as written: the conditional operator binds looser than
   * `+` and `!=`, so the whole concatenation is compared with null (it never
   * is), the message is only `serviceNameSource.name()`, and a null strategy
   * throws.
   */
  function DebugMessageAsWritten(config: SchemeConfig, authServer: string): Result<string, NameError> {
    match config.serviceNameSource
    case None => Failure(NullServiceNameSource)
    case Some(source) => Success(SourceName(source))
  }

  /** The debug line as evidently intended: the conditional applies to the strategy alone. */
  function DebugMessage(config: SchemeConfig, authServer: string): string {
    var sourceText := match config.serviceNameSource
      case None => "null"
      case Some(source) => SourceName(source);
    "Generating GSS Name, authServer is: " + authServer + ", spnPrincipal: " + OrNull(config.spnPrincipal)
      + ", serviceNameSource: " + sourceText
  }

  /**
   * With debug logging on, the line as written throws for a null strategy,
   * even in the default configuration whose name derivation succeeds, and
   * it never names the host.
   */
  lemma DebugLogAsWrittenThrows(config: SchemeConfig, authServer: string)
    ensures config.serviceNameSource.None? ==> DebugMessageAsWritten(config, authServer) == Failure(NullServiceNameSource)
    ensures DebugMessageAsWritten(SchemeConfig(None, None), authServer).Failure?
         && GenerateGssName(SchemeConfig(None, None), authServer).Success?
    ensures config.serviceNameSource.Some? ==>
      DebugMessageAsWritten(config, authServer) == Success(SourceName(config.serviceNameSource.value))
  {
    DefaultServiceName(authServer);
  }

  /** The intended line never throws; it starts with the host and ends with the strategy, or "null". */
  lemma DebugMessageNamesInputs(config: SchemeConfig, authServer: string)
    ensures var msg := DebugMessage(config, authServer);
      var head := "Generating GSS Name, authServer is: " + authServer;
      var tail := ", serviceNameSource: " + (if config.serviceNameSource.None? then "null"
                                              else SourceName(config.serviceNameSource.value));
      && |head| + |tail| <= |msg|
      && msg[..|head|] == head
      && msg[|msg| - |tail|..] == tail
  {
    var msg := DebugMessage(config, authServer);
    var head := "Generating GSS Name, authServer is: " + authServer;
    var tail := ", serviceNameSource: " + (if config.serviceNameSource.None? then "null"
                                            else SourceName(config.serviceNameSource.value));
    var middle := ", spnPrincipal: " + OrNull(config.spnPrincipal);
    assert msg == head + middle + tail;
    assert msg[..|head|] == head;
    assert msg[|msg| - |tail|..] == tail;
  }
}
