# Kerberos SPNEGO client: name derivation, login options and response acceptance

This project models, in Dafny, the decision logic of a small Java client that
calls Kerberos-protected HTTP endpoints with SPNEGO authentication
(`com.qumu.kerberos.client.httpclient`). The client is mostly glue around
the JDK's JAAS/GSS-API stack and Apache HttpClient. Three pieces of it
decide something, and those are what the model covers:

- **Service-name derivation** (`CustomSPNegoScheme.generateGSSName`). The
  inputs are the scheme's configured SPN principal (for example
  `HTTP/web.example.com@EXAMPLE.COM`), its name strategy (`HOST_BASED` or
  `USER_BASED`) and the host the transport is talking to. The output is the
  name string and the GSS name form for the target service, or the runtime
  exception the Java code throws.
- **Token-request normalisation** (`CustomSPNegoScheme.generateGSSToken`). A
  null challenge becomes an empty buffer. The whole buffer, from offset 0 to
  its length, goes to the GSS layer together with the derived name, the
  credential and the mutual-authentication and delegation requests.
- **JAAS login configuration** (`KerberosHttpClient.ClientLoginConfig.getAppConfigurationEntry`).
  It returns one `Krb5LoginModule` entry. Its options choose ticket-cache or
  keytab login, never prompt, act as initiator, and are then overlaid with
  the caller's options.
- **Response acceptance** (`KerberosHttpClient.executeRequest`). Status 200
  yields the body. Any other status raises an error whose message names the
  URL, the status code and the reason phrase.

Files:

- `wrappers.dfy`: `Option`, which stands for a Java reference that may be
  null, and `Result`, which is a returned value or a thrown exception.
- `java_strings.dfy`: the Java and Spring string behaviour the client relies on.
  - `String.split` with a one-character literal separator, including two
    rules: a string without the separator gives `{s}`, and trailing empty
    pieces are dropped.
  - `StringUtils.hasText`, with `Character.isWhitespace`.
  - The decimal rendering of an `int` in string concatenation.
  - What a split yields at indexes 0 and 1, and when it is empty, is proved
    against a reference definition by first occurrences (`FirstIndex`,
    `BeforeFirst`, `AfterFirst`). The cutting itself is proved against
    `Join`, and the decimal rendering against its parser.
- `spnego_scheme.dfy`: `CustomSPNegoScheme.java`.
- `kerberos_http_client.dfy`: `KerberosHttpClient.java`.

Where the design description and the code disagree, the model follows the code:

- A principal whose part before `@` has no `/` (e.g. `alice@REALM`) does not
  get a default `HTTP` prefix. The code indexes element 1 of the split and
  throws.
- `USER_BASED` names `prefix@hostOrUser`, using the second `/`-segment of
  the principal. It does not use the realm, and there is no explicit
  service-principal override.
- The principal is not checked for exactly one `@`. The code uses the text
  before the first `@` and ignores the rest, so the realm never affects the
  name.
- The logged-in identity is never disposed of, in the code or in the model.

## Model

| member | source | states |
|---|---|---|
| JavaStrings.SplitIsEmpty | src/main/java/com/qumu/kerberos/client/httpclient/CustomSPNegoScheme.java:68-71 | `split` returns no elements exactly when the string is non-empty and made only of separators (e.g. `"@"`), so index 0 is out of bounds only then |
| JavaStrings.SplitFirst | src/main/java/com/qumu/kerberos/client/httpclient/CustomSPNegoScheme.java:68-74 | element 0 of a non-empty split is the text before the first separator (the whole string when there is none) |
| JavaStrings.SplitSecond | src/main/java/com/qumu/kerberos/client/httpclient/CustomSPNegoScheme.java:73-75 | element 1 exists iff the separator occurs and is followed by some other character; it is then the text between the first and the next separator |
| JavaStrings.JoinSegments | src/main/java/com/qumu/kerberos/client/httpclient/CustomSPNegoScheme.java:68 | the pieces a split cuts the string into, joined with the separator, give the string back |
| JavaStrings.SegmentsOfJoin | src/main/java/com/qumu/kerberos/client/httpclient/CustomSPNegoScheme.java:73 | cutting a join of separator-free pieces gives exactly those pieces |
| JavaStrings.DecimalStringRoundTrip | src/main/java/com/qumu/kerberos/client/httpclient/KerberosHttpClient.java:119 | the decimal text an `int` is rendered as when concatenated reads back as the same number |
| SpnegoScheme.GenerateGssName | src/main/java/com/qumu/kerberos/client/httpclient/CustomSPNegoScheme.java:54-108 | a user-name form is produced only under `USER_BASED`, and a configured principal yields a name only when a strategy is configured too |
| SpnegoScheme.PrincipalSplits | src/main/java/com/qumu/kerberos/client/httpclient/CustomSPNegoScheme.java:68-75 | the two splits yield the part before `@`, the service prefix and the host-or-user part, and the indexing succeeds exactly when the principal has a host-or-user part |
| SpnegoScheme.DefaultServiceName | src/main/java/com/qumu/kerberos/client/httpclient/CustomSPNegoScheme.java:97-105 | with neither principal nor strategy the name is `"HTTP@" + authServer` in host-based form |
| SpnegoScheme.HostBasedServiceName | src/main/java/com/qumu/kerberos/client/httpclient/CustomSPNegoScheme.java:68-84 | `HOST_BASED` names the service prefix at the transport's host, in host-based form |
| SpnegoScheme.UserBasedServiceName | src/main/java/com/qumu/kerberos/client/httpclient/CustomSPNegoScheme.java:71-88 | `USER_BASED` names the service prefix at the second `/`-segment, in user-name form |
| SpnegoScheme.GenerateGssNameSucceeds | src/main/java/com/qumu/kerberos/client/httpclient/CustomSPNegoScheme.java:63-89 | derivation succeeds iff nothing is configured, or both fields are set and the principal has a host-or-user part |
| SpnegoScheme.MalformedPrincipalFails | src/main/java/com/qumu/kerberos/client/httpclient/CustomSPNegoScheme.java:68-75 | a principal without a host-or-user part makes the array indexing throw, whatever the strategy |
| SpnegoScheme.HalfConfiguredFails | src/main/java/com/qumu/kerberos/client/httpclient/CustomSPNegoScheme.java:63-80 | exactly one of principal and strategy set always throws: a null principal at the split, a null strategy at the switch |
| SpnegoScheme.RealmIsIgnored | src/main/java/com/qumu/kerberos/client/httpclient/CustomSPNegoScheme.java:68-89 | principals that agree before their first `@` both fail or give the same name and form |
| SpnegoScheme.PrincipalParts | src/main/java/com/qumu/kerberos/client/httpclient/CustomSPNegoScheme.java:68-75 | `prefix/hostOrUser@realm` parses to exactly that prefix and host-or-user part |
| SpnegoScheme.FurtherSegmentsIgnored | src/main/java/com/qumu/kerberos/client/httpclient/CustomSPNegoScheme.java:73-75 | `/`-segments after the host-or-user part do not change the result |
| SpnegoScheme.HostBasedFromParts | src/main/java/com/qumu/kerberos/client/httpclient/CustomSPNegoScheme.java:80-84 | `HOST_BASED` on `prefix/hostOrUser@realm` names `prefix@authServer` |
| SpnegoScheme.UserBasedFromParts | src/main/java/com/qumu/kerberos/client/httpclient/CustomSPNegoScheme.java:85-88 | `USER_BASED` on `prefix/hostOrUser@realm` names `prefix@hostOrUser`, whatever the realm |
| SpnegoScheme.HostBasedExample | src/main/java/com/qumu/kerberos/client/httpclient/CustomSPNegoScheme.java:80-84 | `HTTP/custom@REALM`, host-based, at `h.example.com` gives `HTTP@h.example.com` |
| SpnegoScheme.UserBasedExample | src/main/java/com/qumu/kerberos/client/httpclient/CustomSPNegoScheme.java:85-88 | `svc/alice@REALM`, user-based, gives `svc@alice` |
| SpnegoScheme.EmptyHostOrUserExample | src/main/java/com/qumu/kerberos/client/httpclient/CustomSPNegoScheme.java:73-75 | `HTTP/@realm` makes derivation throw, whatever the strategy |
| SpnegoScheme.NoSlashExample | src/main/java/com/qumu/kerberos/client/httpclient/CustomSPNegoScheme.java:73-75 | `alice@realm` makes derivation throw, whatever the strategy |
| SpnegoScheme.DebugLogAsWrittenThrows | src/main/java/com/qumu/kerberos/client/httpclient/CustomSPNegoScheme.java:58-61 | with debug logging on, the line as written throws for a null strategy, even in the default configuration whose derivation succeeds, and otherwise logs only the strategy's name |
| SpnegoScheme.DebugMessageNamesInputs | src/main/java/com/qumu/kerberos/client/httpclient/CustomSPNegoScheme.java:58-61 | the intended debug line never throws; it starts with the host and ends with the strategy's name, or `null` |
| SpnegoScheme.TokenRequest | src/main/java/com/qumu/kerberos/client/httpclient/CustomSPNegoScheme.java:29-51 | a request is made iff a name is derived (otherwise the same exception). It targets that name and asks for mutual authentication and delegation. It passes the Kerberos credentials' own GSS credential, or none for other credentials. Its buffer is the challenge (empty when null), handed on whole from offset 0 to its length |
| SpnegoScheme.NullChallengeIsEmpty | src/main/java/com/qumu/kerberos/client/httpclient/CustomSPNegoScheme.java:32-35 | a null challenge and an empty challenge give the same request |
| KerberosHttpClient.ClientLoginConfig.GetAppConfigurationEntry | src/main/java/com/qumu/kerberos/client/httpclient/KerberosHttpClient.java:158-185 | one REQUIRED `Krb5LoginModule` entry whose options are the computed login options overlaid with the caller's. Its keys are the caller's keys plus either the ticket-cache keys or the keytab keys. Every caller key keeps the caller's value. Every other key has its computed value: `useTicketCache`, or `useKeyTab`/`keyTab`/`principal`/`storeKey`, with `doNotPrompt` and `isInitiator` always `"true"`. The name argument plays no part |
| KerberosHttpClient.LoginOptionsChoice | src/main/java/com/qumu/kerberos/client/httpclient/KerberosHttpClient.java:163-176 | the computed options hold `useKeyTab`, `keyTab` (the location), `principal` (the user principal) and `storeKey` iff neither location nor principal is null, empty or whitespace-only. They hold `useTicketCache` and none of the keytab settings otherwise. `doNotPrompt` and `isInitiator` are always `"true"` |
| KerberosHttpClient.ExecuteRequest | src/main/java/com/qumu/kerberos/client/httpclient/KerberosHttpClient.java:116-124 | success iff the status is 200, with the body; otherwise an error carrying the URL, status and reason |
| KerberosHttpClient.MessageCarriesStatus | src/main/java/com/qumu/kerberos/client/httpclient/KerberosHttpClient.java:118-121 | the error message starts with the URL part, ends with the reason part, and the text between reads back as the status code |

## Left out

- The GSS-API calls (`getManager`, `createName`, `canonicalize`, `createContext`, `initSecContext`) are native security code. The model stops at the name and the context request handed to them. The mechanism OID and the default context lifetime are not modelled.
- SpnegoScheme.TokenRequest: describes the request made of the GSS layer. It does not describe the token that layer returns, because foreign code produces the token.
- The JAAS login, the `Subject` and `KerberosPrincipal` construction, and running the request under `Subject.doAs` in `execute` are foreign security calls.
- The exception wrapping in `execute` and `executeRequest` is not modelled. Both catch everything and rethrow it inside a new `RuntimeException`. The model keeps only the status error itself.
- Building the HTTP client (`buildHttpClient`, `NullCredentials`, the scheme factory wiring), executing the GET, and reading the body with `IOUtils.toString` are transport and I/O.
- Error logging is not modelled. Debug logging is modelled only for the debug line of `generateGSSName` (see Findings).
- SpnegoScheme.GenerateGssName, SpnegoScheme.DefaultServiceName, SpnegoScheme.GenerateGssNameSucceeds, SpnegoScheme.HalfConfiguredFails: these describe derivation with debug logging off, or with the debug line corrected. With debug logging on, the code as written first throws `NullPointerException` whenever the strategy is null. That includes the default configuration used by `CustomKerberosRestTemplate`. `SpnegoScheme.DebugLogAsWrittenThrows` shows this.
- Login option values are `Object` in Java. The model uses strings, which are the only values the client itself puts.
- `KerberosHttpClient.loginOptions` is never assigned, so `execute` always passes a null map. The model covers both the null and the non-null map.
- Maps are values in Dafny, so "a fresh map on every call" has no counterpart. `GetAppConfigurationEntry` builds its map from the empty map each time.
- Purity of name generation, meaning repeated calls give the same result, holds because the model is a Dafny function. It has no separate lemma.
- KerberosHttpClient.ExecuteRequest: status codes are unbounded integers rather than Java `int`. The rendering agrees with `Integer.toString` on the `int` range.
- A null `authServer` would give the name `"HTTP@null"`. This is not modelled, because the transport always supplies a host.
- `Application.java`, `KerberosService.java`, `CustomKerberosRestTemplate.java` and `CustomSPNegoSchemeFactory.java` are not part of this model: they are process plumbing and pass-through construction.

## Findings

| source | as written | input that shows it | evidently intended | confidence | as-written member | corrected member |
|---|---|---|---|---|---|---|
| src/main/java/com/qumu/kerberos/client/httpclient/CustomSPNegoScheme.java:59-60 | the conditional operator takes the whole concatenated message, compared with null, as its condition. That condition is always true, so `serviceNameSource.name()` is always evaluated and is the only text logged | debug logging on, principal and strategy both null (the default configuration) | apply the conditional to `serviceNameSource` alone, logging `null` for a null strategy | high; not executed | SpnegoScheme.DebugMessageAsWritten | SpnegoScheme.DebugMessage |
