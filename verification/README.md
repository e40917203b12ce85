# LemonLDAP::NG (TypeScript): a Dafny model of its stateful core

LemonLDAP::NG is a web single sign-on system. A portal authenticates users against a directory and keeps their sessions;
handlers in front of applications read those sessions and apply access rules; the portal also speaks CAS and OpenID
Connect. This project models the parts of the TypeScript port that hold state machines, searches, caches and codecs, and
proves what each of them keeps over every run or for every input. `dafny verify dfyconfig.toml` checks the whole project.

| part | files | what is modelled |
|---|---|---|
| LDAP group search | `LdapGroups.dfy` | the recursive search with its shared set of seen names, against reachability in the group graph |
| LDAP connection | `LdapConnection.dfy` | circuit breaker, failover, reconnection, retry, over a network and a clock that answer arbitrarily |
| CAS issuer | `CasSpec.dfy`, `CasRuns.dfy`, `CasDecisions.dfy`, `CasIssuer.dfy` | every handler as one step over the ticket store, the IOU store and the logout registrations; histories with lineage |
| OpenID Connect provider | `OidcGrants.dfy`, `OidcInterleaved.dfy`, `OidcClaims.dfy`, `OidcProvider.dfy` | token requests interleaved at their awaits; the claims of the ID token; runs of requests with the code each token descends from |
| CAS responses | `CasXml.dfy`, `CasPatterns.dfy`, `CasDocuments.dfy`, `CasResponse.dfy`, `CasRoundTrip.dfy`, `CasFaithful.dfy`, `CasErrors.dfy` | escaping, the printers, the scanning parser, and exactly what parsing a printed success or error response gives |
| Base32 | `Base32.dfy`, `Words.dfy`, `Base32Loops.dfy`, `Base32Groups.dfy` | the definition on bit strings, the loops over an unmasked 32-bit accumulator, and the same in groups of five bytes |
| Session caches | `SessionSpec.dfy`, `SessionRuns.dfy`, `SessionLogout.dfy`, `SessionObjects.dfy` | handler cache over memory cache over local cache over backend; logout by the portal and by broker messages |
| Location rules | `RuleTables.dfy`, `RuleHandler.dfy` | the tables that `reload` appends to, and the two functions that scan them |
| Service tokens | `Crypto.dfy`, `ServiceToken.dfy` | padding and digest of the encryption, the token's text, its 30-second window |
| Password modification | `PasswdModify.dfy` | the hand-built BER request and the decoder of the test directory |
| Plugin conditions | `ConfigChecker.dfy` | configuration paths with wildcards |
| shared | `Text.dfy`, `Numbers.dfy`, `Wrappers.dfy` | splitting, joining, replacing; bytes and powers of two; `Option` |

Objects that the source updates in place are classes whose methods are proved to do what a function on values says; the
properties of runs are proved about those functions.

Some properties one would expect are false of the code; each has the exact condition under which the code meets it:

- When groups are nested by name (the parent attribute is the name attribute) the group search stops at the direct groups,
  because a group's own name is already in the set of seen names when its parent value is compared with it:
  `LdapGroups.NestedByNameExact`, `LdapGroups.NestedByNameMisses`.
- A record of attributes comes back from a CAS response only if its keys are non-empty, need no escaping (keys are escaped
  by the printer and never unescaped by the parser), are not the name of the attribute block in any case and are not names
  that every JavaScript object inherits; every attribute has a value; an attribute named as the ticket or the proxy list
  takes their place: `CasFaithful.RoundTrip`, with `CasFaithful.EscapedKeyLost` as an example.
- An error response comes back from the CAS parser only if its code needs no escaping (the parser never unescapes it) and
  its message has no white space at its ends: `CasErrors.ErrorRoundTrip`.
- The location tables are aligned only while no reload stopped at a regular expression that does not compile: the
  condition and the protection are pushed before the expression is compiled. Afterwards a location is decided by another
  location's rule: `RuleSpec.AlignedExactly`, `RuleSpec.OtherRuleDecides`.
- Decryption undoes encryption only for non-empty texts without a zero character, and for texts that begin with one and are
  one byte short of a full block: `Crypto.RoundTrip`, with `Crypto.NotRestored` as examples.
- The password request is read back only when every field fits its length byte and the length of the whole, modulo 256, is
  at most 128: `PasswdModify.RoundTrip`, with `PasswdModify.LongRequestLost` as an example.
- With `timeoutActivity`, a handler that still holds a deleted session in a cache may write it back before the logout
  message comes, and serve it afterwards. The logout holds, whatever happens before and after the message, if and only if
  at the deletion no cache of the handler holds a copy that it would still answer when it is due to be refreshed:
  `SessionLogout.LogoutExactly`; for a given run `SessionLogout.Logout` and its converse `SessionLogout.RevivedIsServed`,
  with `SessionLogout.RevivedByActivity` as an example.
- The subject, the audience and the nonce of an ID token are those of the grant only if no exported variable of that name
  takes another attribute of the session, because the user's claims are spread over them: `OidcClaims.OwnClaimSurvives`,
  `OidcInterleaved.IdTokenBelongsToCode`, with `OidcClaims.SubjectReplaced` as an example.
- A base32 text is the encoding of what it decodes to only when the dropped bits are fewer than five and zero:
  `Base32Spec.CanonicalText`.

## Model

| member | source | states |
|---|---|---|
| LdapGroups.SearchGroups | packages/lib-ldap/src/ldap-connection.ts:1386-1459 | on every directory, cycles included, the nested calls terminate; the keys returned are exactly the names added to the shared set, all of reachable groups, with their parents' groups closed off on a clean directory |
| LdapGroups.SearchUserGroups | packages/lib-ldap/src/ldap-connection.ts:1386-1459 | the groups returned are exactly those directly listing the user unless the recursive flag is set and a parent attribute named; then, with names identifying parent values and parent values apart from names, exactly those reachable through nested groups, whichever searches fail; nested by name, exactly the direct ones; each with the data of a reachable group of its name |
| LdapGroups.FlatIsDirect | packages/lib-ldap/src/ldap-connection.ts:1440-1452 | without the recursive flag or without a parent attribute only direct groups are reachable |
| LdapGroups.ValueRead | packages/lib-ldap/src/ldap-utils.ts:98-119 | an attribute reads as the DN for any case of "dn", as nothing when missing, as its value, or as its values joined by semicolons |
| LdapGroups.NameRead | packages/lib-ldap/src/ldap-connection.ts:1396-1397 | a group is named by the first configured naming attribute, by "cn" without one |
| LdapGroups.DataDescribes | packages/lib-ldap/src/ldap-connection.ts:1401-1438 | the data of a group are its name, its DN and over them the non-empty values of the attributes asked for, nothing else |
| LdapGroups.ClosedHoldsAll | packages/lib-ldap/src/ldap-connection.ts:1427-1452 | a set of names that holds the direct groups and is closed under listing holds every reachable group |
| LdapGroups.NestedByNameExact | packages/lib-ldap/src/ldap-connection.ts:1427-1452 | when groups are nested by name, direct groups are all reachable groups if and only if no direct group lies in an outer one |
| LdapGroups.NestedByNameMisses | packages/lib-ldap/src/ldap-connection.ts:1427-1452 | two nested groups on which the search by name misses the outer one |
| LdapConnection.RotationTriesEachOnce | packages/lib-ldap/src/ldap-connection.ts:133-163 | a full round from any start tries every server and none twice |
| LdapConnection.FailuresInSpan | packages/lib-ldap/src/ldap-connection.ts:169-209 | failures spaced as the breaker spaces them number at most 3 + T/30000 in any span T, wherever the span starts |
| LdapConnection.Connection.CanAttemptConnection | packages/lib-ldap/src/ldap-connection.ts:169-186 | lets a connection through exactly when the breaker is not open or 30 s have passed, then half opens |
| LdapConnection.Connection.OnConnectionSuccess | packages/lib-ldap/src/ldap-connection.ts:191-194 | closes the breaker and forgets the failures |
| LdapConnection.Connection.OnConnectionFailure | packages/lib-ldap/src/ldap-connection.ts:199-209 | records the failure, keeps the history spaced, opens from the third failure on |
| LdapConnection.Connection.ConnectToServer | packages/lib-ldap/src/ldap-connection.ts:214-291 | one attempt; connected exactly when it returns normally, no client otherwise |
| LdapConnection.Connection.Retry | packages/lib-ldap/src/ldap-connection.ts:341-357 | one attempt of the reconnection: a whole round and one failure if the breaker permits, nothing otherwise, then the delay of its place |
| LdapConnection.Connection.Connect | packages/lib-ldap/src/ldap-connection.ts:125-163 | blocked: nothing is tried; failing: every server was tried in rotated order and one failure counted; successful: it stopped at the first that answered, the breaker is closed |
| LdapConnection.Connection.Reconnect | packages/lib-ldap/src/ldap-connection.ts:329-361 | up to three rounds in rotated order and exactly 300 ms of sleep when it fails; every round let through counts one failure, and a failure leaves the breaker open |
| LdapConnection.Connection.ValidateConnection | packages/lib-ldap/src/ldap-connection.ts:296-324 | true exactly when a client is left that is believed connected; a lately checked one is believed at once, an older one is checked once, and only a missing or dead one is replaced |
| LdapConnection.Connection.WithRetry | packages/lib-ldap/src/ldap-connection.ts:366-410 | the operation runs only when connected, again only after a connection error and after 100, 200 and 400 ms at least, at most 4 times; the result is that of the last run; at most 12·n attempts for n servers and 1900 ms of sleep |
| LdapConnection.Connection.UserBind | packages/lib-ldap/src/ldap-connection.ts:459-568 | reply by reply: no bind while blocked; success exactly for an accepted password; the policy code carried by the reply, PE_BADCREDENTIALS exactly for a refused password, PE_LDAPERROR for another error, PE_LDAPCONNECTFAILED without a connection; the breaker counts lost connections and forgets failures on success; a refused password leaves it as the permission check left it, half open included |
| LdapConnection.Connection.Close | packages/lib-ldap/src/ldap-connection.ts:1478-1489 | no client is left; the breaker's history is kept |
| LdapConnection.Connection.ResetCircuitBreaker | packages/lib-ldap/src/ldap-connection.ts:1515-1520 | the breaker is closed without failures |
| CasRuns.RunKeeps | packages/issuer-cas/src/issuer.ts:63-631 | after any run of handlers with new identifiers: stored tickets say what their lineage says, acceptances are of distinct consumed tickets, the IOU store is a bijection onto the stored PGTs |
| CasRuns.AcceptedMeans | packages/issuer-cas/src/issuer.ts:196-533 | an accepted ticket was issued, never accepted before and is consumed; the service asked for is that of its lineage up to one slash at the end; the user is that of the login at the root of its lineage, the proxies are the service of its PGT only, a fake ticket is never accepted |
| CasRuns.SpentForever | packages/issuer-cas/src/issuer.ts:196-533 | a ticket that left the store is never accepted again, whatever comes later |
| CasRuns.KeptUntilPresented | packages/issuer-cas/src/issuer.ts:63-631 | a ticket stays in the store, unchanged, until it is presented for validation |
| CasRuns.LoginThenValidate | packages/issuer-cas/src/issuer.ts:90-154 | a service ticket first presented after any further run is accepted, for the user of the login, if and only if in time, for a service equal to that of the login up to one slash that one of them ends in, and from a renewed login if one is demanded |
| CasRuns.ProxyThenValidate | packages/issuer-cas/src/issuer.ts:407-461 | a proxy ticket first presented after any further run is accepted if and only if at proxyValidate, in time and for its target up to such a slash; it names the user at the root of the PGT's lineage and the PGT's service as the one proxy |
| CasRuns.SameService | packages/issuer-cas/src/issuer.ts:697-701 | two services match if and only if they are equal or one is the other with a slash, which the other does not end in |
| CasDecisions.LoginDecided | packages/issuer-cas/src/issuer.ts:63-154 | every login in the order of its checks: refusals, the fake ticket, the upgrade, the gateway, else the redirection with a ticket that bears the login's service, user, session, renewal and expiry |
| CasDecisions.NothingRedeemed | packages/issuer-cas/src/issuer.ts:196-225 | a validation without its parameters, with a ticket of the wrong form (39 characters in hexadecimal digits and dashes behind ST-) or an unknown one is refused, with which error, and changes nothing |
| CasDecisions.TicketDecided | packages/issuer-cas/src/issuer.ts:255-310 | a ticket found is refused for its expiry, then for its service, then for a renewal that is demanded, else accepted for its user |
| CasDecisions.PgtDecided | packages/issuer-cas/src/issuer.ts:567-631 | an accepted ticket brings a PGT if and only if the endpoint, an https callback answered with 200 to 299, the application, the client and the store allow it; the stores gain that pair and nothing else |
| CasDecisions.ProxyDecided | packages/issuer-cas/src/issuer.ts:407-461 | every proxy request: refusals for missing parameters, a PGT that is unknown or expired and a target that forbids proxying, else the ticket for the target |
| CasDecisions.LogoutDecided | packages/issuer-cas/src/issuer.ts:159-191 | a logout drops the registrations of its own session and nothing else |
| CasRuns.ValidationKeepsPgts | packages/issuer-cas/src/issuer.ts:327-402 | no validation removes or alters a PGT |
| CasRuns.FailedCallbackLeavesNothing | packages/issuer-cas/src/issuer.ts:567-631 | a refused or throwing callback leaves neither PGT nor IOU; only the ticket is consumed |
| CasRuns.IssuePgtKeeps | packages/issuer-cas/src/issuer.ts:567-631 | issuing a PGT keeps the invariant, delivered or not |
| CasRuns.RegisteredSinceLogout | packages/issuer-cas/src/issuer.ts:718-728 | the services registered for a session are, once each, those it logged in to since its last logout |
| CasRuns.NotifiedOnce | packages/issuer-cas/src/issuer.ts:538-562 | logout notifies exactly the registered applications that ask for it, once each |
| CasRuns.LogoutNotifies | packages/issuer-cas/src/issuer.ts:159-191 | a logout after any run notifies, once each, exactly the services logged in to since the last logout whose application asks for it |
| CasIssuer.Issuer.RegisterAppForSession | packages/issuer-cas/src/issuer.ts:718-728 | registers a service once per session |
| CasIssuer.Issuer.HandleLogin | packages/issuer-cas/src/issuer.ts:63-154 | stores and answer of a login: error, fake ticket, upgrade, gateway or new ticket with registration |
| CasIssuer.Issuer.SendLogoutRequests | packages/issuer-cas/src/issuer.ts:538-562 | the notified services are those of the specification, in order |
| CasIssuer.Issuer.HandleLogout | packages/issuer-cas/src/issuer.ts:159-191 | the registrations of the session are notified and dropped |
| CasIssuer.Issuer.HandleValidate | packages/issuer-cas/src/issuer.ts:196-244 | consumes a recognised ticket whatever it decides; the user exactly when the ticket honours the request |
| CasIssuer.Issuer.HandleServiceValidate | packages/issuer-cas/src/issuer.ts:249-322 | the same with a PGT when asked for and allowed |
| CasIssuer.Issuer.HandleProxyValidate | packages/issuer-cas/src/issuer.ts:327-402 | the same for service and proxy tickets, naming the proxies |
| CasIssuer.Issuer.HandleSamlValidate | packages/issuer-cas/src/issuer.ts:466-533 | the same for the SAML endpoint |
| CasIssuer.Issuer.IssuePGT | packages/issuer-cas/src/issuer.ts:567-631 | both stores gain the pair and lose it again when the callback fails |
| CasIssuer.Issuer.HandleProxy | packages/issuer-cas/src/issuer.ts:407-461 | a live PGT buys a proxy ticket for an allowed target; the PGT stays |
| OidcInterleaved.RunKeeps | packages/issuer-oidc/src/provider.ts:617-969 | after any interleaving of token requests at their awaits: held codes are out of the store and held once, every phase passed the checks for its code |
| OidcInterleaved.RedeemedAtMostOnce | packages/issuer-oidc/src/provider.ts:84-91 | no two concurrent requests, finished or not, ever hold the same code past its consumption |
| OidcInterleaved.ServedExactly | packages/issuer-oidc/src/provider.ts:617-715 | a request that comes through undisturbed gets tokens if and only if its code is stored and in time, redirect URI and any client named are those of the code, the client is known and its secret right unless public, and a stored challenge is the verifier for "plain" and its digest otherwise; the code is gone either way |
| OidcInterleaved.TokensBelongToCode | packages/issuer-oidc/src/provider.ts:617-715 | tokens handed out bear the client, user, session, scope and lifetimes of an issued unexpired code, a refresh token exactly for offline access; they were asked for with its redirect URI, its client's secret and, with a challenge, a verifier equal to it for "plain" and of that digest otherwise (section 4.1.2 of RFC 6749, section 4.6 of RFC 7636; packages/lib-oidc/src/crypto.ts) |
| OidcInterleaved.IdTokenBelongsToCode | packages/issuer-oidc/src/provider.ts:914-927 | the subject, audience or nonce handed out is the code's if and only if no exported variable of the client puts another attribute of the session in its place |
| OidcInterleaved.IdTokenAboutUser | packages/issuer-oidc/src/provider.ts:1526-1586 | any other claim handed out is the attribute of the client's exported variable of that name, else the session's own if the scope of the code asks for it |
| OidcClaims.GetUserClaims | packages/issuer-oidc/src/provider.ts:1526-1586 | the loops compute the exported variables the session has and, where still missing, the claims of the scopes |
| OidcClaims.UserClaimExactly | packages/issuer-oidc/src/provider.ts:1526-1586 | a claim is the attribute of the exported variable of that name, else the session's attribute of its own name if and only if a requested scope brings it, after the table of section 5.4 of OpenID Connect Core 1.0 |
| OidcClaims.OwnClaimSurvives | packages/issuer-oidc/src/provider.ts:914-927 | the provider's own subject, audience or nonce survives the spread if and only if no exported variable of that name takes a different attribute of the session |
| OidcClaims.SubjectReplaced | packages/issuer-oidc/src/provider.ts:1539-1546 | a variable that exports the mail address as the subject replaces it |
| OidcProvider.RunKeeps | packages/issuer-oidc/src/provider.ts:559-773 | after any run of authorizations, code and refresh grants, other grants and revocations every token of a grant descends from a consumed code, and a rotating client has at most one refresh token for each |
| OidcProvider.AtMostOneRefreshToken | packages/issuer-oidc/src/provider.ts:720-773 | after any run of requests, with rotation at most one stored refresh token descends from a code and none while it is unredeemed; every stored token that descends from it bears its client, user and session |
| OidcProvider.CodeGrantLeaves | packages/issuer-oidc/src/provider.ts:617-715 | a successful code grant gives a refresh token exactly for the scope offline_access and unless the client forbids it, alone in the store for its code |
| OidcProvider.CodeGrantExactly | packages/issuer-oidc/src/provider.ts:617-715 | success and each error of a code grant with every check written out, expiry, redirect URI, client, secret and challenge; every complete attempt consumes the code |
| OidcProvider.CodeGrantStores | packages/issuer-oidc/src/provider.ts:844-969 | what a successful code grant stores: the code's client, user, session and scope with the lifetimes of the client |
| OidcProvider.AuthorizeThenRedeem | packages/issuer-oidc/src/provider.ts:559-591 | the first complete request for a code issued earlier in any run succeeds if and only if it comes within the lifetime of codes with the redirect URI, client, secret and verifier that the authorization request asks for |
| OidcProvider.KeptUntilPresented | packages/issuer-oidc/src/provider.ts:559-591 | a code stays as the authorization request and its time determine it until a complete request presents it |
| OidcProvider.RefreshGrantLeaves | packages/issuer-oidc/src/provider.ts:720-773 | a successful refresh replaces the presented token with rotation and stores another beside it without; another is given exactly for the scope offline_access and unless the client forbids it |
| OidcProvider.RefreshGrantExactly | packages/issuer-oidc/src/provider.ts:720-773 | a refresh succeeds if and only if its token is stored and not expired, whatever scope it asks for; otherwise it changes nothing |
| OidcProvider.RefreshStores | packages/issuer-oidc/src/provider.ts:720-773 | its tokens bear the client, user and session of the presented one, the scope asked for or else its own |
| OidcProvider.GrantKeeps | packages/issuer-oidc/src/provider.ts:844-969 | handing out tokens keeps every stored token bearing the client, user and session of its code, and at most one refresh token for a rotating client |
| OidcProvider.TokenStore.ConsumeAuthCode | packages/issuer-oidc/src/provider.ts:84-91 | lookup and removal in one body |
| OidcProvider.Provider.GenerateAuthorizationCode | packages/issuer-oidc/src/provider.ts:559-589 | a new code stored with the request's data |
| OidcProvider.Provider.GenerateTokens | packages/issuer-oidc/src/provider.ts:844-969 | the tokens stored and returned are those of the owner; the ID token holds the user's claims spread over the provider's own; a refresh token exactly when offline access is asked for and allowed |
| OidcProvider.Provider.HandleAuthorizationCodeGrant | packages/issuer-oidc/src/provider.ts:617-715 | the new stores and the response: the code is consumed before the checks, tokens exactly when no check fails, else the error of the first that fails |
| OidcProvider.Provider.HandleRefreshTokenGrant | packages/issuer-oidc/src/provider.ts:720-773 | the new stores and the response: a live refresh token gives tokens of the same lineage and is revoked first when the client rotates |
| OidcProvider.Provider.StoreOtherAccessToken | packages/issuer-oidc/src/provider.ts:819-833 | what the client-credentials and implicit grants leave in the store descends from no code and disturbs nothing |
| OidcProvider.Provider.HandleRevocationRequest | packages/issuer-oidc/src/provider.ts:1776-1791 | the token is gone from both stores |
| XmlEscape.EscapeIsSimultaneous | packages/lib-cas/src/xml-builder.ts:12-19 | the five successive replacements are one mapping of each character |
| XmlEscape.UnescapeEscape | packages/lib-cas/src/xml-parser.ts:91-98 | unescaping inverts escaping on every string, entity-like text included |
| CasResponse.ReadBack | packages/lib-cas/src/xml-parser.ts:134-145 | trimming and unescaping an escaped text gives the trimmed text |
| CasResponse.BuildServiceValidateSuccess | packages/lib-cas/src/xml-builder.ts:38-82 | the text printed is the document of tags and escaped texts it stands for |
| CasResponse.PrintAttributes | packages/lib-cas/src/xml-builder.ts:48-59 | one element per value of each attribute, in order |
| CasResponse.PrintProxies | packages/lib-cas/src/xml-builder.ts:66-75 | one element per proxy, in order |
| CasResponse.ParseServiceValidateResponse | packages/lib-cas/src/xml-parser.ts:103-177 | on every input the result is that of the searches and the collected matches, or an exception for an inherited name |
| CasResponse.ParseAttributes | packages/lib-cas/src/xml-parser.ts:137-151 | the loop collects all matches of the attribute pattern under their keys |
| CasResponse.ParseProxies | packages/lib-cas/src/xml-parser.ts:160-168 | the loop collects all matches of the proxy pattern |
| CasPatterns.AttributesInDoc | packages/lib-cas/src/xml-parser.ts:141-143 | the attribute pattern finds the elements that have a name, in order, and nothing in an unclosed one |
| CasPatterns.ContentsInDoc | packages/lib-cas/src/xml-parser.ts:163-165 | the element pattern finds all contents in order |
| CasPatterns.NoFailureInDoc | packages/lib-cas/src/xml-parser.ts:113-115 | the failure pattern matches nowhere in a document without a failure tag that holds a quotation mark |
| CasDocuments.BlockOfEntries | packages/lib-cas/src/xml-parser.ts:138-143 | the attribute block ends at the first element named as the block, and what is read are the named elements before it |
| CasDocuments.BlockOfContents | packages/lib-cas/src/xml-parser.ts:161-165 | reading the proxy block gives all its contents |
| CasRoundTrip.ParsedExactly | packages/lib-cas/src/xml-parser.ts:103-177 | for every user, record, IOU and list of proxies, what parsing the printed response gives, reserved names and oversize included |
| CasFaithful.CollectExact | packages/lib-cas/src/xml-parser.ts:143-150 | the record holds under each key exactly the values read for it in order; an inherited name throws |
| CasFaithful.RoundTrip | packages/lib-cas/src/xml-builder.ts:38-82 | parsing what was printed gives it back if and only if the size fits, values are trimmed, keys are readable, every attribute has a value, and ticket and proxies meet no attribute of their name (section 2.5 and appendix A of CAS Protocol 3.0) |
| CasFaithful.EscapedKeyLost | packages/lib-cas/src/xml-parser.ts:144 | a key that needs escaping does not come back |
| CasErrors.ErrorParsed | packages/lib-cas/src/xml-builder.ts:87-94 | an error response of any code and message is read as a failure with its code as it was escaped and its message trimmed, unless it is too large |
| CasErrors.ErrorRoundTrip | packages/lib-cas/src/xml-builder.ts:87-94 | it comes back if and only if its code needs no escaping and its message is trimmed |
| CasErrors.ErrorText | packages/lib-cas/src/xml-builder.ts:87-94 | the error response, literally |
| CasErrors.SuccessText | packages/lib-cas/src/xml-builder.ts:38-82 | a success response with an attribute, a ticket and a proxy, literally |
| CasErrors.EscapedText | packages/lib-cas/src/xml-builder.ts:12-19 | which characters are escaped, and as what |
| CasErrors.EscapedConcat | packages/lib-cas/src/xml-builder.ts:12-19 | escaping a text in two parts is escaping each |
| CasErrors.OneAttributeBack | packages/lib-cas/src/xml-parser.ts:137-151 | a response with one attribute comes back if and only if the size fits, user and value are trimmed, and the key is not empty, needs no escaping, is neither the name of the block nor of the ticket in any case, and is none of the twelve inherited names |
| CasErrors.Refused | packages/lib-cas/src/xml-parser.ts:103-124 | empty, oversize and userless texts are refused with their messages |
| CasErrors.LettersFold | packages/lib-cas/src/xml-parser.ts:125 | the patterns take the two cases of a letter from A to Z for equal and tell all other characters apart |
| CasErrors.SpaceExactly | packages/lib-cas/src/xml-parser.ts:134 | the characters that trimming removes, by number |
| CasErrors.TrimExactly | packages/lib-cas/src/xml-parser.ts:134 | trimming removes white space at both ends and nothing else |
| Base32Spec.RoundTrip | packages/2fa-totp/src/totp.ts:229-280 | decoding undoes encoding on every byte sequence |
| Base32Spec.EncodedLength | packages/2fa-totp/src/totp.ts:229-249 | 8n bits make ceil(8n/5) symbols |
| Base32Spec.CaseAndPaddingIgnored | packages/2fa-totp/src/totp.ts:256-258 | neither letter case nor padding at the end changes the decoding |
| Base32Spec.CanonicalText | packages/2fa-totp/src/totp.ts:264-279 | encoding undoes decoding if and only if fewer than five bits are dropped and all are zero |
| Base32Groups.FiveBytes | packages/2fa-totp/src/totp.ts:229-249 | five bytes are encoded as eight symbols given in arithmetic, and the rest after them |
| Base32Groups.LastBytes | packages/2fa-totp/src/totp.ts:245-247 | fewer than five bytes are encoded as the first symbols of the group completed with zero bytes, as many as their bits need |
| Base32Groups.AlphabetExactly | packages/2fa-totp/src/totp.ts:222 | a symbol is its place in the alphabet of section 6 of RFC 4648, and nothing else is a symbol |
| Base32Groups.VectorSix | packages/2fa-totp/src/totp.ts:229-249 | the test vector of section 10 of RFC 4648 for "foobar" |
| Base32Groups.RefusedExactly | packages/2fa-totp/src/totp.ts:256-280 | with padding or without, an ASCII text is decoded if and only if all its characters are letters or digits from 2 to 7; otherwise the first other one is named |
| Base32Groups.SameLetter | packages/2fa-totp/src/totp.ts:258 | letters are taken alike in both cases, and no other characters |
| Base32.Base32Encode | packages/2fa-totp/src/totp.ts:229-249 | the loop over the overflowing accumulator computes the encoding of section 6 of RFC 4648 |
| Base32.Base32Decode | packages/2fa-totp/src/totp.ts:256-280 | the loop computes the decoding, or names the first character outside the alphabet |
| Base32.Shift | packages/2fa-totp/src/totp.ts:235 | a shifted and overflowing word still ends in the pending bits and the new ones |
| Base32.Take | packages/2fa-totp/src/totp.ts:239 | shifting right and masking gives the first pending bits, the rest stay pending |
| SessionRuns.Freshness | packages/handler/src/handlerMain.ts:171-228 | after any run every session returned was the backend's value at a moment no older than the handler timeout plus the longest lower time to live, and its age is at most timeout + handler timeout − 1 seconds |
| SessionLogout.LogoutExactly | packages/handler/src/handlerMain.ts:207-214 | for every `timeoutActivity`: whatever happens before and after the message but a rewriting, no retrieval after it succeeds, if and only if at the deletion no cache holds a copy it would still answer when it is due to be refreshed |
| SessionLogout.Logout | packages/portal/src/portal.ts:290-299 | after the portal's deletion and any run that does not revive the session, every retrieval after the message rejects until another writer rewrites it |
| SessionLogout.RevivedIsServed | packages/handler/src/handlerMain.ts:207-214 | the converse: after a run that revives it the session is served right after the message if and only if it has not expired since |
| SessionLogout.WrittenBackIsServed | packages/handler/src/handlerMain.ts:216-222 | right after a write-back the session is served |
| SessionLogout.RunEndedExactly | packages/handler/src/handlerMain.ts:207-214 | after any run the session is ended in the backend if and only if no rewriting or write-back revived it since it was last ended |
| SessionLogout.MessageExactly | packages/handler/src/msgActions.ts:44-67 | the message logs the session out for good if and only if the backend's value is absent or expired |
| SessionLogout.NotReturned | packages/handler/src/handlerMain.ts:195-222 | without such a copy at the deletion no run writes the session back or revives it |
| SessionLogout.CannotReturn | packages/handler/src/handlerMain.ts:207-214 | without an activity timeout, or with no copy in the caches, the condition for a return does not hold |
| SessionLogout.ExpiresUnaided | packages/handler/src/handlerMain.ts:171-228 | without any message, and unless the session is written back, retrievals reject once the caches' times have passed since the deletion |
| SessionLogout.StaysLoggedOut | packages/handler/src/handlerMain.ts:234-248 | once logged out on the handler a session stays so through any events but a rewriting |
| SessionLogout.RevivedByActivity | packages/handler/src/handlerMain.ts:207-214 | a run from empty caches on which a deleted session is written back and served after the message |
| SessionLogout.DeleteEnds | packages/portal/src/portal.ts:290-299 | after the deletion the backend's value is absent, or the session read with nothing but its start time set to zero; other sessions are untouched |
| SessionRuns.LiveIsReturned | packages/handler/src/handlerMain.ts:195-222 | a session of the backend none of whose recent values is older than the timeout or, when seen before, idle for longer than the activity timeout is returned |
| SessionRuns.ExpiredIsRejected | packages/handler/src/handlerMain.ts:195-205 | the dual: a session all of whose recent values are older than the timeout, or seen and idle for longer than the activity timeout, is rejected and not written back, unless the handler's own cache answers |
| SessionRuns.FetchedExactly | packages/handler/src/handlerMain.ts:195-222 | what the accessor gives is rejected exactly when too old or idle too long; otherwise it is kept, and written back as seen now exactly when it was seen more than 60 seconds ago and there is an activity timeout |
| SessionRuns.OwnAnswer | packages/handler/src/handlerMain.ts:177-193 | the handler's own cache answers for 15 seconds unless configured otherwise, and then nothing changes |
| SessionRuns.GetExactly | packages/session/src/index.ts:89-124 | memory answers for 120 seconds, then the local cache for its time, then the backend; only the backend's answer enters the caches |
| SessionObjects.Session.Get | packages/session/src/index.ts:89-124 | memory, local cache, backend in this order; only a backend answer is cached |
| SessionObjects.Session.Update | packages/session/src/index.ts:126-143 | written to the backend, then to both caches |
| SessionObjects.Session.ClearMemoryCache | packages/session/src/index.ts:149-151 | one entry is gone from the memory cache only |
| SessionObjects.Session.ClearLocalCache | packages/session/src/index.ts:164-172 | one entry is gone from the local cache only |
| SessionObjects.Handler.RetrieveSession | packages/handler/src/handlerMain.ts:171-228 | the whole new state and the answer, internal cache, expiry and write-back included |
| SessionObjects.Handler.LocalUnlog | packages/handler/src/handlerMain.ts:234-248 | the handler's own cache and the accessor's entries of the session are gone |
| SessionObjects.ProcessMessage | packages/handler/src/msgActions.ts:26-78 | the effect and the answer of each action, with and without an id: "unlog" and "delSession" clear the handler's and both accessor caches, a reload replaces the accessor, nothing else changes anything |
| SessionObjects.Portal.GetSession | packages/portal/src/portal.ts:245-258 | nothing for a missing or expired session; a timeout of zero does not expire |
| SessionObjects.Portal.DeleteSession | packages/portal/src/portal.ts:290-299 | the session read through the caches is written back marked as expired |
| RuleSpec.DecidedExactly | packages/handler/src/init.ts:192-230 | after any reloads, complete or not, `grant` and `isUnprotected` go by the same rule: the row in the place of the first pattern that matches, else the last declared default, else access once a reload was complete |
| RuleSpec.FirstRuleDecides | packages/handler/src/init.ts:192-230 | without a stop at an expression that does not compile, that rule is the first match over all rules ever read, in order |
| RuleSpec.Reloaded | packages/handler/src/init.ts:192-230 | after any reloads, complete or not, the tables hold what was read in order, the count only that of the last |
| RuleSpec.SameConfigurationAgain | packages/handler/src/init.ts:192-230 | reloading the same configuration changes no decision and no protection, whatever went before and whatever compiles |
| RuleSpec.EarlierRuleWins | packages/handler/src/handlerMain.ts:275-287 | a location rule of an earlier reload hides every later one for what it matches |
| RuleSpec.AlignedExactly | packages/handler/src/init.ts:216-221 | the three location tables are aligned if and only if no reload stopped at an expression that does not compile |
| RuleSpec.OtherRuleDecides | packages/handler/src/init.ts:216-221 | after such a stop a location is decided by another location's rule |
| RuleSpec.LocationDecides | packages/handler/src/init.ts:192-230 | after a reload that was read to its end the first location that matches decides, whatever "default" entries stand before it |
| RuleSpec.DefaultDecides | packages/handler/src/init.ts:222-230 | when no location matches the last "default" entry decides; without one everybody is let in |
| RuleSpec.RuleMeaning | packages/handler/src/init.ts:310-352 | what the four words, a logout rule and an expression decide for a location and as the default, and their protection |
| RuleSpec.ReadToItsEnd | packages/handler/src/init.ts:192-230 | a reload is read to its end if and only if each rule is a word, a logout rule or compiles, and each location compiles |
| RuleHandler.HostDecision | packages/handler/src/handlerMain.ts:250-296 | over whole configurations, complete or not, a host's decision is that of its own rules that were reached, in the order of the reloads; a host never reached has none |
| RuleHandler.Handler.Reload | packages/handler/src/init.ts:192-230 | the six records after a reload, up to the first rule that throws |
| RuleHandler.Handler.LoadRule | packages/handler/src/init.ts:207-222 | one rule: what is pushed and where it may stop |
| RuleHandler.Handler.IsUnprotected | packages/handler/src/handlerMain.ts:147-155 | the protection at the first matching pattern, else the default's |
| RuleHandler.Handler.Grant | packages/handler/src/handlerMain.ts:250-296 | the condition at the first matching pattern, else the default's, with every rejection |
| Crypto.RoundTrip | packages/crypto/src/index.ts:16-49 | decryption undoes encryption if and only if the text is non-empty and has no zero character, or begins with one and is one byte short of a block |
| Crypto.NotRestored | packages/crypto/src/index.ts:44-48 | a text with a zero character inside is cut there, the empty text comes back as fifteen of them |
| Crypto.LawfulExists | packages/crypto/src/index.ts:8-49 | what is assumed of cipher, digest, base64 and UTF-8 can be met |
| Crypto.DecryptPadded | packages/crypto/src/index.ts:16-49 | the digest is accepted and the padded text comes back, whatever the initialisation vector |
| Crypto.OpenedExactly | packages/crypto/src/index.ts:29-44 | any text is refused if and only if it does not decrypt or what it decrypts to does not begin with the digest of the rest |
| Crypto.SealedLayout | packages/crypto/src/index.ts:16-27 | the sealed bytes: the vector, then digest and padded text encrypted; the padding is one to sixteen zero bytes |
| Crypto.UnquoteQuote | packages/crypto/src/index.ts:29-34 | a sealed text quoted for a query string decrypts to the same |
| ServiceToken.TokenExactly | packages/handler/src/handlerServiceToken.ts:6-49 | a token minted for a session and hosts gives the session exactly on a listed host that is neither the session nor the time, within 30 seconds, and nothing otherwise (minted by packages/safelib/src/index.ts:125-129) |
| ServiceToken.ParsePrinted | packages/handler/src/handlerServiceToken.ts:32 | `parseInt` reads back a printed number |
| ServiceToken.ParseText | packages/handler/src/handlerServiceToken.ts:32 | white space before a number and anything behind it are ignored, a sign is taken, a text without digits is no number |
| ServiceToken.QuotedToken | packages/handler/src/handlerServiceToken.ts:6-49 | a token quoted for a query string gives the same |
| Text.SplitJoin | packages/handler/src/handlerServiceToken.ts:18 | splitting undoes joining when no part holds the separator |
| PasswdModify.BuildRequest | packages/lib-ldap/src/ldap-connection.ts:890-925 | the loop over the parts builds the request with its length |
| PasswdModify.RequestBytes | packages/lib-ldap/src/ldap-connection.ts:890-925 | the bytes of the request, tags and lengths literally |
| PasswdModify.ParseRequest | packages/lib-ldap/src/__tests__/test-ldap-server.ts:471-521 | terminates on every buffer with the fields of its elements, later ones replacing earlier |
| PasswdModify.RoundTrip | packages/lib-ldap/src/ldap-connection.ts:890-925 | the request is read back if and only if each field is at most 255 bytes and the inner length modulo 256 is at most 128 |
| PasswdModify.LongRequestLost | packages/lib-ldap/src/ldap-connection.ts:921-925 | a request of 129 bytes is not read back |
| PasswdModify.ShortRequest | packages/lib-ldap/src/ldap-connection.ts:921-925 | in particular up to 127 bytes behind the length (section 2 of RFC 3062, section 8.1.3.4 of X.690) |
| ConfigChecker.OrExactly | packages/portal/src/plugins/config-checker.ts:26-60 | with `or`, true if and only if some instantiation of the wildcards by existing keys reaches a leaf that counts |
| ConfigChecker.AndExactly | packages/portal/src/plugins/config-checker.ts:26-60 | with `and`, true if and only if every choice of existing keys goes on, with keys at each wildcard, to a leaf that counts |
| ConfigChecker.AndImpliesOr | packages/portal/src/plugins/config-checker.ts:50-54 | `and` implies `or` |
| ConfigChecker.SameWithoutWildcard | packages/portal/src/plugins/config-checker.ts:43-59 | without a wildcard the two are the same |
| ConfigChecker.CheckedExactly | packages/portal/src/plugins/config-checker.ts:19-63 | the same for a path given as text |

## Left out

- Cryptography: AES, SHA-256, base64, random generation, JWT signing and the reading of UTF-8 are parameters with the laws used; freshness of generated identifiers is a hypothesis on each step.
- Awaits inside CAS handlers, refresh grants and session operations: each is one atomic step with one reading of the clock, the PGT callback included; only code redemption is interleaved.
- CAS: attributes per application, `onLogout`, the matching of services to applications and stores that expire tickets on their own; attribute order is the enumeration order of the object.
- OpenID Connect: client credentials and the implicit flow except for the access tokens they store, client assertions, introspection, registration; client authentication is the comparison of secrets made in the grant; of the ID token's own claims only subject, audience and nonce, with claim values as strings and no scope named as an inherited property.
- LDAP: the operations themselves, the parsing of password-policy controls (the mapped code comes with the reply), TLS options; the directory answers each search the same way during one call, and the clock never runs backwards.
- Session caches: in-place sharing of one session object between a cache and its reader, a backend update that fails, the size limit of the memory cache except as entries that vanish, and seconds beyond 2^31.
- Session logout: the clock shows more seconds than the session timeout, so that a start time of zero counts as expired.
- Session backends: one abstract store with a log of all writes; a write-back by another handler counts as another writer.
- Rules: header tables, virtual-host aliases, ports and maintenance; regular expressions and sandboxed expressions are parameters, so is the URL in a logout rule, which the decision does not carry, and names that records inherit from `Object.prototype` are not virtual hosts.
- `CasPatterns`: case folding is that of ASCII, strings are sequences of characters rather than UTF-16 units, and so is the size limit.
- `Base32`: words are the unsigned reading of JavaScript's 32-bit numbers; upper-casing outside ASCII is an arbitrary mapping.
- SAML, CAS 1.0 and proxy responses: the other printers and parsers of the CAS library.
- `PasswdModify`: fields are byte strings; their conversion from and to text is not modelled.
- `shouldEnablePlugin` and `parseConfigCondition`: a prefix and a disjunction over `checkConf`.
- HTTP routing, templates, databases, Redis and PostgreSQL brokers, loggers, device lists.
