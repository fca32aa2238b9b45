# SMART on FHIR demo: OAuth manager model

A Dafny model of `OAuthManager`, the class of the SMART on FHIR iOS demo that
carries the app's authorization session. It has two halves.

- **Identity and token extraction.** These are pure functions that read a
  patient identifier or a token out of text:
  - the claims of a compact token (`parseJWTForPatientId`);
  - a JSON text (`extractPatientIdFromJSONString`, `extractTokenFromJSONString`);
  - the engine's opaque server state, scanned depth first to a fixed depth
    (`searchMirrorForPatientId`);
  - the token-shape recognisers (`isLikelyJWT`, `findJWTInString`);
  - the selection of the revocation and end-session endpoints from a discovery
    document (`discoveryRevocationAndEndSession`, `fetchDiscovery`'s merge).
- **The session state machine.** The published fields `isAuthorized`,
  `accessToken`, `idToken` and `patientId`, the pending authorize completion, and
  the launch guards of patient selection. Each of `authorize`, the authorize
  callback, `handleRedirect`, `startPatientSelection`, `beginSelectionFromUI`,
  `reselectPatient`, `selectPatientNonDestructive`, `logout` and the keychain
  helpers is a pure transition. It returns the next state and the list of effects
  it asks of the outside world.

Modules:
- `Wrappers` (`Option`);
- `Text` (Swift's `split`, `contains`, `lowercased` on `seq<char>`);
- `Json` (the values `JSONSerialization` yields, and the `as?` casts);
- `Claims` (payload normalisation, claim and token-field priorities, the three
  extraction functions);
- `TokenShape`;
- `Discovery`;
- `ServerScan` (the server state as a tree, the bounded scan, token collection,
  identity resolution);
- `Session`.

Base64 decoding and JSON parsing stay abstract. They are the two partial
functions of `Claims.Decoders`, and every property holds for every choice of
them.

Where the code and the repository's own comments disagree, the model follows the code. The comment on the logout button (SMARTFHIRDemo/ContentView.swift:67-68) says logout clears the tokens; the comment on `discoveryURL` (SMARTFHIRDemo/Utilities/Constants.swift:15-16) says discovery locates the revocation and end-session endpoints. In the code:

- `logout` clears `isAuthorized`, `accessToken` and `patientId` but not
  `idToken`.
- RP-initiated logout uses only the configured end-session endpoint. It never
  falls back to discovery.
- `forceReauthorize`, which `ContentView.swift` calls, is not defined in
  `OAuthManager.swift`. It is not part of this model.

Behaviour of the code that the model keeps, and that a reader may not expect:

- A second `authorize` before the first completes replaces the pending
  completion. The first caller is never called back (`Session.AuthorizeOrphansEarlierCaller`).
- The engine authorize started by `startPatientSelection` reports through the
  authorize callback. When no completion is pending, that callback ignores the
  outcome entirely.
- The aggressive `reselectPatient` does not reset `isSelectingPatient`. A
  selection already in progress therefore still refuses the fresh one.
- `logout` may fill `idToken` by collecting tokens, and then keeps it.
- The aggressive `reselectPatient` collects tokens from the engine and then
  clears them at once, so the collection has no lasting effect.
- In `beginSelectionFromUI`, the engine reset is queued before the engine is
  replaced but runs after it, so it resets the fresh engine. The engine that was
  awaiting a callback is dropped without a reset.

## Model

| member | source | states |
|---|---|---|
| `Text.Split` | SMARTFHIRDemo/Utilities/OAuthManager.swift:145 | Swift's `split(separator:)`: every piece is non-empty and free of the separator, the pieces written one after another are the input with every separator removed, and there are no pieces exactly when the input is separators only (so the empty input has none); with `Text.SplitSkipsSeparator` and `Text.SplitLeadingWord` these fix the pieces of every input |
| `Text.SplitSkipsSeparator` | SMARTFHIRDemo/Utilities/OAuthManager.swift:223-225 | a leading separator yields no piece, so leading, trailing and repeated separators never produce empty pieces (`a..b.c` splits into `a`, `b`, `c`) |
| `Text.SplitLeadingWord` | SMARTFHIRDemo/Utilities/OAuthManager.swift:223-225 | a leading run of non-separators that ends at a separator or at the end of the input is exactly the first piece, and the remainder is split the same way |
| `Text.SplitJoinRoundTrip` | SMARTFHIRDemo/Utilities/OAuthManager.swift:145 | on inputs that are non-empty, separator-free words joined by single separators, splitting returns exactly those words |
| `Claims.NormalisePayload` | SMARTFHIRDemo/Utilities/OAuthManager.swift:224-227 | the decoder's input has length a multiple of four; 0 to 3 `=` are added and none when already aligned; each character is mapped `-`→`+`, `_`→`/`; no `-` or `_` remains |
| `Claims.NormalisePayloadRoundTrip` | SMARTFHIRDemo/Utilities/OAuthManager.swift:224-227 | for an unpadded base64url segment, stripping the padding and mapping the alphabet back recovers the segment |
| `Claims.PatientReferenceId` | SMARTFHIRDemo/Utilities/OAuthManager.swift:234-237 | a reference yields an id exactly when it contains `Patient/`; the id is the final non-empty `/`-free run of the text |
| `Claims.FirstMatch` | SMARTFHIRDemo/Utilities/OAuthManager.swift:231-238 | reference semantics of a priority list: the value of the earliest rule that yields one, and none exactly when no rule yields |
| `Claims.PatientIdFromTokenClaims` | SMARTFHIRDemo/Utilities/OAuthManager.swift:231-238 | the token claim order `patient`, `patient_id`, `patientId`, `sub` naming a Patient, `fhirUser` naming a Patient, nested `patient.id` is the first-match rule over that list |
| `Claims.PatientIdFromReferenceClaims` | SMARTFHIRDemo/Utilities/OAuthManager.swift:234-238 | once the three plain claims are absent, `sub` naming a Patient, then `fhirUser` naming a Patient, then nested `patient.id` decide, as the first-match rule over the tail of the claim list |
| `Claims.PatientIdFromJsonClaims` | SMARTFHIRDemo/Utilities/OAuthManager.swift:245-248 | the JSON-text claim order `patient`, `patient_id`, `patientId`, nested `patient.id` is the first-match rule over that list |
| `Claims.JsonClaimsIgnoreSubAndFhirUser` | SMARTFHIRDemo/Utilities/OAuthManager.swift:242-251 | the JSON-text strategy equals the token strategy with `sub` and `fhirUser` removed, so it never consults either |
| `Claims.TokenFromResponse` | SMARTFHIRDemo/Utilities/OAuthManager.swift:535-542 | token fields in the order `access_token`, `id_token`, `refresh_token`, `tokenResponse.access_token`, `tokenResponse.id_token`, first match wins |
| `Claims.TokenFromNestedResponse` | SMARTFHIRDemo/Utilities/OAuthManager.swift:539-542 | the nested `tokenResponse` object's access token, then its identity token, as the first-match rule over the tail of the token field list |
| `Claims.ParseJwtForPatientId` | SMARTFHIRDemo/Utilities/OAuthManager.swift:222-240 | fewer than two non-empty segments, or a payload that does not decode to an object, yields no id; otherwise the id is the first-match claim of the decoded second segment |
| `Claims.ParseJwtReadsPayloadSegment` | SMARTFHIRDemo/Utilities/OAuthManager.swift:223-225 | only the second segment is read: any header and any trailing segments give the same result |
| `Claims.TokenPatientClaimIsReturned` | SMARTFHIRDemo/Utilities/OAuthManager.swift:222-231 | a three-segment token whose payload has a string `patient` claim yields exactly that claim |
| `Claims.ExtractPatientIdFromJsonString` | SMARTFHIRDemo/Utilities/OAuthManager.swift:242-251 | text that does not parse to an object yields nothing; otherwise the JSON-text first-match claim |
| `Claims.ExtractTokenFromJsonString` | SMARTFHIRDemo/Utilities/OAuthManager.swift:533-545 | text that does not parse to an object yields nothing; otherwise the first-match token field |
| `TokenShape.IsLikelyJwtIff` | SMARTFHIRDemo/Utilities/OAuthManager.swift:144-153 | `isLikelyJWT` holds iff there are at least two non-empty `.`-segments and every character is `.` or in `[A-Za-z0-9-_=]` |
| `TokenShape.FindJwtInString` | SMARTFHIRDemo/Utilities/OAuthManager.swift:212-220 | the result is the first space-separated word with 2 or 3 non-empty `.`-segments; it is non-empty and space-free; none exactly when no word has that shape |
| `TokenShape.FoundJwtIsSubstring` | SMARTFHIRDemo/Utilities/OAuthManager.swift:212-220 | the word found is a contiguous piece of the input |
| `Discovery.SelectEndpoints` | SMARTFHIRDemo/Utilities/OAuthManager.swift:135-142 | no document gives no endpoints; a primary revocation endpoint is paired with the primary end-session endpoint; otherwise both come from `_oidc` if it is an object, else none |
| `Discovery.PrimaryEndSessionNeedsPrimaryRevocation` | SMARTFHIRDemo/Utilities/OAuthManager.swift:136-141 | without a primary revocation endpoint, the primary end-session endpoint makes no difference |
| `Discovery.MergeDiscovery` | SMARTFHIRDemo/Utilities/OAuthManager.swift:106-133 | a result exists iff the SMART document is an object; it keeps every primary key; with an issuer and an object OpenID document the latter is stored under `_oidc`, otherwise the primary document is returned as is |
| `Discovery.IssuerDocumentSuppliesMissingRevocation` | SMARTFHIRDemo/Utilities/OAuthManager.swift:116-141 | with an issuer and no primary revocation endpoint, both endpoints are those of the issuer's OpenID configuration |
| `Discovery.PrimaryRevocationWins` | SMARTFHIRDemo/Utilities/OAuthManager.swift:106-142 | a revocation endpoint in the SMART document is selected whatever the issuer's document says |
| `Discovery.RevocationTarget` | SMARTFHIRDemo/Utilities/OAuthManager.swift:273-285 | no token, no revocation; a configured endpoint wins; else, with a discovery URL, the discovered revocation endpoint; else none |
| `ServerScan.ScanText` | SMARTFHIRDemo/Utilities/OAuthManager.swift:198-205 | a text yields the claims of its first token-shaped word, falling back to the JSON-text strategy when that word names no patient |
| `ServerScan.SearchChildren` | SMARTFHIRDemo/Utilities/OAuthManager.swift:195-210 | nothing is found below depth 6 |
| `ServerScan.SearchIsFirstHitInPreorder` | SMARTFHIRDemo/Utilities/OAuthManager.swift:195-210 | the scan returns the probe's value on the first text, in depth-first pre-order up to depth 6, that yields one |
| `ServerScan.PruneHeight` | SMARTFHIRDemo/Utilities/OAuthManager.swift:195-196 | cutting the tree below depth 6 leaves at most seven levels from the top |
| `ServerScan.SearchIgnoresDeepChildren` | SMARTFHIRDemo/Utilities/OAuthManager.swift:195-196 | the scan's result is unchanged when every child below depth 6 is removed, however deep the state nests |
| `ServerScan.ScanServer` | SMARTFHIRDemo/Utilities/OAuthManager.swift:190-191 | the server scan is the first hit of the text probe over the pre-order listing |
| `ServerScan.StoreFound` | SMARTFHIRDemo/Utilities/OAuthManager.swift:505 | a found token fills the access slot if empty, else the id slot if empty, else nothing |
| `ServerScan.InspectString` | SMARTFHIRDemo/Utilities/OAuthManager.swift:502-514 | a plausible JSON token field of the text goes to the access slot if empty, else the id slot if empty; failing that, a token-shaped word that passes the JWT test does the same; failing both, nothing changes; whatever is stored is a plausible token found in the text, and a filled slot stays filled |
| `ServerScan.CollectStep` | SMARTFHIRDemo/Utilities/OAuthManager.swift:516-528 | a labelled string whose lower-cased label contains `access` and `token` overwrites the access slot when plausible; otherwise one whose label contains `id` and `token` overwrites the id slot when plausible; any other child's text goes through `inspectString`; whatever is stored is offered by the child |
| `ServerScan.CollectLoop` | SMARTFHIRDemo/Utilities/OAuthManager.swift:516-530 | each slot keeps its value or receives a plausible token (token-shaped or over 100 characters); a filled slot is never emptied; every token it stores is offered by some visited child; from two empty slots, nothing is collected exactly when no child on its own would fill a slot |
| `ServerScan.CollectLoopSingle` | SMARTFHIRDemo/Utilities/OAuthManager.swift:516-529 | over one child the loop is exactly one step |
| `ServerScan.CollectLoopAppend` | SMARTFHIRDemo/Utilities/OAuthManager.swift:516-530 | the loop over `a + b` runs over `a` and then carries on over `b` unless both slots are filled: the scan stops only once both slots hold a token |
| `ServerScan.CollectStopsOnceComplete` | SMARTFHIRDemo/Utilities/OAuthManager.swift:529 | once both slots are filled, the remaining children are never visited |
| `ServerScan.CollectTokensIfNeeded` | SMARTFHIRDemo/Utilities/OAuthManager.swift:498-531 | no-op when either slot is set; otherwise each slot keeps its value or receives a plausible token offered by a top-level child of the server state, and nothing is collected exactly when no child on its own would fill a slot |
| `ServerScan.CollectIdempotent` | SMARTFHIRDemo/Utilities/OAuthManager.swift:498-499 | collecting twice is collecting once |
| `ServerScan.ResolveIdentity` | SMARTFHIRDemo/Utilities/OAuthManager.swift:186-193 | the access token's claims win, then the id token's, then the server scan; none exactly when all three yield none |
| `Session.TryExtract` | SMARTFHIRDemo/Utilities/OAuthManager.swift:186-193 | tokens are collected into the session before the identifier is resolved from them |
| `Session.Authorize` | SMARTFHIRDemo/Utilities/OAuthManager.swift:31-37 | the caller becomes the pending completion, overwriting any earlier one; nothing else changes; the engine is asked to authorize |
| `Session.ApplyOutcome` | SMARTFHIRDemo/Utilities/OAuthManager.swift:438-471 | an error only deauthorizes; a patient authorizes with its id; otherwise tokens are collected and the session is authorized exactly when an identifier is resolved, which becomes the patient |
| `Session.InitialIgnoresStrayCallback` | SMARTFHIRDemo/Utilities/OAuthManager.swift:7-18 | a new manager is signed out with no caller waiting, so an engine callback before any `authorize` call completes nobody and changes nothing |
| `Session.HandleAuthorizeCallback` | SMARTFHIRDemo/Utilities/OAuthManager.swift:39-81 | no-op without a pending completion; otherwise it is cleared and exactly one completion goes to that caller, reporting success iff the session ends authorized and passing the error through |
| `Session.CompletionFiresOnce` | SMARTFHIRDemo/Utilities/OAuthManager.swift:40-41 | a second callback after the first finds nothing pending and does nothing |
| `Session.AuthorizeOrphansEarlierCaller` | SMARTFHIRDemo/Utilities/OAuthManager.swift:31-41 | after two `authorize` calls the callback completes only the second caller |
| `Session.CallbackMatchesNonDestructiveSelection` | SMARTFHIRDemo/Utilities/OAuthManager.swift:43-80 | the authorize callback changes the session exactly as the non-destructive selection's callback, apart from clearing the pending completion |
| `Session.SelectPatientNonDestructive` | SMARTFHIRDemo/Utilities/OAuthManager.swift:431-438 | the session is untouched and the engine is asked to authorize |
| `Session.NonDestructiveSelectionKeepsPendingCaller` | SMARTFHIRDemo/Utilities/OAuthManager.swift:431-471 | a non-destructive selection and its callback leave a pending `authorize` caller pending and the launch guards unchanged |
| `Session.HandleRedirect` | SMARTFHIRDemo/Utilities/OAuthManager.swift:83-102 | ignored unless the engine awaits a callback; otherwise the URL goes to the engine and tokens are collected; a found identifier authorizes and becomes the patient; with none found, authorization and patient are unchanged |
| `Session.RedirectMatchesCallbackFallback` | SMARTFHIRDemo/Utilities/OAuthManager.swift:83-102 | an awaited redirect collects the same tokens as the callback's fallback branch and ends in the same state when an identifier is found; otherwise it keeps the authorization and patient the callback would clear |
| `Session.StartPatientSelection` | SMARTFHIRDemo/Utilities/OAuthManager.swift:387-428 | refused while selecting or awaiting; a forced login with a URL opens it, records it and sets both guards unless that URL was already launched, in which case nothing happens; otherwise the engine authorizes, reporting to the authorize callback; credentials never change |
| `Session.SelectionLaunchesAtMostOnce` | SMARTFHIRDemo/Utilities/OAuthManager.swift:387-413 | two selection requests in a row open at most one external page |
| `Session.ClearCredentials` | SMARTFHIRDemo/Utilities/OAuthManager.swift:318-321 | all four credential fields are cleared and nothing else changes |
| `Session.BeginSelectionFromUI` | SMARTFHIRDemo/Utilities/OAuthManager.swift:349-385 | without an awaited callback it is a plain selection; with one, the four credentials and the three launch guards are cleared, the stored token deleted, the engine replaced before the queued reset reaches it, and one selection request follows: a forced login reopens its URL even if it was launched before |
| `Session.UiSelectionReopensLaunchedUrl` | SMARTFHIRDemo/Utilities/OAuthManager.swift:373-380 | a forced-login URL already launched is skipped by a plain selection request but reopened by `beginSelectionFromUI` once a callback is awaited, because its teardown resets the launch guards |
| `Session.UiSelectionForgetsStoredToken` | SMARTFHIRDemo/Utilities/OAuthManager.swift:361 | after the teardown of `beginSelectionFromUI` the keychain holds no access token, so loading does not re-authorize |
| `Session.ReselectPatient` | SMARTFHIRDemo/Utilities/OAuthManager.swift:303-343 | non-aggressive: a plain selection; aggressive: the reset effects, then a selection against the fresh engine from the session with the four credentials cleared (tokens collected just before are discarded); a selection in progress leaves only the reset |
| `Session.ReselectForgetsStoredTokenOnlyWhenAggressive` | SMARTFHIRDemo/Utilities/OAuthManager.swift:303-344 | after an aggressive reselection the keychain holds no access token, so loading does not re-authorize; a plain reselection keeps every credential and leaves the keychain as it was |
| `Session.Logout` | SMARTFHIRDemo/Utilities/OAuthManager.swift:264-299 | clears authorization, access token and patient but keeps the (collected) id token; resets the engine first; revokes exactly the collected access token at the selected endpoint, as the only optional effect; then deletes the stored token, replaces the engine, clears site data and hands the id token to RP logout, in that order |
| `Session.SaveTokenToKeychain` | SMARTFHIRDemo/Utilities/OAuthManager.swift:255-257 | a held access token is stored under `accessToken`; other keys keep their values and no other key is added; without an access token the store is unchanged |
| `Session.LoadTokenFromKeychain` | SMARTFHIRDemo/Utilities/OAuthManager.swift:258-260 | a stored token becomes the access token and authorizes; otherwise nothing changes |
| `Session.ApplyStoreEffects` | SMARTFHIRDemo/Utilities/KeychainHelper.swift:16-18 | each deleted key is gone, every other key keeps its value |
| `Session.SaveThenLoadRestoresToken` | SMARTFHIRDemo/Utilities/KeychainHelper.swift:8-14 | loading after saving restores the saved access token and authorizes |
| `Session.LogoutForgetsStoredToken` | SMARTFHIRDemo/Utilities/OAuthManager.swift:264-299 | after logout the keychain holds no access token, so loading does not re-authorize |

## Left out

- Network I/O. The discovery fetches and the revocation POST of `revokeToken` are out. Their outcomes are inputs (`MergeDiscovery`'s arguments and `Logout`'s `discovered`). Revocation is an effect, whatever its success.
- `doRPInitiatedLogout`: only its `idTokenHint` argument is modelled, as the `RpLogout` effect. Building the logout URL from `FHIRConfig` is configuration.
- `UIApplication.open`, cookie clearing and `WKWebsiteDataStore` clearing. They appear only as the effects `OpenExternal` and `ClearSiteData`.
- `DispatchQueue` and `DispatchGroup` scheduling and the 0.12 s and 0.18 s delays. Each transition is one atomic step. Its effects are listed in the order they take effect where the order decides which engine receives the reset. `Logout` lists its engine reset first, in program order. The source queues the reset on the main queue while the revocation request starts at once, so the two may take effect in either order; neither depends on the other. Interleavings with other events are not modelled.
- `tryGetAuthSettings` and the construction of the forced-login URL. `StartPatientSelection` takes the finished URL as an input, `None` when no settings or no URL are available.
- `SMART.Client` internals. `awaitingAuthCallback` is an input. `authorize`, `didRedirect`, `reset` and client re-creation are effects. The server state after an event is an input tree. A freshly created client is taken to await no callback.
- `Mirror` and `String(describing:)`. They are replaced by the explicit tree `ServerScan.Value`, whose composite values carry their rendering. A finite tree cannot represent the cyclic object graphs that the depth bound of `searchMirrorForPatientId` guards against, so in the model the scan terminates by construction and the bound only limits which children are visited.
- Base64 decoding and JSON parsing. They are abstract partial functions. JSON numbers are kept as their literal text, since no number is ever read.
- Unicode. Swift's `Character` is modelled as one Dafny `char`, with no grapheme clustering. `lowercased()` is modelled on ASCII letters only, which decides the label tests of token collection for ASCII labels.
- `Session.HandleAuthorizeCallback`: the engine's `Patient.id` is taken to be the id string directly, so `patient.id?.string` conversion is not modelled.
- `forceReauthorize`: it is not part of this model, because `OAuthManager.swift` does not define it.
- The `dismiss` closures of the selection entry points. They only close UI.
- SwiftUI views, `FHIRService`, `PatientViewModel`, `Patient` and `Constants`.
