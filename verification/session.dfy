/** The manager's published session state and its transitions. Each transition is
    one atomic step: the work the source splits across the main queue and short
    delays is applied in program order. What the step asks of the outside world
    (the SMART engine, the browser, the keychain, the network) is returned as a
    list of effects; what the outside world reports back is an argument. */
module Session {
  import opened Wrappers
  import opened Json
  import opened Claims
  import opened Discovery
  import opened ServerScan

  /** Identity of a caller waiting on `authorize(completion:)`. */
  type CallerId = nat

  /** An opaque protocol error reported by the engine. */
  type ErrorId = nat

  datatype Session = Session(
    isAuthorized: bool,
    accessToken: Option<string>,
    idToken: Option<string>,
    patientId: Option<string>,
    pendingCompletion: Option<CallerId>,
    externalAuthLaunched: bool,
    lastExternalAuthURL: Option<string>,
    isSelectingPatient: bool)

  /** The state right after `init()`. */
  const Initial := Session(false, None, None, None, None, false, None, false)

  /** A freshly created manager is signed out with no caller waiting, so an engine
      callback that arrives before any `authorize` call completes nobody and
      changes nothing. */
  lemma InitialIgnoresStrayCallback(outcome: AuthOutcome, server: seq<Child>, dec: Decoders)
    ensures !Initial.isAuthorized && Initial.accessToken.None? && Initial.patientId.None?
    ensures HandleAuthorizeCallback(Initial, outcome, server, dec) == Step(Initial, [])
  {
  }

  /** The keychain key the access token is stored under. */
  const TokenKey := "accessToken"

  /** The callback the engine invokes when an authorize request finishes:
      `handleAuthorizeCallback`, or the closure of `selectPatientNonDestructive`,
      which applies the same outcome rule but completes no caller. */
  datatype Handler = CallbackHandler | SelectionHandler

  datatype Effect =
    | EngineAuthorize(handler: Handler)  // `client.authorize(callback:)`
    | EngineDidRedirect(url: string)     // `client.didRedirect(to:)`
    | EngineReset                        // `client.reset()`
    | EngineRecreate                     // a fresh `SMART.Client`
    | DeleteStoredToken(key: string)     // `KeychainHelper.deleteToken(forKey:)`
    | ClearSiteData                      // cookies and `WKWebsiteDataStore`
    | OpenExternal(url: string)          // `UIApplication.shared.open`
    | Revoke(token: string, endpoint: string)
    | RpLogout(idTokenHint: Option<string>)
    | Complete(caller: CallerId, success: bool, error: Option<ErrorId>)

  datatype Step = Step(session: Session, effects: seq<Effect>)

  /** The engine's structured patient result; its `id` may itself be absent. */
  datatype PatientResult = PatientResult(id: Option<string>)

  /** What the engine hands the authorize callback. */
  datatype AuthOutcome = AuthOutcome(patient: Option<PatientResult>, error: Option<ErrorId>)

  function TokensOf(s: Session): Tokens {
    Tokens(s.accessToken, s.idToken)
  }

  function WithTokens(s: Session, t: Tokens): Session {
    s.(accessToken := t.access, idToken := t.id)
  }

  /** Everything but the credential fields and the pending completion is unchanged. */
  predicate SameGuards(a: Session, b: Session) {
    && a.externalAuthLaunched == b.externalAuthLaunched
    && a.lastExternalAuthURL == b.lastExternalAuthURL
    && a.isSelectingPatient == b.isSelectingPatient
  }

  /** The credential fields and the pending completion are unchanged. */
  predicate SameCredentials(a: Session, b: Session) {
    && a.isAuthorized == b.isAuthorized
    && a.accessToken == b.accessToken
    && a.idToken == b.idToken
    && a.patientId == b.patientId
    && a.pendingCompletion == b.pendingCompletion
  }

  /** `collectTokensFromServerIfNeeded` applied to the session's token slots. */
  function CollectIntoSession(s: Session, server: seq<Child>, dec: Decoders): (r: Session)
    ensures r == WithTokens(s, CollectTokensIfNeeded(TokensOf(s), server, dec))
    ensures s.accessToken.Some? || s.idToken.Some? ==> r == s
  {
    WithTokens(s, CollectTokensIfNeeded(TokensOf(s), server, dec))
  }

  datatype Extraction = Extraction(session: Session, found: Option<string>)

  /** `tryExtractPatientIdFromTokenOrServer`: collect tokens if none is held, then
      resolve the identifier from the access token, the id token, the server state. */
  function TryExtract(s: Session, server: seq<Child>, dec: Decoders): (r: Extraction)
    ensures r.session == CollectIntoSession(s, server, dec)
    ensures r.found == ResolveIdentity(TokensOf(r.session), server, dec)
  {
    var collected := CollectIntoSession(s, server, dec);
    Extraction(collected, ResolveIdentity(TokensOf(collected), server, dec))
  }

  // ---------------------------------------------------------------------------
  // Authorization
  // ---------------------------------------------------------------------------

  /** `authorize(completion:)`: the completion becomes the pending one, replacing
      any completion already pending, and the engine is asked to authorize. */
  function Authorize(s: Session, caller: CallerId): (r: Step)
    ensures r.session.pendingCompletion == Some(caller)
    ensures r.effects == [EngineAuthorize(CallbackHandler)]
    ensures r.session.(pendingCompletion := s.pendingCompletion) == s
  {
    Step(s.(pendingCompletion := Some(caller)), [EngineAuthorize(CallbackHandler)])
  }

  /** The outcome rule shared by the authorize callback and the non-destructive
      selection callback: an error deauthorizes; a structured patient authorizes
      with its id; otherwise tokens are collected and the identifier extracted, and
      the session is authorized exactly when one is found. */
  function ApplyOutcome(s: Session, outcome: AuthOutcome, server: seq<Child>, dec: Decoders): (r: Session)
    ensures SameGuards(r, s) && r.pendingCompletion == s.pendingCompletion
    ensures outcome.error.Some? ==> r == s.(isAuthorized := false)
    ensures outcome.error.None? && outcome.patient.Some? ==>
              r == s.(isAuthorized := true, patientId := outcome.patient.value.id)
    ensures outcome.error.None? && outcome.patient.None? ==>
              && r.isAuthorized == r.patientId.Some?
              && TokensOf(r) == CollectTokensIfNeeded(TokensOf(s), server, dec)
              && r.patientId == ResolveIdentity(TokensOf(r), server, dec)
  {
    if outcome.error.Some? then s.(isAuthorized := false)
    else if outcome.patient.Some? then s.(isAuthorized := true, patientId := outcome.patient.value.id)
    else
      var collected := CollectIntoSession(s, server, dec);
      var extraction := TryExtract(collected, server, dec);
      CollectIdempotent(TokensOf(s), server, dec);
      if extraction.found.Some? then extraction.session.(isAuthorized := true, patientId := extraction.found)
      else extraction.session.(isAuthorized := false, patientId := None)
  }

  /** Whether the completion reports success for an outcome applied by `ApplyOutcome`. */
  function Reported(r: Session, outcome: AuthOutcome): bool {
    outcome.error.None? && (outcome.patient.Some? || r.patientId.Some?)
  }

  /** `handleAuthorizeCallback(patient:error:)`: nothing happens unless a completion
      is pending; otherwise it is cleared and then called exactly once. */
  function HandleAuthorizeCallback(s: Session, outcome: AuthOutcome, server: seq<Child>, dec: Decoders): (r: Step)
    ensures s.pendingCompletion.None? ==> r == Step(s, [])
    ensures s.pendingCompletion.Some? ==>
              && r.session.pendingCompletion.None?
              && |r.effects| == 1 && r.effects[0].Complete?
              && r.effects[0].caller == s.pendingCompletion.value
              && (r.effects[0].success <==> r.session.isAuthorized)
              && r.effects[0].error == outcome.error
    ensures SameGuards(r.session, s)
  {
    match s.pendingCompletion
    case None => Step(s, [])
    case Some(caller) =>
      var cleared := s.(pendingCompletion := None);
      var applied := ApplyOutcome(cleared, outcome, server, dec);
      Step(applied, [Complete(caller, Reported(applied, outcome), outcome.error)])
  }

  /** A completion fires at most once: a second callback finds nothing pending. */
  lemma CompletionFiresOnce(s: Session, first: AuthOutcome, second: AuthOutcome, server: seq<Child>, dec: Decoders)
    requires s.pendingCompletion.Some?
    ensures var after := HandleAuthorizeCallback(s, first, server, dec).session;
            HandleAuthorizeCallback(after, second, server, dec) == Step(after, [])
  {
  }

  /** A second `authorize` before the first completes orphans the first caller: the
      callback completes only the second. */
  lemma AuthorizeOrphansEarlierCaller(s: Session, first: CallerId, second: CallerId,
                                      outcome: AuthOutcome, server: seq<Child>, dec: Decoders)
    requires first != second
    ensures var r := HandleAuthorizeCallback(Authorize(Authorize(s, first).session, second).session, outcome, server, dec);
            forall e :: e in r.effects ==> e.Complete? && e.caller == second
  {
  }

  /** `selectPatientNonDestructive(dismiss:forceLogin:)`: ask the engine to authorize
      with a callback of its own, keeping every credential, the engine and the
      pending completion. `forceLogin` is only logged. */
  function SelectPatientNonDestructive(s: Session, forceLogin: bool): (r: Step)
    ensures r.session == s
    ensures r.effects == [EngineAuthorize(SelectionHandler)]
  {
    Step(s, [EngineAuthorize(SelectionHandler)])
  }

  /** The non-destructive selection's callback never completes a pending caller and
      never touches the launch guards; an `authorize` waiting in the meantime stays
      pending. */
  lemma NonDestructiveSelectionKeepsPendingCaller(s: Session, caller: CallerId, forceLogin: bool,
                                                  outcome: AuthOutcome, server: seq<Child>, dec: Decoders)
    ensures var waiting := Authorize(s, caller).session;
            var started := SelectPatientNonDestructive(waiting, forceLogin).session;
            var after := ApplyOutcome(started, outcome, server, dec);
            after.pendingCompletion == Some(caller) && SameGuards(after, s)
  {
  }

  /** The authorize callback applies the same outcome rule as the non-destructive
      selection callback, once the pending completion is cleared. */
  lemma CallbackMatchesNonDestructiveSelection(s: Session, outcome: AuthOutcome, server: seq<Child>, dec: Decoders)
    requires s.pendingCompletion.Some?
    ensures HandleAuthorizeCallback(s, outcome, server, dec).session
         == ApplyOutcome(s.(pendingCompletion := None), outcome, server, dec)
  {
  }

  /** `handleRedirect(url:)`: ignored unless the engine awaits a callback; otherwise
      the engine consumes the URL (`server` is its state afterwards) and a found
      identifier authorizes the session. It never deauthorizes. */
  function HandleRedirect(s: Session, awaiting: bool, url: string, server: seq<Child>, dec: Decoders): (r: Step)
    ensures !awaiting ==> r == Step(s, [])
    ensures awaiting ==> r.effects == [EngineDidRedirect(url)]
    ensures SameGuards(r.session, s) && r.session.pendingCompletion == s.pendingCompletion
    ensures s.isAuthorized ==> r.session.isAuthorized
    ensures r.session.patientId != s.patientId ==> r.session.patientId.Some? && r.session.isAuthorized
    ensures awaiting ==> TokensOf(r.session) == CollectTokensIfNeeded(TokensOf(s), server, dec)
    ensures awaiting && ResolveIdentity(TokensOf(r.session), server, dec).Some? ==>
              r.session.isAuthorized && r.session.patientId == ResolveIdentity(TokensOf(r.session), server, dec)
    ensures awaiting && ResolveIdentity(TokensOf(r.session), server, dec).None? ==>
              r.session.isAuthorized == s.isAuthorized && r.session.patientId == s.patientId
  {
    if !awaiting then Step(s, [])
    else
      var extraction := TryExtract(s, server, dec);
      var next := if extraction.found.Some? then extraction.session.(isAuthorized := true, patientId := extraction.found)
                  else extraction.session;
      Step(next, [EngineDidRedirect(url)])
  }

  /** A redirect applies the fallback branch of the callback's outcome rule when
      that branch finds an identifier; when it finds none, the redirect leaves the
      authorization and the patient alone where the callback would clear them. */
  lemma RedirectMatchesCallbackFallback(s: Session, url: string, server: seq<Child>, dec: Decoders)
    ensures var redirected := HandleRedirect(s, true, url, server, dec).session;
            var fallback := ApplyOutcome(s, AuthOutcome(None, None), server, dec);
            && TokensOf(redirected) == TokensOf(fallback)
            && (fallback.isAuthorized ==> redirected == fallback)
            && (!fallback.isAuthorized ==>
                  redirected == fallback.(isAuthorized := s.isAuthorized, patientId := s.patientId))
  {
  }

  // ---------------------------------------------------------------------------
  // Patient selection
  // ---------------------------------------------------------------------------

  /** `startPatientSelection(forceLogin:)`. `authorizeUrl` is the forced-login URL the
      engine's settings yield (`None` when there are no settings or no URL). A
      selection in progress or an awaited callback refuses the request; a forced
      login opens the URL unless it is the one already launched; otherwise the
      engine is asked to authorize. Credentials are never touched. */
  function StartPatientSelection(s: Session, awaiting: bool, forceLogin: bool, authorizeUrl: Option<string>): (r: Step)
    ensures s.isSelectingPatient || awaiting ==> r == Step(s, [])
    ensures SameCredentials(r.session, s)
    ensures |r.effects| <= 1
    ensures forall u :: OpenExternal(u) in r.effects ==>
              && forceLogin && authorizeUrl == Some(u)
              && !(s.externalAuthLaunched && s.lastExternalAuthURL == Some(u))
              && r.session == s.(lastExternalAuthURL := Some(u), externalAuthLaunched := true, isSelectingPatient := true)
    ensures forceLogin && authorizeUrl.Some? && s.externalAuthLaunched && s.lastExternalAuthURL == authorizeUrl ==>
              r == Step(s, [])
    ensures !s.isSelectingPatient && !awaiting && forceLogin && authorizeUrl.Some?
            && !(s.externalAuthLaunched && s.lastExternalAuthURL == authorizeUrl) ==>
              r == Step(s.(lastExternalAuthURL := authorizeUrl, externalAuthLaunched := true, isSelectingPatient := true),
                        [OpenExternal(authorizeUrl.value)])
    ensures !s.isSelectingPatient && !awaiting && (!forceLogin || authorizeUrl.None?) ==>
              r == Step(s, [EngineAuthorize(CallbackHandler)])
    ensures r.effects == [] || r.effects == [EngineAuthorize(CallbackHandler)] || r.effects[0].OpenExternal?
  {
    if s.isSelectingPatient || awaiting then Step(s, [])
    else if forceLogin && authorizeUrl.Some? then
      var url := authorizeUrl.value;
      if s.externalAuthLaunched && s.lastExternalAuthURL == Some(url) then Step(s, [])
      else Step(s.(lastExternalAuthURL := Some(url), externalAuthLaunched := true, isSelectingPatient := true),
                [OpenExternal(url)])
    else Step(s, [EngineAuthorize(CallbackHandler)])
  }

  /** Number of external authorization pages a list of effects opens. */
  function Launches(effects: seq<Effect>): nat {
    if effects == [] then 0
    else (if effects[0].OpenExternal? then 1 else 0) + Launches(effects[1..])
  }

  /** Two selection requests in a row open at most one external page. */
  lemma SelectionLaunchesAtMostOnce(s: Session, awaiting1: bool, awaiting2: bool,
                                    force1: bool, force2: bool, url1: Option<string>, url2: Option<string>)
    ensures var first := StartPatientSelection(s, awaiting1, force1, url1);
            var second := StartPatientSelection(first.session, awaiting2, force2, url2);
            Launches(first.effects) + Launches(second.effects) <= 1
  {
    var first := StartPatientSelection(s, awaiting1, force1, url1);
    if first.effects != [] && first.effects[0].OpenExternal? {
      assert OpenExternal(first.effects[0].url) in first.effects;
    }
  }

  /** The four credential fields cleared together. */
  function ClearCredentials(s: Session): (r: Session)
    ensures !r.isAuthorized && r.accessToken.None? && r.idToken.None? && r.patientId.None?
    ensures SameGuards(r, s) && r.pendingCompletion == s.pendingCompletion
  {
    s.(isAuthorized := false, accessToken := None, idToken := None, patientId := None)
  }

  /** The teardown of the aggressive reselection, in the order it takes effect: the
      engine reset is queued ahead of the block that replaces the engine, so the old
      engine is reset first. */
  const ResetEffects: seq<Effect> := [EngineReset, DeleteStoredToken(TokenKey), EngineRecreate, ClearSiteData]

  /** The teardown of `beginSelectionFromUI`, in the order it takes effect. The
      engine reset is queued on the main queue before the engine is replaced, but
      the replacement happens at once, so the queued reset reaches the fresh engine
      and the engine that was awaiting a callback is dropped without a reset. */
  const RecreateFirstEffects: seq<Effect> := [DeleteStoredToken(TokenKey), EngineRecreate, ClearSiteData, EngineReset]

  /** `beginSelectionFromUI(dismiss:forceLogin:)`: when the engine awaits a callback,
      clear the credentials and the launch guards, replace the engine, then start a
      selection against the fresh engine (which awaits nothing); otherwise start a
      selection directly. */
  function BeginSelectionFromUI(s: Session, awaiting: bool, forceLogin: bool, authorizeUrl: Option<string>): (r: Step)
    ensures !awaiting ==> r == StartPatientSelection(s, false, forceLogin, authorizeUrl)
    ensures awaiting ==>
              && !r.session.isAuthorized && r.session.accessToken.None?
              && r.session.idToken.None? && r.session.patientId.None?
              && r.session.pendingCompletion == s.pendingCompletion
              && |r.effects| == |RecreateFirstEffects| + 1
              && r.effects[..|RecreateFirstEffects|] == RecreateFirstEffects
    ensures awaiting && forceLogin && authorizeUrl.Some? ==>
              && r.effects[|RecreateFirstEffects|] == OpenExternal(authorizeUrl.value)
              && r.session.externalAuthLaunched && r.session.lastExternalAuthURL == authorizeUrl
              && r.session.isSelectingPatient
    ensures awaiting && (!forceLogin || authorizeUrl.None?) ==>
              && r.effects[|RecreateFirstEffects|] == EngineAuthorize(CallbackHandler)
              && !r.session.externalAuthLaunched && r.session.lastExternalAuthURL.None?
              && !r.session.isSelectingPatient
  {
    if !awaiting then StartPatientSelection(s, false, forceLogin, authorizeUrl)
    else
      var reset := ClearCredentials(s).(externalAuthLaunched := false, lastExternalAuthURL := None, isSelectingPatient := false);
      var started := StartPatientSelection(reset, false, forceLogin, authorizeUrl);
      Step(started.session, RecreateFirstEffects + started.effects)
  }

  /** A forced login whose URL was already launched is skipped by a plain selection
      request, but reopened by `beginSelectionFromUI` once the engine awaits a
      callback: the teardown resets the launch guards. */
  lemma UiSelectionReopensLaunchedUrl(s: Session, u: string)
    requires s.externalAuthLaunched && s.lastExternalAuthURL == Some(u)
    ensures StartPatientSelection(s, false, true, Some(u)).effects == []
    ensures OpenExternal(u) in BeginSelectionFromUI(s, true, true, Some(u)).effects
  {
    var r := BeginSelectionFromUI(s, true, true, Some(u));
    assert r.effects[|RecreateFirstEffects|] == OpenExternal(u);
  }

  /** The teardown of `beginSelectionFromUI` deletes the stored token, so a later
      load cannot re-authorize the session. */
  lemma UiSelectionForgetsStoredToken(s: Session, forceLogin: bool, authorizeUrl: Option<string>, store: Store)
    ensures var step := BeginSelectionFromUI(s, true, forceLogin, authorizeUrl);
            LoadTokenFromKeychain(step.session, ApplyStoreEffects(store, step.effects)) == step.session
  {
    var step := BeginSelectionFromUI(s, true, forceLogin, authorizeUrl);
    assert step.effects[0] == DeleteStoredToken(TokenKey);
  }

  /** `reselectPatient(dismiss:forceLogin:aggressiveReset:)`. Non-aggressive: start a
      selection, keeping every credential. Aggressive: collect tokens, clear all four
      credential fields, replace the engine, then begin a selection against the
      fresh engine. The launch guards are not reset, so a selection already in
      progress still refuses the new one. */
  function ReselectPatient(s: Session, awaiting: bool, forceLogin: bool, aggressiveReset: bool,
                           authorizeUrl: Option<string>, server: seq<Child>, dec: Decoders): (r: Step)
    ensures !aggressiveReset ==> r == StartPatientSelection(s, awaiting, forceLogin, authorizeUrl)
    ensures aggressiveReset ==>
              && !r.session.isAuthorized && r.session.accessToken.None?
              && r.session.idToken.None? && r.session.patientId.None?
              && r.session.pendingCompletion == s.pendingCompletion
              && |r.effects| >= |ResetEffects|
              && r.effects[..|ResetEffects|] == ResetEffects
    ensures aggressiveReset && s.isSelectingPatient ==> r.effects == ResetEffects && SameGuards(r.session, s)
    ensures aggressiveReset ==>
              var started := StartPatientSelection(ClearCredentials(s), false, forceLogin, authorizeUrl);
              r == Step(started.session, ResetEffects + started.effects)
  {
    if !aggressiveReset then StartPatientSelection(s, awaiting, forceLogin, authorizeUrl)
    else
      var cleared := ClearCredentials(CollectIntoSession(s, server, dec));
      var begun := BeginSelectionFromUI(cleared, false, forceLogin, authorizeUrl);
      Step(begun.session, ResetEffects + begun.effects)
  }

  // ---------------------------------------------------------------------------
  // Logout and the keychain
  // ---------------------------------------------------------------------------

  /** `logout()`: reset the engine, collect tokens, revoke the access token where an
      endpoint is known (`discovered` is what `fetchDiscovery` returns), then clear
      the authorization, the access token and the patient -- but not the id token,
      which is still handed to the RP-initiated logout. The clearing does not
      depend on the revocation's outcome. */
  function Logout(s: Session, server: seq<Child>, config: EndpointConfig, discovered: Option<Object>, dec: Decoders): (r: Step)
    ensures !r.session.isAuthorized && r.session.accessToken.None? && r.session.patientId.None?
    ensures r.session.idToken == CollectTokensIfNeeded(TokensOf(s), server, dec).id
    ensures s.accessToken.Some? || s.idToken.Some? ==> r.session.idToken == s.idToken
    ensures SameGuards(r.session, s) && r.session.pendingCompletion == s.pendingCompletion
    ensures DeleteStoredToken(TokenKey) in r.effects
    ensures RpLogout(r.session.idToken) in r.effects
    ensures 5 <= |r.effects| <= 6 && r.effects[0] == EngineReset
    ensures r.effects[|r.effects| - 4..] == [DeleteStoredToken(TokenKey), EngineRecreate, ClearSiteData, RpLogout(r.session.idToken)]
    ensures |r.effects| == 6 ==> r.effects[1].Revoke?
    ensures forall tok, e :: Revoke(tok, e) in r.effects <==>
              && CollectTokensIfNeeded(TokensOf(s), server, dec).access == Some(tok)
              && RevocationTarget(Some(tok), config, discovered) == Some(e)
  {
    var collected := CollectIntoSession(s, server, dec);
    var revoke := LogoutRevocation(collected.accessToken, config, discovered);
    var cleared := collected.(isAuthorized := false, accessToken := None, patientId := None);
    Step(cleared, LogoutEffects(revoke, collected.idToken))
  }

  /** The revocation `logout()` requests: the held access token at the endpoint
      `RevocationTarget` picks, or nothing. */
  function LogoutRevocation(token: Option<string>, config: EndpointConfig, discovered: Option<Object>): (r: seq<Effect>)
    ensures |r| <= 1 && forall k :: 0 <= k < |r| ==> r[k].Revoke?
    ensures forall tok, e :: Revoke(tok, e) in r <==>
              token == Some(tok) && RevocationTarget(Some(tok), config, discovered) == Some(e)
  {
    var target := RevocationTarget(token, config, discovered);
    if target.Some? then [Revoke(token.value, target.value)] else []
  }

  /** The effects of `logout()` in the order they take effect: the engine reset, the
      revocation if any, then the keychain delete, the fresh engine, the site-data
      clearing and the RP-initiated logout. */
  function LogoutEffects(revoke: seq<Effect>, idTokenHint: Option<string>): (e: seq<Effect>)
    requires |revoke| <= 1
    ensures |e| == 5 + |revoke| && e[0] == EngineReset
    ensures e[|e| - 4..] == [DeleteStoredToken(TokenKey), EngineRecreate, ClearSiteData, RpLogout(idTokenHint)]
    ensures |revoke| == 1 ==> e[1] == revoke[0]
    ensures forall x :: x in e <==> x in revoke || x in [EngineReset, DeleteStoredToken(TokenKey), EngineRecreate, ClearSiteData, RpLogout(idTokenHint)]
  {
    [EngineReset] + revoke + [DeleteStoredToken(TokenKey), EngineRecreate, ClearSiteData, RpLogout(idTokenHint)]
  }

  /** The keychain, as the key-value store `KeychainHelper` wraps. */
  type Store = map<string, string>

  /** `saveTokenToKeychain()` */
  function SaveTokenToKeychain(s: Session, store: Store): (r: Store)
    ensures s.accessToken.Some? ==> TokenKey in r && r[TokenKey] == s.accessToken.value
    ensures s.accessToken.None? ==> r == store
    ensures forall k :: k in store && k != TokenKey ==> k in r && r[k] == store[k]
    ensures r.Keys <= store.Keys + {TokenKey}
  {
    if s.accessToken.Some? then store[TokenKey := s.accessToken.value] else store
  }

  /** `loadTokenFromKeychain()`: a stored token authorizes the session. */
  function LoadTokenFromKeychain(s: Session, store: Store): (r: Session)
    ensures TokenKey in store ==> r == s.(accessToken := Some(store[TokenKey]), isAuthorized := true)
    ensures TokenKey !in store ==> r == s
  {
    if TokenKey in store then s.(accessToken := Some(store[TokenKey]), isAuthorized := true) else s
  }

  /** The keychain after a step's effects: each deletion removes its key. */
  function ApplyStoreEffects(store: Store, effects: seq<Effect>): (r: Store)
    ensures r.Keys <= store.Keys
    ensures forall k :: k in r ==> r[k] == store[k]
    ensures forall k :: DeleteStoredToken(k) in effects ==> k !in r
    ensures forall k :: k in store && DeleteStoredToken(k) !in effects ==> k in r
  {
    if effects == [] then store
    else
      var next := if effects[0].DeleteStoredToken? then store - {effects[0].key} else store;
      ApplyStoreEffects(next, effects[1..])
  }

  /** A saved access token is what a later load restores. */
  lemma SaveThenLoadRestoresToken(s: Session, later: Session, store: Store)
    requires s.accessToken.Some?
    ensures var loaded := LoadTokenFromKeychain(later, SaveTokenToKeychain(s, store));
            loaded.accessToken == s.accessToken && loaded.isAuthorized
  {
  }

  /** An aggressive reselection deletes the stored token, so a later load cannot
      re-authorize the session; a plain reselection keeps every credential. */
  lemma ReselectForgetsStoredTokenOnlyWhenAggressive(s: Session, awaiting: bool, forceLogin: bool, aggressiveReset: bool,
                                                     authorizeUrl: Option<string>, server: seq<Child>, dec: Decoders, store: Store)
    ensures var step := ReselectPatient(s, awaiting, forceLogin, aggressiveReset, authorizeUrl, server, dec);
            aggressiveReset ==> LoadTokenFromKeychain(step.session, ApplyStoreEffects(store, step.effects)) == step.session
    ensures var step := ReselectPatient(s, awaiting, forceLogin, aggressiveReset, authorizeUrl, server, dec);
            !aggressiveReset ==> SameCredentials(step.session, s) && ApplyStoreEffects(store, step.effects) == store
  {
    var step := ReselectPatient(s, awaiting, forceLogin, aggressiveReset, authorizeUrl, server, dec);
    if aggressiveReset {
      assert step.effects[1] == DeleteStoredToken(TokenKey);
    } else {
      var started := StartPatientSelection(s, awaiting, forceLogin, authorizeUrl);
      assert forall k :: DeleteStoredToken(k) !in started.effects;
    }
  }

  /** After a logout the keychain holds no access token, so a later load cannot
      re-authorize the session. */
  lemma LogoutForgetsStoredToken(s: Session, server: seq<Child>, config: EndpointConfig,
                                 discovered: Option<Object>, dec: Decoders, store: Store)
    ensures var step := Logout(s, server, config, discovered, dec);
            LoadTokenFromKeychain(step.session, ApplyStoreEffects(store, step.effects)) == step.session
  {
  }
}
