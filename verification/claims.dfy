/** Claim extraction: the normalisation of a compact token's payload segment and the
    first-match-wins field priorities used to read a patient identifier or a token
    out of a JSON object. Base64 decoding and JSON parsing stay abstract. */
module Claims {
  import opened Wrappers
  import opened Json
  import Text

  /** The decoders the manager borrows from Foundation, as partial functions:
      `base64Json` is `Data(base64Encoded:)` followed by `JSONSerialization`,
      `textJson` is `s.data(using: .utf8)` followed by `JSONSerialization`. */
  datatype Decoders = Decoders(base64Json: string -> Option<Json>, textJson: string -> Option<Json>)

  // ---------------------------------------------------------------------------
  // Field priorities
  // ---------------------------------------------------------------------------

  /** One step of a first-match-wins priority list over a JSON object. */
  datatype Rule =
    | Plain(key: string)                   // `obj[key] as? String`
    | PatientReference(key: string)        // a string naming `Patient/<id>`
    | Nested(outer: string, inner: string) // `(obj[outer] as? [String: Any])?[inner] as? String`

  /** The identifier named by a reference such as `Patient/123` or
      `https://host/fhir/Patient/123`: when the text contains `Patient/`, the last
      non-empty `/`-separated piece. */
  function PatientReferenceId(v: string): (r: Option<string>)
    ensures r.Some? <==> Text.Contains(v, "Patient/")
    ensures r.Some? ==> r.value != "" && '/' !in r.value
    ensures r.Some? ==> exists k :: Text.FinalRunAt(v, '/', r.value, k)
  {
    if Text.Contains(v, "Patient/") then
      ContainsPatientSplitsNonEmpty(v);
      Text.LastSegmentIsFinalRun(v, '/');
      Some(Text.LastSegment(v, '/'))
    else None
  }

  lemma ContainsPatientSplitsNonEmpty(v: string)
    requires Text.Contains(v, "Patient/")
    ensures Text.Split(v, '/') != []
  {
    var i :| 0 <= i <= |v| - 8 && Text.OccursAt(v, "Patient/", i);
    assert v[i] == v[i..i + 8][0] == 'P';
  }

  function ApplyRule(rule: Rule, obj: Object): Option<string> {
    match rule
    case Plain(key) => StringField(obj, key)
    case PatientReference(key) =>
      var v := StringField(obj, key);
      if v.Some? then PatientReferenceId(v.value) else None
    case Nested(outer, inner) =>
      var o := ObjectField(obj, outer);
      if o.Some? then StringField(o.value, inner) else None
  }

  /** The first rule, in order, that yields a value. */
  function FirstMatch(rules: seq<Rule>, obj: Object): (r: Option<string>)
    ensures r.Some? ==> exists i :: 0 <= i < |rules| && ApplyRule(rules[i], obj) == r
                                    && forall j :: 0 <= j < i ==> ApplyRule(rules[j], obj).None?
    ensures r.None? <==> forall i :: 0 <= i < |rules| ==> ApplyRule(rules[i], obj).None?
  {
    if rules == [] then None
    else
      var head := ApplyRule(rules[0], obj);
      if head.Some? then head else FirstMatch(rules[1..], obj)
  }

  /** The value of the first rule that yields one is the value of the whole list. */
  lemma {:induction false} FirstMatchAt(rules: seq<Rule>, obj: Object, i: nat)
    requires i < |rules| && ApplyRule(rules[i], obj).Some?
    requires forall j :: 0 <= j < i ==> ApplyRule(rules[j], obj).None?
    ensures FirstMatch(rules, obj) == ApplyRule(rules[i], obj)
  {
    if i > 0 {
      assert ApplyRule(rules[0], obj).None?;
      assert forall j :: 0 <= j < i - 1 ==> rules[1..][j] == rules[j + 1];
      FirstMatchAt(rules[1..], obj, i - 1);
    }
  }

  /** Rules that yield nothing can be dropped from the front of the list. */
  lemma {:induction false} FirstMatchSkip(rules: seq<Rule>, obj: Object, i: nat)
    requires i <= |rules|
    requires forall j :: 0 <= j < i ==> ApplyRule(rules[j], obj).None?
    ensures FirstMatch(rules, obj) == FirstMatch(rules[i..], obj)
  {
    if i > 0 {
      assert ApplyRule(rules[0], obj).None?;
      assert forall j :: 0 <= j < i - 1 ==> rules[1..][j] == rules[j + 1];
      FirstMatchSkip(rules[1..], obj, i - 1);
      assert rules[1..][i - 1..] == rules[i..];
    }
  }

  /** Patient claims of a token payload, highest priority first. */
  const TokenClaimRules: seq<Rule> := [
    Plain("patient"), Plain("patient_id"), Plain("patientId"),
    PatientReference("sub"), PatientReference("fhirUser"),
    Nested("patient", "id")
  ]

  /** Patient claims of a free-standing JSON text: no `sub`, no `fhirUser`. */
  const JsonClaimRules: seq<Rule> := [
    Plain("patient"), Plain("patient_id"), Plain("patientId"),
    Nested("patient", "id")
  ]

  /** Token fields of a token response, highest priority first. */
  const TokenFieldRules: seq<Rule> := [
    Plain("access_token"), Plain("id_token"), Plain("refresh_token"),
    Nested("tokenResponse", "access_token"), Nested("tokenResponse", "id_token")
  ]

  /** The patient identifier named by a token's claims. */
  function PatientIdFromTokenClaims(claims: Object): (r: Option<string>)
    ensures r == FirstMatch(TokenClaimRules, claims)
  {
    var patient := StringField(claims, "patient");
    var patientUnderscore := StringField(claims, "patient_id");
    var patientCamel := StringField(claims, "patientId");
    var rules := TokenClaimRules;
    if patient.Some? then FirstMatchAt(rules, claims, 0); patient
    else if patientUnderscore.Some? then FirstMatchAt(rules, claims, 1); patientUnderscore
    else if patientCamel.Some? then FirstMatchAt(rules, claims, 2); patientCamel
    else
      FirstMatchSkip(rules, claims, 3);
      PatientIdFromReferenceClaims(claims)
  }

  /** The lower-priority token claims: `sub` naming a Patient, then `fhirUser`
      naming a Patient, then the nested `patient.id`. */
  function PatientIdFromReferenceClaims(claims: Object): (r: Option<string>)
    ensures r == FirstMatch(TokenClaimRules[3..], claims)
  {
    var sub := StringField(claims, "sub");
    var fhirUser := StringField(claims, "fhirUser");
    var nested := ObjectField(claims, "patient");
    var rules := TokenClaimRules[3..];
    assert rules == [PatientReference("sub"), PatientReference("fhirUser"), Nested("patient", "id")];
    if sub.Some? && Text.Contains(sub.value, "Patient/") then
      FirstMatchAt(rules, claims, 0); PatientReferenceId(sub.value)
    else if fhirUser.Some? && Text.Contains(fhirUser.value, "Patient/") then
      FirstMatchAt(rules, claims, 1); PatientReferenceId(fhirUser.value)
    else if nested.Some? && StringField(nested.value, "id").Some? then
      FirstMatchAt(rules, claims, 2); StringField(nested.value, "id")
    else None
  }

  /** The patient identifier named by a JSON object found in free text. */
  function PatientIdFromJsonClaims(claims: Object): (r: Option<string>)
    ensures r == FirstMatch(JsonClaimRules, claims)
  {
    var patient := StringField(claims, "patient");
    var patientUnderscore := StringField(claims, "patient_id");
    var patientCamel := StringField(claims, "patientId");
    var nested := ObjectField(claims, "patient");
    var rules := JsonClaimRules;
    if patient.Some? then FirstMatchAt(rules, claims, 0); patient
    else if patientUnderscore.Some? then FirstMatchAt(rules, claims, 1); patientUnderscore
    else if patientCamel.Some? then FirstMatchAt(rules, claims, 2); patientCamel
    else if nested.Some? && StringField(nested.value, "id").Some? then
      FirstMatchAt(rules, claims, 3); StringField(nested.value, "id")
    else None
  }

  /** The token named by a token response object. */
  function TokenFromResponse(response: Object): (r: Option<string>)
    ensures r == FirstMatch(TokenFieldRules, response)
  {
    var access := StringField(response, "access_token");
    var id := StringField(response, "id_token");
    var refresh := StringField(response, "refresh_token");
    var rules := TokenFieldRules;
    if access.Some? then FirstMatchAt(rules, response, 0); access
    else if id.Some? then FirstMatchAt(rules, response, 1); id
    else if refresh.Some? then FirstMatchAt(rules, response, 2); refresh
    else
      FirstMatchSkip(rules, response, 3);
      TokenFromNestedResponse(response)
  }

  /** The fallback token fields: the access token, then the identity token, of
      a nested `tokenResponse` object. */
  function TokenFromNestedResponse(response: Object): (r: Option<string>)
    ensures r == FirstMatch(TokenFieldRules[3..], response)
  {
    var inner := ObjectField(response, "tokenResponse");
    var rules := TokenFieldRules[3..];
    assert rules == [Nested("tokenResponse", "access_token"), Nested("tokenResponse", "id_token")];
    if inner.Some? && StringField(inner.value, "access_token").Some? then
      FirstMatchAt(rules, response, 0); StringField(inner.value, "access_token")
    else if inner.Some? && StringField(inner.value, "id_token").Some? then
      FirstMatchAt(rules, response, 1); StringField(inner.value, "id_token")
    else None
  }

  /** The JSON-text strategy is the token strategy with `sub` and `fhirUser` hidden:
      it never consults either claim. */
  lemma JsonClaimsIgnoreSubAndFhirUser(claims: Object)
    ensures PatientIdFromJsonClaims(claims) == PatientIdFromTokenClaims(claims - {"sub", "fhirUser"})
  {
    var hidden := claims - {"sub", "fhirUser"};
    assert StringField(hidden, "sub").None? && StringField(hidden, "fhirUser").None?;
    assert StringField(hidden, "patient") == StringField(claims, "patient");
    assert StringField(hidden, "patient_id") == StringField(claims, "patient_id");
    assert StringField(hidden, "patientId") == StringField(claims, "patientId");
    assert ObjectField(hidden, "patient") == ObjectField(claims, "patient");
  }

  // ---------------------------------------------------------------------------
  // Payload normalisation (section 5 of RFC 4648: base64url to base64)
  // ---------------------------------------------------------------------------

  /** `s.replacingOccurrences(of: from, with: to)` for one-character strings. */
  function ReplaceAll(s: string, from: char, to: char): (r: string)
    ensures |r| == |s|
    ensures forall i :: 0 <= i < |s| ==> r[i] == if s[i] == from then to else s[i]
  {
    seq(|s|, i requires 0 <= i < |s| => if s[i] == from then to else s[i])
  }

  /** `String(repeating: ch, count: n)` */
  function Repeat(ch: char, n: nat): (r: string)
    ensures |r| == n && forall i :: 0 <= i < n ==> r[i] == ch
  {
    seq(n, _ => ch)
  }

  /** The character of the standard base64 alphabet standing for a URL-safe one. */
  function StandardChar(ch: char): char {
    if ch == '-' then '+' else if ch == '_' then '/' else ch
  }

  /** The text handed to the base64 decoder for a payload segment: `-` becomes `+`,
      `_` becomes `/`, and `=` is appended up to the next multiple of four. */
  function NormalisePayload(segment: string): (r: string)
    ensures |r| % 4 == 0
    ensures |segment| <= |r| < |segment| + 4
    ensures |segment| % 4 == 0 ==> |r| == |segment|
    ensures forall i :: 0 <= i < |segment| ==> r[i] == StandardChar(segment[i])
    ensures forall i :: |segment| <= i < |r| ==> r[i] == '='
    ensures '-' !in r && '_' !in r
  {
    var standard := ReplaceAll(ReplaceAll(segment, '-', '+'), '_', '/');
    var padLen := 4 - |standard| % 4;
    if padLen < 4 then standard + Repeat('=', padLen) else standard
  }

  /** The character of the URL-safe alphabet standing for a standard one. */
  function UrlSafeChar(ch: char): char {
    if ch == '+' then '-' else if ch == '/' then '_' else ch
  }

  /** The URL-safe form of a standard-alphabet text. */
  function ToUrlAlphabet(s: string): (r: string)
    ensures |r| == |s|
    ensures forall i :: 0 <= i < |s| ==> r[i] == UrlSafeChar(s[i])
  {
    seq(|s|, i requires 0 <= i < |s| => UrlSafeChar(s[i]))
  }

  /** `s` with every trailing `=` removed. */
  function StripPadding(s: string): (r: string)
    ensures |r| <= |s| && r == s[..|r|]
    ensures r == [] || r[|r| - 1] != '='
    ensures forall i :: |r| <= i < |s| ==> s[i] == '='
  {
    if s != [] && s[|s| - 1] == '=' then StripPadding(s[..|s| - 1]) else s
  }

  /** A base64url segment without padding (as section 2 of RFC 7515 writes them)
      is recovered from its normalised form by stripping the padding and mapping
      the alphabet back. */
  lemma NormalisePayloadRoundTrip(segment: string)
    requires '+' !in segment && '/' !in segment
    requires segment == [] || segment[|segment| - 1] != '='
    ensures ToUrlAlphabet(StripPadding(NormalisePayload(segment))) == segment
  {
    var r := NormalisePayload(segment);
    var stripped := StripPadding(r);
    assert |stripped| == |segment|;
    forall i | 0 <= i < |segment|
      ensures ToUrlAlphabet(stripped)[i] == segment[i]
    {
      assert segment[i] in segment;
      assert stripped[i] == r[i] == StandardChar(segment[i]);
    }
  }

  // ---------------------------------------------------------------------------
  // The three extraction strategies
  // ---------------------------------------------------------------------------

  /** `parseJWTForPatientId`: read the claims in the second `.`-separated segment of
      a compact token (section 7.1 of RFC 7515) and apply the token claim
      priorities; every failure is an absent identifier. */
  function ParseJwtForPatientId(jwt: string, dec: Decoders): (r: Option<string>)
    ensures |Text.Split(jwt, '.')| < 2 ==> r.None?
    ensures |Text.Split(jwt, '.')| >= 2 && AsObject(dec.base64Json(NormalisePayload(Text.Split(jwt, '.')[1]))).None? ==> r.None?
    ensures |Text.Split(jwt, '.')| >= 2 && AsObject(dec.base64Json(NormalisePayload(Text.Split(jwt, '.')[1]))).Some? ==>
              r == FirstMatch(TokenClaimRules, AsObject(dec.base64Json(NormalisePayload(Text.Split(jwt, '.')[1]))).value)
  {
    var comps := Text.Split(jwt, '.');
    if |comps| < 2 then None
    else
      var claims := AsObject(dec.base64Json(NormalisePayload(comps[1])));
      if claims.Some? then PatientIdFromTokenClaims(claims.value) else None
  }

  /** `extractPatientIdFromJSONString`: parse the text as JSON and apply the narrower
      claim priorities. */
  function ExtractPatientIdFromJsonString(s: string, dec: Decoders): (r: Option<string>)
    ensures AsObject(dec.textJson(s)).None? ==> r.None?
    ensures AsObject(dec.textJson(s)).Some? ==> r == FirstMatch(JsonClaimRules, AsObject(dec.textJson(s)).value)
  {
    var claims := AsObject(dec.textJson(s));
    if claims.Some? then PatientIdFromJsonClaims(claims.value) else None
  }

  /** `extractTokenFromJSONString`: parse the text as JSON and pick a token field. */
  function ExtractTokenFromJsonString(s: string, dec: Decoders): (r: Option<string>)
    ensures AsObject(dec.textJson(s)).None? ==> r.None?
    ensures AsObject(dec.textJson(s)).Some? ==> r == FirstMatch(TokenFieldRules, AsObject(dec.textJson(s)).value)
  {
    var response := AsObject(dec.textJson(s));
    if response.Some? then TokenFromResponse(response.value) else None
  }

  /** Only the second segment of a compact token is read: the header and whatever
      follows the payload (the signature, or more segments) make no difference. */
  lemma ParseJwtReadsPayloadSegment(header: string, payload: string, rest: string, dec: Decoders)
    requires header != [] && '.' !in header
    requires payload != [] && '.' !in payload
    requires rest == [] || rest[0] == '.'
    ensures ParseJwtForPatientId(header + "." + payload + rest, dec)
         == (var claims := AsObject(dec.base64Json(NormalisePayload(payload)));
             if claims.Some? then FirstMatch(TokenClaimRules, claims.value) else None)
  {
    PayloadIsSecondPiece(header, payload, rest);
  }

  /** The second piece of `header.payload[.rest]` is `payload`. */
  lemma PayloadIsSecondPiece(header: string, payload: string, rest: string)
    requires header != [] && '.' !in header
    requires payload != [] && '.' !in payload
    requires rest == [] || rest[0] == '.'
    ensures |Text.Split(header + "." + payload + rest, '.')| >= 2
    ensures Text.Split(header + "." + payload + rest, '.')[1] == payload
  {
    assert header + "." + payload + rest == header + (['.'] + (payload + rest));
    Text.SplitSecondWord(header, payload, rest, '.');
  }

  /** A three-segment token whose payload decodes to an object with a string
      `patient` claim yields exactly that claim. */
  lemma TokenPatientClaimIsReturned(header: string, payload: string, signature: string,
                                    dec: Decoders, claims: Object, patient: string)
    requires header != [] && '.' !in header
    requires payload != [] && '.' !in payload
    requires dec.base64Json(NormalisePayload(payload)) == Some(JObject(claims))
    requires "patient" in claims && claims["patient"] == JString(patient)
    ensures ParseJwtForPatientId(header + "." + payload + "." + signature, dec) == Some(patient)
  {
    assert header + "." + payload + "." + signature == header + "." + payload + ("." + signature);
    ParseJwtReadsPayloadSegment(header, payload, "." + signature, dec);
    FirstMatchAt(TokenClaimRules, claims, 0);
  }
}
