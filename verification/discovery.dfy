/** Locating the revocation endpoint (section 2 of RFC 7009) and the end-session
    endpoint (section 3 of OpenID Connect Discovery 1.0 and its RP-initiated logout
    companion) from a SMART configuration document, optionally merged with the
    issuer's OpenID configuration under the key `_oidc`. The fetches themselves are
    inputs: a document is `None` when it could not be fetched or parsed. */
module Discovery {
  import opened Wrappers
  import opened Json

  const OidcKey := "_oidc"

  datatype Endpoints = Endpoints(revocation: Option<string>, endSession: Option<string>)

  /** The two endpoint fields of one document. */
  function EndpointsOf(doc: Object): Endpoints {
    Endpoints(StringField(doc, "revocation_endpoint"), StringField(doc, "end_session_endpoint"))
  }

  /** `discoveryRevocationAndEndSession(from:)`: the primary document's endpoints when
      it names a revocation endpoint, otherwise those of the merged OpenID document,
      otherwise none. Both endpoints always come from the same document. */
  function SelectEndpoints(doc: Option<Object>): (r: Endpoints)
    ensures doc.None? ==> r == Endpoints(None, None)
    ensures doc.Some? && StringField(doc.value, "revocation_endpoint").Some? ==> r == EndpointsOf(doc.value)
    ensures doc.Some? && StringField(doc.value, "revocation_endpoint").None? ==>
              r == (var oidc := ObjectField(doc.value, OidcKey);
                    if oidc.Some? then EndpointsOf(oidc.value) else Endpoints(None, None))
  {
    if doc.None? then Endpoints(None, None)
    else
      var primary := doc.value;
      var rev := StringField(primary, "revocation_endpoint");
      if rev.Some? then Endpoints(rev, StringField(primary, "end_session_endpoint"))
      else
        var oidc := ObjectField(primary, OidcKey);
        if oidc.Some? then Endpoints(StringField(oidc.value, "revocation_endpoint"), StringField(oidc.value, "end_session_endpoint"))
        else Endpoints(None, None)
  }

  /** A primary end-session endpoint is never reported unless the primary document
      also names a revocation endpoint. */
  lemma PrimaryEndSessionNeedsPrimaryRevocation(doc: Object)
    requires StringField(doc, "revocation_endpoint").None?
    ensures SelectEndpoints(Some(doc)) == SelectEndpoints(Some(doc - {"end_session_endpoint"}))
  {
    var trimmed := doc - {"end_session_endpoint"};
    assert StringField(trimmed, "revocation_endpoint").None?;
    assert ObjectField(trimmed, OidcKey) == ObjectField(doc, OidcKey);
  }

  /** `fetchDiscovery`'s result: the primary document when it is a JSON object; when
      it names an `issuer`, the issuer's OpenID configuration is stored under `_oidc`
      if that second document is a JSON object. `secondary` stands for the second
      fetch and is `None` when the issuer is not a URL or the fetch failed. */
  function MergeDiscovery(primary: Option<Json>, secondary: Option<Json>): (r: Option<Object>)
    ensures r.Some? <==> AsObject(primary).Some?
    ensures r.Some? ==> forall k :: k in AsObject(primary).value && k != OidcKey ==>
                          k in r.value && r.value[k] == AsObject(primary).value[k]
    ensures r.Some? ==> r.value.Keys <= AsObject(primary).value.Keys + {OidcKey}
    ensures r.Some? && StringField(AsObject(primary).value, "issuer").Some? && AsObject(secondary).Some? ==>
              OidcKey in r.value && r.value[OidcKey] == JObject(AsObject(secondary).value)
    ensures r.Some? && (StringField(AsObject(primary).value, "issuer").None? || AsObject(secondary).None?) ==>
              r == AsObject(primary)
  {
    var doc := AsObject(primary);
    if doc.None? then None
    else if StringField(doc.value, "issuer").Some? && AsObject(secondary).Some? then
      Some(doc.value[OidcKey := JObject(AsObject(secondary).value)])
    else doc
  }

  /** When the SMART document names an issuer but no revocation endpoint, and the
      issuer's OpenID configuration names one, that one is selected together with
      the OpenID end-session endpoint. */
  lemma IssuerDocumentSuppliesMissingRevocation(primary: Object, secondary: Object)
    requires StringField(primary, "issuer").Some?
    requires StringField(primary, "revocation_endpoint").None?
    requires StringField(secondary, "revocation_endpoint").Some?
    ensures SelectEndpoints(MergeDiscovery(Some(JObject(primary)), Some(JObject(secondary)))) == EndpointsOf(secondary)
  {
    var merged := MergeDiscovery(Some(JObject(primary)), Some(JObject(secondary)));
    assert StringField(merged.value, "revocation_endpoint").None?;
  }

  /** A revocation endpoint named by the SMART document itself wins over anything
      the issuer's document says. */
  lemma PrimaryRevocationWins(primary: Object, secondary: Option<Json>)
    requires StringField(primary, "revocation_endpoint").Some?
    ensures SelectEndpoints(MergeDiscovery(Some(JObject(primary)), secondary)).revocation
         == StringField(primary, "revocation_endpoint")
  {
    var merged := MergeDiscovery(Some(JObject(primary)), secondary);
    assert StringField(merged.value, "revocation_endpoint") == StringField(primary, "revocation_endpoint");
  }

  /** The endpoint settings of `FHIRConfig` that logout consults. */
  datatype EndpointConfig = EndpointConfig(revocationEndpoint: Option<string>, discoveryURL: Option<string>)

  /** Where `logout` sends the revocation request for the access token, if anywhere:
      the configured endpoint, else (when a discovery URL is configured) the one
      discovery selects. `discovered` is the outcome of `fetchDiscovery`. */
  function RevocationTarget(token: Option<string>, config: EndpointConfig, discovered: Option<Object>): (r: Option<string>)
    ensures token.None? ==> r.None?
    ensures token.Some? && config.revocationEndpoint.Some? ==> r == config.revocationEndpoint
    ensures config.revocationEndpoint.None? && config.discoveryURL.None? ==> r.None?
    ensures token.Some? && config.revocationEndpoint.None? && config.discoveryURL.Some? ==>
              r == SelectEndpoints(discovered).revocation
  {
    if token.None? then None
    else if config.revocationEndpoint.Some? then config.revocationEndpoint
    else if config.discoveryURL.Some? then SelectEndpoints(discovered).revocation
    else None
  }
}
