/** The engine's opaque server state as a tree of labelled children, and the two
    heuristics that read it: the bounded depth-first scan for a patient identifier
    (`searchMirrorForPatientId`) and the one-level token collection
    (`collectTokensFromServerIfNeeded`). The tree stands for what Swift's `Mirror`
    reflects: a child's value is either a `String`, or something else that has a
    rendering (`String(describing:)`) and children of its own. */
module ServerScan {
  import opened Wrappers
  import Text
  import opened Claims
  import TokenShape

  datatype Value =
    | Str(s: string)
    | Composite(description: string, children: seq<Child>)

  datatype Child = Child(name: Option<string>, value: Value)

  /** The deepest level the scan inspects; the top-level children are at depth 0. */
  const MaxDepth := 6

  /** Number of children in the tree below a value, used as a termination measure. */
  function SizeOf(v: Value): nat
    decreases v
  {
    match v
    case Str(_) => 0
    case Composite(_, cs) => ListSize(cs)
  }

  function ChildSize(c: Child): nat
    decreases c
  {
    SizeOf(c.value)
  }

  function ListSize(cs: seq<Child>): nat
    decreases cs
  {
    if cs == [] then 0 else 1 + ChildSize(cs[0]) + ListSize(cs[1..])
  }

  /** The children `Mirror(reflecting:)` shows for a child's value; a string shows
      none. */
  function Kids(c: Child): (cs: seq<Child>)
    ensures ListSize(cs) == ChildSize(c)
  {
    match c.value
    case Str(_) => []
    case Composite(_, cs) => cs
  }

  /** The text the scan examines for a child: the string itself, or its rendering. */
  function ChildText(c: Child): string {
    match c.value
    case Str(s) => s
    case Composite(description, _) => description
  }

  // ---------------------------------------------------------------------------
  // Patient identifier scan
  // ---------------------------------------------------------------------------

  /** What one text yields: a token-shaped word decoded as a token, else the text
      parsed as JSON. A token-shaped word whose claims name no patient does not stop
      the JSON attempt. */
  function ScanText(s: string, dec: Decoders): (r: Option<string>)
    ensures TokenShape.FindJwtInString(s).None? ==> r == ExtractPatientIdFromJsonString(s, dec)
    ensures TokenShape.FindJwtInString(s).Some? ==>
              r == OrElse(ParseJwtForPatientId(TokenShape.FindJwtInString(s).value, dec),
                          ExtractPatientIdFromJsonString(s, dec))
  {
    var jwt := TokenShape.FindJwtInString(s);
    var fromJwt := if jwt.Some? then ParseJwtForPatientId(jwt.value, dec) else None;
    if fromJwt.Some? then fromJwt else ExtractPatientIdFromJsonString(s, dec)
  }

  /** `searchMirrorForPatientId(_:depth:)` over the children `cs` of one value at
      `depth`: each child's text is probed, then (depth first) its own children one
      level deeper, then the next child. Nothing below `MaxDepth` is looked at. The
      manager's probe is `ScanText`. */
  function SearchChildren(cs: seq<Child>, depth: int, probe: string -> Option<string>): (r: Option<string>)
    ensures depth > MaxDepth ==> r.None?
    decreases ListSize(cs)
  {
    if depth > MaxDepth || cs == [] then None
    else
      var here := probe(ChildText(cs[0]));
      if here.Some? then here
      else
        var deeper := SearchChildren(Kids(cs[0]), depth + 1, probe);
        if deeper.Some? then deeper else SearchChildren(cs[1..], depth, probe)
  }

  /** Reference order of the scan: the texts of the children at depths up to
      `MaxDepth`, in depth-first pre-order. */
  function Preorder(cs: seq<Child>, depth: int): seq<string>
    decreases ListSize(cs)
  {
    if depth > MaxDepth || cs == [] then []
    else [ChildText(cs[0])] + Preorder(Kids(cs[0]), depth + 1) + Preorder(cs[1..], depth)
  }

  /** The first text of a list that the probe accepts. */
  function FirstHit(texts: seq<string>, probe: string -> Option<string>): (r: Option<string>)
  {
    if texts == [] then None
    else
      var here := probe(texts[0]);
      if here.Some? then here else FirstHit(texts[1..], probe)
  }

  /** `FirstHit` is a first-match search: it returns the probe's value on the
      earliest accepted text, and nothing exactly when no text is accepted. */
  lemma {:induction false} FirstHitIsFirstMatch(texts: seq<string>, probe: string -> Option<string>)
    ensures FirstHit(texts, probe).Some? ==>
              exists i :: 0 <= i < |texts| && probe(texts[i]) == FirstHit(texts, probe)
                          && forall j :: 0 <= j < i ==> probe(texts[j]).None?
    ensures FirstHit(texts, probe).None? <==> forall i :: 0 <= i < |texts| ==> probe(texts[i]).None?
  {
    if texts != [] && probe(texts[0]).None? {
      FirstHitIsFirstMatch(texts[1..], probe);
      var r := FirstHit(texts, probe);
      if r.Some? {
        var i :| 0 <= i < |texts[1..]| && probe(texts[1..][i]) == r
                 && forall j :: 0 <= j < i ==> probe(texts[1..][j]).None?;
        assert probe(texts[i + 1]) == r;
        assert forall j :: 0 <= j < i + 1 ==> probe(texts[j]).None? by {
          forall j | 0 <= j < i + 1 ensures probe(texts[j]).None? {
            if j > 0 { assert texts[j] == texts[1..][j - 1]; }
          }
        }
      } else {
        assert forall i :: 1 <= i < |texts| ==> texts[i] == texts[1..][i - 1];
      }
    } else if texts != [] {
      assert probe(texts[0]) == FirstHit(texts, probe);
    }
  }

  lemma {:induction false} FirstHitAppend(a: seq<string>, b: seq<string>, probe: string -> Option<string>)
    ensures FirstHit(a + b, probe) == OrElse(FirstHit(a, probe), FirstHit(b, probe))
  {
    if a != [] {
      assert (a + b)[1..] == a[1..] + b;
      FirstHitAppend(a[1..], b, probe);
    } else {
      assert a + b == b;
    }
  }

  /** The scan returns exactly what the first text of the depth-first pre-order
      yields: first match wins, depth first. */
  lemma {:induction false} SearchIsFirstHitInPreorder(cs: seq<Child>, depth: int, probe: string -> Option<string>)
    ensures SearchChildren(cs, depth, probe) == FirstHit(Preorder(cs, depth), probe)
    decreases ListSize(cs)
  {
    if depth <= MaxDepth && cs != [] {
      var below := Preorder(Kids(cs[0]), depth + 1);
      var after := Preorder(cs[1..], depth);
      assert Preorder(cs, depth) == [ChildText(cs[0])] + (below + after);
      FirstHitCons(ChildText(cs[0]), below + after, probe);
      FirstHitAppend(below, after, probe);
      SearchIsFirstHitInPreorder(Kids(cs[0]), depth + 1, probe);
      SearchIsFirstHitInPreorder(cs[1..], depth, probe);
    }
  }

  lemma FirstHitCons(text: string, rest: seq<string>, probe: string -> Option<string>)
    ensures FirstHit([text] + rest, probe) == OrElse(probe(text), FirstHit(rest, probe))
  {
    assert ([text] + rest)[0] == text && ([text] + rest)[1..] == rest;
  }

  /** `cs` with every child below `MaxDepth` cut off. */
  function Prune(cs: seq<Child>, depth: int): (r: seq<Child>)
    decreases ListSize(cs)
  {
    if depth > MaxDepth || cs == [] then []
    else
      var pruned := match cs[0].value
        case Str(s) => Str(s)
        case Composite(description, _) => Composite(description, Prune(Kids(cs[0]), depth + 1));
      [Child(cs[0].name, pruned)] + Prune(cs[1..], depth)
  }

  /** Nesting depth of a list of children: 0 for none, 1 for children without
      children, and so on. */
  function Height(cs: seq<Child>): nat
    decreases ListSize(cs)
  {
    if cs == [] then 0
    else
      var below := 1 + Height(Kids(cs[0]));
      var after := Height(cs[1..]);
      if below < after then after else below
  }

  /** Pruning leaves at most the levels from `depth` to `MaxDepth`. */
  lemma {:induction false} PruneHeight(cs: seq<Child>, depth: int)
    ensures depth > MaxDepth ==> Height(Prune(cs, depth)) == 0
    ensures depth <= MaxDepth ==> Height(Prune(cs, depth)) <= MaxDepth + 1 - depth
    decreases ListSize(cs)
  {
    if depth <= MaxDepth && cs != [] {
      var p := Prune(cs, depth);
      assert Kids(p[0]) == Prune(Kids(cs[0]), depth + 1);
      assert p[1..] == Prune(cs[1..], depth);
      PruneHeight(Kids(cs[0]), depth + 1);
      PruneHeight(cs[1..], depth);
    }
  }

  /** The scan's bound: the result depends only on the children at depths up to
      `MaxDepth`, however deeply the server state nests. */
  lemma {:induction false} SearchIgnoresDeepChildren(cs: seq<Child>, depth: int, probe: string -> Option<string>)
    ensures SearchChildren(Prune(cs, depth), depth, probe) == SearchChildren(cs, depth, probe)
    decreases ListSize(cs)
  {
    if depth <= MaxDepth && cs != [] {
      var p := Prune(cs, depth);
      assert p[0].name == cs[0].name;
      assert ChildText(p[0]) == ChildText(cs[0]);
      assert Kids(p[0]) == Prune(Kids(cs[0]), depth + 1);
      assert p[1..] == Prune(cs[1..], depth);
      SearchIgnoresDeepChildren(Kids(cs[0]), depth + 1, probe);
      SearchIgnoresDeepChildren(cs[1..], depth, probe);
    }
  }

  /** The probe the manager applies to each text. */
  function Probe(dec: Decoders): string -> Option<string> {
    t => ScanText(t, dec)
  }

  /** The scan `tryExtractPatientIdFromTokenOrServer` runs over the server state: the
      first text, in depth-first pre-order down to `MaxDepth`, that yields an
      identifier. */
  function ScanServer(server: seq<Child>, dec: Decoders): (r: Option<string>)
    ensures r == FirstHit(Preorder(server, 0), Probe(dec))
  {
    SearchIsFirstHitInPreorder(server, 0, Probe(dec));
    SearchChildren(server, 0, Probe(dec))
  }

  // ---------------------------------------------------------------------------
  // Token collection
  // ---------------------------------------------------------------------------

  /** The manager's two credential slots. */
  datatype Tokens = Tokens(access: Option<string>, id: Option<string>)

  /** A value worth keeping as a token: token-shaped, or longer than 100 characters. */
  predicate Plausible(s: string) {
    TokenShape.IsLikelyJwt(s) || |s| > 100
  }

  /** The slot-filling rule of `inspectString`: the access slot if it is empty,
      else the id slot if that is empty, else nothing. */
  function StoreFound(t: Tokens, token: string): (r: Tokens)
    ensures t.access.None? ==> r == t.(access := Some(token))
    ensures t.access.Some? && t.id.None? ==> r == t.(id := Some(token))
    ensures t.access.Some? && t.id.Some? ==> r == t
  {
    if t.access.None? then t.(access := Some(token))
    else if t.id.None? then t.(id := Some(token))
    else t
  }

  /** `inspectString`: a token field of a JSON text, if plausible; else a
      token-shaped word, if it passes `isLikelyJWT`. */
  function InspectString(t: Tokens, s: string, dec: Decoders): (r: Tokens)
    ensures Refines(t, r)
    ensures t.access.Some? ==> r.access.Some?
    ensures t.id.Some? ==> r.id.Some?
    ensures r.access != t.access ==> FoundIn(r.access.value, s, dec)
    ensures r.id != t.id ==> FoundIn(r.id.value, s, dec)
    ensures InspectRule(t, r, s, dec)
  {
    var fromJson := ExtractTokenFromJsonString(s, dec);
    if fromJson.Some? && Plausible(fromJson.value) then StoreFound(t, fromJson.value)
    else
      var jwt := TokenShape.FindJwtInString(s);
      if jwt.Some? && TokenShape.IsLikelyJwt(jwt.value) then StoreFound(t, jwt.value)
      else t
  }

  /** One top-level child: a labelled string whose lower-cased label names an access
      or id token overwrites that slot when plausible; any other child's text is
      inspected. */
  function CollectStep(t: Tokens, c: Child, dec: Decoders): (r: Tokens)
    ensures Refines(t, r)
    ensures t.access.Some? ==> r.access.Some?
    ensures t.id.Some? ==> r.id.Some?
    ensures r.access != t.access ==> OfferedBy(r.access.value, c, dec)
    ensures r.id != t.id ==> OfferedBy(r.id.value, c, dec)
    ensures StepRule(t, r, c, dec)
  {
    if c.name.Some? && c.value.Str? then
      var lowered := Text.ToLowerAscii(c.name.value);
      var s := c.value.s;
      if Text.Contains(lowered, "access") && Text.Contains(lowered, "token") then
        if Plausible(s) then t.(access := Some(s)) else t
      else if Text.Contains(lowered, "id") && Text.Contains(lowered, "token") then
        if Plausible(s) then t.(id := Some(s)) else t
      else InspectString(t, s, dec)
    else InspectString(t, ChildText(c), dec)
  }

  /** The slot rule of `inspectString` on the text `s`: a plausible JSON token field
      is stored by `StoreFound` (access slot first, then id); failing that, a
      token-shaped word that passes `isLikelyJWT` is; failing both, nothing changes.
      In every case the stored token is a plausible one found in `s`. */
  ghost predicate InspectRule(t: Tokens, r: Tokens, s: string, dec: Decoders) {
    var json := ExtractTokenFromJsonString(s, dec);
    var jwt := TokenShape.FindJwtInString(s);
    var jsonUsable := json.Some? && Plausible(json.value);
    var jwtUsable := jwt.Some? && TokenShape.IsLikelyJwt(jwt.value);
    && (r == t || exists tok :: FoundIn(tok, s, dec) && Plausible(tok) && r == StoreFound(t, tok))
    && (jsonUsable ==> r == StoreFound(t, json.value))
    && (!jsonUsable && jwtUsable ==> r == StoreFound(t, jwt.value))
    && (!jsonUsable && !jwtUsable ==> r == t)
  }

  /** The lower-cased label mentions both "access" and "token". */
  predicate NamesAccessToken(name: string) {
    Text.Contains(Text.ToLowerAscii(name), "access") && Text.Contains(Text.ToLowerAscii(name), "token")
  }

  /** The lower-cased label mentions both "id" and "token". */
  predicate NamesIdToken(name: string) {
    Text.Contains(Text.ToLowerAscii(name), "id") && Text.Contains(Text.ToLowerAscii(name), "token")
  }

  /** The slot rule for one top-level child: a labelled string whose label names the
      access token sets that slot when plausible (overwriting it), else one whose
      label names the id token sets that slot; every other child goes through
      `inspectString` on its text. */
  predicate StepRule(t: Tokens, r: Tokens, c: Child, dec: Decoders) {
    var labelled := c.name.Some? && c.value.Str?;
    && (labelled && NamesAccessToken(c.name.value) ==>
          r == (if Plausible(c.value.s) then t.(access := Some(c.value.s)) else t))
    && (labelled && !NamesAccessToken(c.name.value) && NamesIdToken(c.name.value) ==>
          r == (if Plausible(c.value.s) then t.(id := Some(c.value.s)) else t))
    && (!(labelled && (NamesAccessToken(c.name.value) || NamesIdToken(c.name.value))) ==>
          r == InspectString(t, ChildText(c), dec))
  }

  /** `tok` can be read out of the text `s`: it is the token field of `s` as JSON,
      or the first token-shaped word of `s`. */
  predicate FoundIn(tok: string, s: string, dec: Decoders) {
    ExtractTokenFromJsonString(s, dec) == Some(tok) || TokenShape.FindJwtInString(s) == Some(tok)
  }

  /** `tok` is offered by the child `c`: it is the child's own string, or it can be
      read out of the child's text. */
  predicate OfferedBy(tok: string, c: Child, dec: Decoders) {
    (c.value.Str? && tok == c.value.s) || FoundIn(tok, ChildText(c), dec)
  }

  /** Every slot that changed from `before` to `after` holds a token offered by one
      of the children `cs`. */
  predicate CollectedFrom(before: Tokens, after: Tokens, cs: seq<Child>, dec: Decoders) {
    && (after.access != before.access ==> after.access.Some? && exists c :: c in cs && OfferedBy(after.access.value, c, dec))
    && (after.id != before.id ==> after.id.Some? && exists c :: c in cs && OfferedBy(after.id.value, c, dec))
  }

  /** No child of `cs`, visited on its own, changes the slots `t`. */
  predicate NothingOffered(t: Tokens, cs: seq<Child>, dec: Decoders) {
    forall c :: c in cs ==> CollectStep(t, c, dec) == t
  }

  /** Each slot keeps its value or holds a plausible token. */
  predicate Refines(before: Tokens, after: Tokens) {
    && (after.access == before.access || (after.access.Some? && Plausible(after.access.value)))
    && (after.id == before.id || (after.id.Some? && Plausible(after.id.value)))
  }

  /** The loop over the top-level children, which stops as soon as both slots hold
      a value. */
  function CollectLoop(t: Tokens, cs: seq<Child>, dec: Decoders): (r: Tokens)
    ensures Refines(t, r)
    ensures t.access.Some? ==> r.access.Some?
    ensures t.id.Some? ==> r.id.Some?
    ensures CollectedFrom(t, r, cs, dec)
    ensures t == Tokens(None, None) ==> (r == t <==> NothingOffered(t, cs, dec))
    decreases |cs|
  {
    if cs == [] then t
    else
      var next := CollectStep(t, cs[0], dec);
      if next.access.Some? && next.id.Some? then next
      else CollectLoop(next, cs[1..], dec)
  }

  /** A single child is one step of the loop. */
  lemma CollectLoopSingle(t: Tokens, c: Child, dec: Decoders)
    ensures CollectLoop(t, [c], dec) == CollectStep(t, c, dec)
  {
    assert [c][0] == c && [c][1..] == [];
  }

  /** The loop over `a + b` runs over `a`, then carries on over `b` unless both slots
      are already filled: a child that fills only one slot does not end the scan. */
  lemma {:induction false} CollectLoopAppend(t: Tokens, a: seq<Child>, b: seq<Child>, dec: Decoders)
    requires a != []
    ensures CollectLoop(t, a + b, dec)
         == (var m := CollectLoop(t, a, dec); if m.access.Some? && m.id.Some? then m else CollectLoop(m, b, dec))
    decreases |a|
  {
    var next := CollectStep(t, a[0], dec);
    assert (a + b)[0] == a[0];
    assert (a + b)[1..] == a[1..] + b;
    if !(next.access.Some? && next.id.Some?) && a[1..] != [] {
      CollectLoopAppend(next, a[1..], b, dec);
    } else if !(next.access.Some? && next.id.Some?) {
      assert a[1..] + b == b;
    }
  }

  /** Children after the one that completes both slots are never visited. */
  lemma {:induction false} CollectStopsOnceComplete(t: Tokens, visited: seq<Child>, rest: seq<Child>, dec: Decoders)
    requires visited != []
    requires CollectLoop(t, visited, dec).access.Some? && CollectLoop(t, visited, dec).id.Some?
    ensures CollectLoop(t, visited + rest, dec) == CollectLoop(t, visited, dec)
    decreases |visited|
  {
    var next := CollectStep(t, visited[0], dec);
    assert (visited + rest)[0] == visited[0];
    assert (visited + rest)[1..] == visited[1..] + rest;
    if !(next.access.Some? && next.id.Some?) {
      CollectStopsOnceComplete(next, visited[1..], rest, dec);
    }
  }

  /** `collectTokensFromServerIfNeeded`: nothing happens when either slot is already
      filled; otherwise the top-level children are visited. */
  function CollectTokensIfNeeded(t: Tokens, server: seq<Child>, dec: Decoders): (r: Tokens)
    ensures t.access.Some? || t.id.Some? ==> r == t
    ensures Refines(t, r)
    ensures CollectedFrom(t, r, server, dec)
    ensures t == Tokens(None, None) ==> (r == t <==> NothingOffered(t, server, dec))
  {
    if t.access.Some? || t.id.Some? then t else CollectLoop(t, server, dec)
  }

  /** Running the collection twice is running it once. */
  lemma CollectIdempotent(t: Tokens, server: seq<Child>, dec: Decoders)
    ensures CollectTokensIfNeeded(CollectTokensIfNeeded(t, server, dec), server, dec)
         == CollectTokensIfNeeded(t, server, dec)
  {
    var once := CollectTokensIfNeeded(t, server, dec);
    if once.access.None? && once.id.None? {
      assert t == Tokens(None, None) == once;
    }
  }

  // ---------------------------------------------------------------------------
  // Identity resolution
  // ---------------------------------------------------------------------------

  /** The identifier `tryExtractPatientIdFromTokenOrServer` reports once tokens are
      collected: the access token's claims, then the id token's, then the scan of
      the server state. */
  function ResolveIdentity(t: Tokens, server: seq<Child>, dec: Decoders): (r: Option<string>)
    ensures t.access.Some? && ParseJwtForPatientId(t.access.value, dec).Some? ==>
              r == ParseJwtForPatientId(t.access.value, dec)
    ensures (t.access.None? || ParseJwtForPatientId(t.access.value, dec).None?) ==>
              r == OrElse(if t.id.Some? then ParseJwtForPatientId(t.id.value, dec) else None,
                          ScanServer(server, dec))
    ensures r.None? <==>
              && (t.access.None? || ParseJwtForPatientId(t.access.value, dec).None?)
              && (t.id.None? || ParseJwtForPatientId(t.id.value, dec).None?)
              && ScanServer(server, dec).None?
  {
    var fromAccess := if t.access.Some? then ParseJwtForPatientId(t.access.value, dec) else None;
    var fromId := if t.id.Some? then ParseJwtForPatientId(t.id.value, dec) else None;
    if fromAccess.Some? then fromAccess
    else if fromId.Some? then fromId
    else ScanServer(server, dec)
  }
}
