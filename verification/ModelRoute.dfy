/**
 * lib/model-route-policy.ts: a model name is parsed into a route, resolved to
 * the catalogs that serve it, and listed by the union of visible models. The
 * three must agree on strings.
 */
module ModelRoute {
  import opened Prelude

  datatype Kind = OAuth | Api | Zdr | Psp

  datatype Route = Route(kind: Kind, tier: Option<string>, slug: string)

  function Prefix(kind: Kind): string {
    match kind
    case OAuth => ""
    case Api => "api/"
    case Zdr => "zdr/"
    case Psp => "psp/"
  }

  const SPEED := "speed/"

  const MAX_UNITS := 256

  /** Length as JavaScript counts it: a character beyond the basic plane counts twice. */
  function Units(s: string): nat {
    if s == "" then 0 else (if s[0] as int >= 0x10000 then 2 else 1) + Units(s[1..])
  }

  predicate IsControl(c: char) { c as int <= 0x20 || c as int == 0x7f }

  predicate Plain(name: string) { Units(name) <= MAX_UNITS && forall i :: 0 <= i < |name| ==> !IsControl(name[i]) }

  /** Whether a name starts with three given letters and a slash. */
  predicate Starts(name: string, a: char, b: char, c: char) {
    |name| >= 4 && name[0] == a && name[1] == b && name[2] == c && name[3] == '/'
  }

  predicate StartsSpeed(name: string) {
    && |name| >= 6 && name[0] == 's' && name[1] == 'p' && name[2] == 'e' && name[3] == 'e' && name[4] == 'd'
    && name[5] == '/'
  }

  predicate StartsKind(name: string, kind: Kind) {
    match kind
    case OAuth => true
    case Api => Starts(name, 'a', 'p', 'i')
    case Zdr => Starts(name, 'z', 'd', 'r')
    case Psp => Starts(name, 'p', 's', 'p')
  }

  predicate Reserved(name: string) {
    StartsKind(name, Api) || StartsKind(name, Zdr) || StartsKind(name, Psp) || StartsSpeed(name)
  }

  predicate TierChar(c: char) {
    'A' <= c <= 'Z' || 'a' <= c <= 'z' || '0' <= c <= '9' || c == '.' || c == '_' || c == '-'
  }

  predicate TierName(tier: string) { 1 <= |tier| <= 64 && forall i :: 0 <= i < |tier| ==> TierChar(tier[i]) }

  /** What the regular expression's dot matches. */
  predicate OneLine(s: string) {
    forall i :: 0 <= i < |s| ==> s[i] != '\n' && s[i] != '\r' && s[i] as int != 0x2028 && s[i] as int != 0x2029
  }

  /** The routes a name can mean. */
  predicate Legal(r: Route) { WellFormed(r) && Plain(Render(r)) }

  predicate WellFormed(r: Route) {
    && r.slug != "" && !Reserved(r.slug)
    && (r.tier.Some? ==> TierName(r.tier.value) && OneLine(r.slug))
  }

  function Speed(tier: Option<string>): string { if tier.Some? then SPEED + tier.value + "/" else "" }

  function Render(r: Route): string { Prefix(r.kind) + Speed(r.tier) + r.slug }

  // ---- Parsing ----

  function KindOf(model: string): Kind {
    if StartsKind(model, Api) then Api
    else if StartsKind(model, Zdr) then Zdr
    else if StartsKind(model, Psp) then Psp
    else OAuth
  }

  /** How many leading characters could belong to a tier's name. */
  function TierLength(s: string): (n: nat)
    ensures n <= |s| && forall i :: 0 <= i < n ==> TierChar(s[i])
    ensures n < |s| ==> !TierChar(s[n])
  {
    if s == "" || !TierChar(s[0]) then 0 else 1 + TierLength(s[1..])
  }

  /** A tier and what follows it, from what stood behind "speed/". */
  function ParseSpeed(kind: Kind, body: string): Option<Route> {
    var n := TierLength(body);
    if 1 <= n <= 64 && n < |body| && body[n] == '/' then
      var slug := body[n + 1..];
      if slug != "" && OneLine(slug) && !Reserved(slug) then Some(Route(kind, Some(body[..n]), slug)) else None
    else None
  }

  function ParseTail(kind: Kind, rest: string): Option<Route> {
    if StartsSpeed(rest) then ParseSpeed(kind, rest[6..])
    else if rest == "" || Reserved(rest) then None
    else Some(Route(kind, None, rest))
  }

  function Parse(model: string): Option<Route> {
    if model == "" || !Plain(model) then None
    else if KindOf(model) == OAuth then ParseTail(OAuth, model)
    else ParseTail(KindOf(model), model[4..])
  }

  method ScanTier(body: string) returns (n: nat)
    ensures n == TierLength(body)
  {
    n := 0;
    while n < |body| && TierChar(body[n])
      invariant n <= |body| && TierLength(body) == n + TierLength(body[n..])
    {
      assert body[n..][1..] == body[n + 1..];
      n := n + 1;
    }
  }

  method StripTier(kind: Kind, body: string) returns (r: Option<Route>)
    ensures r == ParseSpeed(kind, body)
  {
    var n := ScanTier(body);
    if !(1 <= n <= 64) || n == |body| || body[n] != '/' { return None; }
    var slug := body[n + 1..];
    if slug == "" || !OneLine(slug) || Reserved(slug) { return None; }
    return Some(Route(kind, Some(body[..n]), slug));
  }

  /** The parser as it runs: strip a kind, strip a tier, look at what is left. */
  method ParseModelRoute(name: string) returns (r: Option<Route>)
    ensures r == Parse(name)
  {
    if name == "" || !Plain(name) { return None; }
    var model, kind := name, OAuth;
    for i := 0 to 3
      invariant model == name && kind == OAuth
      invariant i >= 1 ==> !StartsKind(name, Api)
      invariant i >= 2 ==> !StartsKind(name, Zdr)
      invariant i >= 3 ==> !StartsKind(name, Psp)
    {
      var candidate := if i == 0 then Api else if i == 1 then Zdr else Psp;
      if StartsKind(model, candidate) {
        kind, model := candidate, model[4..];
        break;
      }
    }
    if StartsSpeed(model) {
      r := StripTier(kind, model[6..]);
    } else if model == "" || Reserved(model) {
      r := None;
    } else {
      r := Some(Route(kind, None, model));
    }
  }

  lemma {:induction false} TierEnds(tier: string, rest: string)
    requires forall i :: 0 <= i < |tier| ==> TierChar(tier[i])
    requires rest != "" && !TierChar(rest[0])
    ensures TierLength(tier + rest) == |tier|
  {
    if tier == "" {
      assert tier + rest == rest;
    } else {
      assert (tier + rest)[1..] == tier[1..] + rest;
      TierEnds(tier[1..], rest);
    }
  }

  lemma SpeedRoundTrip(kind: Kind, tier: string, slug: string)
    requires slug != "" && !Reserved(slug) && TierName(tier) && OneLine(slug)
    ensures ParseSpeed(kind, tier + ("/" + slug)) == Some(Route(kind, Some(tier), slug))
  {
    var body := tier + ("/" + slug);
    TierEnds(tier, "/" + slug);
    assert body[..|tier|] == tier && body[|tier| + 1..] == slug;
  }

  lemma TailRoundTrip(kind: Kind, tier: Option<string>, slug: string)
    requires slug != "" && !Reserved(slug) && (tier.Some? ==> TierName(tier.value) && OneLine(slug))
    ensures ParseTail(kind, Speed(tier) + slug) == Some(Route(kind, tier, slug))
    ensures KindOf(Speed(tier) + slug) == OAuth && Speed(tier) + slug != ""
  {
    if tier.Some? {
      TierTail(kind, tier.value, slug);
    } else {
      assert Speed(tier) + slug == slug;
    }
  }

  lemma TierTail(kind: Kind, tier: string, slug: string)
    requires slug != "" && !Reserved(slug) && TierName(tier) && OneLine(slug)
    ensures var rest := Speed(Some(tier)) + slug;
            ParseTail(kind, rest) == Some(Route(kind, Some(tier), slug)) && KindOf(rest) == OAuth && rest != ""
  {
    Associate(SPEED, tier, "/", slug);
    SpeedPrefix(tier + ("/" + slug));
    SpeedRoundTrip(kind, tier, slug);
  }

  lemma Associate(a: string, b: string, c: string, d: string)
    ensures a + b + c + d == a + (b + (c + d))
  {
  }

  lemma SpeedPrefix(body: string)
    ensures StartsSpeed(SPEED + body) && (SPEED + body)[6..] == body && KindOf(SPEED + body) == OAuth
  {
  }

  lemma KindRoundTrip(kind: Kind, rest: string)
    requires KindOf(rest) == OAuth
    ensures KindOf(Prefix(kind) + rest) == kind && (if kind == OAuth then Prefix(kind) + rest == rest else (Prefix(kind) + rest)[4..] == rest)
  {
  }

  lemma RenderThenParse(r: Route)
    requires Legal(r)
    ensures Parse(Render(r)) == Some(r)
  {
    var rest := Speed(r.tier) + r.slug;
    assert Render(r) == Prefix(r.kind) + rest;
    TailRoundTrip(r.kind, r.tier, r.slug);
    KindRoundTrip(r.kind, rest);
  }

  lemma SpeedSpelled(rest: string)
    requires StartsSpeed(rest)
    ensures rest == SPEED + rest[6..]
  {
  }

  lemma KindSpelled(model: string)
    ensures var k := KindOf(model); |Prefix(k)| <= |model| && model == Prefix(k) + model[|Prefix(k)|..]
    ensures KindOf(model) != OAuth ==> |Prefix(KindOf(model))| == 4
  {
  }

  lemma BodySpelled(kind: Kind, body: string)
    requires ParseSpeed(kind, body).Some?
    ensures var r := ParseSpeed(kind, body).value;
            r.kind == kind && r.tier.Some? && body == r.tier.value + "/" + r.slug && WellFormed(r)
  {
    var n := TierLength(body);
    assert body == body[..n] + "/" + body[n + 1..];
  }

  lemma Regroup(a: string, b: string, c: string)
    ensures SPEED + (a + b + c) == SPEED + a + b + c
  {
  }

  lemma TailSpelled(kind: Kind, rest: string)
    requires ParseTail(kind, rest).Some?
    ensures var r := ParseTail(kind, rest).value;
            r.kind == kind && WellFormed(r) && rest == Speed(r.tier) + r.slug
  {
    var r := ParseTail(kind, rest).value;
    if StartsSpeed(rest) {
      SpeedSpelled(rest);
      BodySpelled(kind, rest[6..]);
      Regroup(r.tier.value, "/", r.slug);
    } else {
      assert rest == "" + rest;
    }
  }

  lemma ParseThenRender(model: string)
    requires Parse(model).Some?
    ensures Legal(Parse(model).value) && Render(Parse(model).value) == model
  {
    var r, rest := Parse(model).value, model[|Prefix(KindOf(model))|..];
    ParsedTail(model);
    TailSpelled(KindOf(model), rest);
    RenderGrouped(r);
  }

  lemma ParsedTail(model: string)
    requires Parse(model).Some?
    ensures var k := KindOf(model);
            && |Prefix(k)| <= |model| && model == Prefix(k) + model[|Prefix(k)|..] && Plain(model)
            && Parse(model) == ParseTail(k, model[|Prefix(k)|..])
  {
    KindSpelled(model);
    assert KindOf(model) == OAuth ==> model[0..] == model;
  }

  lemma RenderGrouped(r: Route)
    ensures Render(r) == Prefix(r.kind) + (Speed(r.tier) + r.slug)
  {
  }

  /** Parsing and rendering undo each other, both ways, on every string and every route. */
  lemma ParseIsRender(model: string, r: Route)
    ensures Parse(model) == Some(r) <==> Legal(r) && Render(r) == model
  {
    if Legal(r) && Render(r) == model { RenderThenParse(r); }
    if Parse(model) == Some(r) { ParseThenRender(model); }
  }

  /** A name means one route, and a route has one name. */
  lemma RenderInjective(a: Route, b: Route)
    requires Legal(a) && Legal(b) && Render(a) == Render(b)
    ensures a == b
  {
    ParseIsRender(Render(a), a);
    ParseIsRender(Render(a), b);
  }

  // ---- Catalogs ----

  datatype Tier = Tier(id: string, name: string)

  /** A model's record; the optional parts are those that may be missing or malformed. */
  datatype Model = Model(
    slug: string,
    probes: map<string, string>,
    levelsKnown: bool,
    levels: seq<string>,
    serviceTiers: seq<Tier>)

  datatype Catalog = Catalog(id: string, kind: Kind, priority: int, enabled: bool, models: seq<Model>, allowed: Option<set<string>>)

  function Probe(m: Model, what: string): Option<string> { if what in m.probes then Some(m.probes[what]) else None }

  predicate Visible(c: Catalog, m: Model) {
    && Probe(m, "responses") != Some("unsupported") && Probe(m, "credential") != Some("unavailable")
    && c.enabled && m.slug != "" && !Reserved(m.slug)
    && (c.kind == OAuth || (c.allowed.Some? && m.slug in c.allowed.value))
  }

  function Canonical(tier: string): string { if tier == "priority" then "fast" else tier }

  predicate UsableTier(t: Tier) {
    TierName(t.id) && Units(t.name) <= 100 && forall i :: 0 <= i < |t.name| ==> !(t.name[i] as int <= 0x1f || t.name[i] as int == 0x7f)
  }

  predicate Offers(m: Model, tier: string) {
    exists k :: 0 <= k < |m.serviceTiers| && UsableTier(m.serviceTiers[k]) && Canonical(m.serviceTiers[k].id) == Canonical(tier)
  }

  datatype Settings = Settings(effort: Option<string>, tier: Option<string>)

  /** A setting that is missing or empty is not asked for. */
  predicate Asked(setting: Option<string>) { setting.Some? && setting.value != "" }

  predicate Supports(m: Model, s: Settings) {
    && (Asked(s.effort) ==>
          (&& Probe(m, "effort:" + s.effort.value) != Some("unsupported")
           && Probe(m, "effort:" + s.effort.value) != Some("downgraded")
           && (!m.levelsKnown || s.effort.value in m.levels)))
    && (Asked(s.tier) ==> s.tier.value == "default" || s.tier.value == "auto" || Offers(m, s.tier.value))
  }

  predicate Serves(c: Catalog, r: Route, s: Settings) {
    c.kind == r.kind && exists k :: 0 <= k < |c.models| && c.models[k].slug == r.slug && Visible(c, c.models[k]) && Supports(c.models[k], s)
  }

  // ---- Resolving ----

  datatype Resolved = Resolved(route: Route, candidates: seq<Catalog>) | InvalidModel | ConflictingSpeed

  /** Collation stands for the order localeCompare puts on catalog ids. */
  predicate Before(a: Catalog, b: Catalog, collate: string -> real) {
    a.priority < b.priority || (a.priority == b.priority && collate(a.id) <= collate(b.id))
  }

  function Insert(c: Catalog, sorted: seq<Catalog>, collate: string -> real): seq<Catalog> {
    if sorted == [] || Before(c, sorted[0], collate) then [c] + sorted
    else [sorted[0]] + Insert(c, sorted[1..], collate)
  }

  function Candidates(catalogs: seq<Catalog>, r: Route, s: Settings, collate: string -> real): seq<Catalog> {
    if catalogs == [] then []
    else
      var others := Candidates(catalogs[1..], r, s, collate);
      if Serves(catalogs[0], r, s) then Insert(catalogs[0], others, collate) else others
  }

  function ResolveModelRoute(model: string, catalogs: seq<Catalog>, s: Settings, collate: string -> real): Resolved {
    match Parse(model)
    case None => InvalidModel
    case Some(r) =>
      if r.tier.Some? && Asked(s.tier) && Canonical(r.tier.value) != Canonical(s.tier.value) then ConflictingSpeed
      else
        var tier := if r.tier.Some? then r.tier else if Asked(s.tier) then s.tier else None;
        Resolved(r.(tier := tier), Candidates(catalogs, r.(tier := tier), s.(tier := tier), collate))
  }

  function Times(catalogs: seq<Catalog>, c: Catalog): nat {
    if catalogs == [] then 0 else (if catalogs[0] == c then 1 else 0) + Times(catalogs[1..], c)
  }

  ghost predicate Ordered(catalogs: seq<Catalog>, collate: string -> real) {
    forall i, j :: 0 <= i < j < |catalogs| ==> Before(catalogs[i], catalogs[j], collate)
  }

  lemma {:induction false} InsertElements(c: Catalog, sorted: seq<Catalog>, collate: string -> real, x: Catalog)
    ensures Times(Insert(c, sorted, collate), x) == Times(sorted, x) + (if x == c then 1 else 0)
    ensures forall y :: y in Insert(c, sorted, collate) <==> y == c || y in sorted
    decreases |sorted|
  {
    if sorted == [] || Before(c, sorted[0], collate) {
      assert ([c] + sorted)[1..] == sorted;
    } else {
      InsertElements(c, sorted[1..], collate, x);
      assert ([sorted[0]] + Insert(c, sorted[1..], collate))[1..] == Insert(c, sorted[1..], collate);
      assert sorted == [sorted[0]] + sorted[1..];
    }
  }

  lemma {:induction false} InsertOrders(c: Catalog, sorted: seq<Catalog>, collate: string -> real)
    requires Ordered(sorted, collate)
    ensures Ordered(Insert(c, sorted, collate), collate)
    decreases |sorted|
  {
    if sorted == [] || Before(c, sorted[0], collate) {
      assert ([c] + sorted)[1..] == sorted;
    } else {
      var tail := Insert(c, sorted[1..], collate);
      InsertOrders(c, sorted[1..], collate);
      InsertElements(c, sorted[1..], collate, c);
      forall y | y in tail ensures Before(sorted[0], y, collate) {
        if y != c {
          var k :| 0 <= k < |sorted[1..]| && sorted[1..][k] == y;
          assert sorted[k + 1] == y;
        }
      }
      OrderedCons(sorted[0], tail, collate);
    }
  }

  lemma OrderedCons(head: Catalog, tail: seq<Catalog>, collate: string -> real)
    requires Ordered(tail, collate) && forall y :: y in tail ==> Before(head, y, collate)
    ensures Ordered([head] + tail, collate)
  {
    assert forall j :: 0 <= j < |tail| ==> tail[j] in tail;
  }

  /** The candidates are exactly the serving catalogs, each as often as it was given, in order. */
  lemma {:induction false} CandidatesExact(catalogs: seq<Catalog>, r: Route, s: Settings, collate: string -> real, x: Catalog)
    ensures Ordered(Candidates(catalogs, r, s, collate), collate)
    ensures Times(Candidates(catalogs, r, s, collate), x) == if Serves(x, r, s) then Times(catalogs, x) else 0
    ensures x in Candidates(catalogs, r, s, collate) <==> x in catalogs && Serves(x, r, s)
    decreases |catalogs|
  {
    if catalogs != [] {
      CandidatesExact(catalogs[1..], r, s, collate, x);
      assert catalogs == [catalogs[0]] + catalogs[1..];
      if Serves(catalogs[0], r, s) {
        InsertElements(catalogs[0], Candidates(catalogs[1..], r, s, collate), collate, x);
        InsertOrders(catalogs[0], Candidates(catalogs[1..], r, s, collate), collate);
      }
    }
  }

  /** A tier in the name and the same tier in the settings route alike; two different ones are refused. */
  lemma TierAgreement(model: string, catalogs: seq<Catalog>, s: Settings, collate: string -> real)
    requires Parse(model).Some? && Parse(model).value.tier.Some?
    ensures var r := Parse(model).value;
            var plain := Render(r.(tier := None));
            var asked := ResolveModelRoute(plain, catalogs, s.(tier := r.tier), collate);
            var named := ResolveModelRoute(model, catalogs, s, collate);
            if Asked(s.tier) && Canonical(s.tier.value) != Canonical(r.tier.value) then named == ConflictingSpeed
            else named == asked && named.Resolved?
  {
    var r := Parse(model).value;
    DroppingTier(model);
    ParseIsRender(Render(r.(tier := None)), r.(tier := None));
    BodyAsked(model);
  }

  lemma BodyAsked(model: string)
    requires Parse(model).Some? && Parse(model).value.tier.Some?
    ensures Asked(Parse(model).value.tier)
  {
    ParseThenRender(model);
  }

  /** Without its tier a legal name is still legal. */
  lemma DroppingTier(model: string)
    requires Parse(model).Some?
    ensures Legal(Parse(model).value.(tier := None))
  {
    var r := Parse(model).value;
    ParseThenRender(model);
    PlainWithout(Prefix(r.kind), Speed(r.tier), r.slug);
  }

  lemma PlainWithout(head: string, middle: string, tail: string)
    requires Plain(head + middle + tail)
    ensures Plain(head + "" + tail)
  {
    var long, short := head + middle + tail, head + "" + tail;
    UnitsConcat(head + middle, tail);
    UnitsConcat(head, middle);
    assert short == head + tail;
    UnitsConcat(head, tail);
    forall i | 0 <= i < |short| ensures !IsControl(short[i]) {
      assert short[i] == if i < |head| then long[i] else long[i + |middle|];
    }
  }

  lemma {:induction false} UnitsConcat(a: string, b: string)
    ensures Units(a + b) == Units(a) + Units(b)
  {
    if a == "" {
      assert a + b == b;
    } else {
      assert (a + b)[1..] == a[1..] + b;
      UnitsConcat(a[1..], b);
    }
  }

  // ---- The union of visible models ----

  function KeyOf(c: Catalog, m: Model): string { Prefix(c.kind) + m.slug }

  predicate ShownBy(c: Catalog, name: string) {
    exists k :: 0 <= k < |c.models| && Visible(c, c.models[k]) && KeyOf(c, c.models[k]) == name
  }

  /** Some catalog shows a model under this name. */
  predicate Shown(catalogs: seq<Catalog>, name: string) { exists i :: 0 <= i < |catalogs| && ShownBy(catalogs[i], name) }

  /** The names listed by buildVisibleModelUnion. The visiting order does not matter to the key set. */
  method BuildVisibleModelUnion(catalogs: seq<Catalog>) returns (keys: set<string>)
    ensures forall name :: name in keys <==> Shown(catalogs, name)
  {
    keys := {};
    for i := 0 to |catalogs|
      invariant forall name :: name in keys <==> Shown(catalogs[..i], name)
    {
      ghost var had := keys;
      var c := catalogs[i];
      for k := 0 to |c.models|
        invariant forall name :: name in keys <==>
          name in had || exists j :: 0 <= j < k && Visible(c, c.models[j]) && KeyOf(c, c.models[j]) == name
      {
        if !Visible(c, c.models[k]) { continue; }
        keys := keys + {KeyOf(c, c.models[k])};
      }
      forall name ensures name in keys <==> Shown(catalogs[..i + 1], name) {
        ShownStep(catalogs, i, name);
      }
    }
    assert catalogs[..|catalogs|] == catalogs;
  }

  lemma ShownStep(catalogs: seq<Catalog>, i: nat, name: string)
    requires i < |catalogs|
    ensures Shown(catalogs[..i + 1], name) <==> Shown(catalogs[..i], name) || ShownBy(catalogs[i], name)
  {
    var more, fewer := catalogs[..i + 1], catalogs[..i];
    assert more[i] == catalogs[i] && forall a :: 0 <= a < i ==> more[a] == fewer[a];
  }

  const NO_SETTINGS := Settings(None, None)

  predicate Routable(name: string, catalogs: seq<Catalog>, collate: string -> real) {
    var resolved := ResolveModelRoute(name, catalogs, NO_SETTINGS, collate);
    resolved.Resolved? && resolved.route.tier.None? && resolved.candidates != []
  }

  lemma RenderBare(kind: Kind, slug: string)
    ensures Render(Route(kind, None, slug)) == Prefix(kind) + slug
  {
    assert Prefix(kind) + "" == Prefix(kind);
  }

  lemma RoutableIsShown(name: string, catalogs: seq<Catalog>, collate: string -> real)
    requires Routable(name, catalogs, collate)
    ensures Shown(catalogs, name) && Plain(name)
  {
    var r := Parse(name).value;
    ParseThenRender(name);
    RenderBare(r.kind, r.slug);
    var found := Candidates(catalogs, r, NO_SETTINGS, collate);
    CandidatesExact(catalogs, r, NO_SETTINGS, collate, found[0]);
    ServedIsShown(catalogs, r, found[0]);
  }

  lemma ServedIsShown(catalogs: seq<Catalog>, r: Route, c: Catalog)
    requires c in catalogs && Serves(c, r, NO_SETTINGS)
    ensures Shown(catalogs, Prefix(r.kind) + r.slug)
  {
    var i :| 0 <= i < |catalogs| && catalogs[i] == c;
    var k :| 0 <= k < |c.models| && c.models[k].slug == r.slug && Visible(c, c.models[k]);
    assert KeyOf(c, c.models[k]) == Prefix(r.kind) + r.slug;
    assert ShownBy(catalogs[i], Prefix(r.kind) + r.slug);
  }

  lemma ShownIsServed(catalogs: seq<Catalog>, name: string) returns (r: Route, c: Catalog)
    requires Shown(catalogs, name)
    ensures c in catalogs && Serves(c, r, NO_SETTINGS) && r.tier.None? && WellFormed(r) && name == Prefix(r.kind) + r.slug
  {
    var i :| 0 <= i < |catalogs| && ShownBy(catalogs[i], name);
    c := catalogs[i];
    var k :| 0 <= k < |c.models| && Visible(c, c.models[k]) && KeyOf(c, c.models[k]) == name;
    r := Route(c.kind, None, c.models[k].slug);
    assert Supports(c.models[k], NO_SETTINGS);
  }

  /**
   * A tier-free name resolves to a candidate exactly when the union lists it
   * and it passes the parser's test on length and control characters.
   */
  lemma UnionAgreement(name: string, catalogs: seq<Catalog>, collate: string -> real)
    ensures Routable(name, catalogs, collate) <==> Shown(catalogs, name) && Plain(name)
  {
    if Routable(name, catalogs, collate) { RoutableIsShown(name, catalogs, collate); }
    if Shown(catalogs, name) && Plain(name) {
      var r, c := ShownIsServed(catalogs, name);
      RenderBare(r.kind, r.slug);
      RenderThenParse(r);
      CandidatesExact(catalogs, r, NO_SETTINGS, collate, c);
    }
  }

  /** The union can list a name that no request can use: nothing checks a slug for a space. */
  lemma ListedButNotRoutable(collate: string -> real)
    ensures var m := Model("a b", map[], false, [], []);
            var catalogs := [Catalog("c", OAuth, 0, true, [m], None)];
            Shown(catalogs, "a b") && !Routable("a b", catalogs, collate)
  {
    var m := Model("a b", map[], false, [], []);
    var catalogs := [Catalog("c", OAuth, 0, true, [m], None)];
    assert Visible(catalogs[0], catalogs[0].models[0]) && KeyOf(catalogs[0], catalogs[0].models[0]) == "a b";
    assert ShownBy(catalogs[0], "a b");
    assert IsControl("a b"[1]);
    UnionAgreement("a b", catalogs, collate);
  }
}
