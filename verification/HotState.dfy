/** Hot-state records, their freshness rule and the key they are cached under. */
module HotState {
  import opened Base

  datatype HealthState = HealthUnknown | Healthy | Warmup | HealthDegraded | Unhealthy | Blocked

  datatype HealthRecord = HealthRecord(
    tenantId: string, endpointId: string, configVersion: int, state: HealthState, observedAt: int, expiresAt: int)

  datatype DrainRecord = DrainRecord(
    tenantId: string, endpointId: string, configVersion: int, reason: string, createdAt: int, expiresAt: int)

  datatype StickyRecord = StickyRecord(
    tenantId: string, projectId: Option<string>, aliasId: string, affinityHash: string,
    groupId: string, targetId: string, endpointId: string, configVersion: int, createdAt: int, expiresAt: int)

  /** What the planner may ask of the hot state; one fixed answer per question for the length of a plan. */
  datatype RouteHotState = RouteHotState(
    isDrained: (string, string, Option<int>, int) -> bool,
    health: (string, string, Option<int>, int) -> HealthState,
    sticky: (string, Option<string>, string, string, Option<int>, int) -> Option<StickyRecord>)

  // ---------- cache keys ----------

  function EndpointHealthKey(tenantId: string, endpointId: string): string
  {
    "gateway:endpoint_health:" + tenantId + ":" + endpointId
  }

  function EndpointDrainKey(tenantId: string, endpointId: string): string
  {
    "gateway:drain:" + tenantId + ":" + endpointId
  }

  function ProjectText(projectId: Option<string>): string { if projectId.Some? then projectId.value else "_" }

  function StickyRouteKey(tenantId: string, projectId: Option<string>, aliasId: string, affinityHash: string): string
  {
    "gateway:sticky:" + tenantId + ":" + ProjectText(projectId) + ":" + aliasId + ":" + affinityHash
  }

  /** What a cached record is about. */
  datatype Place =
    | HealthOf(tenantId: string, endpointId: string)
    | DrainOf(tenantId: string, endpointId: string)
    | StickyOf(tenantId: string, projectId: Option<string>, aliasId: string, affinityHash: string)

  function KeyOf(p: Place): string
  {
    match p
    case HealthOf(t, e) => EndpointHealthKey(t, e)
    case DrainOf(t, e) => EndpointDrainKey(t, e)
    case StickyOf(t, prj, a, h) => StickyRouteKey(t, prj, a, h)
  }

  /** The key shapes, on examples. */
  lemma EndpointKeyShapes()
    ensures EndpointHealthKey("ten_1", "pe_1") == "gateway:endpoint_health:ten_1:pe_1"
    ensures EndpointDrainKey("ten_1", "pe_1") == "gateway:drain:ten_1:pe_1"
  {
    assert "gateway:endpoint_health:" + "ten_1" == "gateway:endpoint_health:ten_1";
    assert "gateway:drain:" + "ten_1" == "gateway:drain:ten_1";
  }

  lemma StickyKeyShapes()
    ensures StickyRouteKey("ten_1", Some("prj_1"), "ma_1", "h") == "gateway:sticky:ten_1:prj_1:ma_1:h"
    ensures StickyRouteKey("ten_1", None, "ma_1", "h") == "gateway:sticky:ten_1:_:ma_1:h"
  {
    assert "gateway:sticky:" + "ten_1" == "gateway:sticky:ten_1";
    assert "gateway:sticky:ten_1" + ":" + "prj_1" == "gateway:sticky:ten_1:prj_1";
    assert "gateway:sticky:ten_1:prj_1" + ":" + "ma_1" == "gateway:sticky:ten_1:prj_1:ma_1";
    assert "gateway:sticky:ten_1" + ":" + "_" == "gateway:sticky:ten_1:_";
    assert "gateway:sticky:ten_1:_" + ":" + "ma_1" == "gateway:sticky:ten_1:_:ma_1";
  }

  /** Ids that the key format can tell apart; the endpoint id and the affinity hash come last and are free. */
  predicate Separable(p: Place)
  {
    && ':' !in p.tenantId
    && (p.StickyOf? ==>
          ':' !in p.aliasId && (p.projectId.Some? ==> ':' !in p.projectId.value && p.projectId.value != "_"))
  }

  lemma SplitAtColon(a: string, x: string, b: string, y: string)
    requires ':' !in a && ':' !in b && a + ":" + x == b + ":" + y
    ensures a == b && x == y
  {
    var s := a + ":" + x;
    assert s[|a|] == ':' && s[|b|] == ':';
    assert |a| == |b|;
    assert s[..|a|] == a && s[..|b|] == b;
    assert s[|a| + 1..] == x && s[|b| + 1..] == y;
  }

  lemma CutPrefix(prefix: string, a: string, b: string)
    requires prefix + a == prefix + b
    ensures a == b
  {
    assert (prefix + a)[|prefix|..] == a && (prefix + b)[|prefix|..] == b;
  }

  lemma StickyKeyShape(prefix: string, t: string, prj: string, a: string, h: string)
    ensures prefix + t + ":" + prj + ":" + a + ":" + h == prefix + (t + ":" + (prj + ":" + (a + ":" + h)))
  {}

  /** A sticky key without its prefix, as nested pairs. */
  ghost function StickyTail(p: Place): string
    requires p.StickyOf?
  {
    p.tenantId + ":" + (ProjectText(p.projectId) + ":" + (p.aliasId + ":" + p.affinityHash))
  }

  lemma SameTail(p: Place, q: Place)
    requires p.StickyOf? && q.StickyOf?
    ensures KeyOf(p) == KeyOf(q) <==> StickyTail(p) == StickyTail(q)
  {
    StickyKeyShape("gateway:sticky:", p.tenantId, ProjectText(p.projectId), p.aliasId, p.affinityHash);
    StickyKeyShape("gateway:sticky:", q.tenantId, ProjectText(q.projectId), q.aliasId, q.affinityHash);
    if KeyOf(p) == KeyOf(q) { CutPrefix("gateway:sticky:", StickyTail(p), StickyTail(q)); }
  }

  /** The ids before the last one hold no colon. */
  predicate Splittable(p: Place)
    requires p.StickyOf?
  {
    ':' !in p.tenantId && ':' !in ProjectText(p.projectId) && ':' !in p.aliasId
  }

  lemma StickyParts(p: Place, q: Place)
    requires p.StickyOf? && q.StickyOf? && Splittable(p) && Splittable(q) && KeyOf(p) == KeyOf(q)
    ensures p.tenantId == q.tenantId && ProjectText(p.projectId) == ProjectText(q.projectId)
    ensures p.aliasId == q.aliasId && p.affinityHash == q.affinityHash
  {
    var x, y := p.aliasId + ":" + p.affinityHash, q.aliasId + ":" + q.affinityHash;
    var v, w := ProjectText(p.projectId) + ":" + x, ProjectText(q.projectId) + ":" + y;
    SameTail(p, q);
    SplitAtColon(p.tenantId, v, q.tenantId, w);
    SplitAtColon(ProjectText(p.projectId), x, ProjectText(q.projectId), y);
    SplitAtColon(p.aliasId, p.affinityHash, q.aliasId, q.affinityHash);
  }

  lemma EndpointKeyInjective(prefix: string, t: string, e: string, t': string, e': string)
    requires ':' !in t && ':' !in t' && prefix + t + ":" + e == prefix + t' + ":" + e'
    ensures t == t' && e == e'
  {
    assert prefix + t + ":" + e == prefix + (t + ":" + e);
    assert prefix + t' + ":" + e' == prefix + (t' + ":" + e');
    CutPrefix(prefix, t + ":" + e, t' + ":" + e');
    SplitAtColon(t, e, t', e');
  }

  /** The three key spaces never meet, whatever the ids. */
  lemma KeySpacesNeverMeet(p: Place, q: Place)
    requires KeyOf(p) == KeyOf(q)
    ensures p.HealthOf? == q.HealthOf? && p.DrainOf? == q.DrainOf? && p.StickyOf? == q.StickyOf?
  {
    forall r: Place ensures KeyOf(r)[8] == if r.HealthOf? then 'e' else if r.DrainOf? then 'd' else 's' {}
  }

  /** Among separable places the key determines what it is about. */
  lemma KeyInjective(p: Place, q: Place)
    requires Separable(p) && Separable(q) && KeyOf(p) == KeyOf(q)
    ensures p == q
  {
    KeySpacesNeverMeet(p, q);
    match p
    case HealthOf(t, e) => EndpointKeyInjective("gateway:endpoint_health:", t, e, q.tenantId, q.endpointId);
    case DrainOf(t, e) => EndpointKeyInjective("gateway:drain:", t, e, q.tenantId, q.endpointId);
    case StickyOf(t, prj, a, h) => StickyParts(p, q);
  }

  // ---------- which keys are shared ----------

  /** No id holds a colon, and a sticky mapping names a project other than "_". */
  predicate Plain(p: Place)
  {
    match p
    case HealthOf(t, e) => ':' !in t && ':' !in e
    case DrainOf(t, e) => ':' !in t && ':' !in e
    case StickyOf(t, prj, a, h) =>
      ':' !in t && ':' !in a && ':' !in h && prj.Some? && ':' !in prj.value && prj.value != "_"
  }

  ghost function Colons(s: string): nat
  {
    if s == "" then 0 else (if s[0] == ':' then 1 else 0) + Colons(s[1..])
  }

  lemma {:induction false} ColonsAppend(s: string, t: string)
    ensures Colons(s + t) == Colons(s) + Colons(t)
  {
    if s == "" {
      assert s + t == t;
    } else {
      assert (s + t)[1..] == s[1..] + t;
      ColonsAppend(s[1..], t);
    }
  }

  lemma {:induction false} NoColons(s: string)
    ensures Colons(s) == 0 <==> ':' !in s
  {
    if s == "" {
    } else {
      NoColons(s[1..]);
    }
  }

  lemma ColonsOfPair(s: string, t: string)
    ensures Colons(s + ":" + t) == Colons(s) + 1 + Colons(t)
  {
    ColonsAppend(s, ":");
    ColonsAppend(s + ":", t);
  }

  lemma ColonsOfTail(p: Place)
    requires p.StickyOf?
    ensures Colons(StickyTail(p)) == 3 <==> Splittable(p) && ':' !in p.affinityHash
  {
    var x := p.aliasId + ":" + p.affinityHash;
    ColonsOfPair(p.aliasId, p.affinityHash);
    ColonsOfPair(ProjectText(p.projectId), x);
    ColonsOfPair(p.tenantId, ProjectText(p.projectId) + ":" + x);
    NoColons(p.tenantId);
    NoColons(ProjectText(p.projectId));
    NoColons(p.aliasId);
    NoColons(p.affinityHash);
  }

  lemma EndpointKeyUnshared(prefix: string, t: string, e: string, t': string, e': string)
    requires ':' !in t && ':' !in e && prefix + t + ":" + e == prefix + t' + ":" + e'
    ensures t == t' && e == e'
  {
    assert prefix + t + ":" + e == prefix + (t + ":" + e);
    assert prefix + t' + ":" + e' == prefix + (t' + ":" + e');
    CutPrefix(prefix, t + ":" + e, t' + ":" + e');
    ColonsOfPair(t, e);
    ColonsOfPair(t', e');
    NoColons(t);
    NoColons(e);
    NoColons(t');
    SplitAtColon(t, e, t', e');
  }

  lemma PlainIsUnshared(p: Place, q: Place)
    requires Plain(p) && KeyOf(p) == KeyOf(q)
    ensures p == q
  {
    KeySpacesNeverMeet(p, q);
    match p
    case HealthOf(t, e) => EndpointKeyUnshared("gateway:endpoint_health:", t, e, q.tenantId, q.endpointId);
    case DrainOf(t, e) => EndpointKeyUnshared("gateway:drain:", t, e, q.tenantId, q.endpointId);
    case StickyOf(t, prj, a, h) =>
      SameTail(p, q);
      ColonsOfTail(p);
      ColonsOfTail(q);
      StickyParts(p, q);
  }

  /** A string with a colon, cut at one. */
  lemma CutAtColon(s: string) returns (a: string, b: string)
    requires ':' in s
    ensures s == a + ":" + b
  {
    var i :| 0 <= i < |s| && s[i] == ':';
    a, b := s[..i], s[i + 1..];
  }

  /** The colon of one id can be read as the separator of its neighbour. */
  lemma ColonMoves(prefix: string, a: string, b: string, c: string)
    ensures prefix + (a + ":" + b) + ":" + c == prefix + a + ":" + (b + ":" + c)
  {}

  lemma EndpointKeyShared(t: string, e: string) returns (t': string, e': string)
    requires ':' in t || ':' in e
    ensures (t', e') != (t, e)
    ensures forall prefix :: prefix + t + ":" + e == prefix + t' + ":" + e'
  {
    if ':' in t {
      var a, b := CutAtColon(t);
      t', e' := a, b + ":" + e;
      assert |t'| < |t|;
      forall prefix ensures prefix + t + ":" + e == prefix + t' + ":" + e' { ColonMoves(prefix, a, b, e); }
    } else {
      var a, b := CutAtColon(e);
      t', e' := t + ":" + a, b;
      assert |t'| > |t|;
      forall prefix ensures prefix + t + ":" + e == prefix + t' + ":" + e' { ColonMoves(prefix, t, a, b); }
    }
  }

  lemma PairShift(a: string, b: string, c: string)
    ensures (a + ":" + b) + ":" + c == a + ":" + (b + ":" + c)
  {}

  lemma TenantColonMoves(b: string, c: string, prj: string, a: string, h: string)
    ensures KeyOf(StickyOf(b + ":" + c, Some(prj), a, h)) == KeyOf(StickyOf(b, Some(c + ":" + prj), a, h))
  {
    var x := a + ":" + h;
    PairShift(b, c, prj + ":" + x);
    PairShift(c, prj, x);
    SameTail(StickyOf(b + ":" + c, Some(prj), a, h), StickyOf(b, Some(c + ":" + prj), a, h));
  }

  lemma AliasColonMoves(t: string, prj: string, b: string, c: string, h: string)
    ensures KeyOf(StickyOf(t, Some(prj), b + ":" + c, h)) == KeyOf(StickyOf(t, Some(prj + ":" + b), c, h))
  {
    PairShift(b, c, h);
    PairShift(prj, b, c + ":" + h);
    SameTail(StickyOf(t, Some(prj), b + ":" + c, h), StickyOf(t, Some(prj + ":" + b), c, h));
  }

  lemma HashColonMoves(t: string, prj: string, a: string, b: string, c: string)
    ensures KeyOf(StickyOf(t, Some(prj), a, b + ":" + c)) == KeyOf(StickyOf(t, Some(prj), a + ":" + b, c))
  {
    PairShift(a, b, c);
    SameTail(StickyOf(t, Some(prj), a, b + ":" + c), StickyOf(t, Some(prj), a + ":" + b, c));
  }

  lemma StickyKeyShared(p: Place) returns (q: Place)
    requires p.StickyOf? && !Plain(p)
    ensures q != p && KeyOf(q) == KeyOf(p)
  {
    var t, prj, a, h := p.tenantId, ProjectText(p.projectId), p.aliasId, p.affinityHash;
    if prj == "_" {
      q := p.(projectId := if p.projectId.None? then Some("_") else None);
    } else if ':' in t {
      var b, c := CutAtColon(t);
      q := StickyOf(b, Some(c + ":" + prj), a, h);
      TenantColonMoves(b, c, prj, a, h);
      assert |q.tenantId| < |t|;
    } else if ':' in prj {
      var b, c := CutAtColon(prj);
      q := StickyOf(t + ":" + b, Some(c), a, h);
      TenantColonMoves(t, b, c, a, h);
      assert |q.tenantId| > |t|;
    } else if ':' in a {
      var b, c := CutAtColon(a);
      q := StickyOf(t, Some(prj + ":" + b), c, h);
      AliasColonMoves(t, prj, b, c, h);
      assert |q.aliasId| < |a|;
    } else {
      var b, c := CutAtColon(h);
      q := StickyOf(t, Some(prj), a + ":" + b, c);
      HashColonMoves(t, prj, a, b, c);
      assert |q.affinityHash| < |h|;
    }
  }

  /** No other place has the key of `p` exactly when `p` is plain: any colon can be read as a separator, and a
      project named "_" shares the key of no project. */
  lemma UnsharedIff(p: Place)
    ensures (forall q :: KeyOf(q) == KeyOf(p) ==> q == p) <==> Plain(p)
  {
    if Plain(p) {
      forall q | KeyOf(q) == KeyOf(p) ensures q == p { PlainIsUnshared(p, q); }
    } else if p.StickyOf? {
      var q := StickyKeyShared(p);
    } else {
      var t, e := EndpointKeyShared(p.tenantId, p.endpointId);
      var q := if p.HealthOf? then HealthOf(t, e) else DrainOf(t, e);
      assert KeyOf(q) == KeyOf(p);
    }
  }
}
