/** The hot-state cache: expiring records under string keys, and what a read can return. */
module HotCache {
  import opened Base
  import opened HotState

  const TICKS_PER_SECOND: int := 1_000_000_000

  datatype HotRecord = Health(health: HealthRecord) | Drain(drain: DrainRecord) | Sticky(sticky: StickyRecord)
  {
    function ConfigVersion(): int
    {
      match this
      case Health(r) => r.configVersion
      case Drain(r) => r.configVersion
      case Sticky(r) => r.configVersion
    }

    function ExpiresAt(): int
    {
      match this
      case Health(r) => r.expiresAt
      case Drain(r) => r.expiresAt
      case Sticky(r) => r.expiresAt
    }

    /** The record applies to this config version and has not expired. */
    predicate IsFreshFor(configVersion: Option<int>, now: int)
    {
      configVersion == Some(ConfigVersion()) && ExpiresAt() > now
    }

    function Place(): HotState.Place
    {
      match this
      case Health(r) => HealthOf(r.tenantId, r.endpointId)
      case Drain(r) => DrainOf(r.tenantId, r.endpointId)
      case Sticky(r) => StickyOf(r.tenantId, r.projectId, r.aliasId, r.affinityHash)
    }
  }

  /** A stored value and the time at which the server drops it. */
  datatype Entry = Entry(record: HotRecord, dropAt: int)

  /** Whole seconds, truncated toward zero. */
  function NumSeconds(ticks: int): int
  {
    if ticks >= 0 then ticks / TICKS_PER_SECOND else -(-ticks / TICKS_PER_SECOND)
  }

  // ---------- the cache ----------

  function Fetch(entries: map<string, Entry>, key: string, clock: int): Option<HotRecord>
  {
    if key in entries && clock < entries[key].dropAt then Some(entries[key].record) else None
  }

  class HotStateCache {
    var entries: map<string, Entry>

    /** Writes with the lifetime left at `clock`; without a whole second left nothing is written. */
    method WriteExpiring(record: HotRecord, clock: int, lands: bool)
      modifies this
      ensures entries == Put(old(entries), Write(record, clock, lands))
    {
      var ttl := NumSeconds(record.ExpiresAt() - clock);
      WholeSecondLeft(record.ExpiresAt() - clock);
      if ttl > 0 && lands {
        entries := entries[KeyOf(record.Place()) := Entry(record, clock + ttl * TICKS_PER_SECOND)];
      }
    }

    method EndpointHealthState(tenantId: string, endpointId: string, configVersion: Option<int>, now: int,
                               clock: int, readOk: bool) returns (state: HealthState)
      ensures state == if readOk then HealthAt(entries, tenantId, endpointId, configVersion, now, clock)
                       else HealthUnknown
    {
      state := HealthUnknown;
      if readOk {
        var got := Fetch(entries, EndpointHealthKey(tenantId, endpointId), clock);
        if got.Some? && got.value.Health? && got.value.IsFreshFor(configVersion, now) {
          state := got.value.health.state;
        }
      }
    }

    method EndpointIsDrained(tenantId: string, endpointId: string, configVersion: Option<int>, now: int,
                             clock: int, readOk: bool) returns (drained: bool)
      ensures drained <==> readOk && DrainedAt(entries, tenantId, endpointId, configVersion, now, clock)
    {
      var got := Fetch(entries, EndpointDrainKey(tenantId, endpointId), clock);
      drained := readOk && got.Some? && got.value.Drain? && got.value.IsFreshFor(configVersion, now);
    }

    method StickyRoute(tenantId: string, projectId: Option<string>, aliasId: string, affinityHash: string,
                       configVersion: Option<int>, now: int, clock: int, readOk: bool) returns (r: Option<StickyRecord>)
      ensures r == if !readOk then None
                   else StickyAt(entries, tenantId, projectId, aliasId, affinityHash, configVersion, now, clock)
    {
      r := None;
      if readOk {
        var got := Fetch(entries, StickyRouteKey(tenantId, projectId, aliasId, affinityHash), clock);
        if got.Some? && got.value.Sticky? && got.value.IsFreshFor(configVersion, now) { r := Some(got.value.sticky); }
      }
    }
  }

  /** A fresh record of the kind stored under a key; a value of another kind does not decode. */
  ghost function FreshAt(entries: map<string, Entry>, p: Place, configVersion: Option<int>, now: int,
                         clock: int): Option<HotRecord>
  {
    match Fetch(entries, KeyOf(p), clock)
    case None => None
    case Some(r) =>
      var decodes := if p.HealthOf? then r.Health? else if p.DrainOf? then r.Drain? else r.Sticky?;
      if decodes && r.IsFreshFor(configVersion, now) then Some(r) else None
  }

  ghost function HealthAt(entries: map<string, Entry>, t: string, e: string, configVersion: Option<int>, now: int,
                          clock: int): HealthState
  {
    match FreshAt(entries, HealthOf(t, e), configVersion, now, clock)
    case Some(Health(r)) => r.state
    case _ => HealthUnknown
  }

  ghost predicate DrainedAt(entries: map<string, Entry>, t: string, e: string, configVersion: Option<int>, now: int,
                            clock: int)
  {
    FreshAt(entries, DrainOf(t, e), configVersion, now, clock).Some?
  }

  ghost function StickyAt(entries: map<string, Entry>, t: string, prj: Option<string>, a: string, h: string,
                          configVersion: Option<int>, now: int, clock: int): Option<StickyRecord>
  {
    match FreshAt(entries, StickyOf(t, prj, a, h), configVersion, now, clock)
    case Some(Sticky(r)) => Some(r)
    case _ => None
  }

  // ---------- runs of writes ----------

  datatype Write = Write(record: HotRecord, clock: int, lands: bool)

  /** A write is stored when it lands and a whole second of lifetime is left. */
  ghost predicate Stored(w: Write)
  {
    w.lands && w.record.ExpiresAt() - w.clock >= TICKS_PER_SECOND
  }

  /** The server drops a record a whole number of seconds after the write. */
  ghost function DropAt(w: Write): int
  {
    w.clock + (w.record.ExpiresAt() - w.clock) / TICKS_PER_SECOND * TICKS_PER_SECOND
  }

  ghost function Put(entries: map<string, Entry>, w: Write): map<string, Entry>
  {
    if Stored(w) then entries[KeyOf(w.record.Place()) := Entry(w.record, DropAt(w))] else entries
  }

  lemma WholeSecondLeft(ticks: int)
    ensures NumSeconds(ticks) > 0 <==> ticks >= TICKS_PER_SECOND
    ensures ticks >= 0 ==> NumSeconds(ticks) == ticks / TICKS_PER_SECOND
  {}

  /** A stored record is dropped no later than it expires, and less than a second before that. */
  lemma DropWindow(w: Write)
    requires Stored(w)
    ensures w.record.ExpiresAt() - TICKS_PER_SECOND < DropAt(w) <= w.record.ExpiresAt()
  {}

  /** A write that lands with a second of life left, in nanoseconds, is found at once; any other changes nothing. */
  lemma WrittenIsFound(entries: map<string, Entry>, w: Write)
    ensures if w.lands && w.clock + 1_000_000_000 <= w.record.ExpiresAt()
            then FreshAt(Put(entries, w), w.record.Place(), Some(w.record.ConfigVersion()), w.clock, w.clock)
                 == Some(w.record)
            else Put(entries, w) == entries
  {
  }

  ghost function Cached(writes: seq<Write>): map<string, Entry>
  {
    if writes == [] then map[] else Put(Cached(writes[..|writes| - 1]), writes[|writes| - 1])
  }

  /** The last write actually stored for a place. */
  ghost function LastStored(writes: seq<Write>, p: Place): Option<Write>
  {
    if writes == [] then None
    else
      var w := writes[|writes| - 1];
      if Stored(w) && w.record.Place() == p then Some(w) else LastStored(writes[..|writes| - 1], p)
  }

  ghost predicate AllSeparable(writes: seq<Write>)
  {
    forall i :: 0 <= i < |writes| ==> Separable(writes[i].record.Place())
  }

  lemma {:induction false} CacheIsPlainMap(writes: seq<Write>, p: Place)
    requires AllSeparable(writes) && Separable(p)
    ensures var entries := Cached(writes);
            match LastStored(writes, p)
            case None => KeyOf(p) !in entries
            case Some(w) => Stored(w) && w.record.Place() == p && KeyOf(p) in entries
                            && entries[KeyOf(p)] == Entry(w.record, DropAt(w))
  {
    if writes == [] {
    } else {
      var w := writes[|writes| - 1];
      CacheIsPlainMap(writes[..|writes| - 1], p);
      if KeyOf(w.record.Place()) == KeyOf(p) { KeyInjective(w.record.Place(), p); }
    }
  }

  /** After any run of writes, a read finds a record exactly when the last write stored for that very place
      still lives and carries the requested version and an expiry after now; and it is that record. */
  lemma ReadIsLastStored(writes: seq<Write>, p: Place, configVersion: Option<int>, now: int, clock: int)
    requires AllSeparable(writes) && Separable(p)
    ensures FreshAt(Cached(writes), p, configVersion, now, clock) ==
            match LastStored(writes, p)
            case None => None
            case Some(w) =>
              if clock < DropAt(w) && configVersion == Some(w.record.ConfigVersion()) && now < w.record.ExpiresAt()
              then Some(w.record) else None
    ensures FreshAt(Cached(writes), p, configVersion, now, clock).Some? ==>
              FreshAt(Cached(writes), p, configVersion, now, clock).value.Place() == p
  {
    CacheIsPlainMap(writes, p);
  }

  /** Read at one moment with its own config version, the last record stored for a place is found as long as a
      second of its life is left, and never once it has expired. */
  lemma FoundUntilLastSecond(writes: seq<Write>, p: Place, now: int)
    requires AllSeparable(writes) && Separable(p) && LastStored(writes, p).Some?
    ensures var r := LastStored(writes, p).value.record;
            && (now <= r.ExpiresAt() - TICKS_PER_SECOND ==>
                  FreshAt(Cached(writes), p, Some(r.ConfigVersion()), now, now) == Some(r))
            && (r.ExpiresAt() <= now ==> FreshAt(Cached(writes), p, Some(r.ConfigVersion()), now, now) == None)
  {
    ReadIsLastStored(writes, p, Some(LastStored(writes, p).value.record.ConfigVersion()), now, now);
    CacheIsPlainMap(writes, p);
    DropWindow(LastStored(writes, p).value);
  }

  /** The last record stored for the place is there at that moment, of that config version and not expired. */
  ghost predicate IsLive(writes: seq<Write>, p: Place, configVersion: Option<int>, now: int, clock: int)
  {
    && LastStored(writes, p).Some?
    && var w := LastStored(writes, p).value;
    clock < DropAt(w) && configVersion == Some(w.record.ConfigVersion()) && now < w.record.ExpiresAt()
  }

  /** A health read gives the state of the last health record stored for the tenant and endpoint while it is live,
      and unknown otherwise. */
  lemma HealthIsLastStored(writes: seq<Write>, t: string, e: string, configVersion: Option<int>, now: int, clock: int)
    requires AllSeparable(writes) && Separable(HealthOf(t, e))
    ensures var live := IsLive(writes, HealthOf(t, e), configVersion, now, clock);
            && (live ==> LastStored(writes, HealthOf(t, e)).value.record.Health?)
            && HealthAt(Cached(writes), t, e, configVersion, now, clock)
               == if live then LastStored(writes, HealthOf(t, e)).value.record.health.state else HealthUnknown
  {
    ReadIsLastStored(writes, HealthOf(t, e), configVersion, now, clock);
    CacheIsPlainMap(writes, HealthOf(t, e));
  }

  /** An endpoint is drained exactly while the last drain record stored for it is live. */
  lemma DrainedIffLive(writes: seq<Write>, t: string, e: string, configVersion: Option<int>, now: int, clock: int)
    requires AllSeparable(writes) && Separable(DrainOf(t, e))
    ensures DrainedAt(Cached(writes), t, e, configVersion, now, clock) <==>
            IsLive(writes, DrainOf(t, e), configVersion, now, clock)
  {
    ReadIsLastStored(writes, DrainOf(t, e), configVersion, now, clock);
  }
}
