/** The userspace side: decoding a record, resolving or verifying its filter
    decision, and keeping the verdict cache. */
module Tracer {
  import opened Bits
  import opened Addresses
  import opened Events
  import opened Cel
  import opened Program
  import opened GoVm
  import opened Filters

  // Decoding

  /** `ConnEvent`, with the filter that reported it. */
  datatype ConnEvent = ConnEvent(
    typ: EventType, timestampNs: u64, pid: u32, comm: seq<u8>,
    localIp: IP, localPort: u16, remoteIp: IP, remotePort: u16, family: u16, cgroupId: u64,
    lifeUs: u64, rttUs: u32, retransmits: u32, segsOut: u32, errno: u32,
    sndCwnd: u32, sndSsthresh: u32, sndWnd: u32, rcvWnd: u32,
    filterIdx: u16, filterName: string)

  /** The bytes before the first NUL. */
  function CString(b: seq<u8>): seq<u8> {
    if b == [] || b[0] == 0 then [] else [b[0]] + CString(b[1..])
  }

  method DecodeCString(b: seq<u8>) returns (out: seq<u8>)
    ensures out == CString(b)
    ensures out <= b && 0 !in out && (|out| < |b| ==> b[|out|] == 0)
  {
    out := [];
    for i := 0 to |b|
      invariant out == b[..i] && 0 !in out
      invariant CString(b) == out + CString(b[i..])
    {
      if b[i] == 0 {
        return;
      }
      assert b[i..][1..] == b[i + 1..];
      out := out + [b[i]];
    }
  }

  /** An address of a decoded event: nothing for a family that is not IP. */
  function EventIp(family: u16, raw: Bytes16): IP {
    if family == AF_INET then V4(raw[..4]) else if family == AF_INET6 then V6(raw) else NoIP
  }

  /** `decodeConnEvent`. */
  function DecodeConnEvent(r: Raw, filterIdx: u16): ConnEvent {
    ConnEvent(r.typ, r.ts, r.pid, CString(r.comm),
              EventIp(r.family, r.localIp), r.localPort, EventIp(r.family, r.remoteIp), r.remotePort,
              r.family, r.cgroup, r.lifeUs, r.rttUs, r.retransmits, r.segsOut, r.error,
              r.sndCwnd, r.sndSsthresh, r.sndWnd, r.rcvWnd, filterIdx, "")
  }

  /** A decoded event shows the addresses that the filters evaluated exactly
      when its family is an IP family. */
  lemma DecodedAddresses(family: u16, raw: Bytes16)
    ensures EventIp(family, raw) == DecodeIp(family, raw) <==> family == AF_INET || family == AF_INET6
  {
  }

  /** What a reported event shows of an IP record is what the filters evaluated. */
  lemma DecodedEvent(r: Raw, filterIdx: u16)
    requires r.family == AF_INET || r.family == AF_INET6
    ensures var (e, ev) := (DecodeConnEvent(r, filterIdx), EventOf(r, NO_ATTRS));
            e.localIp == ev.localIp && e.localPort == ev.localPort &&
            e.remoteIp == ev.remoteIp && e.remotePort == ev.remotePort &&
            e.typ == ev.typ && e.rttUs == ev.rttUs && e.lifeUs == ev.lifeUs &&
            e.retransmits == ev.retransmits && e.segsOut == ev.segsOut && e.errno == ev.errno
  {
    DecodedAddresses(r.family, r.localIp);
    DecodedAddresses(r.family, r.remoteIp);
  }

  // Attributes

  /** The attribute source: an answer for a cgroup, if it has one, and a snapshot
      of the cgroups it holds. It may answer for cgroups outside the snapshot, as
      the node agent's source does with empty attributes. Without a source, every
      cgroup has empty attributes. */
  datatype Source = NoSource | Source(attrs: u64 -> Option<CgroupAttrs>, snapshot: map<u64, CgroupAttrs>)

  /** The snapshot is a part of what the source answers. */
  ghost predicate SourceOk(src: Source) {
    src.Source? ==> forall cg | cg in src.snapshot :: src.attrs(cg) == Some(src.snapshot[cg])
  }

  predicate Known(src: Source, cgroup: u64) {
    src.NoSource? || src.attrs(cgroup).Some?
  }

  function AttrsOf(src: Source, cgroup: u64): CgroupAttrs {
    if src.Source? && src.attrs(cgroup).Some? then src.attrs(cgroup).value else NO_ATTRS
  }

  type Cache = map<u64, u64>

  /** Every cached verdict is the mask of the attributes that its cgroup has. */
  ghost predicate Coherent(s: FilterSet, src: Source, cache: Cache) {
    forall cg | cg in cache :: Known(src, cg) && cache[cg] == Mask(s.atoms, AttrsOf(src, cg))
  }

  /** The cache with the verdicts of some cgroups written. */
  function Written(s: FilterSet, snapshot: map<u64, CgroupAttrs>, cache: Cache, done: set<u64>): Cache
    requires done <= snapshot.Keys
  {
    cache + map cg | cg in done :: Mask(s.atoms, snapshot[cg])
  }

  // One record

  /** A ring buffer record; a broken one does not decode. */
  datatype Record = Broken | Record(raw: Raw, filterIdx: u16)

  datatype Report = Report(raw: Raw, event: ConnEvent)

  datatype Settings = Settings(tx: Text, filters: Option<FilterSet>, source: Source, verify: bool)

  /** Everything that the event loop updates. `reported` and `rejected` are the
      events it passed on and the ones it dropped for matching no filter. */
  datatype UserState = UserState(
    cache: Cache, events: nat, decodeErrors: nat, passedBpf: nat, passedUserspace: nat,
    droppedUserspace: nat, mismatches: nat, reported: seq<Report>, rejected: seq<Raw>)

  const START := UserState(map[], 0, 0, 0, 0, 0, 0, [], [])

  /** What `Evaluate` decides for a record, on the attributes of its cgroup. */
  function Decide(c: Settings, s: FilterSet, r: Raw): Option<nat> {
    Evaluate(c.tx, s.exprs, EventOf(r, AttrsOf(c.source, r.cgroup)), 0)
  }

  /** `Evaluate` sees the attributes that the source answers, and empty ones for a
      cgroup that it does not know or without a source. */
  lemma DecideMeaning(c: Settings, s: FilterSet, r: Raw)
    ensures Decide(c, s, r) ==
            match c.source
            case NoSource => Evaluate(c.tx, s.exprs, EventOf(r, CgroupAttrs("", "", "")), 0)
            case Source(attrs, _) =>
              match attrs(r.cgroup)
              case None => Evaluate(c.tx, s.exprs, EventOf(r, CgroupAttrs("", "", "")), 0)
              case Some(a) => Evaluate(c.tx, s.exprs, EventOf(r, a), 0)
  {
  }

  /** The cache after resolving a record: a known cgroup gets its verdict if the update succeeds. */
  function Refreshed(c: Settings, s: FilterSet, r: Raw, cache: Cache, updateOk: bool): Cache {
    if Known(c.source, r.cgroup) && updateOk
    then cache[r.cgroup := Mask(s.atoms, AttrsOf(c.source, r.cgroup))]
    else cache
  }

  function Reported(s: FilterSet, r: Raw, idx: u16): Report
    requires idx as int < |s.names|
  {
    Report(r, DecodeConnEvent(r, idx).(filterName := s.names[idx]))
  }

  /** The event loop on one record. */
  function OnRecord(c: Settings, u: UserState, rec: Record, updateOk: bool): UserState
    requires c.filters.Some? ==> |c.filters.value.names| == |c.filters.value.exprs| <= MAX_FILTERS
  {
    var u1 := u.(events := u.events + 1);
    if rec.Broken? then u1.(decodeErrors := u.decodeErrors + 1)
    else if c.filters.None? then u1.(droppedUserspace := u.droppedUserspace + 1)
    else
      var s, r := c.filters.value, rec.raw;
      var decision := Decide(c, s, r);
      var cache' := Refreshed(c, s, r, u.cache, updateOk);
      if rec.filterIdx as int < |s.names| then
        u1.(passedBpf := u.passedBpf + 1,
            cache := if c.verify then cache' else u.cache,
            mismatches := u.mismatches + if c.verify && decision != Some(rec.filterIdx as nat) then 1 else 0,
            reported := u.reported + [Reported(s, r, rec.filterIdx)])
      else if decision.None? then
        u1.(droppedUserspace := u.droppedUserspace + 1, cache := cache', rejected := u.rejected + [r])
      else
        EvaluateInRange(c.tx, s.exprs, EventOf(r, AttrsOf(c.source, r.cgroup)), 0);
        u1.(passedUserspace := u.passedUserspace + 1, cache := cache',
            reported := u.reported + [Reported(s, r, decision.value)])
  }

  lemma {:induction false} EvaluateInRange(tx: Text, exprs: seq<Expr>, ev: Event, k: nat)
    requires k <= |exprs|
    ensures Evaluate(tx, exprs, ev, k).Some? ==> Evaluate(tx, exprs, ev, k).value < |exprs|
    decreases |exprs| - k
  {
    if k < |exprs| { EvaluateInRange(tx, exprs, ev, k + 1); }
  }

  class Tracer {
    const settings: Settings
    var cache: Cache
    var events: nat
    var decodeErrors: nat
    var passedBpf: nat
    var passedUserspace: nat
    var droppedUserspace: nat
    var mismatches: nat
    var reported: seq<Report>
    var rejected: seq<Raw>

    ghost predicate Valid() {
      settings.filters.Some? ==>
        |settings.filters.value.names| == |settings.filters.value.exprs| <= MAX_FILTERS
    }

    function State(): UserState
      reads this
    {
      UserState(cache, events, decodeErrors, passedBpf, passedUserspace,
                droppedUserspace, mismatches, reported, rejected)
    }

    constructor (settings: Settings)
      ensures State() == START && this.settings == settings
    {
      this.settings := settings;
      cache, events, decodeErrors, passedBpf := map[], 0, 0, 0;
      passedUserspace, droppedUserspace, mismatches := 0, 0, 0;
      reported, rejected := [], [];
    }

    /** `syncOnce`: write the verdict of every cgroup in the snapshot, stopping at
        the first failing update, then delete every entry outside it. A sync
        without failures replaces the whole cache, whatever was in it. */
    method SyncOnce(failing: set<u64>) returns (done: set<u64>)
      requires settings.filters.Some?
      modifies this`cache
      ensures settings.source.NoSource? ==> cache == old(cache)
      ensures settings.source.Source? ==>
                var s, snapshot := settings.filters.value, settings.source.snapshot;
                done <= snapshot.Keys && done !! failing &&
                if done == snapshot.Keys then cache == map cg | cg in snapshot :: Mask(s.atoms, snapshot[cg])
                else cache == Written(s, snapshot, old(cache), done)
      ensures settings.source.Source? && failing !! settings.source.snapshot.Keys ==>
                done == settings.source.snapshot.Keys
      ensures settings.source.Source? && failing !! settings.source.snapshot.Keys && SourceOk(settings.source) ==>
                Coherent(settings.filters.value, settings.source, cache)
    {
      done := {};
      if settings.source.NoSource? {
        return;
      }
      var s, snapshot := settings.filters.value, settings.source.snapshot;
      done := WriteVerdicts(s, snapshot, failing);
      if done == snapshot.Keys {
        DeleteStale(snapshot);
        assert cache == map cg | cg in snapshot :: Mask(s.atoms, snapshot[cg]);
      }
    }

    /** The first loop of `syncOnce`, which a failing update ends. */
    method WriteVerdicts(s: FilterSet, snapshot: map<u64, CgroupAttrs>, failing: set<u64>) returns (done: set<u64>)
      modifies this`cache
      ensures done <= snapshot.Keys && done !! failing
      ensures failing !! snapshot.Keys ==> done == snapshot.Keys
      ensures cache == Written(s, snapshot, old(cache), done)
    {
      var todo := snapshot.Keys;
      done := {};
      while todo != {}
        invariant todo <= snapshot.Keys && done == snapshot.Keys - todo && done !! failing
        invariant cache == Written(s, snapshot, old(cache), done)
      {
        var id :| id in todo;
        var mask := VerdictMask(s.atoms, snapshot[id]);
        if id in failing {
          return;
        }
        cache := cache[id := mask];
        todo := todo - {id};
        done := done + {id};
      }
    }

    /** The second loop of `syncOnce`: delete the entries of cgroups outside the snapshot. */
    method DeleteStale(snapshot: map<u64, CgroupAttrs>)
      modifies this`cache
      ensures cache == map cg | cg in old(cache) && cg in snapshot :: old(cache)[cg]
    {
      var keys := cache.Keys;
      while keys != {}
        invariant keys <= old(cache).Keys
        invariant forall cg :: cg in cache <==> cg in old(cache) && (cg in snapshot || cg in keys)
        invariant forall cg | cg in cache :: cache[cg] == old(cache)[cg]
        decreases keys
      {
        var key :| key in keys;
        if key !in snapshot {
          cache := cache - {key};
        }
        keys := keys - {key};
      }
    }

    /** `resolveFilter`. */
    method ResolveFilter(r: Raw, updateOk: bool) returns (idx: Option<nat>)
      requires settings.filters.Some?
      modifies this`cache
      ensures idx == Decide(settings, settings.filters.value, r)
      ensures cache == Refreshed(settings, settings.filters.value, r, old(cache), updateOk)
    {
      var s := settings.filters.value;
      var attrs, known := NO_ATTRS, true;
      if settings.source.Source? {
        var answer := settings.source.attrs(r.cgroup);
        known := answer.Some?;
        if known {
          attrs := answer.value;
        }
      }
      idx := RunFilters(settings.tx, s.exprs, EventOf(r, attrs));
      if known {
        var mask := VerdictMask(s.atoms, attrs);
        if updateOk {
          cache := cache[r.cgroup := mask];
        }
      }
    }

    /** `verifyBpfDecision`. */
    method VerifyBpfDecision(r: Raw, bpfIdx: u16, updateOk: bool)
      requires settings.filters.Some?
      modifies this`cache, this`mismatches
      ensures cache == Refreshed(settings, settings.filters.value, r, old(cache), updateOk)
      ensures mismatches == old(mismatches) +
                if Decide(settings, settings.filters.value, r) != Some(bpfIdx as nat) then 1 else 0
    {
      var idx := ResolveFilter(r, updateOk);
      if idx.None? || idx.value != bpfIdx {
        mismatches := mismatches + 1;
      }
    }

    /** The body of the event loop of `Run`. */
    method HandleRecord(rec: Record, updateOk: bool)
      requires Valid()
      modifies this
      ensures State() == OnRecord(settings, old(State()), rec, updateOk)
    {
      events := events + 1;
      if rec.Broken? {
        decodeErrors := decodeErrors + 1;
        return;
      }
      var event := DecodeConnEvent(rec.raw, rec.filterIdx);
      if settings.filters.None? {
        droppedUserspace := droppedUserspace + 1;
        return;
      }
      var s := settings.filters.value;
      if event.filterIdx as int < |s.names| {
        event := event.(filterName := s.names[event.filterIdx]);
        passedBpf := passedBpf + 1;
        if settings.verify {
          VerifyBpfDecision(rec.raw, event.filterIdx, updateOk);
        }
      } else {
        var idx := ResolveFilter(rec.raw, updateOk);
        if idx.None? {
          droppedUserspace := droppedUserspace + 1;
          rejected := rejected + [rec.raw];
          return;
        }
        EvaluateInRange(settings.tx, s.exprs, EventOf(rec.raw, AttrsOf(settings.source, rec.raw.cgroup)), 0);
        event := event.(filterIdx := idx.value, filterName := s.names[idx.value]);
        passedUserspace := passedUserspace + 1;
      }
      reported := reported + [Report(rec.raw, event)];
    }
  }
}
