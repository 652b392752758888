/** The whole event path as a state machine: kernel walks, any number of
    them at once and one slot at a time, interleaved with each other, with ring
    buffer reads, with verdict cache writes and with arbitrary evictions. */
module Pipeline {
  import opened Bits
  import opened Addresses
  import opened Events
  import opened Cel
  import opened Program
  import opened GoVm
  import opened Filters
  import opened FirstMatch
  import opened KernelVm
  import opened KernelRefinement
  import opened Tracer

  /** A walk in progress: the event, the current filter's standing, and what the
      lookup at each slot so far found. */
  datatype KernelWalk = KernelWalk(raw: Raw, res: Tri, seen: seq<Option<u64>>)

  /** A record that waits in the ring buffer. */
  datatype Entry = Entry(raw: Raw, filterIdx: u16)

  /** What has happened to events: all that were submitted, those that the kernel
      filter dropped, those lost to a full ring buffer, and those read from it,
      with the kernel's index if they decode, or broken. */
  datatype Log = Log(submitted: seq<Raw>, dropped: seq<Raw>, lost: seq<Raw>, read: seq<Entry>, broken: seq<Raw>)

  datatype State = State(
    user: UserState, loaded: bool, enabled: bool, walks: seq<KernelWalk>, ring: seq<Entry>, log: Log)

  datatype Action =
    | Load
    | Enable
    | SyncPut(cgroup: u64)
    | SyncDelete(cgroup: u64)
    | Evict(cgroup: u64)
    | Submit(raw: Raw, full: bool)
    | Advance(walk: nat, full: bool)
    | Read(decodes: bool, updateOk: bool)

  const INIT := State(START, false, false, [], [], Log([], [], [], [], []))

  /** The program that the kernel runs: all zero until it is loaded. */
  function KernelProg(c: Settings, st: State): Prog {
    if st.loaded && c.filters.Some? then ProgOf(c.filters.value.names, c.filters.value.flat)
    else Prog(0, 0, ProgOf([], []).preds)
  }

  function Find(cache: Cache, cgroup: u64): Option<u64> {
    if cgroup in cache then Some(cache[cgroup]) else None
  }

  /** The end of `submit_conn_evt`: drop, lose to a full ring buffer, or submit. */
  function Emit(st: State, r: Raw, d: u16, full: bool): State {
    if d == DROP then st.(log := st.log.(dropped := st.log.dropped + [r]))
    else if full then st.(log := st.log.(lost := st.log.lost + [r]))
    else st.(ring := st.ring + [Entry(r, d)])
  }

  /** One step of the walk on its current slot: the decision, or the standing after it. */
  datatype Progress = Decided(d: u16) | Going(res: Tri)

  function Advanced(step: Step, res: Tri): Progress {
    match step
    case Test(t) => Going(TriAnd(res, t))
    case End(i, userspace) =>
      if userspace then Decided(UNDECIDED)
      else (match res
            case True => Decided(i)
            case Unknown => Decided(UNDECIDED)
            case False => Going(True))
    case Bad => Decided(UNDECIDED)
  }

  function Without(walks: seq<KernelWalk>, i: nat): seq<KernelWalk>
    requires i < |walks|
  {
    walks[..i] + walks[i + 1..]
  }

  function AdvanceWalk(c: Settings, st: State, i: nat, full: bool): State
    requires i < |st.walks|
  {
    var w, p := st.walks[i], KernelProg(c, st);
    var k := |w.seen|;
    var st1 := st.(walks := Without(st.walks, i));
    if k >= SlotsUsed(p) then Emit(st1, w.raw, DROP, full)
    else
      var found := Find(st.user.cache, w.raw.cgroup);
      match Advanced(KoStep(p.preds[k], w.raw, found), w.res)
      case Decided(d) => Emit(st1, w.raw, d, full)
      case Going(res) => st.(walks := st.walks[i := KernelWalk(w.raw, res, w.seen + [found])])
  }

  ghost predicate SettingsOk(c: Settings) {
    c.filters.Some? ==> |c.filters.value.names| == |c.filters.value.exprs| <= MAX_FILTERS
  }

  /** The event loop takes the first waiting record, which may fail to decode. */
  function ReadFirst(c: Settings, st: State, decodes: bool, updateOk: bool): State
    requires SettingsOk(c) && st.ring != []
  {
    var e := st.ring[0];
    var st1 := st.(ring := st.ring[1..]);
    if decodes then
      st1.(user := OnRecord(c, st.user, Record(e.raw, e.filterIdx), updateOk),
           log := st.log.(read := st.log.read + [e]))
    else
      st1.(user := OnRecord(c, st.user, Broken, updateOk), log := st.log.(broken := st.log.broken + [e.raw]))
  }

  /** A hook submits an event: decided at once while filters are off or empty,
      otherwise by a walk that starts now. */
  function Start(c: Settings, st: State, r: Raw, full: bool): State {
    var st1 := st.(log := st.log.(submitted := st.log.submitted + [r]));
    if !st.enabled then Emit(st1, r, UNFILTERED, full)
    else if KernelProg(c, st).nfilters == 0 then Emit(st1, r, DROP, full)
    else st1.(walks := st.walks + [KernelWalk(r, True, [])])
  }

  function WithCache(st: State, cache: Cache): State {
    st.(user := st.user.(cache := cache))
  }

  /** The effect of an action; one that is not possible in a state changes nothing.
      The program is loaded before the filters are enabled. */
  function Apply(c: Settings, st: State, a: Action): State
    requires SettingsOk(c)
  {
    match a
    case Load => if c.filters.Some? then st.(loaded := true) else st
    case Enable => if c.filters.Some? && !st.loaded then st else st.(enabled := true)
    case SyncPut(cg) =>
      if c.filters.Some? && c.source.Source? && cg in c.source.snapshot
      then WithCache(st, st.user.cache[cg := Mask(c.filters.value.atoms, c.source.snapshot[cg])])
      else st
    case SyncDelete(cg) =>
      if c.source.Source? && cg !in c.source.snapshot then WithCache(st, st.user.cache - {cg}) else st
    case Evict(cg) => WithCache(st, st.user.cache - {cg})
    case Submit(r, full) => if RawOk(r) then Start(c, st, r, full) else st
    case Advance(i, full) => if i < |st.walks| then AdvanceWalk(c, st, i, full) else st
    case Read(decodes, updateOk) => if st.ring == [] then st else ReadFirst(c, st, decodes, updateOk)
  }

  function Run(c: Settings, st: State, acts: seq<Action>): State
    requires SettingsOk(c)
    decreases |acts|
  {
    if acts == [] then st else Run(c, Apply(c, st, acts[0]), acts[1..])
  }

  // Conservation

  function WalkRaws(walks: seq<KernelWalk>): (rs: seq<Raw>)
    ensures |rs| == |walks| && forall i | 0 <= i < |walks| :: rs[i] == walks[i].raw
  {
    seq(|walks|, i requires 0 <= i < |walks| => walks[i].raw)
  }

  function EntryRaws(ring: seq<Entry>): (rs: seq<Raw>)
    ensures |rs| == |ring| && forall i | 0 <= i < |ring| :: rs[i] == ring[i].raw
  {
    seq(|ring|, i requires 0 <= i < |ring| => ring[i].raw)
  }

  function Total<T>(a: multiset<T>, b: multiset<T>, c: multiset<T>, d: multiset<T>, e: multiset<T>, f: multiset<T>)
    : (t: multiset<T>)
  {
    a + b + c + d + e + f
  }

  /** The multiset of the events that are accounted for: those in a walk, dropped by
      the filter, lost to a full ring buffer, waiting, read, and broken. */
  function Accounted(st: State): multiset<Raw> {
    Total(multiset(WalkRaws(st.walks)), multiset(st.log.dropped), multiset(st.log.lost),
          multiset(EntryRaws(st.ring)), multiset(EntryRaws(st.log.read)), multiset(st.log.broken))
  }

  /** Every submitted event is accounted for, as often as it was submitted. */
  predicate EventsConserved(st: State) {
    multiset(st.log.submitted) == Accounted(st)
  }

  /** Every record taken from the ring buffer is counted in exactly one outcome. */
  predicate CountsConserved(st: State) {
    st.user.events == |st.log.read| + |st.log.broken| &&
    st.user.decodeErrors == |st.log.broken| &&
    |st.log.read| == st.user.passedBpf + st.user.passedUserspace + st.user.droppedUserspace &&
    |st.user.reported| == st.user.passedBpf + st.user.passedUserspace
  }

  predicate Conserved(st: State) {
    EventsConserved(st) && CountsConserved(st)
  }

  lemma WalkTaken(walks: seq<KernelWalk>, i: nat)
    requires i < |walks|
    ensures multiset(WalkRaws(walks)) == multiset(WalkRaws(Without(walks, i))) + multiset{walks[i].raw}
  {
    var rs := WalkRaws(walks);
    assert rs == rs[..i] + [walks[i].raw] + rs[i + 1..];
    assert WalkRaws(Without(walks, i)) == rs[..i] + rs[i + 1..];
  }

  lemma WalkAdded(walks: seq<KernelWalk>, w: KernelWalk)
    ensures multiset(WalkRaws(walks + [w])) == multiset(WalkRaws(walks)) + multiset{w.raw}
  {
    assert WalkRaws(walks + [w]) == WalkRaws(walks) + [w.raw];
  }

  lemma WalkStays(walks: seq<KernelWalk>, i: nat, w: KernelWalk)
    requires i < |walks| && w.raw == walks[i].raw
    ensures WalkRaws(walks[i := w]) == WalkRaws(walks)
  {
  }

  lemma TotalMore<T>(a: multiset<T>, b: multiset<T>, c: multiset<T>, d: multiset<T>, e: multiset<T>, f: multiset<T>,
                     x: T)
    ensures var more := Total(a, b, c, d, e, f) + multiset{x};
            Total(a + multiset{x}, b, c, d, e, f) == more && Total(a, b + multiset{x}, c, d, e, f) == more &&
            Total(a, b, c + multiset{x}, d, e, f) == more && Total(a, b, c, d + multiset{x}, e, f) == more &&
            Total(a, b, c, d, e + multiset{x}, f) == more && Total(a, b, c, d, e, f + multiset{x}) == more
  {
  }

  /** One more event in any of the six places is one more event accounted for. */
  lemma AccountsMore(st: State, x: Raw)
    ensures var (w, d, l) := (multiset(WalkRaws(st.walks)), multiset(st.log.dropped), multiset(st.log.lost));
            var (q, r, b) := (multiset(EntryRaws(st.ring)), multiset(EntryRaws(st.log.read)), multiset(st.log.broken));
            var more := Accounted(st) + multiset{x};
            Total(w + multiset{x}, d, l, q, r, b) == more && Total(w, d + multiset{x}, l, q, r, b) == more &&
            Total(w, d, l + multiset{x}, q, r, b) == more && Total(w, d, l, q + multiset{x}, r, b) == more &&
            Total(w, d, l, q, r + multiset{x}, b) == more && Total(w, d, l, q, r, b + multiset{x}) == more
  {
    TotalMore(multiset(WalkRaws(st.walks)), multiset(st.log.dropped), multiset(st.log.lost),
              multiset(EntryRaws(st.ring)), multiset(EntryRaws(st.log.read)), multiset(st.log.broken), x);
  }

  lemma RingAdded(ring: seq<Entry>, e: Entry)
    ensures multiset(EntryRaws(ring + [e])) == multiset(EntryRaws(ring)) + multiset{e.raw}
  {
    assert EntryRaws(ring + [e]) == EntryRaws(ring) + [e.raw];
  }

  lemma RingTaken(ring: seq<Entry>)
    requires ring != []
    ensures multiset(EntryRaws(ring)) == multiset{ring[0].raw} + multiset(EntryRaws(ring[1..]))
  {
    assert EntryRaws(ring) == [ring[0].raw] + EntryRaws(ring[1..]);
  }

  lemma RawAdded(rs: seq<Raw>, r: Raw)
    ensures multiset(rs + [r]) == multiset(rs) + multiset{r}
  {
  }

  /** Emitting accounts for one more event, and touches neither userspace nor what it read. */
  lemma EmitAccounts(st: State, r: Raw, d: u16, full: bool)
    ensures var st' := Emit(st, r, d, full);
            Accounted(st') == Accounted(st) + multiset{r} && st'.user == st.user &&
            st'.log.submitted == st.log.submitted && st'.log.read == st.log.read && st'.log.broken == st.log.broken
  {
    AccountsMore(st, r);
    if d == DROP {
      RawAdded(st.log.dropped, r);
    } else if full {
      RawAdded(st.log.lost, r);
    } else {
      RingAdded(st.ring, Entry(r, d));
    }
  }

  /** Emitting the one event that is not yet accounted for. */
  lemma EmitConserves(st: State, r: Raw, d: u16, full: bool)
    requires multiset(st.log.submitted) == Accounted(st) + multiset{r} && CountsConserved(st)
    ensures Conserved(Emit(st, r, d, full))
  {
    EmitAccounts(st, r, d, full);
  }

  lemma TakeOut(st: State, i: nat)
    requires i < |st.walks|
    ensures Accounted(st) == Accounted(st.(walks := Without(st.walks, i))) + multiset{st.walks[i].raw}
  {
    WalkTaken(st.walks, i);
    AccountsMore(st.(walks := Without(st.walks, i)), st.walks[i].raw);
  }

  lemma AdvanceConserves(c: Settings, st: State, i: nat, full: bool)
    requires Conserved(st) && i < |st.walks|
    ensures Conserved(AdvanceWalk(c, st, i, full))
  {
    var w, p, k := st.walks[i], KernelProg(c, st), |st.walks[i].seen|;
    var st1 := st.(walks := Without(st.walks, i));
    TakeOut(st, i);
    EmitConserves(st1, w.raw, DROP, full);
    if k < SlotsUsed(p) {
      var found := Find(st.user.cache, w.raw.cgroup);
      match Advanced(KoStep(p.preds[k], w.raw, found), w.res)
      case Decided(d) => EmitConserves(st1, w.raw, d, full);
      case Going(res) => WalkStays(st.walks, i, KernelWalk(w.raw, res, w.seen + [found]));
    }
  }

  lemma StartConserves(c: Settings, st: State, r: Raw, full: bool)
    requires Conserved(st)
    ensures Conserved(Start(c, st, r, full))
  {
    var st1 := st.(log := st.log.(submitted := st.log.submitted + [r]));
    RawAdded(st.log.submitted, r);
    EmitConserves(st1, r, UNFILTERED, full);
    EmitConserves(st1, r, DROP, full);
    WalkAdded(st.walks, KernelWalk(r, True, []));
    AccountsMore(st, r);
  }

  /** Moving the first waiting event to the events read, or to the broken ones. */
  lemma TakenAccounts(st: State, st': State)
    requires st.ring != [] && st'.ring == st.ring[1..] && st'.walks == st.walks
    requires st'.log == st.log.(read := st.log.read + [st.ring[0]]) ||
             st'.log == st.log.(broken := st.log.broken + [st.ring[0].raw])
    ensures Accounted(st') == Accounted(st)
  {
    var r := st.ring[0].raw;
    RingTaken(st.ring);
    AccountsMore(st.(ring := st.ring[1..]), r);
    RingAdded(st.log.read, st.ring[0]);
    RawAdded(st.log.broken, r);
  }

  lemma ReadAccounts(c: Settings, st: State, decodes: bool, updateOk: bool)
    requires SettingsOk(c) && st.ring != []
    ensures Accounted(ReadFirst(c, st, decodes, updateOk)) == Accounted(st)
  {
    TakenAccounts(st, ReadFirst(c, st, decodes, updateOk));
  }

  lemma ReadCounts(c: Settings, st: State, decodes: bool, updateOk: bool)
    requires SettingsOk(c) && CountsConserved(st) && st.ring != []
    ensures CountsConserved(ReadFirst(c, st, decodes, updateOk))
  {
  }

  lemma ReadConserves(c: Settings, st: State, decodes: bool, updateOk: bool)
    requires SettingsOk(c) && Conserved(st) && st.ring != []
    ensures Conserved(ReadFirst(c, st, decodes, updateOk))
  {
    ReadAccounts(c, st, decodes, updateOk);
    ReadCounts(c, st, decodes, updateOk);
  }

  /** An action of the loader, the cache or an eviction. */
  predicate Quiet(a: Action) {
    !a.Submit? && !a.Advance? && !a.Read?
  }

  lemma QuietConserves(c: Settings, st: State, a: Action)
    requires SettingsOk(c) && Conserved(st) && Quiet(a)
    ensures Conserved(Apply(c, st, a))
  {
    var st' := Apply(c, st, a);
    assert st'.walks == st.walks && st'.ring == st.ring && st'.log == st.log;
    assert st'.user == st.user.(cache := st'.user.cache);
  }

  lemma SubmitConserves(c: Settings, st: State, r: Raw, full: bool)
    requires SettingsOk(c) && Conserved(st)
    ensures Conserved(Apply(c, st, Submit(r, full)))
  {
    if RawOk(r) { StartConserves(c, st, r, full); }
  }

  lemma StepConserves(c: Settings, st: State, i: nat, full: bool)
    requires SettingsOk(c) && Conserved(st)
    ensures Conserved(Apply(c, st, Advance(i, full)))
  {
    if i < |st.walks| {
      assert Apply(c, st, Advance(i, full)) == AdvanceWalk(c, st, i, full);
      AdvanceConserves(c, st, i, full);
    } else {
      assert Apply(c, st, Advance(i, full)) == st;
    }
  }

  lemma TakeConserves(c: Settings, st: State, decodes: bool, updateOk: bool)
    requires SettingsOk(c) && Conserved(st)
    ensures Conserved(Apply(c, st, Read(decodes, updateOk)))
  {
    if st.ring != [] {
      assert Apply(c, st, Read(decodes, updateOk)) == ReadFirst(c, st, decodes, updateOk);
      ReadConserves(c, st, decodes, updateOk);
    } else {
      assert Apply(c, st, Read(decodes, updateOk)) == st;
    }
  }

  lemma ApplyConserves(c: Settings, st: State, a: Action)
    requires SettingsOk(c) && Conserved(st)
    ensures Conserved(Apply(c, st, a))
  {
    match a
    case Submit(r, full) => SubmitConserves(c, st, r, full);
    case Advance(i, full) => StepConserves(c, st, i, full);
    case Read(decodes, updateOk) => TakeConserves(c, st, decodes, updateOk);
    case _ => QuietConserves(c, st, a);
  }

  /** Conservation over whole runs, for any settings. */
  lemma {:induction false} RunConserves(c: Settings, st: State, acts: seq<Action>)
    requires SettingsOk(c) && Conserved(st)
    ensures Conserved(Run(c, st, acts))
    decreases |acts|
  {
    if acts != [] {
      ApplyConserves(c, st, acts[0]);
      RunConserves(c, Apply(c, st, acts[0]), acts[1..]);
    }
  }

  // Walks in progress

  /** Running `steps` from `res`. */
  function Partial(steps: seq<Step>, res: Tri): Progress {
    if steps == [] then Going(res)
    else match Advanced(steps[0], res)
      case Decided(d) => Decided(d)
      case Going(res') => Partial(steps[1..], res')
  }

  /** The whole walk from its first steps and the rest. */
  lemma {:induction false} PartialIsWalk(ss: seq<Step>, rest: seq<Step>, res: Tri)
    ensures Walk(ss + rest, res) ==
            match Partial(ss, res)
            case Decided(d) => d
            case Going(res') => Walk(rest, res')
  {
    var all := ss + rest;
    if ss == [] {
      assert all == rest;
    } else {
      assert all[0] == ss[0] && all[1..] == ss[1..] + rest;
      var next := Advanced(ss[0], res);
      if next.Going? { PartialIsWalk(ss[1..], rest, next.res); }
    }
  }

  lemma {:induction false} PartialSnoc(ss: seq<Step>, x: Step, res: Tri)
    ensures Partial(ss + [x], res) ==
            match Partial(ss, res)
            case Decided(d) => Decided(d)
            case Going(res') => Advanced(x, res')
  {
    var all := ss + [x];
    if ss == [] {
      assert all == [x];
    } else {
      assert all[0] == ss[0] && all[1..] == ss[1..] + [x];
      var next := Advanced(ss[0], res);
      if next.Going? { PartialSnoc(ss[1..], x, next.res); }
    }
  }

  /** The lookups so far, completed with misses. */
  function Completed(seen: seq<Option<u64>>): Lookups
    requires |seen| <= 32
  {
    seen + seq(32 - |seen|, _ => None)
  }

  /** The steps that a walk has taken. */
  function Taken(p: Prog, r: Raw, seen: seq<Option<u64>>): seq<Step>
    requires |seen| <= SlotsUsed(p)
  {
    KoSteps(p, r, Completed(seen))[..|seen|]
  }

  lemma TakenSnoc(p: Prog, r: Raw, seen: seq<Option<u64>>, v: Option<u64>)
    requires |seen| < SlotsUsed(p)
    ensures Taken(p, r, seen + [v]) == Taken(p, r, seen) + [KoStep(p.preds[|seen|], r, v)]
  {
    var k := |seen|;
    assert Completed(seen + [v])[k] == v;
    assert forall i | 0 <= i < k :: Completed(seen + [v])[i] == Completed(seen)[i];
  }

  /** A walk that decides after the lookups `seen` decides as `ko_filter_eval`
      does when its lookups find these. */
  lemma DecisionOfWalk(p: Prog, r: Raw, seen: seq<Option<u64>>, d: u16)
    requires |seen| <= SlotsUsed(p) && p.nfilters > 0
    requires match Partial(Taken(p, r, seen), True)
             case Decided(d') => d == d'
             case Going(_) => |seen| == SlotsUsed(p) && d == DROP
    ensures KoDecision(true, Some(p), r, Completed(seen)) == d
  {
    var steps := KoSteps(p, r, Completed(seen));
    assert steps == Taken(p, r, seen) + steps[|seen|..];
    PartialIsWalk(Taken(p, r, seen), steps[|seen|..], True);
  }

  // What userspace must have done with the events it read

  /** The reports of a sequence of events: one for each that `Evaluate` accepts, in
      order, decoded and carrying the index and name of the filter it picks. */
  function Reports(c: Settings, s: FilterSet, rs: seq<Raw>): seq<Report>
    requires |s.names| == |s.exprs| <= MAX_FILTERS
  {
    if rs == [] then []
    else
      var r := rs[|rs| - 1];
      EvaluateInRange(c.tx, s.exprs, EventOf(r, AttrsOf(c.source, r.cgroup)), 0);
      Reports(c, s, rs[..|rs| - 1]) +
      match Decide(c, s, r)
      case Some(i) => [Reported(s, r, i)]
      case None => []
  }

  /** The events that `Evaluate` rejects, in order. */
  function Rejects(c: Settings, s: FilterSet, rs: seq<Raw>): seq<Raw> {
    if rs == [] then []
    else Rejects(c, s, rs[..|rs| - 1]) + if Decide(c, s, rs[|rs| - 1]).None? then [rs[|rs| - 1]] else []
  }

  function ReportRaws(reps: seq<Report>): (rs: seq<Raw>)
    ensures |rs| == |reps| && forall i | 0 <= i < |reps| :: rs[i] == reps[i].raw
  {
    seq(|reps|, i requires 0 <= i < |reps| => reps[i].raw)
  }

  /** Reading one more event reports it if `Evaluate` accepts it, and otherwise rejects it. */
  lemma OneMoreRead(c: Settings, s: FilterSet, read: seq<Raw>, r: Raw)
    requires |s.names| == |s.exprs| <= MAX_FILTERS
    ensures Decide(c, s, r).Some? ==> Decide(c, s, r).value < |s.names|
    ensures Reports(c, s, read + [r]) ==
            Reports(c, s, read) + if Decide(c, s, r).Some? then [Reported(s, r, Decide(c, s, r).value)] else []
    ensures Rejects(c, s, read + [r]) == Rejects(c, s, read) + if Decide(c, s, r).None? then [r] else []
  {
    EvaluateInRange(c.tx, s.exprs, EventOf(r, AttrsOf(c.source, r.cgroup)), 0);
    assert (read + [r])[..|read|] == read;
  }

  /** A report is the decoded event with exactly the index that `Evaluate` picks. */
  ghost predicate ReportRight(c: Settings, s: FilterSet, rep: Report) {
    (rep.event.filterIdx as int) < |s.names| && |s.names| == |s.exprs| <= MAX_FILTERS &&
    Decide(c, s, rep.raw) == Some(rep.event.filterIdx as nat) &&
    rep.event == DecodeConnEvent(rep.raw, rep.event.filterIdx).(filterName := s.names[rep.event.filterIdx])
  }

  lemma {:induction false} ReportsAreRight(c: Settings, s: FilterSet, rs: seq<Raw>)
    requires |s.names| == |s.exprs| <= MAX_FILTERS
    ensures forall rep | rep in Reports(c, s, rs) :: ReportRight(c, s, rep)
    ensures forall r | r in Rejects(c, s, rs) :: Decide(c, s, r) == None
  {
    if rs != [] {
      var r, front := rs[|rs| - 1], rs[..|rs| - 1];
      ReportsAreRight(c, s, front);
      assert rs == front + [r];
      OneMoreRead(c, s, front, r);
    }
  }

  lemma ReportRawsMore(reports: seq<Report>, rep: Report)
    ensures multiset(ReportRaws(reports + [rep])) == multiset(ReportRaws(reports)) + multiset{rep.raw}
  {
    assert ReportRaws(reports + [rep]) == ReportRaws(reports) + [rep.raw];
  }

  /** Reports and rejects of one more event together take in that event. */
  lemma ShareMore(c: Settings, s: FilterSet, rs: seq<Raw>, r: Raw)
    requires |s.names| == |s.exprs| <= MAX_FILTERS
    ensures multiset(ReportRaws(Reports(c, s, rs + [r]))) + multiset(Rejects(c, s, rs + [r])) ==
            multiset(ReportRaws(Reports(c, s, rs))) + multiset(Rejects(c, s, rs)) + multiset{r}
  {
    OneMoreRead(c, s, rs, r);
    var reports, rejects := Reports(c, s, rs), Rejects(c, s, rs);
    if Decide(c, s, r).Some? {
      ReportRawsMore(reports, Reported(s, r, Decide(c, s, r).value));
      assert rejects + [] == rejects;
    } else {
      RawAdded(rejects, r);
      assert reports + [] == reports;
    }
  }

  lemma {:induction false} ReportsShare(c: Settings, s: FilterSet, rs: seq<Raw>)
    requires |s.names| == |s.exprs| <= MAX_FILTERS
    ensures multiset(ReportRaws(Reports(c, s, rs))) + multiset(Rejects(c, s, rs)) == multiset(rs)
  {
    if rs != [] {
      var r, front := rs[|rs| - 1], rs[..|rs| - 1];
      assert rs == front + [r];
      ReportsShare(c, s, front);
      RawAdded(front, r);
      ShareMore(c, s, front, r);
    }
  }

  /** Reports and rejects share out the events read: each report is right, each
      rejected event is one that `Evaluate` rejects, and together they are the
      events read, as often as they were read. */
  lemma ReportsMeaning(c: Settings, s: FilterSet, rs: seq<Raw>)
    requires |s.names| == |s.exprs| <= MAX_FILTERS
    ensures multiset(ReportRaws(Reports(c, s, rs))) + multiset(Rejects(c, s, rs)) == multiset(rs)
    ensures forall rep | rep in Reports(c, s, rs) :: ReportRight(c, s, rep)
    ensures forall r | r in Rejects(c, s, rs) :: Decide(c, s, r) == None
  {
    ReportsAreRight(c, s, rs);
    ReportsShare(c, s, rs);
  }

  // What is counted, whatever the kernel filter does

  /** How many of the events read have a property. */
  function CountIf(read: seq<Entry>, p: Entry -> bool): nat {
    if read == [] then 0 else CountIf(read[..|read| - 1], p) + if p(read[|read| - 1]) then 1 else 0
  }

  /** The kernel filter has picked a filter. */
  predicate KernelPicked(s: FilterSet, e: Entry) {
    (e.filterIdx as int) < |s.names|
  }

  function Picked(s: FilterSet): Entry -> bool {
    e => KernelPicked(s, e)
  }

  /** The kernel filter has picked another filter than `Evaluate`, or one where it picks none. */
  function Mismatched(c: Settings, s: FilterSet): Entry -> bool {
    e => KernelPicked(s, e) && Decide(c, s, e.raw) != Some(e.filterIdx as nat)
  }

  function MatchedLater(c: Settings, s: FilterSet): Entry -> bool {
    e => !KernelPicked(s, e) && Decide(c, s, e.raw).Some?
  }

  function UnmatchedLater(c: Settings, s: FilterSet): Entry -> bool {
    e => !KernelPicked(s, e) && Decide(c, s, e.raw).None?
  }

  /** Under which filter an event is reported: the kernel's pick, or else `Evaluate`'s. */
  function Answer(c: Settings, s: FilterSet, e: Entry): (i: Option<nat>)
    requires |s.names| == |s.exprs| <= MAX_FILTERS
    ensures i.Some? ==> i.value < |s.names|
  {
    EvaluateInRange(c.tx, s.exprs, EventOf(e.raw, AttrsOf(c.source, e.raw.cgroup)), 0);
    if KernelPicked(s, e) then Some(e.filterIdx as nat) else Decide(c, s, e.raw)
  }

  /** The reports of the events read, in order. */
  function Answers(c: Settings, s: FilterSet, read: seq<Entry>): seq<Report>
    requires |s.names| == |s.exprs| <= MAX_FILTERS
  {
    if read == [] then []
    else
      var e := read[|read| - 1];
      Answers(c, s, read[..|read| - 1]) +
      match Answer(c, s, e)
      case Some(i) => [Reported(s, e.raw, i)]
      case None => []
  }

  /** The counters say how the events read were decided: mismatches are the
      kernel's wrong picks if they are verified, and every event falls under one
      of the other three. */
  ghost predicate Tallied(c: Settings, u: UserState, read: seq<Entry>)
    requires SettingsOk(c)
  {
    match c.filters
    case None =>
      u.mismatches == u.passedBpf == u.passedUserspace == 0 && u.droppedUserspace == |read| && u.reported == []
    case Some(s) =>
      u.mismatches == (if c.verify then CountIf(read, Mismatched(c, s)) else 0) &&
      u.passedBpf == CountIf(read, Picked(s)) &&
      u.passedUserspace == CountIf(read, MatchedLater(c, s)) &&
      u.droppedUserspace == CountIf(read, UnmatchedLater(c, s)) &&
      u.reported == Answers(c, s, read)
  }

  lemma CountMore(read: seq<Entry>, e: Entry, p: Entry -> bool)
    ensures CountIf(read + [e], p) == CountIf(read, p) + if p(e) then 1 else 0
  {
    assert (read + [e])[..|read|] == read;
  }

  lemma AnswersMore(c: Settings, s: FilterSet, read: seq<Entry>, e: Entry)
    requires |s.names| == |s.exprs| <= MAX_FILTERS
    ensures Answers(c, s, read + [e]) ==
            Answers(c, s, read) + match Answer(c, s, e)
                                  case Some(i) => [Reported(s, e.raw, i)]
                                  case None => []
  {
    assert (read + [e])[..|read|] == read;
  }

  lemma RecordTallies(c: Settings, u: UserState, read: seq<Entry>, e: Entry, updateOk: bool)
    requires SettingsOk(c) && Tallied(c, u, read)
    ensures Tallied(c, OnRecord(c, u, Record(e.raw, e.filterIdx), updateOk), read + [e])
  {
    if c.filters.Some? {
      var s := c.filters.value;
      CountMore(read, e, Mismatched(c, s));
      CountMore(read, e, Picked(s));
      CountMore(read, e, MatchedLater(c, s));
      CountMore(read, e, UnmatchedLater(c, s));
      AnswersMore(c, s, read, e);
    }
  }

  lemma ApplyTallies(c: Settings, st: State, a: Action)
    requires SettingsOk(c) && Tallied(c, st.user, st.log.read)
    ensures Tallied(c, Apply(c, st, a).user, Apply(c, st, a).log.read)
  {
    if a.Read? && st.ring != [] {
      RecordTallies(c, st.user, st.log.read, st.ring[0], a.updateOk);
    } else {
      OnlyReadsCount(c, st, a);
    }
  }

  lemma OnlyReadsCount(c: Settings, st: State, a: Action)
    requires SettingsOk(c) && (a.Read? ==> st.ring == [])
    ensures Apply(c, st, a).log.read == st.log.read
    ensures Apply(c, st, a).user == st.user.(cache := Apply(c, st, a).user.cache)
  {
    match a
    case Advance(i, full) => if i < |st.walks| { AdvanceOnlyMoves(c, st, i, full); }
    case _ =>
  }

  lemma AdvanceOnlyMoves(c: Settings, st: State, i: nat, full: bool)
    requires i < |st.walks|
    ensures AdvanceWalk(c, st, i, full).user == st.user
    ensures AdvanceWalk(c, st, i, full).log.read == st.log.read
  {
  }

  /** The counters are right in every run, for all settings and filter sets, also
      for those on which the kernel filter is wrong. */
  lemma {:induction false} RunTallies(c: Settings, st: State, acts: seq<Action>)
    requires SettingsOk(c) && Tallied(c, st.user, st.log.read)
    ensures Tallied(c, Run(c, st, acts).user, Run(c, st, acts).log.read)
    decreases |acts|
  {
    if acts != [] {
      ApplyTallies(c, st, acts[0]);
      RunTallies(c, Apply(c, st, acts[0]), acts[1..]);
    }
  }

  /** From the start. */
  lemma CountersAreRight(c: Settings, acts: seq<Action>)
    requires SettingsOk(c)
    ensures Tallied(c, Run(c, INIT, acts).user, Run(c, INIT, acts).log.read)
  {
    RunTallies(c, INIT, acts);
  }

  /** Reading a record that userspace evaluates leaves the verdict of its cgroup in
      the cache, if the source knows the cgroup and the update succeeds, and
      changes no other entry; any other read leaves the cache alone. */
  lemma ReadCaches(c: Settings, st: State, decodes: bool, updateOk: bool)
    requires SettingsOk(c) && st.ring != []
    ensures var (e, cache') := (st.ring[0], Apply(c, st, Read(decodes, updateOk)).user.cache);
            if c.filters.Some? && decodes && updateOk && (c.verify || !KernelPicked(c.filters.value, e)) &&
               (c.source.NoSource? || c.source.attrs(e.raw.cgroup).Some?)
            then cache' == st.user.cache[
                   e.raw.cgroup := Mask(c.filters.value.atoms, AttrsOf(c.source, e.raw.cgroup))]
            else cache' == st.user.cache
  {
  }

  // The machine against the kernel function

  /** The end of an event in the kernel, for a decision: dropped, lost, or in the ring. */
  predicate Emits(st: State, st': State, r: Raw, d: u16, full: bool) {
    st'.log.dropped == st.log.dropped + (if d == DROP then [r] else []) &&
    st'.log.lost == st.log.lost + (if d != DROP && full then [r] else []) &&
    st'.ring == st.ring + (if d != DROP && !full then [Entry(r, d)] else [])
  }

  /** An event that needs no walk ends as `ko_filter_eval` decides: unfiltered while
      the filters are off, dropped if there are none. Any other starts a walk. */
  lemma StartIsKernel(c: Settings, st: State, r: Raw, full: bool, ls: Lookups)
    requires SettingsOk(c) && RawOk(r)
    ensures var (p, st') := (KernelProg(c, st), Apply(c, st, Submit(r, full)));
            st'.log.submitted == st.log.submitted + [r] && st'.user == st.user &&
            if st.enabled && p.nfilters > 0
            then st'.walks == st.walks + [KernelWalk(r, True, [])] && st'.ring == st.ring &&
                 st'.log.dropped == st.log.dropped && st'.log.lost == st.log.lost
            else st'.walks == st.walks && Emits(st, st', r, KoDecision(st.enabled, Some(p), r, ls), full) &&
                 KoDecision(st.enabled, Some(p), r, ls) == if st.enabled then DROP else UNFILTERED
    ensures KoDecision(st.enabled, None, r, ls) == UNFILTERED
  {
  }

  /** The loader: nothing runs before the program is loaded, and once it is loaded
      and enabled, every event meets the whole compiled program. */
  lemma LoaderMeaning(c: Settings, st: State)
    requires SettingsOk(c) && c.filters.Some?
    ensures !st.loaded ==> Apply(c, st, Enable) == st
    ensures var ready := Apply(c, Apply(c, st, Load), Enable);
            ready == st.(loaded := true, enabled := true) &&
            KernelProg(c, ready) == ProgOf(c.filters.value.names, c.filters.value.flat)
  {
  }

  /** Without filters the kernel drops every event once it is enabled. */
  lemma NoFilters(c: Settings, st: State, r: Raw, full: bool)
    requires SettingsOk(c) && c.filters.None? && RawOk(r)
    ensures var st' := Apply(c, Apply(c, st, Enable), Submit(r, full));
            st'.log.dropped == st.log.dropped + [r] && st'.ring == st.ring && st'.walks == st.walks
  {
  }

  /** An eviction or a stale deletion takes away one verdict and nothing else; a
      sync write adds the snapshot's verdict of one cgroup. */
  lemma CacheActions(c: Settings, st: State, cg: u64)
    requires SettingsOk(c)
    ensures Apply(c, st, Evict(cg)) == WithCache(st, st.user.cache - {cg})
    ensures c.source.Source? && cg !in c.source.snapshot ==>
              Apply(c, st, SyncDelete(cg)) == WithCache(st, st.user.cache - {cg})
    ensures c.source.Source? && cg in c.source.snapshot && c.filters.Some? ==>
              Apply(c, st, SyncPut(cg)) ==
              WithCache(st, st.user.cache[cg := Mask(c.filters.value.atoms, c.source.snapshot[cg])])
  {
  }

  /** A walk goes on by one lookup of its cgroup, or ends as `ko_filter_eval`
      decides on the lookups that it met. */
  lemma AdvanceIsKernel(c: Settings, st: State, i: nat, full: bool)
    requires SettingsOk(c) && i < |st.walks|
    requires var (p, w) := (KernelProg(c, st), st.walks[i]);
             p.nfilters > 0 && |w.seen| <= SlotsUsed(p) && Partial(Taken(p, w.raw, w.seen), True) == Going(w.res)
    ensures var (p, w, st') := (KernelProg(c, st), st.walks[i], Apply(c, st, Advance(i, full)));
            var found := if w.raw.cgroup in st.user.cache then Some(st.user.cache[w.raw.cgroup]) else None;
            var seen := if |w.seen| < SlotsUsed(p) then w.seen + [found] else w.seen;
            var standing := Partial(Taken(p, w.raw, seen), True);
            st'.user == st.user && st'.log.submitted == st.log.submitted &&
            if standing.Going? && |w.seen| < SlotsUsed(p)
            then st'.walks == st.walks[i := KernelWalk(w.raw, standing.res, seen)] && st'.ring == st.ring &&
                 st'.log.dropped == st.log.dropped && st'.log.lost == st.log.lost
            else st'.walks == Without(st.walks, i) &&
                 Emits(st, st', w.raw, KoDecision(true, Some(p), w.raw, Completed(seen)), full)
  {
    var p, w := KernelProg(c, st), st.walks[i];
    if |w.seen| >= SlotsUsed(p) {
      DecisionOfWalk(p, w.raw, w.seen, DROP);
    } else {
      var found := Find(st.user.cache, w.raw.cgroup);
      var step := KoStep(p.preds[|w.seen|], w.raw, found);
      TakenSnoc(p, w.raw, w.seen, found);
      PartialSnoc(Taken(p, w.raw, w.seen), step, True);
      var next := Advanced(step, w.res);
      if next.Decided? { DecisionOfWalk(p, w.raw, w.seen + [found], next.d); }
    }
  }

  // Correctness of whole runs

  /** Compiled filters under the conditions of `KernelOk`, or no filters, and a
      source whose snapshot is a part of what it answers. */
  ghost predicate SetupOk(c: Settings, cfg: seq<Config>) {
    SourceOk(c.source) && (c.filters.Some? ==> KernelOk(c.tx, cfg, c.filters.value))
  }

  /** What the machine needs of the kernel filter: whenever its lookups find
      nothing or the true verdict, it answers as `Evaluate` or is undecided. */
  ghost predicate KernelSound(c: Settings) {
    SourceOk(c.source) &&
    (c.filters.Some? ==>
      var s := c.filters.value;
      s.names != [] && |s.names| == |s.exprs| <= MAX_FILTERS &&
      forall r: Raw, ls: Lookups | RawOk(r) && LookupsOf(ls, Mask(s.atoms, AttrsOf(c.source, r.cgroup))) ::
        Agrees(c.tx, s, EventOf(r, AttrsOf(c.source, r.cgroup)), KoDecision(true, Some(FullProg(s)), r, ls)))
  }

  lemma SetupIsSound(c: Settings, cfg: seq<Config>)
    requires SetupOk(c, cfg)
    ensures KernelSound(c) && SettingsOk(c)
  {
    if c.filters.Some? {
      var s := c.filters.value;
      forall r: Raw, ls: Lookups | RawOk(r) && LookupsOf(ls, Mask(s.atoms, AttrsOf(c.source, r.cgroup)))
        ensures Agrees(c.tx, s, EventOf(r, AttrsOf(c.source, r.cgroup)), KoDecision(true, Some(FullProg(s)), r, ls))
      {
        KernelCorrect(c.tx, cfg, s, r, AttrsOf(c.source, r.cgroup), ls);
      }
    }
  }

  /** A lookup found nothing or the true verdict of the cgroup. */
  predicate SeenOk(c: Settings, s: FilterSet, cgroup: u64, seen: seq<Option<u64>>) {
    forall i | 0 <= i < |seen| && seen[i].Some? :: seen[i].value == Mask(s.atoms, AttrsOf(c.source, cgroup))
  }

  /** The loaded program. */
  function FullProg(s: FilterSet): Prog {
    ProgOf(s.names, s.flat)
  }

  predicate WalkOk(c: Settings, s: FilterSet, w: KernelWalk) {
    RawOk(w.raw) && s.names != [] && |w.seen| <= SlotsUsed(FullProg(s)) &&
    SeenOk(c, s, w.raw.cgroup, w.seen) &&
    Partial(Taken(FullProg(s), w.raw, w.seen), True) == Going(w.res)
  }

  predicate WalksOk(c: Settings, walks: seq<KernelWalk>) {
    forall i | 0 <= i < |walks| :: c.filters.Some? && WalkOk(c, c.filters.value, walks[i])
  }

  /** A waiting record carries `Evaluate`'s answer or leaves it to userspace. */
  predicate EntryRight(c: Settings, e: Entry) {
    RawOk(e.raw) && e.filterIdx != DROP &&
    (c.filters.Some? && (e.filterIdx as int) < |c.filters.value.names| ==>
      Decide(c, c.filters.value, e.raw) == Some(e.filterIdx as nat))
  }

  predicate RingOk(c: Settings, ring: seq<Entry>) {
    forall i | 0 <= i < |ring| :: EntryRight(c, ring[i])
  }

  /** Userspace has reported exactly what `Evaluate` accepts of the events it read,
      in order, rejected and counted the others, and seen no mismatch. */
  ghost predicate UserFaithful(c: Settings, u: UserState, read: seq<Raw>)
    requires SettingsOk(c)
  {
    u.mismatches == 0 &&
    match c.filters
    case Some(s) =>
      u.reported == Reports(c, s, read) && u.rejected == Rejects(c, s, read) && u.droppedUserspace == |u.rejected|
    case None => u.reported == [] && u.rejected == [] && u.droppedUserspace == |read|
  }

  /** The kernel filter has dropped only events that `Evaluate` rejects. */
  predicate DropsRight(c: Settings, dropped: seq<Raw>) {
    c.filters.Some? ==> forall i | 0 <= i < |dropped| :: Decide(c, c.filters.value, dropped[i]) == None
  }

  ghost predicate Faithful(c: Settings, st: State)
    requires SettingsOk(c)
  {
    UserFaithful(c, st.user, EntryRaws(st.log.read)) && DropsRight(c, st.log.dropped)
  }

  ghost predicate CacheOk(c: Settings, cache: Cache) {
    c.filters.Some? ==> Coherent(c.filters.value, c.source, cache)
  }

  /** The program is loaded before the filters run. */
  predicate LoadedFirst(c: Settings, st: State) {
    (c.filters.Some? && st.enabled ==> st.loaded) && (st.walks != [] ==> st.loaded)
  }

  ghost predicate Inv(c: Settings, st: State)
    requires SettingsOk(c)
  {
    Faithful(c, st) && CacheOk(c, st.user.cache) && LoadedFirst(c, st) &&
    WalksOk(c, st.walks) && RingOk(c, st.ring)
  }

  /** The end of a walk submits `Evaluate`'s answer, defers to userspace, or
      drops an event that `Evaluate` rejects. */
  lemma FinishOk(c: Settings, s: FilterSet, r: Raw, seen: seq<Option<u64>>, d: u16)
    requires KernelSound(c) && c.filters == Some(s) && RawOk(r) && s.names != []
    requires |seen| <= SlotsUsed(FullProg(s)) && SeenOk(c, s, r.cgroup, seen)
    requires KoDecision(true, Some(FullProg(s)), r, Completed(seen)) == d
    ensures EmitOk(c, r, d)
  {
    assert LookupsOf(Completed(seen), Mask(s.atoms, AttrsOf(c.source, r.cgroup)));
  }

  /** An event may be dropped if `Evaluate` rejects it, and submitted with its answer. */
  predicate EmitOk(c: Settings, r: Raw, d: u16) {
    if d == DROP then c.filters.Some? ==> Decide(c, c.filters.value, r) == None else EntryRight(c, Entry(r, d))
  }

  lemma EmitKeeps(c: Settings, st: State, r: Raw, d: u16, full: bool)
    requires SettingsOk(c) && Inv(c, st) && EmitOk(c, r, d)
    ensures Inv(c, Emit(st, r, d, full))
  {
  }

  lemma GoingOk(c: Settings, s: FilterSet, w: KernelWalk, found: Option<u64>, step: Step)
    requires WalkOk(c, s, w) && |w.seen| < SlotsUsed(FullProg(s))
    requires found.Some? ==> found.value == Mask(s.atoms, AttrsOf(c.source, w.raw.cgroup))
    requires step == KoStep(FullProg(s).preds[|w.seen|], w.raw, found)
    ensures SeenOk(c, s, w.raw.cgroup, w.seen + [found])
    ensures Partial(Taken(FullProg(s), w.raw, w.seen + [found]), True) == Advanced(step, w.res)
  {
    TakenSnoc(FullProg(s), w.raw, w.seen, found);
    PartialSnoc(Taken(FullProg(s), w.raw, w.seen), step, True);
  }

  /** A walk that has run out of slots. */
  lemma WalkEnds(c: Settings, st: State, i: nat, full: bool)
    requires SettingsOk(c) && KernelSound(c) && Inv(c, st) && i < |st.walks| && c.filters.Some?
    requires WalkOk(c, c.filters.value, st.walks[i]) && |st.walks[i].seen| == SlotsUsed(FullProg(c.filters.value))
    ensures Inv(c, Emit(st.(walks := Without(st.walks, i)), st.walks[i].raw, DROP, full))
  {
    var w, s := st.walks[i], c.filters.value;
    DecisionOfWalk(FullProg(s), w.raw, w.seen, DROP);
    FinishOk(c, s, w.raw, w.seen, DROP);
    EmitKeeps(c, st.(walks := Without(st.walks, i)), w.raw, DROP, full);
  }

  /** A walk that decides at its current slot. */
  lemma WalkDecides(c: Settings, st: State, i: nat, full: bool, found: Option<u64>, d: u16)
    requires SettingsOk(c) && KernelSound(c) && Inv(c, st) && i < |st.walks| && c.filters.Some?
    requires WalkOk(c, c.filters.value, st.walks[i]) && |st.walks[i].seen| < SlotsUsed(FullProg(c.filters.value))
    requires SeenOk(c, c.filters.value, st.walks[i].raw.cgroup, st.walks[i].seen + [found])
    requires Partial(Taken(FullProg(c.filters.value), st.walks[i].raw, st.walks[i].seen + [found]), True) == Decided(d)
    ensures Inv(c, Emit(st.(walks := Without(st.walks, i)), st.walks[i].raw, d, full))
  {
    var w, s := st.walks[i], c.filters.value;
    DecisionOfWalk(FullProg(s), w.raw, w.seen + [found], d);
    FinishOk(c, s, w.raw, w.seen + [found], d);
    EmitKeeps(c, st.(walks := Without(st.walks, i)), w.raw, d, full);
  }

  lemma AdvanceKeeps(c: Settings, st: State, i: nat, full: bool)
    requires SettingsOk(c) && KernelSound(c) && Inv(c, st) && i < |st.walks|
    ensures Inv(c, AdvanceWalk(c, st, i, full))
  {
    var w, s := st.walks[i], c.filters.value;
    var p := FullProg(s);
    assert KernelProg(c, st) == p && WalkOk(c, s, w);
    if |w.seen| >= SlotsUsed(p) {
      WalkEnds(c, st, i, full);
    } else {
      var found := Find(st.user.cache, w.raw.cgroup);
      var step := KoStep(p.preds[|w.seen|], w.raw, found);
      GoingOk(c, s, w, found, step);
      match Advanced(step, w.res)
      case Decided(d) => WalkDecides(c, st, i, full, found, d);
      case Going(res) => assert WalkOk(c, s, KernelWalk(w.raw, res, w.seen + [found]));
    }
  }

  lemma RecordKeeps(c: Settings, u: UserState, read: seq<Raw>, e: Entry, updateOk: bool)
    requires SettingsOk(c) && UserFaithful(c, u, read) && EntryRight(c, e)
    ensures UserFaithful(c, OnRecord(c, u, Record(e.raw, e.filterIdx), updateOk), read + [e.raw])
  {
    if c.filters.Some? { OneMoreRead(c, c.filters.value, read, e.raw); }
  }

  lemma ReadKeepsCache(c: Settings, u: UserState, rec: Record, updateOk: bool)
    requires SettingsOk(c) && CacheOk(c, u.cache)
    ensures CacheOk(c, OnRecord(c, u, rec, updateOk).cache)
  {
    if rec.Record? && c.filters.Some? {
      assert Coherent(c.filters.value, c.source, Refreshed(c, c.filters.value, rec.raw, u.cache, updateOk));
    }
  }

  lemma ReadKeeps(c: Settings, st: State, decodes: bool, updateOk: bool)
    requires SettingsOk(c) && Inv(c, st) && st.ring != []
    ensures Inv(c, ReadFirst(c, st, decodes, updateOk))
  {
    var e := st.ring[0];
    assert EntryRight(c, e);
    RecordKeeps(c, st.user, EntryRaws(st.log.read), e, updateOk);
    assert EntryRaws(st.log.read + [e]) == EntryRaws(st.log.read) + [e.raw];
    ReadKeepsCache(c, st.user, if decodes then Record(e.raw, e.filterIdx) else Broken, updateOk);
  }

  lemma StartKeeps(c: Settings, st: State, r: Raw, full: bool)
    requires SettingsOk(c) && KernelSound(c) && Inv(c, st) && RawOk(r)
    ensures Inv(c, Start(c, st, r, full))
  {
    var st1 := st.(log := st.log.(submitted := st.log.submitted + [r]));
    assert Inv(c, st1);
    if !st.enabled {
      EmitKeeps(c, st1, r, UNFILTERED, full);
    } else if c.filters.None? {
      EmitKeeps(c, st1, r, DROP, full);
    } else {
      assert Taken(FullProg(c.filters.value), r, []) == [];
      assert WalkOk(c, c.filters.value, KernelWalk(r, True, []));
    }
  }

  lemma CacheKeeps(c: Settings, st: State, cache: Cache)
    requires SettingsOk(c) && Inv(c, st) && CacheOk(c, cache)
    ensures Inv(c, WithCache(st, cache))
  {
  }

  lemma ApplyKeeps(c: Settings, st: State, a: Action)
    requires SettingsOk(c) && KernelSound(c) && Inv(c, st)
    ensures Inv(c, Apply(c, st, a))
  {
    match a
    case Load =>
    case Enable =>
    case SyncPut(cg) =>
      if c.filters.Some? && c.source.Source? && cg in c.source.snapshot {
        CacheKeeps(c, st, st.user.cache[cg := Mask(c.filters.value.atoms, c.source.snapshot[cg])]);
      }
    case SyncDelete(cg) => CacheKeeps(c, st, st.user.cache - {cg});
    case Evict(cg) => CacheKeeps(c, st, st.user.cache - {cg});
    case Submit(r, full) => if RawOk(r) { StartKeeps(c, st, r, full); }
    case Advance(i, full) => if i < |st.walks| { AdvanceKeeps(c, st, i, full); }
    case Read(decodes, updateOk) => if st.ring != [] { ReadKeeps(c, st, decodes, updateOk); }
  }

  lemma {:induction false} RunKeeps(c: Settings, st: State, acts: seq<Action>)
    requires SettingsOk(c) && KernelSound(c) && Inv(c, st)
    ensures Inv(c, Run(c, st, acts))
    decreases |acts|
  {
    if acts != [] {
      ApplyKeeps(c, st, acts[0]);
      RunKeeps(c, Apply(c, st, acts[0]), acts[1..]);
    }
  }

  /** End-to-end refinement: in every run from the start, whatever interleaving
      of walks, reads, cache writes and evictions, the events read are reported
      with exactly the index that `Evaluate` picks or rejected exactly when it
      picks none, the kernel filter drops only events that it rejects, no
      mismatch is ever counted, and every submitted event is accounted for. */
  lemma EndToEnd(c: Settings, cfg: seq<Config>, acts: seq<Action>)
    requires SetupOk(c, cfg)
    ensures SettingsOk(c) && Faithful(c, Run(c, INIT, acts)) && Conserved(Run(c, INIT, acts))
  {
    SetupIsSound(c, cfg);
    assert Inv(c, INIT) && Conserved(INIT);
    RunKeeps(c, INIT, acts);
    RunConserves(c, INIT, acts);
  }

  /** What `EndToEnd` says of the events read: whatever happens in a run, each of
      them is reported, decoded and under exactly the filter that `Evaluate` picks,
      or is rejected by `Evaluate` and counted as dropped; none is lost or doubled. */
  lemma ReadsAnswered(c: Settings, cfg: seq<Config>, acts: seq<Action>)
    requires SetupOk(c, cfg) && c.filters.Some?
    ensures SettingsOk(c)
    ensures var (s, st) := (c.filters.value, Run(c, INIT, acts));
            multiset(ReportRaws(st.user.reported)) + multiset(st.user.rejected) == multiset(EntryRaws(st.log.read)) &&
            (forall rep | rep in st.user.reported :: ReportRight(c, s, rep)) &&
            (forall r | r in st.user.rejected :: Decide(c, s, r) == None) &&
            st.user.droppedUserspace == |st.user.rejected| && st.user.mismatches == 0
  {
    EndToEnd(c, cfg, acts);
    ReportsMeaning(c, c.filters.value, EntryRaws(Run(c, INIT, acts).log.read));
  }

  // `syncOnce` as actions

  lemma {:induction false} RunConcat(c: Settings, st: State, a: seq<Action>, b: seq<Action>)
    requires SettingsOk(c)
    ensures Run(c, st, a + b) == Run(c, Run(c, st, a), b)
    decreases |a|
  {
    if a == [] {
      assert a + b == b;
    } else {
      assert (a + b)[1..] == a[1..] + b;
      RunConcat(c, Apply(c, st, a[0]), a[1..], b);
    }
  }

  /** One more cache write or deletion at the end of a run. */
  lemma RunThenCache(c: Settings, st: State, acts: seq<Action>, a: Action, cache: Cache, cache': Cache)
    requires SettingsOk(c) && Run(c, st, acts) == WithCache(st, cache)
    requires Apply(c, WithCache(st, cache), a) == WithCache(st, cache')
    ensures Run(c, st, acts + [a]) == WithCache(st, cache')
  {
    RunConcat(c, st, acts, [a]);
    assert Run(c, WithCache(st, cache'), []) == WithCache(st, cache');
  }

  lemma WrittenMore(s: FilterSet, snapshot: map<u64, CgroupAttrs>, cache: Cache, done: set<u64>, id: u64)
    requires done <= snapshot.Keys && id in done
    ensures Written(s, snapshot, cache, done) ==
            Written(s, snapshot, cache, done - {id})[id := Mask(s.atoms, snapshot[id])]
  {
  }

  /** Whatever part of the snapshot a sync writes, single writes in some order do the same. */
  lemma {:induction false} PutsWrite(c: Settings, st: State, done: set<u64>) returns (acts: seq<Action>)
    requires SettingsOk(c) && c.filters.Some? && c.source.Source? && done <= c.source.snapshot.Keys
    ensures Run(c, st, acts) == WithCache(st, Written(c.filters.value, c.source.snapshot, st.user.cache, done))
    decreases done
  {
    var s, snapshot := c.filters.value, c.source.snapshot;
    acts := [];
    if done == {} {
      assert Written(s, snapshot, st.user.cache, done) == st.user.cache;
    } else {
      var id :| id in done;
      acts := PutsWrite(c, st, done - {id});
      WrittenMore(s, snapshot, st.user.cache, done, id);
      RunThenCache(c, st, acts, SyncPut(id), Written(s, snapshot, st.user.cache, done - {id}),
                   Written(s, snapshot, st.user.cache, done));
      acts := acts + [SyncPut(id)];
    }
  }

  /** Deleting the stale entries is a run of single deletions. */
  lemma {:induction false} DeletesClear(c: Settings, st: State, gone: set<u64>) returns (acts: seq<Action>)
    requires SettingsOk(c) && c.source.Source? && gone !! c.source.snapshot.Keys
    ensures Run(c, st, acts) == WithCache(st, st.user.cache - gone)
    decreases gone
  {
    acts := [];
    if gone == {} {
      assert st.user.cache - gone == st.user.cache;
    } else {
      var id :| id in gone;
      acts := DeletesClear(c, st, gone - {id});
      var cache := st.user.cache - (gone - {id});
      assert cache - {id} == st.user.cache - gone;
      RunThenCache(c, st, acts, SyncDelete(id), cache, cache - {id});
      acts := acts + [SyncDelete(id)];
    }
  }

  /** Every outcome of `syncOnce` is reached by cache actions of the machine, so
      `EndToEnd` covers it, with evictions and walks at any point inside it. */
  lemma SyncIsRun(c: Settings, st: State, done: set<u64>) returns (acts: seq<Action>)
    requires SettingsOk(c) && c.filters.Some? && c.source.Source? && done <= c.source.snapshot.Keys
    ensures var s, snapshot := c.filters.value, c.source.snapshot;
            Run(c, st, acts) == WithCache(st,
              if done == snapshot.Keys then map cg | cg in snapshot :: Mask(s.atoms, snapshot[cg])
              else Written(s, snapshot, st.user.cache, done))
  {
    var s, snapshot := c.filters.value, c.source.snapshot;
    acts := PutsWrite(c, st, done);
    if done == snapshot.Keys {
      var full := Written(s, snapshot, st.user.cache, done);
      var dels := DeletesClear(c, WithCache(st, full), full.Keys - snapshot.Keys);
      RunConcat(c, st, acts, dels);
      assert full - (full.Keys - snapshot.Keys) == map cg | cg in snapshot :: Mask(s.atoms, snapshot[cg]);
      acts := acts + dels;
    }
  }
}
