/** Hooks and event path together: the hooks' inputs in any interleaving with
    kernel walks, ring buffer reads, cache writes and evictions. */
module TracerSystem {
  import opened Bits
  import opened Addresses
  import opened Events
  import opened Cel
  import opened Filters
  import opened Tracer
  import opened SocketTracker
  import Pipeline

  /** The inputs that the hooks have seen, and the event path. */
  datatype System = System(inputs: seq<Input>, path: Pipeline.State)

  /** One hook invocation, with what a full ring buffer would do to its event, or
      an action of the event path. Events come from the hooks only. */
  datatype Move = Hook(input: Input, full: bool) | Do(action: Pipeline.Action)

  function Next(c: Settings, sys: System, m: Move): System
    requires Pipeline.SettingsOk(c)
  {
    match m
    case Hook(i, full) =>
      var event := HookStep(After(sys.inputs, |sys.inputs|), i).event;
      System(sys.inputs + [i],
             if event.Some? then Pipeline.Apply(c, sys.path, Pipeline.Submit(event.value, full)) else sys.path)
    case Do(a) => if a.Submit? then sys else sys.(path := Pipeline.Apply(c, sys.path, a))
  }

  function Moves(c: Settings, sys: System, ms: seq<Move>): System
    requires Pipeline.SettingsOk(c)
    decreases |ms|
  {
    if ms == [] then sys else Moves(c, Next(c, sys, ms[0]), ms[1..])
  }

  const BOOT := System([], Pipeline.INIT)

  // Hook runs that grow

  lemma {:induction false} AfterGrows(tr: seq<Input>, i: Input, n: nat)
    requires n <= |tr|
    ensures After(tr + [i], n) == After(tr, n)
  {
    if n > 0 { AfterGrows(tr, i, n - 1); }
  }

  /** The events of the first `n` inputs, in order. */
  function AllSubmitted(tr: seq<Input>, n: nat): seq<Raw>
    requires n <= |tr|
  {
    if n == 0 then []
    else AllSubmitted(tr, n - 1) + if Submitted(tr, n - 1).Some? then [Submitted(tr, n - 1).value] else []
  }

  lemma {:induction false} SubmittedGrow(tr: seq<Input>, i: Input, n: nat)
    requires n <= |tr|
    ensures AllSubmitted(tr + [i], n) == AllSubmitted(tr, n)
  {
    if n > 0 {
      AfterGrows(tr, i, n - 1);
      SubmittedGrow(tr, i, n - 1);
    }
  }

  lemma {:induction false} SubmittedBy(tr: seq<Input>, n: nat, r: Raw) returns (i: nat)
    requires n <= |tr| && r in AllSubmitted(tr, n)
    ensures i < n && Submitted(tr, i) == Some(r)
  {
    i := n - 1;
    if Submitted(tr, n - 1) != Some(r) { i := SubmittedBy(tr, n - 1, r); }
  }

  // The two sides together

  /** The event path has been given exactly the events of the hooks, in order. */
  predicate Joined(sys: System) {
    sys.path.log.submitted == AllSubmitted(sys.inputs, |sys.inputs|)
  }

  /** No action but a submission adds to the submitted events. */
  lemma SubmittedStays(c: Settings, st: Pipeline.State, a: Pipeline.Action)
    requires Pipeline.SettingsOk(c)
    ensures Pipeline.Apply(c, st, a).log.submitted ==
            st.log.submitted + if a.Submit? && RawOk(a.raw) then [a.raw] else []
  {
  }

  lemma NextJoins(c: Settings, sys: System, m: Move)
    requires Pipeline.SettingsOk(c) && Joined(sys)
    ensures Joined(Next(c, sys, m))
  {
    match m
    case Hook(i, full) =>
      var tr, n := sys.inputs, |sys.inputs|;
      var event := HookStep(After(tr, n), i).event;
      AfterGrows(tr, i, n);
      SubmittedGrow(tr, i, n);
      assert Submitted(tr + [i], n) == event;
      if event.Some? {
        SubmittedOk(After(tr, n), i);
        SubmittedStays(c, sys.path, Pipeline.Submit(event.value, full));
      }
    case Do(a) => SubmittedStays(c, sys.path, a);
  }

  /** A move is a run of the event path. */
  function Actions(sys: System, m: Move): seq<Pipeline.Action> {
    match m
    case Hook(i, full) =>
      var event := HookStep(After(sys.inputs, |sys.inputs|), i).event;
      if event.Some? then [Pipeline.Submit(event.value, full)] else []
    case Do(a) => if a.Submit? then [] else [a]
  }

  lemma NextIsRun(c: Settings, sys: System, m: Move)
    requires Pipeline.SettingsOk(c)
    ensures Next(c, sys, m).path == Pipeline.Run(c, sys.path, Actions(sys, m))
  {
    var acts := Actions(sys, m);
    if acts != [] {
      assert acts[1..] == [];
      assert Pipeline.Run(c, Pipeline.Apply(c, sys.path, acts[0]), []) == Pipeline.Apply(c, sys.path, acts[0]);
    }
  }

  /** Every run of the system is a run of the event path that submits the hooks' events. */
  lemma {:induction false} MovesAreRun(c: Settings, sys: System, ms: seq<Move>) returns (acts: seq<Pipeline.Action>)
    requires Pipeline.SettingsOk(c) && Joined(sys)
    ensures Joined(Moves(c, sys, ms)) && Moves(c, sys, ms).path == Pipeline.Run(c, sys.path, acts)
    decreases |ms|
  {
    acts := [];
    if ms != [] {
      var next := Next(c, sys, ms[0]);
      NextJoins(c, sys, ms[0]);
      NextIsRun(c, sys, ms[0]);
      var rest := MovesAreRun(c, next, ms[1..]);
      acts := Actions(sys, ms[0]) + rest;
      Pipeline.RunConcat(c, sys.path, Actions(sys, ms[0]), rest);
    }
  }

  // What users see

  /** The event shows what the input read: its kind, the endpoints on the side
      they were read, and the figures of the socket. */
  predicate Shows(e: ConnEvent, i: Input) {
    !i.Destroy? && !i.Evict? && i.ends.Some? &&
    var (ends, sock) := (i.ends.value, i.sock);
    e.typ == Kind(i) && e.timestampNs == sock.now && e.family == ends.family &&
    e.localIp == DecodeIp(ends.family, ends.localIp) && e.localPort == ends.localPort &&
    e.remoteIp == DecodeIp(ends.family, ends.remoteIp) && e.remotePort == ends.remotePort &&
    e.rttUs as int == sock.srttUs / 8 && e.retransmits == sock.retransmits && e.segsOut == sock.segsOut &&
    e.errno == sock.error && e.sndCwnd == sock.sndCwnd && e.sndSsthresh == sock.sndSsthresh &&
    e.sndWnd == sock.sndWnd && e.rcvWnd == sock.rcvWnd
  }

  /** The report belongs to the connection that input `j` opened, as input `i`
      saw it: process, age and cgroup are those of the connect start, everything
      else is what input `i` read. */
  predicate Attributed(tr: seq<Input>, rep: Report, i: nat, j: nat) {
    i < |tr| && Submitted(tr, i) == Some(rep.raw) && OpenSince(tr, i, tr[i].sk, j) && Shows(rep.event, tr[i]) &&
    var start := tr[j];
    rep.event.pid == start.task.pid && rep.event.comm == CString(start.task.comm) &&
    rep.event.lifeUs == Elapsed(rep.event.timestampNs, start.sock.now) / 1000 &&
    rep.event.cgroupId == if tr[i].sock.cgroup != 0 then tr[i].sock.cgroup else start.task.cgroup
  }

  lemma ReportAttributed(c: Settings, s: FilterSet, tr: seq<Input>, rep: Report) returns (i: nat, j: nat)
    requires rep.raw in AllSubmitted(tr, |tr|) && Pipeline.ReportRight(c, s, rep)
    ensures Attributed(tr, rep, i, j)
  {
    i := SubmittedBy(tr, |tr|, rep.raw);
    j := Attribution(tr, i);
    SubmitsExact(tr, i);
    DecodedEvent(rep.raw, rep.event.filterIdx);
  }

  /** Where the events of the hooks are: in a walk, dropped by the kernel filter,
      lost to a full ring buffer, waiting, reported, rejected, or broken. */
  function Fates(st: Pipeline.State): multiset<Raw> {
    multiset(Pipeline.WalkRaws(st.walks)) + multiset(st.log.dropped) + multiset(st.log.lost) +
    multiset(Pipeline.EntryRaws(st.ring)) +
    (multiset(Pipeline.ReportRaws(st.user.reported)) + multiset(st.user.rejected)) + multiset(st.log.broken)
  }

  lemma RunAnswers(c: Settings, cfg: seq<Config>, acts: seq<Pipeline.Action>)
    requires Pipeline.SetupOk(c, cfg) && c.filters.Some?
    ensures Pipeline.SettingsOk(c)
    ensures var (s, st) := (c.filters.value, Pipeline.Run(c, Pipeline.INIT, acts));
            multiset(st.log.submitted) == Fates(st) &&
            (forall rep | rep in st.user.reported :: Pipeline.ReportRight(c, s, rep)) &&
            forall r | r in st.log.dropped || r in st.user.rejected :: Decide(c, s, r) == None
  {
    Pipeline.EndToEnd(c, cfg, acts);
    Pipeline.ReadsAnswered(c, cfg, acts);
  }

  lemma ReportedWereSubmitted(st: Pipeline.State, rep: Report)
    requires multiset(st.log.submitted) == Fates(st) && rep in st.user.reported
    ensures rep.raw in st.log.submitted
  {
    var k :| 0 <= k < |st.user.reported| && st.user.reported[k] == rep;
    assert Pipeline.ReportRaws(st.user.reported)[k] == rep.raw;
    assert rep.raw in multiset(st.log.submitted);
  }

  /** The whole system: in every run of hooks, walks, reads, cache writes and
      evictions, each reported event belongs to the connection open on its
      socket, with the process and age of its latest connect start, under exactly
      the filter that `Evaluate` picks on its cgroup's attributes; and each event
      that a hook submits is, once, under way, lost, broken, reported, or
      rejected by `Evaluate`. */
  lemma HooksToReports(c: Settings, cfg: seq<Config>, ms: seq<Move>)
    requires Pipeline.SetupOk(c, cfg) && c.filters.Some?
    ensures Pipeline.SettingsOk(c)
    ensures var (s, sys) := (c.filters.value, Moves(c, BOOT, ms));
            (forall rep | rep in sys.path.user.reported ::
              Pipeline.ReportRight(c, s, rep) && exists i: nat, j: nat :: Attributed(sys.inputs, rep, i, j)) &&
            (forall r | r in sys.path.log.dropped || r in sys.path.user.rejected :: Decide(c, s, r) == None) &&
            multiset(AllSubmitted(sys.inputs, |sys.inputs|)) == Fates(sys.path)
  {
    Pipeline.SetupIsSound(c, cfg);
    var s, sys := c.filters.value, Moves(c, BOOT, ms);
    var acts := MovesAreRun(c, BOOT, ms);
    RunAnswers(c, cfg, acts);
    forall rep | rep in sys.path.user.reported
      ensures exists i: nat, j: nat :: Attributed(sys.inputs, rep, i, j)
    {
      ReportedWereSubmitted(sys.path, rep);
      var i, j := ReportAttributed(c, s, sys.inputs, rep);
    }
  }
}
