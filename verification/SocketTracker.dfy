/** The kernel hooks that track outgoing connections: a state machine over the
    context map, its hooks as methods, and what holds over every run of them. */
module SocketTracker {
  import opened Bits
  import opened Addresses
  import opened Events

  const TCP_ESTABLISHED: int := 1
  const TCP_SYN_SENT: int := 2
  const TCP_SYN_RECV: int := 3
  const IPPROTO_TCP: u16 := 6
  const PROBE_INTERVAL: int := 100_000_000

  /** `conn_ctx_t`: what was captured when the connection started. */
  datatype Ctx = Ctx(cgroup: u64, start: u64, pid: u32, comm: seq<u8>, lastProbe: u64)

  type Contexts = map<u64, Ctx>

  /** What `sock_read_endpoints` reads; only IP families are readable. */
  datatype Ends = Ends(family: Family, localPort: u16, remotePort: u16, localIp: Bytes16, remoteIp: Bytes16)

  type Family = f: u16 | f == AF_INET || f == AF_INET6 witness AF_INET

  /** The current task of a hook. */
  datatype Task = Task(cgroup: u64, pid: u32, comm: seq<u8>)

  /** What `submit_conn_evt` reads from the socket, and the time it reads. */
  datatype Sock = Sock(cgroup: u64, error: u32, srttUs: u32, retransmits: u32, segsOut: u32,
                       sndCwnd: u32, sndSsthresh: u32, sndWnd: u32, rcvWnd: u32, now: u64)

  /** One hook invocation, or an eviction of the LRU map. The state hook reads
      the clock once, as the start or as the event time; the probe hook reads it
      at its gate and again when it submits. */
  datatype Input =
    | SockState(sk: u64, protocol: u16, oldState: int, newState: int, ends: Option<Ends>, task: Task, sock: Sock)
    | Retransmit(sk: u64, ends: Option<Ends>, sock: Sock)
    | Probe(sk: u64, gate: u64, ends: Option<Ends>, sock: Sock)
    | Destroy(sk: u64)
    | Evict(sk: u64)

  /** Subtraction of clock readings in 64 bits. */
  function Elapsed(now: u64, since: u64): u64 {
    (now - since) % TWO64
  }

  /** The record that `submit_conn_evt` builds. */
  function EventFor(c: Ctx, typ: EventType, e: Ends, s: Sock): Raw {
    Raw(s.now, c.pid, c.comm, e.family, e.localPort, e.remotePort, typ, e.localIp, e.remoteIp,
        if s.cgroup != 0 then s.cgroup else c.cgroup, Elapsed(s.now, c.start) / 1000,
        s.srttUs / 8, s.retransmits, s.segsOut, s.error, s.sndCwnd, s.sndSsthresh, s.sndWnd, s.rcvWnd)
  }

  datatype Effect = Effect(ctxs: Contexts, event: Option<Raw>)

  /** A connect start: the only input that inserts a context. */
  predicate IsStart(i: Input) {
    i.SockState? && i.protocol == IPPROTO_TCP && i.ends.Some? &&
    i.newState == TCP_SYN_SENT && i.oldState != TCP_SYN_SENT
  }

  function StartCtx(i: Input): Ctx
    requires IsStart(i)
  {
    Ctx(i.task.cgroup, i.sock.now, i.task.pid, i.task.comm, 0)
  }

  /** The probe hook's rate gate. */
  predicate GatePasses(c: Ctx, gate: u64) {
    Elapsed(gate, c.lastProbe) >= PROBE_INTERVAL
  }

  /** A state change of a tracked socket that ends its connection, and how. */
  function Ending(i: Input): Option<EventType>
    requires i.SockState?
  {
    if i.protocol != IPPROTO_TCP || i.ends.None? || IsStart(i) then None
    else if i.oldState == TCP_ESTABLISHED then Some(CONN_CLOSED)
    else if i.oldState == TCP_SYN_SENT && i.newState != TCP_ESTABLISHED then Some(CONN_FAILED)
    else None
  }

  /** What one input does to the contexts, and the event that it submits. */
  function HookStep(m: Contexts, i: Input): Effect {
    match i
    case SockState(sk, protocol, oldState, newState, ends, task, sock) =>
      if protocol == IPPROTO_TCP && ends.Some? && newState == TCP_SYN_SENT && oldState != TCP_SYN_SENT
      then Effect(m[sk := Ctx(task.cgroup, sock.now, task.pid, task.comm, 0)], None)
      else if sk in m && Ending(i).Some?
      then Effect(m - {sk}, Some(EventFor(m[sk], Ending(i).value, ends.value, sock)))
      else Effect(m, None)
    case Retransmit(sk, ends, sock) =>
      Effect(m, if sk in m && ends.Some? then Some(EventFor(m[sk], RETRANSMIT, ends.value, sock)) else None)
    case Probe(sk, gate, ends, sock) =>
      if sk in m && GatePasses(m[sk], gate) then
        Effect(m[sk := m[sk].(lastProbe := gate)],
               if ends.Some? then Some(EventFor(m[sk], PROBE, ends.value, sock)) else None)
      else Effect(m, None)
    case Destroy(sk) => Effect(m - {sk}, None)
    case Evict(sk) => Effect(m - {sk}, None)
  }

  class SockTracker {
    var ctxs: Contexts
    var submitted: seq<Raw>

    constructor ()
      ensures ctxs == map[] && submitted == []
    {
      ctxs, submitted := map[], [];
    }

    /** `submit_conn_evt`, up to the filter. */
    method Submit(c: Ctx, typ: EventType, e: Ends, s: Sock)
      modifies this`submitted
      ensures submitted == old(submitted) + [EventFor(c, typ, e, s)]
    {
      var cgroup := s.cgroup;
      if cgroup == 0 {
        cgroup := c.cgroup;
      }
      var lifeUs := Elapsed(s.now, c.start) / 1000;
      var rttUs := s.srttUs / 8;
      submitted := submitted + [Raw(s.now, c.pid, c.comm, e.family, e.localPort, e.remotePort, typ,
                                    e.localIp, e.remoteIp, cgroup, lifeUs, rttUs, s.retransmits, s.segsOut,
                                    s.error, s.sndCwnd, s.sndSsthresh, s.sndWnd, s.rcvWnd)];
    }

    /** The state is what `HookStep` makes of the old one. */
    twostate predicate Did(i: Input)
      reads this
    {
      var f := HookStep(old(ctxs), i);
      ctxs == f.ctxs && submitted == old(submitted) + if f.event.Some? then [f.event.value] else []
    }

    /** `ko_sock_state`. */
    method KoSockState(i: Input)
      requires i.SockState?
      modifies this
      ensures Did(i)
    {
      if i.protocol != IPPROTO_TCP {
        return;
      }
      if i.ends.None? {
        return;
      }
      if i.newState == TCP_SYN_SENT && i.oldState != TCP_SYN_SENT {
        ctxs := ctxs[i.sk := Ctx(i.task.cgroup, i.sock.now, i.task.pid, i.task.comm, 0)];
        return;
      }
      if i.sk !in ctxs {
        return;
      }
      var c := ctxs[i.sk];
      if i.oldState == TCP_ESTABLISHED {
        ctxs := ctxs - {i.sk};
        Submit(c, CONN_CLOSED, i.ends.value, i.sock);
        return;
      }
      if i.oldState != TCP_SYN_SENT {
        return;
      }
      if i.newState == TCP_ESTABLISHED {
        return;
      }
      ctxs := ctxs - {i.sk};
      Submit(c, CONN_FAILED, i.ends.value, i.sock);
    }

    /** `ko_retransmit`. */
    method KoRetransmit(i: Input)
      requires i.Retransmit?
      modifies this
      ensures Did(i)
    {
      if i.sk !in ctxs {
        return;
      }
      var c := ctxs[i.sk];
      if i.ends.None? {
        return;
      }
      Submit(c, RETRANSMIT, i.ends.value, i.sock);
    }

    /** `ko_probe`: the gate is passed before the endpoints are read. */
    method KoProbe(i: Input)
      requires i.Probe?
      modifies this
      ensures Did(i)
    {
      if i.sk !in ctxs {
        return;
      }
      if Elapsed(i.gate, ctxs[i.sk].lastProbe) < PROBE_INTERVAL {
        return;
      }
      ctxs := ctxs[i.sk := ctxs[i.sk].(lastProbe := i.gate)];
      var c := ctxs[i.sk];
      if i.ends.None? {
        return;
      }
      Submit(c, PROBE, i.ends.value, i.sock);
    }

    /** `ko_destroy_sock`, and an eviction, delete the context. */
    method KoDestroySock(i: Input)
      requires i.Destroy? || i.Evict?
      modifies this
      ensures Did(i)
    {
      ctxs := ctxs - {i.sk};
    }
  }

  /** Every submitted record is one that the filters' guarantees cover: in
      particular its lifetime is below 2^63 even if the subtraction wraps. */
  lemma SubmittedOk(m: Contexts, i: Input)
    requires HookStep(m, i).event.Some?
    ensures RawOk(HookStep(m, i).event.value)
  {
  }

  // Runs

  /** The contexts after the first `n` inputs of a run. */
  function After(tr: seq<Input>, n: nat): Contexts
    requires n <= |tr|
  {
    if n == 0 then map[] else HookStep(After(tr, n - 1), tr[n - 1]).ctxs
  }

  /** The event that input `i` of a run submits. */
  function Submitted(tr: seq<Input>, i: nat): Option<Raw>
    requires i < |tr|
  {
    HookStep(After(tr, i), tr[i]).event
  }

  predicate StartAt(tr: seq<Input>, i: nat, sk: u64)
    requires i < |tr|
  {
    IsStart(tr[i]) && tr[i].sk == sk
  }

  predicate TerminalAt(tr: seq<Input>, i: nat, sk: u64)
    requires i < |tr|
  {
    var e := Submitted(tr, i);
    tr[i].sk == sk && e.Some? && (e.value.typ == CONN_FAILED || e.value.typ == CONN_CLOSED)
  }

  /** An input that ends the connection on its socket, if one is open: the socket
      is destroyed, its entry is evicted, or a readable TCP change leaves
      ESTABLISHED, or SYN_SENT for a state other than ESTABLISHED. A change to
      SYN_SENT from another state starts a connection. */
  predicate EndsConnection(i: Input) {
    match i
    case SockState(_, protocol, oldState, newState, ends, _, _) =>
      protocol == IPPROTO_TCP && ends.Some? &&
      ((oldState == TCP_ESTABLISHED && newState != TCP_SYN_SENT) ||
       (oldState == TCP_SYN_SENT && newState != TCP_ESTABLISHED))
    case Destroy(_) => true
    case Evict(_) => true
    case _ => false
  }

  predicate EndAt(tr: seq<Input>, i: nat, sk: u64)
    requires i < |tr|
  {
    tr[i].sk == sk && EndsConnection(tr[i])
  }

  /** `j` is the latest connect start on `sk` before step `n`, with no end since. */
  predicate OpenSince(tr: seq<Input>, n: nat, sk: u64, j: nat)
    requires n <= |tr|
  {
    j < n && StartAt(tr, j, sk) && forall i | j < i < n :: !StartAt(tr, i, sk) && !EndAt(tr, i, sk)
  }

  /** The latest connect start before step `n` if the connection is still open. */
  function Opened(tr: seq<Input>, n: nat, sk: u64): Option<nat>
    requires n <= |tr|
  {
    if n == 0 then None
    else if StartAt(tr, n - 1, sk) then Some(n - 1)
    else if EndAt(tr, n - 1, sk) then None
    else Opened(tr, n - 1, sk)
  }

  lemma {:induction false} OpenedMeaning(tr: seq<Input>, n: nat, sk: u64)
    requires n <= |tr|
    ensures Opened(tr, n, sk).Some? ==> OpenSince(tr, n, sk, Opened(tr, n, sk).value)
    ensures Opened(tr, n, sk).None? ==> forall j: nat :: !OpenSince(tr, n, sk, j)
  {
    if n > 0 && !StartAt(tr, n - 1, sk) && !EndAt(tr, n - 1, sk) {
      OpenedMeaning(tr, n - 1, sk);
      forall j: nat | OpenSince(tr, n, sk, j) ensures OpenSince(tr, n - 1, sk, j) {
      }
    }
  }

  /** What a context keeps of its connect start. */
  predicate From(c: Ctx, i: Input)
    requires IsStart(i)
  {
    c == StartCtx(i).(lastProbe := c.lastProbe)
  }

  /** One step keeps a context, inserts it at a connect start, or removes it at an end. */
  lemma StepTracks(tr: seq<Input>, n: nat, sk: u64)
    requires n < |tr|
    ensures sk in After(tr, n + 1) <==> StartAt(tr, n, sk) || (sk in After(tr, n) && !EndAt(tr, n, sk))
    ensures sk in After(tr, n + 1) && !StartAt(tr, n, sk) ==>
              After(tr, n + 1)[sk] == After(tr, n)[sk].(lastProbe := After(tr, n + 1)[sk].lastProbe)
  {
  }

  /** The context map holds exactly the open connections, each with the process
      and time of its latest connect start. */
  lemma {:induction false} Tracked(tr: seq<Input>, n: nat, sk: u64)
    requires n <= |tr|
    ensures sk in After(tr, n) <==> Opened(tr, n, sk).Some?
    ensures sk in After(tr, n) ==>
              Opened(tr, n, sk).value < n && StartAt(tr, Opened(tr, n, sk).value, sk) &&
              From(After(tr, n)[sk], tr[Opened(tr, n, sk).value])
  {
    if n > 0 {
      Tracked(tr, n - 1, sk);
      StepTracks(tr, n - 1, sk);
    }
  }

  /** Attribution: every event belongs to the latest connect start on its
      address, with no end in between, and carries the pid and comm captured
      there and the time since, in microseconds. */
  lemma Attribution(tr: seq<Input>, i: nat) returns (j: nat)
    requires i < |tr| && Submitted(tr, i).Some?
    ensures OpenSince(tr, i, tr[i].sk, j)
    ensures var r := Submitted(tr, i).value;
            r.pid == tr[j].task.pid && r.comm == tr[j].task.comm &&
            r.lifeUs == Elapsed(r.ts, tr[j].sock.now) / 1000
    ensures Submitted(tr, i).value.cgroup == if tr[i].sock.cgroup != 0 then tr[i].sock.cgroup else tr[j].task.cgroup
  {
    Tracked(tr, i, tr[i].sk);
    OpenedMeaning(tr, i, tr[i].sk);
    j := Opened(tr, i, tr[i].sk).value;
  }

  /** A connect start and, after the record's lifetime, the hook that submits it. */
  function RunFor(r: Raw): seq<Input>
    requires RawOk(r)
  {
    var ends := Some(Ends(r.family, r.localPort, r.remotePort, r.localIp, r.remoteIp));
    var sock := Sock(r.cgroup, r.error, 8 * r.rttUs, r.retransmits, r.segsOut,
                     r.sndCwnd, r.sndSsthresh, r.sndWnd, r.rcvWnd, r.ts);
    var started := sock.(now := Elapsed(r.ts, 1000 * r.lifeUs));
    var task := Task(r.cgroup, r.pid, r.comm);
    [SockState(0, IPPROTO_TCP, 0, TCP_SYN_SENT, ends, task, started),
     if r.typ == CONN_FAILED then SockState(0, IPPROTO_TCP, TCP_SYN_SENT, 0, ends, task, sock)
     else if r.typ == CONN_CLOSED then SockState(0, IPPROTO_TCP, TCP_ESTABLISHED, 0, ends, task, sock)
     else if r.typ == RETRANSMIT then Retransmit(0, ends, sock)
     else Probe(0, PROBE_INTERVAL, ends, sock)]
  }

  /** The records that the filters' guarantees cover are the ones that runs submit. */
  lemma SubmittedExact(r: Raw)
    ensures RawOk(r) <==> exists tr: seq<Input>, i: nat :: i < |tr| && Submitted(tr, i) == Some(r)
  {
    if RawOk(r) {
      RunSubmits(r);
      assert Submitted(RunFor(r), 1) == Some(r);
    } else {
      forall tr: seq<Input>, i: nat | i < |tr| ensures Submitted(tr, i) != Some(r) {
        if Submitted(tr, i).Some? { SubmittedOk(After(tr, i), tr[i]); }
      }
    }
  }

  lemma RunSubmits(r: Raw)
    requires RawOk(r)
    ensures Submitted(RunFor(r), 1) == Some(r)
  {
    var tr := RunFor(r);
    assert After(tr, 1) == map[0 := StartCtx(tr[0])];
    ElapsedBack(r.ts, 1000 * r.lifeUs);
  }

  lemma ElapsedBack(now: u64, d: u64)
    ensures Elapsed(now, Elapsed(now, d)) == d
  {
  }

  /** Safety: between two connect starts at most one terminal event is submitted. */
  lemma OneTerminal(tr: seq<Input>, i: nat, i': nat, sk: u64) returns (j: nat)
    requires i < i' < |tr| && TerminalAt(tr, i, sk) && TerminalAt(tr, i', sk)
    ensures i < j < i' && StartAt(tr, j, sk)
  {
    SubmitsExact(tr, i);
    j := SilentAfterEnd(tr, i, i', sk);
  }

  /** Safety: after an input that ends the connection no event of any
      type is submitted for the address until its next connect start. */
  lemma SilentAfterEnd(tr: seq<Input>, i: nat, i': nat, sk: u64) returns (j: nat)
    requires i < i' < |tr| && EndAt(tr, i, sk) && tr[i'].sk == sk && Submitted(tr, i').Some?
    ensures i < j < i' && StartAt(tr, j, sk)
  {
    j := Attribution(tr, i');
    if j == i {
      assert false;
    }
  }

  // What is submitted

  /** The gate time of the last probe that passed since the latest connect start,
      or 0: on an open connection, a probe passes at least 100 ms after that time. */
  function LastGate(tr: seq<Input>, n: nat, sk: u64): u64
    requires n <= |tr|
  {
    if n == 0 || StartAt(tr, n - 1, sk) then 0
    else
      var last := LastGate(tr, n - 1, sk);
      if tr[n - 1].Probe? && tr[n - 1].sk == sk && Opened(tr, n - 1, sk).Some? &&
         Elapsed(tr[n - 1].gate, last) >= PROBE_INTERVAL
      then tr[n - 1].gate
      else last
  }

  /** The context of an open connection remembers that time. */
  lemma {:induction false} LastGateTracked(tr: seq<Input>, n: nat, sk: u64)
    requires n <= |tr| && sk in After(tr, n)
    ensures After(tr, n)[sk].lastProbe == LastGate(tr, n, sk)
  {
    if !StartAt(tr, n - 1, sk) {
      StepTracks(tr, n - 1, sk);
      Tracked(tr, n - 1, sk);
      LastGateTracked(tr, n - 1, sk);
    }
  }

  /** Input `i` asks for an event: its connection is open, and it ends it, or is a
      readable retransmission, or a readable probe that passes the gate. */
  predicate AsksForEvent(tr: seq<Input>, i: nat)
    requires i < |tr|
  {
    Opened(tr, i, tr[i].sk).Some? &&
    match tr[i]
    case SockState(_, _, _, _, _, _, _) => EndsConnection(tr[i])
    case Retransmit(_, ends, _) => ends.Some?
    case Probe(sk, gate, ends, _) => ends.Some? && Elapsed(gate, LastGate(tr, i, sk)) >= PROBE_INTERVAL
    case _ => false
  }

  /** What an event of an input is about. */
  function Kind(i: Input): EventType {
    match i
    case SockState(_, _, oldState, _, _, _, _) => if oldState == TCP_ESTABLISHED then CONN_CLOSED else CONN_FAILED
    case Retransmit(_, _, _) => RETRANSMIT
    case _ => PROBE
  }

  /** Completeness, for every hook: an event is submitted exactly when the input
      asks for it, and with its type. */
  lemma SubmitsExact(tr: seq<Input>, i: nat)
    requires i < |tr|
    ensures Submitted(tr, i).Some? <==> AsksForEvent(tr, i)
    ensures Submitted(tr, i).Some? ==> Submitted(tr, i).value.typ == Kind(tr[i])
  {
    var sk := tr[i].sk;
    Tracked(tr, i, sk);
    if tr[i].Probe? && sk in After(tr, i) { LastGateTracked(tr, i, sk); }
  }

  /** On an open connection, a state change submits a terminal event iff it ends it. */
  lemma TerminalSubmitted(tr: seq<Input>, i: nat)
    requires i < |tr| && tr[i].SockState? && Opened(tr, i, tr[i].sk).Some?
    ensures EndsConnection(tr[i]) <==> TerminalAt(tr, i, tr[i].sk)
    ensures EndsConnection(tr[i]) ==> Submitted(tr, i).value.typ == Kind(tr[i])
  {
    SubmitsExact(tr, i);
  }

  // What the terminal events are documented to mean

  /** A connection attempt is under way, in SYN_RECV after a simultaneous open
      (section 3.5 of RFC 9293). */
  predicate Attempting(state: int) {
    state == TCP_SYN_SENT || state == TCP_SYN_RECV
  }

  /** The documented meaning: a connection closes when it leaves ESTABLISHED for
      another state, and an attempt fails when it ends otherwise than established. */
  function IntendedEnding(i: Input): Option<EventType>
    requires i.SockState?
  {
    if i.protocol != IPPROTO_TCP || i.ends.None? || IsStart(i) || i.newState == TCP_ESTABLISHED then None
    else if i.oldState == TCP_ESTABLISHED then Some(CONN_CLOSED)
    else if Attempting(i.oldState) && !Attempting(i.newState) then Some(CONN_FAILED)
    else None
  }

  function IntendedStep(m: Contexts, i: Input): Effect {
    if i.SockState? && !IsStart(i) then
      if i.sk in m && IntendedEnding(i).Some?
      then Effect(m - {i.sk}, Some(EventFor(m[i.sk], IntendedEnding(i).value, i.ends.value, i.sock)))
      else Effect(m, None)
    else HookStep(m, i)
  }

  function IntendedAfter(tr: seq<Input>, n: nat): Contexts
    requires n <= |tr|
  {
    if n == 0 then map[] else IntendedStep(IntendedAfter(tr, n - 1), tr[n - 1]).ctxs
  }

  function IntendedSubmitted(tr: seq<Input>, i: nat): Option<Raw>
    requires i < |tr|
  {
    IntendedStep(IntendedAfter(tr, i), tr[i]).event
  }

  /** Nothing has ended: a change from SYN_SENT or ESTABLISHED to itself, such as
      a SYN retry, or a simultaneous open. */
  predicate NothingEnded(was: int, next: int) {
    (was == next && (was == TCP_SYN_SENT || was == TCP_ESTABLISHED)) || (was == TCP_SYN_SENT && next == TCP_SYN_RECV)
  }

  /** An attempt fails from SYN_RECV. */
  predicate FailsLate(was: int, next: int) {
    was == TCP_SYN_RECV && !Attempting(next) && next != TCP_ESTABLISHED
  }

  /** A readable TCP state change that the hook, which looks at the old state
      first, takes for an end that it is not, or the other way round. */
  predicate Misread(i: Input) {
    i.SockState? && i.protocol == IPPROTO_TCP && i.ends.Some? &&
    (NothingEnded(i.oldState, i.newState) || FailsLate(i.oldState, i.newState))
  }

  /** One step differs from the intended one iff a misread change hits a tracked socket. */
  lemma StepExact(m: Contexts, i: Input)
    ensures HookStep(m, i) != IntendedStep(m, i) <==> Misread(i) && i.sk in m
  {
    if i.SockState? && i.sk in m { assert i.sk !in (m - {i.sk}); }
  }

  /** Up to step `n` no misread change hits an open connection. */
  predicate NoMisread(tr: seq<Input>, n: nat)
    requires n <= |tr|
  {
    forall i | 0 <= i < n :: Misread(tr[i]) ==> Opened(tr, i, tr[i].sk).None?
  }

  /** Up to step `n` the tracker keeps the intended contexts and submits the intended events. */
  predicate AsIntended(tr: seq<Input>, n: nat)
    requires n <= |tr|
  {
    (forall i | 0 <= i <= n :: After(tr, i) == IntendedAfter(tr, i)) &&
    forall i | 0 <= i < n :: Submitted(tr, i) == IntendedSubmitted(tr, i)
  }

  /** The exact boundary: a run goes as intended iff no misread change hits an open connection. */
  lemma {:induction false} IntendedExact(tr: seq<Input>, n: nat)
    requires n <= |tr|
    ensures AsIntended(tr, n) <==> NoMisread(tr, n)
  {
    if n > 0 {
      IntendedExact(tr, n - 1);
      StepExact(After(tr, n - 1), tr[n - 1]);
      Tracked(tr, n - 1, tr[n - 1].sk);
      if AsIntended(tr, n) {
        assert AsIntended(tr, n - 1);
        assert After(tr, n - 1) == IntendedAfter(tr, n - 1) && After(tr, n) == IntendedAfter(tr, n);
        assert Submitted(tr, n - 1) == IntendedSubmitted(tr, n - 1);
      }
    }
  }

  /** What a hit costs. If nothing has ended: a terminal event for a live
      connection or attempt, where none is intended, and silence about it until its
      address connects again. If an attempt fails late: no event, where one is intended. */
  lemma MisreadLoses(tr: seq<Input>, i: nat)
    requires i < |tr| && Misread(tr[i]) && Opened(tr, i, tr[i].sk).Some?
    ensures FailsLate(tr[i].oldState, tr[i].newState) ==>
              Submitted(tr, i).None? && IntendedStep(After(tr, i), tr[i]).event.Some? &&
              IntendedStep(After(tr, i), tr[i]).event.value.typ == CONN_FAILED
    ensures NothingEnded(tr[i].oldState, tr[i].newState) ==>
              TerminalAt(tr, i, tr[i].sk) && IntendedSubmitted(tr, i).None? &&
              Submitted(tr, i).value.typ == (if tr[i].oldState == TCP_SYN_SENT then CONN_FAILED else CONN_CLOSED) &&
              forall i' | i < i' < |tr| && tr[i'].sk == tr[i].sk && Submitted(tr, i').Some? ::
                exists j :: i < j < i' && StartAt(tr, j, tr[i].sk)
  {
    TerminalSubmitted(tr, i);
    Tracked(tr, i, tr[i].sk);
    forall i' | NothingEnded(tr[i].oldState, tr[i].newState) &&
                i < i' < |tr| && tr[i'].sk == tr[i].sk && Submitted(tr, i').Some?
      ensures exists j :: i < j < i' && StartAt(tr, j, tr[i].sk)
    {
      var j := SilentAfterEnd(tr, i, i', tr[i].sk);
    }
  }

  // Time

  /** The first and last clock reading of an input, if it reads the clock. */
  predicate Timed(i: Input) {
    !i.Destroy? && !i.Evict?
  }

  function FirstTime(i: Input): u64
    requires Timed(i)
  {
    if i.Probe? then i.gate else i.sock.now
  }

  function LastTime(i: Input): u64
    requires Timed(i)
  {
    i.sock.now
  }

  /** The clock never goes back, within an input or from one to a later one. */
  ghost predicate Monotone(tr: seq<Input>) {
    (forall i | 0 <= i < |tr| && Timed(tr[i]) :: FirstTime(tr[i]) <= LastTime(tr[i])) &&
    (forall i, j | 0 <= i < j < |tr| && Timed(tr[i]) && Timed(tr[j]) :: LastTime(tr[i]) <= FirstTime(tr[j]))
  }

  lemma ClockOrder(tr: seq<Input>, i: nat, j: nat)
    requires Monotone(tr) && i < j < |tr| && Timed(tr[i]) && Timed(tr[j])
    ensures FirstTime(tr[i]) <= LastTime(tr[i]) <= FirstTime(tr[j]) <= LastTime(tr[j])
  {
  }

  /** Two events of one connection have the same connect start. */
  lemma SameStart(tr: seq<Input>, i: nat, i': nat, sk: u64) returns (j: nat)
    requires i < i' < |tr| && tr[i].sk == sk == tr[i'].sk
    requires Submitted(tr, i).Some? && Submitted(tr, i').Some?
    requires forall k | i < k < i' :: !StartAt(tr, k, sk)
    ensures j < i && StartAt(tr, j, sk)
    ensures Submitted(tr, i).value.lifeUs == Elapsed(Submitted(tr, i).value.ts, tr[j].sock.now) / 1000
    ensures Submitted(tr, i').value.lifeUs == Elapsed(Submitted(tr, i').value.ts, tr[j].sock.now) / 1000
  {
    j := Attribution(tr, i);
    var j' := Attribution(tr, i');
    if j' == i {
      assert false;
    } else if j' < j {
      assert false;
    } else if j < j' {
      assert false;
    }
  }

  /** Under a monotone clock the lifetime does not decrease from one event of a
      connection to a later one. */
  lemma LifetimeGrows(tr: seq<Input>, i: nat, i': nat, sk: u64)
    requires Monotone(tr) && i < i' < |tr| && tr[i].sk == sk == tr[i'].sk
    requires Submitted(tr, i).Some? && Submitted(tr, i').Some?
    requires forall k | i < k < i' :: !StartAt(tr, k, sk)
    ensures Submitted(tr, i).value.lifeUs <= Submitted(tr, i').value.lifeUs
  {
    var j := SameStart(tr, i, i', sk);
    ClockOrder(tr, j, i);
    ClockOrder(tr, i, i');
    Longer(Submitted(tr, i).value.ts, Submitted(tr, i').value.ts, tr[j].sock.now);
  }

  lemma Longer(t: u64, t': u64, start: u64)
    requires start <= t <= t'
    ensures Elapsed(t, start) / 1000 <= Elapsed(t', start) / 1000
  {
  }

  // Probe rate

  /** Input `i` passes the probe gate of a tracked socket. */
  predicate PassAt(tr: seq<Input>, i: nat, sk: u64)
    requires i < |tr|
  {
    tr[i].Probe? && tr[i].sk == sk && sk in After(tr, i) && GatePasses(After(tr, i)[sk], tr[i].gate)
  }

  /** Gate passes from step `p` up to step `n`. */
  function Passes(tr: seq<Input>, p: nat, n: nat, sk: u64): nat
    requires p <= n <= |tr|
    decreases n - p
  {
    if n == p then 0 else Passes(tr, p, n - 1, sk) + if PassAt(tr, n - 1, sk) then 1 else 0
  }

  predicate NoStart(tr: seq<Input>, p: nat, n: nat, sk: u64)
    requires n <= |tr|
  {
    forall i | p < i < n :: !StartAt(tr, i, sk)
  }

  /** A gate pass comes at least one interval after the last one. */
  lemma NextPass(tr: seq<Input>, k: nat, n: nat, sk: u64)
    requires Monotone(tr) && k < n < |tr| && PassAt(tr, k, sk) && PassAt(tr, n, sk)
    requires After(tr, n)[sk].lastProbe == tr[k].gate
    ensures tr[n].gate - tr[k].gate >= PROBE_INTERVAL
    ensures sk in After(tr, n + 1) && After(tr, n + 1)[sk].lastProbe == tr[n].gate
  {
    ClockOrder(tr, k, n);
  }

  /** A step that is neither a gate pass nor a connect start leaves the last gate
      time of a connection that stays tracked. */
  lemma NoPass(tr: seq<Input>, n: nat, sk: u64)
    requires n < |tr| && !PassAt(tr, n, sk) && !StartAt(tr, n, sk) && sk in After(tr, n + 1)
    ensures sk in After(tr, n) && After(tr, n + 1)[sk].lastProbe == After(tr, n)[sk].lastProbe
  {
    StepTracks(tr, n, sk);
  }

  /** While the connection stays tracked, its last gate pass is far enough
      after the first one to have room for all passes in between. */
  lemma {:induction false} PassesSpaced(tr: seq<Input>, p: nat, n: nat, sk: u64) returns (k: nat)
    requires Monotone(tr) && p < n <= |tr| && PassAt(tr, p, sk) && NoStart(tr, p, n, sk) && sk in After(tr, n)
    ensures p <= k < n && PassAt(tr, k, sk) && After(tr, n)[sk].lastProbe == tr[k].gate
    ensures (Passes(tr, p, n, sk) - 1) * PROBE_INTERVAL <= tr[k].gate - tr[p].gate
    decreases n
  {
    if n == p + 1 {
      k := p;
    } else {
      assert !StartAt(tr, n - 1, sk);
      if !PassAt(tr, n - 1, sk) { NoPass(tr, n - 1, sk); }
      k := PassesSpaced(tr, p, n - 1, sk);
      if PassAt(tr, n - 1, sk) {
        NextPass(tr, k, n - 1, sk);
        k := n - 1;
      }
    }
  }

  /** Probe rate bound: within one tracked lifetime, the gate passes from one pass
      up to another, both included, number at most one more than the 100 ms
      intervals between the two. */
  lemma ProbeRate(tr: seq<Input>, p: nat, q: nat, sk: u64)
    requires Monotone(tr) && p < q < |tr| && PassAt(tr, p, sk) && PassAt(tr, q, sk) && NoStart(tr, p, q, sk)
    ensures Passes(tr, p, q + 1, sk) <= 1 + (tr[q].gate - tr[p].gate) / PROBE_INTERVAL
    ensures tr[q].gate - tr[p].gate >= PROBE_INTERVAL
  {
    var k := PassesSpaced(tr, p, q, sk);
    NextPass(tr, k, q, sk);
    PassesPositive(tr, p, q, sk);
    DivBound(Passes(tr, p, q, sk), tr[q].gate - tr[p].gate);
  }

  lemma {:induction false} PassesPositive(tr: seq<Input>, p: nat, n: nat, sk: u64)
    requires p < n <= |tr| && PassAt(tr, p, sk)
    ensures Passes(tr, p, n, sk) >= 1
    decreases n
  {
    if n > p + 1 { PassesPositive(tr, p, n - 1, sk); }
  }

  lemma DivBound(a: int, d: int)
    requires a * PROBE_INTERVAL <= d
    ensures a <= d / PROBE_INTERVAL
  {
  }

  /** Every probe event is a gate pass. */
  lemma ProbeEventIsPass(tr: seq<Input>, i: nat)
    requires i < |tr| && Submitted(tr, i).Some?
    ensures Submitted(tr, i).value.typ == PROBE <==> PassAt(tr, i, tr[i].sk)
  {
  }

  /** Probe events on `sk` from step `a` up to step `b`. */
  function ProbeEvents(tr: seq<Input>, a: nat, b: nat, sk: u64): nat
    requires a <= b <= |tr|
    decreases b - a
  {
    if b == a then 0
    else ProbeEvents(tr, a, b - 1, sk) +
         if tr[b - 1].sk == sk && Submitted(tr, b - 1).Some? && Submitted(tr, b - 1).value.typ == PROBE then 1 else 0
  }

  lemma {:induction false} EventsArePasses(tr: seq<Input>, a: nat, b: nat, sk: u64)
    requires a <= b <= |tr|
    ensures ProbeEvents(tr, a, b, sk) <= Passes(tr, a, b, sk)
    decreases b - a
  {
    if a < b {
      EventsArePasses(tr, a, b - 1, sk);
      if Submitted(tr, b - 1).Some? { ProbeEventIsPass(tr, b - 1); }
    }
  }

  lemma {:induction false} PassesFrom(tr: seq<Input>, a: nat, b: nat, sk: u64)
    requires a < b <= |tr|
    ensures Passes(tr, a, b, sk) == Passes(tr, a + 1, b, sk) + if PassAt(tr, a, sk) then 1 else 0
    decreases b - a
  {
    if a + 1 < b { PassesFrom(tr, a, b - 1, sk); }
  }

  lemma {:induction false} FirstPass(tr: seq<Input>, a: nat, b: nat, sk: u64) returns (p: nat)
    requires a <= b <= |tr| && Passes(tr, a, b, sk) > 0
    ensures a <= p < b && PassAt(tr, p, sk) && Passes(tr, p, b, sk) == Passes(tr, a, b, sk)
    decreases b - a
  {
    p := a;
    if !PassAt(tr, a, sk) {
      PassesFrom(tr, a, b, sk);
      p := FirstPass(tr, a + 1, b, sk);
    }
  }

  lemma {:induction false} LastPass(tr: seq<Input>, a: nat, b: nat, sk: u64) returns (q: nat)
    requires a <= b <= |tr| && Passes(tr, a, b, sk) > 0
    ensures a <= q < b && PassAt(tr, q, sk) && Passes(tr, a, q + 1, sk) == Passes(tr, a, b, sk)
    decreases b - a
  {
    q := b - 1;
    if !PassAt(tr, b - 1, sk) { q := LastPass(tr, a, b - 1, sk); }
  }

  /** In any window of `d` nanoseconds of gate times within one tracked lifetime,
      at most 1 + d / 100 ms probe events are submitted for a socket. The record
      itself carries a later clock reading than the gate. */
  lemma ProbeWindow(tr: seq<Input>, a: nat, b: nat, sk: u64, from: u64, d: nat)
    requires Monotone(tr) && a <= b <= |tr| && NoStart(tr, a, b, sk)
    requires forall i | a <= i < b && PassAt(tr, i, sk) :: from <= tr[i].gate <= from + d
    ensures ProbeEvents(tr, a, b, sk) <= 1 + d / PROBE_INTERVAL
  {
    EventsArePasses(tr, a, b, sk);
    if Passes(tr, a, b, sk) > 1 {
      var p := FirstPass(tr, a, b, sk);
      var q := LastPass(tr, p, b, sk);
      if p < q {
        ProbeRate(tr, p, q, sk);
        assert tr[q].gate - tr[p].gate <= d;
      }
    }
  }
}
