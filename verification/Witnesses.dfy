/** Concrete configurations and events: the conditions of the main results can
    be met, and the departures that they exclude do occur. */
module Witnesses {
  import opened Bits
  import opened Addresses
  import opened Events
  import opened Cel
  import opened Program
  import opened GoVm
  import opened Lowering
  import opened Interning
  import opened Compiler
  import opened Filters
  import opened CompilerCorrectness
  import opened Pushdown
  import opened FirstMatch
  import opened WordCidr
  import opened KernelVm
  import opened KernelRefinement
  import opened Tracer
  import opened Pipeline

  /** What `Compile` returns for a configuration that it accepts. */
  function SetFor(tx: Text, cfg: seq<Config>): FilterSet
    requires |cfg| <= MAX_FILTERS
  {
    var preds := seq(|cfg|, i requires 0 <= i < |cfg| => PredsOf(tx, ExprOf(cfg[i]), FinalTable(tx, cfg)));
    var userspace := seq(|cfg|, i requires 0 <= i < |cfg| => Lower(tx, ExprOf(cfg[i]), false).None?);
    FilterSet(seq(|cfg|, i requires 0 <= i < |cfg| => cfg[i].name),
              seq(|cfg|, i requires 0 <= i < |cfg| => ExprOf(cfg[i])),
              FinalTable(tx, cfg).atoms, preds, userspace, Layout(preds, userspace, 0))
  }

  lemma SetForIsCompiled(tx: Text, cfg: seq<Config>)
    requires |cfg| <= MAX_FILTERS && AllParsed(cfg, |cfg|)
    ensures IsCompiled(tx, cfg, SetFor(tx, cfg))
  {
  }

  function Greater(id: Ident, n: i64): Expr {
    Cmp(Gt, Ident(id), Lit(VInt(n)))
  }

  function SameAs(id: Ident, s: string): Expr {
    Cmp(Eq, Ident(id), Lit(VStr(s)))
  }

  lemma EvalGreater(tx: Text, id: Ident, n: i64, ev: Event)
    ensures Eval(tx, Greater(id, n), ev) == CmpValues(Gt, Lookup(tx, id, ev), VInt(n))
  {
  }

  lemma EvalSameAs(tx: Text, id: Ident, s: string, ev: Event)
    ensures Eval(tx, SameAs(id, s), ev) == CmpValues(Eq, Lookup(tx, id, ev), VStr(s))
  {
  }

  /** The operands of a conjunction or disjunction. */
  lemma EvalBoth(tx: Text, l: Expr, r: Expr, ev: Event)
    ensures Eval(tx, And(l, r), ev) == AndValues(Eval(tx, l, ev), Eval(tx, r, ev))
    ensures Eval(tx, Or(l, r), ev) == OrValues(Eval(tx, l, ev), Eval(tx, r, ev))
  {
  }

  lemma EvalNotIpIn(tx: Text, l: Expr, r: Expr, ev: Event)
    ensures Eval(tx, Not(IpIn(l, r)), ev) == NotValue(IpInValues(tx, Eval(tx, l, ev), Eval(tx, r, ev)))
  {
  }

  const ANY_COMM: seq<u8> := []
  const HERE: Bytes16 := [10, 0, 0, 1, 0, 0, 0, 0, 0, 0, 0, 0, 0, 0, 0, 0]

  /** An IPv4 connection that closed. */
  function ClosedEvent(cgroup: u64, rttUs: u32, segsOut: u32): Raw {
    Raw(0, 1, ANY_COMM, AF_INET, 40000, 443, CONN_CLOSED, HERE, HERE, cgroup, 5, rttUs, 0, segsOut, 0, 0, 0, 0, 0)
  }

  // The cut at 32 slots

  const SLOW := Greater(KoRttUs, 0)
  const EITHER := Or(SLOW, Greater(KoSegsOut, 0))

  /** Sixteen pushed-down filters `ko_rtt_us > 0` fill the 32 slots, and
      `ko_rtt_us > 0 || ko_segs_out > 0` behind them is left to userspace. */
  function FullConfig(): (cfg: seq<Config>)
    ensures |cfg| == 17
  {
    seq(17, i requires 0 <= i < 17 =>
      if i < 16 then Config(seq(i + 1, _ => 'x'), Some(SLOW)) else Config("either", Some(EITHER)))
  }

  const RTT_TEST := SymCmp(FLD_RTT, CMP_GT, 0)

  lemma SlowLowered(tx: Text)
    ensures Lower(tx, SLOW, false) == Some([RTT_TEST]) && Requests(tx, SLOW, false) == []
    ensures Lower(tx, EITHER, false) == None && Requests(tx, EITHER, false) == []
  {
    assert AtomsOf([RTT_TEST]) == [];
  }

  lemma FullLowered(tx: Text, i: nat)
    requires i < 17
    ensures Lower(tx, ExprOf(FullConfig()[i]), false) == if i < 16 then Some([RTT_TEST]) else None
    ensures Requests(tx, ExprOf(FullConfig()[i]), false) == []
  {
    assert ExprOf(FullConfig()[i]) == if i < 16 then SLOW else EITHER;
    SlowLowered(tx);
  }

  lemma {:induction false} FullSizes(tx: Text, n: nat)
    requires n <= 17
    ensures PushedSize(tx, FullConfig(), n) == if n <= 16 then 2 * n else 32
    ensures AllRequests(tx, FullConfig(), n) == [] && TableAt(tx, FullConfig(), n) == EMPTY
  {
    if n > 0 {
      FullLowered(tx, n - 1);
      FullSizes(tx, n - 1);
    }
  }

  predicate Apart(f: Config, g: Config) {
    f.name != "" && g.name != "" && f.name != g.name
  }

  lemma FullNames(i: nat, j: nat)
    requires i < j < 17
    ensures Apart(FullConfig()[i], FullConfig()[j])
  {
    var (name, other) := (FullConfig()[i].name, FullConfig()[j].name);
    assert |name| == i + 1 && name[0] == 'x';
    assert if j < 16 then |other| == j + 1 else other[0] == 'e';
  }

  lemma ApartIsAcceptable(tx: Text, cfg: seq<Config>)
    requires 1 < |cfg| <= MAX_FILTERS && AllParsed(cfg, |cfg|)
    requires forall i, j | 0 <= i < j < |cfg| :: Apart(cfg[i], cfg[j])
    requires PushedSize(tx, cfg, |cfg|) <= MAX_PREDS && |FinalTable(tx, cfg).atoms| <= 64
    ensures Acceptable(tx, cfg)
  {
    assert forall i | 0 <= i < |cfg| :: if i == 0 then Apart(cfg[0], cfg[1]) else Apart(cfg[0], cfg[i]);
  }

  lemma FullAcceptable(tx: Text)
    ensures Acceptable(tx, FullConfig())
  {
    FullSizes(tx, 17);
    forall i, j | 0 <= i < j < 17 ensures Apart(FullConfig()[i], FullConfig()[j]) {
      FullNames(i, j);
    }
    ApartIsAcceptable(tx, FullConfig());
  }

  predicate FullShapeAt(ps: seq<Pred>, userspace: bool, i: nat) {
    ps == (if i < 16 then [CmpPred(FLD_RTT, CMP_GT, 0)] else []) && userspace == (i == 16)
  }

  /** Sixteen filters of one test, then a bare userspace one. */
  predicate FullShape(preds: seq<seq<Pred>>, userspace: seq<bool>) {
    |preds| == |userspace| == 17 && forall i | 0 <= i < 17 :: FullShapeAt(preds[i], userspace[i], i)
  }

  /** The predicates and flags compiled from `FullConfig`. */
  lemma FullShaped(tx: Text)
    ensures FullShape(SetFor(tx, FullConfig()).preds, SetFor(tx, FullConfig()).userspace)
  {
    var preds, userspace := SetFor(tx, FullConfig()).preds, SetFor(tx, FullConfig()).userspace;
    forall i | 0 <= i < 17 ensures FullShapeAt(preds[i], userspace[i], i) {
      FullLowered(tx, i);
    }
  }

  lemma FullSet(tx: Text)
    ensures SetOk(HookEvent, tx, FullConfig(), SetFor(tx, FullConfig()))
  {
    var cfg, s := FullConfig(), SetFor(tx, FullConfig());
    FullAcceptable(tx);
    FullSizes(tx, 17);
    SetForIsCompiled(tx, cfg);
    forall i | 0 <= i < 17 && !s.userspace[i] ensures WellFormed(HookEvent, tx, s.exprs[i], false) {
      FullWellFormed(tx, i);
    }
    SafeTests(tx, cfg);
  }

  lemma FullWellFormed(tx: Text, i: nat)
    requires i < 17 && Lower(tx, ExprOf(FullConfig()[i]), false).Some?
    ensures WellFormed(HookEvent, tx, ExprOf(FullConfig()[i]), false)
  {
    FullLowered(tx, i);
    assert CmpFaithful(HookEvent, Gt, Ident(KoRttUs), Lit(VInt(0)));
  }

  lemma FullAligned(tx: Text)
    ensures WordsSafe(SetFor(tx, FullConfig()).flat)
  {
    var s := SetFor(tx, FullConfig());
    FullShaped(tx);
    forall m | 0 <= m < 17, i | 0 <= i < |s.preds[m]| ensures s.preds[m][i].kind != PRED_IPSET {
      assert FullShapeAt(s.preds[m], s.userspace[m], m);
    }
    NoIpSets(s.preds, s.userspace, 0);
  }

  lemma {:induction false} NoIpSets(preds: seq<seq<Pred>>, userspace: seq<bool>, k: nat)
    requires |preds| == |userspace| <= MAX_FILTERS && k <= |preds|
    requires forall m | 0 <= m < |preds|, i | 0 <= i < |preds[m]| :: preds[m][i].kind != PRED_IPSET
    ensures forall i | 0 <= i < |Layout(preds, userspace, k)| :: Layout(preds, userspace, k)[i].kind != PRED_IPSET
    decreases |preds| - k
  {
    if k < |preds| { NoIpSets(preds, userspace, k + 1); }
  }

  lemma {:induction false} FullLength(preds: seq<seq<Pred>>, userspace: seq<bool>, k: nat)
    requires FullShape(preds, userspace) && k <= 16
    ensures |Layout(preds, userspace, k)| == 33 - 2 * k && RunLength(preds, userspace, k) == 32 - 2 * k
    ensures FirstUserspace(userspace, k) == 16
    decreases 16 - k
  {
    assert FullShapeAt(preds[k], userspace[k], k);
    if k < 16 {
      FullLength(preds, userspace, k + 1);
    } else {
      assert Layout(preds, userspace, 17) == [];
    }
  }

  lemma FullCloses(preds: seq<seq<Pred>>, userspace: seq<bool>, j: nat, ev: Event, verdict: Option<u64>)
    requires FullShape(preds, userspace) && j < 16 && ev.rttUs == 0
    ensures AllTests(preds[j]) && Closed(preds, userspace, j, ev, verdict)
  {
    assert FullShapeAt(preds[j], userspace[j], j);
    var ts := TestResults(preds[j], ev, verdict);
    assert ts[0] == False;
    ConjunctionMeaning(ts, True);
  }

  lemma FullFallsShort(tx: Text)
    ensures !CopySuffices(SetFor(tx, FullConfig()).flat)
    ensures FirstUserspace(SetFor(tx, FullConfig()).userspace, 0) == 16
  {
    var s := SetFor(tx, FullConfig());
    FullShaped(tx);
    FullSet(tx);
    CompiledIsBare(tx, FullConfig(), s);
    FullLength(s.preds, s.userspace, 0);
    RunShape(s.preds, s.userspace, 0);
  }

  lemma FullCut(tx: Text, ev: Event, verdict: Option<u64>)
    requires ev.rttUs == 0
    ensures Walk(Take32(GoSteps(SetFor(tx, FullConfig()).flat, ev, verdict)), True) == DROP
    ensures GoDecision(SetFor(tx, FullConfig()).flat, ev, verdict) == UNDECIDED
  {
    var s := SetFor(tx, FullConfig());
    FullShaped(tx);
    FullSet(tx);
    FullFallsShort(tx);
    forall j | 0 <= j < 16 ensures AllTests(s.preds[j]) && Closed(s.preds, s.userspace, j, ev, verdict) {
      FullCloses(s.preds, s.userspace, j, ev, verdict);
    }
    TruncationExact(tx, FullConfig(), s, ev, verdict);
  }

  lemma OnlyEither(tx: Text, ev: Event)
    requires ev.rttUs == 0 && ev.segsOut > 0
    ensures !Holds(tx, SLOW, ev) && Holds(tx, EITHER, ev)
  {
    EvalGreater(tx, KoRttUs, 0, ev);
    EvalGreater(tx, KoSegsOut, 0, ev);
    EvalBoth(tx, SLOW, Greater(KoSegsOut, 0), ev);
  }

  lemma FullEvaluates(tx: Text, ev: Event)
    requires ev.rttUs == 0 && ev.segsOut > 0
    ensures Evaluate(tx, SetFor(tx, FullConfig()).exprs, ev, 0) == Some(16)
  {
    var exprs := SetFor(tx, FullConfig()).exprs;
    OnlyEither(tx, ev);
    assert forall j | 0 <= j < 16 :: exprs[j] == SLOW;
    FirstMatchUnique(tx, exprs, ev, Some(16));
  }

  /** The kernel drops an event that the full stream leaves undecided and that
      `Evaluate` accepts: all filters before the first userspace one are false,
      and its END marker is cut off. */
  lemma CutLosesEvent(tx: Text, attrs: CgroupAttrs, verdict: Option<u64>)
    ensures var cfg, s, r := FullConfig(), SetFor(tx, FullConfig()), ClosedEvent(1, 0, 3);
            SetOk(HookEvent, tx, cfg, s) && WordsSafe(s.flat) && !CopySuffices(s.flat) && RawOk(r) &&
            KoDecision(true, Some(ProgOf(s.names, s.flat)), r, Always(verdict)) == DROP &&
            GoDecision(s.flat, EventOf(r, attrs), verdict) == UNDECIDED &&
            Evaluate(tx, s.exprs, EventOf(r, attrs), 0) == Some(16)
  {
    var cfg, s, r := FullConfig(), SetFor(tx, FullConfig()), ClosedEvent(1, 0, 3);
    FullSet(tx);
    FullAligned(tx);
    FullFallsShort(tx);
    FullCut(tx, EventOf(r, attrs), verdict);
    FullEvaluates(tx, EventOf(r, attrs));
    CompiledEntriesOk(tx, cfg, s);
    VmsAgree(s.names, s.flat, r, attrs, verdict);
  }

  // A setup that meets every condition

  /** An endpoint printed as the characters of its bytes. */
  function ShowBytes(b: seq<u8>): (s: string)
    ensures |s| == |b| && forall i | 0 <= i < |b| :: s[i] as int == b[i]
  {
    seq(|b|, i requires 0 <= i < |b| => b[i] as char)
  }

  predicate BytesOnly(s: string) {
    forall i | 0 <= i < |s| :: (s[i] as int) < 0x100
  }

  function ReadBytes(s: string): (b: seq<u8>)
    requires BytesOnly(s)
    ensures |b| == |s| && forall i | 0 <= i < |b| :: b[i] == s[i] as int
  {
    seq(|s|, i requires 0 <= i < |s| => s[i] as int)
  }

  function IpBytes(ip: IP): seq<u8> {
    match ip
    case NoIP => []
    case V4(b) => b
    case V6(b) => b
  }

  function ShowEndpoint(ip: IP, port: u16): string {
    ShowBytes([port / 0x100, port % 0x100]) + ShowBytes(IpBytes(ip))
  }

  function HostOf(s: string): IP {
    if !BytesOnly(s) then NoIP
    else if |s| == 6 then V4(ReadBytes(s)[2..])
    else if |s| == 18 then V6(ReadBytes(s)[2..])
    else NoIP
  }

  function LoopbackPrefix(s: string): Option<CidrPrefix> {
    if s == LOOPBACK_CIDRS[0] then Some(Prefix(V4([127, 0, 0, 0]), 8))
    else if s == LOOPBACK_CIDRS[1] then Some(Prefix(V6([0, 0, 0, 0, 0, 0, 0, 0, 0, 0, 0, 0, 0, 0, 0, 1]), 128))
    else None
  }

  function PlainText(): Text {
    Text(LoopbackPrefix, (ip: IP, port: u16) => ShowEndpoint(ip, port), HostOf)
  }

  lemma PlainTextOk()
    ensures TextOk(PlainText())
  {
    forall ip: IP, port: u16 ensures HostOf(ShowEndpoint(ip, port)) == ip {
      var s := ShowEndpoint(ip, port);
      assert forall i | 2 <= i < |s| :: s[i] as int == IpBytes(ip)[i - 2];
      assert BytesOnly(s) && ReadBytes(s)[2..] == IpBytes(ip);
    }
  }

  const SLOW_PROD := And(SameAs(KoNamespace, "prod"), Greater(KoRttUs, 100000))
  const IN_PODS := In(Ident(KoPod), List([Lit(VStr("a")), Lit(VStr("b"))]))
  const NOT_LOOPBACK := Not(IpIn(Ident(KoRemoteAddr), Ident(KoLoopbackCidrs)))
  const OUTGOING := And(IN_PODS, NOT_LOOPBACK)
  const BUSY := Or(Greater(KoSegsOut, 1000), Greater(KoRetransmits, 10))

  /** Two pushed-down filters that test attributes, statistics and an address,
      and one for userspace. */
  const SAMPLE: seq<Config> := [
    Config("slow-prod", Some(SLOW_PROD)), Config("outgoing", Some(OUTGOING)), Config("busy", Some(BUSY))]

  const IN_PROD := Atom(ATTR_NAMESPACE, ATTR_EQ, ["prod"])
  const POD_AB := Atom(ATTR_POD, ATTR_IN, ["a", "b"])

  lemma SlowProdLowered(tx: Text)
    ensures Lower(tx, SLOW_PROD, false) == Some([SymAttr(IN_PROD, 0), SymCmp(FLD_RTT, CMP_GT, 100000)])
    ensures WellFormed(HookEvent, tx, SLOW_PROD, false) && Requests(tx, SLOW_PROD, false) == [IN_PROD]
  {
    var syms := [SymAttr(IN_PROD, 0), SymCmp(FLD_RTT, CMP_GT, 100000)];
    assert Lower(tx, SameAs(KoNamespace, "prod"), false) == Some([syms[0]]);
    assert Lower(tx, Greater(KoRttUs, 100000), false) == Some([syms[1]]);
    assert [syms[0]] + [syms[1]] == syms;
    RequestsAreAtoms(tx, SLOW_PROD, false);
    assert AtomsOf(syms) == [IN_PROD] + AtomsOf(syms[1..]) && AtomsOf(syms[1..]) == [];
    assert CmpFaithful(HookEvent, Gt, Ident(KoRttUs), Lit(VInt(100000)));
  }

  function LoopbackSlots(): Slots {
    CidrSlots(PlainText(), LOOPBACK_CIDRS)
  }

  lemma PodsLowered(tx: Text)
    ensures Lower(tx, IN_PODS, false) == Some([SymAttr(POD_AB, 0)]) && WellFormed(HookEvent, tx, IN_PODS, false)
  {
    assert LiteralTexts([Lit(VStr("a")), Lit(VStr("b"))]) == ["a", "b"];
  }

  lemma LoopbackLowered()
    ensures Lower(PlainText(), NOT_LOOPBACK, false) == Some([SymIp(1, 1, 2, LoopbackSlots())])
    ensures WellFormed(HookEvent, PlainText(), NOT_LOOPBACK, false)
    ensures LoopbackSlots()[0].plen == 8 && LoopbackSlots()[1].plen == 128
  {
    assert LOOPBACK_CIDRS[0][0] == '1' && LOOPBACK_CIDRS[1][0] == ':';
    assert CidrsOk(PlainText(), LOOPBACK_CIDRS);
  }

  lemma OutgoingLowered()
    ensures Lower(PlainText(), OUTGOING, false) == Some([SymAttr(POD_AB, 0), SymIp(1, 1, 2, LoopbackSlots())])
    ensures WellFormed(HookEvent, PlainText(), OUTGOING, false) && Requests(PlainText(), OUTGOING, false) == [POD_AB]
  {
    var tx, syms := PlainText(), [SymAttr(POD_AB, 0), SymIp(1, 1, 2, LoopbackSlots())];
    PodsLowered(tx);
    LoopbackLowered();
    assert [syms[0]] + [syms[1]] == syms;
    RequestsAreAtoms(tx, OUTGOING, false);
    assert AtomsOf(syms) == [POD_AB] + AtomsOf(syms[1..]) && AtomsOf(syms[1..]) == [];
  }

  lemma {:induction false} TableSize(t: Table, reqs: seq<Atom>)
    ensures |InternAll(t, reqs).atoms| <= |t.atoms| + |reqs|
    decreases |reqs|
  {
    if reqs != [] { TableSize(Intern(t, reqs[0]), reqs[1..]); }
  }

  lemma OfThree(tx: Text, cfg: seq<Config>)
    requires |cfg| == 3
    ensures AllRequests(tx, cfg, 3) == Requests(tx, ExprOf(cfg[0]), false) + Requests(tx, ExprOf(cfg[1]), false) +
                                       Requests(tx, ExprOf(cfg[2]), false)
    ensures PushedSize(tx, cfg, 3) == EntryCount(tx, ExprOf(cfg[0])) + EntryCount(tx, ExprOf(cfg[1])) +
                                      EntryCount(tx, ExprOf(cfg[2]))
  {
    assert AllRequests(tx, cfg, 1) == Requests(tx, ExprOf(cfg[0]), false);
    assert PushedSize(tx, cfg, 0) == 0 && PushedSize(tx, cfg, 1) == EntryCount(tx, ExprOf(cfg[0]));
    assert PushedSize(tx, cfg, 2) == PushedSize(tx, cfg, 1) + EntryCount(tx, ExprOf(cfg[1]));
  }

  lemma SampleCounts()
    ensures AllRequests(PlainText(), SAMPLE, 3) == [IN_PROD, POD_AB] && PushedSize(PlainText(), SAMPLE, 3) == 6
  {
    OfThree(PlainText(), SAMPLE);
    SlowProdLowered(PlainText());
    OutgoingLowered();
    BusyRefused(PlainText());
  }

  lemma SampleAtoms()
    ensures |FinalTable(PlainText(), SAMPLE).atoms| <= 2
  {
    SampleCounts();
    TableOfRequests(PlainText(), SAMPLE, 3);
    TableSize(EMPTY, [IN_PROD, POD_AB]);
  }

  lemma SampleNames(i: nat, j: nat)
    requires i < j < 3
    ensures Apart(SAMPLE[i], SAMPLE[j])
  {
    assert SAMPLE[0].name[0] == 's' && SAMPLE[1].name[0] == 'o' && SAMPLE[2].name[0] == 'b';
  }

  lemma SampleAcceptable()
    ensures Acceptable(PlainText(), SAMPLE)
  {
    SampleCounts();
    SampleAtoms();
    forall i, j | 0 <= i < j < 3 ensures Apart(SAMPLE[i], SAMPLE[j]) {
      SampleNames(i, j);
    }
    ApartIsAcceptable(PlainText(), SAMPLE);
  }

  lemma SampleNoClash()
    ensures NoClash(AllRequests(PlainText(), SAMPLE, 3), TestAtoms(PlainText(), SAMPLE))
  {
    SampleCounts();
    assert KeySafe(IN_PROD) && KeySafe(POD_AB);
    SafeTests(PlainText(), SAMPLE);
  }

  lemma BusyRefused(tx: Text)
    ensures Lower(tx, BUSY, false) == None && Requests(tx, BUSY, false) == []
  {
  }

  /** Two filters that are pushed down and one that is not. */
  lemma TwoPushed(tx: Text, cfg: seq<Config>)
    requires |cfg| == 3 && Lower(tx, ExprOf(cfg[0]), false).Some?
    requires Lower(tx, ExprOf(cfg[1]), false).Some? && Lower(tx, ExprOf(cfg[2]), false).None?
    ensures SetFor(tx, cfg).exprs == [ExprOf(cfg[0]), ExprOf(cfg[1]), ExprOf(cfg[2])]
    ensures SetFor(tx, cfg).userspace == [false, false, true]
  {
  }

  lemma SampleFilters()
    ensures SetFor(PlainText(), SAMPLE).exprs == [SLOW_PROD, OUTGOING, BUSY]
    ensures SetFor(PlainText(), SAMPLE).userspace == [false, false, true]
  {
    SlowProdLowered(PlainText());
    OutgoingLowered();
    BusyRefused(PlainText());
    TwoPushed(PlainText(), SAMPLE);
  }

  lemma SampleSetOk()
    ensures SetOk(HookEvent, PlainText(), SAMPLE, SetFor(PlainText(), SAMPLE))
    ensures SetFor(PlainText(), SAMPLE).userspace == [false, false, true]
  {
    SampleAcceptable();
    SampleNoClash();
    SetForIsCompiled(PlainText(), SAMPLE);
    SlowProdLowered(PlainText());
    OutgoingLowered();
    SampleFilters();
  }

  /** The entries of three filters, the last without predicates. */
  lemma LayoutOfThree(preds: seq<seq<Pred>>, userspace: seq<bool>)
    requires |preds| == |userspace| == 3 && |preds[0]| == |preds[1]| == 2 && preds[2] == []
    ensures Layout(preds, userspace, 0) ==
            [preds[0][0], preds[0][1], EndPred(0, userspace[0]),
             preds[1][0], preds[1][1], EndPred(1, userspace[1]), EndPred(2, userspace[2])]
  {
    assert preds[0] == [preds[0][0], preds[0][1]] && preds[1] == [preds[1][0], preds[1][1]];
    assert Layout(preds, userspace, 3) == [];
    assert Layout(preds, userspace, 2) == [EndPred(2, userspace[2])];
    assert Layout(preds, userspace, 1) == preds[1] + [EndPred(1, userspace[1]), EndPred(2, userspace[2])];
  }

  lemma SamplePreds()
    ensures var preds := SetFor(PlainText(), SAMPLE).preds;
            |preds| == 3 && |preds[0]| == |preds[1]| == 2 && preds[2] == [] &&
            preds[0][0].kind == PRED_ATTR && preds[0][1].kind == PRED_CMP && preds[1][0].kind == PRED_ATTR &&
            preds[1][1] == Pred(0, PRED_IPSET, 1, 1, 2, LoopbackSlots())
  {
    SlowProdLowered(PlainText());
    OutgoingLowered();
  }

  /** A stream of seven entries with one IP test, on two whole-byte prefixes. */
  lemma OneIpTest(preds: seq<seq<Pred>>, userspace: seq<bool>)
    requires |preds| == |userspace| == 3 && |preds[0]| == |preds[1]| == 2 && preds[2] == []
    requires preds[0][0].kind != PRED_IPSET && preds[0][1].kind != PRED_IPSET && preds[1][0].kind != PRED_IPSET
    requires preds[1][1].n == 2 && WordSafe(preds[1][1].slots[0]) && WordSafe(preds[1][1].slots[1])
    ensures WordsSafe(Layout(preds, userspace, 0)) && CopySuffices(Layout(preds, userspace, 0))
  {
    LayoutOfThree(preds, userspace);
  }

  lemma SampleFits()
    ensures var s := SetFor(PlainText(), SAMPLE); WordsSafe(s.flat) && CopySuffices(s.flat)
  {
    var s := SetFor(PlainText(), SAMPLE);
    SamplePreds();
    LoopbackLowered();
    OneIpTest(s.preds, s.userspace);
  }

  const PROD_ATTRS := CgroupAttrs("prod", "", "")
  const DEV_ATTRS := CgroupAttrs("dev", "", "c")

  /** A source that knows every cgroup, with empty attributes outside its snapshot. */
  function SampleSource(): Source {
    Source(cg => Some(if cg == 1 then PROD_ATTRS else NO_ATTRS), map[1 := PROD_ATTRS])
  }

  lemma SampleKernelOk()
    ensures KernelOk(PlainText(), SAMPLE, SetFor(PlainText(), SAMPLE))
  {
    PlainTextOk();
    SampleSetOk();
    SampleFits();
  }

  /** The conditions of `EndToEnd` can be met together, by filters of both tiers,
      a text and a source. */
  lemma SampleMeetsConditions()
    ensures KernelOk(PlainText(), SAMPLE, SetFor(PlainText(), SAMPLE))
    ensures SetupOk(Settings(PlainText(), Some(SetFor(PlainText(), SAMPLE)), SampleSource(), true), SAMPLE)
  {
    SampleKernelOk();
    assert SourceOk(SampleSource());
  }

  /** A stale verdict is wrong where it picks a pushed-down first filter that
      `Evaluate` does not pick on the event's own attributes. */
  lemma StaleFirstFilter(tx: Text, cfg: seq<Config>, s: FilterSet, r: Raw, stale: CgroupAttrs, attrs: CgroupAttrs)
    requires KernelOk(tx, cfg, s) && RawOk(r) && |s.userspace| == |s.exprs| > 0 && !s.userspace[0]
    requires Holds(tx, s.exprs[0], EventOf(r, stale))
    requires Evaluate(tx, s.exprs, EventOf(r, attrs), 0) != Some(0)
    ensures !Agrees(tx, s, EventOf(r, attrs),
                    KoDecision(true, Some(ProgOf(s.names, s.flat)), r, Always(Some(Mask(s.atoms, stale)))))
  {
    StaleVerdictExact(tx, cfg, s, r, stale, attrs);
  }

  /** The verdict of other attributes can be wrong: on a slow event of a cgroup
      outside `prod`, the verdict of a cgroup in `prod` picks the first filter,
      while `Evaluate` picks none. */
  lemma StaleVerdictMisdirects()
    ensures var tx, s, r := PlainText(), SetFor(PlainText(), SAMPLE), ClosedEvent(2, 200000, 3);
            RawOk(r) && Evaluate(tx, s.exprs, EventOf(r, DEV_ATTRS), 0) == None &&
            !Agrees(tx, s, EventOf(r, DEV_ATTRS),
                    KoDecision(true, Some(ProgOf(s.names, s.flat)), r, Always(Some(Mask(s.atoms, PROD_ATTRS)))))
  {
    var s, r := SetFor(PlainText(), SAMPLE), ClosedEvent(2, 200000, 3);
    SampleMeetsConditions();
    SampleSetOk();
    SampleEvaluates(r);
    StaleFirstFilter(PlainText(), SAMPLE, s, r, PROD_ATTRS, DEV_ATTRS);
  }

  lemma SampleEvaluates(r: Raw)
    requires r == ClosedEvent(2, 200000, 3)
    ensures var tx, s := PlainText(), SetFor(PlainText(), SAMPLE);
            Holds(tx, s.exprs[0], EventOf(r, PROD_ATTRS)) && Evaluate(tx, s.exprs, EventOf(r, DEV_ATTRS), 0) == None
  {
    var tx, exprs := PlainText(), SetFor(PlainText(), SAMPLE).exprs;
    SlowProdOnly(tx, r);
    assert exprs == [SLOW_PROD, OUTGOING, BUSY];
    FirstMatchUnique(tx, exprs, EventOf(r, DEV_ATTRS), None);
  }

  lemma SlowProdOnly(tx: Text, r: Raw)
    requires r == ClosedEvent(2, 200000, 3)
    ensures Holds(tx, SLOW_PROD, EventOf(r, PROD_ATTRS)) && !Holds(tx, SLOW_PROD, EventOf(r, DEV_ATTRS))
    ensures !Holds(tx, OUTGOING, EventOf(r, DEV_ATTRS)) && !Holds(tx, BUSY, EventOf(r, DEV_ATTRS))
  {
    InProd(tx, EventOf(r, PROD_ATTRS));
    InProd(tx, EventOf(r, DEV_ATTRS));
    NotInPods(tx, EventOf(r, DEV_ATTRS));
    NotBusy(tx, EventOf(r, DEV_ATTRS));
  }

  lemma InProd(tx: Text, ev: Event)
    requires ev.rttUs == 200000
    ensures Holds(tx, SLOW_PROD, ev) <==> ev.attrs.namespace == "prod"
  {
    EvalSameAs(tx, KoNamespace, "prod", ev);
    EvalGreater(tx, KoRttUs, 100000, ev);
    EvalBoth(tx, SameAs(KoNamespace, "prod"), Greater(KoRttUs, 100000), ev);
  }

  lemma NotBusy(tx: Text, ev: Event)
    requires ev.segsOut == 3 && ev.retransmits == 0
    ensures !Holds(tx, BUSY, ev)
  {
    EvalGreater(tx, KoSegsOut, 1000, ev);
    EvalGreater(tx, KoRetransmits, 10, ev);
    EvalBoth(tx, Greater(KoSegsOut, 1000), Greater(KoRetransmits, 10), ev);
  }

  lemma PodsFalse(tx: Text, ev: Event)
    requires ev.attrs == DEV_ATTRS
    ensures Eval(tx, IN_PODS, ev) == VBool(false)
  {
    var vs := EvalAll(tx, [Lit(VStr("a")), Lit(VStr("b"))], ev);
    assert vs == [VStr("a"), VStr("b")];
    assert "c"[0] == 'c' && "a"[0] == 'a' && "b"[0] == 'b';
    assert VStr("c") !in vs;
  }

  lemma NotInPods(tx: Text, ev: Event)
    requires ev.attrs == DEV_ATTRS
    ensures !Holds(tx, OUTGOING, ev)
  {
    PodsFalse(tx, ev);
    EvalBoth(tx, IN_PODS, NOT_LOOPBACK, ev);
  }

  // Filters of the chart

  const TYPE_ENDED := In(Ident(KoType), List([Ident(KoTypeConnFailed), Ident(KoTypeConnClosed)]))

  /** The default filter: `!ip_in(ko_remote_addr, ko_loopback_cidrs) &&
      ko_type in [ko_type_conn_failed, ko_type_conn_closed]`. */
  const DEFAULT_FILTER := And(NOT_LOOPBACK, TYPE_ENDED)

  /** `ko_container == "api" && ko_type == ko_type_retransmit`. */
  const API_RETRANSMITS := And(SameAs(KoContainer, "api"), Cmp(Eq, Ident(KoType), Ident(KoTypeRetransmit)))

  predicate Loopback(ip: IP) {
    match Unmap(ip)
    case NoIP => false
    case V4(b) => b[0] == 127
    case V6(b) => b == [0, 0, 0, 0, 0, 0, 0, 0, 0, 0, 0, 0, 0, 0, 0, 1]
  }

  /** The complement of a set of parsing prefixes. */
  lemma ComplementPushable(tx: Text, id: Ident, list: Expr, ss: seq<string>)
    requires id in ENDPOINTS && ListsTexts(list, ss) && |ss| <= 4
    requires forall i | 0 <= i < |ss| :: tx.cidr(ss[i]).Some?
    ensures Pushable(tx, Not(IpIn(Ident(id), list)), false)
  {
    assert PushableIpIn(tx, Ident(id), list, true);
  }

  lemma NotLoopbackPushable(tx: Text)
    requires tx.cidr(LOOPBACK_CIDRS[0]).Some? && tx.cidr(LOOPBACK_CIDRS[1]).Some?
    ensures Pushable(tx, NOT_LOOPBACK, false)
  {
    ComplementPushable(tx, KoRemoteAddr, Ident(KoLoopbackCidrs), LOOPBACK_CIDRS);
  }

  lemma TypeEndedPushable(tx: Text)
    ensures Pushable(tx, TYPE_ENDED, false)
  {
    assert AllTypes([Ident(KoTypeConnFailed), Ident(KoTypeConnClosed)], 2);
  }

  lemma ApiPushable(tx: Text)
    ensures Pushable(tx, API_RETRANSMITS, false)
  {
    assert Pushable(tx, SameAs(KoContainer, "api"), false);
    assert Pushable(tx, Cmp(Eq, Ident(KoType), Ident(KoTypeRetransmit)), false);
  }

  /** The kernel decides both. */
  lemma ChartPushable(tx: Text)
    requires tx.cidr(LOOPBACK_CIDRS[0]).Some? && tx.cidr(LOOPBACK_CIDRS[1]).Some?
    ensures Pushable(tx, DEFAULT_FILTER, false) && Pushable(tx, API_RETRANSMITS, false)
  {
    NotLoopbackPushable(tx);
    TypeEndedPushable(tx);
    ApiPushable(tx);
  }

  lemma LoopbackMeaning(ip: IP)
    ensures Contains(Prefix(V4([127, 0, 0, 0]), 8), Unmap(ip)) ||
            Contains(Prefix(V6([0, 0, 0, 0, 0, 0, 0, 0, 0, 0, 0, 0, 0, 0, 0, 1]), 128), Unmap(ip))
       <==> Loopback(ip)
  {
    match Unmap(ip)
    case NoIP =>
    case V4(b) => SamePrefixByBytes([127, 0, 0, 0], b, 8);
    case V6(b) => SamePrefixByBytes([0, 0, 0, 0, 0, 0, 0, 0, 0, 0, 0, 0, 0, 0, 0, 1], b, 128);
  }

  lemma InLoopback(tx: Text, ip: IP)
    requires PlainLoopback(tx)
    ensures InCidrs(tx, ip, LOOPBACK_CIDRS) <==> Loopback(ip)
  {
    LoopbackMeaning(ip);
    assert !Mapped([0, 0, 0, 0, 0, 0, 0, 0, 0, 0, 0, 0, 0, 0, 0, 1]);
    assert CidrHas(tx, LOOPBACK_CIDRS[0], ip) == Contains(Prefix(V4([127, 0, 0, 0]), 8), Unmap(ip));
    assert CidrHas(tx, LOOPBACK_CIDRS[1], ip) ==
           Contains(Prefix(V6([0, 0, 0, 0, 0, 0, 0, 0, 0, 0, 0, 0, 0, 0, 0, 1]), 128), Unmap(ip));
  }

  /** The text functions parse the two loopback prefixes as they are written. */
  predicate PlainLoopback(tx: Text) {
    tx.cidr("127.0.0.0/8") == Some(Prefix(V4([127, 0, 0, 0]), 8)) &&
    tx.cidr("::1/128") == Some(Prefix(V6([0, 0, 0, 0, 0, 0, 0, 0, 0, 0, 0, 0, 0, 0, 0, 1]), 128))
  }

  predicate Private(ip: IP) {
    match Unmap(ip)
    case NoIP => false
    case V4(b) => b[0] == 10 || (b[0] == 172 && 16 <= b[1] < 32) || (b[0] == 192 && b[1] == 168)
    case V6(b) => b[0] == 0xfd
  }

  const FD_PREFIX: Bytes16 := [0xfd, 0, 0, 0, 0, 0, 0, 0, 0, 0, 0, 0, 0, 0, 0, 0]

  /** The text functions parse the four private prefixes as they are written. */
  predicate PlainPrivate(tx: Text) {
    tx.cidr("10.0.0.0/8") == Some(Prefix(V4([10, 0, 0, 0]), 8)) &&
    tx.cidr("172.16.0.0/12") == Some(Prefix(V4([172, 16, 0, 0]), 12)) &&
    tx.cidr("192.168.0.0/16") == Some(Prefix(V4([192, 168, 0, 0]), 16)) &&
    tx.cidr("fd00::/8") == Some(Prefix(V6(FD_PREFIX), 8))
  }

  /** The high half of a byte. */
  lemma HighHalf(x: u8, y: u8)
    ensures HighBitsAgree(x, y, 4) <==> x / 16 == y / 16
  {
    assert Pow2(4) == 16;
    forall k: nat | k < 4 ensures Bit(x, k + 4) == Bit(x / 16, k) && Bit(y, k + 4) == Bit(y / 16, k) {
      JoinBit(x % 16, x / 16, 4, k + 4);
      JoinBit(y % 16, y / 16, 4, k + 4);
    }
    SameBits(x / 16, y / 16, 4);
    if HighBitsAgree(x, y, 4) {
      forall k: nat | k < 4 ensures Bit(x / 16, k) == Bit(y / 16, k) {
        assert Bit(x, k + 4) == Bit(y, k + 4);
      }
    } else {
      var j: nat :| 4 <= j < 8 && Bit(x, j) != Bit(y, j);
      assert Bit(x / 16, j - 4) != Bit(y / 16, j - 4);
    }
  }

  lemma Private4(b: Bytes4)
    ensures SamePrefix([10, 0, 0, 0], b, 8) || SamePrefix([172, 16, 0, 0], b, 12) || SamePrefix([192, 168, 0, 0], b, 16)
       <==> Private(V4(b))
  {
    SamePrefixByBytes([10, 0, 0, 0], b, 8);
    SamePrefixByBytes([172, 16, 0, 0], b, 12);
    SamePrefixByBytes([192, 168, 0, 0], b, 16);
    HighHalf(16, b[1]);
  }

  /** The built-in private list contains the private networks of RFC 1918 and the
      locally assigned ones of RFC 4193. */
  lemma PrivateMeaning(tx: Text, ip: IP)
    requires PlainPrivate(tx)
    ensures InCidrs(tx, ip, PRIVATE_CIDRS) <==> Private(ip)
  {
    assert forall i | 0 <= i < 4 :: CidrHas(tx, PRIVATE_CIDRS[i], ip) ==
             Contains(tx.cidr(PRIVATE_CIDRS[i]).value, Unmap(ip));
    match Unmap(ip)
    case NoIP =>
    case V4(b) =>
      Private4(b);
      assert CidrHas(tx, PRIVATE_CIDRS[0], ip) == SamePrefix([10, 0, 0, 0], b, 8);
      assert CidrHas(tx, PRIVATE_CIDRS[1], ip) == SamePrefix([172, 16, 0, 0], b, 12);
      assert CidrHas(tx, PRIVATE_CIDRS[2], ip) == SamePrefix([192, 168, 0, 0], b, 16);
    case V6(b) =>
      SamePrefixByBytes(FD_PREFIX, b, 8);
      assert CidrHas(tx, PRIVATE_CIDRS[3], ip) == SamePrefix(FD_PREFIX, b, 8);
  }

  /** What the filters of the chart select. */
  lemma ChartMeaning(tx: Text, ev: Event)
    requires TextOk(tx) && PlainLoopback(tx)
    ensures Holds(tx, DEFAULT_FILTER, ev) <==> !Loopback(ev.remoteIp) && (ev.typ == 1 || ev.typ == 2)
    ensures Holds(tx, API_RETRANSMITS, ev) <==> ev.attrs.container == "api" && ev.typ == 3
  {
    EndedMeaning(tx, ev);
    RemoteMeaning(tx, ev);
    EvalBoth(tx, NOT_LOOPBACK, TYPE_ENDED, ev);
    ApiMeaning(tx, ev);
  }

  lemma ApiMeaning(tx: Text, ev: Event)
    ensures Holds(tx, API_RETRANSMITS, ev) <==> ev.attrs.container == "api" && ev.typ == 3
  {
    NameIsType(ev.typ, RETRANSMIT);
    var retransmit := Cmp(Eq, Ident(KoType), Ident(KoTypeRetransmit));
    assert Eval(tx, retransmit, ev) == CmpValues(Eq, VStr(TypeName(ev.typ)), VStr(NAME_RETRANSMIT));
    EvalSameAs(tx, KoContainer, "api", ev);
    EvalBoth(tx, SameAs(KoContainer, "api"), retransmit, ev);
  }

  lemma EndedMeaning(tx: Text, ev: Event)
    ensures Eval(tx, TYPE_ENDED, ev) == VBool(ev.typ == 1 || ev.typ == 2)
  {
    var vs := EvalAll(tx, [Ident(KoTypeConnFailed), Ident(KoTypeConnClosed)], ev);
    assert vs == [VStr(NAME_FAILED), VStr(NAME_CLOSED)];
    NameIsType(ev.typ, CONN_FAILED);
    NameIsType(ev.typ, CONN_CLOSED);
  }

  lemma RemoteMeaning(tx: Text, ev: Event)
    requires TextOk(tx) && PlainLoopback(tx)
    ensures Eval(tx, NOT_LOOPBACK, ev) == VBool(!Loopback(ev.remoteIp))
  {
    var printed := tx.show(ev.remoteIp, ev.remotePort);
    assert Unmap(tx.host(printed)) == Unmap(ev.remoteIp);
    InLoopback(tx, tx.host(printed));
    IpInText(tx, printed, LOOPBACK_CIDRS);
    EvalNotIpIn(tx, Ident(KoRemoteAddr), Ident(KoLoopbackCidrs), ev);
  }

  lemma IpInText(tx: Text, s: string, cidrs: seq<string>)
    ensures IpInValues(tx, VStr(s), VList(Strings(cidrs))) == VBool(InCidrs(tx, tx.host(s), cidrs))
  {
    assert Texts(Strings(cidrs)) == cidrs;
  }
}
