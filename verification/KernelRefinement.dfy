/** The kernel VM against the Go VM and against `Evaluate`: equivalence on
    byte-aligned programs, walks over a changing verdict cache, and the cut at
    32 slots. */
module KernelRefinement {
  import opened Bits
  import opened Addresses
  import opened Events
  import opened Cel
  import opened Program
  import opened GoVm
  import opened Lowering
  import opened Interning
  import opened Filters
  import opened FirstMatch
  import opened WordCidr
  import opened KernelVm

  // Slots

  /** On safe slots the kernel's set is the Go VM's. */
  lemma SetsAgree(family: u16, ip: Bytes16, slots: Slots, n: SlotCount)
    requires family == AF_INET || family == AF_INET6
    requires forall i | 0 <= i < n :: SlotOk(slots[i]) && WordSafe(slots[i])
    ensures KoInSet(family, ip, slots, n) <==> InSlots(slots, n, DecodeIp(family, ip))
  {
    SetIsLow(family, ip, slots, n);
    forall i | 0 <= i < n
      ensures LowMatch(slots[i], Unmap(DecodeIp(family, ip))) <==> GoSlotMatch(slots[i], DecodeIp(family, ip))
    {
      SafeSlot(slots[i], family, ip);
    }
  }

  // Predicates

  /** A stream entry as the compiler writes it, with byte-aligned prefixes. */
  predicate EntryOk(p: Pred) {
    (p.kind == PRED_IPSET ==> p.a <= 1 && forall i | 0 <= i < p.n :: SlotOk(p.slots[i]) && WordSafe(p.slots[i])) &&
    (p.kind == PRED_END ==> p.b <= 1)
  }

  predicate EntriesOk(flat: seq<Pred>) {
    forall i | 0 <= i < |flat| :: EntryOk(flat[i])
  }

  /** An event that the kernel VM can run on: an IP family, and a type that its
      shift by the type can take. */
  predicate Runnable(r: Raw) {
    (r.family == AF_INET || r.family == AF_INET6) && r.typ < 64
  }

  /** Kernel and Go VM take the same step, whatever attributes userspace attaches. */
  lemma StepsAgree(p: Pred, r: Raw, attrs: CgroupAttrs, verdict: Option<u64>)
    requires EntryOk(p) && Runnable(r)
    ensures KoStep(p, r, verdict) == GoStep(p, EventOf(r, attrs), verdict)
  {
    if p.kind == PRED_IPSET {
      var ip := KoEndpoint(p.a, r);
      assert Endpoint(p.a, EventOf(r, attrs)) == DecodeIp(r.family, ip);
      SetsAgree(r.family, ip, p.slots, p.n);
    }
  }

  /** On entries of no kind that the compiler writes, the VMs agree too, except
      that the kernel takes every END flag but 0 for userspace, and Go only 1. */
  lemma OddEntries(p: Pred, r: Raw, attrs: CgroupAttrs, verdict: Option<u64>, rest: seq<Step>, res: Tri)
    ensures !KnownKind(p) ==> Walk([KoStep(p, r, verdict)] + rest, res) == UNDECIDED
    ensures p.kind == PRED_END ==>
              (KoStep(p, r, verdict) == GoStep(p, EventOf(r, attrs), verdict) <==> p.b <= 1) &&
              (p.b > 1 ==> Walk([KoStep(p, r, verdict)] + rest, res) == UNDECIDED)
  {
  }

  function Always(v: Option<u64>): Lookups {
    seq(32, _ => v)
  }

  function Take32(ss: seq<Step>): seq<Step> {
    if |ss| <= 32 then ss else ss[..32]
  }

  /** C and Go VM equivalence: with the same verdict, or none, `ko_filter_eval`
      decides as the Go walk of the first 32 entries, and so, for a program of at
      most 32 entries, exactly as `RunPreds`. */
  lemma VmsAgree(names: seq<string>, flat: seq<Pred>, r: Raw, attrs: CgroupAttrs, verdict: Option<u64>)
    requires |names| > 0 && EntriesOk(flat) && Runnable(r)
    ensures var d := KoDecision(true, Some(ProgOf(names, flat)), r, Always(verdict));
            d == Walk(Take32(GoSteps(flat, EventOf(r, attrs), verdict)), True) &&
            (|flat| <= 32 ==> d == GoDecision(flat, EventOf(r, attrs), verdict))
  {
    var ks := KoSteps(ProgOf(names, flat), r, Always(verdict));
    var gs := Take32(GoSteps(flat, EventOf(r, attrs), verdict));
    forall i | 0 <= i < |ks| ensures ks[i] == gs[i] {
      StepsAgree(flat[i], r, attrs, verdict);
    }
    assert ks == gs;
  }

  // A changing cache

  /** Every lookup found nothing or the given mask. */
  predicate LookupsOf(ls: Lookups, mask: u64) {
    forall i | 0 <= i < 32 && ls[i].Some? :: ls[i].value == mask
  }

  /** Kernel walk under a changing cache: whatever pattern of present and absent
      entries its lookups meet, the kernel decides as it does with all entries
      present, or is undecided; never another filter and never a wrong drop. */
  lemma ChangingCache(enabled: bool, prog: Option<Prog>, r: Raw, ls: Lookups, mask: u64)
    requires LookupsOf(ls, mask)
    ensures var d := KoDecision(enabled, prog, r, ls);
            d == UNDECIDED || d == KoDecision(enabled, prog, r, Always(Some(mask)))
  {
    if enabled && prog.Some? && prog.value.nfilters > 0 {
      var ks, all := KoSteps(prog.value, r, ls), KoSteps(prog.value, r, Always(Some(mask)));
      assert forall i | 0 <= i < |ks| :: StepLess(ks[i], all[i]);
      WalkLess(ks, all, True, True);
    }
  }

  // The cut at 32 slots

  predicate UserspaceEndAt(flat: seq<Pred>, q: nat)
    requires q < |flat|
  {
    flat[q].kind == PRED_END && flat[q].b == 1
  }

  /** The kernel's copy holds everything up to the first userspace END marker,
      or everything there is. */
  predicate CopySuffices(flat: seq<Pred>) {
    |flat| <= 32 || exists q :: 0 <= q < 32 && UserspaceEndAt(flat, q)
  }

  /** A walk never gets past a userspace END marker. */
  lemma {:induction false} WalkStops(ss: seq<Step>, q: nat, n: nat, res: Tri)
    requires q < n <= |ss| && ss[q].End? && ss[q].userspace
    ensures Walk(ss, res) == Walk(ss[..n], res)
  {
    assert ss[..n][0] == ss[0] && ss[..n][1..] == ss[1..][..n - 1];
    if q > 0 {
      match ss[0]
      case Test(t) => WalkStops(ss[1..], q - 1, n - 1, TriAnd(res, t));
      case End(_, userspace) => if !userspace && res == False { WalkStops(ss[1..], q - 1, n - 1, True); }
      case Bad =>
    }
  }

  /** Entries before the first userspace END marker, from filter `k` on. */
  function RunLength(preds: seq<seq<Pred>>, userspace: seq<bool>, k: nat): nat
    requires |preds| == |userspace| && k <= |preds|
    decreases |preds| - k
  {
    if k == |preds| || userspace[k] then 0 else |preds[k]| + 1 + RunLength(preds, userspace, k + 1)
  }

  /** Entries of all pushed-down filters from `k` on. */
  function PushedEntries(preds: seq<seq<Pred>>, userspace: seq<bool>, k: nat): nat
    requires |preds| == |userspace| && k <= |preds|
    decreases |preds| - k
  {
    if k == |preds| then 0
    else (if userspace[k] then 0 else |preds[k]| + 1) + PushedEntries(preds, userspace, k + 1)
  }

  /** A set as `Compile` lays it out: userspace filters have no predicates. */
  ghost predicate Bare(preds: seq<seq<Pred>>, userspace: seq<bool>) {
    Laid(preds, userspace) && forall i | 0 <= i < |preds| && userspace[i] :: preds[i] == []
  }

  lemma {:induction false} RunOfPushed(preds: seq<seq<Pred>>, userspace: seq<bool>, k: nat)
    requires Bare(preds, userspace) && k <= |preds|
    ensures RunLength(preds, userspace, k) <= PushedEntries(preds, userspace, k)
    decreases |preds| - k
  {
    if k < |preds| { RunOfPushed(preds, userspace, k + 1); }
  }

  /** The run is followed by a userspace END marker or by nothing, holds no
      such marker itself, and ends at an END marker. */
  lemma {:induction false} RunShape(preds: seq<seq<Pred>>, userspace: seq<bool>, k: nat)
    requires Bare(preds, userspace) && k <= |preds|
    ensures var flat, n := Layout(preds, userspace, k), RunLength(preds, userspace, k);
            n <= |flat| && (n < |flat| ==> UserspaceEndAt(flat, n)) &&
            (n > 0 ==> flat[n - 1].kind == PRED_END) &&
            forall i | 0 <= i < n :: !UserspaceEndAt(flat, i)
    decreases |preds| - k
  {
    if k < |preds| && !userspace[k] {
      RunShape(preds, userspace, k + 1);
      var flat, n := Layout(preds, userspace, k), RunLength(preds, userspace, k);
      var m := |preds[k]| + 1;
      assert flat[m..] == Layout(preds, userspace, k + 1);
      assert flat[m - 1] == EndPred(k, false);
      forall i | 0 <= i < n ensures !UserspaceEndAt(flat, i) {
        if i < m - 1 {
          assert flat[i] == preds[k][i] && IsTest(preds[k][i]);
        } else if i >= m {
          assert flat[i] == flat[m..][i - m] && !UserspaceEndAt(flat[m..], i - m);
        }
      }
      if n > m { assert flat[n - 1] == flat[m..][n - m - 1]; }
      if n < |flat| { assert flat[n] == flat[m..][n - m]; }
    }
  }

  lemma SizeStep(tx: Text, cfg: seq<Config>, s: FilterSet, k: nat)
    requires IsCompiled(tx, cfg, s) && k < |cfg|
    ensures PushedSize(tx, cfg, k + 1) == PushedSize(tx, cfg, k) + if s.userspace[k] then 0 else |s.preds[k]| + 1
  {
    var t := FinalTable(tx, cfg);
    assert s.preds[k] == PredsOf(tx, ExprOf(cfg[k]), t);
  }

  function Sizes(tx: Text, cfg: seq<Config>, n: nat): (sizes: seq<nat>)
    requires n <= |cfg|
    ensures |sizes| == n + 1 && forall i | 0 <= i <= n :: sizes[i] == PushedSize(tx, cfg, i)
  {
    seq(n + 1, i requires 0 <= i <= n => PushedSize(tx, cfg, i))
  }

  /** `sizes` grows by the entries of each pushed-down filter. */
  predicate Grows(preds: seq<seq<Pred>>, userspace: seq<bool>, sizes: seq<nat>, i: nat)
    requires i < |preds| == |userspace| && |sizes| == |preds| + 1
  {
    sizes[i + 1] == sizes[i] + if userspace[i] then 0 else |preds[i]| + 1
  }

  lemma SizesGrow(tx: Text, cfg: seq<Config>, s: FilterSet, i: nat)
    requires IsCompiled(tx, cfg, s) && i < |cfg|
    ensures Grows(s.preds, s.userspace, Sizes(tx, cfg, |cfg|), i)
  {
    SizeStep(tx, cfg, s, i);
  }

  lemma {:induction false} EntriesSum(preds: seq<seq<Pred>>, userspace: seq<bool>, sizes: seq<nat>, k: nat)
    requires |preds| == |userspace| && |sizes| == |preds| + 1 && k <= |preds|
    requires forall i | 0 <= i < |preds| :: Grows(preds, userspace, sizes, i)
    ensures sizes[k] + PushedEntries(preds, userspace, k) == sizes[|preds|]
    decreases |preds| - k
  {
    if k < |preds| {
      assert Grows(preds, userspace, sizes, k);
      EntriesSum(preds, userspace, sizes, k + 1);
    }
  }

  /** The entries of the pushed-down filters are what `Compile` counts against the limit. */
  lemma EntriesAreSize(tx: Text, cfg: seq<Config>, s: FilterSet)
    requires IsCompiled(tx, cfg, s)
    ensures PushedEntries(s.preds, s.userspace, 0) == PushedSize(tx, cfg, |cfg|)
  {
    var sizes := Sizes(tx, cfg, |cfg|);
    forall i | 0 <= i < |s.preds| ensures Grows(s.preds, s.userspace, sizes, i) {
      SizesGrow(tx, cfg, s, i);
    }
    EntriesSum(s.preds, s.userspace, sizes, 0);
  }

  lemma CompiledIsBare(tx: Text, cfg: seq<Config>, s: FilterSet)
    requires IsCompiled(tx, cfg, s)
    ensures Bare(s.preds, s.userspace)
  {
    CompiledIsLaid(tx, cfg, s);
    forall i | 0 <= i < |s.preds| && s.userspace[i] ensures s.preds[i] == [] {
      assert s.preds[i] == PredsOf(tx, ExprOf(cfg[i]), FinalTable(tx, cfg));
    }
  }

  lemma RunFits(tx: Text, cfg: seq<Config>, s: FilterSet)
    requires Acceptable(tx, cfg) && IsCompiled(tx, cfg, s)
    ensures Bare(s.preds, s.userspace) && RunLength(s.preds, s.userspace, 0) <= 32
  {
    CompiledIsBare(tx, cfg, s);
    RunOfPushed(s.preds, s.userspace, 0);
    EntriesAreSize(tx, cfg, s);
  }

  /** The copy falls short only when pushed-down filters fill all 32 slots and a
      userspace END marker comes right behind them. */
  lemma ShortCopy(preds: seq<seq<Pred>>, userspace: seq<bool>, flat: seq<Pred>)
    requires Bare(preds, userspace) && RunLength(preds, userspace, 0) <= 32
    requires flat == Layout(preds, userspace, 0) && !CopySuffices(flat)
    ensures |flat| > 32 && UserspaceEndAt(flat, 32) && flat[31].kind == PRED_END
    ensures RunLength(preds, userspace, 0) == 32
  {
    RunShape(preds, userspace, 0);
    var n := RunLength(preds, userspace, 0);
    assert UserspaceEndAt(flat, n);
  }

  /** The first userspace filter from `k` on. */
  function FirstUserspace(userspace: seq<bool>, k: nat): (m: nat)
    requires k <= |userspace|
    ensures k <= m <= |userspace| && (m < |userspace| ==> userspace[m])
    ensures forall j | k <= j < m :: !userspace[j]
    decreases |userspace| - k
  {
    if k == |userspace| || userspace[k] then k else FirstUserspace(userspace, k + 1)
  }

  /** The run before the first userspace END marker is the layout of the filters
      before the first userspace one. */
  lemma {:induction false} RunIsLayout(preds: seq<seq<Pred>>, userspace: seq<bool>, k: nat, m: nat)
    requires Bare(preds, userspace) && k <= |preds| && m == FirstUserspace(userspace, k)
    ensures var n := RunLength(preds, userspace, k);
            n <= |Layout(preds, userspace, k)| &&
            Layout(preds, userspace, k)[..n] == Layout(preds[..m], userspace[..m], k)
    decreases |preds| - k
  {
    if k < |preds| && !userspace[k] {
      RunIsLayout(preds, userspace, k + 1, m);
      var n := RunLength(preds, userspace, k + 1);
      var head := preds[k] + [EndPred(k, false)];
      var rest := Layout(preds, userspace, k + 1);
      assert Layout(preds, userspace, k) == head + rest;
      assert (head + rest)[..|head| + n] == head + rest[..n];
      assert Layout(preds[..m], userspace[..m], k) == head + Layout(preds[..m], userspace[..m], k + 1);
    }
  }

  /** A stream of pushed-down filters alone is dropped iff all of them are false. */
  lemma DropMeansClosed(preds: seq<seq<Pred>>, userspace: seq<bool>, m: nat, ev: Event, verdict: Option<u64>)
    requires Laid(preds, userspace) && m <= |preds|
    ensures GoDecision(Layout(preds[..m], userspace[..m], 0), ev, verdict) == DROP
       <==> forall j | 0 <= j < m :: Closed(preds, userspace, j, ev, verdict)
  {
    var ps, us := preds[..m], userspace[..m];
    var i := WalkLayout(ps, us, 0, ev, verdict);
    forall j | 0 <= j < m ensures Closed(ps, us, j, ev, verdict) == Closed(preds, userspace, j, ev, verdict) {
    }
  }

  /** Truncation theorem: the walk of the 32-slot copy decides as the walk of
      the full stream, except exactly when the copy falls short of a userspace
      filter and every filter before it is false; then the kernel drops what
      the full stream leaves undecided. */
  lemma TruncationExact(tx: Text, cfg: seq<Config>, s: FilterSet, ev: Event, verdict: Option<u64>)
    requires Acceptable(tx, cfg) && IsCompiled(tx, cfg, s)
    ensures Laid(s.preds, s.userspace)
    ensures var steps := GoSteps(s.flat, ev, verdict);
            var full, cut := Walk(steps, True), Walk(Take32(steps), True);
            (cut != full <==>
              !CopySuffices(s.flat) &&
              forall j | 0 <= j < FirstUserspace(s.userspace, 0) :: Closed(s.preds, s.userspace, j, ev, verdict)) &&
            (cut != full ==> cut == DROP && full == UNDECIDED)
  {
    RunFits(tx, cfg, s);
    EndIndices(tx, cfg, s);
    CutExact(s.preds, s.userspace, s.flat, ev, verdict);
  }

  lemma CutExact(preds: seq<seq<Pred>>, userspace: seq<bool>, flat: seq<Pred>, ev: Event, verdict: Option<u64>)
    requires Bare(preds, userspace) && RunLength(preds, userspace, 0) <= 32 && flat == Layout(preds, userspace, 0)
    requires forall i | 0 <= i < |flat| :: EndEntryOk(flat[i])
    ensures var steps := GoSteps(flat, ev, verdict);
            var full, cut := Walk(steps, True), Walk(Take32(steps), True);
            (cut != full <==>
              !CopySuffices(flat) &&
              forall j | 0 <= j < FirstUserspace(userspace, 0) :: Closed(preds, userspace, j, ev, verdict)) &&
            (cut != full ==> cut == DROP && full == UNDECIDED)
  {
    var steps := GoSteps(flat, ev, verdict);
    if |flat| > 32 {
      if CopySuffices(flat) {
        var q :| 0 <= q < 32 && UserspaceEndAt(flat, q);
        WalkStops(steps, q, 32, True);
      } else {
        var m := FirstUserspace(userspace, 0);
        ShortCopy(preds, userspace, flat);
        RunIsLayout(preds, userspace, 0, m);
        DropMeansClosed(preds, userspace, m, ev, verdict);
        var head, tail := steps[..32], steps[32..];
        assert head == GoSteps(flat[..32], ev, verdict);
        assert steps == head + tail;
        assert forall i | 0 <= i < 32 :: head[i] == GoStep(flat[i], ev, verdict);
        WalkPrefix(head, tail, True);
        assert tail[0] == GoStep(flat[32], ev, verdict);
      }
    }
  }

  /** An END marker carries a filter index and a flag. */
  predicate EndEntryOk(p: Pred) {
    p.kind == PRED_END ==> p.a < 32 && p.b <= 1
  }

  lemma EndIndices(tx: Text, cfg: seq<Config>, s: FilterSet)
    requires IsCompiled(tx, cfg, s)
    ensures forall i | 0 <= i < |s.flat| :: EndEntryOk(s.flat[i])
  {
    CompiledIsLaid(tx, cfg, s);
    LayoutEnds(s.preds, s.userspace, 0);
  }

  lemma {:induction false} LayoutEnds(preds: seq<seq<Pred>>, userspace: seq<bool>, k: nat)
    requires Laid(preds, userspace) && k <= |preds|
    ensures forall i | 0 <= i < |Layout(preds, userspace, k)| :: EndEntryOk(Layout(preds, userspace, k)[i])
    decreases |preds| - k
  {
    if k < |preds| {
      LayoutEnds(preds, userspace, k + 1);
      forall i | 0 <= i < |preds[k]| ensures EndEntryOk(preds[k][i]) {
        assert IsTest(preds[k][i]);
      }
      assert EndEntryOk(EndPred(k, userspace[k]));
    }
  }

  // The kernel against `Evaluate`

  /** All prefixes of the set have whole-byte lengths, or are mapped and match nothing. */
  predicate WordsSafe(flat: seq<Pred>) {
    forall i | 0 <= i < |flat| && flat[i].kind == PRED_IPSET ::
      forall j | 0 <= j < flat[i].n :: WordSafe(flat[i].slots[j])
  }

  lemma CompiledEntriesOk(tx: Text, cfg: seq<Config>, s: FilterSet)
    requires IsCompiled(tx, cfg, s) && WordsSafe(s.flat)
    ensures EntriesOk(s.flat)
  {
    forall k | 0 <= k < |s.preds|, i | 0 <= i < |s.preds[k]| ensures IpEntryOk(s.preds[k][i]) {
      assert s.preds[k] == PredsOf(tx, ExprOf(cfg[k]), FinalTable(tx, cfg));
      LoweredIpOk(tx, ExprOf(cfg[k]), false, i);
    }
    EndIndices(tx, cfg, s);
    LayoutIp(s.preds, s.userspace, 0);
  }

  predicate IpEntryOk(p: Pred) {
    p.kind == PRED_IPSET ==> p.a <= 1 && forall i | 0 <= i < p.n :: SlotOk(p.slots[i])
  }

  predicate SymIpOk(s: Sym) {
    s.SymIp? ==> s.which <= 1 && forall j | 0 <= j < s.n :: SlotOk(s.slots[j])
  }

  lemma IpInOk(tx: Text, l: Expr, r: Expr, neg: bool)
    requires LowerIpIn(tx, l, r, neg).Some?
    ensures SymIpOk(LowerIpIn(tx, l, r, neg).value[0])
  {
    var slots := CidrSlots(tx, StringList(r).value);
    forall j | 0 <= j < |StringList(r).value| ensures SlotOk(slots[j]) {
      assert slots[j] == PrefixSlot(tx.cidr(StringList(r).value[j]).value);
    }
  }

  lemma {:induction false} LoweredIpOk(tx: Text, e: Expr, neg: bool, i: nat)
    requires Lower(tx, e, neg).Some? && i < |Lower(tx, e, neg).value|
    ensures SymIpOk(Lower(tx, e, neg).value[i])
  {
    match e
    case And(l, r) =>
      var n := |Lower(tx, l, false).value|;
      if i < n { LoweredIpOk(tx, l, false, i); } else { LoweredIpOk(tx, r, false, i - n); }
    case Not(x) => LoweredIpOk(tx, x, !neg, i);
    case IpIn(l, r) => IpInOk(tx, l, r, neg);
    case _ =>
  }

  lemma {:induction false} LayoutIp(preds: seq<seq<Pred>>, userspace: seq<bool>, k: nat)
    requires |preds| == |userspace| <= MAX_FILTERS && k <= |preds|
    requires forall m | 0 <= m < |preds|, i | 0 <= i < |preds[m]| :: IpEntryOk(preds[m][i])
    ensures forall i | 0 <= i < |Layout(preds, userspace, k)| :: IpEntryOk(Layout(preds, userspace, k)[i])
    decreases |preds| - k
  {
    if k < |preds| { LayoutIp(preds, userspace, k + 1); }
  }

  /** Everything that the kernel's decision needs: a compiled well-formed set with
      byte-aligned prefixes that fits its copy. */
  ghost predicate KernelOk(tx: Text, cfg: seq<Config>, s: FilterSet) {
    TextOk(tx) && SetOk(HookEvent, tx, cfg, s) && WordsSafe(s.flat) && CopySuffices(s.flat)
  }

  /** The kernel filter answers as `Evaluate` on the cgroup's attributes, or
      leaves the event to userspace, whatever its lookups find of them. */
  lemma KernelCorrect(tx: Text, cfg: seq<Config>, s: FilterSet, r: Raw, attrs: CgroupAttrs, ls: Lookups)
    requires KernelOk(tx, cfg, s) && RawOk(r) && LookupsOf(ls, Mask(s.atoms, attrs))
    ensures Agrees(tx, s, EventOf(r, attrs), KoDecision(true, Some(ProgOf(s.names, s.flat)), r, ls))
  {
    var ev := EventOf(r, attrs);
    var mask := Mask(s.atoms, attrs);
    CompiledEntriesOk(tx, cfg, s);
    ChangingCache(true, Some(ProgOf(s.names, s.flat)), r, ls, mask);
    VmsAgree(s.names, s.flat, r, attrs, Some(mask));
    TruncationExact(tx, cfg, s, ev, Some(mask));
    KnownVerdict(HookEvent, tx, cfg, s, ev);
  }

  /** On the event, CEL rejects every filter before `k`, the first userspace one. */
  predicate ReachesAt(tx: Text, s: FilterSet, ev: Event, k: nat)
    requires |s.userspace| == |s.exprs|
  {
    k < |s.userspace| && s.userspace[k] && forall j | 0 <= j < k :: !s.userspace[j] && !Holds(tx, s.exprs[j], ev)
  }

  predicate ReachesUserspace(tx: Text, s: FilterSet, ev: Event)
    requires |s.userspace| == |s.exprs|
  {
    exists k :: 0 <= k < |s.userspace| && ReachesAt(tx, s, ev, k)
  }

  /** The stream is undecided at a userspace filter when all before it are false. */
  lemma WalkReaches(preds: seq<seq<Pred>>, userspace: seq<bool>, k: nat, ev: Event, verdict: Option<u64>)
    requires Laid(preds, userspace) && k < |preds| && userspace[k]
    requires forall j | 0 <= j < k :: Closed(preds, userspace, j, ev, verdict)
    ensures GoDecision(Layout(preds, userspace, 0), ev, verdict) == UNDECIDED
  {
    var i := WalkLayout(preds, userspace, 0, ev, verdict);
    assert !Closed(preds, userspace, k, ev, verdict);
    assert i == k;
  }

  lemma ReachesIsUndecided(sc: Scope, tx: Text, cfg: seq<Config>, s: FilterSet, ev: Event, k: nat)
    requires TextOk(tx) && SetOk(sc, tx, cfg, s) && EventOk(sc, ev)
    requires |s.userspace| == |s.exprs| && ReachesAt(tx, s, ev, k)
    ensures GoDecision(s.flat, ev, Some(Mask(s.atoms, ev.attrs))) == UNDECIDED
  {
    CompiledIsLaid(tx, cfg, s);
    var v := Some(Mask(s.atoms, ev.attrs));
    forall j | 0 <= j < k ensures Closed(s.preds, s.userspace, j, ev, v) {
      FilterMeaning(sc, tx, cfg, s, j, ev);
    }
    WalkReaches(s.preds, s.userspace, k, ev, v);
  }

  lemma UndecidedReaches(sc: Scope, tx: Text, cfg: seq<Config>, s: FilterSet, ev: Event)
    requires TextOk(tx) && SetOk(sc, tx, cfg, s) && EventOk(sc, ev)
    requires GoDecision(s.flat, ev, Some(Mask(s.atoms, ev.attrs))) == UNDECIDED
    ensures |s.userspace| == |s.exprs| && ReachesUserspace(tx, s, ev)
  {
    var v := Some(Mask(s.atoms, ev.attrs));
    KnownVerdict(sc, tx, cfg, s, ev);
    var k: nat :| FirstOpen(s.preds, s.userspace, 0, k, ev, v) && s.userspace[k];
    forall j | 0 <= j < k ensures !s.userspace[j] && !Holds(tx, s.exprs[j], ev) {
      assert Closed(s.preds, s.userspace, j, ev, v);
      ClosedMeansFalse(sc, tx, cfg, s, j, ev);
    }
    assert ReachesAt(tx, s, ev, k);
  }

  /** With a known verdict, the stream is undecided iff CEL gets to a userspace filter. */
  lemma UndecidedExact(sc: Scope, tx: Text, cfg: seq<Config>, s: FilterSet, ev: Event)
    requires TextOk(tx) && SetOk(sc, tx, cfg, s) && EventOk(sc, ev)
    ensures |s.userspace| == |s.exprs|
    ensures GoDecision(s.flat, ev, Some(Mask(s.atoms, ev.attrs))) == UNDECIDED <==> ReachesUserspace(tx, s, ev)
  {
    if GoDecision(s.flat, ev, Some(Mask(s.atoms, ev.attrs))) == UNDECIDED {
      UndecidedReaches(sc, tx, cfg, s, ev);
    }
    if ReachesUserspace(tx, s, ev) {
      var k :| 0 <= k < |s.userspace| && ReachesAt(tx, s, ev, k);
      ReachesIsUndecided(sc, tx, cfg, s, ev, k);
    }
  }

  /** With the cgroup's verdict in the cache the kernel decides every event itself,
      as `Evaluate` does, except exactly those on which CEL gets to a userspace filter. */
  lemma KernelExact(tx: Text, cfg: seq<Config>, s: FilterSet, r: Raw, attrs: CgroupAttrs)
    requires KernelOk(tx, cfg, s) && RawOk(r)
    ensures |s.userspace| == |s.exprs|
    ensures var (ev, answer) := (EventOf(r, attrs), Evaluate(tx, s.exprs, EventOf(r, attrs), 0));
            KoDecision(true, Some(ProgOf(s.names, s.flat)), r, Always(Some(Mask(s.atoms, attrs)))) as int ==
              if ReachesUserspace(tx, s, ev) then UNDECIDED else if answer.Some? then answer.value else DROP
  {
    var mask, ev := Mask(s.atoms, attrs), EventOf(r, attrs);
    CompiledEntriesOk(tx, cfg, s);
    VmsAgree(s.names, s.flat, r, attrs, Some(mask));
    TruncationExact(tx, cfg, s, ev, Some(mask));
    KnownVerdict(HookEvent, tx, cfg, s, ev);
    UndecidedExact(HookEvent, tx, cfg, s, ev);
  }

  /** Why the cache must be coherent: the verdict of other attributes is harmless
      on an event iff, with those attributes, CEL gets to a userspace filter, so
      that the event is left to userspace, or `Evaluate` answers alike on both. */
  lemma StaleVerdictExact(tx: Text, cfg: seq<Config>, s: FilterSet, r: Raw,
                          stale: CgroupAttrs, attrs: CgroupAttrs)
    requires KernelOk(tx, cfg, s) && RawOk(r)
    ensures |s.userspace| == |s.exprs|
    ensures Agrees(tx, s, EventOf(r, attrs),
                   KoDecision(true, Some(ProgOf(s.names, s.flat)), r, Always(Some(Mask(s.atoms, stale)))))
       <==> ReachesUserspace(tx, s, EventOf(r, stale)) ||
            Evaluate(tx, s.exprs, EventOf(r, stale), 0) == Evaluate(tx, s.exprs, EventOf(r, attrs), 0)
  {
    var mask, ev := Mask(s.atoms, stale), EventOf(r, stale);
    CompiledEntriesOk(tx, cfg, s);
    VmsAgree(s.names, s.flat, r, stale, Some(mask));
    TruncationExact(tx, cfg, s, ev, Some(mask));
    KnownVerdict(HookEvent, tx, cfg, s, ev);
    UndecidedExact(HookEvent, tx, cfg, s, ev);
  }
}
