/** The decision of the flat stream against `Evaluate`: first match, drop, undecided. */
module FirstMatch {
  import opened Bits
  import opened Addresses
  import opened Events
  import opened Cel
  import opened Program
  import opened GoVm
  import opened Lowering
  import opened Interning
  import opened Compiler
  import opened Filters
  import opened CompilerCorrectness

  predicate IsTest(p: Pred) {
    p.kind == PRED_CMP || p.kind == PRED_IPSET || p.kind == PRED_ATTR
  }

  predicate AllTests(ps: seq<Pred>) {
    forall i | 0 <= i < |ps| :: IsTest(ps[i])
  }

  function TestResults(ps: seq<Pred>, ev: Event, verdict: Option<u64>): (ts: seq<Tri>)
    requires AllTests(ps)
    ensures |ts| == |ps| && forall i | 0 <= i < |ps| :: Test(ts[i]) == GoStep(ps[i], ev, verdict)
  {
    seq(|ps|, i requires 0 <= i < |ps| => GoStep(ps[i], ev, verdict).t)
  }

  /** Three-valued truth of one filter's predicates. */
  function FilterTri(ps: seq<Pred>, ev: Event, verdict: Option<u64>): Tri
    requires AllTests(ps)
  {
    Conjunction(TestResults(ps, ev, verdict), True)
  }

  /** A configuration, its compiled set, and the conditions under which the
      compiled stream means what CEL says on the events of a scope. */
  ghost predicate SetOk(sc: Scope, tx: Text, cfg: seq<Config>, s: FilterSet) {
    Acceptable(tx, cfg) && IsCompiled(tx, cfg, s) &&
    (forall i | 0 <= i < |cfg| && !s.userspace[i] :: WellFormed(sc, tx, s.exprs[i], false)) &&
    NoClash(AllRequests(tx, cfg, |cfg|), TestAtoms(tx, cfg))
  }

  /** The part of a filter set that the walk depends on. */
  ghost predicate Laid(preds: seq<seq<Pred>>, userspace: seq<bool>) {
    |preds| == |userspace| <= MAX_FILTERS && forall i | 0 <= i < |preds| :: AllTests(preds[i])
  }

  lemma CompiledIsLaid(tx: Text, cfg: seq<Config>, s: FilterSet)
    requires IsCompiled(tx, cfg, s)
    ensures Laid(s.preds, s.userspace)
  {
    forall i | 0 <= i < |s.preds| ensures AllTests(s.preds[i]) {
      assert s.preds[i] == PredsOf(tx, ExprOf(cfg[i]), FinalTable(tx, cfg));
    }
  }

  /** Filter `i` is proven false. */
  predicate Closed(preds: seq<seq<Pred>>, userspace: seq<bool>, i: nat, ev: Event, verdict: Option<u64>)
    requires i < |preds| == |userspace| && AllTests(preds[i])
  {
    !userspace[i] && FilterTri(preds[i], ev, verdict) == False
  }

  /** Filter `i` is the first from `k` on that is not proven false. */
  predicate FirstOpen(preds: seq<seq<Pred>>, userspace: seq<bool>, k: nat, i: nat, ev: Event, verdict: Option<u64>)
    requires |preds| == |userspace| && forall j | 0 <= j < |preds| :: AllTests(preds[j])
  {
    k <= i < |preds| && !Closed(preds, userspace, i, ev, verdict) &&
    forall j | k <= j < i :: Closed(preds, userspace, j, ev, verdict)
  }

  lemma GoStepsConcat(a: seq<Pred>, b: seq<Pred>, ev: Event, verdict: Option<u64>)
    ensures GoSteps(a + b, ev, verdict) == GoSteps(a, ev, verdict) + GoSteps(b, ev, verdict)
  {
  }

  lemma StepsOfLayout(preds: seq<seq<Pred>>, userspace: seq<bool>, k: nat, ev: Event, verdict: Option<u64>)
    requires Laid(preds, userspace) && k < |preds|
    ensures GoSteps(Layout(preds, userspace, k), ev, verdict) ==
            Tests(TestResults(preds[k], ev, verdict)) +
            ([End(k, userspace[k])] + GoSteps(Layout(preds, userspace, k + 1), ev, verdict))
  {
    var end, rest := EndPred(k, userspace[k]), Layout(preds, userspace, k + 1);
    assert Layout(preds, userspace, k) == preds[k] + ([end] + rest);
    GoStepsConcat(preds[k], [end] + rest, ev, verdict);
    GoStepsConcat([end], rest, ev, verdict);
    assert GoSteps(preds[k], ev, verdict) == Tests(TestResults(preds[k], ev, verdict));
    assert GoSteps([end], ev, verdict) == [End(k, userspace[k])];
  }

  /** One filter of the layout: its conjunction meets its END marker. */
  lemma WalkFilter(preds: seq<seq<Pred>>, userspace: seq<bool>, k: nat, ev: Event, verdict: Option<u64>)
    requires Laid(preds, userspace) && k < |preds|
    ensures GoDecision(Layout(preds, userspace, k), ev, verdict) ==
            if userspace[k] then UNDECIDED
            else match FilterTri(preds[k], ev, verdict)
              case True => k as u16
              case Unknown => UNDECIDED
              case False => GoDecision(Layout(preds, userspace, k + 1), ev, verdict)
  {
    StepsOfLayout(preds, userspace, k, ev, verdict);
    var rest := GoSteps(Layout(preds, userspace, k + 1), ev, verdict);
    var tail := [End(k, userspace[k])] + rest;
    WalkTests(TestResults(preds[k], ev, verdict), tail, True);
    assert tail[1..] == rest;
  }

  /** The flat stream decides as the first filter that is not proven false:
      its index if it is true, UNDECIDED if it is userspace or unknown, and DROP
      if every filter is proven false. */
  lemma {:induction false} WalkLayout(preds: seq<seq<Pred>>, userspace: seq<bool>, k: nat,
                                      ev: Event, verdict: Option<u64>)
    returns (i: nat)
    requires Laid(preds, userspace) && k <= |preds|
    ensures var d := GoDecision(Layout(preds, userspace, k), ev, verdict);
            if d == DROP then forall j | k <= j < |preds| :: Closed(preds, userspace, j, ev, verdict)
            else FirstOpen(preds, userspace, k, i, ev, verdict) &&
                 if d == UNDECIDED then userspace[i] || FilterTri(preds[i], ev, verdict) == Unknown
                 else d == i && !userspace[i] && FilterTri(preds[i], ev, verdict) == True
    decreases |preds| - k
  {
    i := k;
    if k < |preds| {
      WalkFilter(preds, userspace, k, ev, verdict);
      if Closed(preds, userspace, k, ev, verdict) {
        i := WalkLayout(preds, userspace, k + 1, ev, verdict);
      }
    }
  }

  /** With the verdict of the event's attributes, the predicates of a pushed-down
      well-formed filter are true or false exactly as its CEL expression. */
  lemma FilterMeaning(sc: Scope, tx: Text, cfg: seq<Config>, s: FilterSet, i: nat, ev: Event)
    requires TextOk(tx) && SetOk(sc, tx, cfg, s) && EventOk(sc, ev) && i < |cfg| && !s.userspace[i]
    ensures AllTests(s.preds[i])
    ensures FilterTri(s.preds[i], ev, Some(Mask(s.atoms, ev.attrs))) == Truth(Holds(tx, s.exprs[i], ev))
  {
    CompiledIsLaid(tx, cfg, s);
    var t := FinalTable(tx, cfg);
    var syms := Lower(tx, s.exprs[i], false).value;
    var ts := TestResults(s.preds[i], ev, Some(Mask(s.atoms, ev.attrs)));
    forall k | 0 <= k < |syms| ensures ts[k] == Truth(SymHolds(syms[k], ev)) {
      if syms[k].SymAttr? { DecidedInSet(tx, cfg, i, syms, k); }
      ResolveCorrect(t, syms[k], ev);
    }
    ConjunctionMeaning(ts, True);
    LowerCorrect(sc, tx, s.exprs[i], false, ev);
  }

  /** Without clashes, every attribute test of the set is decided rightly. */
  lemma DecidedInSet(tx: Text, cfg: seq<Config>, i: nat, syms: seq<Sym>, k: nat)
    requires i < |cfg| && Lower(tx, ExprOf(cfg[i]), false) == Some(syms)
    requires k < |syms| && syms[k].SymAttr?
    requires NoClash(AllRequests(tx, cfg, |cfg|), TestAtoms(tx, cfg))
    ensures DecidedRight(FinalTable(tx, cfg), syms[k].atom)
  {
    TestsDecided(tx, cfg);
    AtomsOfHas(syms, k);
    assert syms[k].atom in PushedAtoms(tx, ExprOf(cfg[i]));
  }

  /** Losing the verdict loses information only. */
  lemma NoVerdictLess(flat: seq<Pred>, ev: Event, mask: u64)
    ensures GoDecision(flat, ev, None) == GoDecision(flat, ev, Some(mask)) ||
            GoDecision(flat, ev, None) == UNDECIDED
  {
    WalkLess(GoSteps(flat, ev, None), GoSteps(flat, ev, Some(mask)), True, True);
  }

  /** What a decision says about `Evaluate`: an index is its answer, DROP is no match. */
  predicate Agrees(tx: Text, s: FilterSet, ev: Event, d: u16) {
    if d == DROP then Evaluate(tx, s.exprs, ev, 0) == None
    else d == UNDECIDED || (d as int < |s.exprs| && Evaluate(tx, s.exprs, ev, 0) == Some(d as nat))
  }

  /** The filter `i` that a known verdict leaves first open, and what CEL says up to it. */
  lemma ClosedMeansFalse(sc: Scope, tx: Text, cfg: seq<Config>, s: FilterSet, i: nat, ev: Event)
    requires TextOk(tx) && SetOk(sc, tx, cfg, s) && EventOk(sc, ev) && i < |cfg| && Laid(s.preds, s.userspace)
    requires Closed(s.preds, s.userspace, i, ev, Some(Mask(s.atoms, ev.attrs)))
    ensures !Holds(tx, s.exprs[i], ev)
  {
    FilterMeaning(sc, tx, cfg, s, i, ev);
  }

  lemma KnownVerdict(sc: Scope, tx: Text, cfg: seq<Config>, s: FilterSet, ev: Event)
    requires TextOk(tx) && SetOk(sc, tx, cfg, s) && EventOk(sc, ev)
    ensures Agrees(tx, s, ev, GoDecision(s.flat, ev, Some(Mask(s.atoms, ev.attrs))))
    ensures Laid(s.preds, s.userspace)
    ensures GoDecision(s.flat, ev, Some(Mask(s.atoms, ev.attrs))) == UNDECIDED ==>
              exists i: nat ::
                FirstOpen(s.preds, s.userspace, 0, i, ev, Some(Mask(s.atoms, ev.attrs))) && s.userspace[i]
  {
    CompiledIsLaid(tx, cfg, s);
    var v := Some(Mask(s.atoms, ev.attrs));
    var i := WalkLayout(s.preds, s.userspace, 0, ev, v);
    forall j: nat | j < |cfg| && Closed(s.preds, s.userspace, j, ev, v) ensures !Holds(tx, s.exprs[j], ev) {
      ClosedMeansFalse(sc, tx, cfg, s, j, ev);
    }
    var d := GoDecision(s.flat, ev, v);
    if d == DROP {
      forall j | 0 <= j < |cfg| ensures !Holds(tx, s.exprs[j], ev) {
        assert Closed(s.preds, s.userspace, j, ev, v);
      }
      FirstMatchUnique(tx, s.exprs, ev, None);
    } else {
      forall j | 0 <= j < i ensures !Holds(tx, s.exprs[j], ev) {
        assert Closed(s.preds, s.userspace, j, ev, v);
      }
      if !s.userspace[i] {
        FilterMeaning(sc, tx, cfg, s, i, ev);
        FirstMatchUnique(tx, s.exprs, ev, Some(i));
      }
    }
  }

  /** First-match correctness: with the verdict of the event's attributes or
      with none, `RunPreds` answers as `Evaluate`, or is undecided because the
      first filter not proven false is userspace-only or lacks its verdict. */
  lemma FirstMatchCorrect(sc: Scope, tx: Text, cfg: seq<Config>, s: FilterSet, ev: Event, verdict: Option<u64>)
    requires TextOk(tx) && SetOk(sc, tx, cfg, s) && EventOk(sc, ev)
    requires verdict.Some? ==> verdict.value == Mask(s.atoms, ev.attrs)
    ensures Laid(s.preds, s.userspace) && Agrees(tx, s, ev, GoDecision(s.flat, ev, verdict))
    ensures GoDecision(s.flat, ev, verdict) == UNDECIDED ==>
              exists i: nat :: FirstOpen(s.preds, s.userspace, 0, i, ev, verdict) &&
                (s.userspace[i] || (verdict.None? && FilterTri(s.preds[i], ev, verdict) == Unknown))
  {
    KnownVerdict(sc, tx, cfg, s, ev);
    if verdict.None? {
      NoVerdictLess(s.flat, ev, Mask(s.atoms, ev.attrs));
      var i := WalkLayout(s.preds, s.userspace, 0, ev, None);
    }
  }
}
