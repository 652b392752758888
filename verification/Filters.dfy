/** `Compile`: the limits, the shared atom table and the flat layout of a filter set. */
module Filters {
  import opened Bits
  import opened Addresses
  import opened Events
  import opened Cel
  import opened Program
  import opened GoVm
  import opened Lowering
  import opened Interning
  import opened Compiler

  /** A configured filter; `expr` is None when the text does not parse or check. */
  datatype Config = Config(name: string, expr: Option<Expr>)

  datatype FilterSet = FilterSet(
    names: seq<string>, exprs: seq<Expr>, atoms: seq<Atom>,
    preds: seq<seq<Pred>>, userspace: seq<bool>, flat: seq<Pred>)

  datatype CompileError =
    | NoFilters | TooManyFilters
    | EmptyName(i: nat) | DuplicateName(i: nat) | BadExpr(i: nat) | TooLarge(i: nat)
    | TooManyAtoms

  datatype Result = Ok(filters: FilterSet) | Err(error: CompileError)

  // What compiling computes

  /** The expression of a filter that parsed. */
  function ExprOf(c: Config): Expr {
    if c.expr.Some? then c.expr.value else Lit(VErr)
  }

  predicate AllParsed(cfg: seq<Config>, n: nat)
    requires n <= |cfg|
  {
    forall i | 0 <= i < n :: cfg[i].expr.Some?
  }

  /** Stream entries of one filter: those of a pushed-down one, END marker included. */
  function EntryCount(tx: Text, e: Expr): nat {
    match Lower(tx, e, false)
    case Some(syms) => |syms| + 1
    case None => 0
  }

  function EntryCounts(tx: Text, cfg: seq<Config>): (counts: seq<nat>)
    ensures |counts| == |cfg| && forall i | 0 <= i < |cfg| :: counts[i] == EntryCount(tx, ExprOf(cfg[i]))
  {
    seq(|cfg|, i requires 0 <= i < |cfg| => EntryCount(tx, ExprOf(cfg[i])))
  }

  function Sum(counts: seq<nat>, n: nat): nat
    requires n <= |counts|
  {
    if n == 0 then 0 else Sum(counts, n - 1) + counts[n - 1]
  }

  /** Stream entries of the pushed-down filters among the first `n`. */
  function PushedSize(tx: Text, cfg: seq<Config>, n: nat): nat
    requires n <= |cfg|
  {
    Sum(EntryCounts(tx, cfg), n)
  }

  /** The requests of the first `n` filters, pushed down or not. */
  function AllRequests(tx: Text, cfg: seq<Config>, n: nat): seq<Atom>
    requires n <= |cfg|
  {
    if n == 0 then [] else AllRequests(tx, cfg, n - 1) + Requests(tx, ExprOf(cfg[n - 1]), false)
  }

  /** The atoms of a filter that is pushed down. */
  function PushedAtoms(tx: Text, e: Expr): seq<Atom> {
    match Lower(tx, e, false)
    case Some(syms) => AtomsOf(syms)
    case None => []
  }

  /** The atoms of the tests of all pushed-down filters. */
  function TestAtoms(tx: Text, cfg: seq<Config>): set<Atom> {
    set i, a | 0 <= i < |cfg| && a in PushedAtoms(tx, ExprOf(cfg[i])) :: a
  }

  /** The atom table after the first `n` filters. */
  function TableAt(tx: Text, cfg: seq<Config>, n: nat): Table
    requires n <= |cfg|
  {
    if n == 0 then EMPTY else InternAll(TableAt(tx, cfg, n - 1), Requests(tx, ExprOf(cfg[n - 1]), false))
  }

  function FinalTable(tx: Text, cfg: seq<Config>): Table {
    TableAt(tx, cfg, |cfg|)
  }

  lemma {:induction false} TableOfRequests(tx: Text, cfg: seq<Config>, n: nat)
    requires n <= |cfg|
    ensures TableAt(tx, cfg, n) == InternAll(EMPTY, AllRequests(tx, cfg, n))
  {
    if n > 0 {
      TableOfRequests(tx, cfg, n - 1);
      InternAllConcat(EMPTY, AllRequests(tx, cfg, n - 1), Requests(tx, ExprOf(cfg[n - 1]), false));
    }
  }

  function PredsOf(tx: Text, e: Expr, t: Table): seq<Pred> {
    match Lower(tx, e, false)
    case Some(syms) => ResolveAll(syms, t.idx)
    case None => []
  }

  /** The stream of the filters from `i` on. */
  function Layout(preds: seq<seq<Pred>>, userspace: seq<bool>, i: nat): seq<Pred>
    requires |preds| == |userspace| <= MAX_FILTERS && i <= |preds|
    decreases |preds| - i
  {
    if i == |preds| then [] else preds[i] + [EndPred(i, userspace[i])] + Layout(preds, userspace, i + 1)
  }

  ghost predicate IsCompiled(tx: Text, cfg: seq<Config>, s: FilterSet) {
    var n := |cfg|;
    |s.names| == |s.exprs| == |s.preds| == |s.userspace| == n <= MAX_FILTERS && AllParsed(cfg, n) &&
    s.atoms == FinalTable(tx, cfg).atoms &&
    (forall i | 0 <= i < n ::
      s.names[i] == cfg[i].name && s.exprs[i] == ExprOf(cfg[i]) &&
      s.preds[i] == PredsOf(tx, ExprOf(cfg[i]), FinalTable(tx, cfg)) &&
      s.userspace[i] == Lower(tx, ExprOf(cfg[i]), false).None?) &&
    s.flat == Layout(s.preds, s.userspace, 0)
  }

  /** The configurations that are accepted. */
  predicate Acceptable(tx: Text, cfg: seq<Config>) {
    0 < |cfg| <= MAX_FILTERS && AllParsed(cfg, |cfg|) &&
    (forall i | 0 <= i < |cfg| :: cfg[i].name != "") &&
    (forall i, j | 0 <= i < j < |cfg| :: cfg[i].name != cfg[j].name) &&
    PushedSize(tx, cfg, |cfg|) <= MAX_PREDS &&
    |FinalTable(tx, cfg).atoms| <= 64
  }

  predicate Duplicated(cfg: seq<Config>, i: nat)
    requires i < |cfg|
  {
    exists j :: 0 <= j < i && cfg[j].name == cfg[i].name
  }

  /** The error that filter `i` raises when the ones before it raise none. */
  function FilterError(tx: Text, cfg: seq<Config>, i: nat): Option<CompileError>
    requires i < |cfg|
  {
    if cfg[i].name == "" then Some(EmptyName(i))
    else if Duplicated(cfg, i) then Some(DuplicateName(i))
    else if cfg[i].expr.None? then Some(BadExpr(i))
    else if Lower(tx, ExprOf(cfg[i]), false).Some? && PushedSize(tx, cfg, i + 1) > MAX_PREDS then Some(TooLarge(i))
    else None
  }

  /** The first error that the filters from `i` on raise. */
  function FirstError(tx: Text, cfg: seq<Config>, i: nat): Option<CompileError>
    requires i <= |cfg|
    decreases |cfg| - i
  {
    if i == |cfg| then None
    else if FilterError(tx, cfg, i).Some? then FilterError(tx, cfg, i)
    else FirstError(tx, cfg, i + 1)
  }

  function ErrorOf(tx: Text, cfg: seq<Config>): Option<CompileError> {
    if |cfg| == 0 then Some(NoFilters)
    else if |cfg| > MAX_FILTERS then Some(TooManyFilters)
    else if FirstError(tx, cfg, 0).Some? then FirstError(tx, cfg, 0)
    else if |FinalTable(tx, cfg).atoms| > 64 then Some(TooManyAtoms)
    else None
  }

  lemma {:induction false} NoErrorMeansNone(tx: Text, cfg: seq<Config>, i: nat)
    requires i <= |cfg|
    ensures FirstError(tx, cfg, i).None? <==> forall k | i <= k < |cfg| :: FilterError(tx, cfg, k).None?
    decreases |cfg| - i
  {
    if i < |cfg| && FilterError(tx, cfg, i).None? { NoErrorMeansNone(tx, cfg, i + 1); }
  }

  lemma {:induction false} SumMonotone(counts: seq<nat>, m: nat, n: nat)
    requires m <= n <= |counts|
    ensures Sum(counts, m) <= Sum(counts, n)
  {
    if m < n { SumMonotone(counts, m, n - 1); }
  }

  lemma {:induction false} SizeBounded(tx: Text, cfg: seq<Config>, n: nat)
    requires n <= |cfg| && forall k | 0 <= k < n :: FilterError(tx, cfg, k).None?
    ensures PushedSize(tx, cfg, n) <= MAX_PREDS
  {
    if n > 0 {
      assert FilterError(tx, cfg, n - 1).None?;
      SizeBounded(tx, cfg, n - 1);
    }
  }

  lemma NoErrorIsAcceptable(tx: Text, cfg: seq<Config>)
    requires ErrorOf(tx, cfg).None?
    ensures Acceptable(tx, cfg)
  {
    NoErrorMeansNone(tx, cfg, 0);
    SizeBounded(tx, cfg, |cfg|);
    forall j | 0 <= j < |cfg|
      ensures cfg[j].expr.Some? && cfg[j].name != "" && !Duplicated(cfg, j)
    {
      assert FilterError(tx, cfg, j).None?;
    }
  }

  lemma AcceptableFilter(tx: Text, cfg: seq<Config>, k: nat)
    requires Acceptable(tx, cfg) && k < |cfg|
    ensures FilterError(tx, cfg, k).None?
  {
    SumMonotone(EntryCounts(tx, cfg), k + 1, |cfg|);
    assert !Duplicated(cfg, k);
  }

  lemma AcceptableIsNoError(tx: Text, cfg: seq<Config>)
    requires Acceptable(tx, cfg)
    ensures ErrorOf(tx, cfg).None?
  {
    forall k | 0 <= k < |cfg| ensures FilterError(tx, cfg, k).None? {
      AcceptableFilter(tx, cfg, k);
    }
    NoErrorMeansNone(tx, cfg, 0);
  }

  /** A configuration raises no error iff it is acceptable. */
  lemma ErrorExact(tx: Text, cfg: seq<Config>)
    ensures ErrorOf(tx, cfg).None? <==> Acceptable(tx, cfg)
  {
    if ErrorOf(tx, cfg).None? { NoErrorIsAcceptable(tx, cfg); }
    if Acceptable(tx, cfg) { AcceptableIsNoError(tx, cfg); }
  }

  /** The first `i` filters have new names, parse, and fit together. */
  ghost predicate FineBefore(tx: Text, cfg: seq<Config>, i: nat) {
    i <= |cfg| && PushedSize(tx, cfg, i) <= MAX_PREDS && forall k | 0 <= k < i :: NewName(cfg, k) && cfg[k].expr.Some?
  }

  ghost predicate NewName(cfg: seq<Config>, k: nat)
    requires k < |cfg|
  {
    cfg[k].name != "" && forall j | 0 <= j < k :: cfg[j].name != cfg[k].name
  }

  /** The fault that an error stands for, at the first filter that has one. */
  ghost predicate Fault(tx: Text, cfg: seq<Config>, e: CompileError) {
    match e
    case NoFilters => |cfg| == 0
    case TooManyFilters => |cfg| > MAX_FILTERS
    case TooManyAtoms =>
      0 < |cfg| <= MAX_FILTERS && FineBefore(tx, cfg, |cfg|) && |FinalTable(tx, cfg).atoms| > 64
    case EmptyName(i) => i < |cfg| <= MAX_FILTERS && FineBefore(tx, cfg, i) && cfg[i].name == ""
    case DuplicateName(i) =>
      i < |cfg| <= MAX_FILTERS && FineBefore(tx, cfg, i) && cfg[i].name != "" && !NewName(cfg, i)
    case BadExpr(i) => i < |cfg| <= MAX_FILTERS && FineBefore(tx, cfg, i) && NewName(cfg, i) && cfg[i].expr.None?
    case TooLarge(i) =>
      i < |cfg| <= MAX_FILTERS && FineBefore(tx, cfg, i) && NewName(cfg, i) && cfg[i].expr.Some? &&
      PushedSize(tx, cfg, i + 1) > MAX_PREDS
  }

  /** One filter raises no error iff it has a new name, parses and still fits. */
  lemma FilterFine(tx: Text, cfg: seq<Config>, i: nat)
    requires i < |cfg| && FineBefore(tx, cfg, i)
    ensures match FilterError(tx, cfg, i)
            case None => FineBefore(tx, cfg, i + 1)
            case Some(e) => |cfg| <= MAX_FILTERS ==> Fault(tx, cfg, e)
  {
    var more := EntryCount(tx, ExprOf(cfg[i]));
    assert PushedSize(tx, cfg, i + 1) == PushedSize(tx, cfg, i) + more;
    assert Duplicated(cfg, i) || cfg[i].name == "" || NewName(cfg, i);
  }

  lemma {:induction false} FirstErrorIsFault(tx: Text, cfg: seq<Config>, i: nat)
    requires i <= |cfg| && FineBefore(tx, cfg, i)
    ensures match FirstError(tx, cfg, i)
            case None => FineBefore(tx, cfg, |cfg|)
            case Some(e) => |cfg| <= MAX_FILTERS ==> Fault(tx, cfg, e)
    decreases |cfg| - i
  {
    if i < |cfg| {
      FilterFine(tx, cfg, i);
      if FilterError(tx, cfg, i).None? { FirstErrorIsFault(tx, cfg, i + 1); }
    }
  }

  /** Two faults of one configuration are the same. */
  lemma FaultUnique(tx: Text, cfg: seq<Config>, e: CompileError, e': CompileError)
    requires Fault(tx, cfg, e) && Fault(tx, cfg, e')
    ensures e == e'
  {
    if 0 < |cfg| <= MAX_FILTERS {
      FaultPlace(tx, cfg, e);
      FaultPlace(tx, cfg, e');
    }
  }

  /** Where a fault is: the filters before it are fine, and with it they are not. */
  function PlaceOf(cfg: seq<Config>, e: CompileError): nat {
    match e
    case EmptyName(i) => i
    case DuplicateName(i) => i
    case BadExpr(i) => i
    case TooLarge(i) => i
    case _ => |cfg|
  }

  lemma FaultPlace(tx: Text, cfg: seq<Config>, e: CompileError)
    requires Fault(tx, cfg, e) && 0 < |cfg| <= MAX_FILTERS
    ensures FineBefore(tx, cfg, PlaceOf(cfg, e))
    ensures forall n | PlaceOf(cfg, e) < n <= |cfg| :: !FineBefore(tx, cfg, n)
  {
    var i := PlaceOf(cfg, e);
    forall n | i < n <= |cfg| ensures !FineBefore(tx, cfg, n) {
      if FineBefore(tx, cfg, n) {
        assert NewName(cfg, i) && cfg[i].expr.Some?;
        SumMonotone(EntryCounts(tx, cfg), i + 1, n);
      }
    }
  }

  /** `Compile` reports exactly the fault of the first filter that has one. */
  lemma ErrorMeaning(tx: Text, cfg: seq<Config>, e: CompileError)
    ensures ErrorOf(tx, cfg) == Some(e) <==> Fault(tx, cfg, e)
  {
    FirstErrorIsFault(tx, cfg, 0);
    if Fault(tx, cfg, e) {
      AcceptableHasNoFault(tx, cfg, e);
      FaultUnique(tx, cfg, e, ErrorOf(tx, cfg).value);
    }
  }

  lemma AcceptableHasNoFault(tx: Text, cfg: seq<Config>, e: CompileError)
    requires Fault(tx, cfg, e)
    ensures ErrorOf(tx, cfg).Some? && Fault(tx, cfg, ErrorOf(tx, cfg).value)
  {
    FirstErrorIsFault(tx, cfg, 0);
    if ErrorOf(tx, cfg).None? { FaultPlace(tx, cfg, e); }
  }

  /** All requests of a configuration are of the compiler's own form. */
  lemma {:induction false} RequestsProper(tx: Text, cfg: seq<Config>, n: nat)
    requires n <= |cfg|
    ensures AllProper(AllRequests(tx, cfg, n))
  {
    if n > 0 {
      RequestsProper(tx, cfg, n - 1);
      ProperRequests(tx, ExprOf(cfg[n - 1]), false);
    }
  }

  lemma InEither<T>(a: seq<T>, b: seq<T>, x: T)
    ensures x in a + b <==> x in a || x in b
  {
  }

  lemma {:induction false} RequestsInclude(tx: Text, cfg: seq<Config>, n: nat, i: nat, a: Atom)
    requires i < n <= |cfg| && a in Requests(tx, ExprOf(cfg[i]), false)
    ensures a in AllRequests(tx, cfg, n)
  {
    InEither(AllRequests(tx, cfg, n - 1), Requests(tx, ExprOf(cfg[n - 1]), false), a);
    if i < n - 1 { RequestsInclude(tx, cfg, n - 1, i, a); }
  }

  /** The tests of pushed-down filters are among the requests. */
  lemma TestsAreRequested(tx: Text, cfg: seq<Config>, a: Atom)
    requires a in TestAtoms(tx, cfg)
    ensures a in AllRequests(tx, cfg, |cfg|)
  {
    var i :| 0 <= i < |cfg| && a in PushedAtoms(tx, ExprOf(cfg[i]));
    RequestsAreAtoms(tx, ExprOf(cfg[i]), false);
    RequestsInclude(tx, cfg, |cfg|, i, a);
  }

  /** The tests of the pushed-down filters are all decided rightly iff each has the
      members of the first request that prints as it does. */
  lemma TestsDecided(tx: Text, cfg: seq<Config>)
    ensures (forall a | a in TestAtoms(tx, cfg) :: DecidedRight(FinalTable(tx, cfg), a))
       <==> NoClash(AllRequests(tx, cfg, |cfg|), TestAtoms(tx, cfg))
  {
    TableOfRequests(tx, cfg, |cfg|);
    RequestsProper(tx, cfg, |cfg|);
    forall a | a in TestAtoms(tx, cfg) ensures a in AllRequests(tx, cfg, |cfg|) {
      TestsAreRequested(tx, cfg, a);
    }
    InternExact(AllRequests(tx, cfg, |cfg|), TestAtoms(tx, cfg));
  }

  /** Sets with space-free lists never clash. */
  lemma SafeTests(tx: Text, cfg: seq<Config>)
    requires forall a | a in AllRequests(tx, cfg, |cfg|) :: KeySafe(a)
    ensures NoClash(AllRequests(tx, cfg, |cfg|), TestAtoms(tx, cfg))
  {
    forall a | a in TestAtoms(tx, cfg) ensures a in AllRequests(tx, cfg, |cfg|) {
      TestsAreRequested(tx, cfg, a);
    }
    KeySafeNoClash(AllRequests(tx, cfg, |cfg|), TestAtoms(tx, cfg));
  }

  /** The table of a prefix of the filters gives out the final numbers. */
  lemma {:induction false} TableGrows(tx: Text, cfg: seq<Config>, m: nat, n: nat)
    requires m <= n <= |cfg|
    ensures Consistent(TableAt(tx, cfg, n)) && Extends(TableAt(tx, cfg, m), TableAt(tx, cfg, n))
    decreases n
  {
    if m < n {
      TableGrows(tx, cfg, m, n - 1);
      InternAllOk(TableAt(tx, cfg, n - 1), Requests(tx, ExprOf(cfg[n - 1]), false));
      ExtendsTransitive(TableAt(tx, cfg, m), TableAt(tx, cfg, n - 1), TableAt(tx, cfg, n));
    } else if n > 0 {
      TableGrows(tx, cfg, n - 1, n - 1);
      InternAllOk(TableAt(tx, cfg, n - 1), Requests(tx, ExprOf(cfg[n - 1]), false));
    }
  }

  /** The tests of a pushed-down filter are numbered once it is compiled. */
  lemma FilterKnown(tx: Text, cfg: seq<Config>, i: nat)
    requires i < |cfg| && Lower(tx, ExprOf(cfg[i]), false).Some?
    ensures Interned(Lower(tx, ExprOf(cfg[i]), false).value, TableAt(tx, cfg, i + 1).idx)
  {
    TableGrows(tx, cfg, i, i);
    RequestsAreAtoms(tx, ExprOf(cfg[i]), false);
    InternKnows(TableAt(tx, cfg, i), Lower(tx, ExprOf(cfg[i]), false).value);
  }

  /** The predicates of filter `i`, numbered when it was compiled, are its
      predicates under the final table. */
  lemma PredsFinal(tx: Text, cfg: seq<Config>, i: nat)
    requires i < |cfg|
    ensures PredsOf(tx, ExprOf(cfg[i]), TableAt(tx, cfg, i + 1)) == PredsOf(tx, ExprOf(cfg[i]), FinalTable(tx, cfg))
  {
    var o := Lower(tx, ExprOf(cfg[i]), false);
    if o.Some? {
      FilterKnown(tx, cfg, i);
      TableGrows(tx, cfg, i + 1, |cfg|);
      ResolveStable(o.value, TableAt(tx, cfg, i + 1), FinalTable(tx, cfg));
    }
  }

  /** The layout loop of `Compile`: each filter's predicates, then its END marker. */
  method Flatten(preds: seq<seq<Pred>>, userspace: seq<bool>) returns (flat: seq<Pred>)
    requires |preds| == |userspace| <= MAX_FILTERS
    ensures flat == Layout(preds, userspace, 0)
  {
    flat := [];
    for i := 0 to |preds|
      invariant flat + Layout(preds, userspace, i) == Layout(preds, userspace, 0)
    {
      flat := flat + preds[i];
      flat := flat + [EndPred(i, userspace[i])];
    }
  }

  function NamesBefore(cfg: seq<Config>, i: nat): set<string>
    requires i <= |cfg|
  {
    set j | 0 <= j < i :: cfg[j].name
  }

  lemma NamesGrow(cfg: seq<Config>, i: nat)
    requires i < |cfg|
    ensures NamesBefore(cfg, i + 1) == NamesBefore(cfg, i) + {cfg[i].name}
  {
    forall name ensures name in NamesBefore(cfg, i + 1) <==> name in NamesBefore(cfg, i) || name == cfg[i].name {
      if name in NamesBefore(cfg, i + 1) {
        var j :| 0 <= j < i + 1 && cfg[j].name == name;
      }
    }
  }

  lemma SeenIsDuplicated(cfg: seq<Config>, i: nat)
    requires i < |cfg|
    ensures cfg[i].name in NamesBefore(cfg, i) <==> Duplicated(cfg, i)
  {
  }

  function AllNames(cfg: seq<Config>): (names: seq<string>)
    ensures |names| == |cfg|
  {
    seq(|cfg|, j requires 0 <= j < |cfg| => cfg[j].name)
  }

  function AllExprs(cfg: seq<Config>): (exprs: seq<Expr>)
    ensures |exprs| == |cfg|
  {
    seq(|cfg|, j requires 0 <= j < |cfg| => ExprOf(cfg[j]))
  }

  /** The predicates of each filter, numbered when it is compiled. */
  function AllPreds(tx: Text, cfg: seq<Config>): (preds: seq<seq<Pred>>)
    ensures |preds| == |cfg|
  {
    seq(|cfg|, j requires 0 <= j < |cfg| => PredsOf(tx, ExprOf(cfg[j]), TableAt(tx, cfg, j + 1)))
  }

  function AllUserspace(tx: Text, cfg: seq<Config>): (userspace: seq<bool>)
    ensures |userspace| == |cfg|
  {
    seq(|cfg|, j requires 0 <= j < |cfg| => Lower(tx, ExprOf(cfg[j]), false).None?)
  }

  /** What the first loop of `Compile` has collected from the first `i` filters. */
  ghost predicate Collected(tx: Text, cfg: seq<Config>, i: nat, names: seq<string>, exprs: seq<Expr>,
                            preds: seq<seq<Pred>>, userspace: seq<bool>)
    requires i <= |cfg|
  {
    AllParsed(cfg, i) && names == AllNames(cfg)[..i] && exprs == AllExprs(cfg)[..i] &&
    preds == AllPreds(tx, cfg)[..i] && userspace == AllUserspace(tx, cfg)[..i]
  }

  lemma TakeMore<T>(all: seq<T>, i: nat)
    requires i < |all|
    ensures all[..i + 1] == all[..i] + [all[i]]
  {
  }

  lemma CollectMore(tx: Text, cfg: seq<Config>, i: nat, names: seq<string>, exprs: seq<Expr>,
                    preds: seq<seq<Pred>>, userspace: seq<bool>, ps: Option<seq<Pred>>)
    requires i < |cfg| && cfg[i].expr.Some? && Collected(tx, cfg, i, names, exprs, preds, userspace)
    requires ps == Numbered(Lower(tx, ExprOf(cfg[i]), false), TableAt(tx, cfg, i + 1).idx)
    ensures Collected(tx, cfg, i + 1, names + [cfg[i].name], exprs + [ExprOf(cfg[i])],
                      preds + [if ps.Some? then ps.value else []], userspace + [ps.None?])
  {
    TakeMore(AllNames(cfg), i);
    TakeMore(AllExprs(cfg), i);
    TakeMore(AllPreds(tx, cfg), i);
    TakeMore(AllUserspace(tx, cfg), i);
  }

  /** The error and the entries of a filter that parses under a new name. */
  lemma FilterOutcome(tx: Text, cfg: seq<Config>, i: nat, ps: Option<seq<Pred>>, t: Table)
    requires i < |cfg| && cfg[i].expr.Some? && cfg[i].name != "" && !Duplicated(cfg, i)
    requires ps == Numbered(Lower(tx, ExprOf(cfg[i]), false), t.idx)
    ensures var more := if ps.Some? then |ps.value| + 1 else 0;
            PushedSize(tx, cfg, i + 1) == PushedSize(tx, cfg, i) + more &&
            FilterError(tx, cfg, i) ==
              if ps.Some? && PushedSize(tx, cfg, i) + more > MAX_PREDS then Some(TooLarge(i)) else None
  {
  }

  /** One round of the first loop of `Compile`: check the name, then compile the filter. */
  method CompileOne(c: Compiler, cfg: seq<Config>, i: nat, seen: set<string>, npreds: nat)
    returns (error: Option<CompileError>, ps: Option<seq<Pred>>)
    requires i < |cfg| && c.Valid() && c.State() == TableAt(c.tx, cfg, i)
    requires seen == NamesBefore(cfg, i) && npreds == PushedSize(c.tx, cfg, i)
    modifies c
    ensures c.Valid() && error == FilterError(c.tx, cfg, i)
    ensures error.None? ==>
              cfg[i].expr.Some? && c.State() == TableAt(c.tx, cfg, i + 1) &&
              ps == Numbered(Lower(c.tx, ExprOf(cfg[i]), false), c.State().idx) &&
              PushedSize(c.tx, cfg, i + 1) == npreds + if ps.Some? then |ps.value| + 1 else 0
  {
    var f := cfg[i];
    ps := None;
    if f.name == "" {
      return Some(EmptyName(i)), ps;
    }
    SeenIsDuplicated(cfg, i);
    if f.name in seen {
      return Some(DuplicateName(i)), ps;
    }
    if f.expr.None? {
      return Some(BadExpr(i)), ps;
    }
    ps := c.Conj(f.expr.value, false);
    FilterOutcome(c.tx, cfg, i, ps, c.State());
    if ps.Some? && npreds + |ps.value| + 1 > MAX_PREDS {
      return Some(TooLarge(i)), ps;
    }
    error := None;
  }

  /** The first loop of `Compile`: check and compile every filter in order. */
  method CompileEach(c: Compiler, cfg: seq<Config>)
    returns (error: Option<CompileError>, names: seq<string>, exprs: seq<Expr>,
             preds: seq<seq<Pred>>, userspace: seq<bool>)
    requires c.State() == EMPTY
    modifies c
    ensures error == FirstError(c.tx, cfg, 0)
    ensures error.None? ==> c.State() == FinalTable(c.tx, cfg)
    ensures error.None? ==> Collected(c.tx, cfg, |cfg|, names, exprs, preds, userspace)
  {
    var tx := c.tx;
    var seen: set<string> := {};
    var npreds := 0;
    names, exprs, preds, userspace := [], [], [], [];
    for i := 0 to |cfg|
      invariant c.Valid() && c.State() == TableAt(tx, cfg, i)
      invariant FirstError(tx, cfg, 0) == FirstError(tx, cfg, i)
      invariant seen == NamesBefore(cfg, i) && npreds == PushedSize(tx, cfg, i)
      invariant Collected(tx, cfg, i, names, exprs, preds, userspace)
    {
      var ps;
      error, ps := CompileOne(c, cfg, i, seen, npreds);
      if error.Some? {
        return;
      }
      NamesGrow(cfg, i);
      CollectMore(tx, cfg, i, names, exprs, preds, userspace, ps);
      seen := seen + {cfg[i].name};
      npreds := npreds + if ps.Some? then |ps.value| + 1 else 0;
      names := names + [cfg[i].name];
      exprs := exprs + [cfg[i].expr.value];
      preds := preds + [if ps.Some? then ps.value else []];
      userspace := userspace + [ps.None?];
    }
    error := None;
  }

  /** `Compile`. */
  method Compile(tx: Text, cfg: seq<Config>) returns (r: Result)
    ensures match r
            case Ok(s) => ErrorOf(tx, cfg).None? && IsCompiled(tx, cfg, s)
            case Err(e) => ErrorOf(tx, cfg) == Some(e)
    ensures r.Ok? <==> Acceptable(tx, cfg)
  {
    ErrorExact(tx, cfg);
    if |cfg| == 0 {
      return Err(NoFilters);
    }
    if |cfg| > MAX_FILTERS {
      return Err(TooManyFilters);
    }
    var c := new Compiler(tx);
    var error, names, exprs, preds, userspace := CompileEach(c, cfg);
    if error.Some? {
      return Err(error.value);
    }
    if |c.atoms| > 64 {
      return Err(TooManyAtoms);
    }
    forall i | 0 <= i < |cfg| ensures preds[i] == PredsOf(tx, ExprOf(cfg[i]), FinalTable(tx, cfg)) {
      PredsFinal(tx, cfg, i);
    }
    var flat := Flatten(preds, userspace);
    return Ok(FilterSet(names, exprs, c.atoms, preds, userspace, flat));
  }
}
