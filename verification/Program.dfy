/** The compiled predicate stream and the three-valued walk over it, shared by
    the Go VM and the kernel VM. */
module Program {
  import opened Bits
  import opened Addresses

  const PRED_CMP: u8 := 1
  const PRED_IPSET: u8 := 2
  const PRED_ATTR: u8 := 4
  const PRED_END: u8 := 5

  const FLD_RTT: u8 := 0
  const FLD_LIFE: u8 := 1
  const FLD_RETRANS: u8 := 2
  const FLD_SEGS: u8 := 3
  const FLD_TYPE: u8 := 4
  const FLD_ERRNO: u8 := 5

  const CMP_EQ: u8 := 0
  const CMP_NEQ: u8 := 1
  const CMP_LT: u8 := 2
  const CMP_LE: u8 := 3
  const CMP_GT: u8 := 4
  const CMP_GE: u8 := 5
  const CMP_IN: u8 := 6
  const CMP_NOT_IN: u8 := 7

  const DROP: u16 := 0xfffd
  const UNDECIDED: u16 := 0xfffe
  const UNFILTERED: u16 := 0xffff

  const MAX_IPSET := 4
  const MAX_FILTERS := 32
  const MAX_PREDS := 32

  const NO_SLOT := Slot(0, 0, [0, 0, 0, 0, 0, 0, 0, 0, 0, 0, 0, 0, 0, 0, 0, 0])

  type Slots = s: seq<Slot> | |s| == 4 witness [NO_SLOT, NO_SLOT, NO_SLOT, NO_SLOT]

  /** Prefix count of an IP set; Go indexes the slots with it, so it is at most four. */
  type SlotCount = n: int | 0 <= n <= 4

  /** One predicate of the stream. `a` and `b` mean: for a comparison the field
      and the comparison kind, for an IP set the endpoint and the negation, for
      an attribute test the atom and the negation, for an END marker the filter
      index and the userspace flag. */
  datatype Pred = Pred(val: u64, kind: u8, a: u8, b: u8, n: SlotCount, slots: Slots)

  const NO_SLOTS: Slots := [NO_SLOT, NO_SLOT, NO_SLOT, NO_SLOT]

  function CmpPred(field: u8, op: u8, val: u64): Pred {
    Pred(val, PRED_CMP, field, op, 0, NO_SLOTS)
  }

  function EndPred(i: u8, userspace: bool): Pred {
    Pred(0, PRED_END, i, if userspace then 1 else 0, 0, NO_SLOTS)
  }

  // The walk

  datatype Tri = False | True | Unknown

  /** What one entry of the stream amounts to on an event. */
  datatype Step = Test(t: Tri) | End(idx: u8, userspace: bool) | Bad

  function Truth(b: bool): Tri {
    if b then True else False
  }

  function TriAnd(x: Tri, y: Tri): Tri {
    if x == False || y == False then False
    else if x == Unknown || y == Unknown then Unknown
    else True
  }

  /** The decision of a stream when the current filter stands at `res`. */
  function Walk(steps: seq<Step>, res: Tri): u16 {
    if steps == [] then DROP
    else match steps[0]
      case Test(t) => Walk(steps[1..], TriAnd(res, t))
      case End(i, userspace) =>
        if userspace then UNDECIDED
        else (match res
              case True => i
              case Unknown => UNDECIDED
              case False => Walk(steps[1..], True))
      case Bad => UNDECIDED
  }

  // Less information

  /** `s` knows no more than `t`. */
  predicate TriLess(s: Tri, t: Tri) {
    s == t || s == Unknown
  }

  predicate StepLess(s: Step, t: Step) {
    s == t || (s == Test(Unknown) && t.Test?)
  }

  predicate StepsLess(ss: seq<Step>, ts: seq<Step>) {
    |ss| == |ts| && forall i | 0 <= i < |ss| :: StepLess(ss[i], ts[i])
  }

  /** Forgetting test results can only turn a decision into UNDECIDED: never
      into another filter and never into DROP. */
  lemma {:induction false} WalkLess(ss: seq<Step>, ts: seq<Step>, s: Tri, t: Tri)
    requires StepsLess(ss, ts) && TriLess(s, t)
    ensures Walk(ss, s) == Walk(ts, t) || Walk(ss, s) == UNDECIDED
  {
    if ss != [] {
      assert StepLess(ss[0], ts[0]);
      match ss[0]
      case Test(x) => WalkLess(ss[1..], ts[1..], TriAnd(s, x), TriAnd(t, ts[0].t));
      case End(_, userspace) => if !userspace && s == False { WalkLess(ss[1..], ts[1..], True, True); }
      case Bad =>
    }
  }

  // Walking one filter at a time

  /** The conjunction of a filter's tests, from `res` on. */
  function Conjunction(tests: seq<Tri>, res: Tri): Tri {
    if tests == [] then res else Conjunction(tests[1..], TriAnd(res, tests[0]))
  }

  function Tests(ts: seq<Tri>): (ss: seq<Step>)
    ensures |ss| == |ts| && forall i | 0 <= i < |ts| :: ss[i] == Test(ts[i])
  {
    seq(|ts|, i requires 0 <= i < |ts| => Test(ts[i]))
  }

  lemma {:induction false} ConjunctionMeaning(tests: seq<Tri>, res: Tri)
    ensures Conjunction(tests, res) == False <==> res == False || False in tests
    ensures Conjunction(tests, res) == True <==> res == True && False !in tests && Unknown !in tests
  {
    if tests != [] {
      ConjunctionMeaning(tests[1..], TriAnd(res, tests[0]));
      assert forall t :: t in tests <==> t == tests[0] || t in tests[1..];
    }
  }

  lemma {:induction false} WalkTests(ts: seq<Tri>, rest: seq<Step>, res: Tri)
    ensures Walk(Tests(ts) + rest, res) == Walk(rest, Conjunction(ts, res))
  {
    var ss := Tests(ts) + rest;
    if ts == [] {
      assert ss == rest;
    } else {
      WalkTests(ts[1..], rest, TriAnd(res, ts[0]));
      assert ss[1..] == Tests(ts[1..]) + rest;
    }
  }

  // Cutting the stream

  /** A walk that decides inside a prefix decides so whatever follows it; if the
      prefix falls through at an END, the walk goes on afresh after it. */
  lemma {:induction false} WalkPrefix(ss: seq<Step>, rest: seq<Step>, res: Tri)
    requires ss != [] && ss[|ss| - 1].End?
    requires forall i | 0 <= i < |ss| :: ss[i].End? ==> ss[i].idx as int < 32
    ensures Walk(ss + rest, res) == if Walk(ss, res) == DROP then Walk(rest, True) else Walk(ss, res)
  {
    var all := ss + rest;
    assert all[0] == ss[0] && all[1..] == ss[1..] + rest;
    if |ss| == 1 {
      assert ss[1..] + rest == rest;
    } else {
      match ss[0]
      case Test(t) => WalkPrefix(ss[1..], rest, TriAnd(res, t));
      case End(_, userspace) => if !userspace && res == False { WalkPrefix(ss[1..], rest, True); }
      case Bad =>
    }
  }
}
