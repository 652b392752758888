/** The userspace VM: `RunPreds` and what it computes from. */
module GoVm {
  import opened Bits
  import opened Addresses
  import opened Events
  import opened Program

  const ATTR_NAMESPACE: u8 := 0
  const ATTR_CONTAINER: u8 := 1
  const ATTR_POD: u8 := 2

  const ATTR_EQ: u8 := 0
  const ATTR_NEQ: u8 := 1
  const ATTR_IN: u8 := 2

  /** A test of one cgroup attribute. */
  datatype Atom = Atom(field: u8, op: u8, values: Values)

  /** An equality atom reads its first value, so there is one. */
  type Values = vs: seq<string> | vs != [] witness [""]

  function AttrValue(field: u8, attrs: CgroupAttrs): string {
    if field == ATTR_NAMESPACE then attrs.namespace
    else if field == ATTR_CONTAINER then attrs.container
    else if field == ATTR_POD then attrs.pod
    else ""
  }

  /** Truth of an atom; equality reads the first value only. */
  predicate AtomTrue(a: Atom, attrs: CgroupAttrs) {
    var v := AttrValue(a.field, attrs);
    if a.op == ATTR_EQ then v == a.values[0]
    else if a.op == ATTR_NEQ then v != a.values[0]
    else if a.op == ATTR_IN then v in a.values
    else false
  }

  /** An inequality atom is the complement of the equality atom, and equality is
      membership in a list of one. */
  lemma AtomOperators(field: u8, values: Values, attrs: CgroupAttrs)
    ensures AtomTrue(Atom(field, ATTR_NEQ, values), attrs) <==> !AtomTrue(Atom(field, ATTR_EQ, values), attrs)
    ensures AtomTrue(Atom(field, ATTR_EQ, values), attrs) <==> AtomTrue(Atom(field, ATTR_IN, [values[0]]), attrs)
  {
  }

  /** `atomEval`. */
  method AtomEval(a: Atom, attrs: CgroupAttrs) returns (r: bool)
    ensures r <==> AtomTrue(a, attrs)
  {
    var v := AttrValue(a.field, attrs);
    if a.op == ATTR_EQ {
      return v == a.values[0];
    }
    if a.op == ATTR_NEQ {
      return v != a.values[0];
    }
    if a.op == ATTR_IN {
      for i := 0 to |a.values|
        invariant v !in a.values[..i]
      {
        if v == a.values[i] {
          return true;
        }
      }
      assert a.values[..|a.values|] == a.values;
    }
    return false;
  }

  /** The mask of the first `n` atoms. */
  function MaskOf(atoms: seq<Atom>, attrs: CgroupAttrs, n: nat): u64
    requires n <= |atoms|
  {
    if n == 0 then 0
    else if AtomTrue(atoms[n - 1], attrs) then Or64(MaskOf(atoms, attrs, n - 1), One64(n - 1))
    else MaskOf(atoms, attrs, n - 1)
  }

  function Mask(atoms: seq<Atom>, attrs: CgroupAttrs): u64 {
    MaskOf(atoms, attrs, |atoms|)
  }

  /** Bit k of the verdict mask is the truth of atom k; atoms past 63 have no bit. */
  lemma {:induction false} MaskBit(atoms: seq<Atom>, attrs: CgroupAttrs, n: nat, k: nat)
    requires n <= |atoms|
    ensures Bit(MaskOf(atoms, attrs, n), k) <==> k < n && k < 64 && AtomTrue(atoms[k], attrs)
  {
    if n == 0 {
      ZeroBit(k);
    } else {
      MaskBit(atoms, attrs, n - 1, k);
      OrBit(MaskOf(atoms, attrs, n - 1), One64(n - 1), k);
      One64Bit(n - 1, k);
    }
  }

  /** `Set.VerdictMask`. */
  method VerdictMask(atoms: seq<Atom>, attrs: CgroupAttrs) returns (mask: u64)
    ensures mask == Mask(atoms, attrs)
    ensures forall k: nat :: Bit(mask, k) <==> k < |atoms| && k < 64 && AtomTrue(atoms[k], attrs)
  {
    mask := 0;
    for i := 0 to |atoms|
      invariant mask == MaskOf(atoms, attrs, i)
    {
      var t := AtomEval(atoms[i], attrs);
      if t {
        mask := Or64(mask, One64(i));
      }
    }
    forall k: nat ensures Bit(mask, k) <==> k < |atoms| && k < 64 && AtomTrue(atoms[k], attrs) {
      MaskBit(atoms, attrs, |atoms|, k);
    }
  }

  function EventField(f: u8, ev: Event): u64 {
    if f == FLD_RTT then ev.rttUs
    else if f == FLD_LIFE then ev.lifeUs
    else if f == FLD_RETRANS then ev.retransmits
    else if f == FLD_SEGS then ev.segsOut
    else if f == FLD_TYPE then One64(ev.typ)
    else if f == FLD_ERRNO then ev.errno
    else 0
  }

  predicate CmpField(kind: u8, a: u64, b: u64) {
    if kind == CMP_EQ then a == b
    else if kind == CMP_NEQ then a != b
    else if kind == CMP_LT then a < b
    else if kind == CMP_LE then a <= b
    else if kind == CMP_GT then a > b
    else if kind == CMP_GE then a >= b
    else if kind == CMP_IN then And(a, b) != 0
    else if kind == CMP_NOT_IN then And(a, b) == 0
    else false
  }

  function Endpoint(which: u8, ev: Event): IP {
    if which == 1 then ev.remoteIp else ev.localIp
  }

  /** Membership in the first `n` slots. */
  predicate InSlots(slots: Slots, n: SlotCount, ip: IP) {
    ip != NoIP && exists i :: 0 <= i < n && GoSlotMatch(slots[i], ip)
  }

  /** `evIPInSet`. */
  method EvIpInSet(ev: Event, p: Pred) returns (r: bool)
    ensures r <==> InSlots(p.slots, p.n, Endpoint(p.a, ev))
  {
    var ip := Endpoint(p.a, ev);
    if ip == NoIP {
      return false;
    }
    var ip4 := To4(ip);
    for i := 0 to p.n
      invariant forall j | 0 <= j < i :: !GoSlotMatch(p.slots[j], ip)
    {
      var s := p.slots[i];
      if s.fam == 4 {
        if ip4.Some? {
          var m := PrefixMatch(s.addr, ip4.value, s.plen, 32);
          if m {
            return true;
          }
        }
      } else if ip4.None? {
        var m := PrefixMatch(s.addr, ip.b16, s.plen, 128);
        if m {
          return true;
        }
      }
    }
    return false;
  }

  /** What one predicate amounts to on an event, given the cgroup's verdict if there is one. */
  function GoStep(p: Pred, ev: Event, verdict: Option<u64>): Step {
    if p.kind == PRED_CMP then Test(Truth(CmpField(p.b, EventField(p.a, ev), p.val)))
    else if p.kind == PRED_IPSET then Test(Truth(InSlots(p.slots, p.n, Endpoint(p.a, ev)) == (p.b == 0)))
    else if p.kind == PRED_ATTR then
      (if verdict.None? then Test(Unknown) else Test(Truth(Bit(verdict.value, p.a) == (p.b == 0))))
    else if p.kind == PRED_END then End(p.a, p.b == 1)
    else Bad
  }

  function GoSteps(flat: seq<Pred>, ev: Event, verdict: Option<u64>): (ss: seq<Step>)
    ensures |ss| == |flat| && forall i | 0 <= i < |flat| :: ss[i] == GoStep(flat[i], ev, verdict)
  {
    seq(|flat|, i requires 0 <= i < |flat| => GoStep(flat[i], ev, verdict))
  }

  function GoDecision(flat: seq<Pred>, ev: Event, verdict: Option<u64>): u16 {
    Walk(GoSteps(flat, ev, verdict), True)
  }

  predicate KnownKind(p: Pred) {
    p.kind == PRED_CMP || p.kind == PRED_IPSET || p.kind == PRED_ATTR || p.kind == PRED_END
  }

  /** A walk that comes to an entry of unknown kind is undecided, whatever stands before or after it. */
  lemma UnknownKind(p: Pred, ev: Event, verdict: Option<u64>, rest: seq<Step>, res: Tri)
    requires !KnownKind(p)
    ensures Walk([GoStep(p, ev, verdict)] + rest, res) == UNDECIDED
  {
  }

  /** `RunPreds`. */
  method RunPreds(flat: seq<Pred>, ev: Event, verdict: Option<u64>) returns (r: u16)
    ensures r == GoDecision(flat, ev, verdict)
  {
    ghost var steps := GoSteps(flat, ev, verdict);
    var res := True;
    for i := 0 to |flat|
      invariant Walk(steps[i..], res) == Walk(steps, True)
    {
      var p := flat[i];
      assert steps[i] == GoStep(p, ev, verdict) && steps[i..][1..] == steps[i + 1..];
      if p.kind == PRED_CMP {
        if !CmpField(p.b, EventField(p.a, ev), p.val) {
          res := False;
        }
      } else if p.kind == PRED_IPSET {
        var m := EvIpInSet(ev, p);
        if m != (p.b == 0) {
          res := False;
        }
      } else if p.kind == PRED_ATTR {
        if verdict.None? {
          if res == True {
            res := Unknown;
          }
        } else {
          TestBit(verdict.value, p.a);
          var bit := And(Shr(verdict.value, p.a), 1) == 1;
          if bit != (p.b == 0) {
            res := False;
          }
        }
      } else if p.kind == PRED_END {
        if p.b == 1 {
          return UNDECIDED;
        }
        match res
        case True => return p.a;
        case Unknown => return UNDECIDED;
        case False =>
        res := True;
      } else {
        return UNDECIDED;
      }
    }
    assert steps[|flat|..] == [];
    return DROP;
  }
}
