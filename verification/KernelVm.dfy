/** The kernel VM `ko_filter_eval`, and the 32-slot program that it runs. */
module KernelVm {
  import opened Bits
  import opened Addresses
  import opened Events
  import opened Program
  import opened GoVm
  import opened WordCidr

  const ZERO_PRED := Pred(0, 0, 0, 0, 0, NO_SLOTS)

  type PredArray = ps: seq<Pred> | |ps| == 32
    witness seq(32, _ => ZERO_PRED)

  datatype Prog = Prog(nfilters: nat, npreds: nat, preds: PredArray)

  /** The results of the verdict map lookups, one per slot that is an attribute
      test: each is a lookup of its own, so they may differ within one walk. */
  type Lookups = ls: seq<Option<u64>> | |ls| == 32
    witness seq(32, _ => None)

  /** `BPFProg`: copy as much of the stream as fits. */
  method BpfProg(names: seq<string>, flat: seq<Pred>) returns (p: Prog)
    ensures p.nfilters == |names| && p.npreds == |flat|
    ensures forall i | 0 <= i < 32 :: p.preds[i] == if i < |flat| then flat[i] else ZERO_PRED
    ensures p == ProgOf(names, flat)
  {
    var a := new Pred[32](_ => ZERO_PRED);
    var n := if |flat| < 32 then |flat| else 32;
    for i := 0 to n
      invariant forall k | 0 <= k < 32 :: a[k] == if k < i then flat[k] else ZERO_PRED
    {
      a[i] := flat[i];
    }
    assert a[..] == ProgOf(names, flat).preds;
    p := Prog(|names|, |flat|, a[..]);
  }

  function ProgOf(names: seq<string>, flat: seq<Pred>): Prog {
    Prog(|names|, |flat|, seq(32, i requires 0 <= i < 32 => if i < |flat| then flat[i] else ZERO_PRED))
  }

  /** The statistics value that the kernel compares. */
  function KoField(f: u8, r: Raw): u64 {
    if f == FLD_RTT then r.rttUs
    else if f == FLD_LIFE then r.lifeUs
    else if f == FLD_RETRANS then r.retransmits
    else if f == FLD_SEGS then r.segsOut
    else if f == FLD_TYPE then One64(r.typ)
    else if f == FLD_ERRNO then r.error
    else 0
  }

  function KoEndpoint(which: u8, r: Raw): Bytes16 {
    if which == 0 then r.localIp else r.remoteIp
  }

  function KoStep(p: Pred, r: Raw, verdict: Option<u64>): Step {
    if p.kind == PRED_CMP then Test(Truth(CmpField(p.b, KoField(p.a, r), p.val)))
    else if p.kind == PRED_IPSET then
      Test(Truth(KoInSet(r.family, KoEndpoint(p.a, r), p.slots, p.n) == (p.b == 0)))
    else if p.kind == PRED_ATTR then
      (if verdict.None? then Test(Unknown) else Test(Truth(Bit(verdict.value, p.a) == (p.b == 0))))
    else if p.kind == PRED_END then End(p.a, p.b != 0)
    else Bad
  }

  function SlotsUsed(p: Prog): nat {
    if p.npreds < 32 then p.npreds else 32
  }

  function KoSteps(p: Prog, r: Raw, ls: Lookups): (ss: seq<Step>)
    ensures |ss| == SlotsUsed(p)
    ensures forall i | 0 <= i < |ss| :: ss[i] == KoStep(p.preds[i], r, ls[i])
  {
    seq(SlotsUsed(p), i requires 0 <= i < SlotsUsed(p) => KoStep(p.preds[i], r, ls[i]))
  }

  function KoDecision(enabled: bool, prog: Option<Prog>, r: Raw, ls: Lookups): u16 {
    if !enabled || prog.None? then UNFILTERED
    else if prog.value.nfilters == 0 then DROP
    else Walk(KoSteps(prog.value, r, ls), True)
  }

  /** The comparison switch of the kernel walk. */
  method KoCompare(b: u8, v: u64, val: u64) returns (ok: bool)
    ensures ok <==> CmpField(b, v, val)
  {
    if b == CMP_EQ {
      ok := v == val;
    } else if b == CMP_NEQ {
      ok := v != val;
    } else if b == CMP_LT {
      ok := v < val;
    } else if b == CMP_LE {
      ok := v <= val;
    } else if b == CMP_GT {
      ok := v > val;
    } else if b == CMP_GE {
      ok := v >= val;
    } else if b == CMP_IN {
      ok := And(v, val) != 0;
    } else if b == CMP_NOT_IN {
      ok := And(v, val) == 0;
    } else {
      ok := false;
    }
  }

  /** `ko_filter_eval`. The shift by the event type needs a type below 64. */
  method KoFilterEval(enabled: bool, prog: Option<Prog>, r: Raw, lookups: Lookups) returns (d: u16)
    requires r.typ < 64
    ensures d == KoDecision(enabled, prog, r, lookups)
  {
    if !enabled {
      return UNFILTERED;
    }
    if prog.None? {
      return UNFILTERED;
    }
    var p := prog.value;
    if p.nfilters == 0 {
      return DROP;
    }
    ghost var steps := KoSteps(p, r, lookups);
    var res := True;
    for k := 0 to MAX_PREDS
      invariant k <= |steps|
      invariant Walk(steps[k..], res) == Walk(steps, True)
    {
      if k >= p.npreds {
        assert steps[k..] == [];
        return DROP;
      }
      var q := p.preds[k];
      assert steps[k] == KoStep(q, r, lookups[k]) && steps[k..][1..] == steps[k + 1..];
      var ok := true;
      if q.kind == PRED_CMP {
        ok := KoCompare(q.b, KoField(q.a, r), q.val);
      } else if q.kind == PRED_IPSET {
        var m := KoIpInSet(r.family, KoEndpoint(q.a, r), q);
        ok := m == (q.b == 0);
      } else if q.kind == PRED_ATTR {
        var verdict := lookups[k];
        if verdict.None? {
          if res == True {
            res := Unknown;
          }
          continue;
        }
        TestBit(verdict.value, q.a);
        var bit := And(Shr(verdict.value, q.a), 1) == 1;
        ok := bit == (q.b == 0);
      } else if q.kind == PRED_END {
        if q.b != 0 {
          return UNDECIDED;
        }
        if res == True {
          return q.a;
        }
        if res == Unknown {
          return UNDECIDED;
        }
        res := True;
        continue;
      } else {
        return UNDECIDED;
      }
      if !ok {
        res := False;
      }
    }
    assert steps[32..] == [];
    return DROP;
  }
}
