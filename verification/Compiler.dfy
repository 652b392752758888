/** The compiler: expressions to numbered predicates, with the atom table that
    its methods update in place. */
module Compiler {
  import opened Bits
  import opened Addresses
  import opened Events
  import opened Cel
  import opened Program
  import opened GoVm
  import opened Lowering
  import opened Interning

  /** The atoms that compiling `e` interns: those of a left conjunct stay behind
      even when the right one cannot be lowered. */
  function Requests(tx: Text, e: Expr, neg: bool): seq<Atom> {
    match e
    case And(l, r) =>
      if neg then []
      else Requests(tx, l, false) + if Lower(tx, l, false).Some? then Requests(tx, r, false) else []
    case Not(x) => Requests(tx, x, !neg)
    case _ => if Lower(tx, e, neg).Some? then AtomsOf(Lower(tx, e, neg).value) else []
  }

  lemma {:induction false} RequestsAreAtoms(tx: Text, e: Expr, neg: bool)
    requires Lower(tx, e, neg).Some?
    ensures Requests(tx, e, neg) == AtomsOf(Lower(tx, e, neg).value)
  {
    match e
    case And(l, r) =>
      RequestsAreAtoms(tx, l, false);
      RequestsAreAtoms(tx, r, false);
      AtomsOfConcat(Lower(tx, l, false).value, Lower(tx, r, false).value);
    case Not(x) => RequestsAreAtoms(tx, x, !neg);
    case _ =>
  }

  /** The tests of a left conjunct are requested even when the right one is refused,
      together with what the right one requests by itself. */
  lemma LeftBehind(tx: Text, l: Expr, r: Expr)
    requires Lower(tx, l, false).Some? && Lower(tx, r, false).None?
    ensures Lower(tx, And(l, r), false).None?
    ensures Requests(tx, And(l, r), false) == AtomsOf(Lower(tx, l, false).value) + Requests(tx, r, false)
  {
    RequestsAreAtoms(tx, l, false);
  }

  lemma {:induction false} ProperAtoms(syms: seq<Sym>)
    requires forall i | 0 <= i < |syms| && syms[i].SymAttr? :: Proper(syms[i].atom)
    ensures AllProper(AtomsOf(syms))
  {
    if syms != [] { ProperAtoms(syms[1..]); }
  }

  lemma ProperLeaf(o: Option<seq<Sym>>)
    requires o.Some? ==> forall i | 0 <= i < |o.value| && o.value[i].SymAttr? :: Proper(o.value[i].atom)
    ensures o.Some? ==> AllProper(AtomsOf(o.value))
  {
    if o.Some? { ProperAtoms(o.value); }
  }

  lemma {:induction false} ProperRequests(tx: Text, e: Expr, neg: bool)
    ensures AllProper(Requests(tx, e, neg))
  {
    match e
    case And(l, r) =>
      ProperRequests(tx, l, false);
      ProperRequests(tx, r, false);
    case Not(x) => ProperRequests(tx, x, !neg);
    case Cmp(op, l, r) => ProperLeaf(LowerCmp(if neg then Flip(op) else op, l, r));
    case In(l, r) => ProperLeaf(LowerIn(l, r, neg));
    case IpIn(l, r) => ProperLeaf(LowerIpIn(tx, l, r, neg));
    case _ =>
  }

  /** The lowered tests with their atoms numbered. */
  function Numbered(o: Option<seq<Sym>>, idx: map<AtomKey, nat>): Option<seq<Pred>> {
    if o.Some? then Some(ResolveAll(o.value, idx)) else None
  }

  /** After interning the atoms of some tests, all of the tests are numbered. */
  lemma InternKnows(t: Table, syms: seq<Sym>)
    requires Consistent(t)
    ensures Interned(syms, InternAll(t, AtomsOf(syms)).idx)
  {
    InternAllOk(t, AtomsOf(syms));
    forall i | 0 <= i < |syms| && syms[i].SymAttr?
      ensures KeyOf(syms[i].atom) in InternAll(t, AtomsOf(syms)).idx
    {
      AtomsOfHas(syms, i);
    }
  }

  /** `typeMaskOf`: None unless a non-empty list of type names. */
  method TypeMaskOf(e: Expr) returns (r: Option<u64>)
    ensures r == TypeListMask(e)
  {
    if !e.List? || e.elems == [] {
      return None;
    }
    r := MaskOfTypes(e.elems);
  }

  /** The loop of `typeMaskOf`. */
  method MaskOfTypes(elems: seq<Expr>) returns (r: Option<u64>)
    ensures r == TypeMask(elems, |elems|)
  {
    r := Some(0);
    for n := 0 to |elems|
      invariant r.Some? && r == TypeMask(elems, n)
    {
      r := WithType(r, TypeOf(elems[n]));
      if r.None? {
        NoMask(elems, n + 1);
        return;
      }
    }
  }

  lemma {:induction false} NoMask(elems: seq<Expr>, n: nat)
    requires n <= |elems| && TypeMask(elems, n).None?
    ensures TypeMask(elems, |elems|).None?
    decreases |elems| - n
  {
    if n < |elems| { NoMask(elems, n + 1); }
  }

  /** `listOfStrings`: a built-in list or a list of string literals. */
  method ListOfStrings(e: Expr) returns (r: Option<seq<string>>)
    ensures r == StringList(e)
  {
    if e.Ident? {
      return match e.id
        case KoLoopbackCidrs => Some(LOOPBACK_CIDRS)
        case KoPrivateCidrs => Some(PRIVATE_CIDRS)
        case _ => None;
    }
    if !e.List? {
      return None;
    }
    var out: seq<string> := [];
    for i := 0 to |e.elems|
      invariant |out| == i
      invariant forall k | 0 <= k < i :: e.elems[k].Lit? && e.elems[k].v == VStr(out[k])
    {
      var el := e.elems[i];
      if !el.Lit? || !el.v.VStr? {
        return None;
      }
      out := out + [el.v.s];
    }
    assert out == LiteralTexts(e.elems);
    return Some(out);
  }

  lemma AtomsOfMore(syms: seq<Sym>, i: nat)
    requires i < |syms| && syms[i].SymAttr?
    ensures AtomsOf(syms[..i + 1]) == AtomsOf(syms[..i]) + [syms[i].atom]
  {
    assert syms[..i + 1] == syms[..i] + [syms[i]];
    AtomsOfConcat(syms[..i], [syms[i]]);
    assert AtomsOf([syms[i]]) == [syms[i].atom];
  }

  lemma InternOneMore(t: Table, reqs: seq<Atom>, a: Atom)
    ensures InternAll(t, reqs + [a]) == Intern(InternAll(t, reqs), a)
  {
    InternAllConcat(t, reqs, [a]);
    assert InternAll(InternAll(t, reqs), [a]) == InternAll(Intern(InternAll(t, reqs), a), []);
  }

  /** Interning for one more test keeps the tests before it numbered as they were. */
  lemma OneMore(t0: Table, syms: seq<Sym>, i: nat)
    requires Consistent(t0) && i < |syms| && syms[i].SymAttr?
    ensures var t1 := InternAll(t0, AtomsOf(syms[..i]));
            InternAll(t0, AtomsOf(syms[..i + 1])) == Intern(t1, syms[i].atom) &&
            Interned(syms[..i], t1.idx) && Extends(t1, Intern(t1, syms[i].atom))
  {
    InternKnows(t0, syms[..i]);
    AtomsOfMore(syms, i);
    InternOneMore(t0, AtomsOf(syms[..i]), syms[i].atom);
    InternAllOk(t0, AtomsOf(syms[..i]));
  }

  /** Compiling one side of a conjunction after the other interns the requests
      of the whole, and the tests of the first side stay numbered. */
  lemma BothSides(tx: Text, l: Expr, r: Expr, t0: Table)
    requires Consistent(t0) && Lower(tx, l, false).Some?
    ensures var t1 := InternAll(t0, Requests(tx, l, false));
            var t2 := InternAll(t1, Requests(tx, r, false));
            t2 == InternAll(t0, Requests(tx, And(l, r), false)) &&
            Extends(t1, t2) && Interned(Lower(tx, l, false).value, t1.idx)
  {
    var left, right := Requests(tx, l, false), Requests(tx, r, false);
    InternAllConcat(t0, left, right);
    RequestsAreAtoms(tx, l, false);
    InternKnows(t0, Lower(tx, l, false).value);
    InternAllOk(t0, left);
    InternAllOk(InternAll(t0, left), right);
  }

  lemma ResolveBoth(left: seq<Sym>, right: seq<Sym>, t1: Table, t2: Table)
    requires Extends(t1, t2) && Interned(left, t1.idx)
    ensures ResolveAll(left, t1.idx) + ResolveAll(right, t2.idx) == ResolveAll(left + right, t2.idx)
  {
    ResolveStable(left, t1, t2);
  }

  class Compiler {
    const tx: Text
    var atoms: seq<Atom>
    var atomIdx: map<AtomKey, nat>

    function State(): Table
      reads this
    {
      Table(atoms, atomIdx)
    }

    ghost predicate Valid()
      reads this
    {
      Consistent(State())
    }

    constructor (tx: Text)
      ensures Valid() && State() == EMPTY && this.tx == tx
    {
      this.tx := tx;
      atoms, atomIdx := [], map[];
    }

    /** `attrPred`. */
    method AttrPred(field: u8, op: u8, values: Values, neg: u8) returns (p: Pred)
      requires Valid()
      modifies this
      ensures Valid() && State() == Intern(old(State()), Atom(field, op, values))
      ensures p == Resolve(SymAttr(Atom(field, op, values), neg), State().idx)
    {
      var k := AtomKey(field, op, Sprint(values));
      var id: nat;
      if k in atomIdx {
        id := atomIdx[k];
      } else {
        id := |atoms|;
        atoms := atoms + [Atom(field, op, values)];
        atomIdx := atomIdx[k := id];
      }
      p := Pred(0, PRED_ATTR, id % 0x100, neg, 0, NO_SLOTS);
    }

    /** A conjunction without attribute tests leaves the table alone. */
    lemma Untouched(syms: seq<Sym>, p: Pred)
      requires |syms| == 1 && !syms[0].SymAttr? && p == Resolve(syms[0], State().idx)
      ensures State() == InternAll(State(), AtomsOf(syms))
      ensures Some([p]) == Numbered(Some(syms), State().idx)
    {
      assert AtomsOf(syms) == [];
      assert [p] == ResolveAll(syms, State().idx);
    }

    /** One attribute test as a whole conjunction. */
    method AttrTest(field: u8, op: u8, values: Values, neg: u8) returns (r: Option<seq<Pred>>)
      requires Valid()
      modifies this
      ensures Valid() && State() == InternAll(old(State()), AtomsOf([SymAttr(Atom(field, op, values), neg)]))
      ensures r == Numbered(Some([SymAttr(Atom(field, op, values), neg)]), State().idx)
    {
      var p := AttrPred(field, op, values, neg);
      ghost var a := Atom(field, op, values);
      assert AtomsOf([SymAttr(a, neg)]) == [a];
      assert InternAll(old(State()), [a]) == InternAll(Intern(old(State()), a), []);
      r := Some([p]);
      assert r.value == ResolveAll([SymAttr(a, neg)], State().idx);
    }

    /** `cmpField`. */
    method FieldPreds(id: Ident, op: CmpOp, v: Value) returns (r: Option<seq<Pred>>)
      requires Valid()
      modifies this
      ensures Valid() && State() == InternAll(old(State()), SymAtoms(LowerField(id, op, v)))
      ensures r == Numbered(LowerField(id, op, v), State().idx)
    {
      if StatsField(id).Some? {
        if !v.VInt? {
          return None;
        }
        var p := CmpPred(StatsField(id).value, OpCode(op), Unsigned(v.i));
        Untouched(LowerField(id, op, v).value, p);
        return Some([p]);
      }
      if AttrField(id).Some? && v.VStr? {
        if op == Eq {
          r := AttrTest(AttrField(id).value, ATTR_EQ, [v.s], 0);
          return;
        } else if op == Neq {
          r := AttrTest(AttrField(id).value, ATTR_EQ, [v.s], 1);
          return;
        }
      }
      return None;
    }

    /** `typePreds`: an ordering yields the empty conjunction. */
    method TypePreds(op: CmpOp, t: EventType) returns (r: Option<seq<Pred>>)
      ensures State() == InternAll(State(), AtomsOf(TypeSyms(op, t)))
      ensures r == Numbered(Some(TypeSyms(op, t)), State().idx)
    {
      if Ordering(op) {
        return Some([]);
      }
      var p := CmpPred(FLD_TYPE, if op == Eq then CMP_IN else CMP_NOT_IN, One64(t));
      Untouched(TypeSyms(op, t), p);
      return Some([p]);
    }

    /** One operand order of `cmpPreds`. */
    method SidePreds(id: Ident, op: CmpOp, e: Expr) returns (r: Option<seq<Pred>>)
      requires Valid()
      modifies this
      ensures Valid() && State() == InternAll(old(State()), SymAtoms(LowerSide(id, op, e)))
      ensures r == Numbered(LowerSide(id, op, e), State().idx)
    {
      if id == KoType && TypeOf(e).Some? {
        r := TypePreds(op, TypeOf(e).value);
        return;
      }
      if !e.Lit? {
        return None;
      }
      r := FieldPreds(id, op, e.v);
    }

    /** `cmpPreds`. */
    method CmpPreds(op: CmpOp, l: Expr, r: Expr) returns (ps: Option<seq<Pred>>)
      requires Valid()
      modifies this
      ensures Valid() && State() == InternAll(old(State()), SymAtoms(LowerCmp(op, l, r)))
      ensures ps == Numbered(LowerCmp(op, l, r), State().idx)
    {
      if l.Ident? {
        ps := SidePreds(l.id, op, r);
      } else if r.Ident? {
        ps := SidePreds(r.id, Flip(op), l);
      } else {
        ps := None;
      }
    }

    /** The shared front of `inPreds` and `negInPreds`, which differ in how an
        attribute list is tested. */
    method InPreds(l: Expr, r: Expr, neg: bool) returns (ps: Option<seq<Pred>>)
      requires Valid()
      modifies this
      ensures Valid() && State() == InternAll(old(State()), SymAtoms(LowerIn(l, r, neg)))
      ensures ps == Numbered(LowerIn(l, r, neg), State().idx)
    {
      if !l.Ident? {
        return None;
      }
      if l.id == KoType {
        var mask := TypeMaskOf(r);
        if mask.None? {
          return None;
        }
        var p := CmpPred(FLD_TYPE, if neg then CMP_NOT_IN else CMP_IN, mask.value);
        Untouched(LowerIn(l, r, neg).value, p);
        return Some([p]);
      }
      if AttrField(l.id).None? {
        return None;
      }
      var values := ListOfStrings(r);
      if values.None? || values.value == [] {
        return None;
      }
      if neg {
        ps := NoneOf(AttrField(l.id).value, values.value);
      } else {
        ps := AttrTest(AttrField(l.id).value, ATTR_IN, values.value, 0);
      }
    }

    /** The loop of `negInPreds`: one inequality per value. */
    method NoneOf(field: u8, values: seq<string>) returns (ps: Option<seq<Pred>>)
      requires Valid()
      modifies this
      ensures Valid() && State() == InternAll(old(State()), AtomsOf(NotEqualTo(field, values)))
      ensures ps == Numbered(Some(NotEqualTo(field, values)), State().idx)
    {
      ghost var syms := NotEqualTo(field, values);
      ghost var t0 := State();
      var preds: seq<Pred> := [];
      for i := 0 to |values|
        invariant Valid() && State() == InternAll(t0, AtomsOf(syms[..i]))
        invariant preds == ResolveAll(syms[..i], State().idx)
      {
        ghost var t1 := State();
        var p := AttrPred(field, ATTR_EQ, [values[i]], 1);
        OneMore(t0, syms, i);
        ResolveStable(syms[..i], t1, State());
        preds := preds + [p];
      }
      assert syms[..|values|] == syms;
      return Some(preds);
    }

    /** `ipInPreds`. */
    method IpInPreds(l: Expr, r: Expr, neg: bool) returns (ps: Option<seq<Pred>>)
      requires Valid()
      ensures State() == InternAll(State(), SymAtoms(LowerIpIn(tx, l, r, neg)))
      ensures ps == Numbered(LowerIpIn(tx, l, r, neg), State().idx)
    {
      if WhichEndpoint(l).None? {
        return None;
      }
      var list := ListOfStrings(r);
      if list.None? {
        return None;
      }
      var cidrs := list.value;
      if cidrs == [] && !neg {
        return None;
      }
      if |cidrs| > MAX_IPSET {
        return None;
      }
      var slots: Slots := NO_SLOTS;
      for i := 0 to |cidrs|
        invariant forall k | 0 <= k < i :: tx.cidr(cidrs[k]).Some? && slots[k] == PrefixSlot(tx.cidr(cidrs[k]).value)
        invariant forall k | i <= k < 4 :: slots[k] == NO_SLOT
      {
        var pfx := tx.cidr(cidrs[i]);
        if pfx.None? {
          return None;
        }
        slots := slots[i := PrefixSlot(pfx.value)];
      }
      assert slots == CidrSlots(tx, cidrs);
      var p := Pred(0, PRED_IPSET, WhichEndpoint(l).value, if neg then 1 else 0, |cidrs|, slots);
      Untouched(LowerIpIn(tx, l, r, neg).value, p);
      return Some([p]);
    }

    /** `conj` (neg == false) and `negConj` (neg == true). */
    method Conj(e: Expr, neg: bool) returns (ps: Option<seq<Pred>>)
      requires Valid()
      modifies this
      ensures Valid() && State() == InternAll(old(State()), Requests(tx, e, neg))
      ensures ps == Numbered(Lower(tx, e, neg), State().idx)
      decreases e
    {
      match e
      case And(l, r) =>
        if neg {
          return None;
        }
        ps := BothPreds(l, r);
      case Not(x) => ps := Conj(x, !neg);
      case _ => ps := LeafPreds(e, neg);
    }

    /** The cases of `conj` that compare, and those that it refuses. */
    method LeafPreds(e: Expr, neg: bool) returns (ps: Option<seq<Pred>>)
      requires Valid() && !e.And? && !e.Not?
      modifies this
      ensures Valid() && State() == InternAll(old(State()), SymAtoms(Lower(tx, e, neg)))
      ensures ps == Numbered(Lower(tx, e, neg), State().idx)
    {
      match e
      case Cmp(op, l, r) => ps := CmpPreds(if neg then Flip(op) else op, l, r);
      case In(l, r) => ps := InPreds(l, r, neg);
      case IpIn(l, r) => ps := IpInPreds(l, r, neg);
      case _ => ps := None;
    }

    /** The conjunction case of `conj`. */
    method BothPreds(l: Expr, r: Expr) returns (ps: Option<seq<Pred>>)
      requires Valid()
      modifies this
      ensures Valid() && State() == InternAll(old(State()), Requests(tx, And(l, r), false))
      ensures ps == Numbered(Lower(tx, And(l, r), false), State().idx)
      decreases And(l, r), 0
    {
      var left := Conj(l, false);
      if left.None? {
        assert Requests(tx, And(l, r), false) == Requests(tx, l, false);
        return None;
      }
      ghost var t1 := State();
      var right := Conj(r, false);
      BothSides(tx, l, r, old(State()));
      if right.None? {
        return None;
      }
      ResolveBoth(Lower(tx, l, false).value, Lower(tx, r, false).value, t1, State());
      ps := Some(left.value + right.value);
    }
  }

  function SymAtoms(o: Option<seq<Sym>>): seq<Atom> {
    if o.Some? then AtomsOf(o.value) else []
  }
}
