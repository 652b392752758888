/** Lowered filters mean what CEL says, with the exact boundary of each case
    where the code departs from that. */
module CompilerCorrectness {
  import opened Bits
  import opened Addresses
  import opened Events
  import opened Cel
  import opened Program
  import opened GoVm
  import opened Lowering

  // Operators

  /** Tests with truth `b` stand for the value `v`, or for its complement. */
  predicate Means(v: Value, neg: bool, b: bool) {
    v.VBool? && (b <==> v.b != neg)
  }

  /** The operator that a swap of the operands calls for. */
  function Mirror(op: CmpOp): CmpOp {
    match op
    case Eq => Eq
    case Neq => Neq
    case Lt => Gt
    case Le => Ge
    case Gt => Lt
    case Ge => Le
  }

  /** Swapping operands preserves meaning with the mirrored operator and no other. */
  lemma MirrorExact(op: CmpOp, op': CmpOp)
    ensures (forall x: int, y: int :: IntCmp(op, x, y) == IntCmp(op', y, x)) <==> op' == Mirror(op)
  {
    if op' != Mirror(op) {
      assert IntCmp(op, 0, 0) != IntCmp(op', 0, 0) ||
             IntCmp(op, 0, 1) != IntCmp(op', 1, 0) ||
             IntCmp(op, 1, 0) != IntCmp(op', 0, 1);
    }
  }

  /** `flipCmp` is the complement on every pair of values that compare. */
  lemma FlipComplements(op: CmpOp, x: Value, y: Value)
    requires CmpValues(op, x, y).VBool?
    ensures CmpValues(Flip(op), x, y) == VBool(!CmpValues(op, x, y).b)
  {
  }

  /** The VM's unsigned comparison is CEL's signed one iff the operator is an
      equality or both sides have the same sign. */
  lemma UnsignedExact(op: CmpOp, x: u64, i: i64)
    ensures CmpField(OpCode(op), x, Unsigned(i)) == IntCmp(op, Signed(x), i)
       <==> !Ordering(op) || (x < TWO63 <==> i >= 0)
  {
  }

  /** A lowered comparison has CEL's value on an event. */
  predicate CmpAgrees(tx: Text, op: CmpOp, l: Expr, r: Expr, ev: Event)
    requires LowerCmp(op, l, r).Some?
  {
    CmpValues(op, Eval(tx, l, ev), Eval(tx, r, ev)) == VBool(AllHold(LowerCmp(op, l, r).value, ev))
  }

  /** A constant-first comparison of a statistics field, lowered as written,
      agrees with CEL on an event iff the operator is an ordering, the constant
      is not negative and the field differs from it. */
  lemma ConstantFirstExact(tx: Text, op: CmpOp, id: Ident, i: i64, ev: Event)
    requires StatsField(id).Some? && EventOk(AnyEvent, ev)
    ensures CmpAgrees(tx, op, Lit(VInt(i)), Ident(id), ev)
       <==> Ordering(op) && i >= 0 && Lookup(tx, id, ev) != VInt(i)
  {
    var syms := LowerCmp(op, Lit(VInt(i)), Ident(id)).value;
    assert AllHold(syms, ev) == SymHolds(syms[0], ev);
    StatsLookup(AnyEvent, tx, id, ev);
  }

  /** Under a negation the boundary is the same. */
  lemma NegatedConstantFirstExact(tx: Text, op: CmpOp, id: Ident, i: i64, ev: Event)
    requires StatsField(id).Some? && EventOk(AnyEvent, ev)
    ensures Means(CmpValues(op, VInt(i), Lookup(tx, id, ev)), true,
                  AllHold(Lower(tx, Cmp(op, Lit(VInt(i)), Ident(id)), true).value, ev))
       <==> Ordering(op) && i >= 0 && Lookup(tx, id, ev) != VInt(i)
  {
    StatsLookup(AnyEvent, tx, id, ev);
    ConstantFirstExact(tx, Flip(op), id, i, ev);
    FlipComplements(op, VInt(i), Lookup(tx, id, ev));
  }

  lemma StatsLookup(sc: Scope, tx: Text, id: Ident, ev: Event)
    requires StatsField(id).Some? && EventOk(sc, ev)
    ensures Lookup(tx, id, ev) == VInt(EventField(StatsField(id).value, ev))
    ensures 0 <= EventField(StatsField(id).value, ev) <= FieldMax(sc, id)
  {
  }

  // Types

  lemma TypeOfMeaning(tx: Text, e: Expr, ev: Event)
    requires TypeOf(e).Some?
    ensures 1 <= TypeOf(e).value <= 4
    ensures Eval(tx, e, ev) == VStr(TypeName(TypeOf(e).value))
  {
  }

  /** Two type names are equal only for equal types, if one of them is known. */
  lemma NameIsType(x: EventType, t: EventType)
    requires 1 <= t <= 4
    ensures TypeName(x) == TypeName(t) <==> x == t
  {
    assert |NAME_FAILED| == 11 && |NAME_CLOSED| == 11 && |NAME_RETRANSMIT| == 10 && |NAME_PROBE| == 5;
    assert NAME_FAILED[5] == 'f' && NAME_CLOSED[5] == 'c';
    NamesDistinct(TypeName(t), x);
  }

  /** One of the first `n` elements names type `k`. */
  predicate Names(elems: seq<Expr>, n: nat, k: nat)
    requires n <= |elems|
  {
    exists i :: 0 <= i < n && NamesType(elems[i], k)
  }

  predicate NamesType(e: Expr, k: nat) {
    TypeOf(e).Some? && TypeOf(e).value == k
  }

  lemma AddTypeBit(m: u64, t: EventType, k: nat)
    requires t < 64
    ensures Bit(Or64(m, One64(t)), k) <==> Bit(m, k) || k == t
  {
    OrBit(m, One64(t), k);
    One64Bit(t, k);
  }

  /** Bit k of the mask says that type k is among the listed ones. */
  lemma {:induction false} TypeMaskBit(elems: seq<Expr>, n: nat, k: nat)
    requires n <= |elems| && TypeMask(elems, n).Some?
    ensures Bit(TypeMask(elems, n).value, k) <==> Names(elems, n, k)
  {
    if n == 0 {
      ZeroBit(k);
    } else {
      TypeMaskBit(elems, n - 1, k);
      TypeIsSmall(elems[n - 1]);
      AddTypeBit(TypeMask(elems, n - 1).value, TypeOf(elems[n - 1]).value, k);
      NamesStep(elems, n, k);
    }
  }

  lemma TypeIsSmall(e: Expr)
    ensures TypeOf(e).Some? ==> 1 <= TypeOf(e).value <= 4
  {
  }

  lemma NamesStep(elems: seq<Expr>, n: nat, k: nat)
    requires 0 < n <= |elems|
    ensures Names(elems, n, k) <==> Names(elems, n - 1, k) || NamesType(elems[n - 1], k)
  {
    if Names(elems, n, k) {
      var i :| 0 <= i < n && NamesType(elems[i], k);
      assert i < n - 1 || i == n - 1;
    }
  }

  /** The event's type bit meets a mask iff the mask has that bit. */
  lemma TypeBitMeets(t: EventType, mask: u64)
    ensures Bits.And(One64(t), mask) != 0 <==> t < 64 && Bit(mask, t)
  {
    AndNonZero(One64(t), mask);
    forall k: nat ensures Bit(One64(t), k) <==> k == t && t < 64 {
      One64Bit(t, k);
    }
  }

  lemma TypeSymsMeaning(op: CmpOp, t: EventType, ev: Event)
    requires 1 <= t <= 4
    ensures AllHold(TypeSyms(op, t), ev) ==
            if op == Eq then ev.typ == t else if op == Neq then ev.typ != t else true
  {
    TypeBitMeets(ev.typ, One64(t));
    One64Bit(t, ev.typ);
    if !Ordering(op) {
      assert AllHold(TypeSyms(op, t), ev) == SymHolds(TypeSyms(op, t)[0], ev);
    }
  }

  lemma {:induction false} LessAt(a: string, b: string, k: nat)
    requires k < |a| && k < |b| && a[..k] == b[..k] && a[k] < b[k]
    ensures StrLess(a, b) && !StrLess(b, a)
  {
    if k > 0 {
      assert a[0] == a[..k][0] == b[0];
      assert a[1..][..k - 1] == a[..k][1..] && b[1..][..k - 1] == b[..k][1..];
      LessAt(a[1..], b[1..], k - 1);
    }
  }

  lemma {:induction false} NotLessSelf(a: string)
    ensures !StrLess(a, a)
  {
    if a != "" { NotLessSelf(a[1..]); }
  }

  /** "conn_closed" is the least of all type names. */
  lemma ClosedIsLeast(t: EventType)
    ensures !StrLess(TypeName(t), TypeName(CONN_CLOSED))
    ensures t != CONN_CLOSED ==> StrLess(TypeName(CONN_CLOSED), TypeName(t))
  {
    var c, n := NAME_CLOSED, TypeName(t);
    assert |c| == 11 && c[0] == 'c' && c[5] == 'c';
    if t == CONN_CLOSED {
      NotLessSelf(n);
    } else if t == CONN_FAILED {
      assert c[..5] == "conn_" && n[..5] == "conn_";
      assert n[5] == 'f';
      LessAt(c, n, 5);
    } else {
      assert n[0] == 'r' || n[0] == 'p' || n[0] == 'u';
      LessAt(c, n, 0);
    }
  }

  /** Among the four types of submitted records, "retransmit" is the greatest name. */
  lemma RetransmitIsGreatest(t: EventType)
    requires 1 <= t <= 4
    ensures !StrLess(TypeName(RETRANSMIT), TypeName(t))
    ensures t != RETRANSMIT ==> StrLess(TypeName(t), TypeName(RETRANSMIT))
  {
    assert NAME_FAILED[0] == 'c' && NAME_CLOSED[0] == 'c' && NAME_RETRANSMIT[0] == 'r' && NAME_PROBE[0] == 'p';
    if t == RETRANSMIT {
      NotLessSelf(TypeName(t));
    } else {
      LessAt(TypeName(t), TypeName(RETRANSMIT), 0);
    }
  }

  /** The name of an unknown type is greater than all four known ones. */
  lemma UnknownIsGreatest(t: EventType)
    requires 1 <= t <= 4
    ensures StrLess(TypeName(t), TypeName(0)) && !StrLess(TypeName(0), TypeName(t))
  {
    assert TypeName(0)[0] == 'u';
    assert NAME_FAILED[0] == 'c' && NAME_CLOSED[0] == 'c' && NAME_RETRANSMIT[0] == 'r' && NAME_PROBE[0] == 'p';
    LessAt(TypeName(t), TypeName(0), 0);
  }

  // Comparisons

  /** Every type of the scope is on the side of `t` that `TypeBound` says. */
  lemma TypeBoundOrder(sc: Scope, first: bool, t: EventType, ev: Event)
    requires EventOk(sc, ev) && TypeBound(sc, first, Some(t))
    ensures if first then !StrLess(TypeName(ev.typ), TypeName(t)) else !StrLess(TypeName(t), TypeName(ev.typ))
  {
    if first { ClosedIsLeast(ev.typ); } else { RetransmitIsGreatest(ev.typ); }
  }

  lemma TypeFirst(sc: Scope, tx: Text, op: CmpOp, r: Expr, ev: Event)
    requires TypeOf(r).Some? && EventOk(sc, ev) && CmpFaithful(sc, op, Ident(KoType), r)
    ensures CmpAgrees(tx, op, Ident(KoType), r, ev)
  {
    var t := TypeOf(r).value;
    TypeOfMeaning(tx, r, ev);
    TypeSymsMeaning(op, t, ev);
    NameIsType(ev.typ, t);
    if Ordering(op) { TypeBoundOrder(sc, op == Ge, t, ev); }
  }

  lemma TypeLast(sc: Scope, tx: Text, op: CmpOp, l: Expr, ev: Event)
    requires !l.Ident? && TypeOf(l).Some? && EventOk(sc, ev) && CmpFaithful(sc, op, l, Ident(KoType))
    ensures CmpAgrees(tx, op, l, Ident(KoType), ev)
  {
    TypeOfMeaning(tx, l, ev);
    TypeSymsMeaning(Flip(op), TypeOf(l).value, ev);
    TypeBoundOrder(sc, op == Le, TypeOf(l).value, ev);
  }

  lemma FieldFirst(sc: Scope, tx: Text, op: CmpOp, id: Ident, r: Expr, ev: Event)
    requires id != KoType && LowerCmp(op, Ident(id), r).Some? && EventOk(sc, ev)
    requires CmpFaithful(sc, op, Ident(id), r)
    ensures CmpAgrees(tx, op, Ident(id), r, ev)
  {
    var syms := LowerCmp(op, Ident(id), r).value;
    assert AllHold(syms, ev) == SymHolds(syms[0], ev);
    if StatsField(id).Some? {
      StatsLookup(sc, tx, id, ev);
      UnsignedExact(op, EventField(StatsField(id).value, ev), r.v.i);
    }
  }

  lemma FieldLast(sc: Scope, tx: Text, op: CmpOp, l: Expr, id: Ident, ev: Event)
    requires id != KoType && !l.Ident? && LowerCmp(op, l, Ident(id)).Some? && EventOk(sc, ev)
    requires CmpFaithful(sc, op, l, Ident(id))
    ensures CmpAgrees(tx, op, l, Ident(id), ev)
  {
    StatsLookup(sc, tx, id, ev);
    ConstantFirstExact(tx, op, id, l.v.i, ev);
  }

  const ZERO_IP := V4([0, 0, 0, 0])
  const EVENT0 := Event(CONN_CLOSED, NO_ATTRS, 0, 0, 0, 0, 0, ZERO_IP, 0, ZERO_IP, 0)

  function WithField(sc: Scope, id: Ident, x: u64): (ev: Event)
    requires StatsField(id).Some? && x <= FieldMax(sc, id)
    ensures EventOk(sc, ev) && EventField(StatsField(id).value, ev) == x
  {
    match id
    case KoRttUs => EVENT0.(rttUs := x)
    case KoLifeUs => EVENT0.(lifeUs := x)
    case KoRetransmits => EVENT0.(retransmits := x)
    case KoSegsOut => EVENT0.(segsOut := x)
    case KoError => EVENT0.(errno := x)
  }

  /** An event on which the empty conjunction is wrong for an ordering that asks
      types to be above `t` (or below it), or strictly so. */
  function TypeWitness(sc: Scope, above: bool, strict: bool, t: EventType): Event {
    EVENT0.(typ := if strict then t else if above then CONN_CLOSED else if sc.AnyEvent? then 0 else RETRANSMIT)
  }

  /** An event of the scope on which an unfaithful comparison goes wrong. */
  function Witness(sc: Scope, op: CmpOp, l: Expr, r: Expr): Event {
    var (id, c) := if l.Ident? then (l.id, r) else if r.Ident? then (r.id, l) else (KoType, l);
    if id == KoType && TypeOf(c).Some? then
      TypeWitness(sc, if l.Ident? then op == Ge else op == Le, op == Lt || op == Gt, TypeOf(c).value)
    else if StatsField(id).Some? && c.Lit? && c.v.VInt? && 0 <= c.v.i <= FieldMax(sc, id)
    then WithField(sc, id, c.v.i)
    else EVENT0
  }

  /** The name order of a type and the witness for it. */
  lemma TypeWitnessOrder(sc: Scope, above: bool, strict: bool, t: EventType)
    requires 1 <= t <= 4
    ensures var w := TypeWitness(sc, above, strict, t);
            EventOk(sc, w) && (strict ==> w.typ == t && !StrLess(TypeName(t), TypeName(w.typ))) &&
            (!strict && !TypeBound(sc, above, Some(t)) ==>
              if above then StrLess(TypeName(w.typ), TypeName(t)) else StrLess(TypeName(t), TypeName(w.typ)))
  {
    NotLessSelf(TypeName(t));
    ClosedIsLeast(t);
    UnknownIsGreatest(t);
    RetransmitIsGreatest(t);
  }

  lemma UnfaithfulTypeFirst(sc: Scope, tx: Text, op: CmpOp, r: Expr)
    requires TypeOf(r).Some? && !CmpFaithful(sc, op, Ident(KoType), r)
    ensures !CmpAgrees(tx, op, Ident(KoType), r, Witness(sc, op, Ident(KoType), r))
  {
    var w, t := Witness(sc, op, Ident(KoType), r), TypeOf(r).value;
    TypeOfMeaning(tx, r, w);
    TypeSymsMeaning(op, t, w);
    TypeWitnessOrder(sc, op == Ge, op == Lt || op == Gt, t);
  }

  lemma UnfaithfulTypeLast(sc: Scope, tx: Text, op: CmpOp, l: Expr)
    requires !l.Ident? && TypeOf(l).Some? && !CmpFaithful(sc, op, l, Ident(KoType))
    ensures !CmpAgrees(tx, op, l, Ident(KoType), Witness(sc, op, l, Ident(KoType)))
  {
    var w, t := Witness(sc, op, l, Ident(KoType)), TypeOf(l).value;
    TypeOfMeaning(tx, l, w);
    TypeSymsMeaning(Flip(op), t, w);
    NameIsType(w.typ, t);
    TypeWitnessOrder(sc, op == Le, op == Lt || op == Gt, t);
  }

  /** The exact boundary of comparison lowering: it agrees with CEL on all
      events of a scope iff `CmpFaithful`. */
  lemma CmpExact(sc: Scope, tx: Text, op: CmpOp, l: Expr, r: Expr)
    requires LowerCmp(op, l, r).Some?
    ensures (forall ev: Event | EventOk(sc, ev) :: CmpAgrees(tx, op, l, r, ev)) <==> CmpFaithful(sc, op, l, r)
  {
    if CmpFaithful(sc, op, l, r) {
      forall ev: Event | EventOk(sc, ev) ensures CmpAgrees(tx, op, l, r, ev) {
        FaithfulAgrees(sc, tx, op, l, r, ev);
      }
    } else {
      Unfaithful(sc, tx, op, l, r);
    }
  }

  lemma FaithfulAgrees(sc: Scope, tx: Text, op: CmpOp, l: Expr, r: Expr, ev: Event)
    requires LowerCmp(op, l, r).Some? && CmpFaithful(sc, op, l, r) && EventOk(sc, ev)
    ensures CmpAgrees(tx, op, l, r, ev)
  {
    if l == Ident(KoType) {
      TypeFirst(sc, tx, op, r, ev);
    } else if l.Ident? {
      FieldFirst(sc, tx, op, l.id, r, ev);
    } else if r == Ident(KoType) {
      TypeLast(sc, tx, op, l, ev);
    } else {
      FieldLast(sc, tx, op, l, r.id, ev);
    }
  }

  lemma Unfaithful(sc: Scope, tx: Text, op: CmpOp, l: Expr, r: Expr)
    requires LowerCmp(op, l, r).Some? && !CmpFaithful(sc, op, l, r)
    ensures EventOk(sc, Witness(sc, op, l, r)) && !CmpAgrees(tx, op, l, r, Witness(sc, op, l, r))
  {
    WitnessOk(sc, op, l, r);
    if l == Ident(KoType) {
      UnfaithfulTypeFirst(sc, tx, op, r);
    } else if l.Ident? {
      UnfaithfulStatsFirst(sc, tx, op, l.id, r);
    } else if r == Ident(KoType) {
      UnfaithfulTypeLast(sc, tx, op, l);
    } else if StatsField(r.id).Some? {
      UnfaithfulStatsLast(sc, tx, op, l, r.id);
    } else {
      UnfaithfulAttrLast(sc, tx, op, l, r.id);
    }
  }

  lemma WitnessOk(sc: Scope, op: CmpOp, l: Expr, r: Expr)
    ensures EventOk(sc, Witness(sc, op, l, r))
  {
    TypeIsSmall(l);
    TypeIsSmall(r);
  }

  lemma UnfaithfulStatsFirst(sc: Scope, tx: Text, op: CmpOp, id: Ident, r: Expr)
    requires id != KoType && LowerCmp(op, Ident(id), r).Some? && !CmpFaithful(sc, op, Ident(id), r)
    ensures !CmpAgrees(tx, op, Ident(id), r, Witness(sc, op, Ident(id), r))
  {
    var w := Witness(sc, op, Ident(id), r);
    var syms := LowerCmp(op, Ident(id), r).value;
    assert AllHold(syms, w) == SymHolds(syms[0], w);
    StatsLookup(AnyEvent, tx, id, w);
    UnsignedExact(op, EventField(StatsField(id).value, w), r.v.i);
  }

  lemma UnfaithfulStatsLast(sc: Scope, tx: Text, op: CmpOp, l: Expr, id: Ident)
    requires !l.Ident? && StatsField(id).Some?
    requires LowerCmp(op, l, Ident(id)).Some? && !CmpFaithful(sc, op, l, Ident(id))
    ensures !CmpAgrees(tx, op, l, Ident(id), Witness(sc, op, l, Ident(id)))
  {
    var w := Witness(sc, op, l, Ident(id));
    StatsLookup(AnyEvent, tx, id, w);
    ConstantFirstExact(tx, op, id, l.v.i, w);
  }

  /** Equality of an attribute, constant first, is lowered to its negation. */
  lemma UnfaithfulAttrLast(sc: Scope, tx: Text, op: CmpOp, l: Expr, id: Ident)
    requires !l.Ident? && AttrField(id).Some? && LowerCmp(op, l, Ident(id)).Some?
    ensures !CmpAgrees(tx, op, l, Ident(id), Witness(sc, op, l, Ident(id)))
  {
    var w := Witness(sc, op, l, Ident(id));
    var syms := LowerCmp(op, l, Ident(id)).value;
    assert AllHold(syms, w) == SymHolds(syms[0], w);
  }

  lemma CmpMeaning(sc: Scope, tx: Text, op: CmpOp, l: Expr, r: Expr, neg: bool, ev: Event)
    requires EventOk(sc, ev) && LowerCmp(if neg then Flip(op) else op, l, r).Some?
    requires CmpFaithful(sc, if neg then Flip(op) else op, l, r)
    ensures Means(CmpValues(op, Eval(tx, l, ev), Eval(tx, r, ev)), neg,
                  AllHold(LowerCmp(if neg then Flip(op) else op, l, r).value, ev))
  {
    var op' := if neg then Flip(op) else op;
    FaithfulAgrees(sc, tx, op', l, r, ev);
    FlipComplements(op', Eval(tx, l, ev), Eval(tx, r, ev));
    assert Flip(Flip(op)) == op;
  }

  // Lists

  lemma StringListMeaning(tx: Text, e: Expr, ev: Event)
    requires StringList(e).Some?
    ensures Eval(tx, e, ev) == VList(Strings(StringList(e).value))
  {
    if e.List? {
      var vs := EvalAll(tx, e.elems, ev);
      var want := Strings(StringList(e).value);
      forall i | 0 <= i < |e.elems| ensures vs[i] == want[i] {
        assert e.elems[i].Lit?;
      }
      assert vs == want;
    }
  }

  lemma StringsIn(s: string, ss: seq<string>)
    ensures VStr(s) in Strings(ss) <==> s in ss
  {
    var vs := Strings(ss);
    if s in ss {
      var i :| 0 <= i < |ss| && ss[i] == s;
      assert vs[i] == VStr(s);
    }
  }

  lemma {:induction false} AllNamed(elems: seq<Expr>, n: nat, i: nat)
    requires i < n <= |elems| && TypeMask(elems, n).Some?
    ensures TypeOf(elems[i]).Some?
  {
    if i < n - 1 { AllNamed(elems, n - 1, i); }
  }

  lemma TypeListValues(tx: Text, elems: seq<Expr>, ev: Event)
    requires TypeMask(elems, |elems|).Some?
    ensures var vs := EvalAll(tx, elems, ev);
            VErr !in vs && (VStr(TypeName(ev.typ)) in vs <==> Names(elems, |elems|, ev.typ))
  {
    var vs := EvalAll(tx, elems, ev);
    forall i | 0 <= i < |elems|
      ensures vs[i].VStr? && (vs[i].s == TypeName(ev.typ) <==> NamesType(elems[i], ev.typ))
    {
      AllNamed(elems, |elems|, i);
      TypeOfMeaning(tx, elems[i], ev);
      NameIsType(ev.typ, TypeOf(elems[i]).value);
    }
  }

  lemma TypeListMeaning(tx: Text, e: Expr, ev: Event)
    requires TypeListMask(e).Some?
    ensures InValues(VStr(TypeName(ev.typ)), Eval(tx, e, ev)) ==
            VBool(Bits.And(One64(ev.typ), TypeListMask(e).value) != 0)
  {
    TypeListValues(tx, e.elems, ev);
    TypeBitMeets(ev.typ, TypeListMask(e).value);
    TypeMaskBit(e.elems, |e.elems|, ev.typ);
    if Names(e.elems, |e.elems|, ev.typ) {
      var i :| 0 <= i < |e.elems| && NamesType(e.elems[i], ev.typ);
      TypeIsSmall(e.elems[i]);
    }
  }

  lemma MaskTestMeaning(mask: u64, neg: bool, ev: Event)
    ensures AllHold([SymCmp(FLD_TYPE, if neg then CMP_NOT_IN else CMP_IN, mask)], ev)
       <==> (Bits.And(One64(ev.typ), mask) != 0) != neg
  {
    var syms := [SymCmp(FLD_TYPE, if neg then CMP_NOT_IN else CMP_IN, mask)];
    assert AllHold(syms, ev) == SymHolds(syms[0], ev);
  }

  lemma TypeInMeaning(tx: Text, r: Expr, neg: bool, ev: Event)
    requires TypeListMask(r).Some?
    ensures Means(InValues(Eval(tx, Ident(KoType), ev), Eval(tx, r, ev)), neg,
                  AllHold(LowerIn(Ident(KoType), r, neg).value, ev))
  {
    TypeListMeaning(tx, r, ev);
    MaskTestMeaning(TypeListMask(r).value, neg, ev);
  }

  lemma NotEqualMeaning(field: u8, values: seq<string>, ev: Event)
    ensures AllHold(NotEqualTo(field, values), ev) <==> AttrValue(field, ev.attrs) !in values
  {
    var syms := NotEqualTo(field, values);
    forall i | 0 <= i < |syms| ensures SymHolds(syms[i], ev) <==> AttrValue(field, ev.attrs) != values[i] {
    }
  }

  lemma InMeaning(tx: Text, l: Expr, r: Expr, neg: bool, ev: Event)
    requires LowerIn(l, r, neg).Some?
    ensures Means(InValues(Eval(tx, l, ev), Eval(tx, r, ev)), neg, AllHold(LowerIn(l, r, neg).value, ev))
  {
    if l.id == KoType {
      TypeInMeaning(tx, r, neg, ev);
    } else {
      var field, values := AttrField(l.id).value, StringList(r).value;
      var v := AttrValue(field, ev.attrs);
      assert Eval(tx, l, ev) == VStr(v);
      StringListMeaning(tx, r, ev);
      StringsIn(v, values);
      if neg {
        NotEqualMeaning(field, values, ev);
      } else {
        var syms := LowerIn(l, r, neg).value;
        assert AllHold(syms, ev) == SymHolds(syms[0], ev);
      }
    }
  }

  // IP sets

  lemma IpSetMeaning(tx: Text, cidrs: seq<string>, ip: IP)
    requires |cidrs| <= MAX_IPSET && AllParse(tx, cidrs) && CidrsOk(tx, cidrs)
    ensures InSlots(CidrSlots(tx, cidrs), |cidrs|, ip) <==> InCidrs(tx, ip, cidrs)
  {
    if ip != NoIP {
      forall i | 0 <= i < |cidrs|
        ensures GoSlotMatch(CidrSlots(tx, cidrs)[i], ip) <==> CidrHas(tx, cidrs[i], ip)
      {
        SlotMeaning(tx.cidr(cidrs[i]).value, ip);
      }
    }
  }

  lemma InCidrsUnmap(tx: Text, ip: IP, ip': IP, cidrs: seq<string>)
    requires Unmap(ip) == Unmap(ip')
    ensures InCidrs(tx, ip, cidrs) <==> InCidrs(tx, ip', cidrs)
  {
    assert forall i | 0 <= i < |cidrs| :: CidrHas(tx, cidrs[i], ip) == CidrHas(tx, cidrs[i], ip');
  }

  lemma IpInMeaning(tx: Text, l: Expr, r: Expr, neg: bool, ev: Event)
    requires TextOk(tx) && LowerIpIn(tx, l, r, neg).Some? && CidrsOk(tx, StringList(r).value)
    ensures Means(IpInValues(tx, Eval(tx, l, ev), Eval(tx, r, ev)), neg,
                  AllHold(LowerIpIn(tx, l, r, neg).value, ev))
  {
    var syms := LowerIpIn(tx, l, r, neg).value;
    var cidrs := StringList(r).value;
    var ip := Endpoint(WhichEndpoint(l).value, ev);
    var port := if l.id == KoLocalAddr then ev.localPort else ev.remotePort;
    StringListMeaning(tx, r, ev);
    assert Texts(Strings(cidrs)) == cidrs;
    assert Eval(tx, l, ev) == VStr(tx.show(ip, port));
    InCidrsUnmap(tx, tx.host(tx.show(ip, port)), ip, cidrs);
    IpSetMeaning(tx, cidrs, ip);
    assert AllHold(syms, ev) == SymHolds(syms[0], ev);
  }

  // The compiler

  /** Compiler correctness: a lowered well-formed expression has a boolean value
      on every event of the scope, and all its tests hold exactly when that value is true
      (false, for the negated stream). */
  lemma {:induction false} LowerCorrect(sc: Scope, tx: Text, e: Expr, neg: bool, ev: Event)
    requires TextOk(tx) && EventOk(sc, ev)
    requires Lower(tx, e, neg).Some? && WellFormed(sc, tx, e, neg)
    ensures Means(Eval(tx, e, ev), neg, AllHold(Lower(tx, e, neg).value, ev))
  {
    match e
    case And(l, r) =>
      LowerCorrect(sc, tx, l, false, ev);
      LowerCorrect(sc, tx, r, false, ev);
      AllHoldConcat(Lower(tx, l, false).value, Lower(tx, r, false).value, ev);
    case Not(x) =>
      LowerCorrect(sc, tx, x, !neg, ev);
    case Cmp(op, l, r) =>
      CmpMeaning(sc, tx, op, l, r, neg, ev);
    case In(l, r) =>
      InMeaning(tx, l, r, neg, ev);
    case IpIn(l, r) =>
      IpInMeaning(tx, l, r, neg, ev);
  }

  lemma AllHoldConcat(a: seq<Sym>, b: seq<Sym>, ev: Event)
    ensures AllHold(a + b, ev) <==> AllHold(a, ev) && AllHold(b, ev)
  {
    if AllHold(a + b, ev) {
      forall i | 0 <= i < |a| ensures SymHolds(a[i], ev) {
        assert (a + b)[i] == a[i];
      }
      forall i | 0 <= i < |b| ensures SymHolds(b[i], ev) {
        assert (a + b)[|a| + i] == b[i];
      }
    }
  }
}
