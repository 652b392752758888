/** Which filters the kernel can decide: the pushable grammar, written down
    without the compiler, against what the compiler lowers. */
module Pushdown {
  import opened Bits
  import opened Addresses
  import opened Events
  import opened Cel
  import opened Program
  import opened GoVm
  import opened Lowering
  import opened CompilerCorrectness
  import opened Interning
  import opened Compiler
  import opened Filters

  // Type constants

  /** The expression has the name of type `t` as its value on every event. */
  ghost predicate AlwaysNames(tx: Text, e: Expr, t: EventType) {
    forall ev: Event :: Eval(tx, e, ev) == VStr(TypeName(t))
  }

  const BASE := EVENT0.(typ := PROBE)

  /** The endpoint variables print different addresses differently. */
  lemma EndpointVaries(tx: Text, id: Ident, t: EventType)
    requires TextOk(tx) && (id == KoLocalAddr || id == KoRemoteAddr)
    ensures !AlwaysNames(tx, Ident(id), t)
  {
    var a, b := BASE, BASE.(localIp := V4([1, 0, 0, 0]), remoteIp := V4([1, 0, 0, 0]));
    assert Unmap(tx.host(tx.show(ZERO_IP, 0))) == ZERO_IP;
    assert Unmap(tx.host(tx.show(V4([1, 0, 0, 0]), 0))) == V4([1, 0, 0, 0]);
    assert Eval(tx, Ident(id), a) == VStr(tx.show(ZERO_IP, 0));
    assert Eval(tx, Ident(id), b) == VStr(tx.show(V4([1, 0, 0, 0]), 0));
  }

  lemma TypeVaries(tx: Text, t: EventType)
    ensures !AlwaysNames(tx, Ident(KoType), t)
  {
    assert NAME_PROBE[0] == 'p' && NAME_CLOSED[0] == 'c';
    assert Eval(tx, Ident(KoType), BASE) == VStr(NAME_PROBE);
    assert Eval(tx, Ident(KoType), EVENT0) == VStr(NAME_CLOSED);
  }

  lemma NameNotEmpty(t: EventType)
    ensures TypeName(t) != ""
  {
    assert |NAME_FAILED| == 11 && |NAME_CLOSED| == 11 && |NAME_RETRANSMIT| == 10 && |NAME_PROBE| == 5;
  }

  lemma NotATypeName(tx: Text, id: Ident, t: EventType)
    requires TextOk(tx) && TypeOf(Ident(id)).None?
    ensures !AlwaysNames(tx, Ident(id), t)
  {
    NameNotEmpty(t);
    if id == KoType {
      TypeVaries(tx, t);
    } else if id == KoLocalAddr || id == KoRemoteAddr {
      EndpointVaries(tx, id, t);
    } else {
      assert Eval(tx, Ident(id), BASE) != VStr(TypeName(t));
    }
  }

  /** `eventTypeOf` recognises exactly the identifiers and literals that name a known type. */
  lemma TypeOfExact(tx: Text, e: Expr, t: EventType)
    requires TextOk(tx) && (e.Ident? || e.Lit?)
    ensures TypeOf(e) == Some(t) <==> 1 <= t <= 4 && AlwaysNames(tx, e, t)
  {
    if TypeOf(e).Some? {
      var k := TypeOf(e).value;
      assert Eval(tx, e, BASE) == VStr(TypeName(k));
      NamesOf(tx, e);
      if 1 <= t <= 4 { NameIsType(k, t); }
    } else if e.Ident? {
      NotATypeName(tx, e.id, t);
    } else if 1 <= t <= 4 {
      assert TypeByName(TypeName(t)) == Some(t) by { KnownNames(t); }
      assert Eval(tx, e, BASE) == e.v;
    }
  }

  lemma NamesOf(tx: Text, e: Expr)
    requires TypeOf(e).Some?
    ensures 1 <= TypeOf(e).value <= 4 && AlwaysNames(tx, e, TypeOf(e).value)
  {
    TypeIsSmall(e);
    forall ev: Event ensures Eval(tx, e, ev) == VStr(TypeName(TypeOf(e).value)) {
      TypeOfMeaning(tx, e, ev);
    }
  }

  // The grammar

  const TYPE_CONSTANTS := {KoTypeConnFailed, KoTypeConnClosed, KoTypeRetransmit, KoTypeProbe}
  const TYPE_NAMES := {"conn_failed", "conn_closed", "retransmit", "probe"}
  const STATISTICS := {KoRttUs, KoLifeUs, KoRetransmits, KoSegsOut, KoError}
  const ATTRIBUTES := {KoNamespace, KoContainer, KoPod}
  const ENDPOINTS := {KoLocalAddr, KoRemoteAddr}
  const BUILTIN_LISTS := map[KoLoopbackCidrs := LOOPBACK_CIDRS, KoPrivateCidrs := PRIVATE_CIDRS]

  /** A type constant, or the literal name of a type. */
  predicate NamesAType(e: Expr) {
    (e.Ident? && e.id in TYPE_CONSTANTS) || (e.Lit? && e.v.VStr? && e.v.s in TYPE_NAMES)
  }

  /** A variable and a constant that can be compared: a type with a type, a
      statistics field with an integer, an attribute with a string for (in)equality. */
  predicate Comparable(id: Ident, op: CmpOp, c: Expr) {
    (id == KoType && NamesAType(c)) ||
    (id in STATISTICS && c.Lit? && c.v.VInt?) ||
    (id in ATTRIBUTES && (op == Eq || op == Neq) && c.Lit? && c.v.VStr?)
  }

  predicate AllTypes(elems: seq<Expr>, n: nat)
    requires n <= |elems|
  {
    forall i | 0 <= i < n :: NamesAType(elems[i])
  }

  predicate StringLiteral(e: Expr) {
    e.Lit? && e.v.VStr?
  }

  /** `e` is the list of the texts `ss`, built in or written out. */
  predicate ListsTexts(e: Expr, ss: seq<string>) {
    (e.Ident? && e.id in BUILTIN_LISTS && BUILTIN_LISTS[e.id] == ss) ||
    (e.List? && |e.elems| == |ss| && forall i | 0 <= i < |ss| :: e.elems[i] == Lit(VStr(ss[i])))
  }

  /** A non-empty list of types for the type, or of texts for an attribute. */
  predicate PushableIn(l: Expr, r: Expr) {
    l.Ident? &&
    ((l.id == KoType && r.List? && r.elems != [] && AllTypes(r.elems, |r.elems|)) ||
     (l.id in ATTRIBUTES &&
      ((r.Ident? && r.id in BUILTIN_LISTS) ||
       (r.List? && r.elems != [] && forall i | 0 <= i < |r.elems| :: StringLiteral(r.elems[i])))))
  }

  /** An endpoint in at most four prefixes that parse; in none at all only under a negation. */
  ghost predicate PushableIpIn(tx: Text, l: Expr, r: Expr, neg: bool) {
    l.Ident? && l.id in ENDPOINTS &&
    exists ss: seq<string> :: ListsTexts(r, ss) && |ss| <= 4 && (ss == [] ==> neg) &&
                              forall i | 0 <= i < |ss| :: tx.cidr(ss[i]).Some?
  }

  /** Conjunctions of comparisons, memberships and address sets, negated at the
      leaves or, elsewhere, an even number of times. */
  ghost predicate Pushable(tx: Text, e: Expr, neg: bool) {
    match e
    case And(l, r) => !neg && Pushable(tx, l, false) && Pushable(tx, r, false)
    case Not(x) => Pushable(tx, x, !neg)
    case Cmp(op, l, r) => if l.Ident? then Comparable(l.id, op, r) else r.Ident? && Comparable(r.id, op, l)
    case In(l, r) => PushableIn(l, r)
    case IpIn(l, r) => PushableIpIn(tx, l, r, neg)
    case _ => false
  }

  // The grammar against the compiler

  lemma TypeOfGrammar(e: Expr)
    ensures TypeOf(e).Some? <==> NamesAType(e)
  {
  }

  lemma CmpGrammar(op: CmpOp, l: Expr, r: Expr, neg: bool)
    ensures LowerCmp(if neg then Flip(op) else op, l, r).Some? <==>
            if l.Ident? then Comparable(l.id, op, r) else r.Ident? && Comparable(r.id, op, l)
  {
    var op' := if neg then Flip(op) else op;
    if l.Ident? { SideGrammar(l.id, op', r); } else if r.Ident? { SideGrammar(r.id, Flip(op'), l); }
  }

  lemma SideGrammar(id: Ident, op: CmpOp, c: Expr)
    ensures LowerSide(id, op, c).Some? <==> Comparable(id, op, c)
  {
    TypeOfGrammar(c);
  }

  lemma WithTypeGrammar(mask: Option<u64>, e: Expr)
    ensures WithType(mask, TypeOf(e)).Some? <==> mask.Some? && NamesAType(e)
  {
    TypeOfGrammar(e);
  }

  lemma {:induction false} MaskGrammar(elems: seq<Expr>, n: nat)
    requires n <= |elems|
    ensures TypeMask(elems, n).Some? <==> AllTypes(elems, n)
  {
    if n > 0 {
      MaskGrammar(elems, n - 1);
      WithTypeGrammar(TypeMask(elems, n - 1), elems[n - 1]);
      assert AllTypes(elems, n) <==> AllTypes(elems, n - 1) && NamesAType(elems[n - 1]);
    }
  }

  lemma ListGrammar(e: Expr)
    ensures StringList(e).Some? ==> ListsTexts(e, StringList(e).value)
    ensures forall ss | ListsTexts(e, ss) :: StringList(e) == Some(ss)
  {
    forall ss | ListsTexts(e, ss) ensures StringList(e) == Some(ss) {
      if e.List? { assert LiteralTexts(e.elems) == ss; }
    }
  }

  lemma InGrammar(l: Expr, r: Expr, neg: bool)
    ensures LowerIn(l, r, neg).Some? <==> PushableIn(l, r)
  {
    if r.List? { MaskGrammar(r.elems, |r.elems|); }
  }

  lemma IpInGrammar(tx: Text, l: Expr, r: Expr, neg: bool)
    ensures LowerIpIn(tx, l, r, neg).Some? <==> PushableIpIn(tx, l, r, neg)
  {
    ListGrammar(r);
    if LowerIpIn(tx, l, r, neg).Some? {
      assert ListsTexts(r, StringList(r).value);
    }
  }

  /** The compiler pushes down exactly the pushable expressions. */
  lemma {:induction false} LowerExact(tx: Text, e: Expr, neg: bool)
    ensures Lower(tx, e, neg).Some? <==> Pushable(tx, e, neg)
  {
    match e
    case And(l, r) =>
      LowerExact(tx, l, false);
      LowerExact(tx, r, false);
    case Not(x) => LowerExact(tx, x, !neg);
    case Cmp(op, l, r) => CmpGrammar(op, l, r, neg);
    case In(l, r) => InGrammar(l, r, neg);
    case IpIn(l, r) => IpInGrammar(tx, l, r, neg);
    case _ =>
  }

  /** In a compiled set, exactly the filters outside the grammar are left to userspace. */
  lemma UserspaceExact(tx: Text, cfg: seq<Config>, s: FilterSet, i: nat)
    requires IsCompiled(tx, cfg, s) && i < |cfg|
    ensures s.userspace[i] <==> !Pushable(tx, s.exprs[i], false)
  {
    LowerExact(tx, ExprOf(cfg[i]), false);
  }
}
