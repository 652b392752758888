/** Which expressions compile to a conjunction of tests, and to which tests.

    `Lower(tx, e, neg)` is `conj` for neg == false and `negConj` for neg == true,
    with attribute tests still naming their atoms by content; `Interning` and
    `Compiler` number them. */
module Lowering {
  import opened Bits
  import opened Addresses
  import opened Events
  import opened Cel
  import opened Program
  import opened GoVm

  /** A test whose attribute atom is not yet numbered. */
  datatype Sym =
    | SymCmp(field: u8, op: u8, val: u64)
    | SymIp(which: u8, neg: u8, n: SlotCount, slots: Slots)
    | SymAttr(atom: Atom, neg: u8)

  predicate SymHolds(s: Sym, ev: Event) {
    match s
    case SymCmp(field, op, val) => CmpField(op, EventField(field, ev), val)
    case SymIp(which, neg, n, slots) => InSlots(slots, n, Endpoint(which, ev)) == (neg == 0)
    case SymAttr(atom, neg) => AtomTrue(atom, ev.attrs) == (neg == 0)
  }

  predicate AllHold(syms: seq<Sym>, ev: Event) {
    forall i | 0 <= i < |syms| :: SymHolds(syms[i], ev)
  }

  // Tables

  function StatsField(id: Ident): Option<u8> {
    match id
    case KoRttUs => Some(FLD_RTT)
    case KoLifeUs => Some(FLD_LIFE)
    case KoRetransmits => Some(FLD_RETRANS)
    case KoSegsOut => Some(FLD_SEGS)
    case KoError => Some(FLD_ERRNO)
    case _ => None
  }

  function AttrField(id: Ident): Option<u8> {
    match id
    case KoNamespace => Some(ATTR_NAMESPACE)
    case KoContainer => Some(ATTR_CONTAINER)
    case KoPod => Some(ATTR_POD)
    case _ => None
  }

  function OpCode(op: CmpOp): u8 {
    match op
    case Eq => CMP_EQ
    case Neq => CMP_NEQ
    case Lt => CMP_LT
    case Le => CMP_LE
    case Gt => CMP_GT
    case Ge => CMP_GE
  }

  /** `flipCmp`: the negated operator. */
  function Flip(op: CmpOp): CmpOp {
    match op
    case Eq => Neq
    case Neq => Eq
    case Lt => Ge
    case Le => Gt
    case Gt => Le
    case Ge => Lt
  }

  /** The Go conversion `uint64(int64(i))`. */
  function Unsigned(i: i64): u64 {
    if i < 0 then i + TWO64 else i
  }

  /** The event type that a constant or a string literal names. */
  function TypeOf(e: Expr): Option<EventType> {
    match e
    case Ident(KoTypeConnFailed) => Some(CONN_FAILED)
    case Ident(KoTypeConnClosed) => Some(CONN_CLOSED)
    case Ident(KoTypeRetransmit) => Some(RETRANSMIT)
    case Ident(KoTypeProbe) => Some(PROBE)
    case Lit(VStr(s)) => TypeByName(s)
    case _ => None
  }

  /** The types named by the first `n` elements, as a mask; None unless all are names. */
  function TypeMask(elems: seq<Expr>, n: nat): Option<u64>
    requires n <= |elems|
  {
    if n == 0 then Some(0) else WithType(TypeMask(elems, n - 1), TypeOf(elems[n - 1]))
  }

  function WithType(mask: Option<u64>, t: Option<EventType>): Option<u64> {
    if mask.Some? && t.Some? then Some(Or64(mask.value, One64(t.value))) else None
  }

  /** The mask of a non-empty list of type names. */
  function TypeListMask(e: Expr): Option<u64> {
    if e.List? && e.elems != [] then TypeMask(e.elems, |e.elems|) else None
  }

  predicate LiteralStrings(elems: seq<Expr>) {
    forall i | 0 <= i < |elems| :: elems[i].Lit? && elems[i].v.VStr?
  }

  function LiteralTexts(elems: seq<Expr>): (ss: seq<string>)
    requires LiteralStrings(elems)
    ensures |ss| == |elems| && forall i | 0 <= i < |elems| :: VStr(ss[i]) == elems[i].v
  {
    seq(|elems|, i requires 0 <= i < |elems| => elems[i].v.s)
  }

  /** `listOfStrings`. */
  function StringList(e: Expr): Option<seq<string>> {
    match e
    case Ident(KoLoopbackCidrs) => Some(LOOPBACK_CIDRS)
    case Ident(KoPrivateCidrs) => Some(PRIVATE_CIDRS)
    case List(elems) => if LiteralStrings(elems) then Some(LiteralTexts(elems)) else None
    case _ => None
  }

  // Lowering

  function TypeSyms(op: CmpOp, t: EventType): seq<Sym> {
    if op == Eq then [SymCmp(FLD_TYPE, CMP_IN, One64(t))]
    else if op == Neq then [SymCmp(FLD_TYPE, CMP_NOT_IN, One64(t))]
    else []
  }

  /** `cmpField` of the compiler. */
  function LowerField(id: Ident, op: CmpOp, v: Value): Option<seq<Sym>> {
    if StatsField(id).Some? then
      if v.VInt? then Some([SymCmp(StatsField(id).value, OpCode(op), Unsigned(v.i))]) else None
    else if AttrField(id).Some? && v.VStr? then
      if op == Eq then Some([SymAttr(Atom(AttrField(id).value, ATTR_EQ, [v.s]), 0)])
      else if op == Neq then Some([SymAttr(Atom(AttrField(id).value, ATTR_EQ, [v.s]), 1)])
      else None
    else None
  }

  /** One operand order of `cmpPreds`. */
  function LowerSide(id: Ident, op: CmpOp, e: Expr): Option<seq<Sym>> {
    if id == KoType && TypeOf(e).Some? then Some(TypeSyms(op, TypeOf(e).value))
    else if e.Lit? then LowerField(id, op, e.v)
    else None
  }

  /** `cmpPreds`: with the constant first the operator goes through `flipCmp`. */
  function LowerCmp(op: CmpOp, l: Expr, r: Expr): Option<seq<Sym>> {
    if l.Ident? then LowerSide(l.id, op, r)
    else if r.Ident? then LowerSide(r.id, Flip(op), l)
    else None
  }

  function NotEqualTo(field: u8, values: seq<string>): (syms: seq<Sym>)
    ensures |syms| == |values|
    ensures forall i | 0 <= i < |values| :: syms[i] == SymAttr(Atom(field, ATTR_EQ, [values[i]]), 1)
  {
    seq(|values|, i requires 0 <= i < |values| => SymAttr(Atom(field, ATTR_EQ, [values[i]]), 1))
  }

  /** `inPreds` and `negInPreds`. */
  function LowerIn(l: Expr, r: Expr, neg: bool): Option<seq<Sym>> {
    if !l.Ident? then None
    else if l.id == KoType then
      (match TypeListMask(r)
       case Some(mask) => Some([SymCmp(FLD_TYPE, if neg then CMP_NOT_IN else CMP_IN, mask)])
       case None => None)
    else if AttrField(l.id).None? || StringList(r).None? || StringList(r).value == [] then None
    else if neg then Some(NotEqualTo(AttrField(l.id).value, StringList(r).value))
    else Some([SymAttr(Atom(AttrField(l.id).value, ATTR_IN, StringList(r).value), 0)])
  }

  predicate AllParse(tx: Text, cidrs: seq<string>) {
    forall i | 0 <= i < |cidrs| :: tx.cidr(cidrs[i]).Some?
  }

  /** The slots of at most four parsed prefixes, the rest zero. */
  function CidrSlots(tx: Text, cidrs: seq<string>): (slots: Slots)
    requires |cidrs| <= MAX_IPSET && AllParse(tx, cidrs)
    ensures forall i | 0 <= i < |cidrs| :: slots[i] == PrefixSlot(tx.cidr(cidrs[i]).value)
    ensures forall i | |cidrs| <= i < 4 :: slots[i] == NO_SLOT
  {
    seq(4, i requires 0 <= i < 4 => if i < |cidrs| then PrefixSlot(tx.cidr(cidrs[i]).value) else NO_SLOT)
  }

  function WhichEndpoint(e: Expr): Option<u8> {
    match e
    case Ident(KoLocalAddr) => Some(0)
    case Ident(KoRemoteAddr) => Some(1)
    case _ => None
  }

  /** `ipInPreds`. */
  function LowerIpIn(tx: Text, l: Expr, r: Expr, neg: bool): Option<seq<Sym>> {
    if WhichEndpoint(l).None? || StringList(r).None? then None
    else
      var cidrs := StringList(r).value;
      if cidrs == [] && !neg then None
      else if |cidrs| > MAX_IPSET || !AllParse(tx, cidrs) then None
      else Some([SymIp(WhichEndpoint(l).value, if neg then 1 else 0, |cidrs|, CidrSlots(tx, cidrs))])
  }

  function Lower(tx: Text, e: Expr, neg: bool): Option<seq<Sym>> {
    match e
    case And(l, r) =>
      if neg || Lower(tx, l, false).None? || Lower(tx, r, false).None? then None
      else Some(Lower(tx, l, false).value + Lower(tx, r, false).value)
    case Not(x) => Lower(tx, x, !neg)
    case Cmp(op, l, r) => LowerCmp(if neg then Flip(op) else op, l, r)
    case In(l, r) => LowerIn(l, r, neg)
    case IpIn(l, r) => LowerIpIn(tx, l, r, neg)
    case _ => None
  }

  // Where lowering is faithful

  /** The largest value of a statistics field on the events of a scope. */
  function FieldMax(sc: Scope, id: Ident): int {
    if id == KoLifeUs then (if sc.AnyEvent? then TWO63 - 1 else LIFE_MAX)
    else if id == KoRttUs && sc.HookEvent? then RTT_MAX
    else 0xffff_ffff
  }

  /** In name order, no type of the scope comes before `t`, or none after it. */
  predicate TypeBound(sc: Scope, first: bool, t: Option<EventType>) {
    if first then t == Some(CONN_CLOSED) else sc.HookEvent? && t == Some(RETRANSMIT)
  }

  /** The lowered comparison agrees with CEL on every event of the scope;
      `CmpExact` shows that this is the exact condition. */
  predicate CmpFaithful(sc: Scope, op: CmpOp, l: Expr, r: Expr) {
    if l.Ident? then
      if l.id == KoType then
        Ordering(op) ==> (op == Ge && TypeBound(sc, true, TypeOf(r))) || (op == Le && TypeBound(sc, false, TypeOf(r)))
      else if StatsField(l.id).Some? && r.Lit? && r.v.VInt? then Ordering(op) ==> r.v.i >= 0
      else true
    else if r.Ident? then
      if r.id == KoType then
        (op == Le && TypeBound(sc, true, TypeOf(l))) || (op == Ge && TypeBound(sc, false, TypeOf(l)))
      else if StatsField(r.id).Some? && l.Lit? && l.v.VInt? then Ordering(op) && l.v.i > FieldMax(sc, r.id)
      else false
    else true
  }

  predicate CidrsOk(tx: Text, cidrs: seq<string>) {
    forall i | 0 <= i < |cidrs| :: tx.cidr(cidrs[i]).Some? ==> PrefixOk(tx.cidr(cidrs[i]).value)
  }

  /** Comparisons and prefixes of the expression are ones that both tiers decide
      alike on every event of the scope. */
  predicate WellFormed(sc: Scope, tx: Text, e: Expr, neg: bool) {
    match e
    case And(l, r) => WellFormed(sc, tx, l, neg) && WellFormed(sc, tx, r, neg)
    case Not(x) => WellFormed(sc, tx, x, !neg)
    case Cmp(op, l, r) => CmpFaithful(sc, if neg then Flip(op) else op, l, r)
    case IpIn(_, r) => StringList(r).Some? ==> CidrsOk(tx, StringList(r).value)
    case _ => true
  }
}
