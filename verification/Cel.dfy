/** The checked CEL expressions and their meaning: what `Evaluate` computes. */
module Cel {
  import opened Bits
  import opened Addresses
  import opened Events

  /** The variables that the CEL environment declares. */
  datatype Ident =
    | KoType | KoTypeConnFailed | KoTypeConnClosed | KoTypeRetransmit | KoTypeProbe
    | KoNamespace | KoContainer | KoPod
    | KoRttUs | KoLifeUs | KoRetransmits | KoSegsOut | KoError
    | KoLocalAddr | KoRemoteAddr | KoLoopbackCidrs | KoPrivateCidrs

  datatype Value = VBool(b: bool) | VInt(i: i64) | VStr(s: string) | VList(vs: seq<Value>) | VErr

  datatype CmpOp = Eq | Neq | Lt | Le | Gt | Ge

  /** A checked expression. `Opaque` is any construct outside this grammar; the
      compiler never pushes it down, and its meaning is arbitrary. */
  datatype Expr =
    | Ident(id: Ident)
    | Lit(v: Value)
    | List(elems: seq<Expr>)
    | And(l: Expr, r: Expr)
    | Or(l: Expr, r: Expr)
    | Not(e: Expr)
    | Cmp(op: CmpOp, l: Expr, r: Expr)
    | In(l: Expr, r: Expr)
    | IpIn(l: Expr, r: Expr)
    | Opaque(meaning: Event -> Value)

  const LOOPBACK_CIDRS := ["127.0.0.0/8", "::1/128"]
  const PRIVATE_CIDRS := ["10.0.0.0/8", "172.16.0.0/12", "192.168.0.0/16", "fd00::/8"]

  predicate Ordering(op: CmpOp) {
    op != Eq && op != Neq
  }

  /** The Go conversion `int64(x)`. */
  function Signed(x: u64): i64 {
    if x < TWO63 then x else x - TWO64
  }

  function Strings(ss: seq<string>): (vs: seq<Value>)
    ensures |vs| == |ss| && forall i | 0 <= i < |ss| :: vs[i] == VStr(ss[i])
  {
    seq(|ss|, i requires 0 <= i < |ss| => VStr(ss[i]))
  }

  /** `activation`: the value of each variable on an event. */
  function Lookup(tx: Text, id: Ident, ev: Event): Value {
    match id
    case KoType => VStr(TypeName(ev.typ))
    case KoTypeConnFailed => VStr(TypeName(CONN_FAILED))
    case KoTypeConnClosed => VStr(TypeName(CONN_CLOSED))
    case KoTypeRetransmit => VStr(TypeName(RETRANSMIT))
    case KoTypeProbe => VStr(TypeName(PROBE))
    case KoNamespace => VStr(ev.attrs.namespace)
    case KoContainer => VStr(ev.attrs.container)
    case KoPod => VStr(ev.attrs.pod)
    case KoRttUs => VInt(Signed(ev.rttUs))
    case KoLifeUs => VInt(Signed(ev.lifeUs))
    case KoRetransmits => VInt(Signed(ev.retransmits))
    case KoSegsOut => VInt(Signed(ev.segsOut))
    case KoError => VInt(Signed(ev.errno))
    case KoLocalAddr => VStr(tx.show(ev.localIp, ev.localPort))
    case KoRemoteAddr => VStr(tx.show(ev.remoteIp, ev.remotePort))
    case KoLoopbackCidrs => VList(Strings(LOOPBACK_CIDRS))
    case KoPrivateCidrs => VList(Strings(PRIVATE_CIDRS))
  }

  /** Lexicographic order of strings. */
  predicate StrLess(a: string, b: string) {
    b != "" && (a == "" || a[0] < b[0] || (a[0] == b[0] && StrLess(a[1..], b[1..])))
  }

  predicate IntCmp(op: CmpOp, x: int, y: int) {
    match op
    case Eq => x == y
    case Neq => x != y
    case Lt => x < y
    case Le => x <= y
    case Gt => x > y
    case Ge => x >= y
  }

  predicate StrCmp(op: CmpOp, x: string, y: string) {
    match op
    case Eq => x == y
    case Neq => x != y
    case Lt => StrLess(x, y)
    case Le => !StrLess(y, x)
    case Gt => StrLess(y, x)
    case Ge => !StrLess(x, y)
  }

  function CmpValues(op: CmpOp, x: Value, y: Value): Value {
    match (x, y)
    case (VErr, _) => VErr
    case (_, VErr) => VErr
    case (VInt(i), VInt(j)) => VBool(IntCmp(op, i, j))
    case (VStr(s), VStr(t)) => VBool(StrCmp(op, s, t))
    case (VBool(a), VBool(b)) => VBool(IntCmp(op, if a then 1 else 0, if b then 1 else 0))
    case _ => if op == Eq then VBool(x == y) else if op == Neq then VBool(x != y) else VErr
  }

  /** CEL's logical operators absorb an error when the other side decides. */
  function AndValues(x: Value, y: Value): Value {
    if x == VBool(false) || y == VBool(false) then VBool(false)
    else if x == VBool(true) && y == VBool(true) then VBool(true)
    else VErr
  }

  function OrValues(x: Value, y: Value): Value {
    if x == VBool(true) || y == VBool(true) then VBool(true)
    else if x == VBool(false) && y == VBool(false) then VBool(false)
    else VErr
  }

  function NotValue(x: Value): Value {
    if x.VBool? then VBool(!x.b) else VErr
  }

  /** CEL's connectives: they commute, obey De Morgan, are the boolean ones on
      booleans, and a side that decides outweighs an error on the other. */
  lemma Connectives(x: Value, y: Value, a: bool, b: bool)
    ensures AndValues(x, y) == AndValues(y, x) && OrValues(x, y) == OrValues(y, x)
    ensures NotValue(AndValues(x, y)) == OrValues(NotValue(x), NotValue(y))
    ensures AndValues(VBool(a), VBool(b)) == VBool(a && b) && OrValues(VBool(a), VBool(b)) == VBool(a || b)
    ensures AndValues(VErr, VBool(a)) == (if a then VErr else VBool(false))
  {
  }

  /** Strings are totally ordered. */
  lemma {:induction false} StringOrder(a: string, b: string, c: string)
    ensures StrLess(a, b) || a == b || StrLess(b, a)
    ensures !(StrLess(a, b) && StrLess(b, a)) && !StrLess(a, a)
    ensures StrLess(a, b) && StrLess(b, c) ==> StrLess(a, c)
  {
    if a != "" {
      StringOrder(a[1..], if b == "" then "" else b[1..], if c == "" then "" else c[1..]);
      if b != "" { assert a == [a[0]] + a[1..] && b == [b[0]] + b[1..]; }
    }
  }

  function InValues(x: Value, y: Value): Value {
    if x == VErr || !y.VList? then VErr else VBool(x in y.vs)
  }

  predicate AllStrings(vs: seq<Value>) {
    forall i | 0 <= i < |vs| :: vs[i].VStr?
  }

  function Texts(vs: seq<Value>): (ss: seq<string>)
    requires AllStrings(vs)
    ensures |ss| == |vs| && forall i | 0 <= i < |vs| :: VStr(ss[i]) == vs[i]
  {
    seq(|vs|, i requires 0 <= i < |vs| => vs[i].s)
  }

  /** `ipInVal`. */
  function IpInValues(tx: Text, x: Value, y: Value): Value {
    if x.VStr? && y.VList? && AllStrings(y.vs)
    then VBool(InCidrs(tx, tx.host(x.s), Texts(y.vs)))
    else VErr
  }

  function Eval(tx: Text, e: Expr, ev: Event): Value
    decreases e, 1
  {
    match e
    case Ident(id) => Lookup(tx, id, ev)
    case Lit(v) => v
    case List(elems) =>
      var vs := EvalAll(tx, elems, ev);
      if VErr in vs then VErr else VList(vs)
    case And(l, r) => AndValues(Eval(tx, l, ev), Eval(tx, r, ev))
    case Or(l, r) => OrValues(Eval(tx, l, ev), Eval(tx, r, ev))
    case Not(x) => NotValue(Eval(tx, x, ev))
    case Cmp(op, l, r) => CmpValues(op, Eval(tx, l, ev), Eval(tx, r, ev))
    case In(l, r) => InValues(Eval(tx, l, ev), Eval(tx, r, ev))
    case IpIn(l, r) => IpInValues(tx, Eval(tx, l, ev), Eval(tx, r, ev))
    case Opaque(meaning) => meaning(ev)
  }

  function EvalAll(tx: Text, es: seq<Expr>, ev: Event): (vs: seq<Value>)
    ensures |vs| == |es|
    ensures forall i | 0 <= i < |es| :: vs[i] == Eval(tx, es[i], ev)
    decreases es, 0
  {
    if es == [] then [] else [Eval(tx, es[0], ev)] + EvalAll(tx, es[1..], ev)
  }

  predicate Holds(tx: Text, e: Expr, ev: Event) {
    Eval(tx, e, ev) == VBool(true)
  }

  /** `r` is the decision of `Evaluate`: the first filter that is true, where an error
      or a value that is not a boolean is not true. */
  predicate FirstMatch(tx: Text, exprs: seq<Expr>, ev: Event, r: Option<nat>) {
    match r
    case Some(i) =>
      i < |exprs| && Eval(tx, exprs[i], ev) == VBool(true) &&
      forall j | 0 <= j < i :: Eval(tx, exprs[j], ev) != VBool(true)
    case None => forall j | 0 <= j < |exprs| :: Eval(tx, exprs[j], ev) != VBool(true)
  }

  /** The first match from filter `k` on. */
  function Evaluate(tx: Text, exprs: seq<Expr>, ev: Event, k: nat): Option<nat>
    requires k <= |exprs|
    decreases |exprs| - k
  {
    if k == |exprs| then None
    else if Holds(tx, exprs[k], ev) then Some(k)
    else Evaluate(tx, exprs, ev, k + 1)
  }

  lemma {:induction false} EvaluateIsFirst(tx: Text, exprs: seq<Expr>, ev: Event, k: nat)
    requires k <= |exprs|
    requires forall j | 0 <= j < k :: !Holds(tx, exprs[j], ev)
    ensures FirstMatch(tx, exprs, ev, Evaluate(tx, exprs, ev, k))
    decreases |exprs| - k
  {
    if k < |exprs| && !Holds(tx, exprs[k], ev) {
      EvaluateIsFirst(tx, exprs, ev, k + 1);
    }
  }

  lemma FirstMatchUnique(tx: Text, exprs: seq<Expr>, ev: Event, r: Option<nat>)
    requires FirstMatch(tx, exprs, ev, r)
    ensures r == Evaluate(tx, exprs, ev, 0)
  {
    EvaluateIsFirst(tx, exprs, ev, 0);
  }

  /** `Set.Evaluate`: run the filters in order; an error or a value that is not
      a boolean counts as no match. */
  method RunFilters(tx: Text, exprs: seq<Expr>, ev: Event) returns (r: Option<nat>)
    ensures FirstMatch(tx, exprs, ev, r)
    ensures r == Evaluate(tx, exprs, ev, 0)
  {
    for i := 0 to |exprs|
      invariant forall j | 0 <= j < i :: !Holds(tx, exprs[j], ev)
    {
      var out := Eval(tx, exprs[i], ev);
      if out.VBool? && out.b {
        FirstMatchUnique(tx, exprs, ev, Some(i));
        return Some(i);
      }
    }
    FirstMatchUnique(tx, exprs, ev, None);
    return None;
  }
}
