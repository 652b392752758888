/** Numbering of attribute atoms: `attrPred`, its print-based key, and when the
    numbers name the right atoms. */
module Interning {
  import opened Bits
  import opened Addresses
  import opened Events
  import opened Program
  import opened GoVm
  import opened Lowering

  // The key

  function Join(vs: Values): string
    decreases |vs|
  {
    if |vs| == 1 then vs[0] else vs[0] + " " + Join(vs[1..])
  }

  /** `fmt.Sprint` of a string slice. */
  function Sprint(vs: Values): string {
    "[" + Join(vs) + "]"
  }

  datatype AtomKey = AtomKey(field: u8, op: u8, vals: string)

  function KeyOf(a: Atom): AtomKey {
    AtomKey(a.field, a.op, Sprint(a.values))
  }

  predicate SpaceFree(s: string) {
    ' ' !in s
  }

  /** One more character in front of some words: a space opens an empty word. */
  function Put(c: char, words: Values): Values {
    if c == ' ' then [""] + words else [[c] + words[0]] + words[1..]
  }

  /** The words of a string, cut at every space. */
  function Split(s: string): Values {
    if s == "" then [""] else Put(s[0], Split(s[1..]))
  }

  /** The words of all the values in a list, in order. */
  function AllWords(vs: Values): Values
    decreases |vs|
  {
    if |vs| == 1 then Split(vs[0]) else Split(vs[0]) + AllWords(vs[1..])
  }

  lemma PutAppend(c: char, left: Values, right: Values)
    ensures Put(c, left + right) == Put(c, left) + right
  {
    if c != ' ' { assert (left + right)[1..] == left[1..] + right; }
  }

  lemma {:induction false} SplitAppend(a: string, b: string)
    ensures Split(a + " " + b) == Split(a) + Split(b)
  {
    var s := a + " " + b;
    if a == "" {
      assert s[0] == ' ' && s[1..] == b;
    } else {
      assert s[0] == a[0] && s[1..] == a[1..] + " " + b;
      SplitAppend(a[1..], b);
      PutAppend(a[0], Split(a[1..]), Split(b));
    }
  }

  lemma {:induction false} SplitJoin(vs: Values)
    ensures Split(Join(vs)) == AllWords(vs)
    decreases |vs|
  {
    if |vs| > 1 {
      SplitJoin(vs[1..]);
      SplitAppend(vs[0], Join(vs[1..]));
    }
  }

  lemma {:induction false} JoinSplit(s: string)
    ensures Join(Split(s)) == s
  {
    if s != "" {
      var rest := Split(s[1..]);
      JoinSplit(s[1..]);
      if s[0] == ' ' {
        assert ([""] + rest)[1..] == rest;
      } else {
        var first := [s[0]] + rest[0];
        assert Split(s) == [first] + rest[1..];
        assert ([first] + rest[1..])[1..] == rest[1..];
      }
    }
  }

  lemma {:induction false} SplitSpaceFree(s: string)
    requires SpaceFree(s)
    ensures Split(s) == [s]
  {
    if s != "" {
      SplitSpaceFree(s[1..]);
      assert [s[0]] + s[1..] == s;
    }
  }

  predicate AllSpaceFree(vs: seq<string>) {
    forall i | 0 <= i < |vs| :: SpaceFree(vs[i])
  }

  lemma {:induction false} WordsSpaceFree(vs: Values)
    requires AllSpaceFree(vs)
    ensures AllWords(vs) == vs
    decreases |vs|
  {
    SplitSpaceFree(vs[0]);
    if |vs| > 1 {
      WordsSpaceFree(vs[1..]);
      assert [vs[0]] + vs[1..] == vs;
    } else {
      assert vs == [vs[0]];
    }
  }

  /** Two value lists print alike iff they have the same words in the same order. */
  lemma SprintExact(u: Values, v: Values)
    ensures Sprint(u) == Sprint(v) <==> AllWords(u) == AllWords(v)
  {
    SplitJoin(u);
    SplitJoin(v);
    if Sprint(u) == Sprint(v) {
      assert Sprint(u)[1..|Sprint(u)| - 1] == Join(u);
      assert Sprint(v)[1..|Sprint(v)| - 1] == Join(v);
    } else {
      JoinSplit(Join(u));
      JoinSplit(Join(v));
    }
  }

  /** On space-free lists the printed key is injective. */
  lemma SprintInjective(u: Values, v: Values)
    requires AllSpaceFree(u) && AllSpaceFree(v) && Sprint(u) == Sprint(v)
    ensures u == v
  {
    SprintExact(u, v);
    WordsSpaceFree(u);
    WordsSpaceFree(v);
  }

  /** With a space in a value it is not: a list of two and a list of one share a key. */
  lemma SprintMerges()
    ensures Sprint(["a b"]) == Sprint(["a", "b"])
  {
    assert Join(["a", "b"]) == "a" + " " + Join(["a", "b"][1..]);
    assert "a" + " " + "b" == "a b";
  }

  // The table

  /** The state of the compiler: the atoms so far and their index by key. */
  datatype Table = Table(atoms: seq<Atom>, idx: map<AtomKey, nat>)

  const EMPTY := Table([], map[])

  function Intern(t: Table, a: Atom): Table {
    if KeyOf(a) in t.idx then t
    else Table(t.atoms + [a], t.idx[KeyOf(a) := |t.atoms|])
  }

  function InternAll(t: Table, reqs: seq<Atom>): Table
    decreases |reqs|
  {
    if reqs == [] then t else InternAll(Intern(t, reqs[0]), reqs[1..])
  }

  /** Keys and atom positions are in one-to-one correspondence. */
  ghost predicate Consistent(t: Table) {
    (forall k | k in t.idx :: t.idx[k] < |t.atoms| && KeyOf(t.atoms[t.idx[k]]) == k) &&
    (forall i | 0 <= i < |t.atoms| :: KeyOf(t.atoms[i]) in t.idx && t.idx[KeyOf(t.atoms[i])] == i)
  }

  /** Every number given out by `t` is kept by `t'`. */
  ghost predicate Extends(t: Table, t': Table) {
    t.atoms <= t'.atoms && forall k | k in t.idx :: k in t'.idx && t'.idx[k] == t.idx[k]
  }

  lemma ExtendsTransitive(t: Table, t': Table, t'': Table)
    requires Extends(t, t') && Extends(t', t'')
    ensures Extends(t, t'')
  {
  }

  lemma {:induction false} InternAllOk(t: Table, reqs: seq<Atom>)
    requires Consistent(t)
    ensures Consistent(InternAll(t, reqs)) && Extends(t, InternAll(t, reqs))
    ensures forall i | 0 <= i < |reqs| :: KeyOf(reqs[i]) in InternAll(t, reqs).idx
    ensures forall a | a in InternAll(t, reqs).atoms :: a in t.atoms || a in reqs
    decreases |reqs|
  {
    if reqs != [] {
      var t1 := Intern(t, reqs[0]);
      assert Extends(t, t1) && KeyOf(reqs[0]) in t1.idx;
      InternAllOk(t1, reqs[1..]);
      assert forall i | 0 < i < |reqs| :: reqs[i] == reqs[1..][i - 1];
    }
  }

  lemma {:induction false} InternAllConcat(t: Table, a: seq<Atom>, b: seq<Atom>)
    ensures InternAll(t, a + b) == InternAll(InternAll(t, a), b)
    decreases |a|
  {
    if a == [] {
      assert a + b == b;
    } else {
      assert (a + b)[1..] == a[1..] + b;
      InternAllConcat(Intern(t, a[0]), a[1..], b);
    }
  }

  // Numbered tests

  function IdOf(a: Atom, idx: map<AtomKey, nat>): nat {
    if KeyOf(a) in idx then idx[KeyOf(a)] else 0
  }

  /** The stream entry of a test; the atom number is stored in one byte. */
  function Resolve(s: Sym, idx: map<AtomKey, nat>): Pred {
    match s
    case SymCmp(field, op, val) => CmpPred(field, op, val)
    case SymIp(which, neg, n, slots) => Pred(0, PRED_IPSET, which, neg, n, slots)
    case SymAttr(a, neg) => Pred(0, PRED_ATTR, IdOf(a, idx) % 0x100, neg, 0, NO_SLOTS)
  }

  function ResolveAll(syms: seq<Sym>, idx: map<AtomKey, nat>): (ps: seq<Pred>)
    ensures |ps| == |syms| && forall i | 0 <= i < |syms| :: ps[i] == Resolve(syms[i], idx)
  {
    seq(|syms|, i requires 0 <= i < |syms| => Resolve(syms[i], idx))
  }

  /** The atom that a test asks for, if any. */
  function AtomOf(s: Sym): seq<Atom> {
    if s.SymAttr? then [s.atom] else []
  }

  /** The atoms that a list of tests asks for. */
  function AtomsOf(syms: seq<Sym>): seq<Atom> {
    if syms == [] then [] else AtomOf(syms[0]) + AtomsOf(syms[1..])
  }

  lemma {:induction false} AtomsOfHas(syms: seq<Sym>, i: nat)
    requires i < |syms| && syms[i].SymAttr?
    ensures syms[i].atom in AtomsOf(syms)
  {
    if i > 0 {
      assert syms[i] == syms[1..][i - 1];
      AtomsOfHas(syms[1..], i - 1);
    }
  }

  lemma {:induction false} AtomsOfConcat(a: seq<Sym>, b: seq<Sym>)
    ensures AtomsOf(a + b) == AtomsOf(a) + AtomsOf(b)
  {
    if a == [] {
      assert a + b == b;
    } else {
      assert (a + b)[0] == a[0] && (a + b)[1..] == a[1..] + b;
      AtomsOfConcat(a[1..], b);
      ConcatAssoc(AtomOf(a[0]), AtomsOf(a[1..]), AtomsOf(b));
    }
  }

  lemma ConcatAssoc<T>(a: seq<T>, b: seq<T>, c: seq<T>)
    ensures a + (b + c) == (a + b) + c
  {
  }

  ghost predicate Interned(syms: seq<Sym>, idx: map<AtomKey, nat>) {
    forall i | 0 <= i < |syms| && syms[i].SymAttr? :: KeyOf(syms[i].atom) in idx
  }

  /** Later interning does not renumber tests that are already resolved. */
  lemma ResolveStable(syms: seq<Sym>, t: Table, t': Table)
    requires Interned(syms, t.idx) && Extends(t, t')
    ensures ResolveAll(syms, t.idx) == ResolveAll(syms, t'.idx)
  {
  }

  // What the numbers mean

  /** Two atoms test the same: same field and operator, same members, and for an
      operator that reads the first value only, the same first value. */
  ghost predicate Alike(a: Atom, b: Atom) {
    a.field == b.field && a.op == b.op && SameMembers(a.values, b.values) &&
    (a.op != ATTR_IN ==> a.values[0] == b.values[0])
  }

  ghost predicate SameMembers(u: seq<string>, v: seq<string>) {
    forall s: string :: s in u <==> s in v
  }

  /** Requests as the compiler makes them: memberships of any values, and
      equalities with one, on the three attributes. */
  predicate Proper(a: Atom) {
    a.field <= ATTR_POD && (a.op == ATTR_IN || (a.op == ATTR_EQ && |a.values| == 1))
  }

  predicate AllProper(reqs: seq<Atom>) {
    forall i | 0 <= i < |reqs| :: Proper(reqs[i])
  }

  function OnlyValue(field: u8, v: string): CgroupAttrs {
    if field == ATTR_NAMESPACE then CgroupAttrs(v, "", "")
    else if field == ATTR_CONTAINER then CgroupAttrs("", v, "")
    else CgroupAttrs("", "", v)
  }

  lemma TrueIsMember(a: Atom, s: string)
    requires Proper(a)
    ensures AtomTrue(a, OnlyValue(a.field, s)) <==> s in a.values
  {
    assert a.op == ATTR_EQ ==> a.values == [a.values[0]];
  }

  /** Two atoms with one key have the same truth for all attributes iff they are alike. */
  lemma AlikeExact(a: Atom, b: Atom)
    requires Proper(a) && Proper(b) && KeyOf(a) == KeyOf(b)
    ensures (forall attrs :: AtomTrue(a, attrs) == AtomTrue(b, attrs)) <==> Alike(a, b)
  {
    if forall attrs :: AtomTrue(a, attrs) == AtomTrue(b, attrs) {
      forall s: string ensures s in a.values <==> s in b.values {
        TrueIsMember(a, s);
        TrueIsMember(b, s);
        assert AtomTrue(a, OnlyValue(a.field, s)) == AtomTrue(b, OnlyValue(a.field, s));
      }
      assert a.values[0] in b.values;
    }
  }

  /** The request is decided by an atom of the table that has its truth for all attributes. */
  ghost predicate DecidedRight(t: Table, a: Atom) {
    IdOf(a, t.idx) < |t.atoms| &&
    forall attrs :: AtomTrue(t.atoms[IdOf(a, t.idx)], attrs) == AtomTrue(a, attrs)
  }

  /** The first request with a key: the atom that numbers all requests with it. */
  function FirstFor(reqs: seq<Atom>, k: AtomKey): Option<Atom> {
    if reqs == [] then None else if KeyOf(reqs[0]) == k then Some(reqs[0]) else FirstFor(reqs[1..], k)
  }

  lemma {:induction false} FirstForFinds(reqs: seq<Atom>, a: Atom)
    requires a in reqs
    ensures var f := FirstFor(reqs, KeyOf(a)); f.Some? && f.value in reqs && KeyOf(f.value) == KeyOf(a)
  {
    if KeyOf(reqs[0]) != KeyOf(a) { FirstForFinds(reqs[1..], a); }
  }

  /** A key is numbered by the atom that the table has for it, or else by the first request with it. */
  lemma {:induction false} NumberedBy(t: Table, reqs: seq<Atom>, k: AtomKey)
    requires Consistent(t) && (k in t.idx || FirstFor(reqs, k).Some?)
    ensures var t' := InternAll(t, reqs);
            k in t'.idx && t'.idx[k] < |t'.atoms| &&
            t'.atoms[t'.idx[k]] == if k in t.idx then t.atoms[t.idx[k]] else FirstFor(reqs, k).value
    decreases |reqs|
  {
    InternAllOk(t, reqs);
    if k !in t.idx { NumberedBy(Intern(t, reqs[0]), reqs[1..], k); }
  }

  /** Each of the tests is alike the first request that prints as it does. */
  ghost predicate NoClash(reqs: seq<Atom>, tests: set<Atom>) {
    forall a | a in tests :: FirstFor(reqs, KeyOf(a)).Some? && Alike(FirstFor(reqs, KeyOf(a)).value, a)
  }

  /** Interning decides the given requests rightly, for all attributes, iff each has
      the members of the first request with its key. Requests that no test
      uses, left behind by filters that were not pushed down, may clash. */
  lemma InternExact(reqs: seq<Atom>, tests: set<Atom>)
    requires AllProper(reqs) && forall a | a in tests :: a in reqs
    ensures (forall a | a in tests :: DecidedRight(InternAll(EMPTY, reqs), a)) <==> NoClash(reqs, tests)
  {
    forall a | a in tests
      ensures FirstFor(reqs, KeyOf(a)).Some?
      ensures DecidedRight(InternAll(EMPTY, reqs), a) <==> Alike(FirstFor(reqs, KeyOf(a)).value, a)
    {
      DecidedExact(reqs, a);
    }
  }

  lemma DecidedExact(reqs: seq<Atom>, a: Atom)
    requires AllProper(reqs) && a in reqs
    ensures FirstFor(reqs, KeyOf(a)).Some?
    ensures DecidedRight(InternAll(EMPTY, reqs), a) <==> Alike(FirstFor(reqs, KeyOf(a)).value, a)
  {
    FirstForFinds(reqs, a);
    NumberedBy(EMPTY, reqs, KeyOf(a));
    AlikeExact(FirstFor(reqs, KeyOf(a)).value, a);
  }

  /** If all requests are tests, the condition is one on pairs: requests that print alike are alike. */
  lemma NoClashPairs(reqs: seq<Atom>)
    ensures NoClash(reqs, set a | a in reqs) <==>
            forall a, b | a in reqs && b in reqs :: KeyOf(a) == KeyOf(b) ==> Alike(a, b)
  {
    forall a | a in reqs ensures FirstFor(reqs, KeyOf(a)).Some? && FirstFor(reqs, KeyOf(a)).value in reqs {
      FirstForFinds(reqs, a);
    }
    forall a, b | a in reqs && b in reqs && KeyOf(a) == KeyOf(b)
      ensures NoClash(reqs, set x | x in reqs) ==> Alike(a, b)
    {
      assert FirstFor(reqs, KeyOf(a)) == FirstFor(reqs, KeyOf(b));
    }
    forall a | a in reqs ensures KeyOf(FirstFor(reqs, KeyOf(a)).value) == KeyOf(a) {
      FirstForFinds(reqs, a);
    }
  }

  /** Equality atoms carry one value; list atoms have space-free values. */
  predicate KeySafe(a: Atom) {
    if a.op == ATTR_EQ then |a.values| == 1 else AllSpaceFree(a.values)
  }

  /** Requests whose lists are space-free never clash. */
  lemma KeySafeNoClash(reqs: seq<Atom>, tests: set<Atom>)
    requires (forall a | a in reqs :: KeySafe(a)) && forall a | a in tests :: a in reqs
    ensures NoClash(reqs, tests)
  {
    forall a | a in tests ensures FirstFor(reqs, KeyOf(a)) == Some(a) {
      FirstForFinds(reqs, a);
      KeySafeSame(FirstFor(reqs, KeyOf(a)).value, a);
    }
  }

  lemma KeySafeSame(a: Atom, b: Atom)
    requires KeySafe(a) && KeySafe(b) && KeyOf(a) == KeyOf(b)
    ensures a == b
  {
    if a.op == ATTR_EQ {
      assert Sprint(a.values)[1..|Sprint(a.values)| - 1] == a.values[0];
      assert Sprint(b.values)[1..|Sprint(b.values)| - 1] == b.values[0];
      assert a.values == [a.values[0]] == [b.values[0]] == b.values;
    } else {
      SprintInjective(a.values, b.values);
    }
  }

  /** One clash with its effect: a list of two is decided by a list of one. */
  lemma ClashMisdirects()
    ensures var one := Atom(ATTR_POD, ATTR_IN, ["a b"]);
            var two := Atom(ATTR_POD, ATTR_IN, ["a", "b"]);
            var t := InternAll(EMPTY, [one, two]);
            var attrs := CgroupAttrs("", "", "a");
            IdOf(two, t.idx) < |t.atoms| && AtomTrue(two, attrs) && !AtomTrue(t.atoms[IdOf(two, t.idx)], attrs)
  {
    var one, two := Atom(ATTR_POD, ATTR_IN, ["a b"]), Atom(ATTR_POD, ATTR_IN, ["a", "b"]);
    SprintMerges();
    var t1 := Intern(EMPTY, one);
    assert [one, two][1..] == [two] && [two][1..] == [];
    assert InternAll(EMPTY, [one, two]) == InternAll(t1, [two]) == t1;
    assert "a" != "a b" && "a" in two.values;
  }

  /** The mask bit under the number of a rightly decided request is the request's truth. */
  lemma NumberedTest(t: Table, a: Atom, attrs: CgroupAttrs)
    requires |t.atoms| <= 64 && DecidedRight(t, a)
    ensures Bit(Mask(t.atoms, attrs), IdOf(a, t.idx) % 0x100) <==> AtomTrue(a, attrs)
  {
    MaskBit(t.atoms, attrs, |t.atoms|, IdOf(a, t.idx));
  }

  /** A numbered test, run by the Go VM with the verdict of the event's
      attributes, holds iff the test itself does. */
  lemma ResolveCorrect(t: Table, s: Sym, ev: Event)
    requires |t.atoms| <= 64 && (s.SymAttr? ==> DecidedRight(t, s.atom))
    ensures GoStep(Resolve(s, t.idx), ev, Some(Mask(t.atoms, ev.attrs))) == Test(Truth(SymHolds(s, ev)))
  {
    if s.SymAttr? { NumberedTest(t, s.atom, ev.attrs); }
  }
}
