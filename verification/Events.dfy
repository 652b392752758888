/** The events that filters look at: the record that the kernel submits and the
    view of it that userspace evaluates. */
module Events {
  import opened Bits
  import opened Addresses

  type EventType = u16

  const CONN_FAILED: EventType := 1
  const CONN_CLOSED: EventType := 2
  const RETRANSMIT: EventType := 3
  const PROBE: EventType := 4

  const AF_INET: u16 := 2
  const AF_INET6: u16 := 10

  function Decimal(n: nat): string {
    if n < 10 then [['0', '1', '2', '3', '4', '5', '6', '7', '8', '9'][n]]
    else Decimal(n / 10) + Decimal(n % 10)
  }

  const NAME_FAILED := "conn_failed"
  const NAME_CLOSED := "conn_closed"
  const NAME_RETRANSMIT := "retransmit"
  const NAME_PROBE := "probe"

  /** `EventType.String`. */
  function TypeName(t: EventType): string {
    if t == CONN_FAILED then NAME_FAILED
    else if t == CONN_CLOSED then NAME_CLOSED
    else if t == RETRANSMIT then NAME_RETRANSMIT
    else if t == PROBE then NAME_PROBE
    else "unknown(" + Decimal(t) + ")"
  }

  /** `typesByName`. */
  function TypeByName(s: string): Option<EventType> {
    if s == NAME_FAILED then Some(CONN_FAILED)
    else if s == NAME_CLOSED then Some(CONN_CLOSED)
    else if s == NAME_RETRANSMIT then Some(RETRANSMIT)
    else if s == NAME_PROBE then Some(PROBE)
    else None
  }

  /** The four names are distinct from each other and from every unknown type's. */
  lemma NamesDistinct(s: string, t: EventType)
    requires TypeByName(s).Some?
    ensures TypeName(t) == s <==> t == TypeByName(s).value
  {
    assert NAME_FAILED[5] == 'f' && NAME_CLOSED[5] == 'c';
    assert |NAME_FAILED| == 11 && |NAME_CLOSED| == 11 && |NAME_RETRANSMIT| == 10 && |NAME_PROBE| == 5;
    if !(1 <= t <= 4) {
      assert TypeName(t)[0] == 'u';
    }
  }

  lemma {:induction false} DecimalDigits(n: nat)
    ensures Decimal(n) != "" && forall i | 0 <= i < |Decimal(n)| :: '0' <= Decimal(n)[i] <= '9'
  {
    if n >= 10 {
      DecimalDigits(n / 10);
      DecimalDigits(n % 10);
    }
  }

  lemma {:induction false} DecimalOneDigit(n: nat)
    ensures |Decimal(n)| == 1 <==> n < 10
  {
    if n >= 10 {
      DecimalDigits(n / 10);
      DecimalDigits(n % 10);
    }
  }

  lemma {:induction false} DecimalInjective(m: nat, n: nat)
    requires Decimal(m) == Decimal(n)
    ensures m == n
  {
    DecimalOneDigit(m);
    DecimalOneDigit(n);
    if m >= 10 {
      DecimalOneDigit(m % 10);
      DecimalOneDigit(n % 10);
      var (a, b) := (Decimal(m / 10), Decimal(n / 10));
      assert Decimal(m)[..|Decimal(m)| - 1] == a && Decimal(n)[..|Decimal(n)| - 1] == b;
      assert Decimal(m)[|a|] == Decimal(m % 10)[0] && Decimal(n)[|b|] == Decimal(n % 10)[0];
      DecimalInjective(m / 10, n / 10);
      assert m % 10 == n % 10;
    }
  }

  lemma Enclosed(left: string, a: string, b: string, right: string)
    requires left + a + right == left + b + right
    ensures a == b
  {
    assert |a| == |b|;
    assert (left + a + right)[|left|..|left| + |a|] == a && (left + b + right)[|left|..|left| + |b|] == b;
  }

  /** Every 16-bit type has a name of its own. */
  lemma TypeNameInjective(t: EventType, u: EventType)
    ensures TypeName(t) == TypeName(u) <==> t == u
  {
    if 1 <= t <= 4 {
      KnownNames(t);
      NamesDistinct(TypeName(t), u);
    } else if 1 <= u <= 4 {
      KnownNames(u);
      NamesDistinct(TypeName(u), t);
    } else if TypeName(t) == TypeName(u) {
      Enclosed("unknown(", Decimal(t), Decimal(u), ")");
      DecimalInjective(t, u);
    }
  }

  lemma KnownNames(t: EventType)
    requires 1 <= t <= 4
    ensures TypeByName(TypeName(t)) == Some(t)
  {
    assert |NAME_FAILED| == 11 && |NAME_CLOSED| == 11 && |NAME_RETRANSMIT| == 10 && |NAME_PROBE| == 5;
    assert NAME_FAILED[5] == 'f' && NAME_CLOSED[5] == 'c';
  }

  datatype CgroupAttrs = CgroupAttrs(namespace: string, container: string, pod: string)

  const NO_ATTRS := CgroupAttrs("", "", "")

  datatype Event = Event(
    typ: EventType, attrs: CgroupAttrs,
    rttUs: u32, lifeUs: u64, retransmits: u32, segsOut: u32, errno: u32,
    localIp: IP, localPort: u16, remoteIp: IP, remotePort: u16)

  /** `conn_event_t`: one submitted record, addresses as 16 bytes of which an
      IPv4 record uses the first four. */
  datatype Raw = Raw(
    ts: u64, pid: u32, comm: seq<u8>, family: u16, localPort: u16, remotePort: u16, typ: EventType,
    localIp: Bytes16, remoteIp: Bytes16, cgroup: u64, lifeUs: u64,
    rttUs: u32, retransmits: u32, segsOut: u32, error: u32,
    sndCwnd: u32, sndSsthresh: u32, sndWnd: u32, rcvWnd: u32)

  /** The longest lifetime in microseconds: a 64-bit difference of nanoseconds. */
  const LIFE_MAX: int := 0xffff_ffff_ffff_ffff / 1000

  /** The longest round trip time: the kernel's 32-bit figure is eight times it. */
  const RTT_MAX: int := 0xffff_ffff / 8

  /** The records that the kernel hooks submit; `SocketTracker` proves that they
      submit these and no others. */
  predicate RawOk(r: Raw) {
    1 <= r.typ <= 4 && r.lifeUs <= LIFE_MAX && r.rttUs <= RTT_MAX && (r.family == AF_INET || r.family == AF_INET6)
  }

  /** `decodeIP`. */
  function DecodeIp(family: u16, raw: Bytes16): IP {
    if family == AF_INET then V4(raw[..4]) else V6(raw)
  }

  /** The event that `resolveFilter` evaluates. */
  function EventOf(r: Raw, attrs: CgroupAttrs): Event {
    Event(r.typ, attrs, r.rttUs, r.lifeUs, r.retransmits, r.segsOut, r.error,
          DecodeIp(r.family, r.localIp), r.localPort, DecodeIp(r.family, r.remoteIp), r.remotePort)
  }

  /** Which events a filter is asked about: any at all, or those of submitted records. */
  datatype Scope = AnyEvent | HookEvent

  /** Events of a scope. For all of them the signed CEL view of the lifetime is the number itself. */
  predicate EventOk(sc: Scope, ev: Event) {
    match sc
    case AnyEvent => ev.lifeUs < TWO63
    case HookEvent =>
      1 <= ev.typ <= 4 && ev.lifeUs <= LIFE_MAX && ev.rttUs <= RTT_MAX &&
      ((ev.localIp.V4? && ev.remoteIp.V4?) || (ev.localIp.V6? && ev.remoteIp.V6?))
  }

  /** A record whose event is the given one. */
  function RawOf(ev: Event): Raw
    requires (ev.localIp.V4? && ev.remoteIp.V4?) || (ev.localIp.V6? && ev.remoteIp.V6?)
  {
    Raw(0, 0, [], if ev.localIp.V4? then AF_INET else AF_INET6, ev.localPort, ev.remotePort, ev.typ,
        if ev.localIp.V4? then ev.localIp.b4 + ZEROS12 else ev.localIp.b16,
        if ev.remoteIp.V4? then ev.remoteIp.b4 + ZEROS12 else ev.remoteIp.b16,
        0, ev.lifeUs, ev.rttUs, ev.retransmits, ev.segsOut, ev.errno, 0, 0, 0, 0)
  }

  /** The hook events are the events of the records that the hooks submit. */
  lemma HookEventExact(ev: Event)
    ensures EventOk(HookEvent, ev) <==> exists r :: RawOk(r) && EventOf(r, ev.attrs) == ev
  {
    if EventOk(HookEvent, ev) {
      var r := RawOf(ev);
      assert RawOk(r) && EventOf(r, ev.attrs) == ev;
    }
  }
}
