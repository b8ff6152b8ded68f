/**
  Clock-offset measurement against a time server (NTP). Of one exchange the
  model keeps the four on-wire timestamps of section 8 of RFC 5905:
  t0 client transmit, t1 server receive, t2 server transmit, t3 client
  receive, as integer nanoseconds since the Unix epoch. From them it derives
  the round-trip delay and the clock offset in whole microseconds.

  The conversion of a raw 64-bit NTP timestamp to a local timestamp belongs
  to the date library and is a parameter here; so are the network request,
  the pseudo-random number used to pick a server and the local clock.
 */
module NtpSync {
  import opened Arith
  import opened Wrappers

  /** Replaces an offset whose microsecond count overflows 64 bits (before halving). */
  const OVERFLOW_SENTINEL_US: int := 0x1000_0000_0000_0000

  /** The time servers a new estimator is given to choose from. */
  const NTP_SERVERS: seq<string> := [
    "2.uk.pool.ntp.org",
    "1.europe.pool.ntp.org",
    "ntp2d.mcc.ac.uk",
    "3.debian.pool.ntp.org"
  ]

  /** An NTP wire timestamp: seconds since 1900 and a 32-bit fraction. */
  datatype RawTimestamp = RawTimestamp(sec: nat, frac: nat)

  /** The timestamps of a server's reply packet. */
  datatype RawPacket = RawPacket(origTime: RawTimestamp, recvTime: RawTimestamp, transmitTime: RawTimestamp)

  /** The four timestamps of one exchange, in ns. */
  datatype NtpPacket = NtpPacket(t0: int, t1: int, t2: int, t3: int)

  /**
    Builds the exchange from a reply and the local arrival time `tReturn`,
    failing when any of the three packet timestamps cannot be converted.
   */
  function From(pkt: RawPacket, tReturn: int, convert: RawTimestamp -> Option<int>): (r: Option<NtpPacket>)
    ensures r.Some? <==> convert(pkt.origTime).Some? && convert(pkt.recvTime).Some?
                         && convert(pkt.transmitTime).Some?
    ensures r.Some? ==> r.value.t0 == convert(pkt.origTime).value
                        && r.value.t1 == convert(pkt.recvTime).value
                        && r.value.t2 == convert(pkt.transmitTime).value
                        && r.value.t3 == tReturn
  {
    match convert(pkt.origTime)
    case None => None
    case Some(t0) =>
      match convert(pkt.recvTime)
      case None => None
      case Some(t1) =>
        match convert(pkt.transmitTime)
        case None => None
        case Some(t2) => Some(NtpPacket(t0, t1, t2, tReturn))
  }

  /** A duration's whole microseconds, rounded toward zero; absent when they overflow 64 bits. */
  function NumMicroseconds(d: int): (r: Option<int>)
    ensures r.Some? ==> InI64(r.value)
    ensures r.Some? ==> Abs(d - r.value * NANOS_PER_MICRO) < NANOS_PER_MICRO
    ensures r.Some? ==> (d >= 0 ==> r.value * NANOS_PER_MICRO <= d) && (d <= 0 ==> d <= r.value * NANOS_PER_MICRO)
    ensures r.None? ==> Abs(d) > I64_MAX * NANOS_PER_MICRO
  {
    var us := TruncDiv(d, NANOS_PER_MICRO);
    if InI64(us) then Some(us) else None
  }

  /** Return-leg minus outbound-leg duration (ns): minus twice the offset. */
  function LegDifference(p: NtpPacket): int {
    (p.t3 - p.t2) - (p.t1 - p.t0)
  }

  /** Twice the clock offset theta of RFC 5905, section 8, in ns. */
  function TwiceTheta(p: NtpPacket): int {
    (p.t1 - p.t0) + (p.t2 - p.t3)
  }

  /** Round-trip delay: time spent on the wire, the server's holding time excluded. */
  function Transit(p: NtpPacket): (d: int)
    // delta of RFC 5905, section 8
    ensures d == (p.t3 - p.t0) - (p.t2 - p.t1)
  {
    (p.t3 - p.t2) + (p.t1 - p.t0)
  }

  lemma TruncMicrosThenHalve(a: int)
    ensures TruncDiv(TruncDiv(a, NANOS_PER_MICRO), 2) == TruncDiv(a, 2 * NANOS_PER_MICRO)
  {
    if a < 0 {
      assert (-a) / 1000 / 2 == (-a) / 2000;
    }
  }

  /**
    Offset of the local clock from the server, in µs: half the leg
    difference in whole microseconds, each step rounded toward zero. This is
    the negation of RFC 5905's theta; a sentinel stands in when the leg
    difference overflows.
   */
  function Offset(p: NtpPacket): (o: int)
    // minus theta, truncated toward zero to whole microseconds
    ensures NumMicroseconds(LegDifference(p)).Some? ==> o == TruncDiv(-TwiceTheta(p), 2 * NANOS_PER_MICRO)
    // twice the offset is the microsecond leg difference, short of it by at most 1 µs toward zero
    ensures NumMicroseconds(LegDifference(p)).Some? ==>
              var o2 := NumMicroseconds(LegDifference(p)).value;
              Abs(o2 - 2 * o) <= 1 && Abs(2 * o) <= Abs(o2) && (o2 >= 0 ==> o >= 0) && (o2 <= 0 ==> o <= 0)
    ensures NumMicroseconds(LegDifference(p)).None? ==> o == OVERFLOW_SENTINEL_US / 2
  {
    var o2 := LegDifference(p);
    TruncMicrosThenHalve(o2);
    assert -TwiceTheta(p) == o2;
    TruncDiv(NumMicroseconds(o2).GetOr(OVERFLOW_SENTINEL_US), 2)
  }

  /** Equal outbound and return legs mean no offset. */
  lemma SymmetricLegsNoOffset(p: NtpPacket)
    requires p.t1 - p.t0 == p.t3 - p.t2
    ensures Offset(p) == 0
  {
  }

  /** The server's clock shifted by `s` ns: its two timestamps move together. */
  function ShiftServer(p: NtpPacket, s: int): NtpPacket {
    p.(t1 := p.t1 + s, t2 := p.t2 + s)
  }

  /** However far off the server's clock is, the delay it reports does not change. */
  lemma ShiftServerTransit(p: NtpPacket, s: int)
    ensures Transit(ShiftServer(p, s)) == Transit(p)
  {
  }

  /**
    A server clock ahead by a whole number of microseconds moves the
    measured offset back by that many microseconds, to within the 1 µs of
    truncation.
   */
  lemma ShiftServerClock(p: NtpPacket, s: int)
    requires s % NANOS_PER_MICRO == 0
    requires NumMicroseconds(LegDifference(p)).Some?
    requires NumMicroseconds(LegDifference(ShiftServer(p, s))).Some?
    ensures Abs(Offset(ShiftServer(p, s)) - (Offset(p) - s / NANOS_PER_MICRO)) <= 1
  {
    var m := s / NANOS_PER_MICRO;
    var q := Offset(p);
    var q' := Offset(ShiftServer(p, s));
    assert TwiceTheta(ShiftServer(p, s)) == TwiceTheta(p) + 2000 * m;
    assert -2000 < q' * 2000 - (-TwiceTheta(p) - 2000 * m) < 2000;
    assert -2000 < q * 2000 + TwiceTheta(p) < 2000;
  }

  /** Index of the server to ask: the random number reduced modulo the list length. */
  function HostIndex(rand: nat, count: nat): (i: nat)
    requires count > 0
    ensures i < count
    ensures rand < count ==> i == rand
  {
    rand % count
  }

  /** The choice repeats with period `count` in the random number, so each server gets an equal share. */
  lemma HostIndexPeriodic(rand: nat, count: nat)
    requires count > 0
    ensures HostIndex(rand + count, count) == HostIndex(rand, count)
  {
    ModUnique(rand + count, count, rand / count + 1, rand % count);
  }

  /** What one successful ping reports. */
  datatype Sample = Sample(host: string, offset: int, transit: int)

  /**
    One ping: pick a server, request a reply, timestamp its arrival, and
    derive offset and delay; a failed request or conversion yields nothing.
   */
  function NtpPing(servers: seq<string>, rand: nat, request: string -> Option<RawPacket>,
                   tReturn: int, convert: RawTimestamp -> Option<int>): (r: Option<Sample>)
    requires |servers| > 0
    ensures r.Some? ==> r.value.host in servers
    ensures r.Some? ==> r.value.host == servers[rand % |servers|]
    ensures r.Some? <==> (var reply := request(servers[rand % |servers|]);
                          reply.Some? && From(reply.value, tReturn, convert).Some?)
    ensures r.Some? ==> (var pkt := From(request(r.value.host).value, tReturn, convert).value;
                         pkt.t3 == tReturn && r.value.transit == Transit(pkt) && r.value.offset == Offset(pkt))
  {
    var host := servers[HostIndex(rand, |servers|)];
    match request(host)
    case None => None
    case Some(raw) =>
      match From(raw, tReturn, convert)
      case None => None
      case Some(pkt) => Some(Sample(host, Offset(pkt), Transit(pkt)))
  }
}
