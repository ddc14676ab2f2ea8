/** TWAMP-Light (RFC 5357, unauthenticated mode): NTP timestamps, the round trip
    they give, and the two test packets. */
module Twamp {
  import opened Wrappers
  import opened Arithmetic
  import opened Bytes

  const NTP_UNIX_OFFSET: nat := 2_208_988_800
  const BILLION: nat := 1_000_000_000
  const ERA: nat := 0x1_0000_0000
  const SENDER_MIN_LEN := 14
  const REFLECTOR_MIN_LEN := 41
  const MAX_PACKET_LEN := 1400

  // Timestamps -------------------------------------------------------------------

  datatype NtpTimestamp = NtpTimestamp(seconds: u32, fraction: u32) {
    /** From nanoseconds since the Unix epoch; seconds wrap at each NTP era. Cutting
        them to 64 bits first would change nothing: 2^64 is a whole number of eras. */
    static function FromUnixNanos(ns: nat): NtpTimestamp {
      NtpTimestamp((ns / BILLION + NTP_UNIX_OFFSET) % ERA, ns % BILLION * ERA / BILLION)
    }

    /** `wrapping_sub` on 64-bit seconds. */
    function WrappedSeconds(): nat {
      if seconds >= NTP_UNIX_OFFSET then seconds - NTP_UNIX_OFFSET else ERA * ERA + seconds - NTP_UNIX_OFFSET
    }

    function ToUnixNanos(): nat {
      WrappedSeconds() * BILLION + fraction * BILLION / ERA
    }

    function AsUnits(): nat {
      seconds * ERA + fraction
    }

    /** Nanoseconds from `earlier` to `this`, or nothing when the order is wrong. */
    function DurationSince(earlier: NtpTimestamp): Option<nat> {
      if AsUnits() < earlier.AsUnits() then
        None
      else
        var diff := AsUnits() - earlier.AsUnits();
        Some(diff / ERA * BILLION + diff % ERA * BILLION / ERA)
    }

    function ToBytes(): (s: seq<u8>)
      ensures |s| == 8
    {
      ToBE(seconds, 4) + ToBE(fraction, 4)
    }

    static function FromBytes(s: seq<u8>): NtpTimestamp
      requires |s| == 8
    {
      NtpTimestamp(U32(s[0..4]), U32(s[4..8]))
    }
  }

  const ZERO_TIME := NtpTimestamp(0, 0)

  function RoundTrip(t1: NtpTimestamp, t2: NtpTimestamp, t3: NtpTimestamp, t4: NtpTimestamp): Option<nat> {
    match t4.DurationSince(t1)
    case None => None
    case Some(total) =>
      var turnaround := match t3.DurationSince(t2) case Some(d) => d case None => 0;
      Some(SaturatingSub(total, turnaround))
  }

  function EraOf(ns: nat): nat {
    (ns / BILLION + NTP_UNIX_OFFSET) / ERA
  }

  /** A timestamp counts seconds from 1900, modulo 2^32, and the whole ticks of 2^-32 s
      begun since. */
  lemma TimestampExactly(ns: nat)
    ensures var t := NtpTimestamp.FromUnixNanos(ns);
      && t.seconds == (ns / 1_000_000_000 + 2_208_988_800) % 0x1_0000_0000
      && t.fraction * 1_000_000_000 <= ns % 1_000_000_000 * 0x1_0000_0000 < (t.fraction + 1) * 1_000_000_000
  {
  }

  /** The Unix epoch, half a second after it, and the rollover of 2036. */
  lemma KnownReadings()
    ensures NtpTimestamp.FromUnixNanos(0) == NtpTimestamp(2_208_988_800, 0)
    ensures NtpTimestamp.FromUnixNanos(500_000_000) == NtpTimestamp(2_208_988_800, 0x8000_0000)
    ensures NtpTimestamp.FromUnixNanos(2_085_978_496_000_000_000) == NtpTimestamp(0, 0)
  {
  }

  /** The difference of any two timestamps, in whole nanoseconds. */
  lemma DurationExactly(earlier: NtpTimestamp, later: NtpTimestamp)
    ensures var a, b := earlier.seconds * 0x1_0000_0000 + earlier.fraction,
        later.seconds * 0x1_0000_0000 + later.fraction;
      var d := later.DurationSince(earlier);
      && (d.Some? <==> a <= b)
      && (d.Some? ==> d.value * 0x1_0000_0000 <= (b - a) * 1_000_000_000 < (d.value + 1) * 0x1_0000_0000)
  {
    if later.AsUnits() >= earlier.AsUnits() {
      DurationIsTruncation(later.AsUnits() - earlier.AsUnits());
    }
  }

  /** The total less the turnaround, where it reads forwards, and never below zero. */
  lemma RoundTripExactly(t1: NtpTimestamp, t2: NtpTimestamp, t3: NtpTimestamp, t4: NtpTimestamp)
    ensures var total, held := t4.DurationSince(t1), t3.DurationSince(t2);
      RoundTrip(t1, t2, t3, t4) ==
        if total.None? then None
        else if held.None? then total
        else if held.value >= total.value then Some(0)
        else Some(total.value - held.value)
  {
  }

  /** Splitting a reading into seconds and a fraction loses nothing but the final
      rounding. */
  lemma UnitsOf(ns: nat)
    ensures NtpTimestamp.FromUnixNanos(ns).AsUnits() ==
      ns * ERA / BILLION + NTP_UNIX_OFFSET * ERA - EraOf(ns) * (ERA * ERA)
  {
    var secs, sub := ns / BILLION, ns % BILLION;
    assert ns * ERA / BILLION == secs * ERA + sub * ERA / BILLION;
  }

  /** Ticks of 2^-32 s truncated to whole nanoseconds in one step. */
  lemma DurationIsTruncation(diff: nat)
    ensures diff / ERA * BILLION + diff % ERA * BILLION / ERA == diff * BILLION / ERA
  {
    var secs, frac := diff / ERA, diff % ERA;
    assert diff * BILLION == secs * BILLION * ERA + frac * BILLION;
  }

  /** Within one era an elapsed time is under-reported by at most a nanosecond. */
  lemma ElapsedWithinOneNanosecond(a: nat, b: nat)
    requires a <= b && EraOf(a) == EraOf(b)
    ensures var d := NtpTimestamp.FromUnixNanos(b).DurationSince(NtpTimestamp.FromUnixNanos(a));
      d.Some? && b - a - 1 <= d.value <= b - a
  {
    UnitsOf(a);
    UnitsOf(b);
    var ua, ub := a * ERA / BILLION, b * ERA / BILLION;
    assert ua <= ub;
    DurationIsTruncation(ub - ua);
  }

  /** A difference that straddles one era rollover is refused, not misreported. */
  lemma RolloverRefused(a: nat, b: nat)
    requires a <= b < a + ERA * BILLION
    ensures NtpTimestamp.FromUnixNanos(b).DurationSince(NtpTimestamp.FromUnixNanos(a)).Some? <==> EraOf(a) == EraOf(b)
  {
    UnitsOf(a);
    UnitsOf(b);
    if EraOf(a) == EraOf(b) {
      ElapsedWithinOneNanosecond(a, b);
    } else {
      assert EraOf(b) == EraOf(a) + 1;
    }
  }

  // Round trip -----------------------------------------------------------------------

  /** t1 and t4 are read on the sender's clock, t2 and t3 on the reflector's; how
      the two clocks are related does not enter. */
  lemma RoundTripNeedsNoSync(t1: nat, t2: nat, t3: nat, t4: nat)
    requires t1 <= t4 && t2 <= t3 && t3 - t2 <= t4 - t1
    requires EraOf(t1) == EraOf(t4) && EraOf(t2) == EraOf(t3)
    ensures var r := RoundTrip(NtpTimestamp.FromUnixNanos(t1), NtpTimestamp.FromUnixNanos(t2),
                               NtpTimestamp.FromUnixNanos(t3), NtpTimestamp.FromUnixNanos(t4));
      r.Some? && -1 <= r.value - ((t4 - t1) - (t3 - t2)) <= 1
  {
    ElapsedWithinOneNanosecond(t1, t4);
    ElapsedWithinOneNanosecond(t2, t3);
  }

  /** A rollover between t1 and t4 refuses the round trip; one between t2 and t3 does
      not: it leaves the hold in, and only a hold within the rounding goes unseen. */
  lemma RolloverInRoundTrip(t1: nat, t2: nat, t3: nat, t4: nat)
    requires t1 <= t4 < t1 + ERA * BILLION && t2 <= t3 && 3 <= t3 - t2 <= t4 - t1
    ensures var r := RoundTrip(NtpTimestamp.FromUnixNanos(t1), NtpTimestamp.FromUnixNanos(t2),
                               NtpTimestamp.FromUnixNanos(t3), NtpTimestamp.FromUnixNanos(t4));
      && (r.Some? <==> EraOf(t1) == EraOf(t4))
      && (r.Some? ==> (-1 <= r.value - ((t4 - t1) - (t3 - t2)) <= 1 <==> EraOf(t2) == EraOf(t3)))
  {
    RolloverRefused(t1, t4);
    RolloverRefused(t2, t3);
    if EraOf(t1) == EraOf(t4) {
      ElapsedWithinOneNanosecond(t1, t4);
      if EraOf(t2) == EraOf(t3) {
        ElapsedWithinOneNanosecond(t2, t3);
      }
    }
  }

  /** End to end: whatever the reflector's clock is set to, the measured round trip
      is the time spent on the two paths, to a nanosecond. */
  lemma MeasuresPathDelay(sent: nat, forward: nat, hold: nat, back: nat, offset: int)
    requires sent + forward + offset >= 0
    requires EraOf(sent) == EraOf(sent + forward + hold + back)
    requires EraOf(sent + forward + offset) == EraOf(sent + forward + offset + hold)
    ensures
      var t1 := NtpTimestamp.FromUnixNanos(sent);
      var t2 := NtpTimestamp.FromUnixNanos(sent + forward + offset);
      var t3 := NtpTimestamp.FromUnixNanos(sent + forward + offset + hold);
      var t4 := NtpTimestamp.FromUnixNanos(sent + forward + hold + back);
      var r := RoundTrip(t1, t2, t3, t4);
      r.Some? && -1 <= r.value - (forward + back) <= 1
  {
    RoundTripNeedsNoSync(sent, sent + forward + offset, sent + forward + offset + hold, sent + forward + hold + back);
  }

  /** A turnaround that is not credible is not ignored: it pins the round trip to
      zero. Only a turnaround that reads as zero, or as backwards, leaves the
      total untouched. */
  lemma IncredibleTurnaround(t1: NtpTimestamp, t2: NtpTimestamp, t3: NtpTimestamp, t4: NtpTimestamp)
    requires t4.DurationSince(t1).Some?
    ensures var total, hold := t4.DurationSince(t1).value, t3.DurationSince(t2);
      && (RoundTrip(t1, t2, t3, t4) == Some(total) <==> total == 0 || hold.None? || hold.value == 0)
      && (RoundTrip(t1, t2, t3, t4) == Some(0) <==> total == 0 || (hold.Some? && hold.value >= total))
  {
  }

  /** Out for two seconds, held, it is said, for three: the round trip is zero, not two
      seconds. */
  lemma IncredibleTurnaroundExample()
    ensures RoundTrip(NtpTimestamp(0, 0), NtpTimestamp(0, 0), NtpTimestamp(3, 0), NtpTimestamp(2, 0)) == Some(0)
  {
  }

  // Conversion -------------------------------------------------------------------------

  /** 2^32 ticks a second hit a whole nanosecond only at multiples of 5^9. */
  lemma ExactTicks(s: nat)
    ensures s * ERA % BILLION == 0 <==> s % 1_953_125 == 0
  {
    if s % 1_953_125 == 0 {
      MultipleTicks(s, s / 1_953_125);
    }
    if s * ERA % BILLION == 0 {
      WholeTicks(s, s * ERA / BILLION);
    }
  }

  lemma MultipleTicks(s: nat, k: nat)
    requires s == 1_953_125 * k
    ensures s * ERA % BILLION == 0
  {
    assert s * ERA == BILLION * (k * 0x80_0000);
  }

  lemma WholeTicks(s: nat, q: nat)
    requires s * ERA == BILLION * q
    ensures s % 1_953_125 == 0
  {
    assert s * 0x80_0000 == 1_953_125 * q;
    assert s == 1_953_125 * (INV_A * q - INV_B * s);
  }

  // INV_A * 2^23 == 1 + INV_B * 5^9
  const INV_A: nat := 1_241_897
  const INV_B: nat := 5_333_907

  /** Where `to_unix_nanos` finds the era again: before the first one ends, in 2036,
      and in the last seconds its wrapped 64-bit subtraction can stand for. */
  predicate EraRecovered(ns: nat) {
    var secs := ns / BILLION;
    secs + NTP_UNIX_OFFSET < ERA || ERA * ERA - NTP_UNIX_OFFSET <= secs < ERA * ERA
  }

  lemma SecondsRecovered(ns: nat)
    ensures NtpTimestamp.FromUnixNanos(ns).WrappedSeconds() == ns / BILLION <==> EraRecovered(ns)
  {
    EraCases(ns / BILLION, EraOf(ns), NtpTimestamp.FromUnixNanos(ns));
  }

  lemma EraCases(secs: nat, era: nat, t: NtpTimestamp)
    requires secs + NTP_UNIX_OFFSET == era * ERA + t.seconds
    ensures t.WrappedSeconds() == secs <==>
      secs + NTP_UNIX_OFFSET < ERA || ERA * ERA - NTP_UNIX_OFFSET <= secs < ERA * ERA
  {
    if t.seconds >= NTP_UNIX_OFFSET {
      assert t.WrappedSeconds() == secs - era * ERA;
    } else {
      assert t.WrappedSeconds() == ERA * ERA + secs - era * ERA;
    }
  }

  /** Writing a reading as an NTP timestamp and reading it back loses at most one
      nanosecond exactly where the era is found again, and nothing exactly when,
      besides, the sub-second part is a multiple of 5^9 ns. */
  lemma ConversionRoundTrip(ns: nat)
    ensures var back := NtpTimestamp.FromUnixNanos(ns).ToUnixNanos();
      && (ns - 1 <= back <= ns <==> EraRecovered(ns))
      && (back == ns <==> EraRecovered(ns) && ns % BILLION % 1_953_125 == 0)
  {
    var secs, sub := ns / BILLION, ns % BILLION;
    var q := sub * ERA / BILLION;
    var sub' := q * BILLION / ERA;
    ExactTicks(sub);
    assert sub - 1 <= sub' <= sub && (sub' == sub <==> sub * ERA % BILLION == 0);
    SecondsRecovered(ns);
  }

  // Packets -----------------------------------------------------------------------------

  datatype TwampError = TooShort(len: nat, need: nat) | TooLong(len: nat)
  /** S, Z, six bits of scale, eight of multiplier (section 4.1.2 of RFC 4656). */
  datatype ErrorEstimate = ErrorEstimate(synchronized: bool, scale: u8, multiplier: u8) {
    static function FromU16(v: u16): ErrorEstimate {
      ErrorEstimate(v >= 0x8000, v / 0x100 % 0x40, v % 0x100)
    }

    function ToU16(): u16 {
      (if synchronized then 0x8000 else 0) + scale % 0x40 * 0x100 + multiplier
    }
  }

  const UNSYNCHRONIZED := ErrorEstimate(false, 12, 1)

  lemma ErrorEstimateRoundTrip(e: ErrorEstimate)
    ensures ErrorEstimate.FromU16(e.ToU16()) == e <==> e.scale < 0x40
  {
    var v := e.ToU16();
    assert v / 0x100 == (if e.synchronized then 0x80 else 0) + e.scale % 0x40;
  }

  /** Only the bit that must be zero is lost on the way in. */
  lemma ErrorEstimateRewrites(v: u16)
    ensures ErrorEstimate.FromU16(v).ToU16() == v <==> v / 0x4000 % 2 == 0
  {
  }

  lemma TimestampRoundTrip(t: NtpTimestamp)
    ensures NtpTimestamp.FromBytes(t.ToBytes()) == t
  {
    var s := t.ToBytes();
    assert s[0..4] == ToBE(t.seconds, 4) && s[4..8] == ToBE(t.fraction, 4);
    U32RoundTrip(t.seconds);
    U32RoundTrip(t.fraction);
  }

  datatype SenderPacket = SenderPacket(sequence: u32, timestamp: NtpTimestamp, errorEstimate: ErrorEstimate) {
    function Wire(): (s: seq<u8>)
      ensures |s| == SENDER_MIN_LEN
    {
      ToBE(sequence, 4) + timestamp.ToBytes() + ToBE(errorEstimate.ToU16(), 2)
    }

    method Encode(buf: array<u8>) returns (r: Result<(), TwampError>)
      modifies buf
      ensures r == if buf.Length < SENDER_MIN_LEN then Err(TooShort(buf.Length, SENDER_MIN_LEN)) else Ok(())
      ensures buf[..] == if buf.Length < SENDER_MIN_LEN then old(buf[..]) else Put(old(buf[..]), 0, Wire())
    {
      if buf.Length < SENDER_MIN_LEN {
        return Err(TooShort(buf.Length, SENDER_MIN_LEN));
      }
      CopyFromSlice(buf, 0, ToBE(sequence, 4));
      CopyFromSlice(buf, 4, timestamp.ToBytes());
      CopyFromSlice(buf, 12, ToBE(errorEstimate.ToU16(), 2));
      return Ok(());
    }

    static function Decode(buf: seq<u8>): Result<SenderPacket, TwampError> {
      if |buf| < SENDER_MIN_LEN then Err(TooShort(|buf|, SENDER_MIN_LEN))
      else if |buf| > MAX_PACKET_LEN then Err(TooLong(|buf|))
      else Ok(SenderPacket(U32(buf[0..4]), NtpTimestamp.FromBytes(buf[4..12]), ErrorEstimate.FromU16(U16(buf[12..14]))))
    }
  }

  lemma TimestampBytes(t: NtpTimestamp)
    ensures FromBE(t.ToBytes()[0..4]) == t.seconds && FromBE(t.ToBytes()[4..8]) == t.fraction
  {
    assert t.ToBytes()[0..4] == ToBE(t.seconds, 4) && t.ToBytes()[4..8] == ToBE(t.fraction, 4);
    U32RoundTrip(t.seconds);
    U32RoundTrip(t.fraction);
  }

  lemma EstimateBytes(e: ErrorEstimate)
    ensures ToBE(e.ToU16(), 2) == [(if e.synchronized then 0x80 else 0) + e.scale % 0x40, e.multiplier]
  {
    var high := (if e.synchronized then 0x80 else 0) + e.scale % 0x40;
    assert e.ToU16() == 256 * high + e.multiplier;
    TwoBytes(high, e.multiplier);
  }

  /** The fourteen bytes of a request. */
  lemma SenderBytes(p: SenderPacket)
    ensures var w := p.Wire();
      && |w| == 14 && FromBE(w[0..4]) == p.sequence
      && FromBE(w[4..8]) == p.timestamp.seconds && FromBE(w[8..12]) == p.timestamp.fraction
      && w[12] == (if p.errorEstimate.synchronized then 0x80 else 0) + p.errorEstimate.scale % 0x40
      && w[13] == p.errorEstimate.multiplier
  {
    var w, t := p.Wire(), p.timestamp.ToBytes();
    assert w[0..4] == ToBE(p.sequence, 4) && w[4..8] == t[0..4] && w[8..12] == t[4..8];
    U32RoundTrip(p.sequence);
    TimestampBytes(p.timestamp);
    EstimateBytes(p.errorEstimate);
    assert w[12] == ToBE(p.errorEstimate.ToU16(), 2)[0] && w[13] == ToBE(p.errorEstimate.ToU16(), 2)[1];
  }

  lemma SenderDecodedExactly(buf: seq<u8>)
    ensures var d := SenderPacket.Decode(buf);
      if |buf| < 14 then d == Err(TooShort(|buf|, 14))
      else if |buf| > 1400 then d == Err(TooLong(|buf|))
      else d == Ok(SenderPacket(U32(buf[0..4]), NtpTimestamp(U32(buf[4..8]), U32(buf[8..12])),
                                ErrorEstimate(buf[12] >= 0x80, buf[12] % 0x40, buf[13])))
  {
    if 14 <= |buf| <= 1400 {
      TimestampAt(buf, 4);
      EstimateAt(buf, 12);
    }
  }

  lemma TimestampAt(buf: seq<u8>, at: nat)
    requires at + 8 <= |buf|
    ensures NtpTimestamp.FromBytes(buf[at..at + 8]) ==
      NtpTimestamp(U32(buf[at..at + 4]), U32(buf[at + 4..at + 8]))
  {
    var s := buf[at..at + 8];
    assert s[0..4] == buf[at..at + 4] && s[4..8] == buf[at + 4..at + 8];
  }

  lemma EstimateAt(buf: seq<u8>, at: nat)
    requires at + 2 <= |buf|
    ensures ErrorEstimate.FromU16(U16(buf[at..at + 2])) ==
      ErrorEstimate(buf[at] >= 0x80, buf[at] % 0x40, buf[at + 1])
  {
    assert buf[at..at + 2] == [buf[at], buf[at + 1]];
    TwoBytes(buf[at], buf[at + 1]);
  }

  method StampSenderTx(buf: array<u8>, t1: NtpTimestamp) returns (r: Result<(), TwampError>)
    modifies buf
    ensures r == if buf.Length < SENDER_MIN_LEN then Err(TooShort(buf.Length, SENDER_MIN_LEN)) else Ok(())
    ensures buf[..] == if buf.Length < SENDER_MIN_LEN then old(buf[..]) else Put(old(buf[..]), 4, t1.ToBytes())
  {
    if buf.Length < SENDER_MIN_LEN {
      return Err(TooShort(buf.Length, SENDER_MIN_LEN));
    }
    CopyFromSlice(buf, 4, t1.ToBytes());
    return Ok(());
  }

  /** Stamping T1 over an encoded request is encoding the request with that T1. */
  lemma StampedRequestIsEncoded(p: SenderPacket, t1: NtpTimestamp, buf: seq<u8>)
    requires |buf| >= SENDER_MIN_LEN
    ensures Put(Put(buf, 0, p.Wire()), 4, t1.ToBytes()) == Put(buf, 0, p.(timestamp := t1).Wire())
  {
    PutWithin(buf, 0, p.Wire(), 4, t1.ToBytes());
    MiddleReplaced(ToBE(p.sequence, 4), p.timestamp.ToBytes(), ToBE(p.errorEstimate.ToU16(), 2), t1.ToBytes());
  }

  lemma MiddleReplaced(a: seq<u8>, b: seq<u8>, c: seq<u8>, b': seq<u8>)
    requires |b| == |b'|
    ensures Put(a + b + c, |a|, b') == a + b' + c
  {
  }

  lemma SenderRoundTrip(p: SenderPacket, buf: seq<u8>)
    requires |buf| >= SENDER_MIN_LEN
    ensures SenderPacket.Decode(Put(buf, 0, p.Wire())) == Ok(p) <==>
      |buf| <= MAX_PACKET_LEN && p.errorEstimate.scale < 0x40
  {
    var w, e := p.Wire(), Put(buf, 0, p.Wire());
    assert forall i :: 0 <= i < SENDER_MIN_LEN ==> e[i] == w[i] by { assert e[0..SENDER_MIN_LEN] == w; }
    assert e[0..4] == ToBE(p.sequence, 4);
    assert e[4..12] == p.timestamp.ToBytes();
    assert e[12..14] == ToBE(p.errorEstimate.ToU16(), 2);
    U32RoundTrip(p.sequence);
    TimestampRoundTrip(p.timestamp);
    U16RoundTrip(p.errorEstimate.ToU16());
    ErrorEstimateRoundTrip(p.errorEstimate);
  }

  datatype ReflectorPacket = ReflectorPacket(
    sequence: u32,
    timestamp: NtpTimestamp,
    errorEstimate: ErrorEstimate,
    receiveTimestamp: NtpTimestamp,
    senderSequence: u32,
    senderTimestamp: NtpTimestamp,
    senderErrorEstimate: ErrorEstimate,
    senderTtl: u8)
  {
    function OwnPart(): (s: seq<u8>)
      ensures |s| == 16
    {
      ToBE(sequence, 4) + timestamp.ToBytes() + ToBE(errorEstimate.ToU16(), 2) + [0, 0]
    }

    function EchoPart(): (s: seq<u8>)
      ensures |s| == 25
    {
      receiveTimestamp.ToBytes() + ToBE(senderSequence, 4) + senderTimestamp.ToBytes()
        + ToBE(senderErrorEstimate.ToU16(), 2) + [0, 0, senderTtl]
    }

    method Encode(buf: array<u8>) returns (r: Result<(), TwampError>)
      modifies buf
      ensures r == if buf.Length < REFLECTOR_MIN_LEN then Err(TooShort(buf.Length, REFLECTOR_MIN_LEN)) else Ok(())
      ensures buf[..] ==
        if buf.Length < REFLECTOR_MIN_LEN then old(buf[..])
        else Put(Put(old(buf[..]), 0, OwnPart()), 16, EchoPart())
    {
      if buf.Length < REFLECTOR_MIN_LEN {
        return Err(TooShort(buf.Length, REFLECTOR_MIN_LEN));
      }
      EncodeOwn(buf);
      EncodeEcho(buf);
      return Ok(());
    }

    method EncodeOwn(buf: array<u8>)
      requires buf.Length >= REFLECTOR_MIN_LEN
      modifies buf
      ensures buf[..] == Put(old(buf[..]), 0, OwnPart())
    {
      CopyFromSlice(buf, 0, ToBE(sequence, 4));
      CopyFromSlice(buf, 4, timestamp.ToBytes());
      CopyFromSlice(buf, 12, ToBE(errorEstimate.ToU16(), 2));
      CopyFromSlice(buf, 14, [0, 0]);
    }

    method EncodeEcho(buf: array<u8>)
      requires buf.Length >= REFLECTOR_MIN_LEN
      modifies buf
      ensures buf[..] == Put(old(buf[..]), 16, EchoPart())
    {
      ghost var was := buf[..];
      var t2, seqNo, t1, error := receiveTimestamp.ToBytes(), ToBE(senderSequence, 4), senderTimestamp.ToBytes(),
        ToBE(senderErrorEstimate.ToU16(), 2);
      CopyFromSlice(buf, 16, t2);
      CopyFromSlice(buf, 24, seqNo);
      CopyFromSlice(buf, 28, t1);
      CopyFromSlice(buf, 36, error);
      CopyFromSlice(buf, 38, [0, 0]);
      CopyFromSlice(buf, 40, [senderTtl]);
      PutJoin(was, 16, t2, seqNo);
      PutJoin(was, 16, t2 + seqNo, t1);
      PutJoin(was, 16, t2 + seqNo + t1, error);
      PutJoin(was, 16, t2 + seqNo + t1 + error, [0, 0]);
      PutJoin(was, 16, t2 + seqNo + t1 + error + [0, 0], [senderTtl]);
      assert [0, 0] + [senderTtl] == [0, 0, senderTtl];
      assert t2 + seqNo + t1 + error + [0, 0] + [senderTtl] == EchoPart();
    }

    static function Decode(buf: seq<u8>): Result<ReflectorPacket, TwampError> {
      if |buf| < REFLECTOR_MIN_LEN then Err(TooShort(|buf|, REFLECTOR_MIN_LEN))
      else if |buf| > MAX_PACKET_LEN then Err(TooLong(|buf|))
      else
        Ok(ReflectorPacket(
          U32(buf[0..4]), NtpTimestamp.FromBytes(buf[4..12]), ErrorEstimate.FromU16(U16(buf[12..14])),
          NtpTimestamp.FromBytes(buf[16..24]), U32(buf[24..28]), NtpTimestamp.FromBytes(buf[28..36]),
          ErrorEstimate.FromU16(U16(buf[36..38])), buf[40]))
    }

    static function ReplyTo(request: SenderPacket, ownSequence: u32, t2: NtpTimestamp, senderTtl: u8): ReflectorPacket {
      ReflectorPacket(ownSequence, ZERO_TIME, UNSYNCHRONIZED, t2,
                      request.sequence, request.timestamp, request.errorEstimate, senderTtl)
    }
  }

  /** The 41 bytes of a reply: the reflector's own part, then what it received. */
  lemma ReflectorBytes(p: ReflectorPacket)
    ensures var w := p.OwnPart();
      && |w| == 16 && FromBE(w[0..4]) == p.sequence
      && FromBE(w[4..8]) == p.timestamp.seconds && FromBE(w[8..12]) == p.timestamp.fraction
      && w[12..14] == ToBE(p.errorEstimate.ToU16(), 2) && w[14] == 0 && w[15] == 0
    ensures var w := p.EchoPart();
      && |w| == 25
      && FromBE(w[0..4]) == p.receiveTimestamp.seconds && FromBE(w[4..8]) == p.receiveTimestamp.fraction
      && FromBE(w[8..12]) == p.senderSequence
      && FromBE(w[12..16]) == p.senderTimestamp.seconds && FromBE(w[16..20]) == p.senderTimestamp.fraction
      && w[20..22] == ToBE(p.senderErrorEstimate.ToU16(), 2) && w[22] == 0 && w[23] == 0 && w[24] == p.senderTtl
  {
    OwnBytes(p);
    var w, t2, t1 := p.EchoPart(), p.receiveTimestamp.ToBytes(), p.senderTimestamp.ToBytes();
    assert w[0..4] == t2[0..4] && w[4..8] == t2[4..8] && w[8..12] == ToBE(p.senderSequence, 4);
    assert w[12..16] == t1[0..4] && w[16..20] == t1[4..8];
    U32RoundTrip(p.senderSequence);
    TimestampBytes(p.receiveTimestamp);
    TimestampBytes(p.senderTimestamp);
  }

  lemma OwnBytes(p: ReflectorPacket)
    ensures var w := p.OwnPart();
      && FromBE(w[0..4]) == p.sequence
      && FromBE(w[4..8]) == p.timestamp.seconds && FromBE(w[8..12]) == p.timestamp.fraction
      && w[12..14] == ToBE(p.errorEstimate.ToU16(), 2) && w[14] == 0 && w[15] == 0
  {
    var w, t3 := p.OwnPart(), p.timestamp.ToBytes();
    assert w[0..4] == ToBE(p.sequence, 4) && w[4..8] == t3[0..4] && w[8..12] == t3[4..8];
    U32RoundTrip(p.sequence);
    TimestampBytes(p.timestamp);
  }

  lemma ReflectorDecodedExactly(buf: seq<u8>)
    ensures var d := ReflectorPacket.Decode(buf);
      if |buf| < 41 then d == Err(TooShort(|buf|, 41))
      else if |buf| > 1400 then d == Err(TooLong(|buf|))
      else d == Ok(ReflectorPacket(
        U32(buf[0..4]), NtpTimestamp(U32(buf[4..8]), U32(buf[8..12])),
        ErrorEstimate(buf[12] >= 0x80, buf[12] % 0x40, buf[13]),
        NtpTimestamp(U32(buf[16..20]), U32(buf[20..24])), U32(buf[24..28]),
        NtpTimestamp(U32(buf[28..32]), U32(buf[32..36])),
        ErrorEstimate(buf[36] >= 0x80, buf[36] % 0x40, buf[37]), buf[40]))
  {
    if 41 <= |buf| <= 1400 {
      TimestampAt(buf, 4);
      EstimateAt(buf, 12);
      TimestampAt(buf, 16);
      TimestampAt(buf, 28);
      EstimateAt(buf, 36);
    }
  }

  method StampReflectorTx(buf: array<u8>, t3: NtpTimestamp) returns (r: Result<(), TwampError>)
    modifies buf
    ensures r == if buf.Length < REFLECTOR_MIN_LEN then Err(TooShort(buf.Length, REFLECTOR_MIN_LEN)) else Ok(())
    ensures buf[..] == if buf.Length < REFLECTOR_MIN_LEN then old(buf[..]) else Put(old(buf[..]), 4, t3.ToBytes())
  {
    if buf.Length < REFLECTOR_MIN_LEN {
      return Err(TooShort(buf.Length, REFLECTOR_MIN_LEN));
    }
    CopyFromSlice(buf, 4, t3.ToBytes());
    return Ok(());
  }

  lemma OwnLayout(p: ReflectorPacket, e: seq<u8>)
    requires |e| >= REFLECTOR_MIN_LEN && e[0..16] == p.OwnPart()
    ensures U32(e[0..4]) == p.sequence && NtpTimestamp.FromBytes(e[4..12]) == p.timestamp
    ensures U16(e[12..14]) == p.errorEstimate.ToU16()
  {
    var w := p.OwnPart();
    assert forall i :: 0 <= i < 16 ==> e[i] == w[i];
    assert e[0..4] == ToBE(p.sequence, 4);
    assert e[4..12] == p.timestamp.ToBytes();
    assert e[12..14] == ToBE(p.errorEstimate.ToU16(), 2);
    U32RoundTrip(p.sequence);
    TimestampRoundTrip(p.timestamp);
    U16RoundTrip(p.errorEstimate.ToU16());
  }

  lemma EchoLayout(p: ReflectorPacket, e: seq<u8>)
    requires |e| >= REFLECTOR_MIN_LEN && e[16..41] == p.EchoPart()
    ensures NtpTimestamp.FromBytes(e[16..24]) == p.receiveTimestamp && U32(e[24..28]) == p.senderSequence
    ensures NtpTimestamp.FromBytes(e[28..36]) == p.senderTimestamp
    ensures U16(e[36..38]) == p.senderErrorEstimate.ToU16() && e[40] == p.senderTtl
  {
    var w := p.EchoPart();
    assert forall i :: 16 <= i < 41 ==> e[i] == w[i - 16];
    assert e[16..24] == p.receiveTimestamp.ToBytes();
    assert e[24..28] == ToBE(p.senderSequence, 4);
    assert e[28..36] == p.senderTimestamp.ToBytes();
    assert e[36..38] == ToBE(p.senderErrorEstimate.ToU16(), 2);
    TimestampRoundTrip(p.receiveTimestamp);
    U32RoundTrip(p.senderSequence);
    TimestampRoundTrip(p.senderTimestamp);
    U16RoundTrip(p.senderErrorEstimate.ToU16());
  }

  /** Encoding a reply, stamping T3 over it and decoding gives the reply with that
      T3, provided the buffer is a legal packet and both scales fit six bits. */
  lemma StampedReplyDecodes(p: ReflectorPacket, t3: NtpTimestamp, buf: seq<u8>)
    requires |buf| >= REFLECTOR_MIN_LEN
    ensures var e := Put(Put(Put(buf, 0, p.OwnPart()), 16, p.EchoPart()), 4, t3.ToBytes());
      ReflectorPacket.Decode(e) == Ok(p.(timestamp := t3)) <==>
        |buf| <= MAX_PACKET_LEN && p.errorEstimate.scale < 0x40 && p.senderErrorEstimate.scale < 0x40
  {
    var a := Put(buf, 0, p.OwnPart());
    var b := Put(a, 16, p.EchoPart());
    var e := Put(b, 4, t3.ToBytes());
    var q := p.(timestamp := t3);
    assert b[0..16] == a[0..16] == p.OwnPart();
    OwnLayout(p, b);
    EchoLayout(p, b);
    assert e[0..4] == b[0..4] && e[12..14] == b[12..14] && e[16..24] == b[16..24] && e[24..28] == b[24..28];
    assert e[28..36] == b[28..36] && e[36..38] == b[36..38] && e[40] == b[40];
    TimestampRoundTrip(t3);
    ErrorEstimateRoundTrip(p.errorEstimate);
    ErrorEstimateRoundTrip(p.senderErrorEstimate);
  }

  /** What the sender needs comes back: its own sequence number, T1 and error
      estimate as it wrote them, next to the reflector's T2 and T3; and the reflector
      never claims a synchronised clock. */
  lemma ReplyEchoesRequest(request: seq<u8>, own: u32, t2: NtpTimestamp, t3: NtpTimestamp, ttl: u8, buf: seq<u8>)
    requires SenderPacket.Decode(request).Ok? && REFLECTOR_MIN_LEN <= |buf| <= MAX_PACKET_LEN
    ensures
      var q := SenderPacket.Decode(request).value;
      var p := ReflectorPacket.ReplyTo(q, own, t2, ttl);
      var d := ReflectorPacket.Decode(Put(Put(Put(buf, 0, p.OwnPart()), 16, p.EchoPart()), 4, t3.ToBytes()));
      && d.Ok?
      && d.value.senderSequence == q.sequence && d.value.senderTimestamp == q.timestamp
      && d.value.senderErrorEstimate == q.errorEstimate
      && d.value.receiveTimestamp == t2 && d.value.timestamp == t3
      && d.value.sequence == own && d.value.senderTtl == ttl
      && d.value.errorEstimate == ErrorEstimate(false, 12, 1)
  {
    var q := SenderPacket.Decode(request).value;
    StampedReplyDecodes(ReflectorPacket.ReplyTo(q, own, t2, ttl), t3, buf);
  }
}
