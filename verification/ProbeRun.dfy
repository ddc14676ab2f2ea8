/** One probe session end to end: the sender's loop, the reflector's counter, and
    between them a channel that may lose, reorder and duplicate packets; and the loss
    figures measured against what really happened. */
module ProbeRun {
  import opened Wrappers
  import opened Arithmetic
  import opened Bytes
  import opened Mqp
  import opened Reflector
  import opened SetSizes
  import Stats

  datatype ProbeConfig = ProbeConfig(
    sessionId: u64, peer: Ip, count: u32, payloadBytes: nat, dscp: u8, timeoutNs: nat)
  {
    predicate Usable() {
      count > 0 && HEADER_LEN <= payloadBytes <= MAX_PACKET_LEN
    }

    function PayloadLen(): u16
      requires Usable()
    {
      payloadBytes - HEADER_LEN
    }
  }

  datatype ProbeError = EmptyRun | BadPacketSize(requested: nat)

  datatype Outcome = Finished(sent: nat, samples: seq<Stats.Sample>) | Refused(error: ProbeError)

  // The sender -------------------------------------------------------------------------

  /** What wakes the sender: its pacing tick, or a packet on its socket. */
  datatype Happening =
    | Tick(t1: u64, sendOk: bool)
    | Packet(bytes: seq<u8>, from: Ip, t4: u64)

  /** `sentAt` holds the send time of each sequence number tried so far, nothing
      where the send failed. */
  datatype Progress = Progress(sentAt: seq<Option<u64>>, samples: seq<Stats.Sample>)

  function AcceptReply(cfg: ProbeConfig, p: Progress, packet: seq<u8>, from: Ip, t4: u64): Option<Stats.Sample> {
    var decoded := Decode(packet);
    if from != cfg.peer || decoded.Err? then None
    else
      var h := decoded.value;
      if h.pktType != Reply || h.sessionId != cfg.sessionId then None
      else if h.seqNo >= |p.sentAt| || p.sentAt[h.seqNo].None? || t4 < p.sentAt[h.seqNo].value then None
      else
        var rtt := SaturatingSub(t4 - p.sentAt[h.seqNo].value, SaturatingSub(h.t3, h.t2));
        if rtt > cfg.timeoutNs then None
        else Some(Stats.Sample(h.seqNo, Some(h.reflectorSeq), rtt, |p.samples|))
  }

  function Advance(cfg: ProbeConfig, p: Progress, e: Happening): Progress {
    match e
    case Tick(t1, ok) =>
      if |p.sentAt| >= cfg.count then p else p.(sentAt := p.sentAt + [if ok then Some(t1) else None])
    case Packet(bytes, from, t4) =>
      p.(samples := p.samples + Taken(AcceptReply(cfg, p, bytes, from, t4)))
  }

  function Taken(sample: Option<Stats.Sample>): seq<Stats.Sample> {
    if sample.Some? then [sample.value] else []
  }

  function After(cfg: ProbeConfig, events: seq<Happening>): Progress {
    if events == [] then Progress([], []) else Advance(cfg, After(cfg, events[..|events| - 1]), events[|events| - 1])
  }

  function Sent(sentAt: seq<Option<u64>>): (n: nat)
    ensures n <= |sentAt|
  {
    if sentAt == [] then 0 else Sent(sentAt[..|sentAt| - 1]) + if sentAt[|sentAt| - 1].Some? then 1 else 0
  }

  function Probe(cfg: ProbeConfig, seqNo: u32, t1: u64): Header
    requires cfg.Usable()
  {
    Header.Request(cfg.sessionId, seqNo, cfg.dscp, cfg.PayloadLen()).(t1 := t1)
  }

  /** Every packet put on the wire decodes to the probe with its own number and time. */
  ghost predicate Announces(cfg: ProbeConfig, wire: seq<seq<u8>>, sentAt: seq<Option<u64>>)
    requires cfg.Usable()
  {
    && |wire| == |sentAt| <= cfg.count
    && forall i :: 0 <= i < |wire| && sentAt[i].Some? ==> Decode(wire[i]) == Ok(Probe(cfg, i, sentAt[i].value))
  }

  /** A probe is a request of its session with the DSCP echo flag, its own number and
      send time, and the reflector's fields zero. */
  lemma ProbeIs(cfg: ProbeConfig, seqNo: u32, t1: u64)
    requires cfg.Usable()
    ensures Probe(cfg, seqNo, t1) ==
      Header(1, PacketType.Request, 8, cfg.sessionId, seqNo, 0, t1, 0, 0, cfg.dscp, 0, 0, 0, cfg.payloadBytes - 56)
  {
  }

  method BuildProbe(cfg: ProbeConfig, seqNo: u32, t1: u64, txBuf: array<u8>)
    requires cfg.Usable() && txBuf.Length == cfg.payloadBytes
    modifies txBuf
    ensures Decode(txBuf[..]) == Ok(Probe(cfg, seqNo, t1))
  {
    var h := Header.Request(cfg.sessionId, seqNo, cfg.dscp, cfg.PayloadLen());
    ghost var was := txBuf[..];
    var encoded := h.Encode(txBuf);
    var stamped := StampT1(txBuf, t1);
    ProbeDecodes(cfg, seqNo, t1, was);
  }

  lemma OneMoreAnnounced(cfg: ProbeConfig, wire: seq<seq<u8>>, sentAt: seq<Option<u64>>,
      packet: seq<u8>, t1: u64, ok: bool)
    requires cfg.Usable() && Announces(cfg, wire, sentAt) && |sentAt| < cfg.count
    requires Decode(packet) == Ok(Probe(cfg, |sentAt|, t1))
    ensures Announces(cfg, wire + [packet], sentAt + [if ok then Some(t1) else None])
  {
  }

  lemma OneMoreEvent(cfg: ProbeConfig, events: seq<Happening>, k: nat)
    requires k < |events|
    ensures After(cfg, events[..k + 1]) == Advance(cfg, After(cfg, events[..k]), events[k])
  {
    assert events[..k + 1][..k] == events[..k];
  }

  method TakePacket(cfg: ProbeConfig, p: Progress, bytes: seq<u8>, from: Ip, t4: u64) returns (q: Progress)
    ensures q == Advance(cfg, p, Packet(bytes, from, t4)) && q.sentAt == p.sentAt
  {
    var sample := AcceptReply(cfg, p, bytes, from, t4);
    q := p;
    if sample.Some? {
      q := p.(samples := p.samples + [sample.value]);
    }
  }

  /** Send until `count` packets have been tried, taking replies in between. `wire`
      is every packet handed to the socket, `used` the events consumed. */
  method SendAndReceive(cfg: ProbeConfig, events: seq<Happening>) returns (p: Progress, wire: seq<seq<u8>>, used: nat)
    requires cfg.Usable()
    ensures used <= |events| && p == After(cfg, events[..used])
    ensures used < |events| ==> |p.sentAt| >= cfg.count
    ensures Announces(cfg, wire, p.sentAt)
  {
    p, wire, used := Progress([], []), [], 0;
    var txBuf := new u8[cfg.payloadBytes](_ => 0);
    while used < |events| && |p.sentAt| < cfg.count
      invariant used <= |events| && p == After(cfg, events[..used])
      invariant Announces(cfg, wire, p.sentAt)
    {
      OneMoreEvent(cfg, events, used);
      match events[used] {
        case Packet(bytes, from, t4) =>
          p := TakePacket(cfg, p, bytes, from, t4);
        case Tick(t1, ok) =>
          BuildProbe(cfg, |p.sentAt|, t1, txBuf);
          OneMoreAnnounced(cfg, wire, p.sentAt, txBuf[..], t1, ok);
          wire := wire + [txBuf[..]];
          p := p.(sentAt := p.sentAt + [if ok then Some(t1) else None]);
      }
      used := used + 1;
    }
  }

  /** Take the stragglers; the time to send is over. */
  method Linger(cfg: ProbeConfig, events: seq<Happening>, used: nat, sent: Progress) returns (p: Progress)
    requires used <= |events| && sent == After(cfg, events[..used])
    requires used < |events| ==> |sent.sentAt| >= cfg.count
    ensures p == After(cfg, events) && p.sentAt == sent.sentAt
  {
    p := sent;
    var k := used;
    while k < |events|
      invariant used <= k <= |events| && p == After(cfg, events[..k]) && p.sentAt == sent.sentAt
    {
      OneMoreEvent(cfg, events, k);
      if events[k].Packet? {
        p := TakePacket(cfg, p, events[k].bytes, events[k].from, events[k].t4);
      }
      k := k + 1;
    }
    assert events[..k] == events;
  }

  /** One whole run: send, then linger for the stragglers. */
  method Run(cfg: ProbeConfig, events: seq<Happening>) returns (r: Outcome, wire: seq<seq<u8>>)
    ensures cfg.count == 0 ==> r == Refused(EmptyRun)
    ensures cfg.count > 0 && (cfg.payloadBytes < 56 || cfg.payloadBytes > 1400) ==>
      r == Refused(BadPacketSize(cfg.payloadBytes))
    ensures cfg.count > 0 && 56 <= cfg.payloadBytes <= 1400 ==>
      var p := After(cfg, events);
      r == Finished(Sent(p.sentAt), p.samples) && Announces(cfg, wire, p.sentAt)
  {
    if cfg.count == 0 {
      return Refused(EmptyRun), [];
    }
    if cfg.payloadBytes < HEADER_LEN || cfg.payloadBytes > MAX_PACKET_LEN {
      return Refused(BadPacketSize(cfg.payloadBytes)), [];
    }
    var p, sent, used := SendAndReceive(cfg, events);
    p := Linger(cfg, events, used, p);
    return Finished(Sent(p.sentAt), p.samples), sent;
  }

  lemma ProbeDecodes(cfg: ProbeConfig, seqNo: u32, t1: u64, buf: seq<u8>)
    requires cfg.Usable() && |buf| == cfg.payloadBytes
    ensures var h := Header.Request(cfg.sessionId, seqNo, cfg.dscp, cfg.PayloadLen());
      Decode(Sealed(Put(Encoded(h, buf), 24, ToBE(t1, 8)))) == Ok(Probe(cfg, seqNo, t1))
  {
    var h := Header.Request(cfg.sessionId, seqNo, cfg.dscp, cfg.PayloadLen());
    DecodeEncoded(h, buf);
    StampT1UpdatesRecord(Encoded(h, buf), h, t1);
  }

  /** Any packet that decodes to one of the sender's probes, the reflector answers:
      the session's counter moves by one. */
  lemma ProbesAreAnswered(cfg: ProbeConfig, seqNo: u32, t1: u64, packet: seq<u8>, sessions: Sessions, from: Ip)
    requires cfg.Usable() && Decode(packet) == Ok(Probe(cfg, seqNo, t1))
    requires cfg.sessionId in sessions && sessions[cfg.sessionId].Accepts(from)
    ensures VerdictOn(sessions, packet, from).Answered?
    ensures SessionsAfter(sessions, packet, from) == sessions[cfg.sessionId := sessions[cfg.sessionId].Counted()]
  {
    ProbeIs(cfg, seqNo, t1);
    VerdictExactly(sessions, packet, from);
  }

  /** What makes a packet a sample: it comes from the peer and decodes to a reply of this
      session, to a probe that went out no later than the reply came in, and is not
      overdue. The time the reflector says it held the probe does not count; where it
      says it answered before it received, or held it longer than the round trip, that
      is taken as zero. */
  lemma SampleExactly(cfg: ProbeConfig, p: Progress, packet: seq<u8>, h: Header, from: Ip, t1: u64, t4: u64)
    requires Decode(packet) == Ok(h) && h.seqNo < |p.sentAt| && p.sentAt[h.seqNo] == Some(t1) && t1 <= t4
    ensures var hold := if h.t3 > h.t2 then h.t3 - h.t2 else 0;
      var rtt := if t4 - t1 > hold then t4 - t1 - hold else 0;
      AcceptReply(cfg, p, packet, from, t4) ==
        if from == cfg.peer && h.pktType == Reply && h.sessionId == cfg.sessionId && rtt <= cfg.timeoutNs
        then Some(Stats.Sample(h.seqNo, Some(h.reflectorSeq), rtt, |p.samples|))
        else None
  {
  }

  lemma NoSample(cfg: ProbeConfig, p: Progress, packet: seq<u8>, from: Ip, t4: u64)
    requires
      || Decode(packet).Err?
      || var n := Decode(packet).value.seqNo;
         n >= |p.sentAt| || p.sentAt[n] == None || t4 < p.sentAt[n].value
    ensures AcceptReply(cfg, p, packet, from, t4) == None
  {
  }

  /** The send times, or failures, of the ticks of a run. */
  function Ticks(events: seq<Happening>): seq<Option<u64>> {
    if events == [] then
      []
    else
      var e := events[|events| - 1];
      Ticks(events[..|events| - 1]) + if e.Tick? then [if e.sendOk then Some(e.t1) else None] else []
  }

  /** Numbers are given out one a tick, whether or not the send succeeds, until the
      configured count has been tried. */
  lemma {:induction false} SentOnTicks(cfg: ProbeConfig, events: seq<Happening>)
    ensures var sentAt, ticks := After(cfg, events).sentAt, Ticks(events);
      && sentAt <= ticks
      && |sentAt| == if |ticks| < cfg.count then |ticks| else cfg.count
  {
    if events != [] {
      SentOnTicks(cfg, events[..|events| - 1]);
    }
  }

  /** A reply to probe `h.seqNo`, sent at `t1` by the sender's clock and held for
      `hold` by a reflector whose clock is `offset` away, is worth exactly the time
      spent on the two paths, whatever the send time it echoes; it is dropped
      exactly when that exceeds the timeout. */
  lemma SampleIsPathDelay(cfg: ProbeConfig, p: Progress, packet: seq<u8>, h: Header,
      t1: u64, forward: nat, hold: nat, back: nat, offset: int, t4: u64)
    requires Decode(packet) == Ok(h) && h.pktType == Reply && h.sessionId == cfg.sessionId
    requires h.seqNo < |p.sentAt| && p.sentAt[h.seqNo] == Some(t1)
    requires h.t2 == t1 + forward + offset && h.t3 == h.t2 + hold && t4 == t1 + forward + hold + back
    ensures AcceptReply(cfg, p, packet, cfg.peer, t4) ==
      if forward + back > cfg.timeoutNs then None
      else Some(Stats.Sample(h.seqNo, Some(h.reflectorSeq), forward + back, |p.samples|))
  {
  }

  // The run as steps -------------------------------------------------------------------

  /** `generated` logs every reply the reflector made, in order. */
  datatype World = World(
    sender: Progress,
    forward: set<Header>,
    session: Session,
    generated: seq<Header>,
    back: set<Header>)

  /** A packet that arrives stays in flight when a copy of it is still to come. */
  datatype Event =
    | Send(t1: u64, ok: bool)
    | LoseRequest(h: Header)
    | Reflect(h: Header, meta: Meta, t2: u64, t3: u64, sendOk: bool, again: bool)
    | LoseReply(h: Header)
    | Arrive(h: Header, packet: seq<u8>, from: Ip, t4: u64, again: bool)

  function Start(peer: Ip): World {
    World(Progress([], []), {}, Session(0, peer, 0), [], {})
  }

  /** The counter is taken never to reach its last value; without duplicated requests
      it cannot. */
  const MOST_REPLIES := 0xFFFF_FFFF

  predicate Legal(cfg: ProbeConfig, w: World, e: Event) {
    match e
    case Send(_, _) => |w.sender.sentAt| < cfg.count
    case LoseRequest(h) => h in w.forward
    case Reflect(h, _, _, _, _, _) => h in w.forward && |w.generated| < MOST_REPLIES
    case LoseReply(h) => h in w.back
    case Arrive(h, packet, _, _, _) => h in w.back && Decode(packet) == Ok(h)
  }

  /** What the sender sees of an event. */
  function Seen(e: Event): seq<Happening> {
    match e
    case Send(t1, ok) => [Tick(t1, ok)]
    case Arrive(_, packet, from, t4, _) => [Packet(packet, from, t4)]
    case _ => []
  }

  function Answer(w: World, h: Header, meta: Meta, t2: u64, t3: u64): Header {
    ReplyFor(map[h.sessionId := w.session], h, meta, t2, t3)
  }

  /** One event; one that cannot happen changes nothing. */
  function Next(cfg: ProbeConfig, w: World, e: Event): World
    requires cfg.Usable()
  {
    if !Legal(cfg, w, e) then w
    else
      match e
      case Send(t1, ok) =>
        w.(sender := Advance(cfg, w.sender, Tick(t1, ok)),
           forward := if ok then w.forward + {Probe(cfg, |w.sender.sentAt|, t1)} else w.forward)
      case LoseRequest(h) => w.(forward := w.forward - {h})
      case Reflect(h, meta, t2, t3, sendOk, again) =>
        var reply := Answer(w, h, meta, t2, t3);
        w.(forward := if again then w.forward else w.forward - {h},
           session := w.session.Counted(), generated := w.generated + [reply],
           back := if sendOk then w.back + {reply} else w.back)
      case LoseReply(h) => w.(back := w.back - {h})
      case Arrive(h, packet, from, t4, again) =>
        w.(back := if again then w.back else w.back - {h}, sender := Advance(cfg, w.sender, Packet(packet, from, t4)))
  }

  function WorldAfter(cfg: ProbeConfig, peer: Ip, events: seq<Event>): World
    requires cfg.Usable()
  {
    if events == [] then Start(peer)
    else Next(cfg, WorldAfter(cfg, peer, events[..|events| - 1]), events[|events| - 1])
  }

  /** The sender's share of a run: what it sees of each event that happened. */
  function SenderView(cfg: ProbeConfig, peer: Ip, events: seq<Event>): seq<Happening>
    requires cfg.Usable()
  {
    if events == [] then []
    else
      var before, e := events[..|events| - 1], events[|events| - 1];
      SenderView(cfg, peer, before) + if Legal(cfg, WorldAfter(cfg, peer, before), e) then Seen(e) else []
  }

  /** The sender's loop, run over what the sender sees, ends where the whole system
      says it does. */
  lemma {:induction false} SenderRunsTheSame(cfg: ProbeConfig, peer: Ip, events: seq<Event>)
    requires cfg.Usable()
    ensures After(cfg, SenderView(cfg, peer, events)) == WorldAfter(cfg, peer, events).sender
  {
    if events != [] {
      var before, e := events[..|events| - 1], events[|events| - 1];
      SenderRunsTheSame(cfg, peer, before);
      var seen := SenderView(cfg, peer, before);
      if Legal(cfg, WorldAfter(cfg, peer, before), e) && |Seen(e)| == 1 {
        assert (seen + Seen(e))[..|seen|] == seen;
      } else {
        assert SenderView(cfg, peer, events) == seen;
      }
    }
  }

  // What every run keeps -----------------------------------------------------------------------

  ghost predicate FromGenerated(generated: seq<Header>, h: Header) {
    h.reflectorSeq < |generated| && generated[h.reflectorSeq] == h
  }

  /** A sample is a generated reply. */
  ghost predicate Received(generated: seq<Header>, s: Stats.Sample) {
    s.reflectorSeq.Some? && s.reflectorSeq.value < |generated| && generated[s.reflectorSeq.value].seqNo == s.seqNo
  }

  predicate WasSent(sentAt: seq<Option<u64>>, n: nat) {
    n < |sentAt| && sentAt[n].Some?
  }

  ghost predicate Consistent(cfg: ProbeConfig, w: World) {
    && |w.sender.sentAt| <= cfg.count
    && (forall h :: h in w.forward ==> WasSent(w.sender.sentAt, h.seqNo))
    && (forall i :: 0 <= i < |w.generated| ==> WasSent(w.sender.sentAt, w.generated[i].seqNo))
    && w.session.reflectorSeq == |w.generated| <= MOST_REPLIES
    && (forall i :: 0 <= i < |w.generated| ==> w.generated[i].reflectorSeq == i)
    && (forall h :: h in w.back ==> FromGenerated(w.generated, h))
    && (forall i :: 0 <= i < |w.sender.samples| ==> Received(w.generated, w.sender.samples[i]))
    && (forall i :: 0 <= i < |w.sender.samples| ==> w.sender.samples[i].arrivalIndex == i)
  }

  lemma SendKeeps(cfg: ProbeConfig, w: World, t1: u64, ok: bool)
    requires cfg.Usable() && Consistent(cfg, w) && Legal(cfg, w, Send(t1, ok))
    ensures Consistent(cfg, Next(cfg, w, Send(t1, ok)))
  {
    var n := |w.sender.sentAt|;
    assert Probe(cfg, n, t1).seqNo == n;
    forall k: nat | WasSent(w.sender.sentAt, k) ensures WasSent(Next(cfg, w, Send(t1, ok)).sender.sentAt, k) {
    }
  }

  lemma ReflectKeeps(cfg: ProbeConfig, w: World, e: Event)
    requires cfg.Usable() && e.Reflect? && Consistent(cfg, w) && Legal(cfg, w, e)
    ensures Consistent(cfg, Next(cfg, w, e))
  {
    var w', reply := Next(cfg, w, e), Answer(w, e.h, e.meta, e.t2, e.t3);
    assert reply.reflectorSeq == |w.generated| && reply.seqNo == e.h.seqNo;
    forall h | h in w'.back ensures FromGenerated(w'.generated, h) {
      if h in w.back { assert FromGenerated(w.generated, h); }
    }
    forall i | 0 <= i < |w.sender.samples| ensures Received(w'.generated, w.sender.samples[i]) {
      assert Received(w.generated, w.sender.samples[i]);
    }
  }

  lemma ArriveKeeps(cfg: ProbeConfig, w: World, e: Event)
    requires cfg.Usable() && e.Arrive? && Consistent(cfg, w) && Legal(cfg, w, e)
    ensures Consistent(cfg, Next(cfg, w, e))
  {
    assert FromGenerated(w.generated, e.h);
  }

  lemma StepKeeps(cfg: ProbeConfig, w: World, e: Event)
    requires cfg.Usable() && Consistent(cfg, w) && Legal(cfg, w, e)
    ensures Consistent(cfg, Next(cfg, w, e))
  {
    match e
    case Send(t1, ok) => SendKeeps(cfg, w, t1, ok);
    case LoseRequest(h) =>
    case Reflect(_, _, _, _, _, _) => ReflectKeeps(cfg, w, e);
    case LoseReply(h) =>
    case Arrive(_, _, _, _, _) => ArriveKeeps(cfg, w, e);
  }

  lemma {:induction false} EveryRunIsConsistent(cfg: ProbeConfig, peer: Ip, events: seq<Event>)
    requires cfg.Usable()
    ensures Consistent(cfg, WorldAfter(cfg, peer, events))
  {
    if events != [] {
      var before, e := events[..|events| - 1], events[|events| - 1];
      EveryRunIsConsistent(cfg, peer, before);
      if Legal(cfg, WorldAfter(cfg, peer, before), e) {
        StepKeeps(cfg, WorldAfter(cfg, peer, before), e);
      }
    }
  }

  // Runs without duplicates -----------------------------------------------------------------------

  ghost predicate NothingTwice(events: seq<Event>) {
    forall i :: 0 <= i < |events| && (events[i].Arrive? || events[i].Reflect?) ==> !events[i].again
  }

  /** No two requests, answered or still in flight, have the same number. */
  ghost predicate NumbersDistinct(w: World) {
    && (forall h :: h in w.forward ==> h.seqNo < |w.sender.sentAt|)
    && (forall i :: 0 <= i < |w.generated| ==> w.generated[i].seqNo < |w.sender.sentAt|)
    && (forall g, h :: g in w.forward && h in w.forward && g.seqNo == h.seqNo ==> g == h)
    && (forall i, h :: 0 <= i < |w.generated| && h in w.forward ==> w.generated[i].seqNo != h.seqNo)
    && (forall i, j :: 0 <= i < j < |w.generated| ==> w.generated[i].seqNo != w.generated[j].seqNo)
  }

  lemma NumbersStayDistinct(cfg: ProbeConfig, w: World, e: Event)
    requires cfg.Usable() && NumbersDistinct(w) && Legal(cfg, w, e)
    requires e.Reflect? ==> !e.again
    ensures NumbersDistinct(Next(cfg, w, e))
  {
    match e
    case Send(t1, ok) => SendNumbers(cfg, w, t1, ok);
    case Reflect(_, _, _, _, _, _) => ReflectNumbers(cfg, w, e);
    case _ =>
  }

  lemma SendNumbers(cfg: ProbeConfig, w: World, t1: u64, ok: bool)
    requires cfg.Usable() && NumbersDistinct(w) && Legal(cfg, w, Send(t1, ok))
    ensures NumbersDistinct(Next(cfg, w, Send(t1, ok)))
  {
    var n := |w.sender.sentAt|;
    assert Probe(cfg, n, t1).seqNo == n;
    assert |Next(cfg, w, Send(t1, ok)).sender.sentAt| == n + 1;
  }

  lemma ReflectNumbers(cfg: ProbeConfig, w: World, e: Event)
    requires cfg.Usable() && e.Reflect? && !e.again && NumbersDistinct(w) && Legal(cfg, w, e)
    ensures NumbersDistinct(Next(cfg, w, e))
  {
    assert Answer(w, e.h, e.meta, e.t2, e.t3).seqNo == e.h.seqNo;
  }

  ghost predicate CountersDistinct(samples: seq<Stats.Sample>) {
    forall i, j :: 0 <= i < j < |samples| ==> samples[i].reflectorSeq != samples[j].reflectorSeq
  }

  /** A reply that became a sample is no longer in flight. */
  ghost predicate Landed(w: World, s: Stats.Sample) {
    Received(w.generated, s) && w.generated[s.reflectorSeq.value] !in w.back
  }

  ghost predicate Undoubled(w: World) {
    CountersDistinct(w.sender.samples) && forall i :: 0 <= i < |w.sender.samples| ==> Landed(w, w.sender.samples[i])
  }

  lemma StaysUndoubled(cfg: ProbeConfig, w: World, e: Event)
    requires cfg.Usable() && Consistent(cfg, w) && Undoubled(w) && Legal(cfg, w, e)
    requires e.Arrive? ==> !e.again
    ensures Undoubled(Next(cfg, w, e))
  {
    var w' := Next(cfg, w, e);
    if e.Arrive? {
      assert FromGenerated(w.generated, e.h);
    }
    forall i | 0 <= i < |w.sender.samples|
      ensures Landed(w', w.sender.samples[i])
      ensures e.Arrive? ==> w.sender.samples[i].reflectorSeq != Some(e.h.reflectorSeq)
    {
      assert Landed(w, w.sender.samples[i]);
      if e.Reflect? { assert Answer(w, e.h, e.meta, e.t2, e.t3).reflectorSeq == |w.generated|; }
    }
  }

  lemma {:induction false} WithoutDuplicates(cfg: ProbeConfig, peer: Ip, events: seq<Event>)
    requires cfg.Usable() && NothingTwice(events)
    ensures Undoubled(WorldAfter(cfg, peer, events)) && NumbersDistinct(WorldAfter(cfg, peer, events))
  {
    if events != [] {
      var before, e := events[..|events| - 1], events[|events| - 1];
      assert NothingTwice(before);
      WithoutDuplicates(cfg, peer, before);
      EveryRunIsConsistent(cfg, peer, before);
      if Legal(cfg, WorldAfter(cfg, peer, before), e) {
        StaysUndoubled(cfg, WorldAfter(cfg, peer, before), e);
        NumbersStayDistinct(cfg, WorldAfter(cfg, peer, before), e);
      }
    }
  }

  // Loss figures against the truth ----------------------------------------------------------------

  function Counter(s: Stats.Sample): nat
    requires s.reflectorSeq.Some?
  {
    s.reflectorSeq.value
  }

  lemma {:induction false} HighestIs(samples: seq<Stats.Sample>)
    requires samples != [] && Stats.AllCounted(samples)
    ensures forall i :: 0 <= i < |samples| ==> Counter(samples[i]) <= Stats.Highest(samples)
    ensures exists i :: 0 <= i < |samples| && Counter(samples[i]) == Stats.Highest(samples)
  {
    var n := |samples| - 1;
    if n > 0 {
      HighestIs(samples[..n]);
      var i :| 0 <= i < n && Counter(samples[..n][i]) == Stats.Highest(samples[..n]);
      assert Counter(samples[i]) == Stats.Highest(samples[..n]);
      forall k | 0 <= k < |samples| ensures Counter(samples[k]) <= Stats.Highest(samples) {
        if k < n { assert Counter(samples[..n][k]) <= Stats.Highest(samples[..n]); }
      }
    } else {
      assert Counter(samples[0]) == Stats.Highest(samples);
    }
  }

  predicate HasCounter(samples: seq<Stats.Sample>, counter: nat) {
    exists i :: 0 <= i < |samples| && samples[i].reflectorSeq == Some(counter)
  }

  function Counters(samples: seq<Stats.Sample>): set<nat>
    requires Stats.AllCounted(samples)
  {
    set i | 0 <= i < |samples| :: Counter(samples[i])
  }

  lemma {:induction false} CountersCount(samples: seq<Stats.Sample>)
    requires Stats.AllCounted(samples)
    ensures |Counters(samples)| <= |samples|
    ensures CountersDistinct(samples) ==> |Counters(samples)| == |samples|
  {
    if samples != [] {
      var n := |samples| - 1;
      CountersCount(samples[..n]);
      CountersStep(samples);
      if CountersDistinct(samples) {
        LastCounterIsNew(samples);
      }
    }
  }

  lemma LastCounterIsNew(samples: seq<Stats.Sample>)
    requires samples != [] && Stats.AllCounted(samples) && CountersDistinct(samples)
    ensures var n := |samples| - 1; CountersDistinct(samples[..n]) && Counter(samples[n]) !in Counters(samples[..n])
  {
    var n := |samples| - 1;
    forall i | 0 <= i < n ensures samples[..n][i] == samples[i] && Counter(samples[i]) != Counter(samples[n]) {
      assert samples[i].reflectorSeq != samples[n].reflectorSeq;
    }
  }

  lemma CountersStep(samples: seq<Stats.Sample>)
    requires samples != [] && Stats.AllCounted(samples)
    ensures var n := |samples| - 1;
      var before, last := Counters(samples[..n]), Counter(samples[n]);
      |Counters(samples)| == |before| + if last in before then 0 else 1
  {
    var n := |samples| - 1;
    assert forall i :: 0 <= i < n ==> samples[..n][i] == samples[i];
    assert Counters(samples) == Counters(samples[..n]) + {Counter(samples[n])};
    OneMoreElement(Counters(samples[..n]), Counter(samples[n]));
  }

  function Below(n: nat): set<nat> {
    if n == 0 then {} else Below(n - 1) + {n - 1}
  }

  lemma {:induction false} BelowCount(n: nat)
    ensures |Below(n)| == n && forall i: nat :: i in Below(n) <==> i < n
  {
    if n > 0 {
      BelowCount(n - 1);
      assert n - 1 !in Below(n - 1);
    }
  }

  /** Pigeonhole: that many different counters cannot all lie below fewer. */
  lemma CountersFitBelow(samples: seq<Stats.Sample>, n: nat)
    requires Stats.AllCounted(samples)
    requires forall i :: 0 <= i < |samples| ==> Counter(samples[i]) < n
    ensures |Counters(samples)| <= n
  {
    BelowCount(n);
    assert Counters(samples) <= Below(n);
    assert Below(n) == Counters(samples) + (Below(n) - Counters(samples));
  }

  /** Counters and sequence numbers tell samples apart alike. */
  ghost predicate Matched(samples: seq<Stats.Sample>)
    requires Stats.AllCounted(samples)
  {
    forall i, j :: 0 <= i < |samples| && 0 <= j < |samples| ==>
      (samples[i].seqNo == samples[j].seqNo <==> Counter(samples[i]) == Counter(samples[j]))
  }

  lemma {:induction false} AsManyNumbers(samples: seq<Stats.Sample>)
    requires Stats.AllCounted(samples) && Matched(samples)
    ensures |Stats.Distinct(Stats.Seqs(samples))| == |Counters(samples)|
  {
    if samples == [] {
      assert Stats.Distinct(Stats.Seqs(samples)) == {} && Counters(samples) == {};
    } else {
      var n := |samples| - 1;
      MatchedPrefix(samples);
      AsManyNumbers(samples[..n]);
      CountersStep(samples);
      NumbersStep(samples);
      SeenBefore(samples);
    }
  }

  lemma MatchedPrefix(samples: seq<Stats.Sample>)
    requires samples != [] && Stats.AllCounted(samples) && Matched(samples)
    ensures var init := samples[..|samples| - 1]; Stats.AllCounted(init) && Matched(init)
  {
    var init := samples[..|samples| - 1];
    assert forall i :: 0 <= i < |init| ==> init[i] == samples[i];
  }

  lemma NumbersStep(samples: seq<Stats.Sample>)
    requires samples != []
    ensures var n := |samples| - 1;
      var before := Stats.Seqs(samples[..n]);
      |Stats.Distinct(Stats.Seqs(samples))| == |Stats.Distinct(before)| + if samples[n].seqNo in before then 0 else 1
  {
    var n := |samples| - 1;
    assert Stats.Seqs(samples) == Stats.Seqs(samples[..n]) + [samples[n].seqNo];
    Stats.OneMoreDistinct(Stats.Seqs(samples[..n]), samples[n].seqNo);
  }

  lemma SeenBefore(samples: seq<Stats.Sample>)
    requires samples != [] && Stats.AllCounted(samples) && Matched(samples)
    ensures var n := |samples| - 1;
      samples[n].seqNo in Stats.Seqs(samples[..n]) <==> Counter(samples[n]) in Counters(samples[..n])
  {
    var n := |samples| - 1;
    var init := samples[..n];
    if samples[n].seqNo in Stats.Seqs(init) {
      var i :| 0 <= i < n && Stats.Seqs(init)[i] == samples[n].seqNo;
      assert samples[i].seqNo == samples[n].seqNo;
      assert Counter(init[i]) == Counter(samples[n]);
    }
    if Counter(samples[n]) in Counters(init) {
      var i :| 0 <= i < n && Counter(init[i]) == Counter(samples[n]);
      assert Stats.Seqs(init)[i] == samples[i].seqNo;
    }
  }

  /** The numbers of the requests that were answered, once for each reply. */
  function Numbers(generated: seq<Header>): (ns: seq<nat>)
    ensures |ns| == |generated|
  {
    seq(|generated|, i requires 0 <= i < |generated| => generated[i].seqNo)
  }

  function SentNumbers(sentAt: seq<Option<u64>>): set<nat> {
    set n | 0 <= n < |sentAt| && sentAt[n].Some?
  }

  lemma {:induction false} SentCount(sentAt: seq<Option<u64>>)
    ensures |SentNumbers(sentAt)| == Sent(sentAt)
  {
    if sentAt != [] {
      var n := |sentAt| - 1;
      SentCount(sentAt[..n]);
      assert SentNumbers(sentAt) == SentNumbers(sentAt[..n]) + if sentAt[n].Some? then {n} else {};
    }
  }

  lemma AnsweredWereSent(cfg: ProbeConfig, w: World)
    requires Consistent(cfg, w)
    ensures |Stats.Distinct(Numbers(w.generated))| <= Sent(w.sender.sentAt)
    ensures |Stats.Distinct(Numbers(w.generated))| <= |w.generated|
  {
    var answered, sent := Stats.Distinct(Numbers(w.generated)), SentNumbers(w.sender.sentAt);
    SentCount(w.sender.sentAt);
    Stats.DistinctBound(Numbers(w.generated));
    assert answered <= sent;
    assert sent == answered + (sent - answered);
  }

  lemma {:induction false} AllDistinct(s: seq<nat>)
    ensures |Stats.Distinct(s)| == |s| <==> forall i, j :: 0 <= i < j < |s| ==> s[i] != s[j]
  {
    if s == [] {
      assert Stats.Distinct(s) == {};
    } else {
      var n := |s| - 1;
      AllDistinct(s[..n]);
      Stats.DistinctBound(s[..n]);
      assert s == s[..n] + [s[n]];
      Stats.OneMoreDistinct(s[..n], s[n]);
      LastIsNew(s);
    }
  }

  lemma LastIsNew(s: seq<nat>)
    requires s != []
    ensures var n := |s| - 1;
      (forall i, j :: 0 <= i < j < |s| ==> s[i] != s[j]) <==>
        s[n] !in s[..n] && forall i, j :: 0 <= i < j < n ==> s[..n][i] != s[..n][j]
  {
    var n := |s| - 1;
    if s[n] in s[..n] {
      var i :| 0 <= i < n && s[..n][i] == s[n];
      assert s[i] == s[n];
    } else {
      forall i | 0 <= i < n ensures s[i] != s[n] {
        assert s[..n][i] == s[i];
      }
    }
    assert forall i :: 0 <= i < n ==> s[..n][i] == s[i];
  }

  /** What the loss figures say, in terms of how many requests were `sent` and
      `answered`, and how many replies `generated` and `accepted`. Of the replies
      `trailing` were generated after the highest counter seen, and `repeats` were for
      a request answered before; `extra` samples are copies. As long as there are no
      more samples than counters seen, nor counters than requests, the reverse loss
      reported falls short of the truth by the trailing replies and the copies, and the
      forward loss is off by the trailing replies one way and the repeats the other.
      Otherwise all that is missing counts as loss in one direction. */
  ghost predicate FiguresAre(sent: nat, answered: nat, generated: nat, accepted: nat, samples: seq<Stats.Sample>)
    requires samples != [] && Stats.AllCounted(samples)
    requires answered <= sent && answered <= generated && accepted <= |samples|
    requires accepted <= Stats.Highest(samples) + 1 <= generated
  {
    var l, n, seen := Stats.Loss(sent, samples), |samples|, Stats.Highest(samples) + 1;
    var trailing, extra, repeats := generated - seen, n - accepted, generated - answered;
    var right := l.reverseLost == generated - accepted && l.forwardLost == sent - answered;
    && l.unknownDirection == 0
    && (n <= seen <= sent ==>
          && l.reverseLost + trailing + extra == generated - accepted
          && l.forwardLost + repeats == sent - answered + trailing
          && (right <==> trailing == 0 && extra == 0 && repeats == 0))
    && (n <= seen && sent < seen ==> l.reverseLost == SaturatingSub(sent, n) && l.forwardLost == 0)
    && (n > seen ==> l.reverseLost == 0 && l.forwardLost == SaturatingSub(sent, n))
    && (repeats == 0 ==> (right <==> (trailing == 0 && extra == 0) || accepted == sent))
  }

  lemma LossFigures(sent: nat, answered: nat, generated: nat, accepted: nat, samples: seq<Stats.Sample>)
    requires samples != [] && Stats.AllCounted(samples)
    requires answered <= sent && answered <= generated && accepted <= |samples|
    requires accepted <= Stats.Highest(samples) + 1 <= generated
    ensures FiguresAre(sent, answered, generated, accepted, samples)
  {
  }

  lemma LastArrived(samples: seq<Stats.Sample>, generated: nat)
    requires samples != [] && Stats.AllCounted(samples) && Stats.Highest(samples) < generated
    ensures Stats.Highest(samples) == generated - 1 <==> HasCounter(samples, generated - 1)
  {
    HighestIs(samples);
    var i :| 0 <= i < |samples| && Counter(samples[i]) == Stats.Highest(samples);
    assert samples[i].reflectorSeq == Some(Stats.Highest(samples));
  }

  lemma SamplesWithin(cfg: ProbeConfig, w: World)
    requires Consistent(cfg, w)
    ensures var samples := w.sender.samples;
      && Stats.AllCounted(samples)
      && |Counters(samples)| <= |samples| && |Counters(samples)| <= |w.generated|
      && (samples != [] ==> |Counters(samples)| <= Stats.Highest(samples) + 1 <= |w.generated|)
  {
    var samples := w.sender.samples;
    forall i | 0 <= i < |samples| ensures samples[i].reflectorSeq.Some? && Counter(samples[i]) < |w.generated| {
      assert Received(w.generated, samples[i]);
    }
    CountersCount(samples);
    CountersFitBelow(samples, |w.generated|);
    if samples != [] {
      HighestIs(samples);
      CountersFitBelow(samples, Stats.Highest(samples) + 1);
    }
  }

  lemma SamplesMatched(cfg: ProbeConfig, w: World)
    requires Consistent(cfg, w) && Stats.AllCounted(w.sender.samples)
    requires |Stats.Distinct(Numbers(w.generated))| == |w.generated|
    ensures Matched(w.sender.samples)
  {
    var samples, ns := w.sender.samples, Numbers(w.generated);
    AllDistinct(ns);
    forall i, j | 0 <= i < |samples| && 0 <= j < |samples|
      ensures samples[i].seqNo == samples[j].seqNo <==> Counter(samples[i]) == Counter(samples[j])
    {
      assert Received(w.generated, samples[i]) && Received(w.generated, samples[j]);
      assert ns[Counter(samples[i])] == samples[i].seqNo && ns[Counter(samples[j])] == samples[j].seqNo;
    }
  }

  /** The loss figures of a run against what happened in it. Unless requests were
      duplicated, the accepted replies are as many as the different sequence numbers
      among the samples, so the copies are those the session itself reports. With no
      reply nothing is attributed. */
  ghost predicate AttributedExactly(w: World) {
    var samples, sent, generated := w.sender.samples, Sent(w.sender.sentAt), |w.generated|;
    var l, answered := Stats.Loss(sent, samples), |Stats.Distinct(Numbers(w.generated))|;
    && Stats.AllCounted(samples)
    && var accepted := |Counters(samples)|;
    && accepted <= |samples| && accepted <= generated && answered <= sent && answered <= generated
    && (answered == generated ==> accepted == |Stats.Distinct(Stats.Seqs(samples))|)
    && l.forwardLost + l.reverseLost + l.unknownDirection == SaturatingSub(sent, |samples|)
    && (samples == [] ==> l.unknownDirection == sent)
    && (samples != [] ==>
          && accepted <= Stats.Highest(samples) + 1 <= generated
          && FiguresAre(sent, answered, generated, accepted, samples)
          && (Stats.Highest(samples) + 1 == generated <==> HasCounter(samples, generated - 1)))
  }

  lemma ConsistentIsExact(cfg: ProbeConfig, w: World)
    requires Consistent(cfg, w)
    ensures AttributedExactly(w)
  {
    var samples, sent := w.sender.samples, Sent(w.sender.sentAt);
    var answered := |Stats.Distinct(Numbers(w.generated))|;
    SamplesWithin(cfg, w);
    AnsweredWereSent(cfg, w);
    if answered == |w.generated| {
      SamplesMatched(cfg, w);
      AsManyNumbers(samples);
    }
    Stats.LossPartsAddUp(sent, samples);
    if samples != [] {
      LossFigures(sent, answered, |w.generated|, |Counters(samples)|, samples);
      LastArrived(samples, |w.generated|);
    }
  }

  /** In every run, whatever was duplicated. */
  lemma AttributionIsExact(cfg: ProbeConfig, peer: Ip, events: seq<Event>)
    requires cfg.Usable()
    ensures AttributedExactly(WorldAfter(cfg, peer, events))
  {
    EveryRunIsConsistent(cfg, peer, events);
    ConsistentIsExact(cfg, WorldAfter(cfg, peer, events));
  }

  /** Without duplicates and with at least one reply, the reverse loss is never over-
      and the forward loss never under-reported, both by exactly the replies generated
      after the last counter seen; both are right exactly when the last generated
      reply was accepted. */
  ghost predicate AttributedSoundly(w: World) {
    var samples, sent, generated := w.sender.samples, Sent(w.sender.sentAt), |w.generated|;
    var l := Stats.Loss(sent, samples);
    && |samples| <= generated <= sent
    && l.forwardLost + l.reverseLost + l.unknownDirection == sent - |samples|
    && (samples == [] ==> l.unknownDirection == sent)
    && (samples != [] ==>
          Stats.AllCounted(samples) &&
          var trailing := generated - 1 - Stats.Highest(samples);
          && trailing >= 0
          && l.reverseLost + trailing == generated - |samples|
          && l.forwardLost == (sent - generated) + trailing
          && l.unknownDirection == 0
          && (trailing == 0 <==> HasCounter(samples, generated - 1)))
  }

  lemma AttributionIsSound(cfg: ProbeConfig, peer: Ip, events: seq<Event>)
    requires cfg.Usable() && NothingTwice(events)
    ensures AttributedSoundly(WorldAfter(cfg, peer, events))
  {
    AttributionIsExact(cfg, peer, events);
    WithoutDuplicates(cfg, peer, events);
    ExactIsSound(WorldAfter(cfg, peer, events));
  }

  lemma ExactIsSound(w: World)
    requires AttributedExactly(w) && CountersDistinct(w.sender.samples) && NumbersDistinct(w)
    ensures AttributedSoundly(w)
  {
    CountersCount(w.sender.samples);
    AllDistinct(Numbers(w.generated));
  }

  // A duplicate that hides a loss ------------------------------------------------------------------

  const PAIR := ProbeConfig(7, 1, 2, HEADER_LEN, 0, 100)
  const BLIND := Meta(None, None)

  function First(): Header {
    ReplyTo(Probe(PAIR, 0, 10), 15, 16, 0, 0, 0, REPLY_TTL)
  }

  function Second(): Header {
    ReplyTo(Probe(PAIR, 1, 20), 25, 26, 1, 0, 0, REPLY_TTL)
  }

  /** Both probes are sent and answered. */
  function BothAnswered(): seq<Event> {
    [Send(10, true), Send(20, true),
     Reflect(Probe(PAIR, 0, 10), BLIND, 15, 16, true, false),
     Reflect(Probe(PAIR, 1, 20), BLIND, 25, 26, true, false)]
  }

  /** Then the first reply is lost, and the second comes home twice. */
  function LostAndDoubled(packet: seq<u8>): seq<Event> {
    [LoseReply(First()), Arrive(Second(), packet, 1, 40, true), Arrive(Second(), packet, 1, 50, false)]
  }

  lemma OneMoreStep(cfg: ProbeConfig, peer: Ip, events: seq<Event>, e: Event)
    requires cfg.Usable()
    ensures WorldAfter(cfg, peer, events + [e]) == Next(cfg, WorldAfter(cfg, peer, events), e)
  {
    assert (events + [e])[..|events|] == events;
  }

  lemma AfterBothAnswered()
    ensures WorldAfter(PAIR, 1, BothAnswered()) ==
      World(Progress([Some(10), Some(20)], []), {}, Session(2, 1, 2), [First(), Second()], {First(), Second()})
  {
    var p0, p1, e := Probe(PAIR, 0, 10), Probe(PAIR, 1, 20), BothAnswered();
    assert WorldAfter(PAIR, 1, []) == Start(1);
    OneMoreStep(PAIR, 1, [], e[0]);
    assert [] + [e[0]] == e[..1];
    OneMoreStep(PAIR, 1, e[..1], e[1]);
    assert e[..1] + [e[1]] == e[..2];
    assert WorldAfter(PAIR, 1, e[..2]) == World(Progress([Some(10), Some(20)], []), {p0, p1}, Session(0, 1, 0), [], {});
    OneMoreStep(PAIR, 1, e[..2], e[2]);
    assert e[..2] + [e[2]] == e[..3];
    assert WorldAfter(PAIR, 1, e[..3]) ==
      World(Progress([Some(10), Some(20)], []), {p1}, Session(1, 1, 1), [First()], {First()});
    OneMoreStep(PAIR, 1, e[..3], e[3]);
    assert e[..3] + [e[3]] == e;
  }

  /** What the second reply is worth each time it comes. */
  const TWICE := [Stats.Sample(1, Some(1), 19, 0), Stats.Sample(1, Some(1), 29, 1)]

  /** The run just before the second reply comes for the `k`-th time. */
  function Before(taken: seq<Stats.Sample>): World {
    World(Progress([Some(10), Some(20)], taken), {}, Session(2, 1, 2), [First(), Second()], {Second()})
  }

  lemma FirstLost(packet: seq<u8>)
    ensures WorldAfter(PAIR, 1, BothAnswered() + LostAndDoubled(packet)[..1]) == Before([])
  {
    AfterBothAnswered();
    OneMoreStep(PAIR, 1, BothAnswered(), LoseReply(First()));
    assert LostAndDoubled(packet)[..1] == [LoseReply(First())];
  }

  lemma SecondTaken(taken: seq<Stats.Sample>, packet: seq<u8>, back: nat, t4: u64, again: bool)
    requires Decode(packet) == Ok(Second()) && t4 == 26 + back && 5 + back <= 100
    ensures var w' := Next(PAIR, Before(taken), Arrive(Second(), packet, 1, t4, again));
      && w'.sender == Progress([Some(10), Some(20)], taken + [Stats.Sample(1, Some(1), 5 + back, |taken|)])
      && w'.generated == [First(), Second()]
      && (again ==> w' == Before(w'.sender.samples))
  {
    SampleIsPathDelay(PAIR, Before(taken).sender, packet, Second(), 20, 5, 1, back, 0, t4);
  }

  lemma AfterOnce(packet: seq<u8>)
    requires Decode(packet) == Ok(Second())
    ensures WorldAfter(PAIR, 1, BothAnswered() + LostAndDoubled(packet)[..2]) == Before([TWICE[0]])
  {
    var a, b := BothAnswered(), LostAndDoubled(packet);
    FirstLost(packet);
    OneMoreStep(PAIR, 1, a + b[..1], b[1]);
    SecondTaken([], packet, 14, 40, true);
    assert a + b[..1] + [b[1]] == a + b[..2];
    assert [] + [TWICE[0]] == [TWICE[0]];
  }

  lemma AfterDoubled(packet: seq<u8>)
    requires Decode(packet) == Ok(Second())
    ensures var w := WorldAfter(PAIR, 1, BothAnswered() + LostAndDoubled(packet));
      w.sender == Progress([Some(10), Some(20)], TWICE) && w.generated == [First(), Second()]
  {
    var a, b := BothAnswered(), LostAndDoubled(packet);
    AfterOnce(packet);
    OneMoreStep(PAIR, 1, a + b[..2], b[2]);
    SecondTaken([TWICE[0]], packet, 24, 50, false);
    assert a + b[..2] + [b[2]] == a + b;
    assert [TWICE[0]] + [TWICE[1]] == TWICE;
  }

  /** One of two replies was lost on the way back, the other came twice: no loss at
      all is reported. */
  lemma DuplicateHidesLoss(packet: seq<u8>)
    requires Decode(packet) == Ok(Second())
    ensures var w := WorldAfter(PAIR, 1, BothAnswered() + LostAndDoubled(packet));
      && |w.generated| == Sent(w.sender.sentAt) == 2
      && |Stats.Distinct(Stats.Seqs(w.sender.samples))| == 1
      && Stats.Loss(2, w.sender.samples).reverseLost == 0 && Stats.Loss(2, w.sender.samples).forwardLost == 0
  {
    AfterDoubled(packet);
    var sentAt: seq<Option<u64>> := [Some(10), Some(20)];
    assert sentAt[..1] == [Some(10)] && sentAt[..1][..0] == [];
    assert Sent(sentAt[..1]) == 1;
    assert Stats.Seqs(TWICE) == [1, 1] && Stats.Distinct([1, 1]) == {1};
    assert TWICE[..1] == [TWICE[0]] && Stats.Highest(TWICE[..1]) == 1;
  }

  lemma SecondDecodes(buf: seq<u8>)
    requires |buf| == HEADER_LEN
    ensures Decode(Encoded(Second(), buf)) == Ok(Second())
  {
    DecodeEncoded(Second(), buf);
  }
}
