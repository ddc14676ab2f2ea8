/** The reflector: per-session admission and counters, and one packet turned round
    in the buffer it arrived in. */
module Reflector {
  import opened Wrappers
  import opened Bytes
  import opened Mqp

  type Ip = nat
  /** 0.0.0.0 or ::, which a grant uses to accept any source. */
  const UNSPECIFIED: Ip := 0
  const REPLY_TTL: u8 := 64

  datatype Session = Session(reflectorSeq: u32, peer: Ip, packets: nat) {
    predicate Accepts(from: Ip) {
      peer == UNSPECIFIED || peer == from
    }

    /** The session after answering one more packet; the counter wraps. */
    function Counted(): Session {
      this.(reflectorSeq := (reflectorSeq + 1) % 0x1_0000_0000, packets := packets + 1)
    }
  }

  type Sessions = map<u64, Session>

  /** What the kernel reported alongside a packet, where it reported anything. */
  datatype Meta = Meta(dscp: Option<u8>, ttl: Option<u8>) {
    function Dscp(): u8 {
      if dscp.Some? then dscp.value else 0
    }

    function Ttl(): u8 {
      if ttl.Some? then ttl.value else 0
    }
  }

  datatype ReflectorStats = ReflectorStats(
    reflected: nat, unknownSession: nat, wrongPeer: nat, malformed: nat, sendErrors: nat)

  // What one packet does ---------------------------------------------------------------

  datatype Verdict = Malformed | Unauthorised | Unanswered | Answered

  predicate Authorised(sessions: Sessions, h: Header, from: Ip) {
    h.sessionId in sessions && sessions[h.sessionId].Accepts(from)
  }

  function VerdictOn(sessions: Sessions, packet: seq<u8>, from: Ip): Verdict {
    match Decode(packet)
    case Err(_) => Malformed
    case Ok(h) =>
      if h.pktType != Request then Malformed
      else if !Authorised(sessions, h, from) then Unauthorised
      else if h.HasFlag(NO_REFLECT) then Unanswered
      else Answered
  }

  /** The counter moves for every authorised request, answered or not. */
  function SessionsAfter(sessions: Sessions, packet: seq<u8>, from: Ip): Sessions {
    var v := VerdictOn(sessions, packet, from);
    if v.Unanswered? || v.Answered? then
      var id := Decode(packet).value.sessionId;
      sessions[id := sessions[id].Counted()]
    else
      sessions
  }

  /** `wrongPeer` is never advanced: a wrong peer counts as an unknown session. */
  function Tally(stats: ReflectorStats, v: Verdict, sendOk: bool): (r: ReflectorStats)
    ensures r.wrongPeer == stats.wrongPeer
  {
    match v
    case Malformed => stats.(malformed := stats.malformed + 1)
    case Unauthorised => stats.(unknownSession := stats.unknownSession + 1)
    case Unanswered => stats
    case Answered =>
      if sendOk then stats.(reflected := stats.reflected + 1) else stats.(sendErrors := stats.sendErrors + 1)
  }

  /** The record a reply carries: the request's, with the reflector's own fields. */
  function ReplyFor(sessions: Sessions, h: Header, meta: Meta, t2: u64, t3: u64): Header
    requires h.sessionId in sessions
  {
    ReplyTo(h, t2, t3, sessions[h.sessionId].reflectorSeq, meta.Dscp(), meta.Ttl(), REPLY_TTL)
  }

  /** `r` answers `h`: the request's own fields back, with the session's counter, both
      of the reflector's times, and what the kernel told of the request, or zero. */
  predicate IsReply(r: Header, h: Header, sessions: Sessions, meta: Meta, t2: u64, t3: u64) {
    h.sessionId in sessions &&
    r == Header(h.version, Reply, h.flags, h.sessionId, h.seqNo, sessions[h.sessionId].reflectorSeq, h.t1, t2, t3,
                h.txDscp, if meta.dscp.Some? then meta.dscp.value else 0,
                if meta.ttl.Some? then meta.ttl.value else 0, 64, h.payloadLen)
  }

  /** What becomes of a packet: of requests of granted sessions from the granted peer, or
      from anyone where none was named, those with the third flag set are not answered. */
  lemma VerdictExactly(sessions: Sessions, packet: seq<u8>, from: Ip)
    ensures var v, d := VerdictOn(sessions, packet, from), Decode(packet);
      && (v == Malformed <==> d.Err? || d.value.pktType == Reply)
      && (d.Ok? && d.value.pktType == Request ==>
            var id := d.value.sessionId;
            var granted := id in sessions && (sessions[id].peer == 0 || sessions[id].peer == from);
            && (v == Unauthorised <==> !granted)
            && (v == Unanswered <==> granted && d.value.flags / 4 % 2 == 1))
  {
  }

  lemma TallyExactly(stats: ReflectorStats, sendOk: bool)
    ensures Tally(stats, Malformed, sendOk) == stats.(malformed := stats.malformed + 1)
    ensures Tally(stats, Unauthorised, sendOk) == stats.(unknownSession := stats.unknownSession + 1)
    ensures Tally(stats, Unanswered, sendOk) == stats
    ensures Tally(stats, Answered, true) == stats.(reflected := stats.reflected + 1)
    ensures Tally(stats, Answered, false) == stats.(sendErrors := stats.sendErrors + 1)
  {
  }

  class Registry {
    var sessions: Sessions

    constructor ()
      ensures sessions == map[]
    {
      sessions := map[];
    }

    /** A repeated grant starts the counter again from zero. */
    method Grant(sessionId: u64, peer: Ip)
      modifies this
      ensures sessions == old(sessions)[sessionId := Session(0, peer, 0)]
    {
      sessions := sessions[sessionId := Session(0, peer, 0)];
    }

    method Revoke(sessionId: u64) returns (packets: Option<nat>)
      modifies this
      ensures sessions == old(sessions) - {sessionId}
      ensures packets == if sessionId in old(sessions) then Some(old(sessions)[sessionId].packets) else None
    {
      packets := if sessionId in sessions then Some(sessions[sessionId].packets) else None;
      sessions := sessions - {sessionId};
    }
  }

  // The rewrite touches only the packet, however large the buffer behind it is.
  lemma PutPrefix(buf: seq<u8>, n: nat, at: nat, bytes: seq<u8>)
    requires at + |bytes| <= n <= |buf|
    ensures Put(buf, at, bytes)[..n] == Put(buf[..n], at, bytes)
  {
  }

  lemma ReplyBytesPrefix(buf: seq<u8>, n: nat, t2: u64, reflectorSeq: u32, rxDscp: u8, ttlFwd: u8, ttlRev: u8)
    requires HEADER_LEN <= n <= |buf|
    ensures ReplyBytes(buf, t2, reflectorSeq, rxDscp, ttlFwd, ttlRev)[..n] ==
      ReplyBytes(buf[..n], t2, reflectorSeq, rxDscp, ttlFwd, ttlRev)
  {
    var a := Put(buf, 3, [TypeByte(Reply)]);
    var b := Put(a, 20, ToBE(reflectorSeq, 4));
    var c := Put(b, 32, ToBE(t2, 8));
    PutPrefix(buf, n, 3, [TypeByte(Reply)]);
    PutPrefix(a, n, 20, ToBE(reflectorSeq, 4));
    PutPrefix(b, n, 32, ToBE(t2, 8));
    PutPrefix(c, n, 49, [rxDscp, ttlFwd, ttlRev]);
  }

  lemma StampPrefix(buf: seq<u8>, n: nat, t3: u64)
    requires HEADER_LEN <= n <= |buf|
    ensures Sealed(Put(buf, 40, ToBE(t3, 8)))[..n] == Sealed(Put(buf[..n], 40, ToBE(t3, 8)))
  {
    var d := Put(buf, 40, ToBE(t3, 8));
    PutPrefix(buf, n, 40, ToBE(t3, 8));
    assert d[..n][..CRC_AT] == d[..CRC_AT];
    PutPrefix(d, n, CRC_AT, ToBE(Crc16.Crc(d[..CRC_AT]), 2));
  }

  class Reflector {
    const registry: Registry
    var stats: ReflectorStats

    constructor (registry: Registry)
      ensures this.registry == registry && stats == ReflectorStats(0, 0, 0, 0, 0)
    {
      this.registry := registry;
      stats := ReflectorStats(0, 0, 0, 0, 0);
    }

    method TurnRound(buf: array<u8>, n: nat, reflectorSeq: u32, meta: Meta, t2: u64, t3: u64)
      requires HEADER_LEN <= n <= buf.Length
      modifies buf
      ensures buf[..n] == Reflected(old(buf[..n]), t2, t3, reflectorSeq, meta.Dscp(), meta.Ttl(), REPLY_TTL)
    {
      ghost var whole := buf[..];
      var made := MakeReplyInPlace(buf, t2, reflectorSeq, meta.Dscp(), meta.Ttl(), REPLY_TTL);
      ghost var rewritten := buf[..];
      var stamped := StampT3(buf, t3);
      ReplyBytesPrefix(whole, n, t2, reflectorSeq, meta.Dscp(), meta.Ttl(), REPLY_TTL);
      StampPrefix(rewritten, n, t3);
      assert buf[..n] == buf[..][..n] && old(buf[..n]) == whole[..n];
    }

    /** Turning an accepted request round gives the reply's record and keeps the padding. */
    method Answer(buf: array<u8>, n: nat, h: Header, reflectorSeq: u32, meta: Meta, t2: u64, t3: u64)
      requires n <= buf.Length && Decode(buf[..n]) == Ok(h)
      modifies buf
      ensures Decode(buf[..n]) == Ok(ReplyTo(h, t2, t3, reflectorSeq, meta.Dscp(), meta.Ttl(), REPLY_TTL))
      ensures buf[..n][HEADER_LEN..n] == old(buf[..n])[HEADER_LEN..n]
    {
      ghost var packet := buf[..n];
      TurnRound(buf, n, reflectorSeq, meta, t2, t3);
      ReflectionUpdatesRecord(packet, h, t2, t3, reflectorSeq, meta.Dscp(), meta.Ttl(), REPLY_TTL);
    }

    /** One received packet: the first `n` bytes of `buf`. `t2` and `t3` are the
        clock on arrival and just before the send. */
    method Handle(buf: array<u8>, n: nat, from: Ip, meta: Meta, t2: u64, t3: u64, sendOk: bool)
      returns (reply: Option<seq<u8>>)
      requires n <= buf.Length
      modifies this`stats, registry, buf
      ensures var packet, sessions := old(buf[..n]), old(registry.sessions);
        && registry.sessions == SessionsAfter(sessions, packet, from)
        && stats == Tally(old(stats), VerdictOn(sessions, packet, from), sendOk)
        && (reply.Some? <==> VerdictOn(sessions, packet, from).Answered?)
        && (reply.None? ==> buf[..] == old(buf[..]))
        && (reply.Some? ==>
              && reply.value == buf[..n]
              && Decode(reply.value) == Ok(ReplyFor(sessions, Decode(packet).value, meta, t2, t3))
              && IsReply(Decode(reply.value).value, Decode(packet).value, sessions, meta, t2, t3)
              && reply.value[HEADER_LEN..n] == packet[HEADER_LEN..n])
    {
      ghost var packet := buf[..n];
      ghost var v := VerdictOn(registry.sessions, packet, from);
      var decoded := Decode(buf[..n]);
      if decoded.Err? || decoded.value.pktType != Request {
        stats := stats.(malformed := stats.malformed + 1);
        return None;
      }
      var h := decoded.value;
      if h.sessionId !in registry.sessions || !registry.sessions[h.sessionId].Accepts(from) {
        stats := stats.(unknownSession := stats.unknownSession + 1);
        return None;
      }
      var s := registry.sessions[h.sessionId];
      registry.sessions := registry.sessions[h.sessionId := s.Counted()];
      if h.HasFlag(NO_REFLECT) {
        return None;
      }
      Answer(buf, n, h, s.reflectorSeq, meta, t2, t3);
      if sendOk {
        stats := stats.(reflected := stats.reflected + 1);
      } else {
        stats := stats.(sendErrors := stats.sendErrors + 1);
      }
      return Some(buf[..n]);
    }
  }

  predicate IsAuthorisedRequest(sessions: Sessions, packet: seq<u8>, from: Ip, id: u64)
    requires id in sessions
  {
    && Decode(packet).Ok? && Decode(packet).value.pktType == Request
    && Decode(packet).value.sessionId == id && (sessions[id].peer == 0 || sessions[id].peer == from)
  }

  /** The counter moves for every authorised request of its session, and for nothing
      else; it moves without a reply exactly when the request asks for none. So it is
      not one per reply, as its comment has it. */
  lemma CounterCountsAuthorisedRequests(sessions: Sessions, packet: seq<u8>, from: Ip, id: u64)
    requires id in sessions
    ensures SessionsAfter(sessions, packet, from).Keys == sessions.Keys
    ensures var s, after := sessions[id], SessionsAfter(sessions, packet, from)[id];
      after == if IsAuthorisedRequest(sessions, packet, from, id)
        then Session((s.reflectorSeq + 1) % 0x1_0000_0000, s.peer, s.packets + 1) else s
    ensures SessionsAfter(sessions, packet, from)[id] != sessions[id] && !VerdictOn(sessions, packet, from).Answered?
      <==> IsAuthorisedRequest(sessions, packet, from, id) && Decode(packet).value.flags / 4 % 2 == 1
  {
    VerdictExactly(sessions, packet, from);
  }

  /** The sender's own request, but asking for no reply. */
  function QuietRequest(id: u64, seqNo: u32): Header {
    Header.Request(id, seqNo, 0, 0).(flags := NO_REFLECT)
  }

  /** Every session has such a packet, from every source it accepts. */
  lemma CountedWithoutReply(sessions: Sessions, from: Ip, id: u64, seqNo: u32, packet: seq<u8>)
    requires id in sessions && sessions[id].Accepts(from) && Decode(packet) == Ok(QuietRequest(id, seqNo))
    ensures VerdictOn(sessions, packet, from) == Unanswered
    ensures SessionsAfter(sessions, packet, from) == sessions[id := sessions[id].Counted()]
  {
    var h := QuietRequest(id, seqNo);
    assert h.HasFlag(NO_REFLECT) && h.pktType == Request && h.sessionId == id;
  }

  lemma QuietRequestDecodes(id: u64, seqNo: u32, buf: seq<u8>)
    requires |buf| == HEADER_LEN
    ensures Decode(Encoded(QuietRequest(id, seqNo), buf)) == Ok(QuietRequest(id, seqNo))
  {
    DecodeEncoded(QuietRequest(id, seqNo), buf);
  }
}
