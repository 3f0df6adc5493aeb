/**
 What the tunnel's class is made of: the packet being written to TLS and the log of those writes, the DTLS
 states, the queue counter, and the answers of the environment.
 */
module TunnelState {
  import opened Common
  import opened Compression
  import opened CstpFrame
  import opened Keepalive
  import opened Places

  const EINTR := -4
  const EIO := -5
  const EINVAL := -22
  const EPERM := -1
  const EPIPE := -32
  const ECONNABORTED := -103
  const INT_MAX := 0x7fff_ffff
  const RECONNECT_INTERVAL_MAX := 100

  /** A negative error number. */
  type errno = e: int | e < 0 witness -1

  function Min(a: int, b: int): int { if a < b then a else b }

  function Max(a: int, b: int): int { if a < b then b else a }

  // ---------- What is written to TLS ----------

  /** `current_ssl_pkt`: none, one of the static packets, the compression buffer, or a queued packet. */
  datatype Current = NoPkt | DpdPkt | DpdRespPkt | KeepalivePkt | DeflatePkt | Plain(hdr: seq<byte>, pkt: Packet)

  datatype Outcome = Done | Stall | Failure | Short

  /** A write to TLS with the tun packet it carries, if any; a compressed packet queued again; the goodbye. */
  datatype TlsEvent = TlsWrite(carries: Option<Packet>, frame: seq<byte>, outcome: Outcome) | Requeued(pkt: Packet) | Bye

  predicate Unsent(e: TlsEvent) { e.TlsWrite? && e.outcome != Done }

  /** After a write that did not go through comes the same frame again, its withdrawal, or the goodbye. */
  predicate Follows(a: TlsEvent, b: TlsEvent)
  {
    Unsent(a) ==>
      match b
      case TlsWrite(c, f, _) => c == a.carries && f == a.frame
      case Requeued(p) => a.carries == Some(p)
      case Bye => true
  }

  ghost predicate RetryOk(log: seq<TlsEvent>, carries: Option<Packet>, frame: Option<seq<byte>>)
  {
    && (forall i :: 0 <= i < |log| - 1 ==> Follows(log[i], log[i + 1]))
    && (log != [] && Unsent(log[|log| - 1]) ==> frame == Some(log[|log| - 1].frame) && carries == log[|log| - 1].carries)
  }

  lemma RetryWrite(log: seq<TlsEvent>, carries: Option<Packet>, frame: seq<byte>, outcome: Outcome)
    requires RetryOk(log, carries, Some(frame))
    ensures RetryOk(log + [TlsWrite(carries, frame, outcome)], carries, Some(frame))
    ensures outcome == Done ==> RetryOk(log + [TlsWrite(carries, frame, outcome)], None, None)
  {}

  lemma RetryArm(log: seq<TlsEvent>, carries: Option<Packet>, frame: Option<seq<byte>>)
    requires RetryOk(log, None, None)
    ensures RetryOk(log, carries, frame)
  {}

  lemma RetryRequeue(log: seq<TlsEvent>, pkt: Packet, frame: seq<byte>)
    requires RetryOk(log, Some(pkt), Some(frame))
    ensures RetryOk(log + [Requeued(pkt)], None, None)
  {}

  lemma RetryBye(log: seq<TlsEvent>, carries: Option<Packet>, frame: Option<seq<byte>>)
    requires RetryOk(log, carries, frame)
    ensures RetryOk(log + [Bye], carries, frame)
  {}

  /** The tun packets whose write went through, in order. */
  function SentOverTls(log: seq<TlsEvent>): (s: seq<Packet>)
  {
    if log == [] then [] else SentOverTls(log[..|log| - 1]) + SentBy(log[|log| - 1])
  }

  function SentBy(e: TlsEvent): (s: seq<Packet>)
  {
    if e.TlsWrite? && e.outcome == Done && e.carries.Some? then [e.carries.value] else []
  }

  /** How often a compressed packet was queued again. */
  function Requeues(log: seq<TlsEvent>): (n: nat)
  {
    if log == [] then 0 else Requeues(log[..|log| - 1]) + (if log[|log| - 1].Requeued? then 1 else 0)
  }

  lemma LogStep(log: seq<TlsEvent>, e: TlsEvent)
    ensures SentOverTls(log + [e]) == SentOverTls(log) + SentBy(e)
    ensures Requeues(log + [e]) == Requeues(log) + if e.Requeued? then 1 else 0
  {
    assert (log + [e])[..|log|] == log;
  }

  /** What is written without compression: data frames for tun packets, and the three static packets. */
  predicate PlainFrame(e: TlsEvent)
  {
    e.TlsWrite? ==>
      match e.carries
      case None => e.frame in {[83, 84, 70, 1, 0, 0, 3, 0], [83, 84, 70, 1, 0, 0, 4, 0], [83, 84, 70, 1, 0, 0, 7, 0]}
      case Some(p) => e.frame == [83, 84, 70, 1, |p.data| / 256 % 256, |p.data| % 256, 0, 0] + p.data
  }

  /** The data packets a peer reads from the frames that went through. */
  function PeerGets(log: seq<TlsEvent>): (s: seq<seq<byte>>)
  {
    if log == [] then []
    else
      var e := log[|log| - 1];
      PeerGets(log[..|log| - 1]) + (if e.TlsWrite? && e.outcome == Done then DataIn(e.frame) else [])
  }

  function DataIn(frame: seq<byte>): (s: seq<seq<byte>>)
  {
    match Parse(frame)
    case Typed(t, payload) => if t == AC_PKT_DATA then [payload] else []
    case _ => []
  }

  function Contents(packets: seq<Packet>): (s: seq<seq<byte>>)
  {
    seq(|packets|, i requires 0 <= i < |packets| => packets[i].data)
  }

  /** The peer reads the contents of the packets sent, in order, and nothing else. */
  lemma {:induction false} PeerGetsWhatWasSent(log: seq<TlsEvent>)
    requires forall i :: 0 <= i < |log| ==> PlainFrame(log[i])
    requires forall p :: p in SentOverTls(log) ==> |p.data| < 0x10000
    ensures PeerGets(log) == Contents(SentOverTls(log))
  {
    if log != [] {
      var before, e := log[..|log| - 1], log[|log| - 1];
      assert SentOverTls(log) == SentOverTls(before) + SentBy(e);
      PeerGetsWhatWasSent(before);
      assert PlainFrame(e);
      hide SentOverTls, PlainFrame, DataIn;
      if e.TlsWrite? && e.outcome == Done {
        if e.carries.Some? {
          assert e.carries.value in SentBy(e);
        }
        OneFrame(e);
      }
    }
  }

  lemma OneFrame(e: TlsEvent)
    requires e.TlsWrite? && e.outcome == Done && PlainFrame(e)
    requires e.carries.Some? ==> |e.carries.value.data| < 0x10000
    ensures DataIn(e.frame) == Contents(SentBy(e))
  {
    StaticOctets();
    if e.carries.Some? {
      DataOctets(e.carries.value.data);
    }
    hide Frame, Parse;
    ParseFrame(AC_PKT_DPD_OUT, []);
    ParseFrame(AC_PKT_DPD_RESP, []);
    ParseFrame(AC_PKT_KEEPALIVE, []);
    if e.carries.Some? {
      ParseFrame(AC_PKT_DATA, e.carries.value.data);
    }
  }

  // ---------- DTLS ----------

  datatype DtlsState = NoSecret | Disabled | Sleeping | Connecting | Connected

  /** Descriptor, handle and state agree; a descriptor and a handle exist while connecting or connected. */
  predicate DtlsOk(state: DtlsState, ssl: bool, fd: int)
  {
    && state != NoSecret
    && ((state == Connecting || state == Connected) <==> ssl)
    && (ssl <==> fd != -1)
  }

  /** The guard of the TLS queue loop. */
  predicate TlsDrains(state: DtlsState) { state != Connected }

  /** The states in which the DTLS loop is entered and gets as far as the queue. */
  predicate DtlsDrains(state: DtlsState) { state != Disabled && state != Connecting && state != Sleeping }

  /** The queue has exactly one taker in every state but the one before a secret exists. */
  lemma ExactlyOneDrains(state: DtlsState)
    ensures (TlsDrains(state) != DtlsDrains(state)) <==> state != NoSecret
  {}

  /** A handshake that has not finished is given twelve seconds. */
  function HandshakeState(hs: Handshake, started: int): (s: DtlsState)
  {
    match hs
    case HsDone(_) => Connected
    case HsAgain(now) => if now < started + 12 then Connecting else Sleeping
    case HsFailed(_) => Sleeping
  }

  /** The data packets among those received over DTLS. */
  function DtlsPayloads(rs: seq<DtlsRecv>): (s: seq<seq<byte>>)
  {
    if rs == [] then []
    else DtlsPayloads(rs[..|rs| - 1]) + (if rs[|rs| - 1].type_ == AC_PKT_DATA then [rs[|rs| - 1].payload] else [])
  }

  // ---------- The queue counter ----------

  predicate QueueOk(queued: nat, qlen: int, requeued: nat, maxQlen: int, monitored: bool)
  {
    && maxQlen >= 1
    && queued == qlen + requeued
    && qlen <= maxQlen
    && (monitored ==> qlen < maxQlen)
  }

  // ---------- Answers of the environment ----------

  /** Output of the compressor, which is given room for 2040 octets. */
  type Deflated = z: seq<byte> | |z| <= 2040

  /** A write takes everything, some of it, nothing for now, or fails. */
  datatype SslWrite = WrittenAll | Written(n: nat) | WouldBlock(wantWrite: bool) | WriteFailed

  /** One trip round the writing loop: the clock readings, the answer to the write, and the compressor's. */
  datatype Trip = Trip(txNow: int, stallNow: int, kaNow: int, res: SslWrite, z: Option<Deflated>)

  /** One read from TLS: an octet string with the inflater's answer for it, or an error. */
  datatype SslRead = FrameRead(buf: seq<byte>, now: int, inflated: Option<seq<byte>>) | ReadFailed

  datatype Handshake = HsDone(now: int) | HsAgain(now: int) | HsFailed(now: int)

  /** How far a DTLS connection attempt gets. */
  datatype Socket =
    | Unusable
    | NotOpened(giveUp: bool)
    | Opened(fd: nat, now: int, hs: Handshake)

  datatype DtlsSend = Sent(now: int) | WantWrite | WantRead | SendFailed

  datatype DtlsRecv = DtlsRecv(type_: byte, payload: seq<byte>, now: int)

  /** One call of the DTLS loop. */
  datatype DtlsTurn = DtlsTurn(
    hs: Handshake, now: int, socket: Socket, recvs: seq<DtlsRecv>, kaNow: int, txNow: int, sends: nat -> DtlsSend)

  /**
   How the CSTP handshake ends: without an answer, or with one that chooses compression or not, carries timer
   settings, and is accepted or not.
   */
  datatype StartCstp =
    | Unanswered(err: errno)
    | Answered(deflate: bool, settings: Times, refused: Option<errno>, sessionId: bool, now: int)

  /** What the user's command channel holds. */
  datatype Command = NoCommand | Cancel | Detach | Pause

  /** One attempt to make a CSTP connection; a command may arrive during the sleep after a failure. */
  datatype Attempt = Attempt(link: Link, command: Command)

  datatype Link = NoTls(err: errno) | Tls(codecStarts: bool, start: StartCstp)

  /** How a reconnection ends; `CutOff` if its list of attempts is too short, `NullPacket` if it queues a null pointer. */
  datatype Ending = Remade | Paused | GaveUp | Rejected | Cancelled | CutOff | NullPacket

  datatype Reconnect = Reconnect(attempts: seq<Attempt>, handshakeOk: bool, socket: Socket)

  /** How one stage of the CSTP loop goes on. */
  datatype Next = Proceed | Armed | Idle | Leave(ret: int) | DoRekey | DoReconnect

  /** One call of the CSTP loop. */
  datatype CstpTurn = CstpTurn(frames: seq<SslRead>, kaNow: int, z: Option<Deflated>, trips: seq<Trip>, reconnect: Reconnect)

  /** Why the main loop ended: the session ended and the TLS loop returned `code`, or the user's command. */
  datatype Stop = Running | BySession(code: int) | ByCancel | ByDetach | ByPause

  /** One turn of the main loop. */
  datatype Turn = Turn(dtls: DtlsTurn, cstp: CstpTurn, arrivals: seq<seq<byte>>, writable: nat, command: Command)

  /** All readings that decide about another packet fall into one second. */
  predicate FixedClock(trips: seq<Trip>, now: int)
  {
    forall i :: 0 <= i < |trips| ==> trips[i].txNow == now && trips[i].kaNow == now
  }

  predicate AllWritten(trips: seq<Trip>)
  {
    forall i :: 0 <= i < |trips| ==> trips[i].res == WrittenAll
  }

  // ---------- What a batch of reads means ----------

  /** The reads that end the session or the connection. */
  predicate Ends(r: SslRead, deflate: bool)
  {
    r.ReadFailed? ||
    match Parse(r.buf)
    case Unknown => true
    case BadLength => false
    case Typed(t, _) => !KnownType(t) || t == AC_PKT_DISCONN || t == AC_PKT_TERM_SERVER || (t == AC_PKT_COMPRESSED && !deflate)
  }

  predicate WellFormed(r: SslRead) { r.FrameRead? && Parse(r.buf).Typed? }

  predicate IsType(r: SslRead, t: byte) { WellFormed(r) && Parse(r.buf).type_ == t }

  /** How a read that ends the session or the connection is answered. */
  function Farewell(r: SslRead): (next: Next)
  {
    if r.ReadFailed? then DoReconnect
    else if IsType(r, AC_PKT_DISCONN) || IsType(r, AC_PKT_TERM_SERVER) then Leave(EPIPE)
    else Leave(1)
  }

  /** What a read with a well-formed header means, by the seventh octet. */
  lemma TypedRead(r: SslRead, deflate: bool)
    requires r.FrameRead? && |r.buf| >= 8 && r.buf[..4] == [83, 84, 70, 1] && r.buf[7] == 0
    requires |r.buf| == 8 + 256 * r.buf[4] as int + r.buf[5] as int
    ensures var t := r.buf[6];
      && WellFormed(r) && (IsType(r, AC_PKT_DPD_OUT) <==> t == 3)
      && (Ends(r, deflate) <==> t !in {0, 3, 4, 7} && !(t == 8 && deflate))
      && Farewell(r) == Leave(if t in {5, 9} then -32 else 1)
      && (IsData(r) <==> t in {0, 8})
      && Payload(r) == (if t == 0 then [r.buf[8..]] else if t == 8 && r.inflated.Some? then [r.inflated.value] else [])
  {}

  /** And what one without such a header means. */
  lemma UntypedRead(r: SslRead, deflate: bool)
    requires r.ReadFailed? || |r.buf| < 8 || r.buf[..4] != [83, 84, 70, 1] || r.buf[7] != 0
             || |r.buf| != 8 + 256 * r.buf[4] as int + r.buf[5] as int
    ensures !WellFormed(r) && !IsType(r, AC_PKT_DPD_OUT) && !IsData(r) && Payload(r) == []
    ensures Ends(r, deflate) <==> r.ReadFailed? || |r.buf| < 8 || r.buf[..4] != [83, 84, 70, 1] || r.buf[7] != 0
    ensures Farewell(r) == if r.ReadFailed? then DoReconnect else Leave(1)
  {}

  /** The running checksum of what has been inflated. */
  function InflateStep(adler: nat, r: SslRead): (v: nat)
  {
    if IsType(r, AC_PKT_COMPRESSED) && r.inflated.Some? then Adler32(adler, r.inflated.value) else adler
  }

  function InflateSum(rs: seq<SslRead>, adler: nat): (v: nat)
  {
    if rs == [] then adler else InflateStep(InflateSum(rs[..|rs| - 1], adler), rs[|rs| - 1])
  }

  /** A compressed packet whose checksum disagrees with the running one. */
  predicate SumFails(r: SslRead, adler: nat)
  {
    IsType(r, AC_PKT_COMPRESSED) && r.inflated.Some? && InflateStep(adler, r) != SumOf(r.buf)
  }

  /** What one read adds to the incoming queue. */
  function Payload(r: SslRead): (s: seq<seq<byte>>)
  {
    if IsType(r, AC_PKT_DATA) then [Parse(r.buf).payload]
    else if IsType(r, AC_PKT_COMPRESSED) && r.inflated.Some? then [r.inflated.value]
    else []
  }

  predicate Receive(r: SslRead, deflate: bool, before: seq<seq<byte>>, after: seq<seq<byte>>)
  {
    after == if Ends(r, deflate) then before else before + Payload(r)
  }

  /** The payloads of the reads that carry one, in order. */
  function Payloads(rs: seq<SslRead>): (s: seq<seq<byte>>)
  {
    if rs == [] then [] else Payloads(rs[..|rs| - 1]) + Payload(rs[|rs| - 1])
  }

  /** When something was last received. */
  function LastRx(rs: seq<SslRead>, before: int): (t: int)
  {
    if rs == [] then before
    else if WellFormed(rs[|rs| - 1]) then rs[|rs| - 1].now
    else LastRx(rs[..|rs| - 1], before)
  }

  predicate AsksForResponse(rs: seq<SslRead>) { exists i :: 0 <= i < |rs| && IsType(rs[i], AC_PKT_DPD_OUT) }

  predicate IsData(r: SslRead) { IsType(r, AC_PKT_DATA) || IsType(r, AC_PKT_COMPRESSED) }

  predicate BringsWork(rs: seq<SslRead>) { exists i :: 0 <= i < |rs| && IsData(rs[i]) }

  predicate SumFailed(rs: seq<SslRead>, adler: nat) { exists i :: 0 <= i < |rs| && SumFails(rs[i], InflateSum(rs[..i], adler)) }

  lemma NothingRead(before: int, adler: nat)
    ensures Payloads([]) == [] && LastRx([], before) == before && !AsksForResponse([]) && !BringsWork([])
    ensures !SumFailed([], adler) && InflateSum([], adler) == adler
  {}

  /** One more read that does not end anything; one that does is not counted but may have been the last received. */
  lemma OneMoreRead(rs: seq<SslRead>, n: nat, before: int, adler: nat)
    requires n < |rs|
    ensures LastRx(rs[..n + 1], before) == if WellFormed(rs[n]) then rs[n].now else LastRx(rs[..n], before)
    ensures Payloads(rs[..n + 1]) == Payloads(rs[..n]) + Payload(rs[n])
    ensures AsksForResponse(rs[..n + 1]) <==> AsksForResponse(rs[..n]) || IsType(rs[n], AC_PKT_DPD_OUT)
    ensures BringsWork(rs[..n + 1]) <==> BringsWork(rs[..n]) || IsData(rs[n])
    ensures InflateSum(rs[..n + 1], adler) == InflateStep(InflateSum(rs[..n], adler), rs[n])
    ensures SumFailed(rs[..n + 1], adler) <==> SumFailed(rs[..n], adler) || SumFails(rs[n], InflateSum(rs[..n], adler))
  {
    hide IsType, IsData, SumFails, WellFormed, Payload, InflateStep, SumFailed;
    var xs := rs[..n + 1];
    assert xs[..n] == rs[..n] && xs[n] == rs[n];
    assert forall i :: 0 <= i < n ==> xs[i] == rs[..n][i];
    OneMoreSum(rs, n, adler);
  }

  lemma OneMoreSum(rs: seq<SslRead>, n: nat, adler: nat)
    requires n < |rs|
    ensures SumFailed(rs[..n + 1], adler) <==> SumFailed(rs[..n], adler) || SumFails(rs[n], InflateSum(rs[..n], adler))
  {
    hide SumFails, InflateSum;
    var xs, ys := rs[..n + 1], rs[..n];
    assert forall i :: 0 <= i < n ==> xs[i] == ys[i] && xs[..i] == ys[..i];
    assert xs[n] == rs[n] && xs[..n] == ys;
  }
}
