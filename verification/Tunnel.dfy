/**
 The tunnel: packets read from the tun device wait in one queue, which is drained over TLS (CSTP) or,
 once it is connected, over DTLS. What the system calls and the libraries answer is an
 argument of each operation, so every contract holds for all answers.
 */
module Tunnel {
  import opened Common
  import opened Keepalive
  import opened CstpFrame
  import opened Compression
  import opened Places
  import opened TunnelState

  class Vpn {
    // CSTP
    var sslOpen: bool
    var current: Current
    var deflate: bool
    var deflateAllocated: bool
    var codecReady: bool
    var deflateFrame: seq<byte>
    var pendingDeflated: Option<Packet>
    var deflateAdler: nat
    var inflateAdler: nat
    var sslTimes: Times
    var oweSslDpdResponse: bool
    var sslWriteMonitored: bool
    const reconnectTimeout: int
    const reconnectInterval: int
    // DTLS
    var dtlsState: DtlsState
    var dtlsSsl: bool
    var dtlsFd: int
    var dtlsTimes: Times
    var dtlsAttemptPeriod: int
    var newDtlsStarted: int
    var dtlsWriteMonitored: bool
    // Queues and tun
    var outgoing: seq<Packet>
    var outgoingQlen: int
    const maxQlen: int
    var incoming: seq<seq<byte>>
    var tunReadMonitored: bool
    var txPkts: nat
    // Control
    var quit: bool
    var gotCancel: bool
    var gotPause: bool
    var cancelType: Command
    /** A null pointer has been queued: nothing that follows is defined. */
    var crashed: bool
    // History
    ghost var places: Places
    ghost var tlsLog: seq<TlsEvent>
    ghost var everConnected: bool
    /** Whether a packet was ever compressed, and what has been compressed since the connection was made. */
    ghost var everCompressed: bool
    ghost var packed: seq<byte>

    // ---------- Invariants ----------

    /** The tun packet the current TLS packet carries. */
    ghost function Carried(): Option<Packet>
      reads this`current, this`pendingDeflated
    {
      match current
      case Plain(_, p) => Some(p)
      case DeflatePkt => pendingDeflated
      case _ => None
    }

    /** The octets of the current TLS packet. */
    function CurrentFrame(): Option<seq<byte>>
      reads this`current, this`deflateFrame
    {
      match current
      case NoPkt => None
      case DpdPkt => Some(Frame(AC_PKT_DPD_OUT, []))
      case DpdRespPkt => Some(Frame(AC_PKT_DPD_RESP, []))
      case KeepalivePkt => Some(Frame(AC_PKT_KEEPALIVE, []))
      case DeflatePkt => Some(deflateFrame)
      case Plain(hdr, p) => Some(hdr + p.data)
    }

    /** The accepted packets are accounted for, and the account agrees with the queue and the current packet. */
    ghost predicate PlacesOk()
      reads this`places, this`outgoing, this`current, this`pendingDeflated, this`txPkts
    {
      Accounted(places, outgoing, Carried(), txPkts)
    }

    /**
     The compression buffer is in use only with compression on and the original packet at hand; the checksum is that of
     everything compressed since the connection was made.
     */
    ghost predicate CodecOk()
      reads this`current, this`deflate, this`deflateAllocated, this`codecReady, this`pendingDeflated, this`deflateAdler,
            this`deflateFrame, this`everCompressed, this`packed
    {
      && (current == DeflatePkt ==> deflate && pendingDeflated.Some? && |deflateFrame| >= 12 && everCompressed)
      && (pendingDeflated.Some? || codecReady ==> deflateAllocated)
      && (codecReady ==> deflateAdler == Adler32(1, packed))
      && (!deflate ==> packed == [])
      && (current.Plain? ==> current.hdr == Header(AC_PKT_DATA, |current.pkt.data|))
      && deflateAdler < 0x1_0000_0000
    }

    /** A frame that did not go through is still the current one. */
    ghost predicate WritesOk()
      reads this`tlsLog, this`current, this`pendingDeflated, this`deflateFrame
    {
      RetryOk(tlsLog, Carried(), CurrentFrame())
    }

    ghost predicate CountOk()
      reads this`outgoing, this`outgoingQlen, this`places, this`tunReadMonitored
    {
      QueueOk(|outgoing|, outgoingQlen, places.requeued, maxQlen, tunReadMonitored)
    }

    /** What can only have happened with compression, or after a DTLS connection. */
    ghost predicate HistoryOk()
      reads this`places, this`everConnected, this`everCompressed
    {
      && (places.requeued > 0 ==> everCompressed)
      && (places.overtaken > 0 || places.dropped != [] ==> everConnected)
    }

    /** The account agrees with what was written: requeues always, completed packets before any DTLS connection. */
    ghost predicate SentOk()
      reads this`places, this`tlsLog, this`everConnected
    {
      && places.requeued == Requeues(tlsLog)
      && (!everConnected ==> places.completed == SentOverTls(tlsLog))
    }

    /** Without compression every tun packet is written as one data frame. */
    ghost predicate WireOk()
      reads this`tlsLog, this`everCompressed
    {
      !everCompressed ==> forall i :: 0 <= i < |tlsLog| ==> PlainFrame(tlsLog[i])
    }

    ghost predicate DtlsValid()
      reads this`dtlsState, this`dtlsSsl, this`dtlsFd, this`everConnected
    {
      && DtlsOk(dtlsState, dtlsSsl, dtlsFd)
      && (dtlsState == Connected ==> everConnected)
    }

    ghost predicate Valid()
      reads this`places, this`tlsLog, this`everConnected, this`outgoing, this`outgoingQlen, this`tunReadMonitored, this`txPkts
      reads this`current, this`pendingDeflated, this`deflate, this`deflateAllocated, this`codecReady, this`deflateAdler
      reads this`deflateFrame, this`everCompressed, this`packed
      reads this`dtlsState, this`dtlsSsl, this`dtlsFd
    {
      PlacesOk() && CodecOk() && WritesOk() && CountOk() && HistoryOk() && SentOk() && WireOk() && DtlsValid()
    }

    lemma Parts()
      ensures Valid() <==>
        PlacesOk() && CodecOk() && WritesOk() && CountOk() && HistoryOk() && SentOk() && WireOk() && DtlsValid()
    {}

    /**
     A tunnel whose first CSTP connection has just been made and whose DTLS is disabled. `enabled` says whether the user asked
     for compression, `ready` whether the codec has started, `deflate` what the server answered.
     */
    constructor (maxQlen: int, enabled: bool, ready: bool, deflate: bool, times: Times, dtlsTimes: Times,
                 reconnectTimeout: int, reconnectInterval: int)
      requires maxQlen >= 1 && (ready ==> enabled)
      ensures Valid() && this.maxQlen == maxQlen && sslOpen && this.deflate == deflate && deflateAllocated == enabled
      ensures codecReady == ready && current == NoPkt && !oweSslDpdResponse && sslTimes == times && outgoing == []
      ensures this.reconnectTimeout == reconnectTimeout && this.reconnectInterval == reconnectInterval
      ensures places == Places([], [], [], [], [], 0, 0) && tlsLog == []
      ensures outgoingQlen == 0 && tunReadMonitored && incoming == []
      ensures !everConnected && !everCompressed && !quit && !crashed && !gotCancel && !gotPause && dtlsState == Disabled
    {
      this.maxQlen := maxQlen;
      this.reconnectTimeout, this.reconnectInterval := reconnectTimeout, reconnectInterval;
      sslOpen, current, oweSslDpdResponse, sslWriteMonitored := true, NoPkt, false, false;
      this.deflate, deflateAllocated, codecReady, deflateFrame, pendingDeflated := deflate, enabled, ready, [], None;
      deflateAdler, inflateAdler := 1, 1;
      sslTimes, this.dtlsTimes := times, dtlsTimes;
      dtlsState, dtlsSsl, dtlsFd, dtlsAttemptPeriod, newDtlsStarted, dtlsWriteMonitored := Disabled, false, -1, 0, 0, false;
      outgoing, outgoingQlen, incoming, tunReadMonitored, txPkts := [], 0, [], true, 0;
      quit, gotCancel, gotPause, cancelType, crashed := false, false, false, NoCommand, false;
      places, tlsLog, everConnected, everCompressed, packed := Places([], [], [], [], [], 0, 0), [], false, false, [];
    }

    /** As long as no packet was compressed and DTLS never connected nothing is lost, doubled or reordered, and the queue is bounded. */
    lemma StrictFifo()
      requires Valid() && !everCompressed && !everConnected
      ensures places.completed == SentOverTls(tlsLog)
      ensures places.accepted == places.completed + (match Carried() case None => [] case Some(p) => [p]) + outgoing
      ensures |outgoing| <= maxQlen
    {}

    /** Then the peer has received a prefix of what the tun device delivered, octet for octet. */
    lemma PeerReceivesPrefix()
      requires Valid() && !everCompressed && !everConnected
      requires forall p :: p in places.accepted ==> |p.data| < 0x10000
      ensures |places.completed| <= |places.accepted|
      ensures PeerGets(tlsLog) == Contents(places.accepted[..|places.completed|])
    {
      StrictFifo();
      assert places.completed == places.accepted[..|places.completed|];
      PeerGetsWhatWasSent(tlsLog);
    }

    /** The queue is longer than its counter by the number of requeues, which do not count; tun is read only below the limit. */
    lemma QueueLength()
      requires Valid()
      ensures |outgoing| == outgoingQlen + Requeues(tlsLog)
      ensures outgoingQlen <= maxQlen && (tunReadMonitored ==> outgoingQlen < maxQlen)
      ensures Requeues(tlsLog) > 0 ==> everCompressed
    {}

    /** The checksum the next compressed frame builds on covers exactly what was compressed since the connection was made. */
    lemma ChecksumSinceConnect()
      requires Valid() && codecReady
      ensures deflateAdler == Adler32(1, packed)
    {}

    /** In every reachable state exactly one of the two loops may take packets from the queue. */
    lemma OneTaker()
      requires Valid()
      ensures TlsDrains(dtlsState) != DtlsDrains(dtlsState)
    {
      ExactlyOneDrains(dtlsState);
    }

    /** Every accepted packet is queued, in flight, completed or dropped: one of these, once. */
    lemma ExactlyOneHome(i: nat)
      requires Valid() && i < |places.accepted|
      ensures var x := places.accepted[i];
        var flight := if Carried().Some? then [Carried().value] else [];
        multiset(outgoing)[x] + multiset(flight)[x] + multiset(places.completed)[x] + multiset(places.dropped)[x] == 1
    {
      ExactlyOnePlace(places, i);
    }

    /** A write that did not go through is followed by the same octets, unless its packet was queued again or the session ended. */
    lemma StalledFrameIsRepeated(i: nat)
      requires Valid() && i + 1 < |tlsLog| && Unsent(tlsLog[i])
      ensures tlsLog[i + 1].TlsWrite? ==> tlsLog[i + 1].frame == tlsLog[i].frame && tlsLog[i + 1].carries == tlsLog[i].carries
      ensures tlsLog[i + 1].Requeued? ==> tlsLog[i].carries == Some(tlsLog[i + 1].pkt)
    {
      assert Follows(tlsLog[i], tlsLog[i + 1]);
    }

    // ---------- The tun device ----------

    /**
     Read packets while the queue has room, deliver incoming ones. `arrivals` are the packets the
     device holds; `writable` is how many it takes.
     */
    method TunMainloop(arrivals: seq<seq<byte>>, writable: nat) returns (workDone: bool)
      requires Valid()
      modifies this`outgoing, this`outgoingQlen, this`tunReadMonitored, this`txPkts, this`incoming, this`places
      ensures Valid()
      ensures var n := if old(tunReadMonitored) then Min(|arrivals|, maxQlen - old(outgoingQlen)) else 0;
        && outgoingQlen == old(outgoingQlen) + n
        && tunReadMonitored == (outgoingQlen < maxQlen)
        && (workDone <==> n > 0)
        && AcceptedFrom(old(places), places, arrivals[..n])
      ensures Later(old(places), places)
      ensures incoming == old(incoming)[Min(writable, |old(incoming)|)..]
    {
      hide Good, AcceptedFrom, PlacesOk, CodecOk, WritesOk, HistoryOk, SentOk, WireOk, DtlsValid;
      workDone := false;
      AcceptedNothing(places);
      if tunReadMonitored {
        workDone := ReadTun(arrivals);
      } else if outgoingQlen < maxQlen {
        tunReadMonitored := true;
      }
      WriteTun(writable);
      AcceptedLater(old(places), places);
    }

    method ReadTun(arrivals: seq<seq<byte>>) returns (workDone: bool)
      requires Valid() && tunReadMonitored
      modifies this`outgoing, this`outgoingQlen, this`tunReadMonitored, this`txPkts, this`places
      ensures Valid()
      ensures var n := Min(|arrivals|, maxQlen - old(outgoingQlen));
        && outgoingQlen == old(outgoingQlen) + n
        && tunReadMonitored == (outgoingQlen < maxQlen)
        && (workDone <==> n > 0)
        && AcceptedFrom(old(places), places, arrivals[..n])
    {
      hide Good, AcceptedFrom, PlacesOk, CodecOk, WritesOk, HistoryOk, SentOk, WireOk, DtlsValid, Accept;
      AcceptedNothing(places);
      workDone := false;
      var k := 0;
      while k < |arrivals|
        invariant k <= |arrivals| && k <= maxQlen - old(outgoingQlen)
        invariant Valid() && tunReadMonitored
        invariant outgoingQlen == old(outgoingQlen) + k && (workDone <==> k > 0)
        invariant AcceptedFrom(old(places), places, arrivals[..k])
      {
        AcceptedOne(old(places), places, arrivals[..k], arrivals[k]);
        assert arrivals[..k + 1] == arrivals[..k] + [arrivals[k]];
        QueueFromTun(arrivals[k]);
        workDone := true;
        k := k + 1;
        if !tunReadMonitored {
          break;
        }
      }
    }

    /** One packet read: it goes to the end of the queue, and a full queue stops the reading. */
    method QueueFromTun(data: seq<byte>)
      requires Valid() && tunReadMonitored
      modifies this`outgoing, this`outgoingQlen, this`tunReadMonitored, this`txPkts, this`places
      ensures Valid() && places == Accept(old(places), data)
      ensures outgoingQlen == old(outgoingQlen) + 1 && (tunReadMonitored <==> outgoingQlen < maxQlen)
    {
      hide Good, CodecOk, WritesOk, Carried, SentOverTls, Requeues, WireOk, DtlsValid;
      AcceptGood(places, data);
      outgoing := outgoing + [Packet(txPkts, data)];
      places := Accept(places, data);
      txPkts := txPkts + 1;
      outgoingQlen := outgoingQlen + 1;
      if outgoingQlen == maxQlen {
        tunReadMonitored := false;
      }
    }

    method WriteTun(writable: nat)
      modifies this`incoming
      ensures incoming == old(incoming)[Min(writable, |old(incoming)|)..]
    {
      var k := 0;
      while incoming != [] && k < writable
        invariant k <= writable && k <= |old(incoming)| && incoming == old(incoming)[k..]
        decreases |incoming|
      {
        incoming := incoming[1..];
        k := k + 1;
      }
    }

    // ---------- TLS reads ----------

    /**
     Take what TLS has received up to the first read that ends the session or the connection: `n` of the
     reads do not, and their data packets are queued in order.
     */
    method ReadIncoming(frames: seq<SslRead>) returns (workDone: bool, next: Next, n: nat)
      modifies this`sslTimes, this`oweSslDpdResponse, this`incoming, this`quit, this`inflateAdler
      ensures n <= |frames| && (forall i :: 0 <= i < n ==> !Ends(frames[i], deflate)) && (n < |frames| ==> Ends(frames[n], deflate))
      ensures incoming == old(incoming) + Payloads(frames[..n]) && (workDone <==> BringsWork(frames[..n]))
      ensures oweSslDpdResponse <==> old(oweSslDpdResponse) || AsksForResponse(frames[..n])
      ensures sslTimes == old(sslTimes).(lastRx := LastRx(frames[..Min(n + 1, |frames|)], old(sslTimes).lastRx))
      ensures next == if n == |frames| then Proceed else Farewell(frames[n])
      ensures inflateAdler == InflateSum(frames[..n], old(inflateAdler))
      ensures quit <==> old(quit) || next.Leave? || SumFailed(frames[..n], old(inflateAdler))
    {
      hide Ends, Payloads, LastRx, AsksForResponse, SumFailed, BringsWork, IsType, IsData, WellFormed, SumFails, Payload,
           InflateSum, InflateStep;
      n, workDone, next := 0, false, Proceed;
      NothingRead(sslTimes.lastRx, inflateAdler);
      assert frames[..0] == [];
      while n < |frames|
        invariant n <= |frames| && next == Proceed && forall i :: 0 <= i < n ==> !Ends(frames[i], deflate)
        invariant incoming == old(incoming) + Payloads(frames[..n]) && (workDone <==> BringsWork(frames[..n]))
        invariant oweSslDpdResponse <==> old(oweSslDpdResponse) || AsksForResponse(frames[..n])
        invariant sslTimes == old(sslTimes).(lastRx := LastRx(frames[..n], old(sslTimes).lastRx))
        invariant inflateAdler == InflateSum(frames[..n], old(inflateAdler))
        invariant quit <==> old(quit) || SumFailed(frames[..n], old(inflateAdler))
      {
        OneMoreRead(frames, n, old(sslTimes).lastRx, old(inflateAdler));
        var done;
        done, next := ReadFrame(frames[n]);
        workDone := workDone || done;
        if next != Proceed {
          break;
        }
        n := n + 1;
      }
    }

    method ReadFrame(r: SslRead) returns (workDone: bool, next: Next)
      modifies this`sslTimes, this`oweSslDpdResponse, this`incoming, this`quit, this`inflateAdler
      ensures next == if Ends(r, deflate) then Farewell(r) else Proceed
      ensures Receive(r, deflate, old(incoming), incoming) && (workDone <==> next == Proceed && IsData(r))
      ensures oweSslDpdResponse <==> old(oweSslDpdResponse) || (next == Proceed && IsType(r, AC_PKT_DPD_OUT))
      ensures sslTimes == if WellFormed(r) then old(sslTimes).(lastRx := r.now) else old(sslTimes)
      ensures inflateAdler == if next == Proceed then InflateStep(old(inflateAdler), r) else old(inflateAdler)
      ensures quit <==> old(quit) || next.Leave? || (next == Proceed && SumFails(r, old(inflateAdler)))
    {
      hide Adler32, LoadBe32;
      workDone, next := false, Proceed;
      if r.ReadFailed? {
        return false, DoReconnect;
      }
      match Parse(r.buf) {
        case Unknown =>
          quit, next := true, Leave(1);
        case BadLength =>
        case Typed(t, payload) =>
          sslTimes := sslTimes.(lastRx := r.now);
          if t == AC_PKT_DPD_OUT {
            oweSslDpdResponse := true;
          } else if t == AC_PKT_DATA {
            incoming, workDone := incoming + [payload], true;
          } else if t == AC_PKT_DISCONN || t == AC_PKT_TERM_SERVER {
            quit, next := true, Leave(EPIPE);
          } else if t == AC_PKT_COMPRESSED && deflate {
            if r.inflated.Some? {
              inflateAdler := Adler32(inflateAdler, r.inflated.value);
              quit := quit || inflateAdler != SumOf(r.buf);
              incoming := incoming + [r.inflated.value];
            }
            workDone := true;
          } else if t != AC_PKT_DPD_RESP && t != AC_PKT_KEEPALIVE {
            quit, next := true, Leave(1);
          }
      }
    }

    // ---------- TLS writes ----------

    /** Write the current packet; if that stalls, see whether the connection should be given up. */
    method HandleOutgoing(trip: Trip, timeout: int) returns (next: Next, timeout': int, ghost a: Action)
      requires Valid() && current != NoPkt
      modifies this`sslTimes, this`sslWriteMonitored, this`current, this`quit, this`places, this`tlsLog
      ensures Valid()
      ensures var frame := old(CurrentFrame()).value;
        var outcome := match trip.res
          case WrittenAll => Done
          case Written(n) => if n == 0 then Stall else if n == |frame| then Done else Short
          case WouldBlock(_) => Stall
          case WriteFailed => Failure;
        && tlsLog == old(tlsLog) + [TlsWrite(old(Carried()), frame, outcome)]
        && (next == Proceed <==> outcome == Done)
        && (outcome == Done ==> current == NoPkt && places == Complete(old(places)))
        && (outcome != Done ==> current == old(current) && places == old(places))
        && (outcome == Failure ==> next == DoReconnect)
        && (outcome == Short ==> next == Leave(1))
        && (quit <==> old(quit) || outcome == Short)
        && (if outcome == Stall then
              && StalledCheck(old(sslTimes).(lastTx := trip.txNow), trip.stallNow, timeout, a, sslTimes, timeout')
              && next == (match a case KaDpdDead => DoReconnect case KaRekey => DoRekey case _ => Leave(0))
            else sslTimes == old(sslTimes).(lastTx := trip.txNow) && timeout' == timeout)
      ensures next == DoRekey ==> sslTimes.Rekeys()
    {
      hide Valid, CodecOk, CurrentFrame, Carried, Complete, StalledCheck;
      timeout', a := timeout, KaNone;
      sslTimes := sslTimes.(lastTx := trip.txNow);
      sslWriteMonitored := false;
      CodecPart();
      FrameExists();
      var frame := CurrentFrame().value;
      var ret := match trip.res case WrittenAll => |frame| case Written(n) => n as int case WouldBlock(_) => 0 case WriteFailed => -1;
      if ret < 0 {
        LogUnsent(frame, Failure);
        next := DoReconnect;
      } else if ret == 0 {
        LogUnsent(frame, Stall);
        sslWriteMonitored := trip.res.WouldBlock? && trip.res.wantWrite;
        var action;
        action, sslTimes, timeout' := KaStalledAction(sslTimes, trip.stallNow, timeout);
        a := action;
        next := if action == KaDpdDead then DoReconnect else if action == KaRekey then DoRekey else Leave(0);
      } else if ret != |frame| {
        LogUnsent(frame, Short);
        quit := true;
        next := Leave(1);
      } else {
        FinishPacket(frame);
        next := Proceed;
      }
    }

    lemma FrameExists()
      requires CodecOk()
      ensures current != NoPkt <==> CurrentFrame().Some?
      ensures current != NoPkt ==> |CurrentFrame().value| >= 8
    {}

    /** The octets of the static packets. */
    lemma CurrentOctets()
      ensures current == DpdPkt ==> CurrentFrame() == Some([83, 84, 70, 1, 0, 0, 3, 0])
      ensures current == DpdRespPkt ==> CurrentFrame() == Some([83, 84, 70, 1, 0, 0, 4, 0])
      ensures current == KeepalivePkt ==> CurrentFrame() == Some([83, 84, 70, 1, 0, 0, 7, 0])
      ensures current == DpdPkt || current == DpdRespPkt || current == KeepalivePkt ==> Carried() == None
    {
      StaticOctets();
    }

    lemma CurrentIsPlain(outcome: Outcome)
      requires CodecOk() && !everCompressed && current != NoPkt
      ensures PlainFrame(TlsWrite(Carried(), CurrentFrame().value, outcome))
    {
      CurrentOctets();
      if current.Plain? {
        DataOctets(current.pkt.data);
      }
      hide Frame;
    }

    ghost method LogUnsent(frame: seq<byte>, outcome: Outcome)
      requires Valid() && CurrentFrame() == Some(frame) && outcome != Done
      modifies this`tlsLog
      ensures Valid() && tlsLog == old(tlsLog) + [TlsWrite(Carried(), frame, outcome)]
    {
      hide RetryOk, PlacesOk, CodecOk, CountOk, HistoryOk, SentOverTls, Requeues, DtlsValid, CurrentFrame, Carried, PlainFrame;
      FrameExists();
      if !everCompressed {
        CurrentIsPlain(outcome);
      }
      RetryWrite(tlsLog, Carried(), frame, outcome);
      LogStep(tlsLog, TlsWrite(Carried(), frame, outcome));
      tlsLog := tlsLog + [TlsWrite(Carried(), frame, outcome)];
    }

    /** A completed write is logged and its packet completed. */
    ghost method LogDone(frame: seq<byte>)
      requires Valid() && CurrentFrame() == Some(frame)
      modifies this`places, this`tlsLog
      ensures places == Complete(old(places)) && tlsLog == old(tlsLog) + [TlsWrite(Carried(), frame, Done)]
      ensures Good(places) && RetryOk(tlsLog, None, None) && SentOk() && WireOk() && HistoryOk()
    {
      hide RetryOk, Good, CodecOk, CountOk, DtlsValid, SentOverTls, Requeues, PlainFrame, CurrentFrame, Carried;
      FrameExists();
      if !everCompressed {
        CurrentIsPlain(Done);
      }
      FlightIsCarried();
      ghost var e := TlsWrite(Carried(), frame, Done);
      CompleteGood(places);
      RetryWrite(tlsLog, Carried(), frame, Done);
      LogStep(tlsLog, e);
      tlsLog := tlsLog + [e];
      places := Complete(places);
    }

    lemma FlightIsCarried()
      requires PlacesOk()
      ensures places.flight == if Carried().Some? then [Carried().value] else []
    {}

    /** The current packet has gone out. */
    method FinishPacket(ghost frame: seq<byte>)
      requires Valid() && CurrentFrame() == Some(frame)
      modifies this`current, this`places, this`tlsLog
      ensures Valid() && current == NoPkt && places == Complete(old(places))
      ensures tlsLog == old(tlsLog) + [TlsWrite(old(Carried()), frame, Done)]
    {
      hide RetryOk, Good, SentOk, WireOk, HistoryOk, DtlsValid;
      LogDone(frame);
      current := NoPkt;
    }

    /** The current packet is `pkt`, compressed with the running checksum behind it, or plain. */
    ghost predicate Framed(pkt: Packet, z: Option<Deflated>, adler: nat)
      reads this`current, this`deflate, this`codecReady, this`deflateFrame, this`deflateAdler
    {
      if deflate && codecReady && z.Some? then
        && deflateAdler == Adler32(adler, pkt.data) < 0x1_0000_0000
        && current == DeflatePkt && CurrentFrame() == Some(Frame(AC_PKT_COMPRESSED, z.value + Be32(deflateAdler)))
      else
        deflateAdler == adler && current.Plain? && CurrentFrame() == Some(Frame(AC_PKT_DATA, pkt.data))
    }

    /** Take the first queued packet for TLS, compressed if compression is on and the compressor succeeds. */
    method TakeForTls(z: Option<Deflated>)
      requires Valid() && current == NoPkt && outgoing != []
      modifies this`outgoing, this`outgoingQlen, this`current, this`pendingDeflated, this`deflateFrame, this`deflateAdler, this`places, this`everCompressed, this`packed
      ensures Valid()
      ensures places == Dequeue(old(places)) && outgoingQlen == old(outgoingQlen) - 1 && outgoing == old(outgoing)[1..]
      ensures Carried() == Some(old(outgoing)[0])
      ensures Framed(old(outgoing)[0], z, old(deflateAdler))
    {
      hide Valid, Good, RetryOk, CodecOk, SentOverTls, Requeues, PlainFrame, DtlsValid, CurrentFrame, Framed;
      Parts();
      DequeueGood(places);
      CodecPart();
      FrameExists();
      assert RetryOk(tlsLog, None, None);
      var pkt := outgoing[0];
      outgoing := outgoing[1..];
      outgoingQlen := outgoingQlen - 1;
      FramePacket(pkt, z);
      places := Dequeue(places);
      RetryArm(tlsLog, Carried(), CurrentFrame());
      Parts();
    }

    /** A codec that has not been started fails, and then the packet goes out as it is. */
    method FramePacket(pkt: Packet, z: Option<Deflated>)
      requires CodecOk() && current == NoPkt
      modifies this`current, this`pendingDeflated, this`deflateFrame, this`deflateAdler, this`everCompressed, this`packed
      ensures CodecOk() && (everCompressed <==> old(everCompressed) || current == DeflatePkt) && Carried() == Some(pkt) && Framed(pkt, z, old(deflateAdler))
    {
      hide Header, Adler32, Be32;
      if deflate && codecReady && z.Some? {
        AdlerAppend(1, packed, pkt.data);
        packed, everCompressed := packed + pkt.data, true;
        AdlerFits(deflateAdler, pkt.data);
        deflateAdler := Adler32(deflateAdler, pkt.data);
        var totalOut := |z.value|;
        deflateFrame := Header(AC_PKT_COMPRESSED, totalOut + 4) + (z.value + Be32(deflateAdler));
        pendingDeflated := Some(pkt);
        current := DeflatePkt;
      } else {
        current := Plain(Header(AC_PKT_DATA, |pkt.data|), pkt);
      }
    }

    /** Make one of the static packets the current one. */
    method ArmStatic(c: Current)
      requires Valid() && current == NoPkt && c in {DpdPkt, DpdRespPkt, KeepalivePkt}
      modifies this`current
      ensures Valid() && current == c
    {
      hide Good, RetryOk, SentOk, WireOk, DtlsValid, CountOk, HistoryOk, Frame;
      current := c;
      RetryArm(tlsLog, Carried(), CurrentFrame());
    }

    /** What is left to write at second `c`: the current packet, an owed answer, a due probe and the queue. */
    ghost function Backlog(c: int): nat
      reads this`current, this`oweSslDpdResponse, this`sslTimes, this`outgoing
    {
      (if current != NoPkt then 1 else 0) + (if oweSslDpdResponse then 1 else 0)
      + (if Arrived(c, ProbeDue(sslTimes)) then 1 else 0) + |outgoing|
    }

    /** A sufficient condition: neither probes nor keepalives can come due again and again within one second. */
    ghost predicate TimersSane()
      reads this`sslTimes
    {
      (sslTimes.dpd == 0 || sslTimes.dpd >= 2) && sslTimes.keepalive >= 0
    }

    lemma SaneIsNotRestless(c: int)
      ensures TimersSane() ==> !Restless(c)
    {}

    /** At second `c` a rekey is due or the peer counts as dead. */
    ghost predicate GivenUp(c: int)
      reads this`sslTimes
    {
      Arrived(c, RekeyDue(sslTimes)) || (sslTimes.dpd != 0 && c > sslTimes.DeathDeadline())
    }

    /** With a live peer, a probe that is due with a period of one second stays due, and so does a keepalive with a negative period. */
    ghost predicate Restless(c: int)
      reads this`sslTimes
    {
      !GivenUp(c) && ((sslTimes.dpd == 1 && Arrived(c, ProbeDue(sslTimes))) || sslTimes.keepalive < 0)
    }

    /** There is something to write at second `c`. */
    ghost predicate Pending(c: int)
      reads this`current, this`oweSslDpdResponse, this`sslTimes, this`outgoing, this`dtlsState
    {
      || current != NoPkt || oweSslDpdResponse || Arrived(c, ProbeDue(sslTimes)) || Arrived(c, KeepaliveDue(sslTimes))
      || (TlsDrains(dtlsState) && outgoing != [])
    }

    /** Choose what to write next: an owed answer, what the timers ask for, or a queued packet if DTLS does not take it. */
    method NextOutgoing(kaNow: int, z: Option<Deflated>, timeout: int) returns (next: Next, timeout': int, ghost a: Action)
      requires Valid() && current == NoPkt
      modifies this`sslTimes, this`oweSslDpdResponse, this`outgoing, this`outgoingQlen, this`current, this`pendingDeflated,
               this`deflateFrame, this`deflateAdler, this`places, this`everCompressed, this`packed
      ensures Valid() && !oweSslDpdResponse
      ensures next in {Armed, Idle, DoRekey, DoReconnect} && (next == Armed <==> current != NoPkt)
      ensures old(oweSslDpdResponse) ==>
        && current == DpdRespPkt && CurrentFrame() == Some([83, 84, 70, 1, 0, 0, 4, 0])
        && sslTimes == old(sslTimes) && timeout' == timeout && places == old(places)
      ensures !old(oweSslDpdResponse) ==>
        && PeriodicCheck(old(sslTimes), kaNow, timeout, a, sslTimes, timeout')
        && var takes := TlsDrains(dtlsState) && old(outgoing) != [];
           match a
           case KaRekey => next == DoRekey
           case KaDpdDead => next == DoReconnect
           case KaDpd => current == DpdPkt && CurrentFrame() == Some([83, 84, 70, 1, 0, 0, 3, 0])
           case _ =>
             if takes then
               && Carried() == Some(old(outgoing)[0]) && places == Dequeue(old(places))
               && Framed(old(outgoing)[0], z, old(deflateAdler))
             else if a == KaKeepalive then current == KeepalivePkt && CurrentFrame() == Some([83, 84, 70, 1, 0, 0, 7, 0])
             else next == Idle
      ensures Carried().None? ==> places == old(places) && deflateAdler == old(deflateAdler)
      ensures places == old(places).(queue := places.queue, flight := places.flight)
      ensures next == Idle ==> outgoing == [] || !TlsDrains(dtlsState)
      ensures next == DoRekey ==> sslTimes.Rekeys()
      ensures sslTimes.dpd == old(sslTimes.dpd) && sslTimes.keepalive == old(sslTimes.keepalive)
      ensures !old(Restless(kaNow)) && next == Armed ==>
        && !Restless(kaNow)
        && (if current == KeepalivePkt then
              old(Arrived(kaNow, KeepaliveDue(sslTimes))) && sslTimes.keepalive >= 0 && Backlog(kaNow) <= |old(outgoing)| + 1
            else Backlog(kaNow) <= old(Backlog(kaNow)))
      ensures !old(Pending(kaNow)) ==> next != Armed
      ensures old(Restless(kaNow) && Pending(kaNow)) ==> next == Armed && Restless(kaNow)
    {
      hide PlacesOk, CodecOk, WritesOk, CountOk, HistoryOk, SentOk, WireOk, DtlsValid, Frame, Framed;
      timeout', a, next := timeout, KaNone, Armed;
      if oweSslDpdResponse {
        oweSslDpdResponse := false;
        ArmStatic(DpdRespPkt);
        CurrentOctets();
        return;
      }
      var action;
      action, sslTimes, timeout' := KeepaliveAction(sslTimes, kaNow, timeout);
      a := action;
      if action == KaRekey {
        next := DoRekey;
      } else if action == KaDpdDead {
        next := DoReconnect;
      } else if action == KaDpd {
        ArmStatic(DpdPkt);
        CurrentOctets();
      } else if TlsDrains(dtlsState) && outgoing != [] {
        TakeForTls(z);
      } else if action == KaKeepalive {
        ArmStatic(KeepalivePkt);
        CurrentOctets();
      } else {
        next := Idle;
      }
    }

    /** One trip round the loop: a write and, if it went through, the choice of the next packet; the backlog shrinks. */
    method OneTrip(trip: Trip, timeout: int) returns (next: Next, timeout': int)
      requires Valid() && current != NoPkt
      modifies this`sslTimes, this`sslWriteMonitored, this`oweSslDpdResponse, this`outgoing, this`outgoingQlen, this`current,
               this`pendingDeflated, this`deflateFrame, this`deflateAdler, this`quit, this`places, this`tlsLog,
               this`everCompressed, this`packed
      ensures (quit <==> old(quit) || next == Leave(1)) && (next.Leave? ==> next.ret in {0, 1})
      ensures Valid() && next != Proceed && (next == Armed ==> current != NoPkt) && (next == DoRekey ==> sslTimes.Rekeys())
      ensures next == Idle ==> current == NoPkt && (outgoing == [] || !TlsDrains(dtlsState))
      ensures |tlsLog| == |old(tlsLog)| + 1 && tlsLog[..|old(tlsLog)|] == old(tlsLog) && tlsLog[|old(tlsLog)|].TlsWrite?
      ensures places == old(places).(queue := places.queue, flight := places.flight, completed := places.completed)
      ensures old(places).completed <= places.completed
      ensures next in {Armed, Idle} ==> old(tlsLog) + [TlsWrite(old(Carried()), old(CurrentFrame()).value, Done)] == tlsLog
      ensures !old(Restless(trip.kaNow)) && trip.txNow == trip.kaNow && next == Armed ==>
        !Restless(trip.kaNow) && Backlog(trip.kaNow) < old(Backlog(trip.kaNow))
      ensures old(Restless(trip.kaNow)) && trip.txNow == trip.kaNow && trip.res == WrittenAll ==> next == Armed && Restless(trip.kaNow)
    {
      hide Valid, PeriodicCheck, StalledCheck, Carried, CurrentFrame, Framed;
      ghost var a;
      next, timeout', a := HandleOutgoing(trip, timeout);
      if next == Proceed {
        next, timeout', a := NextOutgoing(trip.kaNow, trip.z, timeout');
      }
    }

    /**
     Write until nothing is left, a write does not go through, or the timers ask for something else. The list of
     trips may end before that (`next` is then `Armed`). At one clock reading it ends if and only if it is not the case that
     the timers are restless and there is something to write: otherwise three trips more than there are queued
     packets suffice, and in that case no list of trips is long enough as long as every write goes through.
     */
    method WriteOutgoing(kaNow: int, z: Option<Deflated>, trips: seq<Trip>, timeout: int)
      returns (next: Next, timeout': int, used: nat)
      requires Valid()
      modifies this`sslTimes, this`sslWriteMonitored, this`oweSslDpdResponse, this`outgoing, this`outgoingQlen, this`current,
               this`pendingDeflated, this`deflateFrame, this`deflateAdler, this`quit, this`places, this`tlsLog,
               this`everCompressed, this`packed
      ensures Valid() && (quit <==> old(quit) || next == Leave(1)) && (next.Leave? ==> next.ret in {0, 1})
      ensures next != Proceed && (next == Armed ==> used == |trips|) && (next == DoRekey ==> sslTimes.Rekeys())
      ensures next == Idle ==> current == NoPkt && (outgoing == [] || !TlsDrains(dtlsState))
      ensures old(tlsLog) <= tlsLog && |tlsLog| == |old(tlsLog)| + used
              && forall i :: |old(tlsLog)| <= i < |tlsLog| ==> tlsLog[i].TlsWrite?
      ensures places == old(places).(queue := places.queue, flight := places.flight, completed := places.completed)
      ensures Later(old(places), places)
      ensures FixedClock(trips, kaNow) && !old(Restless(kaNow) && Pending(kaNow)) ==>
        used <= |old(outgoing)| + 3 && (|trips| >= |old(outgoing)| + 3 ==> next != Armed)
      ensures FixedClock(trips, kaNow) && AllWritten(trips) && old(Restless(kaNow) && Pending(kaNow)) ==>
        next == Armed && used == |trips|
    {
      hide Valid, PeriodicCheck, StalledCheck, Carried, CurrentFrame, Framed, Restless;
      ghost var still := FixedClock(trips, kaNow) && !(Restless(kaNow) && Pending(kaNow));
      ghost var endless := FixedClock(trips, kaNow) && AllWritten(trips) && Restless(kaNow) && Pending(kaNow);
      ghost var limit := |outgoing| + 3;
      used, next, timeout' := 0, Armed, timeout;
      if current == NoPkt {
        ghost var a;
        next, timeout', a := NextOutgoing(kaNow, z, timeout');
      }
      while next == Armed && used < |trips|
        invariant Valid() && next != Proceed && (next == Armed ==> current != NoPkt)
        invariant (quit <==> old(quit) || next == Leave(1)) && (next.Leave? ==> next.ret in {0, 1})
        invariant used <= |trips| && (next == DoRekey ==> sslTimes.Rekeys())
        invariant next == Idle ==> current == NoPkt && (outgoing == [] || !TlsDrains(dtlsState))
        invariant old(tlsLog) <= tlsLog && |tlsLog| == |old(tlsLog)| + used
        invariant forall i :: |old(tlsLog)| <= i < |tlsLog| ==> tlsLog[i].TlsWrite?
        invariant places == old(places).(queue := places.queue, flight := places.flight, completed := places.completed)
        invariant Later(old(places), places)
        invariant still ==> used + (if next == Armed then Backlog(kaNow) else 0) <= limit
        invariant still && next == Armed ==> !Restless(kaNow)
        invariant endless ==> next == Armed && Restless(kaNow)
      {
        next, timeout' := OneTrip(trips[used], timeout');
        used := used + 1;
      }
    }

    // ---------- CSTP connections ----------

    /**
     One attempt. Compression that was on is offered and its codec started, with checksums that begin again; whether it is on
     afterwards is the server's choice alone, offered or not.
     */
    method MakeCstpConnection(link: Link) returns (ret: int)
      requires CodecOk() && current != DeflatePkt && !sslOpen
      modifies this`sslOpen, this`deflate, this`deflateAllocated, this`codecReady, this`deflateAdler, this`inflateAdler, this`packed,
               this`sslTimes, this`dtlsAttemptPeriod
      ensures CodecOk() && (old(Valid()) ==> Valid()) && ret <= 0 && (ret == 0 <==> sslOpen)
      ensures link.Tls? && link.start.Answered? ==> deflate == link.start.deflate
      ensures deflateAllocated <==> old(deflateAllocated) || (link.Tls? && old(deflate))
      ensures codecReady <==> if link.Tls? && old(deflate) then link.codecStarts else old(codecReady)
      ensures link.Tls? && old(deflate) ==> deflateAdler == inflateAdler == 1
      ensures link.Tls? ==> packed == []
      ensures sslOpen ==> link.Tls? && link.start.Answered? && link.start.refused.None?
      ensures sslOpen ==> sslTimes.lastRekey == sslTimes.lastRx == sslTimes.lastTx == link.start.now
      ensures sslOpen && sslTimes.Rekeys() ==> sslTimes.rekey > 0
    {
      hide Valid, CodecOk;
      if link.NoTls? {
        return link.err;
      }
      sslOpen := true;
      StartCodec(link.codecStarts);
      ret := StartCstpConnection(link.start);
      if ret < 0 {
        sslOpen := false;
      }
    }

    method StartCodec(codecStarts: bool)
      requires CodecOk() && current != DeflatePkt
      modifies this`deflate, this`deflateAllocated, this`codecReady, this`deflateAdler, this`inflateAdler, this`packed
      ensures CodecOk() && (old(Valid()) ==> Valid()) && packed == []
      ensures deflateAllocated <==> old(deflateAllocated || deflate)
      ensures codecReady <==> if old(deflate) then codecStarts else old(codecReady)
      ensures deflate <==> old(deflate) && codecStarts
      ensures old(deflate) ==> deflateAdler == inflateAdler == 1
    {
      hide Valid, PlacesOk, WritesOk, CountOk, HistoryOk, SentOk, WireOk, DtlsValid, Header, Adler32;
      NothingSummed(1);
      Parts();
      if deflate {
        deflateAdler, inflateAdler, packed := 1, 1, [];
        codecReady, deflate := codecStarts, codecStarts;
        deflateAllocated := true;
      }
      Parts();
    }

    method StartCstpConnection(start: StartCstp) returns (ret: int)
      requires CodecOk() && current != DeflatePkt && packed == []
      modifies this`deflate, this`sslTimes, this`dtlsAttemptPeriod
      ensures CodecOk() && (old(Valid()) ==> Valid())
      ensures match start
        case Unanswered(err) => ret == err && deflate == old(deflate) && sslTimes == old(sslTimes)
        case Answered(chosen, settings, refused, _, now) =>
          && deflate == chosen
          && ret == (match refused case None => 0 case Some(err) => err)
          && (ret == 0 ==> sslTimes.lastRekey == sslTimes.lastRx == sslTimes.lastTx == now)
          && (ret == 0 && sslTimes.Rekeys() ==> sslTimes.rekey > 0)
    {
      hide PlacesOk, WritesOk, CountOk, HistoryOk, SentOk, WireOk, DtlsValid, Header, Adler32;
      match start {
        case Unanswered(err) =>
          ret := err;
        case Answered(chosen, settings, refused, sessionId, now) =>
          deflate := chosen;
          sslTimes := sslTimes.(dpd := settings.dpd, keepalive := settings.keepalive, rekey := settings.rekey,
                                rekeyMethod := settings.rekeyMethod);
          if refused.Some? {
            return refused.value;
          }
          if !sessionId {
            dtlsAttemptPeriod := 0;
          }
          if sslTimes.rekey <= 0 {
            sslTimes := sslTimes.(rekeyMethod := RekeyNone);
          }
          sslTimes := sslTimes.(lastRekey := now, lastRx := now, lastTx := now);
          ret := 0;
      }
    }

    /** A compressed packet goes back to the queue, at the end, as it was before compression. */
    method RequeueDeflated()
      requires Valid() && current == DeflatePkt
      modifies this`current, this`outgoing, this`pendingDeflated, this`places, this`tlsLog
      ensures Valid() && current == NoPkt && places == Requeue(old(places))
      ensures tlsLog == old(tlsLog) + [Requeued(old(Carried()).value)]
      ensures outgoing == old(outgoing) + [old(Carried()).value]
    {
      hide Valid, Good, RetryOk, SentOverTls, Requeues, Frame, Header, Adler32, DtlsValid;
      Parts();
      RequeueGood(places);
      RetryRequeue(tlsLog, pendingDeflated.value, deflateFrame);
      LogStep(tlsLog, Requeued(pendingDeflated.value));
      tlsLog := tlsLog + [Requeued(pendingDeflated.value)];
      current := NoPkt;
      outgoing := outgoing + [pendingDeflated.value];
      pendingDeflated := None;
      places := Requeue(places);
      Parts();
    }

    /** A command is looked at only when none is pending. */
    method PollCommand(command: Command)
      modifies this`gotCancel, this`gotPause, this`cancelType
      ensures if old(gotCancel) || old(gotPause) then
                gotCancel == old(gotCancel) && gotPause == old(gotPause) && cancelType == old(cancelType)
              else gotCancel == (command in {Cancel, Detach}) && gotPause == (command == Pause) && (gotCancel ==> cancelType == command)
    {
      if !gotCancel && !gotPause {
        if command in {Cancel, Detach} {
          gotCancel, cancelType := true, command;
        }
        gotPause := command == Pause;
      }
    }

    /**
     Try to connect again, sleeping longer after each failure, until the time for it is used up. `slept` is the sum
     of the sleeps. The list of attempts may end before that, but not if it is longer than the timeout.
     */
    method TryToConnect(attempts: seq<Attempt>) returns (ret: int, ending: Ending, slept: int)
      requires Valid() && current != DeflatePkt && !sslOpen
      modifies this`sslOpen, this`deflate, this`deflateAllocated, this`codecReady, this`deflateAdler, this`inflateAdler, this`packed,
               this`sslTimes, this`dtlsAttemptPeriod,
               this`gotCancel, this`gotPause, this`cancelType
      ensures Valid() && (old(deflateAllocated) ==> deflateAllocated)
      ensures ending == Remade ==> packed == []
      ensures ending != NullPacket && (ending == Remade <==> sslOpen)
      ensures ret <= 0 && (ret == 0 <==> ending in {Remade, Paused, CutOff})
      ensures ending == Remade ==> sslTimes.lastRekey == sslTimes.lastRx == sslTimes.lastTx && (sslTimes.Rekeys() ==> sslTimes.rekey > 0)
      ensures ending == Cancelled ==> ret == -4 && gotCancel
      ensures ending == Rejected ==> ret == -1
      ensures ending == Paused ==> gotPause
      ensures ending == GaveUp && reconnectTimeout > 0 && 1 <= reconnectInterval <= 100 ==>
        reconnectTimeout <= slept < reconnectTimeout + 100
      ensures ending == GaveUp && reconnectTimeout <= 0 ==> slept == 0
      ensures reconnectInterval >= 1 && |attempts| > Max(0, reconnectTimeout) ==> ending != CutOff
    {
      hide Valid, CodecOk;
      CodecPart();
      slept := 0;
      var timeout, interval := reconnectTimeout, reconnectInterval;
      var i := 0;
      while i < |attempts|
        invariant i <= |attempts| && Valid() && CodecOk() && !sslOpen && (old(deflateAllocated) ==> deflateAllocated)
        invariant timeout == reconnectTimeout - slept
        invariant i == 0 ==> slept == 0 && interval == reconnectInterval
        invariant reconnectInterval >= 1 ==> interval >= 1 && slept >= i && (i > 0 ==> i <= reconnectTimeout)
        invariant 1 <= reconnectInterval <= RECONNECT_INTERVAL_MAX ==>
                    && interval <= RECONNECT_INTERVAL_MAX
                    && (i > 0 ==> reconnectTimeout > 0 && slept < reconnectTimeout + RECONNECT_INTERVAL_MAX)
        invariant i > 0 ==> reconnectTimeout > 0
      {
        ret := MakeCstpConnection(attempts[i].link);
        if ret == 0 {
          return 0, Remade, slept;
        }
        if timeout <= 0 {
          return ret, GaveUp, slept;
        }
        if ret == EPERM {
          return ret, Rejected, slept;
        }
        slept := slept + interval;
        PollCommand(attempts[i].command);
        if gotCancel {
          return EINTR, Cancelled, slept;
        }
        if gotPause {
          return 0, Paused, slept;
        }
        timeout := timeout - interval;
        interval := interval + reconnectInterval;
        if interval > RECONNECT_INTERVAL_MAX {
          interval := RECONNECT_INTERVAL_MAX;
        }
        i := i + 1;
      }
      return 0, CutOff, slept;
    }

    lemma CodecPart()
      requires Valid()
      ensures CodecOk() && (current == DeflatePkt ==> deflate)
    {}

    /**
     The packet in flight is compared with the compression buffer. Where there is neither, both are null pointers, and a
     null packet would be queued: that happens exactly with compression on, no buffer, and nothing in flight.
     */
    predicate RequeueSafe()
      reads this`deflate, this`deflateAllocated, this`current
    {
      !(deflate && !deflateAllocated && current == NoPkt)
    }

    /** Close TLS, put a compressed packet back into the queue, and try to connect again. */
    method CstpReconnect(attempts: seq<Attempt>) returns (ret: int, ending: Ending)
      requires Valid()
      modifies this`sslOpen, this`current, this`outgoing, this`pendingDeflated, this`places, this`tlsLog,
               this`deflate, this`deflateAllocated, this`codecReady, this`deflateAdler, this`inflateAdler, this`packed,
               this`sslTimes, this`dtlsAttemptPeriod,
               this`gotCancel, this`gotPause, this`cancelType, this`crashed
      ensures Valid() && (old(deflateAllocated) ==> deflateAllocated)
      ensures ending == NullPacket <==> !old(RequeueSafe())
      ensures crashed <==> old(crashed) || ending == NullPacket
      ensures if old(current) == DeflatePkt then
          && current == NoPkt && places == Requeue(old(places)) && outgoing == old(outgoing) + [old(Carried()).value]
          && tlsLog == old(tlsLog) + [Requeued(old(Carried()).value)]
        else
          && current == old(current) && places == old(places) && tlsLog == old(tlsLog)
      ensures ending == Remade ==> packed == []
      ensures (ending == Remade <==> sslOpen) && ret <= 0 && (ret == 0 <==> ending in {Remade, Paused, CutOff, NullPacket})
      ensures ending == Paused ==> gotPause
      ensures reconnectInterval >= 1 && |attempts| > Max(0, reconnectTimeout) ==> ending != CutOff
    {
      hide Valid, Requeue, Carried;
      CodecPart();
      sslOpen := false;
      if deflate {
        if current == DeflatePkt {
          RequeueDeflated();
        } else if current == NoPkt && !deflateAllocated {
          crashed := true;
          return 0, NullPacket;
        }
        EndCodec();
      }
      var slept;
      ret, ending, slept := TryToConnect(attempts);
    }

    method EndCodec()
      requires Valid()
      modifies this`codecReady
      ensures Valid() && !codecReady
    {
      hide PlacesOk, WritesOk, CountOk, HistoryOk, SentOk, WireOk, DtlsValid;
      codecReady := false;
    }

    // ---------- DTLS ----------

    method DtlsClose()
      requires !dtlsSsl ==> dtlsFd == -1
      modifies this`dtlsSsl, this`dtlsFd, this`dtlsWriteMonitored
      ensures !dtlsSsl && dtlsFd == -1
    {
      if dtlsSsl {
        dtlsSsl, dtlsFd, dtlsWriteMonitored := false, -1, false;
      }
    }

    method DtlsTryHandshake(hs: Handshake) returns (ret: int)
      requires DtlsValid() && dtlsState == Connecting
      modifies this`dtlsState, this`dtlsSsl, this`dtlsFd, this`dtlsWriteMonitored, this`dtlsTimes, this`newDtlsStarted, this`everConnected
      ensures DtlsValid() && dtlsState == HandshakeState(hs, old(newDtlsStarted))
      ensures old(Valid()) ==> Valid()
      ensures everConnected <==> old(everConnected) || dtlsState == Connected
      ensures ret == (if dtlsState == Sleeping then -22 else 0)
      ensures newDtlsStarted == (if dtlsState == Sleeping then hs.now else old(newDtlsStarted))
      ensures dtlsTimes == if hs.HsDone? then old(dtlsTimes).(lastRekey := hs.now, lastRx := hs.now, lastTx := hs.now) else old(dtlsTimes)
    {
      hide PlacesOk, CodecOk, WritesOk, CountOk, SentOverTls, Requeues, WireOk;
      if hs.HsDone? {
        dtlsState, everConnected := Connected, true;
        dtlsTimes := dtlsTimes.(lastRekey := hs.now, lastRx := hs.now, lastTx := hs.now);
        return 0;
      }
      if hs.HsAgain? && hs.now < newDtlsStarted + 12 {
        return 0;
      }
      DtlsClose();
      dtlsState, newDtlsStarted := Sleeping, hs.now;
      return EINVAL;
    }

    method ConnectDtlsSocket(s: Socket) returns (ret: int)
      requires DtlsValid()
      modifies this`dtlsState, this`dtlsSsl, this`dtlsFd, this`dtlsWriteMonitored, this`dtlsTimes, this`newDtlsStarted,
               this`dtlsAttemptPeriod, this`everConnected
      ensures DtlsValid() && (old(everConnected) ==> everConnected) && (old(Valid()) ==> Valid())
      ensures if old(dtlsFd) == -1 && s.Opened? then
          && dtlsState == HandshakeState(s.hs, s.now) && ret == (if dtlsState == Sleeping then -22 else 0)
          && newDtlsStarted == (if dtlsState == Sleeping then s.hs.now else s.now)
          && dtlsAttemptPeriod == old(dtlsAttemptPeriod)
        else
          && dtlsState == old(dtlsState) && ret == -22
          && dtlsAttemptPeriod == if old(dtlsFd) == -1 && s == NotOpened(false) then old(dtlsAttemptPeriod) else 0
    {
      hide PlacesOk, CodecOk, WritesOk, CountOk, HistoryOk, SentOk, WireOk;
      if dtlsFd != -1 || s.Unusable? {
        dtlsAttemptPeriod := 0;
        return EINVAL;
      }
      if s.NotOpened? {
        if s.giveUp {
          dtlsAttemptPeriod := 0;
        }
        return EINVAL;
      }
      dtlsSsl, dtlsState, dtlsFd, newDtlsStarted := true, Connecting, s.fd, s.now;
      ret := DtlsTryHandshake(s.hs);
    }

    method DtlsReconnect(s: Socket) returns (ret: int)
      requires DtlsValid()
      modifies this`dtlsState, this`dtlsSsl, this`dtlsFd, this`dtlsWriteMonitored, this`dtlsTimes, this`newDtlsStarted,
               this`dtlsAttemptPeriod, this`everConnected
      ensures DtlsValid() && (old(everConnected) ==> everConnected) && (old(Valid()) ==> Valid())
      ensures dtlsState == if s.Opened? then HandshakeState(s.hs, s.now) else Sleeping
      ensures ret == 0 <==> dtlsState != Sleeping
    {
      hide PlacesOk, CodecOk, WritesOk, CountOk, HistoryOk, SentOk, WireOk, HandshakeState;
      DtlsClose();
      dtlsState := Sleeping;
      ret := ConnectDtlsSocket(s);
    }

    /** Turn DTLS on after the first CSTP connection, with the timers of the server's answer. */
    method SetupDtls(period: int, settings: Times, hasPort: bool, s: Socket) returns (ret: int)
      requires Valid() && dtlsState == Disabled
      modifies this`dtlsState, this`dtlsSsl, this`dtlsFd, this`dtlsWriteMonitored, this`dtlsTimes, this`newDtlsStarted,
               this`dtlsAttemptPeriod, this`everConnected
      ensures Valid()
      ensures dtlsState == if period != 0 && hasPort && s.Opened? then HandshakeState(s.hs, s.now) else Disabled
      ensures ret == if period == 0 || dtlsState in {Connecting, Connected} then 0 else -22
      ensures period == 0 || !hasPort || s.Unusable? ==> dtlsAttemptPeriod == 0
    {
      hide Valid, DtlsValid, DtlsOk;
      DtlsPart();
      dtlsAttemptPeriod := period;
      if period == 0 {
        return 0;
      }
      dtlsTimes := dtlsTimes.(dpd := settings.dpd, keepalive := settings.keepalive, rekey := settings.rekey,
                              rekeyMethod := settings.rekeyMethod);
      if !hasPort {
        dtlsAttemptPeriod := 0;
        return EINVAL;
      }
      if dtlsTimes.rekey <= 0 {
        dtlsTimes := dtlsTimes.(rekeyMethod := RekeyNone);
      }
      ret := ConnectDtlsSocket(s);
      if ret != 0 {
        ret := EINVAL;
      }
    }

    /** Offer the first queued packet to DTLS: it is sent, put back, or, if the library wants to read first, lost. */
    method SendOneOverDtls(answer: DtlsSend, s: Socket)
      requires Valid() && everConnected && outgoing != []
      modifies this`outgoing, this`outgoingQlen, this`places, this`dtlsState, this`dtlsSsl, this`dtlsFd, this`dtlsWriteMonitored,
               this`dtlsTimes, this`newDtlsStarted, this`dtlsAttemptPeriod, this`everConnected
      ensures Valid() && everConnected
      ensures places == match answer
                        case Sent(_) => SendDtls(old(places))
                        case WantRead => DropDtls(old(places))
                        case _ => old(places)
      ensures dtlsState == if answer.SendFailed? then (if s.Opened? then HandshakeState(s.hs, s.now) else Sleeping) else old(dtlsState)
    {
      hide Valid, Good, HandshakeState, SendDtls, DropDtls, OneLess;
      QueueAgrees();
      match answer {
        case Sent(now) =>
          dtlsTimes := dtlsTimes.(lastTx := now);
          SendDtlsGood(places);
          TakeFirst(SendDtls(places));
        case WantRead =>
          DropDtlsGood(places);
          TakeFirst(DropDtls(places));
        case WantWrite =>
          PutBack();
        case SendFailed =>
          PutBackAfterFailure(s);
      }
    }

    /** A full socket: the first queued packet is put back. */
    method PutBack()
      requires Valid() && outgoing != []
      modifies this`outgoing, this`outgoingQlen, this`dtlsWriteMonitored
      ensures Valid() && outgoing == old(outgoing) && outgoingQlen == old(outgoingQlen)
    {
      hide Accounted, QueueOk, CodecOk, WritesOk, SentOk, HistoryOk, WireOk, Carried, DtlsValid;
      var pkt := outgoing[0];
      outgoing, outgoingQlen := outgoing[1..], outgoingQlen - 1;
      dtlsWriteMonitored := true;
      outgoing, outgoingQlen := [pkt] + outgoing, outgoingQlen + 1;
      assert outgoing == old(outgoing);
    }

    /** A failed send: a new DTLS connection is tried, and then the packet is put back to be sent over TLS. */
    method PutBackAfterFailure(s: Socket)
      requires Valid() && everConnected && outgoing != []
      modifies this`outgoing, this`outgoingQlen, this`dtlsState, this`dtlsSsl, this`dtlsFd, this`dtlsWriteMonitored,
               this`dtlsTimes, this`newDtlsStarted, this`dtlsAttemptPeriod, this`everConnected
      ensures Valid() && everConnected
      ensures outgoing == old(outgoing) && outgoingQlen == old(outgoingQlen)
      ensures dtlsState == if s.Opened? then HandshakeState(s.hs, s.now) else Sleeping
    {
      hide Valid, Accounted, QueueOk, CodecOk, WritesOk, SentOverTls, Requeues, WireOk, Carried, DtlsValid, HandshakeState;
      Parts();
      var pkt := outgoing[0];
      outgoing, outgoingQlen := outgoing[1..], outgoingQlen - 1;
      var _ := DtlsReconnect(s);
      outgoing, outgoingQlen := [pkt] + outgoing, outgoingQlen + 1;
      assert outgoing == old(outgoing);
      Parts();
    }

    /** The first queued packet leaves the queue for good. */
    method TakeFirst(ghost after: Places)
      requires Valid() && everConnected && outgoing != []
      requires places.queue != [] && Good(after) && OneLess(places, after)
      modifies this`outgoing, this`outgoingQlen, this`places
      ensures Valid() && places == after
      ensures outgoingQlen == old(outgoingQlen) - 1 && outgoing == old(outgoing)[1..]
    {
      hide Good, CodecOk, WritesOk, SentOverTls, Requeues, WireOk, Carried, DtlsValid;
      outgoing, outgoingQlen, places := outgoing[1..], outgoingQlen - 1, after;
    }

    /** Send queued packets over DTLS, in order, until the queue is empty or one does not go through. */
    method DrainOverDtls(sends: nat -> DtlsSend, s: Socket) returns (workDone: bool, ghost sent: nat, ghost stop: Option<DtlsSend>)
      requires Valid() && dtlsState == Connected
      modifies this`outgoing, this`outgoingQlen, this`places, this`dtlsState, this`dtlsSsl, this`dtlsFd, this`dtlsWriteMonitored,
               this`dtlsTimes, this`newDtlsStarted, this`dtlsAttemptPeriod, this`everConnected
      ensures Valid() && everConnected
      ensures sent <= |old(places).queue| && forall i :: 0 <= i < sent ==> sends(i).Sent?
      ensures match stop
        case None => outgoing == [] && sent == |old(places).queue| && places == SendMany(old(places), sent)
        case Some(answer) =>
          && sent < |old(places).queue| && answer == sends(sent) && !answer.Sent?
          && places == if answer.WantRead? then DropDtls(SendMany(old(places), sent)) else SendMany(old(places), sent)
      ensures workDone <==> stop == Some(SendFailed)
      ensures dtlsState != Disabled && (stop != Some(SendFailed) ==> dtlsState == Connected)
    {
      hide Valid, Good, SendMany, SendDtls, DropDtls;
      workDone, stop := false, None;
      dtlsWriteMonitored := false;
      SendNone(places);
      DtlsPart();
      var k := 0;
      while outgoing != []
        invariant Valid() && dtlsState == Connected && everConnected
        invariant k <= |old(places).queue| && places == SendMany(old(places), k)
        invariant forall i :: 0 <= i < k ==> sends(i).Sent?
        decreases |old(places).queue| - k
      {
        ManyLeft(old(places), k);
        SendManyStep(old(places), k);
        var answer := sends(k);
        SendOneOverDtls(answer, s);
        if !answer.Sent? {
          return answer.SendFailed?, k, Some(answer);
        }
        k := k + 1;
      }
      sent := k;
      QueueAgrees();
      NoneLeft(old(places), k);
    }

    method ReceiveOverDtls(recvs: seq<DtlsRecv>) returns (workDone: bool)
      modifies this`incoming, this`dtlsTimes
      ensures incoming == old(incoming) + DtlsPayloads(recvs) && (workDone <==> DtlsPayloads(recvs) != [])
      ensures dtlsTimes == if recvs == [] then old(dtlsTimes) else old(dtlsTimes).(lastRx := recvs[|recvs| - 1].now)
    {
      workDone := false;
      var k := 0;
      while k < |recvs|
        invariant k <= |recvs|
        invariant incoming == old(incoming) + DtlsPayloads(recvs[..k]) && (workDone <==> DtlsPayloads(recvs[..k]) != [])
        invariant dtlsTimes == if k == 0 then old(dtlsTimes) else old(dtlsTimes).(lastRx := recvs[k - 1].now)
      {
        assert recvs[..k + 1][..k] == recvs[..k];
        dtlsTimes := dtlsTimes.(lastRx := recvs[k].now);
        if recvs[k].type_ == AC_PKT_DATA {
          incoming, workDone := incoming + [recvs[k].payload], true;
        }
        k := k + 1;
      }
      assert recvs[..k] == recvs;
    }

    /**
     The DTLS loop: go on with a handshake, try again after a pause, or, when connected, receive, look after the timers
     and send what is queued. Nothing is taken from the queue unless DTLS is connected, and then from its front.
     */
    method DtlsMainloop(t: DtlsTurn, timeout: int) returns (ret: int, timeout': int, ghost sent: nat, ghost lost: bool)
      requires Valid() && dtlsState != Disabled
      modifies this`incoming, this`outgoing, this`outgoingQlen, this`places, this`dtlsState, this`dtlsSsl, this`dtlsFd,
               this`dtlsWriteMonitored, this`dtlsTimes, this`newDtlsStarted, this`dtlsAttemptPeriod, this`everConnected
      ensures Valid() && dtlsState != Disabled && (old(everConnected) ==> everConnected)
      ensures sent <= |old(places).queue|
      ensures lost ==> sent < |old(places).queue|
      ensures Later(old(places), places)
      ensures places == if lost then DropDtls(SendMany(old(places), sent)) else SendMany(old(places), sent)
      ensures !DtlsDrains(old(dtlsState)) ==> sent == 0 && !lost && incoming == old(incoming) && ret == 0
      ensures old(dtlsState) == Connecting ==> dtlsState == HandshakeState(t.hs, old(newDtlsStarted)) && timeout' == timeout
      ensures old(dtlsState) == Sleeping ==>
        var due := old(newDtlsStarted) + old(dtlsAttemptPeriod);
        if t.now >= due then dtlsState == (if t.socket.Opened? then HandshakeState(t.socket.hs, t.socket.now) else Sleeping)
        else dtlsState == Sleeping && timeout' == Cut(timeout, t.now, Some(due))
      ensures old(dtlsState) == Connected ==> incoming == old(incoming) + DtlsPayloads(t.recvs)
    {
      hide Valid, DtlsValid, DtlsOk, SendMany, DropDtls, DtlsPayloads, Later;
      SendManyLater(places, 0);
      ret, timeout', sent, lost := 0, timeout, 0, false;
      SendNone(places);
      DtlsPart();
      if dtlsState == Connecting {
        var _ := DtlsTryHandshake(t.hs);
      } else if dtlsState == Sleeping {
        var when := newDtlsStarted + dtlsAttemptPeriod - t.now;
        if when <= 0 {
          var _ := ConnectDtlsSocket(t.socket);
        } else if when * 1000 < timeout {
          timeout' := when * 1000;
        }
      } else {
        var workDone := ReceiveOverDtls(t.recvs);
        ghost var a, checked;
        ret, timeout', sent, lost, a, checked := ServeConnected(t, timeout, workDone);
        SendManyLater(old(places), sent);
      }
    }

    lemma DtlsPart()
      requires Valid()
      ensures DtlsValid() && dtlsState != NoSecret && (!dtlsSsl ==> dtlsFd == -1)
      ensures (dtlsFd != -1 <==> dtlsState in {Connecting, Connected}) && (dtlsState == Connected ==> everConnected)
    {}

    /** What a connected DTLS does after receiving: timers, then the queue. */
    method ServeConnected(t: DtlsTurn, timeout: int, received: bool)
      returns (ret: int, timeout': int, ghost sent: nat, ghost lost: bool, ghost a: Action, ghost checked: Times)
      requires Valid() && dtlsState == Connected
      modifies this`outgoing, this`outgoingQlen, this`places, this`dtlsState, this`dtlsSsl, this`dtlsFd,
               this`dtlsWriteMonitored, this`dtlsTimes, this`newDtlsStarted, this`dtlsAttemptPeriod, this`everConnected
      ensures Valid() && dtlsState != Disabled && (old(everConnected) ==> everConnected)
      ensures sent <= |old(places).queue| && (lost ==> sent < |old(places).queue|)
      ensures places == if lost then DropDtls(SendMany(old(places), sent)) else SendMany(old(places), sent)
      ensures PeriodicCheck(old(dtlsTimes), t.kaNow, timeout, a, checked, timeout')
      ensures if a in {KaRekey, KaDpdDead} then sent == 0 && !lost
              else sent == |old(places).queue| || !t.sends(sent).Sent?
      ensures lost ==> t.sends(sent).WantRead?
      ensures a == KaDpdDead ==> dtlsState == if t.socket.Opened? then HandshakeState(t.socket.hs, t.socket.now) else Sleeping
    {
      hide Valid, DtlsValid, DtlsOk, SendMany, DropDtls, PeriodicCheck;
      ret, sent, lost := 1, 0, false;
      SendNone(places);
      DtlsPart();
      var workDone, action := received, KaNone;
      action, dtlsTimes, timeout' := KeepaliveAction(dtlsTimes, t.kaNow, timeout);
      a, checked := action, dtlsTimes;
      if action == KaRekey {
        ret := DtlsRekey(t);
        return;
      }
      if action == KaDpdDead {
        var _ := DtlsReconnect(t.socket);
        return;
      }
      if action == KaDpd {
        dtlsTimes := dtlsTimes.(lastTx := dtlsTimes.lastDpd);
        workDone := true;
      } else if action == KaKeepalive && outgoing == [] {
        dtlsTimes := dtlsTimes.(lastTx := t.txNow);
        workDone := true;
      }
      ghost var stop;
      var failed;
      failed, sent, stop := DrainOverDtls(t.sends, t.socket);
      lost := stop == Some(WantRead);
      ret := if workDone || failed then 1 else 0;
    }

    method DtlsRekey(t: DtlsTurn) returns (ret: int)
      requires Valid() && dtlsState == Connected
      modifies this`dtlsState, this`dtlsSsl, this`dtlsFd, this`dtlsWriteMonitored, this`dtlsTimes, this`newDtlsStarted,
               this`dtlsAttemptPeriod, this`everConnected
      ensures Valid() && everConnected && dtlsState != Disabled
      ensures var again := HandshakeState(t.hs, t.now);
        if old(dtlsTimes).rekeyMethod != RekeySsl then dtlsState == Connected && ret == 1
        else if again != Sleeping then dtlsState == again && ret == 1
        else
          && dtlsState == (if t.socket.Opened? then HandshakeState(t.socket.hs, t.socket.now) else Sleeping)
          && ret == if dtlsState == Sleeping then -22 else 0
    {
      hide PlacesOk, CodecOk, WritesOk, CountOk, HistoryOk, SentOk, WireOk;
      if dtlsTimes.rekeyMethod == RekeySsl {
        newDtlsStarted, dtlsState := t.now, Connecting;
        ret := DtlsTryHandshake(t.hs);
        if ret != 0 {
          ret := ConnectDtlsSocket(t.socket);
          return;
        }
      }
      return 1;
    }

    lemma QueueAgrees()
      requires Valid()
      ensures places.queue == outgoing && Good(places)
    {}

    lemma NoneLeft(p: Places, k: nat)
      requires k <= |p.queue| && SendMany(p, k).queue == []
      ensures k == |p.queue|
    {}

    lemma ManyLeft(p: Places, k: nat)
      requires Valid() && k <= |p.queue| && places == SendMany(p, k) && outgoing != []
      ensures k < |p.queue|
    {}

    // ---------- The CSTP loop ----------

    /**
     Rekey or reconnect. A rekey inside the TLS session keeps the connection and its current packet; anything else makes a
     new connection. Then DTLS follows, unless it is off or rekeys itself.
     */
    method Recover(next: Next, r: Reconnect) returns (ret: int, finished: bool)
      requires Valid() && next in {DoRekey, DoReconnect} && (next == DoRekey ==> sslTimes.Rekeys())
      modifies this`sslOpen, this`current, this`outgoing, this`pendingDeflated, this`places, this`tlsLog,
               this`deflate, this`deflateAllocated, this`codecReady, this`deflateAdler, this`inflateAdler, this`packed,
               this`sslTimes, this`dtlsAttemptPeriod,
               this`gotCancel, this`gotPause, this`cancelType, this`crashed,
               this`quit, this`dtlsState, this`dtlsSsl, this`dtlsFd, this`dtlsWriteMonitored, this`dtlsTimes, this`newDtlsStarted,
               this`everConnected
      ensures Valid() && (old(everConnected) ==> everConnected) && (dtlsState == Disabled <==> old(dtlsState) == Disabled)
      ensures places == old(places) || (old(current) == DeflatePkt && places == Requeue(old(places)))
      ensures old(deflateAllocated) ==> deflateAllocated && crashed == old(crashed)
      ensures !finished || crashed == old(crashed)
      ensures next == DoRekey && old(sslTimes).rekeyMethod == RekeySsl && r.handshakeOk ==>
        && sslOpen == old(sslOpen) && current == old(current) && places == old(places) && tlsLog == old(tlsLog)
        && quit == old(quit) && finished
      ensures (quit <==> old(quit) || (finished && ret != 1)) && (!finished ==> ret == 0)
      ensures finished && ret == 1 && !(next == DoRekey && old(sslTimes).rekeyMethod == RekeySsl && r.handshakeOk) ==>
        (sslOpen || gotPause) && current != DeflatePkt
      ensures finished && ret == 1 && old(dtlsState) != Disabled && old(dtlsTimes).rekeyMethod == RekeyNone ==>
        dtlsState == if r.socket.Opened? then HandshakeState(r.socket.hs, r.socket.now) else Sleeping
      ensures reconnectInterval >= 1 && |r.attempts| > Max(0, reconnectTimeout) ==> finished || crashed
    {
      hide Valid, DtlsValid, DtlsOk, Requeue, Carried, HandshakeState, RequeueSafe;
      ret, finished := 0, true;
      if !(next == DoRekey && sslTimes.rekeyMethod == RekeySsl && r.handshakeOk) {
        ret, finished := Renew(r.attempts);
      }
      if finished && ret == 0 {
        FollowWithDtls(r.socket);
        ret := 1;
      }
    }

    /** Reconnect; the session ends if that fails. */
    method Renew(attempts: seq<Attempt>) returns (ret: int, finished: bool)
      requires Valid()
      modifies this`sslOpen, this`current, this`outgoing, this`pendingDeflated, this`places, this`tlsLog,
               this`deflate, this`deflateAllocated, this`codecReady, this`deflateAdler, this`inflateAdler, this`packed,
               this`sslTimes, this`dtlsAttemptPeriod, this`gotCancel, this`gotPause, this`cancelType, this`crashed, this`quit
      ensures Valid() && ret <= 0 && (quit <==> old(quit) || ret != 0) && (!finished ==> ret == 0)
      ensures places == old(places) || (old(current) == DeflatePkt && places == Requeue(old(places)))
      ensures old(deflateAllocated) ==> deflateAllocated && crashed == old(crashed)
      ensures finished ==> crashed == old(crashed)
      ensures ret == 0 && finished ==> (sslOpen || gotPause) && current != DeflatePkt
      ensures reconnectInterval >= 1 && |attempts| > Max(0, reconnectTimeout) ==> finished || crashed
    {
      hide Valid, Requeue, Carried;
      var ending;
      ret, ending := CstpReconnect(attempts);
      finished := ending != CutOff && ending != NullPacket;
      if ret != 0 {
        quit := true;
      }
    }

    /** A new DTLS connection, unless DTLS is off or rekeys itself. */
    method FollowWithDtls(s: Socket)
      requires Valid()
      modifies this`dtlsState, this`dtlsSsl, this`dtlsFd, this`dtlsWriteMonitored, this`dtlsTimes, this`newDtlsStarted,
               this`dtlsAttemptPeriod, this`everConnected
      ensures Valid() && (old(everConnected) ==> everConnected) && (dtlsState == Disabled <==> old(dtlsState) == Disabled)
      ensures old(dtlsState) != Disabled && old(dtlsTimes).rekeyMethod == RekeyNone ==>
        dtlsState == if s.Opened? then HandshakeState(s.hs, s.now) else Sleeping
    {
      hide Valid, DtlsValid, DtlsOk;
      DtlsPart();
      if dtlsState != Disabled && dtlsTimes.rekeyMethod == RekeyNone {
        var _ := DtlsReconnect(s);
      }
    }

    /**
     The CSTP loop: receive, write what is pending, and reconnect when that is called for. A stalled or unfinished packet stays
     current. `used` counts the writes; `finished` tells that the answers did not run out.
     */
    method CstpMainloop(t: CstpTurn, timeout: int) returns (ret: int, timeout': int, used: nat, finished: bool, ghost read: nat)
      requires Valid()
      modifies this`sslOpen, this`current, this`outgoing, this`outgoingQlen, this`pendingDeflated, this`places, this`tlsLog, this`deflate,
               this`deflateAllocated, this`codecReady, this`inflateAdler, this`packed, this`everCompressed, this`crashed,
               this`deflateFrame, this`deflateAdler, this`sslTimes, this`dtlsAttemptPeriod, this`gotCancel,
               this`gotPause, this`cancelType, this`quit, this`dtlsState, this`dtlsSsl, this`dtlsFd, this`dtlsWriteMonitored, this`dtlsTimes,
               this`newDtlsStarted, this`everConnected, this`oweSslDpdResponse, this`incoming, this`sslWriteMonitored
      ensures Valid() && (old(everConnected) ==> everConnected) && (dtlsState == Disabled <==> old(dtlsState) == Disabled)
      ensures (old(quit) ==> quit) && (ret < 0 ==> quit)
      ensures old(deflateAllocated) ==> deflateAllocated && crashed == old(crashed)
      ensures old(sslOpen) && read < |t.frames| && Farewell(t.frames[read]).Leave? ==> finished && ret == Farewell(t.frames[read]).ret
      ensures Later(old(places), places) && places.accepted == old(places).accepted && places.dropped == old(places).dropped
      ensures read <= |t.frames| && incoming == old(incoming) + Payloads(t.frames[..read])
      ensures if old(sslOpen) then (forall i :: 0 <= i < read ==> !Ends(t.frames[i], old(deflate)))
                                && (read < |t.frames| ==> Ends(t.frames[read], old(deflate)))
              else used == 0 && read == 0
      ensures old(TimersSane()) && FixedClock(t.trips, t.kaNow) ==>
        && used <= |old(outgoing)| + 3
        && (|t.trips| >= |old(outgoing)| + 3 && reconnectInterval >= 1 && |t.reconnect.attempts| > Max(0, reconnectTimeout)
            ==> finished || crashed)
    {
      hide Valid, FixedClock, Ends, Payloads, Carried, HandshakeState, IsType;
      var next, workDone := DoReconnect, false;
      used, timeout', read := 0, timeout, 0;
      NothingRead(0, 0);
      assert t.frames[..0] == [];
      if sslOpen {
        next, timeout', workDone, used, read := ServeTls(t, timeout);
      }
      if next == DoRekey || next == DoReconnect {
        ret, finished := Recover(next, t.reconnect);
      } else {
        ret := if next.Leave? && next.ret != 0 then next.ret else if workDone then 1 else 0;
        finished := next != Armed;
      }
    }

    /** Receive and, unless that ended something, write. */
    method ServeTls(t: CstpTurn, timeout: int) returns (next: Next, timeout': int, workDone: bool, used: nat, ghost read: nat)
      requires Valid()
      modifies this`current, this`outgoing, this`outgoingQlen, this`pendingDeflated, this`places, this`tlsLog, this`inflateAdler,
               this`packed, this`everCompressed, this`deflateFrame, this`deflateAdler, this`sslTimes, this`quit,
               this`oweSslDpdResponse, this`incoming, this`sslWriteMonitored
      ensures Valid() && next != Proceed && (old(quit) ==> quit) && (next == DoRekey ==> sslTimes.Rekeys())
      ensures next.Leave? && next.ret < 0 ==> quit
      ensures Later(old(places), places) && places == old(places).(queue := places.queue, flight := places.flight, completed := places.completed)
      ensures read <= |t.frames| && incoming == old(incoming) + Payloads(t.frames[..read])
      ensures (forall i :: 0 <= i < read ==> !Ends(t.frames[i], deflate)) && (read < |t.frames| ==> Ends(t.frames[read], deflate))
      ensures read < |t.frames| ==> next == Farewell(t.frames[read])
      ensures old(TimersSane()) && FixedClock(t.trips, t.kaNow) ==>
        used <= |old(outgoing)| + 3 && (|t.trips| >= |old(outgoing)| + 3 ==> next != Armed)
    {
      hide Valid, FixedClock, Backlog, Ends, Payloads, AsksForResponse, SumFailed, LastRx, InflateSum, IsType, Carried, Restless;
      timeout', used := timeout, 0;
      SameIsLater(places);
      var n;
      workDone, next, n := ReadIncoming(t.frames);
      read := n;
      SaneIsNotRestless(t.kaNow);
      if next == Proceed {
        NoFarewell(t.frames, n);
        next, timeout', used := WriteOutgoing(t.kaNow, t.z, t.trips, timeout);
      }
    }

    lemma NoFarewell(frames: seq<SslRead>, n: nat)
      requires n <= |frames| && (n < |frames| ==> Farewell(frames[n]) == Proceed)
      ensures n == |frames|
    {}

    // ---------- The main loop ----------

    /** Close everything and wait to be called again. */
    method Rest()
      requires Valid()
      modifies this`sslOpen, this`gotPause, this`dtlsState, this`dtlsSsl, this`dtlsFd, this`dtlsWriteMonitored, this`newDtlsStarted
      ensures Valid() && !sslOpen && !gotPause
      ensures dtlsState == if old(dtlsState) == Disabled then Disabled else Sleeping
      ensures dtlsState == Sleeping ==> newDtlsStarted == 0
    {
      hide PlacesOk, CodecOk, WritesOk, CountOk, SentOk, WireOk, HistoryOk;
      sslOpen := false;
      if dtlsState != Disabled {
        DtlsClose();
        dtlsState, newDtlsStarted := Sleeping, 0;
      }
      gotPause := false;
    }

    method CstpBye()
      requires Valid()
      modifies this`tlsLog
      ensures Valid() && tlsLog == if sslOpen then old(tlsLog) + [Bye] else old(tlsLog)
    {
      hide RetryOk, SentOverTls, Requeues, Frame, PlacesOk, CodecOk, CountOk, HistoryOk, DtlsValid, Carried, CurrentFrame;
      if sslOpen {
        RetryBye(tlsLog, Carried(), CurrentFrame());
        LogStep(tlsLog, Bye);
        tlsLog := tlsLog + [Bye];
      }
    }

    /**
     The main loop, one turn for each call of select: DTLS, CSTP and the tun device in this order, then the user's commands.
     Whatever happens in a turn the tunnel stays valid, so that every accepted packet is still in its one place; the loop
     may end by a pause and be called again.
     */
    method Mainloop(turns: seq<Turn>) returns (ret: int, ended: bool, ghost why: Stop)
      requires Valid()
      modifies this
      ensures Valid() && Later(old(places), places)
      ensures old(deflateAllocated) && !old(crashed) ==> !crashed
      ensures ended <==> why != Running
      ensures ended ==> ret == match why
        case ByPause => 0
        case ByCancel => -4
        case ByDetach => -103
        case BySession(code) => if code < 0 then code else -5
        case Running => 0
      ensures why == ByPause ==> !sslOpen && dtlsState in {Disabled, Sleeping}
      ensures (why == ByCancel ==> gotCancel && cancelType == Cancel && quit) && (why == ByDetach ==> gotCancel && cancelType != Cancel)
      ensures why.BySession? ==> quit
      ensures ended && quit && sslOpen ==> tlsLog != [] && tlsLog[|tlsLog| - 1] == Bye
    {
      hide Valid, Later, DtlsValid, DtlsOk;
      ret, ended, why := 0, false, Running;
      SameIsLater(places);
      var i := 0;
      while i < |turns| && !quit && !ended && !crashed
        invariant Valid() && Later(old(places), places)
        invariant old(deflateAllocated) && !old(crashed) ==> deflateAllocated && !crashed
        invariant (ended <==> why != Running) && (ended ==> !crashed)
        invariant why in {Running, ByCancel, ByDetach}
        invariant why == ByCancel ==> ret == EINTR && gotCancel && cancelType == Cancel && quit
        invariant why == ByDetach ==> ret == ECONNABORTED && gotCancel && cancelType != Cancel && !quit
      {
        var t := turns[i];
        ghost var before := places;
        ret := OneTurn(t);
        LaterTransitive(old(places), before, places);
        if !quit && !crashed {
          PollCommand(t.command);
          if gotCancel {
            ended, quit := true, cancelType == Cancel;
            why := if quit then ByCancel else ByDetach;
            ret := if quit then EINTR else ECONNABORTED;
          } else if gotPause {
            Rest();
            return 0, true, ByPause;
          }
        }
        i := i + 1;
      }
      if quit && !ended && !crashed {
        ended, why := true, BySession(ret);
      }
      if quit && !crashed {
        CstpBye();
      }
      if ended && ret >= 0 {
        ret := EIO;
      }
    }

    /** DTLS, CSTP and the tun device, unless the session ends in between. */
    method OneTurn(t: Turn) returns (ret: int)
      requires Valid() && !quit && !crashed
      modifies this
      ensures Valid() && Later(old(places), places) && (ret < 0 ==> quit)
      ensures old(deflateAllocated) ==> deflateAllocated && !crashed
      ensures !quit && !crashed ==> (tunReadMonitored <==> outgoingQlen < maxQlen)
      ensures !quit && !crashed ==>
        exists n :: 0 <= n <= |t.arrivals| && Contents(places.accepted) == Contents(old(places).accepted) + t.arrivals[..n]
      ensures quit || crashed ==> places.accepted == old(places).accepted && tunReadMonitored == old(tunReadMonitored)
    {
      hide Valid, DtlsValid, DtlsOk, Later, Contents, HandshakeState;
      var timeout := INT_MAX;
      ghost var p0 := places;
      if dtlsState != Disabled {
        ghost var sent, lost;
        ret, timeout, sent, lost := DtlsMainloop(t.dtls, timeout);
      }
      ghost var p1 := places;
      var used, finished;
      ghost var read;
      ret, timeout, used, finished, read := CstpMainloop(t.cstp, timeout);
      LaterTransitive(p0, p1, places);
      if !quit && !crashed {
        ghost var p2 := places;
        QueueLength();
        ghost var n := if tunReadMonitored then Min(|t.arrivals|, maxQlen - outgoingQlen) else 0;
        var worked := TunMainloop(t.arrivals, t.writable);
        AcceptedContents(p2, places, t.arrivals[..n]);
        LaterTransitive(p0, p2, places);
      }
    }
  }

  // ---------- Runs that show where the guarantees end ----------

  /** No timer is in use. */
  const NO_TIMERS := Times(0, 0, 0, RekeyNone, 0, 0, 0, 0)

  /** With a period of one second the same probe is due again as soon as it is sent: every list of trips is used up. */
  method ProbesForEver(n: nat) returns (v: Vpn, next: Next, used: nat)
    ensures next == Armed && used == n
  {
    hide Vpn.Valid, Good, Frame, RetryOk;
    v := new Vpn(10, false, false, false, NO_TIMERS.(dpd := 1), NO_TIMERS, 0, 0);
    var timeout;
    next, timeout, used := v.WriteOutgoing(1, None, seq(n, _ => Trip(1, 1, 1, WrittenAll, None)), INT_MAX);
  }

  /** So it is with a keepalive of minus one. */
  method KeepalivesForEver(n: nat) returns (v: Vpn, next: Next, used: nat)
    ensures next == Armed && used == n
  {
    hide Vpn.Valid, Good, Frame, RetryOk;
    v := new Vpn(10, false, false, false, NO_TIMERS.(keepalive := -1), NO_TIMERS, 0, 0);
    var timeout;
    next, timeout, used := v.WriteOutgoing(1, None, seq(n, _ => Trip(1, 1, 1, WrittenAll, None)), INT_MAX);
  }

  /** A server that turns on compression nobody asked for: the next reconnection, with nothing in flight, queues a null packet. */
  method UnaskedCompression() returns (v: Vpn, ending: Ending)
    ensures ending == NullPacket && v.crashed
  {
    hide Vpn.Valid, Good, Frame, RetryOk;
    v := new Vpn(10, false, false, true, NO_TIMERS, NO_TIMERS, 0, 0);
    var ret;
    ret, ending := v.CstpReconnect([]);
  }

  /** A server's probe among the reads is answered by the next frame that is written. */
  method ProbeIsAnswered(v: Vpn, frames: seq<SslRead>, k: nat, trip: Trip, timeout: int)
    requires v.Valid() && v.current == NoPkt
    requires k < |frames| && frames[k].FrameRead? && frames[k].buf == [83, 84, 70, 1, 0, 0, 3, 0]
    requires forall i :: 0 <= i < k ==> !Ends(frames[i], v.deflate)
    modifies v
    ensures v.Valid() && |v.tlsLog| == |old(v.tlsLog)| + 1 && v.tlsLog[..|old(v.tlsLog)|] == old(v.tlsLog)
    ensures var e := v.tlsLog[|old(v.tlsLog)|]; e.TlsWrite? && e.carries == None && e.frame == [83, 84, 70, 1, 0, 0, 4, 0]
  {
    hide Vpn.Valid, Ends, IsType, Vpn.CurrentFrame, Vpn.Carried, StalledCheck, PeriodicCheck, Vpn.Restless, Vpn.Pending, Vpn.Backlog,
         Vpn.Framed, Payloads, SumFailed, BringsWork, InflateSum, LastRx, Farewell, Arrived, Dequeue, Complete;
    TypedRead(frames[k], v.deflate);
    var workDone, next, n := v.ReadIncoming(frames);
    assert n > k && IsType(frames[..n][k], AC_PKT_DPD_OUT);
    ghost var a;
    var timeout';
    next, timeout', a := v.NextOutgoing(trip.kaNow, trip.z, timeout);
    v.CurrentOctets();
    next, timeout', a := v.HandleOutgoing(trip, timeout');
  }

  /** The goodbye can follow a frame that stalled. */
  method GoodbyeAfterStall() returns (v: Vpn)
    ensures |v.tlsLog| == 2 && Unsent(v.tlsLog[0]) && v.tlsLog[1] == Bye
  {
    hide Vpn.Valid, Good, Frame, RetryOk;
    v := new Vpn(10, false, false, false, NO_TIMERS, NO_TIMERS, 0, 0);
    var worked := v.TunMainloop([[0]], 0);
    v.QueueLength();
    v.TakeForTls(None);
    ghost var a;
    var next, timeout;
    next, timeout, a := v.HandleOutgoing(Trip(0, 0, 0, WouldBlock(true), None), INT_MAX);
    v.CstpBye();
  }

  /** A tunnel with room for one packet, which has been taken and compressed. */
  method OnePacketTaken() returns (v: Vpn)
    ensures fresh(v) && v.Valid() && v.maxQlen == 1 && v.outgoingQlen == 0 && !v.tunReadMonitored && v.current == DeflatePkt
  {
    hide Vpn.Valid, Good, Frame, RetryOk, AcceptedFrom, Adler32, Be32, Vpn.CurrentFrame, Dequeue, Later, Vpn.Carried, Requeues;
    v := new Vpn(1, true, true, true, NO_TIMERS, NO_TIMERS, 0, 0);
    var worked := v.TunMainloop([[0]], 0);
    v.QueueLength();
    v.TakeForTls(Some([]));
  }

  /** A requeued packet does not count, so the queue can hold more than its limit. */
  method QueueBeyondItsLimit() returns (v: Vpn)
    ensures v.Valid() && |v.outgoing| > v.maxQlen
  {
    hide Vpn.Valid, Good, Frame, RetryOk, AcceptedFrom, Vpn.CurrentFrame, Requeue, Later, Vpn.Carried, Requeues;
    v := OnePacketTaken();
    var worked := v.TunMainloop([], 0);
    worked := v.TunMainloop([[1]], 0);
    v.QueueLength();
    v.RequeueDeflated();
  }

  /** `q` is `p` after accepting packets with the given contents, in order. */
  ghost predicate AcceptedFrom(p: Places, q: Places, data: seq<seq<byte>>)
  {
    && |q.accepted| == |p.accepted| + |data| && |q.queue| == |p.queue| + |data|
    && q.accepted[..|p.accepted|] == p.accepted && q.queue[..|p.queue|] == p.queue
    && q.accepted[|p.accepted|..] == q.queue[|p.queue|..]
    && (forall i :: 0 <= i < |data| ==> q.accepted[|p.accepted| + i].data == data[i])
    && q == p.(accepted := q.accepted, queue := q.queue)
  }

  lemma AcceptedLater(p: Places, q: Places)
    requires exists data :: AcceptedFrom(p, q, data)
    ensures Later(p, q)
  {}

  lemma AcceptedContents(p: Places, q: Places, data: seq<seq<byte>>)
    requires AcceptedFrom(p, q, data)
    ensures Contents(q.accepted) == Contents(p.accepted) + data
  {
    var m := |p.accepted|;
    forall i | 0 <= i < |q.accepted| ensures Contents(q.accepted)[i] == (Contents(p.accepted) + data)[i] {
      if i < m {
        assert q.accepted[..m][i] == p.accepted[i];
      } else {
        assert q.accepted[m + (i - m)].data == data[i - m];
      }
    }
  }

  lemma AcceptedNothing(p: Places)
    ensures AcceptedFrom(p, p, [])
  {}

  lemma AcceptedOne(p: Places, q: Places, data: seq<seq<byte>>, d: seq<byte>)
    requires AcceptedFrom(p, q, data)
    ensures AcceptedFrom(p, Accept(q, d), data + [d])
  {
    var x := Packet(|q.accepted|, d);
    assert (q.accepted + [x])[|p.accepted|..] == q.accepted[|p.accepted|..] + [x];
    assert (q.queue + [x])[|p.queue|..] == q.queue[|p.queue|..] + [x];
  }
}
