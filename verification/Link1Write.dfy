/**
 The link1 transfer from the host (master) to the device (slave): one packet at a time, each
 acknowledged. Host and device run side by side and read the two byte streams in any chunks.
 */
module Link1Write {
  import opened Common
  import opened Link1

  const ACK: bv8 := 0x06
  const NACK: bv8 := 0x53

  datatype HostResult = Wrote(n: nat) | Refused(ack: bv8) | BadAck

  datatype DeviceResult = Delivered(n: nat) | CallbackFailed | Malformed

  /** About to send a packet, waiting for the two acknowledge bytes, or done. */
  datatype Host = Sending | Waiting(got: seq<bv8>) | HostDone(result: HostResult)

  /** Waiting for a start byte, reading what follows one, or done. */
  datatype Device = AwaitStart | AwaitPacket(got: seq<bv8>) | DeviceDone(result: DeviceResult)

  /** The host's data, and which packets the device's callback takes. */
  datatype Transfer = Transfer(data: seq<bv8>, accept: (nat, seq<bv8>) -> bool)

  /** `bytes` and `packets` count what the host knows delivered; `delivered` is what the callback has taken. */
  datatype System = System(host: Host, device: Device, bytes: nat, packets: nat, delivered: seq<bv8>,
                           toDevice: seq<bv8>, toHost: seq<bv8>)

  datatype Event = HostSend | HostRead(k: nat) | DeviceRead(k: nat)

  /** The payload of the packet at `bytes`. */
  function Chunk(t: Transfer, bytes: nat): (c: seq<bv8>)
    requires bytes <= |t.data|
    ensures |c| <= DATA_SIZE && bytes + |c| <= |t.data|
  {
    t.data[bytes..bytes + Min(DATA_SIZE, |t.data| - bytes)]
  }

  /** Another packet follows one of `size` bytes that brings the total to `bytes`. */
  predicate More(t: Transfer, bytes: nat, size: nat)
  {
    bytes < |t.data| && size == DATA_SIZE
  }

  /** What a read of the device may still ask for. */
  function PageSize(got: seq<bv8>): int
  {
    if got == [] then 1 else SizeOf(got) - |got| + HEADER_SIZE - 1
  }

  predicate Enabled(t: Transfer, s: System, e: Event)
  {
    match e
    case HostSend => s.host.Sending? && s.bytes <= |t.data|
    case HostRead(k) => s.host.Waiting? && s.bytes <= |t.data| && 1 <= k <= 2 - |s.host.got| && k <= |s.toHost|
    case DeviceRead(k) =>
      match s.device
      case AwaitStart => k == 1 <= |s.toDevice|
      case AwaitPacket(got) => 1 <= k <= PageSize(got) && k <= |s.toDevice|
      case DeviceDone(_) => false
  }

  /** `wait_ack` complete: the checksum, then the verdict. */
  function HostGotAck(t: Transfer, s: System, ack: seq<bv8>): System
    requires |ack| == 2 && s.bytes <= |t.data|
  {
    var c := Chunk(t, s.bytes);
    if ack[1] != Checksum(c) then s.(host := HostDone(BadAck))
    else if ack[0] != ACK then s.(host := HostDone(Refused(ack[0])))
    else
      var bytes := s.bytes + |c|;
      s.(bytes := bytes, packets := s.packets + 1,
         host := if More(t, bytes, |c|) then Sending else HostDone(Wrote(bytes)))
  }

  /** The device gives up on a packet: a negative acknowledge, and the stream flushed. */
  function Reject(s: System, checksum: bv8): System
  {
    s.(device := DeviceDone(Malformed), toDevice := [], toHost := s.toHost + [NACK, checksum])
  }

  /** A complete packet at the device: checksum, callback, acknowledge. */
  function DeviceGotPacket(t: Transfer, s: System, got: seq<bv8>): System
    requires got != [] && |got| == SizeOf(got) + 2 && SizeOf(got) <= DATA_SIZE
  {
    var payload, checksum := got[1..|got| - 1], got[|got| - 1];
    if checksum != Checksum(payload) then Reject(s, checksum)
    else if !t.accept(s.packets, payload) then
      s.(device := DeviceDone(CallbackFailed), toHost := s.toHost + [NACK, checksum])
    else
      var delivered := s.delivered + payload;
      s.(delivered := delivered, toHost := s.toHost + [ACK, checksum],
         device := if More(t, |delivered|, |payload|) then AwaitStart else DeviceDone(Delivered(|delivered|)))
  }

  function Step(t: Transfer, s: System, e: Event): System
    requires Enabled(t, s, e)
  {
    match e
    case HostSend => s.(host := Waiting([]), toDevice := s.toDevice + Encode(Chunk(t, s.bytes)))
    case HostRead(k) =>
      var ack := s.host.got + s.toHost[..k];
      var s1 := s.(toHost := s.toHost[k..], host := Waiting(ack));
      if |ack| == 2 then HostGotAck(t, s1, ack) else s1
    case DeviceRead(k) =>
      var s1 := s.(toDevice := s.toDevice[k..]);
      if s.device.AwaitStart? then
        if s.toDevice[0] != START then Reject(s1, 0) else s1.(device := AwaitPacket([]))
      else
        var got := s.device.got + s.toDevice[..k];
        if SizeOf(got) > DATA_SIZE then Reject(s1, 0)
        else if |got| >= SizeOf(got) + HEADER_SIZE - 1 then DeviceGotPacket(t, s1, got)
        else s1.(device := AwaitPacket(got))
  }

  // ---- what every step keeps ----

  /** The packet is on its way to the device, which has read part of it. */
  ghost predicate InFlight(t: Transfer, s: System)
    requires s.bytes <= |t.data|
  {
    var c := Chunk(t, s.bytes);
    && s.host == Waiting([]) && s.toHost == [] && s.delivered == t.data[..s.bytes]
    && match s.device
       case AwaitStart => s.toDevice == Encode(c)
       case AwaitPacket(got) => got + s.toDevice == Body(c) && |got| < |c| + 2
       case DeviceDone(_) => false
  }

  /** The device has taken the packet and its acknowledge is on the way back. */
  ghost predicate Acked(t: Transfer, s: System)
    requires s.bytes <= |t.data|
  {
    var c := Chunk(t, s.bytes);
    && s.host.Waiting? && |s.host.got| < 2 && s.host.got + s.toHost == [ACK, Checksum(c)]
    && s.toDevice == [] && s.delivered == t.data[..s.bytes + |c|] && t.accept(s.packets, c)
    && s.device == if More(t, s.bytes + |c|, |c|) then AwaitStart else DeviceDone(Delivered(s.bytes + |c|))
  }

  /** The callback has refused the packet. */
  ghost predicate Nacked(t: Transfer, s: System)
    requires s.bytes <= |t.data|
  {
    var c := Chunk(t, s.bytes);
    && s.host.Waiting? && |s.host.got| < 2 && s.host.got + s.toHost == [NACK, Checksum(c)]
    && s.toDevice == [] && s.delivered == t.data[..s.bytes] && !t.accept(s.packets, c)
    && s.device == DeviceDone(CallbackFailed)
  }

  /** Between packets, or finished: both streams are empty and both ends agree. */
  ghost predicate Quiet(t: Transfer, s: System)
    requires s.bytes <= |t.data|
  {
    && s.toDevice == [] && s.toHost == [] && s.delivered == t.data[..s.bytes]
    && match s.host
       case Sending => s.device == AwaitStart
       case Waiting(_) => false
       case HostDone(Wrote(n)) => n == s.bytes == |t.data| && s.device == DeviceDone(Delivered(n))
       case HostDone(Refused(ack)) =>
         ack == NACK && s.device == DeviceDone(CallbackFailed) && !t.accept(s.packets, Chunk(t, s.bytes))
       case HostDone(BadAck) => false
  }

  /** Whether packet `i` is part of the transfer: there is always a first one, even with no data. */
  predicate HasPacket(t: Transfer, i: nat)
  {
    i == 0 || i * DATA_SIZE < |t.data|
  }

  /** The callback takes packet `i`. */
  predicate Takes(t: Transfer, i: nat)
    requires HasPacket(t, i)
  {
    t.accept(i, Chunk(t, i * DATA_SIZE))
  }

  /** The callback takes the first `packets` packets. */
  ghost predicate TakesFirst(t: Transfer, packets: nat)
  {
    forall i: nat :: i < packets ==> HasPacket(t, i) && Takes(t, i)
  }

  ghost predicate Inv(t: Transfer, s: System)
  {
    && s.bytes <= |t.data|
    && (Quiet(t, s) || InFlight(t, s) || Acked(t, s) || Nacked(t, s))
    && TakesFirst(t, s.packets)
    && if s.host.HostDone? && s.host.result.Wrote? then |t.data| <= s.packets * DATA_SIZE && s.packets > 0
       else s.bytes == s.packets * DATA_SIZE && HasPacket(t, s.packets)
  }

  function Start(): System
  {
    System(Sending, AwaitStart, 0, 0, [], [], [])
  }

  lemma HostSendKeeps(t: Transfer, s: System)
    requires Inv(t, s) && Enabled(t, s, HostSend)
    ensures InFlight(t, Step(t, s, HostSend)) && Inv(t, Step(t, s, HostSend))
  {
  }

  lemma HostTookAck(t: Transfer, s: System)
    requires s.bytes <= |t.data| && s.bytes == s.packets * DATA_SIZE
    requires HasPacket(t, s.packets) && TakesFirst(t, s.packets)
    requires s.host.Waiting? && |s.host.got| == 2 && s.toHost == []
    requires var before := s.(host := Waiting([]), toHost := s.host.got); Acked(t, before) || Nacked(t, before)
    ensures Inv(t, HostGotAck(t, s, s.host.got))
  {
    assert [] + s.host.got == s.host.got;
    if s.host.got[0] == ACK {
      assert Takes(t, s.packets);
    }
  }

  lemma HostReadKeeps(t: Transfer, s: System, k: nat)
    requires Inv(t, s) && Enabled(t, s, HostRead(k))
    ensures Inv(t, Step(t, s, HostRead(k)))
  {
    var all := s.host.got + s.toHost;
    var ack, left := s.host.got + s.toHost[..k], s.toHost[k..];
    assert ack + left == all;
    if |ack| == 2 {
      assert ack == all && left == [] && [] + ack == all;
      HostTookAck(t, s.(toHost := left, host := Waiting(ack)));
    }
  }

  lemma DeviceTookStart(t: Transfer, s: System)
    requires Inv(t, s) && Enabled(t, s, DeviceRead(1)) && s.device.AwaitStart?
    ensures InFlight(t, Step(t, s, DeviceRead(1))) && Inv(t, Step(t, s, DeviceRead(1)))
  {
    var c := Chunk(t, s.bytes);
    assert InFlight(t, s);
    EncodeIsStartAndBody(c);
    assert s.toDevice[1..] == [] + s.toDevice[1..] == Body(c);
  }

  lemma DeviceTookPacket(t: Transfer, s: System, c: seq<bv8>, got: seq<bv8>)
    requires s.bytes <= |t.data| && c == Chunk(t, s.bytes) && got == Body(c) && SizeOf(got) == |c| && |got| == |c| + 2
    requires s.host == Waiting([]) && s.toHost == [] && s.toDevice == [] && s.delivered == t.data[..s.bytes]
    ensures var r := DeviceGotPacket(t, s, got);
      && r.bytes == s.bytes && r.packets == s.packets && r.host == s.host && (Acked(t, r) || Nacked(t, r))
  {
    assert got[1..|got| - 1] == c;
    assert t.data[..s.bytes] + c == t.data[..s.bytes + |c|];
  }

  lemma DeviceReadKeeps(t: Transfer, s: System, k: nat)
    requires Inv(t, s) && Enabled(t, s, DeviceRead(k)) && s.device.AwaitPacket?
    ensures Inv(t, Step(t, s, DeviceRead(k)))
  {
    var c := Chunk(t, s.bytes);
    assert InFlight(t, s);
    var got, left := s.device.got + s.toDevice[..k], s.toDevice[k..];
    assert got + left == s.device.got + s.toDevice == Body(c) + [];
    BodyRead(c, [], got, left);
    if |got| >= SizeOf(got) + HEADER_SIZE - 1 {
      DeviceTookPacket(t, s.(toDevice := left), c, got);
    }
  }

  /** Every step keeps the invariant. */
  lemma StepKeeps(t: Transfer, s: System, e: Event)
    requires Inv(t, s) && Enabled(t, s, e)
    ensures Inv(t, Step(t, s, e))
  {
    match e
    case HostSend => HostSendKeeps(t, s);
    case HostRead(k) => HostReadKeeps(t, s, k);
    case DeviceRead(k) => if s.device.AwaitStart? { DeviceTookStart(t, s); } else { DeviceReadKeeps(t, s, k); }
  }

  // ---- whole runs ----

  /** `events` is a run from `s` that ends in `last`. */
  ghost predicate Run(t: Transfer, s: System, events: seq<Event>, last: System)
    decreases |events|
  {
    if events == [] then last == s
    else Enabled(t, s, events[0]) && Run(t, Step(t, s, events[0]), events[1..], last)
  }

  /**
   However the two ends interleave and the streams are cut up, the device's callback has at every moment
   taken an exact prefix of the host's data, and when the host stops its answer is the truth: `Wrote` means
   all of it was taken, in order and once; `Refused` means that exactly the packets before the refused one
   were. Either way the device has stopped too, nothing is left in either stream, and the acknowledge
   checksum never disagrees.
   */
  lemma {:induction false} RunDelivers(t: Transfer, s: System, events: seq<Event>, last: System)
    requires Inv(t, s) && Run(t, s, events, last)
    ensures Inv(t, last) && last.delivered <= t.data
    ensures last.host.HostDone? ==> last.device.DeviceDone? && last.toDevice == [] && last.toHost == []
    ensures last.host.HostDone? ==>
      match last.host.result
      case Wrote(n) => n == |t.data| && last.delivered == t.data && last.device == DeviceDone(Delivered(n))
      case Refused(ack) =>
        && HasPacket(t, last.packets) && last.packets * DATA_SIZE <= |t.data|
        && ack == NACK && last.device == DeviceDone(CallbackFailed)
        && last.delivered == t.data[..last.packets * DATA_SIZE]
        && !Takes(t, last.packets) && TakesFirst(t, last.packets)
      case BadAck => false
    decreases |events|
  {
    if events == [] {
    } else {
      StepKeeps(t, s, events[0]);
      RunDelivers(t, Step(t, s, events[0]), events[1..], last);
    }
  }

  /** Until the host stops, someone can move: neither end waits for a byte that never comes. */
  lemma Progress(t: Transfer, s: System)
    requires Inv(t, s)
    ensures s.host.HostDone? <==> forall e :: !Enabled(t, s, e)
  {
    if !s.host.HostDone? {
      var e := if s.host.Sending? then HostSend else if InFlight(t, s) then DeviceRead(1) else HostRead(1);
      if InFlight(t, s) && s.device.AwaitPacket? {
        BodyRead(Chunk(t, s.bytes), [], s.device.got, s.toDevice);
      }
      assert Enabled(t, s, e);
    }
  }

  /** How many more steps a transfer can take at most. */
  ghost function Rank(t: Transfer, s: System): nat
    requires Inv(t, s)
  {
    if s.host.HostDone? then 0
    else (|t.data| - s.bytes) * 100 + |s.toDevice| +
         if s.host.Sending? then 70 else if s.toHost == [] && s.host.got == [] then 3 else 2 - |s.host.got|
  }

  lemma HostReadRunsOut(t: Transfer, s: System, k: nat)
    requires Inv(t, s) && Enabled(t, s, HostRead(k)) && Inv(t, Step(t, s, HostRead(k)))
    ensures Rank(t, Step(t, s, HostRead(k))) < Rank(t, s)
  {
    var s1 := Step(t, s, HostRead(k));
    assert s.toDevice == [] && s1.toDevice == [];
    if !s1.host.Waiting? && !s1.host.HostDone? {
      assert s1.bytes == s.bytes + DATA_SIZE;
    }
  }

  lemma DeviceReadRunsOut(t: Transfer, s: System, k: nat)
    requires Inv(t, s) && Enabled(t, s, DeviceRead(k)) && Inv(t, Step(t, s, DeviceRead(k)))
    ensures Rank(t, Step(t, s, DeviceRead(k))) < Rank(t, s)
  {
    assert InFlight(t, s);
    var s1 := Step(t, s, DeviceRead(k));
    assert s1.host == s.host && s1.bytes == s.bytes && |s1.toDevice| < |s.toDevice|;
  }

  /** Every step brings the end of the transfer nearer, so every run is finite. */
  lemma StepsRunOut(t: Transfer, s: System, e: Event)
    requires Inv(t, s) && Enabled(t, s, e)
    ensures Inv(t, Step(t, s, e)) && Rank(t, Step(t, s, e)) < Rank(t, s)
  {
    StepKeeps(t, s, e);
    match e
    case HostSend => HostSendKeeps(t, s);
    case HostRead(k) => HostReadRunsOut(t, s, k);
    case DeviceRead(k) => DeviceReadRunsOut(t, s, k);
  }

  /** A transfer ends: any run can be continued to one where the host has stopped. */
  lemma {:induction false} Completes(t: Transfer, s: System) returns (events: seq<Event>, last: System)
    requires Inv(t, s)
    ensures Run(t, s, events, last) && Inv(t, last) && last.host.HostDone?
    decreases Rank(t, s)
  {
    Progress(t, s);
    if s.host.HostDone? {
      return [], s;
    }
    var e :| Enabled(t, s, e);
    StepsRunOut(t, s, e);
    events, last := Completes(t, Step(t, s, e));
    assert ([e] + events)[1..] == events;
    events := [e] + events;
  }

  /** The answer does not depend on the interleaving: all was written exactly when the callback takes every packet. */
  lemma Outcome(t: Transfer, s: System)
    requires Inv(t, s) && s.host.HostDone?
    ensures s.host.result.Wrote? <==> forall i: nat :: HasPacket(t, i) ==> Takes(t, i)
  {
    if s.host.result.Wrote? {
      forall i: nat | HasPacket(t, i) ensures Takes(t, i) {
        assert i < s.packets;
      }
    } else {
      assert HasPacket(t, s.packets) && !Takes(t, s.packets);
    }
  }

  lemma {:induction false} RunsAreShort(t: Transfer, s: System, events: seq<Event>, last: System)
    requires Inv(t, s) && Run(t, s, events, last)
    ensures |events| <= Rank(t, s)
    decreases |events|
  {
    if events == [] {
    } else {
      StepsRunOut(t, s, events[0]);
      RunsAreShort(t, Step(t, s, events[0]), events[1..], last);
    }
  }

  /**
   Every transfer from the start: it takes a bounded number of steps, and when neither end can move the host has
   stopped, with everything delivered exactly when the callback takes every packet.
   */
  lemma EveryTransfer(t: Transfer, events: seq<Event>, last: System)
    requires Run(t, Start(), events, last)
    ensures |events| <= |t.data| * 100 + 70
    ensures last.delivered <= t.data
    ensures (forall e :: !Enabled(t, last, e)) ==>
      && last.host.HostDone? && last.device.DeviceDone? && last.toDevice == [] && last.toHost == []
      && (last.host == HostDone(Wrote(|t.data|)) <==> forall i: nat :: HasPacket(t, i) ==> Takes(t, i))
      && (last.delivered == t.data || last.host == HostDone(Refused(NACK)))
  {
    RunsAreShort(t, Start(), events, last);
    RunDelivers(t, Start(), events, last);
    Progress(t, last);
    if last.host.HostDone? {
      Outcome(t, last);
    }
  }

  // ---- whatever the channel does ----

  /** What the device has put together is a packet. */
  predicate HasPacketNow(s: System, k: nat)
    requires k <= |s.toDevice|
  {
    s.device.AwaitPacket? && Good(s.device.got + s.toDevice[..k])
  }

  /**
   In any state, also one a faulty channel has led to: the callback is given only the data of a packet with a legal
   size and a matching checksum, and takes all of it or nothing.
   */
  lemma OnlyGoodTaken(t: Transfer, s: System, e: Event)
    requires Enabled(t, s, e)
    ensures var r := Step(t, s, e);
      if r.delivered == s.delivered then true
      else
        && e.DeviceRead? && HasPacketNow(s, e.k)
        && var got := s.device.got + s.toDevice[..e.k]; var payload := got[1..|got| - 1];
           r.delivered == s.delivered + payload && t.accept(s.packets, payload)
  {}

  /** Not a start byte, a size too large, or a wrong checksum: a negative acknowledge, and the end. */
  lemma BadRejected(t: Transfer, s: System, k: nat)
    requires Enabled(t, s, DeviceRead(k))
    ensures var r := Step(t, s, DeviceRead(k));
      var got := if s.device.AwaitPacket? then s.device.got + s.toDevice[..k] else [];
      && (s.device.AwaitStart? && s.toDevice[0] != START ==>
            r == s.(device := DeviceDone(Malformed), toDevice := [], toHost := s.toHost + [NACK, 0]))
      && (s.device.AwaitPacket? && SizeOf(got) > DATA_SIZE ==>
            r == s.(device := DeviceDone(Malformed), toDevice := [], toHost := s.toHost + [NACK, 0]))
      && (s.device.AwaitPacket? && |got| == SizeOf(got) + 2 <= DATA_SIZE + 2 && !Good(got) ==>
            r == s.(device := DeviceDone(Malformed), toDevice := [], toHost := s.toHost + [NACK, got[|got| - 1]]))
  {}

  /** The host counts a packet as delivered only on an acknowledge with the checksum of that packet. */
  lemma OnlyAckCounts(t: Transfer, s: System, e: Event)
    requires Enabled(t, s, e)
    ensures var r := Step(t, s, e);
      if r.bytes == s.bytes && r.packets == s.packets then true
      else
        && e.HostRead? && s.host.got + s.toHost[..e.k] == [ACK, Checksum(Chunk(t, s.bytes))]
        && r.bytes == s.bytes + |Chunk(t, s.bytes)| && r.packets == s.packets + 1
  {}

  /** Another checksum is an error, and another verdict a refusal with that verdict. */
  lemma OtherAckStops(t: Transfer, s: System, k: nat)
    requires Enabled(t, s, HostRead(k)) && |s.host.got| + k == 2
    ensures var ack := s.host.got + s.toHost[..k]; var r := Step(t, s, HostRead(k));
      && (ack[1] != Checksum(Chunk(t, s.bytes)) ==> r.host == HostDone(BadAck))
      && (ack[1] == Checksum(Chunk(t, s.bytes)) && ack[0] != ACK ==> r.host == HostDone(Refused(ack[0])))
  {}
}
