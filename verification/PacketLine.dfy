/**
 What a persistent switchboard connection does, as a line of at most two packets between an input and an output
 device, without the buffers that hold them. Everything the two devices answer is recorded, and so is every packet.
 */
module PacketLine {
  import opened Common
  import opened Repeating

  // Errors are negative error numbers.
  const EIO: int := -5
  const ENOEXEC: int := -8
  const EAGAIN: int := -11
  const EBUSY: int := -16
  const EDEADLK: int := -45
  const ENODATA: int := -61

  /** An input driver has data, will have some later, has nothing (`EAGAIN`), or fails. */
  datatype ReadAnswer = Now(data: seq<byte>) | Later | Nothing | ReadError(code: int)

  /** An output driver takes bytes, will take them later, is full (`EAGAIN`), or fails. */
  datatype WriteAnswer = Took(n: nat) | TakesLater | Full | WriteError(code: int)

  /** What the devices answer: to their `k`-th call, for the bytes asked for or offered. */
  datatype Devices = Devices(read: (nat, nat) -> ReadAnswer, write: (nat, nat) -> WriteAnswer)

  /** Answers that keep to the request. */
  ghost predicate Fitting(d: Devices)
  {
    && (forall k: nat, n: nat :: ReadFits(d.read(k, n), n))
    && (forall k: nat, n: nat :: WriteFits(d.write(k, n), n))
  }

  predicate ReadFits(a: ReadAnswer, n: nat)
  {
    match a
    case Now(data) => n > 0 ==> 0 < |data| <= n
    case ReadError(code) => code < 0 && code != EAGAIN
    case _ => true
  }

  predicate WriteFits(a: WriteAnswer, n: nat)
  {
    match a
    case Took(k) => n > 0 ==> 0 < k <= n
    case WriteError(code) => code < 0 && code != EAGAIN
    case _ => true
  }

  /**
   What the input device said: an answer to a request for `asked` bytes, or later the bytes of a read and the count
   left in the request.
   */
  datatype Heard = Answer(asked: nat, a: ReadAnswer) | Completed(data: seq<byte>, nbyte: int) | ReadStopped

  /** What the output device said to an offer of `size` bytes, at once or later. */
  datatype Told = Offer(size: nat, a: WriteAnswer) | Finished(size: nat, n: nat) | WriteStopped

  /** The state flags of a connection. */
  datatype Flags = Flags(inUse: bool, connected: bool, destroyed: bool, failed: bool, canceled: bool,
                         reading: bool, writing: bool)

  const NO_FLAGS := Flags(false, false, false, false, false, false, false)

  /** Buffer size, packet size, transaction limit (0 for none), and whether nothing to read is sent on as zeros. */
  datatype Setting = Setting(size: nat, packetSize: nat, limit: nat, fillZero: bool)

  /**
   `memory` is the two buffers and `turn` the one the next read fills; `open` says that reads go on. `readCalls` and
   `writeCalls` count driver calls, `heard` and `told` are what the devices said, `taken` and `given` the packets that
   came in and went out.
   */
  datatype Line = Line(
    setting: Setting, status: int, flags: Flags,
    memory: seq<seq<byte>>, turn: nat, open: bool, queue: seq<seq<byte>>,
    readCalls: nat, writeCalls: nat, heard: seq<Heard>, told: seq<Told>, taken: seq<seq<byte>>, given: seq<seq<byte>>)

  datatype Event =
    | Create(wanted: nat, limit: nat, fillZero: bool)
    | Destroy
    | Clean
    | DataReady(data: seq<byte>, nbyte: int, cancel: bool, error: bool)
    | WriteComplete(n: nat, nbyte: int, cancel: bool, error: bool)

  // ---- one transaction ----

  ghost predicate Memory(l: Line)
  {
    && |l.memory| == 2 && |l.memory[0]| == |l.memory[1]| == l.setting.size
    && l.turn < 2 && l.setting.packetSize <= l.setting.size
  }

  /** A device writes `data` at the start of the buffer in turn. */
  function Fill(l: Line, data: seq<byte>): Line
    requires Memory(l) && |data| <= l.setting.size
  {
    l.(memory := l.memory[l.turn := data + l.memory[l.turn][|data|..]])
  }

  /** `complete_read`: the first `n` bytes of the buffer in turn are a packet; no bytes are the end of reading. */
  function Take(l: Line, n: nat): Line
    requires Memory(l) && n <= l.setting.size
  {
    var packet := l.memory[l.turn][..n];
    l.(turn := 1 - l.turn, open := n > 0 && l.status == 0,
       queue := if n == 0 then l.queue else l.queue + [packet],
       taken := if n == 0 then l.taken else l.taken + [packet])
  }

  /** `complete_write`: the oldest packet is done with. */
  function Leave(l: Line): Line
    requires l.queue != []
  {
    l.(queue := l.queue[1..], given := l.given + [l.queue[0]])
  }

  function Hear(l: Line, h: Heard): Line { l.(heard := l.heard + [h]) }

  function Tell(l: Line, t: Told): Line { l.(told := l.told + [t]) }

  /** `is_ready_to_read_device` */
  predicate ReadyToRead(l: Line)
  {
    !l.flags.reading && l.open && l.status >= 0 && |l.queue| < 2
  }

  /** What becomes of an answer to a read. */
  function Answered(l: Line, a: ReadAnswer): (Line, Outcome)
    requires Memory(l) && ReadFits(a, l.setting.packetSize) && l.setting.packetSize > 0
  {
    match a
    case Now(data) => (Take(Fill(l, data), |data|), Moved)
    case Later => (l.(flags := l.flags.(reading := true)), Waits)
    case Nothing => (Take(Blank(l), l.setting.packetSize), Moved)
    case ReadError(code) => (l.(status := code), Fails(code))
  }

  /** With nothing to read the packet is zeros, or whatever the buffer last held. */
  function Blank(l: Line): Line
    requires Memory(l)
  {
    if l.setting.fillZero then Fill(l, seq(l.setting.packetSize, _ => 0)) else l
  }

  /** `read_from_device` */
  function Read(l: Line, d: Devices): (Line, Outcome)
    requires Memory(l) && Fitting(d) && (l.open ==> l.setting.packetSize > 0)
  {
    if !ReadyToRead(l) then (l, Waits)
    else
      var a := d.read(l.readCalls, l.setting.packetSize);
      assert ReadFits(a, l.setting.packetSize);
      Answered(Hear(l.(readCalls := l.readCalls + 1), Answer(l.setting.packetSize, a)), a)
  }

  /** `write_to_device` */
  function Write(l: Line, d: Devices): (Line, Outcome)
  {
    if l.flags.writing || l.status < 0 || l.queue == [] then (l, Waits)
    else
      var a := d.write(l.writeCalls, |l.queue[0]|);
      var l1 := Tell(l.(writeCalls := l.writeCalls + 1), Offer(|l.queue[0]|, a));
      match a
      case Took(n) => (Leave(l1), Moved)
      case TakesLater => (l1.(flags := l1.flags.(writing := true)), Waits)
      case Full => (l1, Waits)
      case WriteError(code) => (l1.(status := code), Fails(code))
  }

  /** A read, or when none can be had now, a write. */
  function Once(l: Line, d: Devices): (Line, Outcome)
    requires Memory(l) && Fitting(d) && (l.open ==> l.setting.packetSize > 0)
  {
    var (l1, o) := Read(l, d);
    if o.Waits? then Write(l1, d) else (l1, o)
  }

  // ---- the pump ----

  ghost function Turn(d: Devices): Line -> (Line, Outcome)
  {
    (l: Line) => if Sound(l) && Fitting(d) then Once(l, d) else (l, Waits)
  }

  /** The state cleared, with what the buffers hold. */
  function Wiped(l: Line): Line
  {
    l.(status := 0, flags := NO_FLAGS, turn := 0, open := false, queue := [])
  }

  /** `close_connection` */
  function Close(l: Line): Line
  {
    if l.flags.destroyed then Wiped(l) else l.(flags := l.flags.(connected := false))
  }

  /** `check_for_stopped_or_destroyed` */
  function Check(l: Line): Line
  {
    if l.status < 0 then Close(l) else l
  }

  function Rounds(l: Line): (n: nat)
    ensures n > 0
  {
    if l.setting.limit == 0 then 1 else l.setting.limit
  }

  /** Why a pump that made `n` transactions has to stop, if it has to. */
  function Verdict(l: Line, n: nat): Line
  {
    if n == l.setting.limit then l.(status := EDEADLK)
    else if !l.flags.reading && !l.flags.writing then l.(status := ENODATA)
    else l
  }

  /** A pump that makes its transactions by `step`. */
  ghost function PumpBy(l: Line, step: Line -> (Line, Outcome)): (Line, Outcome)
  {
    if l.status < 0 then (Check(l), Waits)
    else
      var (l1, o, n) := Repeat(step, l, Rounds(l));
      (Check(Verdict(l1, n)), o)
  }

  /** `read_then_write_until_async` */
  ghost function Pump(l: Line, d: Devices): (Line, Outcome)
  {
    PumpBy(l, Turn(d))
  }

  // ---- events ----

  function Reported(f: Flags, cancel: bool, error: bool): Flags
  {
    f.(failed := f.failed || error, canceled := f.canceled || cancel)
  }

  /**
   What can happen to a line: any request, a completion of what is in flight, and on a line that was freed in the
   meantime a completion of what a device was still at work on.
   */
  predicate Possible(l: Line, e: Event)
  {
    e.DataReady? || e.WriteComplete? ==> !l.flags.inUse || Completes(l, e)
  }

  predicate Completes(l: Line, e: Event)
  {
    match e
    case DataReady(data, nbyte, _, _) =>
      l.flags.reading && nbyte <= l.setting.packetSize && |data| <= (if nbyte < 0 then l.setting.packetSize else nbyte)
    case WriteComplete(n, nbyte, _, _) => l.flags.writing && l.queue != [] && n <= |l.queue[0]| && nbyte <= |l.queue[0]|
    case _ => false
  }

  /** The first part of `handle_data_ready`. */
  function ReadEnds(l: Line, data: seq<byte>, nbyte: int, cancel: bool, error: bool): Line
    requires Memory(l) && nbyte <= l.setting.packetSize && |data| <= l.setting.packetSize
  {
    var l1 := Fill(l.(flags := l.flags.(reading := false)), data);
    if nbyte < 0 || cancel || error then
      Hear(l1.(flags := Reported(l1.flags, cancel, error), status := if nbyte < 0 then nbyte else EIO,
               open := nbyte > 0), ReadStopped)
    else Take(Hear(l1, Completed(data, nbyte)), nbyte)
  }

  /** The first part of `handle_write_complete`. */
  function WriteEnds(l: Line, d: Devices, n: nat, nbyte: int, cancel: bool, error: bool): Line
    requires l.queue != []
  {
    var l1 := l.(flags := l.flags.(writing := false));
    if nbyte < 0 || cancel || error then
      Tell(l1.(flags := Reported(l1.flags, cancel, error), status := if nbyte < 0 then nbyte else EIO), WriteStopped)
    else Write(Leave(Tell(l1, Finished(|l.queue[0]|, n))), d).0
  }

  /** A persistent connection made on a free line; what the line carried before is forgotten. */
  function SetUp(l: Line, wanted: nat, limit: nat, fillZero: bool): Line
  {
    var packetSize := if wanted > l.setting.size then l.setting.size else wanted;
    Wiped(l).(setting := Setting(l.setting.size, packetSize, limit, fillZero), open := packetSize > 0,
              flags := NO_FLAGS.(inUse := true, connected := true), heard := [], told := [], taken := [], given := [])
  }

  /** A line that can be created. */
  predicate Free(l: Line)
  {
    l.flags == NO_FLAGS
  }

  /** `create_connection`, once its two devices are open. */
  ghost function Created(l: Line, d: Devices, wanted: nat, limit: nat, fillZero: bool): (Line, int)
    requires Sound(l) && Fitting(d)
  {
    if !Free(l) then (l, EBUSY)
    else
      SetUpKeeps(l, wanted, limit, fillZero);
      var (l1, o) := Pump(SetUp(l, wanted, limit, fillZero), d);
      if o.Fails? then (Wiped(l1), EIO) else (l1, 0)
  }

  /** `destroy_connection` */
  function Destroyed(l: Line): Line
  {
    if l.flags.failed || l.flags.canceled then Wiped(l)
    else l.(flags := l.flags.(destroyed := true), status := ENOEXEC)
  }

  ghost function Step(l: Line, d: Devices, e: Event): (Line, int)
    requires Sound(l) && Fitting(d) && Possible(l, e)
  {
    match e
    case Create(wanted, limit, fillZero) =>
      Created(l, d, wanted, limit, fillZero)
    case Destroy => (Destroyed(l), 0)
    case Clean => (if l.flags.failed then Wiped(l) else l, 0)
    case _ => (if l.flags.inUse then Handled(l, d, e) else l, 0)
  }

  /** The completion handlers; a line that is not in use has none, since its requests were cleared with the rest. */
  ghost function Handled(l: Line, d: Devices, e: Event): Line
    requires Sound(l) && Fitting(d) && Completes(l, e)
  {
    match e
    case DataReady(data, nbyte, cancel, error) => Pump(ReadEnds(l, data, nbyte, cancel, error), d).0
    case WriteComplete(n, nbyte, cancel, error) => Pump(WriteEnds(l, d, n, nbyte, cancel, error), d).0
  }

  // ---- what the devices' words account for ----

  /** The bytes the input device really supplied. */
  function Bytes(h: Heard): seq<byte>
  {
    match h
    case Answer(_, a) => if a.Now? then a.data else []
    case Completed(data, _) => data
    case ReadStopped => []
  }

  /** The size of the packet the connection makes of it. */
  function Counted(h: Heard): nat
  {
    match h
    case Answer(asked, a) => if a.Now? then |a.data| else if a.Nothing? then asked else 0
    case Completed(_, nbyte) => if nbyte < 0 then 0 else nbyte
    case ReadStopped => 0
  }

  /** Not "nothing to read", and a late read complete as counted. */
  predicate Straight(h: Heard)
  {
    match h
    case Answer(_, a) => !a.Nothing?
    case Completed(data, nbyte) => nbyte == |data|
    case ReadStopped => true
  }

  /** The packets that came in, in order: each of the size counted, starting with the bytes supplied. */
  ghost predicate Carried(heard: seq<Heard>, taken: seq<seq<byte>>)
    decreases |heard|
  {
    if heard == [] then taken == []
    else
      var before, h := heard[..|heard| - 1], heard[|heard| - 1];
      if Counted(h) == 0 then Bytes(h) == [] && Straight(h) && Carried(before, taken)
      else
        && taken != [] && |taken[|taken| - 1]| == Counted(h) && Bytes(h) <= taken[|taken| - 1]
        && Carried(before, taken[..|taken| - 1])
  }

  /** Of an offer, the bytes the output device took; `None` when the packet stays. */
  function Accepted(t: Told): Option<nat>
  {
    match t
    case Offer(_, a) => if a.Took? then Some(a.n) else None
    case Finished(_, n) => Some(n)
    case WriteStopped => None
  }

  function Offered(t: Told): nat
  {
    match t
    case Offer(size, _) => size
    case Finished(size, _) => size
    case WriteStopped => 0
  }

  /** The packets that went out, in order: each offered whole, and at most that much of it taken. */
  ghost predicate Handed(told: seq<Told>, given: seq<seq<byte>>)
    decreases |told|
  {
    if told == [] then given == []
    else
      var before, t := told[..|told| - 1], told[|told| - 1];
      match Accepted(t)
      case None => Handed(before, given)
      case Some(n) =>
        && given != [] && |given[|given| - 1]| == Offered(t) && n <= Offered(t)
        && Handed(before, given[..|given| - 1])
  }

  // ---- what every step keeps ----

  /** Nothing is in flight that the state does not allow for, and no packet is lost, doubled or out of order. */
  ghost predicate Sound(l: Line)
  {
    && Memory(l) && |l.queue| <= 2 && [] !in l.queue && (l.open ==> l.setting.packetSize > 0)
    && (l.flags.reading ==> l.open && |l.queue| < 2) && (l.flags.writing ==> l.queue != [])
    && l.status <= 0 && (l.flags.destroyed ==> l.status < 0)
    && (!l.flags.inUse ==> l.flags == NO_FLAGS.(destroyed := l.flags.destroyed) && !l.open && l.queue == [])
    && (l.flags.inUse && !l.flags.connected ==> l.status < 0)
    && Logged(l)
  }

  ghost predicate Logged(l: Line)
  {
    && Carried(l.heard, l.taken) && Handed(l.told, l.given)
    && (l.flags.inUse ==> l.taken == l.given + l.queue)
  }

  /** Between events a connected line has an operation in flight. */
  ghost predicate Inv(l: Line)
  {
    Sound(l) && (l.flags.connected ==> l.flags.reading || l.flags.writing)
  }

  lemma CarriedMore(heard: seq<Heard>, taken: seq<seq<byte>>, h: Heard, packet: seq<byte>)
    requires Carried(heard, taken)
    ensures Counted(h) == 0 && Bytes(h) == [] && Straight(h) ==> Carried(heard + [h], taken)
    ensures Counted(h) == |packet| > 0 && Bytes(h) <= packet ==> Carried(heard + [h], taken + [packet])
  {
    assert (heard + [h])[..|heard|] == heard && (taken + [packet])[..|taken|] == taken;
  }

  lemma HandedMore(told: seq<Told>, given: seq<seq<byte>>, t: Told, packet: seq<byte>)
    requires Handed(told, given)
    ensures Accepted(t).None? ==> Handed(told + [t], given)
    ensures Accepted(t).Some? && Accepted(t).value <= Offered(t) == |packet| ==> Handed(told + [t], given + [packet])
  {
    assert (told + [t])[..|told|] == told && (given + [packet])[..|given|] == given;
  }

  lemma QueueIn(taken: seq<seq<byte>>, given: seq<seq<byte>>, queue: seq<seq<byte>>, packet: seq<byte>)
    requires taken == given + queue
    ensures taken + [packet] == given + (queue + [packet])
  {}

  lemma QueueOut(given: seq<seq<byte>>, queue: seq<seq<byte>>)
    requires queue != []
    ensures (given + [queue[0]]) + queue[1..] == given + queue
  {}

  /** Bytes put at the start of a buffer are what is read back from there. */
  lemma FilledStarts(l: Line, data: seq<byte>, n: nat)
    requires Memory(l) && |data| <= n <= l.setting.size
    ensures Memory(Fill(l, data))
    ensures data <= Fill(l, data).memory[l.turn][..n] && |Fill(l, data).memory[l.turn][..n]| == n
  {}

  /** A packet of what the input device said joins the line. */
  lemma TakeKeeps(l: Line, h: Heard, l1: Line)
    requires Sound(l) && l.flags.inUse && |l.queue| < 2 && !l.flags.reading && Counted(h) <= l.setting.packetSize
    requires Straight(h) || Counted(h) > 0
    requires l1 == Hear(l, h).(memory := l1.memory) && Memory(l1) && Bytes(h) <= l1.memory[l.turn][..Counted(h)]
    ensures Sound(Take(l1, Counted(h)))
  {
    var packet := l1.memory[l.turn][..Counted(h)];
    CarriedMore(l.heard, l.taken, h, packet);
    QueueIn(l.taken, l.given, l.queue, packet);
  }

  lemma ReadKeeps(l: Line, d: Devices)
    requires Sound(l) && Fitting(d)
    ensures Sound(Read(l, d).0)
  {
    if ReadyToRead(l) {
      var a := d.read(l.readCalls, l.setting.packetSize);
      assert ReadFits(a, l.setting.packetSize);
      var h := Answer(l.setting.packetSize, a);
      var l0 := l.(readCalls := l.readCalls + 1);
      var l1 := Hear(l0, h);
      match a
      case Now(data) =>
        FilledStarts(l1, data, |data|);
        TakeKeeps(l0, h, Fill(l1, data));
      case Nothing =>
        if l.setting.fillZero {
          FilledStarts(l1, seq(l.setting.packetSize, _ => 0), l.setting.packetSize);
          TakeKeeps(l0, h, Fill(l1, seq(l.setting.packetSize, _ => 0)));
        } else {
          TakeKeeps(l0, h, l1);
        }
      case Later => CarriedMore(l.heard, l.taken, h, []);
      case ReadError(_) => CarriedMore(l.heard, l.taken, h, []);
    }
  }

  /** The oldest packet leaves the line with what the output device said. */
  lemma LeaveKeeps(l: Line, t: Told)
    requires Sound(l) && !l.flags.writing && l.queue != []
    requires Accepted(t).Some? && Accepted(t).value <= Offered(t) == |l.queue[0]|
    ensures Sound(Leave(Tell(l, t)))
  {
    HandedMore(l.told, l.given, t, l.queue[0]);
    QueueOut(l.given, l.queue);
  }

  lemma WriteKeeps(l: Line, d: Devices)
    requires Sound(l) && Fitting(d)
    ensures Sound(Write(l, d).0)
  {
    if !l.flags.writing && l.status >= 0 && l.queue != [] {
      var a := d.write(l.writeCalls, |l.queue[0]|);
      assert WriteFits(a, |l.queue[0]|);
      var t := Offer(|l.queue[0]|, a);
      if a.Took? {
        LeaveKeeps(l.(writeCalls := l.writeCalls + 1), t);
      } else {
        HandedMore(l.told, l.given, t, []);
      }
    }
  }

  lemma OnceKeeps(l: Line, d: Devices)
    requires Sound(l) && Fitting(d)
    ensures Sound(Once(l, d).0)
  {
    ReadKeeps(l, d);
    WriteKeeps(Read(l, d).0, d);
  }

  lemma WipedKeeps(l: Line)
    requires Sound(l)
    ensures Inv(Wiped(l))
  {}

  lemma SetUpKeeps(l: Line, wanted: nat, limit: nat, fillZero: bool)
    requires Sound(l)
    ensures Sound(SetUp(l, wanted, limit, fillZero))
  {}

  lemma ReadEndsKeeps(l: Line, data: seq<byte>, nbyte: int, cancel: bool, error: bool)
    requires Sound(l) && Completes(l, DataReady(data, nbyte, cancel, error))
    ensures Sound(ReadEnds(l, data, nbyte, cancel, error)) && ReadEnds(l, data, nbyte, cancel, error).flags.inUse
  {
    var l0 := l.(flags := l.flags.(reading := false));
    if nbyte < 0 || cancel || error {
      CarriedMore(l.heard, l.taken, ReadStopped, []);
    } else {
      FilledStarts(l0, data, nbyte);
      TakeKeeps(l0, Completed(data, nbyte), Hear(Fill(l0, data), Completed(data, nbyte)));
    }
  }

  /** The oldest packet of a line whose write has ended leaves it. */
  lemma NotWriting(l: Line, n: nat)
    requires Sound(l) && l.queue != [] && n <= |l.queue[0]|
    ensures Sound(Leave(Tell(l.(flags := l.flags.(writing := false)), Finished(|l.queue[0]|, n))))
  {
    LeaveKeeps(l.(flags := l.flags.(writing := false)), Finished(|l.queue[0]|, n));
  }

  lemma WriteStopsKeeps(l: Line, nbyte: int, cancel: bool, error: bool)
    requires Sound(l) && l.flags.inUse && (nbyte < 0 || cancel || error)
    ensures Sound(Tell(l.(flags := Reported(l.flags.(writing := false), cancel, error),
                          status := if nbyte < 0 then nbyte else EIO), WriteStopped))
  {
    HandedMore(l.told, l.given, WriteStopped, []);
  }

  lemma WriteEndsKeeps(l: Line, d: Devices, n: nat, nbyte: int, cancel: bool, error: bool)
    requires Sound(l) && Fitting(d) && Completes(l, WriteComplete(n, nbyte, cancel, error))
    ensures Sound(WriteEnds(l, d, n, nbyte, cancel, error))
  {
    if nbyte < 0 || cancel || error {
      WriteStopsKeeps(l, nbyte, cancel, error);
    } else {
      NotWriting(l, n);
      WriteKeeps(Leave(Tell(l.(flags := l.flags.(writing := false)), Finished(|l.queue[0]|, n))), d);
    }
  }

  lemma CloseKeeps(l: Line)
    requires Sound(l) && l.status < 0
    ensures Inv(Close(l)) && !Close(l).flags.connected
  {}

  /** A transaction keeps the line sound, and sets no flag but those of the two operations. */
  ghost predicate Steps(step: Line -> (Line, Outcome))
  {
    forall l {:trigger Transaction(l, step(l).0, step(l).1)} ::
      Sound(l) && l.status == 0 ==> Transaction(l, step(l).0, step(l).1)
  }

  /** A packet has moved exactly when the transaction completes at once, and there is an error only when it fails. */
  ghost predicate Transaction(l: Line, r: Line, o: Outcome)
  {
    && Sound(r) && SameSetting(l, r) && Packets(r) == Packets(l) + (if o.Moved? then 1 else 0)
    && (if o.Fails? then r.status == o.code < 0 else r.status == 0)
  }

  function Packets(l: Line): nat
  {
    |l.taken| + |l.given|
  }

  /** `r` has the settings of `l`, and its flags but for the two operations. */
  ghost predicate SameSetting(l: Line, r: Line)
  {
    r.setting == l.setting && r.flags == l.flags.(reading := r.flags.reading, writing := r.flags.writing)
  }

  lemma TakeSame(l: Line, n: nat)
    requires Memory(l) && n <= l.setting.size
    ensures SameSetting(l, Take(l, n))
  {}

  lemma AnsweredSame(l: Line, a: ReadAnswer)
    requires Memory(l) && ReadFits(a, l.setting.packetSize) && l.setting.packetSize > 0
    ensures SameSetting(l, Answered(l, a).0)
  {
    match a
    case Now(data) => TakeSame(Fill(l, data), |data|);
    case Nothing => TakeSame(Blank(l), l.setting.packetSize);
    case Later =>
    case ReadError(_) =>
  }

  lemma ReadSame(l: Line, d: Devices)
    requires Memory(l) && Fitting(d) && (l.open ==> l.setting.packetSize > 0)
    ensures SameSetting(l, Read(l, d).0)
  {
    if ReadyToRead(l) {
      var a := d.read(l.readCalls, l.setting.packetSize);
      assert ReadFits(a, l.setting.packetSize);
      AnsweredSame(Hear(l.(readCalls := l.readCalls + 1), Answer(l.setting.packetSize, a)), a);
    }
  }

  lemma WriteFlags(l: Line, d: Devices)
    ensures var r := Write(l, d).0; r.flags == l.flags.(writing := r.flags.writing)
    ensures l.status < 0 ==> Write(l, d).0 == l
  {}

  lemma WriteSame(l: Line, d: Devices)
    ensures SameSetting(l, Write(l, d).0)
  {
    WriteFlags(l, d);
  }

  lemma OnceSame(l: Line, d: Devices)
    requires Sound(l) && Fitting(d)
    ensures SameSetting(l, Once(l, d).0)
  {
    var l1 := Read(l, d).0;
    ReadSame(l, d);
    WriteSame(l1, d);
  }

  /** At most one packet has come in, and is the last in the queue. */
  ghost predicate Joined(l: Line, r: Line)
  {
    && r.given == l.given && r.told == l.told
    && ((r.taken == l.taken && r.queue == l.queue) ||
        exists packet :: r.taken == l.taken + [packet] && r.queue == l.queue + [packet])
  }

  /** At most one packet has gone out, the first in the queue. */
  ghost predicate Parted(l: Line, r: Line)
  {
    && r.taken == l.taken && r.heard == l.heard && r.memory == l.memory
    && ((r.given == l.given && r.queue == l.queue) ||
        (l.queue != [] && r.given == l.given + [l.queue[0]] && r.queue == l.queue[1..]))
  }

  lemma ReadJoins(l: Line, d: Devices)
    requires Memory(l) && Fitting(d) && (l.open ==> l.setting.packetSize > 0)
    ensures Joined(l, Read(l, d).0)
  {
    if ReadyToRead(l) {
      var a := d.read(l.readCalls, l.setting.packetSize);
      assert ReadFits(a, l.setting.packetSize);
    }
  }

  lemma WriteParts(l: Line, d: Devices)
    ensures Parted(l, Write(l, d).0)
  {}

  lemma ReadMoves(l: Line, d: Devices)
    requires Memory(l) && Fitting(d) && (l.open ==> l.setting.packetSize > 0)
    ensures Packets(Read(l, d).0) == Packets(l) + if Read(l, d).1.Moved? then 1 else 0
  {
    if ReadyToRead(l) {
      assert ReadFits(d.read(l.readCalls, l.setting.packetSize), l.setting.packetSize);
    }
  }

  lemma WriteMoves(l: Line, d: Devices)
    ensures Packets(Write(l, d).0) == Packets(l) + if Write(l, d).1.Moved? then 1 else 0
  {}

  lemma OnceMoves(l: Line, d: Devices)
    requires Sound(l) && Fitting(d)
    ensures Packets(Once(l, d).0) == Packets(l) + if Once(l, d).1.Moved? then 1 else 0
  {
    ReadMoves(l, d);
    WriteMoves(Read(l, d).0, d);
  }

  lemma OnceStatus(l: Line, d: Devices)
    requires Sound(l) && Fitting(d) && l.status == 0
    ensures var (r, o) := Once(l, d); if o.Fails? then r.status == o.code < 0 else r.status == 0
  {
    if ReadyToRead(l) {
      assert ReadFits(d.read(l.readCalls, l.setting.packetSize), l.setting.packetSize);
    }
    var l1 := Read(l, d).0;
    if l1.queue != [] {
      assert WriteFits(d.write(l1.writeCalls, |l1.queue[0]|), |l1.queue[0]|);
    }
  }

  lemma TurnSteps(d: Devices)
    requires Fitting(d)
    ensures Steps(Turn(d))
  {
    forall l | Sound(l) && l.status == 0 ensures Transaction(l, Turn(d)(l).0, Turn(d)(l).1) {
      OnceKeeps(l, d);
      OnceSame(l, d);
      OnceMoves(l, d);
      OnceStatus(l, d);
    }
  }

  lemma SameTrans(a: Line, b: Line, c: Line)
    requires SameSetting(a, b) && SameSetting(b, c)
    ensures SameSetting(a, c)
  {}

  /** After `m` transactions that complete at once `m` packets have moved. */
  lemma {:induction false} AfterMoves(l: Line, step: Line -> (Line, Outcome), m: nat)
    requires Sound(l) && l.status == 0 && Steps(step) && Moves(step, l, m)
    ensures var x := After(step, l, m); Sound(x) && x.status == 0 && Packets(x) == Packets(l) + m && SameSetting(l, x)
    decreases m
  {
    if m == 0 {
    } else {
      var l1 := step(l).0;
      assert Transaction(l, l1, step(l).1);
      AfterMoves(l1, step, m - 1);
      SameTrans(l, l1, After(step, l1, m - 1));
    }
  }

  /** How a pump ends: after `m` transactions that complete at once and one more. */
  lemma PumpEnds(l: Line, step: Line -> (Line, Outcome)) returns (m: nat, x: Line, o: Outcome)
    requires Sound(l) && Steps(step) && l.status == 0
    ensures m < Rounds(l) && Moves(step, l, m) && (Moves(step, l, Rounds(l) - 1) <==> m + 1 == Rounds(l))
    ensures m + 1 < Rounds(l) ==> Stalls(step, l, m)
    ensures (x, o) == step(After(step, l, m)) && PumpBy(l, step) == (Check(Verdict(x, m + 1)), o)
    ensures Packets(x) == Packets(l) + m + (if o.Moved? then 1 else 0)
    ensures Sound(x) && SameSetting(l, x) && (if o.Fails? then x.status == o.code < 0 else x.status == 0)
  {
    m := RepeatEnds(step, l, Rounds(l));
    AfterMoves(l, step, m);
    var y := After(step, l, m);
    x, o := step(y).0, step(y).1;
    assert Transaction(y, x, o);
  }

  /** The verdict leaves a line connected exactly when there is no error, no limit hit and something in flight. */
  lemma VerdictStays(x: Line, n: nat)
    requires Sound(x) && x.flags.connected
    ensures Inv(Check(Verdict(x, n)))
    ensures Check(Verdict(x, n)).flags.connected <==>
      x.status == 0 && n != x.setting.limit && (x.flags.reading || x.flags.writing)
    ensures n == x.setting.limit && !x.flags.destroyed ==> Check(Verdict(x, n)).status == EDEADLK
    ensures Packets(Check(Verdict(x, n))) == Packets(x)
  {
    var l2 := Verdict(x, n);
    assert Sound(l2);
    if l2.status < 0 {
      CloseKeeps(l2);
    }
  }

  /** After a pump a line that is still connected has an operation in flight. */
  lemma PumpByKeeps(l: Line, step: Line -> (Line, Outcome))
    requires Sound(l) && Steps(step) && l.flags.inUse
    ensures Inv(PumpBy(l, step).0)
  {
    if l.status < 0 {
      CloseKeeps(l);
    } else {
      var m, x, o := PumpEnds(l, step);
      VerdictStays(x, m + 1);
    }
  }

  lemma PumpKeeps(l: Line, d: Devices)
    requires Sound(l) && Fitting(d) && l.flags.inUse
    ensures Inv(Pump(l, d).0)
  {
    TurnSteps(d);
    PumpByKeeps(l, Turn(d));
  }

  lemma CreatedKeeps(l: Line, d: Devices, wanted: nat, limit: nat, fillZero: bool)
    requires Inv(l) && Fitting(d)
    ensures Inv(Created(l, d, wanted, limit, fillZero).0)
  {
    if Free(l) {
      SetUpKeeps(l, wanted, limit, fillZero);
      var l1 := SetUp(l, wanted, limit, fillZero);
      PumpKeeps(l1, d);
      WipedKeeps(Pump(l1, d).0);
    }
  }

  lemma DestroyedKeeps(l: Line)
    requires Inv(l)
    ensures Inv(Destroyed(l))
  {
    WipedKeeps(l);
  }

  lemma DataReadyKeeps(l: Line, d: Devices, e: Event)
    requires Sound(l) && Fitting(d) && Completes(l, e) && l.flags.inUse && e.DataReady?
    ensures Inv(Handled(l, d, e))
  {
    ReadEndsKeeps(l, e.data, e.nbyte, e.cancel, e.error);
    PumpKeeps(ReadEnds(l, e.data, e.nbyte, e.cancel, e.error), d);
  }

  /** A completion changes no flag but its own, the other operation's start, and what it reports. */
  lemma WriteEndsFlags(l: Line, d: Devices, n: nat, nbyte: int, cancel: bool, error: bool)
    requires l.queue != []
    ensures var r := WriteEnds(l, d, n, nbyte, cancel, error);
      r.flags == Reported(l.flags, cancel, error).(writing := r.flags.writing)
    ensures l.status < 0 ==> WriteEnds(l, d, n, nbyte, cancel, error).status < 0
    ensures l.status < 0 ==> !WriteEnds(l, d, n, nbyte, cancel, error).flags.writing
  {
    if nbyte < 0 || cancel || error {
    } else {
      var l1 := Leave(Tell(l.(flags := l.flags.(writing := false)), Finished(|l.queue[0]|, n)));
      assert WriteEnds(l, d, n, nbyte, cancel, error) == Write(l1, d).0;
      WriteFlags(l1, d);
    }
  }

  lemma WriteCompleteKeeps(l: Line, d: Devices, e: Event)
    requires Sound(l) && Fitting(d) && Completes(l, e) && l.flags.inUse && e.WriteComplete?
    ensures Inv(Handled(l, d, e))
  {
    WriteEndsKeeps(l, d, e.n, e.nbyte, e.cancel, e.error);
    WriteEndsFlags(l, d, e.n, e.nbyte, e.cancel, e.error);
    PumpKeeps(WriteEnds(l, d, e.n, e.nbyte, e.cancel, e.error), d);
  }

  /** Every event keeps the invariant. */
  lemma StepKeeps(l: Line, d: Devices, e: Event)
    requires Inv(l) && Fitting(d) && Possible(l, e)
    ensures Inv(Step(l, d, e).0)
  {
    match e
    case Create(wanted, limit, fillZero) => CreatedKeeps(l, d, wanted, limit, fillZero);
    case Destroy => DestroyedKeeps(l);
    case Clean => WipedKeeps(l);
    case DataReady(_, _, _, _) =>
      if l.flags.inUse {
        DataReadyKeeps(l, d, e);
      }
    case WriteComplete(_, _, _, _) =>
      if l.flags.inUse {
        WriteCompleteKeeps(l, d, e);
      }
  }

  // ---- whole runs ----

  /** `events` is a run from `l` that ends in `last`. */
  ghost predicate Run(l: Line, d: Devices, events: seq<Event>, last: Line)
    requires Inv(l) && Fitting(d)
    decreases |events|
  {
    if events == [] then last == l
    else
      && Possible(l, events[0])
      && (StepKeeps(l, d, events[0]); Run(Step(l, d, events[0]).0, d, events[1..], last))
  }

  /** Each of the events can happen when its time comes. */
  ghost predicate CanRun(l: Line, d: Devices, events: seq<Event>)
    requires Inv(l) && Fitting(d)
    decreases |events|
  {
    events != [] ==>
      && Possible(l, events[0])
      && (StepKeeps(l, d, events[0]); CanRun(Step(l, d, events[0]).0, d, events[1..]))
  }

  /** Over every run: packets go out in the order they came in, none lost or doubled, and connected means in flight. */
  lemma {:induction false} RunKeeps(l: Line, d: Devices, events: seq<Event>, last: Line)
    requires Inv(l) && Fitting(d) && Run(l, d, events, last)
    ensures Inv(last)
    decreases |events|
  {
    if events == [] {
    } else {
      StepKeeps(l, d, events[0]);
      RunKeeps(Step(l, d, events[0]).0, d, events[1..], last);
    }
  }
}
