/**
 A persistent switchboard connection: packets are pumped from an input device to an output device through two
 buffers, each device answering at once or later through its completion handler. Each operation is proved to do to
 the buffers what `PacketLine` says it does to the line of packets.
 */
module Switchboard {
  import opened Common
  import opened Repeating
  import opened PacketLine

  /** Two buffers hold the packets of `queue` in order, from buffer `first` on; the others are free. */
  ghost predicate HoldsQueue(buffer: seq<seq<byte>>, bytes: seq<nat>, size: nat, first: nat, queue: seq<seq<byte>>)
  {
    && |buffer| == |bytes| == 2 && first < 2 && |queue| <= 2 && |buffer[0]| == |buffer[1]| == size
    && HoldsPacket(buffer[first], bytes[first], if |queue| > 0 then Some(queue[0]) else None)
    && HoldsPacket(buffer[1 - first], bytes[1 - first], if |queue| > 1 then Some(queue[1]) else None)
  }

  ghost predicate HoldsPacket(buffer: seq<byte>, bytes: nat, p: Option<seq<byte>>)
  {
    match p
    case None => bytes == 0
    case Some(packet) => 0 < bytes <= |buffer| && buffer[..bytes] == packet
  }

  /** The buffer after those that hold the queue. */
  function Behind(output: nat, queue: seq<seq<byte>>): nat
    requires output < 2
  {
    if |queue| == 1 then 1 - output else output
  }

  /** A packet in the buffer behind the queue joins it. */
  lemma QueueGrows(buffer: seq<seq<byte>>, bytes: seq<nat>, size: nat, first: nat, queue: seq<seq<byte>>, n: nat)
    requires HoldsQueue(buffer, bytes, size, first, queue) && |queue| < 2 && n <= size
    ensures var at := Behind(first, queue);
      HoldsQueue(buffer, bytes[at := n], size, first, if n == 0 then queue else queue + [buffer[at][..n]])
  {}

  /** The oldest packet's buffer is free, and the other comes first. */
  lemma QueueShrinks(buffer: seq<seq<byte>>, bytes: seq<nat>, size: nat, first: nat, queue: seq<seq<byte>>)
    requires HoldsQueue(buffer, bytes, size, first, queue) && queue != []
    ensures HoldsQueue(buffer, bytes[first := 0], size, 1 - first, queue[1..])
  {}

  lemma QueueEmpty(buffer: seq<seq<byte>>, size: nat)
    requires |buffer| == 2 && |buffer[0]| == |buffer[1]| == size
    ensures HoldsQueue(buffer, [0, 0], size, 0, [])
  {}

  /** The return value of a driver or of a transaction, and what it stands for. */
  predicate Returns(ret: int, o: Outcome)
  {
    match o
    case Moved => ret > 0
    case Waits => ret == 0
    case Fails(code) => ret == code < 0
  }

  /** The return value of an input driver, and the answer it stands for. */
  predicate ReadReturn(ret: int, a: ReadAnswer)
  {
    match a
    case Now(data) => ret == |data|
    case Later => ret == 0
    case Nothing => ret == EAGAIN
    case ReadError(code) => ret == code
  }

  /** `step` makes the transactions of the pump. */
  ghost predicate Performs(step: Line -> (Line, Outcome), d: Devices)
    requires Fitting(d)
  {
    forall l {:trigger Once(l, d)} :: Sound(l) ==> step(l) == Once(l, d)
  }

  lemma PumpSound(l: Line, step: Line -> (Line, Outcome))
    requires Sound(l) && Steps(step) && l.status == 0
    ensures Repeat(step, l, Rounds(l)).0.status <= 0
  {
    var m, x, o := PumpEnds(l, step);
    var k := RepeatEnds(step, l, Rounds(l));
    AfterMoves(l, step, k);
    assert Transaction(After(step, l, k), step(After(step, l, k)).0, step(After(step, l, k)).1);
  }

  /** How a repetition ends whose first `n` of `left` steps have led to `x`. */
  function Finish(step: Line -> (Line, Outcome), left: nat, x: Line, o: Outcome, n: nat): (Line, Outcome, nat)
    requires n <= left
  {
    if o.Moved? && n < left then
      var (y, p, k) := Repeat(step, x, left - n);
      (y, p, k + n)
    else (x, o, n)
  }

  lemma FinishStart(step: Line -> (Line, Outcome), left: nat, x: Line)
    requires left > 0
    ensures Finish(step, left, x, Moved, 0) == Repeat(step, x, left)
  {}

  lemma FinishStep(step: Line -> (Line, Outcome), left: nat, x: Line, y: Line, o: Outcome, n: nat)
    requires n < left && (y, o) == step(x)
    ensures Finish(step, left, y, o, n + 1) == Finish(step, left, x, Moved, n)
  {}

  lemma FinishDone(step: Line -> (Line, Outcome), left: nat, x: Line, o: Outcome, n: nat)
    requires n <= left && !(o.Moved? && n < left)
    ensures Finish(step, left, x, o, n) == (x, o, n)
  {}

  class Connection {
    const bufferSize: nat
    var packetSize: nat
    var transactionLimit: nat
    var fillZero: bool
    /** 0, or why the connection has to stop. */
    var status: int
    var flags: Flags
    var buffer: seq<seq<byte>>
    var bytesInBuffer: seq<nat>
    var input: nat
    var inputBytes: int
    var output: nat
    var outputBytes: int
    var readCalls: nat
    var writeCalls: nat
    /** The line of packets the connection stands for. */
    ghost var line: Line

    /** The fields the line repeats. */
    ghost predicate Matches()
      reads this
    {
      && line.setting == Setting(bufferSize, packetSize, transactionLimit, fillZero)
      && line.status == status && line.flags == flags && line.memory == buffer && line.turn == input
      && line.readCalls == readCalls && line.writeCalls == writeCalls
    }

    /** The buffers hold the line's packets, starting at the output buffer. */
    ghost predicate Holds()
      reads this
    {
      HoldsQueue(buffer, bytesInBuffer, bufferSize, output, line.queue) && input < 2 && packetSize <= bufferSize
    }

    /** While reads go on, the next packet goes behind the queue, and a full packet is asked for. */
    ghost predicate InputBehind()
      reads this
    {
      && line.open == (inputBytes > 0) && inputBytes <= packetSize
      && (inputBytes > 0 ==> output < 2 && input == Behind(output, line.queue))
      && (inputBytes > 0 && status == 0 ==> inputBytes == packetSize)
    }

    ghost predicate OutputFirst()
      reads this
    {
      && (flags.writing ==> output < |bytesInBuffer| && outputBytes == bytesInBuffer[output])
      && (outputBytes < 0 ==> status < 0)
    }

    ghost predicate Shape()
      reads this
    {
      Matches() && Holds() && InputBehind() && OutputFirst()
    }

    ghost predicate Valid()
      reads this
    {
      Shape() && Inv(line)
    }

    constructor (size: nat)
      ensures Valid() && Free(line) && bufferSize == size
    {
      bufferSize := size;
      buffer, bytesInBuffer := seq(2, _ => seq(size, _ => 0)), [0, 0];
      packetSize, transactionLimit, fillZero, status, flags := 0, 0, false, 0, NO_FLAGS;
      input, inputBytes, output, outputBytes := 0, 0, 0, 0;
      readCalls, writeCalls := 0, 0;
      line := Line(Setting(size, 0, 0, false), 0, NO_FLAGS, seq(2, _ => seq(size, _ => 0)), 0, false, [], 0, 0,
                   [], [], [], []);
    }

    /** A read and a write that are both in flight never share a buffer. */
    lemma NoSharedBuffer()
      requires Valid() && flags.reading && flags.writing
      ensures input != output
    {}

    // ---- buffers ----

    /** `switch_input_buffer`: the next read goes to the other buffer. */
    method SwitchInputBuffer(n: nat)
      requires Matches() && Holds() && |line.queue| < 2 && input == Behind(output, line.queue) && n <= bufferSize
      modifies `input, `bytesInBuffer, `line
      ensures Matches() && Holds() && input == 1 - old(input) && line == Take(old(line), n)
      ensures bytesInBuffer == old(bytesInBuffer)[old(input) := n]
    {
      QueueGrows(buffer, bytesInBuffer, bufferSize, output, line.queue, n);
      bytesInBuffer := bytesInBuffer[input := n];
      input := 1 - input;
      line := Take(line, n);
    }

    /** `complete_read`: `n` bytes have arrived in the input buffer. */
    method CompleteRead(n: nat)
      requires Matches() && Holds() && OutputFirst() && |line.queue| < 2 && input == Behind(output, line.queue)
      requires n <= packetSize && status <= 0 && (n > 0 <==> inputBytes > 0) && (flags.writing ==> line.queue != [])
      modifies `input, `inputBytes, `bytesInBuffer, `line
      ensures Shape() && line == Take(old(line), n)
    {
      if status < 0 {
        inputBytes := -1;
      }
      SwitchInputBuffer(n);
      if inputBytes > 0 {
        inputBytes := packetSize;
      }
    }

    /** `switch_output_buffer`: the oldest packet leaves its buffer free. */
    method SwitchOutputBuffer()
      requires Matches() && Holds() && InputBehind() && line.queue != []
      modifies `output, `bytesInBuffer, `line
      ensures Matches() && Holds() && InputBehind() && line == Leave(old(line))
    {
      QueueShrinks(buffer, bytesInBuffer, bufferSize, output, line.queue);
      bytesInBuffer := bytesInBuffer[output := 0];
      output := 1 - output;
      line := Leave(line);
    }

    /** `complete_write` */
    method CompleteWrite()
      requires Matches() && Holds() && InputBehind() && line.queue != []
      modifies `output, `outputBytes, `bytesInBuffer, `line
      ensures Matches() && Holds() && InputBehind() && line == Leave(old(line))
      ensures outputBytes == if status < 0 then -1 else old(outputBytes)
    {
      if status < 0 {
        outputBytes := -1;
      }
      SwitchOutputBuffer();
    }

    // ---- the devices ----

    /** A device puts `data` into the input buffer, which is not part of the queue. */
    method Deliver(data: seq<byte>)
      requires Matches() && Holds() && |line.queue| < 2 && |data| <= bufferSize && input == Behind(output, line.queue)
      modifies `buffer, `line
      ensures Matches() && Holds() && line == Fill(old(line), data)
    {
      buffer := buffer[input := data + buffer[input][|data|..]];
      line := Fill(line, data);
    }

    /** The input device's driver; `l` is the line with the answer noted, before any bytes arrive. */
    method DriverRead(d: Devices) returns (ret: int, ghost a: ReadAnswer, ghost l: Line)
      requires Shape() && Fitting(d) && |line.queue| < 2 && 0 < inputBytes == packetSize
      modifies `buffer, `readCalls, `line
      ensures Shape() && a == d.read(old(readCalls), packetSize) && ReadFits(a, packetSize) && ReadReturn(ret, a)
      ensures l == Hear(old(line).(readCalls := old(readCalls) + 1), Answer(packetSize, a))
      ensures Memory(l) && line == if a.Now? then Fill(l, a.data) else l
    {
      var answer := d.read(readCalls, packetSize);
      assert ReadFits(answer, packetSize);
      a := answer;
      readCalls := readCalls + 1;
      line := Hear(line.(readCalls := readCalls), Answer(packetSize, a));
      l := line;
      match answer
      case Now(data) =>
        Deliver(data);
        ret := |data|;
      case Later => ret := 0;
      case Nothing => ret := EAGAIN;
      case ReadError(code) => ret := code;
    }

    /** The output device's driver. */
    method DriverWrite(d: Devices) returns (ret: int, ghost a: WriteAnswer)
      requires Shape() && Fitting(d) && line.queue != [] && 0 < outputBytes == |line.queue[0]|
      modifies `writeCalls, `line
      ensures Shape() && a == d.write(old(writeCalls), |line.queue[0]|)
      ensures line == Tell(old(line).(writeCalls := old(writeCalls) + 1), Offer(|old(line).queue[0]|, a))
      ensures match a
        case Took(n) => ret == n > 0
        case TakesLater => ret == 0
        case Full => ret == EAGAIN
        case WriteError(code) => ret == code < 0 && code != EAGAIN
    {
      var answer := d.write(writeCalls, outputBytes);
      assert WriteFits(answer, outputBytes);
      a := answer;
      writeCalls := writeCalls + 1;
      line := Tell(line.(writeCalls := writeCalls), Offer(outputBytes, a));
      match answer
      case Took(n) => ret := n;
      case TakesLater => ret := 0;
      case Full => ret := EAGAIN;
      case WriteError(code) => ret := code;
    }

    method MarkReading()
      requires Shape()
      modifies `flags, `line
      ensures Shape() && line == old(line).(flags := old(line).flags.(reading := true))
    {
      flags := flags.(reading := true);
      line := line.(flags := flags);
    }

    method MarkFailed(code: int)
      requires Shape() && code < 0
      modifies `status, `line
      ensures Shape() && line == old(line).(status := code)
    {
      status := code;
      line := line.(status := code);
    }

    /** With nothing to read, zeros or whatever the buffer last held are sent on. */
    method FillPacket() returns (ret: int)
      requires Shape() && status == 0 && |line.queue| < 2 && inputBytes > 0 && (flags.writing ==> line.queue != [])
      modifies `input, `inputBytes, `buffer, `bytesInBuffer, `line
      ensures Shape() && ret > 0
      ensures line == Take(Blank(old(line)), packetSize)
    {
      if fillZero {
        Deliver(seq(inputBytes, _ => 0));
      }
      ret := inputBytes;
      CompleteRead(ret);
    }

    /** What is done about the driver's return value; `l` is the line when it was called. */
    method ReadAnswered(got: int, ghost a: ReadAnswer, ghost l: Line) returns (ret: int)
      requires Shape() && status == 0 && |line.queue| < 2 && inputBytes > 0 && (flags.writing ==> line.queue != [])
      requires Memory(l) && l.setting == line.setting && ReadFits(a, packetSize) && ReadReturn(got, a)
      requires line == if a.Now? then Fill(l, a.data) else l
      modifies `input, `inputBytes, `flags, `status, `buffer, `bytesInBuffer, `line
      ensures Shape() && line == Answered(l, a).0 && Returns(ret, Answered(l, a).1)
    {
      ret := got;
      if ret == 0 {
        MarkReading();
      } else if ret > 0 {
        CompleteRead(ret);
      } else if ret == EAGAIN {
        ret := FillPacket();
      } else {
        MarkFailed(ret);
      }
    }

    /** `read_from_device` with a buffer free. */
    method StartRead(d: Devices) returns (ret: int)
      requires Shape() && Fitting(d) && status == 0 && |line.queue| < 2 && inputBytes > 0 && !flags.reading
      requires flags.writing ==> line.queue != []
      modifies `input, `inputBytes, `flags, `status, `buffer, `bytesInBuffer, `readCalls, `line
      ensures Shape() && line == Read(old(line), d).0 && Returns(ret, Read(old(line), d).1)
    {
      ghost var a, l;
      ret, a, l := DriverRead(d);
      ret := ReadAnswered(ret, a, l);
    }

    /** `read_from_device` */
    method ReadFromDevice(d: Devices) returns (ret: int)
      requires Shape() && Sound(line) && Fitting(d) && status == 0
      modifies `input, `inputBytes, `flags, `status, `buffer, `bytesInBuffer, `readCalls, `line
      ensures Shape() && line == Read(old(line), d).0 && Returns(ret, Read(old(line), d).1)
    {
      ret := 0;
      if !flags.reading && inputBytes > 0 && status >= 0 && bytesInBuffer[input] == 0 {
        ret := StartRead(d);
      }
    }

    /** `write_to_device` with a packet to write. */
    method StartWrite(d: Devices) returns (ret: int)
      requires Shape() && Fitting(d) && status == 0 && !flags.writing && line.queue != []
      requires 0 < outputBytes == |line.queue[0]| && outputBytes == bytesInBuffer[output]
      modifies `output, `outputBytes, `flags, `status, `bytesInBuffer, `writeCalls, `line
      ensures Shape() && line == Write(old(line), d).0 && Returns(ret, Write(old(line), d).1)
    {
      ghost var a;
      ret, a := DriverWrite(d);
      if ret == 0 {
        flags := flags.(writing := true);
        line := line.(flags := flags);
      } else if ret > 0 {
        CompleteWrite();
      } else if ret == EAGAIN {
        ret := 0;
      } else {
        MarkFailed(ret);
      }
    }

    /** `write_to_device`, with `is_ready_to_write_device` */
    method WriteToDevice(d: Devices) returns (ret: int)
      requires Shape() && Sound(line) && Fitting(d)
      modifies `output, `outputBytes, `flags, `status, `bytesInBuffer, `writeCalls, `line
      ensures Shape() && line == Write(old(line), d).0 && Returns(ret, Write(old(line), d).1)
    {
      ret := 0;
      if flags.writing || outputBytes < 0 || status < 0 {
        return;
      }
      outputBytes := bytesInBuffer[output];
      if outputBytes > 0 {
        ret := StartWrite(d);
      }
    }

    // ---- stopping ----

    /** The state cleared, with what the buffers hold. */
    method Wipe()
      requires Shape()
      modifies `status, `flags, `input, `inputBytes, `output, `outputBytes, `bytesInBuffer, `line
      ensures Shape() && line == Wiped(old(line)) && output == 0
    {
      QueueEmpty(buffer, bufferSize);
      status, flags := 0, NO_FLAGS;
      input, inputBytes, output, outputBytes := 0, 0, 0, 0;
      bytesInBuffer := [0, 0];
      line := Wiped(line);
    }

    /** `close_connection` */
    method CloseConnection()
      requires Shape()
      modifies `status, `flags, `input, `inputBytes, `output, `outputBytes, `bytesInBuffer, `line
      ensures Shape() && line == Close(old(line))
    {
      if flags.destroyed {
        Wipe();
      } else {
        flags := flags.(connected := false);
        line := line.(flags := flags);
      }
    }

    /** `check_for_stopped_or_destroyed` */
    method CheckForStopped() returns (stopped: bool)
      requires Shape()
      modifies `status, `flags, `input, `inputBytes, `output, `outputBytes, `bytesInBuffer, `line
      ensures Shape() && line == Check(old(line)) && (stopped <==> old(status) < 0)
    {
      stopped := status < 0;
      if stopped {
        CloseConnection();
      }
    }

    // ---- the pump ----

    /** One transaction: a read, or when none can be had now, a write. */
    method PumpOnce(d: Devices, ghost step: Line -> (Line, Outcome)) returns (ret: int, ghost o: Outcome)
      requires Shape() && Sound(line) && Fitting(d) && status == 0 && Performs(step, d) && Steps(step)
      modifies `input, `inputBytes, `output, `outputBytes, `flags, `status, `buffer, `bytesInBuffer,
        `readCalls, `writeCalls, `line
      ensures Shape() && (line, o) == step(old(line)) && Returns(ret, o) && Transaction(old(line), line, o)
    {
      ghost var l := line;
      o := Once(l, d).1;
      assert Transaction(l, step(l).0, step(l).1);
      ret := ReadFromDevice(d);
      ReadKeeps(l, d);
      if ret == 0 {
        ret := WriteToDevice(d);
      }
    }

    method PumpRound(d: Devices, ghost step: Line -> (Line, Outcome)) returns (ret: int, ghost o: Outcome)
      requires Shape() && Sound(line) && Fitting(d) && status == 0 && Performs(step, d) && Steps(step)
      modifies `input, `inputBytes, `output, `outputBytes, `flags, `status, `buffer, `bytesInBuffer,
        `readCalls, `writeCalls, `line
      ensures Shape() && Sound(line) && Returns(ret, o) && (ret > 0 ==> status == 0) && (line, o) == step(old(line))
    {
      ret, o := PumpOnce(d, step);
    }

    /** Transactions until one does not complete at once, at most the limit of them. */
    method PumpSome(d: Devices, ghost step: Line -> (Line, Outcome))
      returns (transactions: nat, ret: int, ghost o: Outcome)
      requires Shape() && Sound(line) && Fitting(d) && status == 0 && Performs(step, d) && Steps(step)
      modifies `input, `inputBytes, `output, `outputBytes, `flags, `status, `buffer, `bytesInBuffer,
        `readCalls, `writeCalls, `line
      ensures Shape() && Returns(ret, o) && (line, o, transactions) == Repeat(step, old(line), Rounds(old(line)))
    {
      ghost var left, x := Rounds(line), line;
      ghost var end := Repeat(step, x, left);
      FinishStart(step, left, x);
      o := Moved;
      transactions, ret := 0, 1;
      var limit := transactionLimit;
      assert left == if limit == 0 then 1 else limit;
      while ret > 0 && (transactions == 0 || transactions < limit)
        invariant Shape() && Sound(line) && x == line && (ret > 0 ==> status == 0)
        invariant Returns(ret, o) && transactions <= left && Finish(step, left, x, o, transactions) == end
        decreases left - transactions
      {
        ret, o := PumpRound(d, step);
        FinishStep(step, left, x, line, o, transactions);
        x := line;
        transactions := transactions + 1;
      }
      FinishDone(step, left, x, o, transactions);
    }

    method StopIfDone(transactions: nat)
      requires Shape() && status <= 0
      modifies `status, `line
      ensures Shape() && line == Verdict(old(line), transactions)
    {
      if transactions == transactionLimit {
        status := EDEADLK;
      } else if !flags.writing && !flags.reading {
        status := ENODATA;
      }
      line := line.(status := status);
    }

    /** `read_then_write_until_async` */
    method Pump(d: Devices, ghost step: Line -> (Line, Outcome)) returns (ret: int, ghost o: Outcome)
      requires Shape() && Sound(line) && Fitting(d) && Performs(step, d) && Steps(step)
      modifies `input, `inputBytes, `output, `outputBytes, `flags, `status, `buffer, `bytesInBuffer,
        `readCalls, `writeCalls, `line
      ensures Shape() && (line, o) == PumpBy(old(line), step) && Returns(ret, o)
    {
      ghost var start := line;
      var stopped := CheckForStopped();
      if stopped {
        return 0, Waits;
      }
      var transactions;
      transactions, ret, o := PumpSome(d, step);
      PumpSound(start, step);
      StopIfDone(transactions);
      stopped := CheckForStopped();
    }

    // ---- completions and requests ----

    /** What both handlers do with an error or a cancel. */
    method StopOnEvent(n: int, cancel: bool, error: bool)
      requires n < 0 || cancel || error
      modifies `flags, `status
      ensures status == (if n < 0 then n else EIO) && flags == Reported(old(flags), cancel, error)
    {
      flags := Reported(flags, cancel, error);
      status := if n < 0 then n else EIO;
    }

    /** The device has put `data` in the buffer. */
    method ReadArrived(data: seq<byte>)
      requires Shape() && |line.queue| < 2 && inputBytes > 0 && |data| <= packetSize
      modifies `flags, `buffer, `line
      ensures Shape() && flags == old(flags).(reading := false)
      ensures line == Fill(old(line).(flags := old(line).flags.(reading := false)), data)
    {
      flags := flags.(reading := false);
      line := line.(flags := line.flags.(reading := false));
      Deliver(data);
    }

    method ReadFailed(nbyte: int, cancel: bool, error: bool)
      requires Shape() && inputBytes > 0 && nbyte <= packetSize && (nbyte < 0 || cancel || error)
      modifies `inputBytes, `flags, `status, `line
      ensures Shape()
      ensures line == Hear(old(line).(flags := Reported(old(line).flags, cancel, error),
                                      status := if nbyte < 0 then nbyte else EIO, open := nbyte > 0), ReadStopped)
    {
      inputBytes := nbyte;
      StopOnEvent(inputBytes, cancel, error);
      line := Hear(line.(flags := flags, status := status, open := nbyte > 0), ReadStopped);
    }

    method ReadDone(ghost data: seq<byte>, nbyte: nat)
      requires Shape() && |line.queue| < 2 && inputBytes > 0 && nbyte <= packetSize && status <= 0
      requires flags.writing ==> line.queue != []
      modifies `input, `inputBytes, `bytesInBuffer, `line
      ensures Shape() && line == Take(Hear(old(line), Completed(data, nbyte)), nbyte)
    {
      inputBytes := nbyte;
      line := Hear(line, Completed(data, nbyte));
      CompleteRead(inputBytes);
    }

    /** The first part of `handle_data_ready`; the device has left `nbyte` in the request. */
    method ReadEnded(data: seq<byte>, nbyte: int, cancel: bool, error: bool)
      requires Shape() && Sound(line) && Completes(line, DataReady(data, nbyte, cancel, error))
      modifies `input, `inputBytes, `flags, `status, `buffer, `bytesInBuffer, `line
      ensures Shape() && line == ReadEnds(old(line), data, nbyte, cancel, error)
    {
      ReadArrived(data);
      if nbyte < 0 || cancel || error {
        ReadFailed(nbyte, cancel, error);
      } else {
        ReadDone(data, nbyte);
      }
    }

    method MarkWritten()
      requires Shape()
      modifies `flags, `line
      ensures Shape() && line == old(line).(flags := old(line).flags.(writing := false))
    {
      flags := flags.(writing := false);
      line := line.(flags := line.flags.(writing := false));
    }

    method WriteFailed(nbyte: int, cancel: bool, error: bool)
      requires Shape() && !flags.writing && (nbyte < 0 || cancel || error)
      modifies `outputBytes, `flags, `status, `line
      ensures Shape()
      ensures line == Tell(old(line).(flags := Reported(old(line).flags, cancel, error),
                                      status := if nbyte < 0 then nbyte else EIO), WriteStopped)
    {
      outputBytes := nbyte;
      StopOnEvent(outputBytes, cancel, error);
      line := Tell(line.(flags := flags, status := status), WriteStopped);
    }

    method WriteDone(ghost n: nat, nbyte: nat)
      requires Shape() && !flags.writing && line.queue != []
      modifies `output, `outputBytes, `bytesInBuffer, `line
      ensures Shape() && line == Leave(Tell(old(line), Finished(|old(line).queue[0]|, n)))
    {
      outputBytes := nbyte;
      line := Tell(line, Finished(|line.queue[0]|, n));
      CompleteWrite();
    }

    /** The first part of `handle_write_complete`. */
    method WriteEnded(d: Devices, ghost n: nat, nbyte: int, cancel: bool, error: bool)
      requires Shape() && Sound(line) && Fitting(d) && Completes(line, WriteComplete(n, nbyte, cancel, error))
      modifies `output, `outputBytes, `flags, `status, `bytesInBuffer, `writeCalls, `line
      ensures Shape() && line == WriteEnds(old(line), d, n, nbyte, cancel, error)
    {
      MarkWritten();
      if nbyte < 0 || cancel || error {
        WriteFailed(nbyte, cancel, error);
      } else {
        NotWriting(old(line), n);
        WriteDone(n, nbyte);
        var written := WriteToDevice(d);
      }
    }

    /** `handle_data_ready` */
    method HandleDataReady(d: Devices, data: seq<byte>, nbyte: int, cancel: bool, error: bool)
      requires Valid() && Fitting(d) && flags.inUse && Completes(line, DataReady(data, nbyte, cancel, error))
      modifies `input, `inputBytes, `output, `outputBytes, `flags, `status, `buffer, `bytesInBuffer,
        `readCalls, `writeCalls, `line
      ensures Valid() && line == Handled(old(line), d, DataReady(data, nbyte, cancel, error))
    {
      ghost var e := DataReady(data, nbyte, cancel, error);
      StepKeeps(line, d, e);
      ReadEndsKeeps(line, data, nbyte, cancel, error);
      TurnSteps(d);
      ReadEnded(data, nbyte, cancel, error);
      ghost var o;
      var ret;
      ret, o := Pump(d, Turn(d));
    }

    /** `handle_write_complete` */
    method HandleWriteComplete(d: Devices, ghost n: nat, nbyte: int, cancel: bool, error: bool)
      requires Valid() && Fitting(d) && flags.inUse && Completes(line, WriteComplete(n, nbyte, cancel, error))
      modifies `input, `inputBytes, `output, `outputBytes, `flags, `status, `buffer, `bytesInBuffer,
        `readCalls, `writeCalls, `line
      ensures Valid() && line == Handled(old(line), d, WriteComplete(n, nbyte, cancel, error))
    {
      ghost var e := WriteComplete(n, nbyte, cancel, error);
      StepKeeps(line, d, e);
      WriteEndsKeeps(line, d, n, nbyte, cancel, error);
      TurnSteps(d);
      WriteEnded(d, n, nbyte, cancel, error);
      ghost var o;
      var ret;
      ret, o := Pump(d, Turn(d));
    }

    /** `devfs_execute_read_handler`: the request names the handler only while the connection is in use. */
    method ReadCompleted(d: Devices, data: seq<byte>, nbyte: int, cancel: bool, error: bool)
      requires Valid() && Fitting(d) && Possible(line, DataReady(data, nbyte, cancel, error))
      modifies `input, `inputBytes, `output, `outputBytes, `flags, `status, `buffer, `bytesInBuffer,
        `readCalls, `writeCalls, `line
      ensures Valid() && line == Step(old(line), d, DataReady(data, nbyte, cancel, error)).0
    {
      if flags.inUse {
        HandleDataReady(d, data, nbyte, cancel, error);
      }
    }

    /** `devfs_execute_write_handler` */
    method WriteCompleted(d: Devices, ghost n: nat, nbyte: int, cancel: bool, error: bool)
      requires Valid() && Fitting(d) && Possible(line, WriteComplete(n, nbyte, cancel, error))
      modifies `input, `inputBytes, `output, `outputBytes, `flags, `status, `buffer, `bytesInBuffer,
        `readCalls, `writeCalls, `line
      ensures Valid() && line == Step(old(line), d, WriteComplete(n, nbyte, cancel, error)).0
    {
      if flags.inUse {
        HandleWriteComplete(d, n, nbyte, cancel, error);
      }
    }

    method MarkDestroyed()
      requires Shape()
      modifies `status, `flags, `line
      ensures Shape() && line == old(line).(flags := old(line).flags.(destroyed := true), status := ENOEXEC)
    {
      status, flags := ENOEXEC, flags.(destroyed := true);
      line := line.(flags := line.flags.(destroyed := true), status := ENOEXEC);
    }

    /** `destroy_connection` */
    method Destroy()
      requires Valid()
      modifies `status, `flags, `input, `inputBytes, `output, `outputBytes, `bytesInBuffer, `line
      ensures Valid() && line == Destroyed(old(line))
    {
      DestroyedKeeps(line);
      if flags.failed || flags.canceled {
        Wipe();
      } else {
        MarkDestroyed();
      }
    }

    /** `clean_connections`, for this one. */
    method CleanUp()
      requires Valid()
      modifies `status, `flags, `input, `inputBytes, `output, `outputBytes, `bytesInBuffer, `line
      ensures Valid() && line == if old(line).flags.failed then Wiped(old(line)) else old(line)
    {
      if flags.failed {
        Destroy();
      }
    }

    method Configure(wanted: nat, limit: nat, zero: bool, ghost start: Line)
      requires Shape() && line == Wiped(start) && output == 0
      modifies `packetSize, `transactionLimit, `fillZero, `flags, `inputBytes, `outputBytes, `line
      ensures Shape() && line == SetUp(start, wanted, limit, zero)
    {
      transactionLimit, fillZero := limit, zero;
      packetSize := if wanted > bufferSize then bufferSize else wanted;
      inputBytes, outputBytes := packetSize, packetSize;
      flags := NO_FLAGS.(inUse := true, connected := true);
      line := SetUp(start, wanted, limit, zero);
    }

    /** `create_connection` for a persistent connection, once its two devices are open. */
    method Create(d: Devices, wanted: nat, limit: nat, zero: bool) returns (ret: int)
      requires Valid() && Fitting(d)
      modifies this
      ensures Valid() && (line, ret) == Created(old(line), d, wanted, limit, zero)
    {
      if flags != NO_FLAGS {
        return EBUSY;
      }
      CreatedKeeps(line, d, wanted, limit, zero);
      SetUpKeeps(line, wanted, limit, zero);
      TurnSteps(d);
      ghost var start := line;
      Wipe();
      Configure(wanted, limit, zero, start);
      ghost var o;
      ret, o := Pump(d, Turn(d));
      if ret < 0 {
        Wipe();
        return EIO;
      }
      ret := 0;
    }

    /** Any event, with what the caller is told. */
    method Execute(d: Devices, e: Event) returns (ret: int)
      requires Valid() && Fitting(d) && Possible(line, e)
      modifies this
      ensures Valid() && (line, ret) == Step(old(line), d, e)
    {
      ret := 0;
      match e
      case Create(wanted, limit, zero) => ret := Create(d, wanted, limit, zero);
      case Destroy => Destroy();
      case Clean => CleanUp();
      case DataReady(data, nbyte, cancel, error) => ReadCompleted(d, data, nbyte, cancel, error);
      case WriteComplete(n, nbyte, cancel, error) => WriteCompleted(d, n, nbyte, cancel, error);
    }

    /** Any run of events on the buffers is the same run on the line of packets. */
    method ExecuteAll(d: Devices, events: seq<Event>)
      requires Valid() && Fitting(d) && CanRun(line, d, events)
      modifies this
      ensures Valid() && Run(old(line), d, events, line)
      decreases |events|
    {
      if events != [] {
        ghost var start := line;
        var ret := Execute(d, events[0]);
        assert Step(start, d, events[0]).0 == line;
        ExecuteAll(d, events[1..]);
      }
    }
  }
}
