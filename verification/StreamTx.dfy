/**
 The transmit side of a stream: a frame ring played by a circular DMA that reports each
 half it finishes, with application writes filling the other half.
 */
module StreamTx {
  import opened Common

  type Frame = seq<int>

  datatype Event = Low | High

  /** What may be asked of a stream, and what may happen to it. */
  datatype Call = Writing(data: seq<Frame>, aligned: bool, nonBlocking: bool) | Played(result: int) | Stopping

  datatype Result = Frames(n: nat) | Again | Busy | Invalid

  function Zeros(n: nat, zero: Frame): (r: seq<Frame>)
    ensures |r| == n && forall i :: 0 <= i < n ==> r[i] == zero
  {
    seq(n, _ => zero)
  }

  function Flatten(chunks: seq<seq<Frame>>): seq<Frame>
  {
    if chunks == [] then [] else Flatten(chunks[..|chunks| - 1]) + chunks[|chunks| - 1]
  }

  /** Every half played is what the application gave for it, padded with zero frames. */
  ghost predicate Padded(half: nat, zero: Frame, given: seq<seq<Frame>>, played: seq<seq<Frame>>)
    decreases |given|
  {
    |given| == |played| && (given == [] ||
      var n := |given| - 1;
      && |given[n]| <= half && played[n] == given[n] + Zeros(half - |given[n]|, zero)
      && Padded(half, zero, given[..n], played[..n]))
  }

  /** Nothing the application gave is missing, and nothing else is played but padding. */
  ghost predicate History(half: nat, zero: Frame, given: seq<seq<Frame>>, played: seq<seq<Frame>>,
                          accepted: seq<Frame>, written: seq<Frame>)
  {
    accepted == Flatten(given) + written && Padded(half, zero, given, played)
  }

  lemma HistoryWrite(half: nat, zero: Frame, given: seq<seq<Frame>>, played: seq<seq<Frame>>,
                     accepted: seq<Frame>, written: seq<Frame>, more: seq<Frame>)
    requires History(half, zero, given, played, accepted, written)
    ensures History(half, zero, given, played, accepted + more, written + more)
  {
    assert Flatten(given) + (written + more) == (Flatten(given) + written) + more;
  }

  lemma HistoryPlay(half: nat, zero: Frame, given: seq<seq<Frame>>, played: seq<seq<Frame>>,
                    accepted: seq<Frame>, written: seq<Frame>)
    requires History(half, zero, given, played, accepted, written) && |written| <= half
    ensures History(half, zero, given + [written], played + [written + Zeros(half - |written|, zero)], accepted, [])
  {
    var given', played' := given + [written], played + [written + Zeros(half - |written|, zero)];
    assert given'[..|given|] == given && played'[..|played|] == played;
    assert Flatten(given') + [] == Flatten(given) + written;
  }

  lemma StartHistory(half: nat, zero: Frame)
    ensures History(half, zero, [[]], [Zeros(half, zero)], [], [])
  {
    var given: seq<seq<Frame>>, played := [[]], [Zeros(half, zero)];
    assert given[..0] == [] && played[..0] == [];
    assert [] + Zeros(half, zero) == Zeros(half, zero);
  }

  class Stream {
    const frames: array<Frame>
    const zero: Frame
    var head: nat
    var tail: nat
    var writeBlock: bool
    var overflow: bool
    var started: bool
    var stopping: bool
    var accessCount: nat
    var error: int
    var pendingWrite: Option<seq<Frame>>

    /** The half the DMA is playing. */
    ghost var playing: nat
    /** Frames the application has put in the other half. */
    ghost var written: seq<Frame>
    /** For each half played so far, and the one playing: what the application gave, and what is played. */
    ghost var given: seq<seq<Frame>>
    ghost var played: seq<seq<Frame>>
    /** Every frame taken from the application. */
    ghost var accepted: seq<Frame>

    constructor (size: nat, frame: Frame)
      requires 2 <= size <= 65534 && size % 2 == 0
      ensures fresh(frames) && frames.Length == size && zero == frame && !started
    {
      frames, zero := new Frame[size](_ => frame), frame;
      head, tail, accessCount, error, pendingWrite := 0, 0, 0, 0, None;
      writeBlock, overflow, started, stopping := false, false, false, false;
      playing, written, given, played, accepted := 0, [], [], [], [];
    }

    ghost function Half(): nat
    {
      frames.Length / 2
    }

    /** First frame of half `h`. */
    ghost function First(h: int): nat
    {
      if h == 0 then 0 else Half()
    }

    ghost function Wrap(i: nat): nat
    {
      if i == frames.Length then 0 else i
    }

    /**
     Of the half that starts at `f`, `k` frames have been released and the first `|written|` of those
     are written; everything else in the ring counts as stored.
     */
    ghost predicate Window(f: nat, k: nat)
      reads `head, `tail, `written, frames
    {
      && 2 <= frames.Length <= 65534 && frames.Length % 2 == 0 && (f == 0 || f == Half())
      && |written| <= k <= Half()
      && head == Wrap(f + |written|)
      && tail == (if |written| == k then frames.Length else Wrap(f + k))
      && forall i :: 0 <= i < |written| ==> frames[f + i] == written[i]
    }

    /** The half playing is the last one given to the DMA. */
    ghost predicate Playing()
      reads `playing, `played, frames
    {
      && 2 <= frames.Length && frames.Length % 2 == 0 && playing <= 1
      && played != [] && |played[|played| - 1]| == Half()
      && var half := played[|played| - 1];
         forall i :: First(playing) <= i < First(playing) + Half() ==> frames[i] == half[i - First(playing)]
    }

    ghost predicate Valid()
      reads `head, `tail, `written, `playing, `given, `played, `accepted, `writeBlock, `pendingWrite, frames
    {
      && Consistent()
      && (pendingWrite.Some? ==> pendingWrite.value != [] && |written| == Half())
    }

    /** `ffifo_inc_head` */
    method IncHead()
      modifies `head, `tail
      ensures head == Wrap(old(head) + 1)
      ensures tail == if head == old(tail) then frames.Length else old(tail)
    {
      head := head + 1;
      if head == frames.Length {
        head := 0;
      }
      if head == tail {
        tail := frames.Length;
      }
    }

    /** `ffifo_inc_tail` */
    method IncTail()
      modifies `tail
      ensures tail == Wrap(old(tail) + 1)
    {
      tail := tail + 1;
      if tail == frames.Length {
        tail := 0;
      }
    }

    /** One frame at the head. */
    method PutFrame(x: Frame, ghost f: nat, ghost k: nat)
      requires Window(f, k) && |written| < k
      modifies `head, `tail, `written, frames
      ensures Window(f, k) && written == old(written) + [x]
      ensures forall i :: 0 <= i < frames.Length && i != f + |old(written)| ==> frames[i] == old(frames[i])
    {
      frames[head] := x;
      written := written + [x];
      IncHead();
    }

    /** `ffifo_write_buffer` in write-block mode. */
    method WriteBuffer(data: seq<Frame>, ghost f: nat, ghost k: nat) returns (n: nat)
      requires Window(f, k) && writeBlock
      modifies `head, `tail, `written, frames
      ensures Window(f, k)
      ensures n == Min(|data|, k - |old(written)|) && written == old(written) + data[..n]
      ensures forall i :: 0 <= i < frames.Length && !(f + |old(written)| <= i < f + |old(written)| + n) ==>
        frames[i] == old(frames[i])
    {
      n := 0;
      while n < |data|
        invariant Window(f, k) && n <= |data| && n <= k - |old(written)|
        invariant written == old(written) + data[..n]
        invariant forall i :: 0 <= i < frames.Length && !(f + |old(written)| <= i < f + |old(written)| + n) ==>
          frames[i] == old(frames[i])
      {
        if tail == frames.Length && writeBlock {
          break;
        }
        PutFrame(data[n], f, k);
        n := n + 1;
      }
    }

    /** Ring positions at START: half the ring counts as stored. */
    method ResetPositions()
      requires 2 <= frames.Length && frames.Length % 2 == 0
      modifies `head, `tail
      ensures head == Half() && tail == 0
    {
      head, tail := 0, 0;
      var i := 0;
      while i < frames.Length / 2
        invariant 0 <= i <= frames.Length / 2 && head == i && tail == 0
      {
        IncHead();
        i := i + 1;
      }
    }

    method ClearFrames()
      modifies frames
      ensures forall i :: 0 <= i < frames.Length ==> frames[i] == zero
    {
      forall i | 0 <= i < frames.Length {
        frames[i] := zero;
      }
    }

    /** START of the stream: half a ring of zero frames is playing, the other half is free. */
    method Start()
      requires 2 <= frames.Length <= 65534 && frames.Length % 2 == 0
      modifies this, frames
      ensures Valid() && started && !stopping && playing == 0 && written == [] && accepted == []
      ensures given == [[]] && played == [Zeros(Half(), zero)] && pendingWrite.None?
      ensures !overflow && accessCount == 0 && error == 0
    {
      ResetFlags();
      StartGhosts();
      ResetPositions();
      ClearFrames();
    }

    method ResetFlags()
      modifies `started, `stopping, `writeBlock, `overflow, `accessCount, `error, `pendingWrite
      ensures started && !stopping && writeBlock && !overflow && accessCount == 0 && error == 0 && pendingWrite.None?
    {
      started, stopping, writeBlock, overflow := true, false, true, false;
      accessCount, error, pendingWrite := 0, 0, None;
    }

    ghost method StartGhosts()
      modifies `playing, `written, `accepted, `given, `played
      ensures playing == 0 && written == [] && accepted == [] && given == [[]] && played == [Zeros(Half(), zero)]
      ensures History(Half(), zero, given, played, accepted, written)
    {
      playing, written, accepted, given, played := 0, [], [], [[]], [Zeros(Half(), zero)];
      StartHistory(Half(), zero);
    }

    /** STOP: no more frames are taken, and the stream ends after the next full pass. */
    method Stop()
      requires Valid()
      modifies `started, `stopping
      ensures Valid() && !started && stopping
    {
      started, stopping := false, true;
    }

    /** The invariant without the pending request. */
    ghost predicate Consistent()
      reads `head, `tail, `written, `playing, `given, `played, `accepted, `writeBlock, frames
    {
      && Window(First(1 - playing), Half()) && Playing() && writeBlock
      && History(Half(), zero, given, played, accepted, written)
    }

    /** Frames of the application into the half that is not playing. */
    method TakeFrames(data: seq<Frame>) returns (n: nat)
      requires Consistent()
      modifies `head, `tail, `written, `accepted, frames
      ensures Consistent() && n == Min(|data|, Half() - |old(written)|)
      ensures written == old(written) + data[..n] && accepted == old(accepted) + data[..n]
      ensures forall i :: First(playing) <= i < First(playing) + Half() ==> frames[i] == old(frames[i])
    {
      n := WriteBuffer(data, First(1 - playing), Half());
      HistoryWrite(Half(), zero, given, played, accepted, old(written), data[..n]);
      accepted := accepted + data[..n];
    }

    /** `stream_ffifo_write`: only frames of the half that is not playing are written. */
    method Write(data: seq<Frame>, aligned: bool, nonBlocking: bool) returns (r: Result)
      requires Valid()
      modifies `head, `tail, `written, `accepted, `pendingWrite, frames
      ensures Valid()
      ensures forall i :: First(playing) <= i < First(playing) + Half() ==> frames[i] == old(frames[i])
      ensures !started || old(pendingWrite).Some? || data == [] || !aligned ==>
        && written == old(written) && pendingWrite == old(pendingWrite) && accepted == old(accepted)
        && r == if !started then Again else if old(pendingWrite).Some? then Busy
                else if data == [] then Frames(0) else Invalid
      ensures started && old(pendingWrite).None? && data != [] && aligned ==>
        var n := Min(|data|, Half() - |old(written)|);
        && written == old(written) + data[..n] && accepted == old(accepted) + data[..n]
        && pendingWrite == (if n == 0 && !nonBlocking then Some(data) else None)
        && r == (if n == 0 && nonBlocking then Again else Frames(n))
    {
      if !started {
        return Again;
      }
      if pendingWrite.Some? {
        return Busy;
      }
      if |data| == 0 {
        return Frames(0);
      }
      pendingWrite := Some(data);
      if !aligned {
        r := Invalid;
      } else {
        var n := TakeFrames(data);
        r := Frames(n);
        if n == 0 && nonBlocking {
          r := Again;
        }
      }
      if r != Frames(0) {
        pendingWrite := None;
      }
    }

    /** `ffifo_data_transmitted` with a request pending: it is completed as soon as one frame fits. */
    method CompleteWrite(ghost f: nat, ghost k: nat) returns (done: Option<nat>)
      requires Window(f, k) && writeBlock && (pendingWrite.Some? ==> pendingWrite.value != [])
      modifies `head, `tail, `written, `accepted, `pendingWrite, frames
      ensures Window(f, k)
      ensures forall i :: 0 <= i < frames.Length && !(f <= i < f + k) ==> frames[i] == old(frames[i])
      ensures if old(pendingWrite).None? || |old(written)| == k
        then done.None? && written == old(written) && pendingWrite == old(pendingWrite) && accepted == old(accepted)
        else var n := Min(|old(pendingWrite).value|, k - |old(written)|);
          && done == Some(n) && pendingWrite.None?
          && written == old(written) + old(pendingWrite).value[..n]
          && accepted == old(accepted) + old(pendingWrite).value[..n]
    {
      done := None;
      if pendingWrite.Some? {
        var n := WriteBuffer(pendingWrite.value, f, k);
        if n > 0 {
          accepted := accepted + pendingWrite.value[..n];
          pendingWrite, done := None, Some(n);
        }
      }
    }

    /** The half about to play is topped up with zero frames. */
    method FillWithZeros(ghost f: nat)
      requires Window(f, Half()) && writeBlock
      modifies `head, `tail, `written, `overflow, frames
      ensures Window(f, Half()) && |written| == Half()
      ensures written == old(written) + Zeros(Half() - |old(written)|, zero)
      ensures overflow == (old(overflow) || |old(written)| < Half())
      ensures forall i :: 0 <= i < frames.Length && !(f + |old(written)| <= i < f + Half()) ==>
        frames[i] == old(frames[i])
    {
      if tail != frames.Length {
        overflow := true;
        while tail != frames.Length
          invariant Window(f, Half()) && |written| >= |old(written)|
          invariant written == old(written) + Zeros(|written| - |old(written)|, zero)
          invariant forall i :: 0 <= i < frames.Length && !(f + |old(written)| <= i < f + Half()) ==>
            frames[i] == old(frames[i])
          decreases Half() - |written|
          modifies `head, `tail, `written, frames
        {
          var n := WriteBuffer([zero], f, Half());
        }
      }
    }

    /** One more frame of the finished half is free. */
    method ReleaseFrame(ghost f: nat, ghost k: nat)
      requires Window(f, k) && k < Half()
      modifies `tail
      ensures Window(f, k + 1)
    {
      if tail == frames.Length {
        tail := head;
      }
      IncTail();
    }

    /** `k` frames of the half are released, and what waited is in them, if there are any. */
    ghost predicate Released(f: nat, k: nat, waiting: Option<seq<Frame>>, done: Option<nat>, before: seq<Frame>)
      reads `head, `tail, `written, `accepted, `pendingWrite, frames
    {
      && Window(f, k) && accepted == before + written
      && if k == 0 || waiting.None? then pendingWrite == waiting && done.None? && written == []
         else pendingWrite.None? && done.Some? && 1 <= done.value <= |waiting.value|
              && written == waiting.value[..done.value]
    }

    /** One more frame is released, and a pending write completed with it. */
    method ReleaseOne(done: Option<nat>, ghost f: nat, ghost k: nat, ghost waiting: Option<seq<Frame>>,
                      ghost before: seq<Frame>) returns (done': Option<nat>)
      requires k < Half() && Released(f, k, waiting, done, before) && writeBlock
      requires waiting.Some? ==> waiting.value != []
      modifies `head, `tail, `written, `accepted, `pendingWrite, `accessCount, frames
      ensures Released(f, k + 1, waiting, done', before) && accessCount == old(accessCount) + 1
      ensures forall i :: 0 <= i < frames.Length && !(f <= i < f + Half()) ==> frames[i] == old(frames[i])
    {
      accessCount := accessCount + 1;
      ReleaseFrame(f, k);
      var d := CompleteWrite(f, k + 1);
      done' := if d.Some? then d else done;
    }

    /** Releasing the finished half frame by frame; a pending write goes into released frames only. */
    method ReleaseHalf(ghost f: nat) returns (done: Option<nat>)
      requires Window(f, 0) && writeBlock && (pendingWrite.Some? ==> pendingWrite.value != [])
      modifies `head, `tail, `written, `accepted, `pendingWrite, `accessCount, frames
      ensures Window(f, Half()) && pendingWrite.None? && accessCount == old(accessCount) + Half()
      ensures forall i :: 0 <= i < frames.Length && !(f <= i < f + Half()) ==> frames[i] == old(frames[i])
      ensures done.Some? == old(pendingWrite).Some?
      ensures done.Some? ==>
        1 <= done.value <= |old(pendingWrite).value| && written == old(pendingWrite).value[..done.value]
      ensures done.None? ==> written == []
      ensures accepted == old(accepted) + written
    {
      ghost var waiting, before := pendingWrite, accepted;
      done := None;
      var k := 0;
      while k < frames.Length / 2
        invariant 0 <= k <= frames.Length / 2 && Released(f, k, waiting, done, before)
        invariant accessCount == old(accessCount) + k
        invariant forall i :: 0 <= i < frames.Length && !(f <= i < f + Half()) ==> frames[i] == old(frames[i])
      {
        done := ReleaseOne(done, f, k, waiting, before);
        k := k + 1;
      }
    }

    /** The DMA moves on: the other half, topped up with zero frames, is playing, and nothing is released yet. */
    method PlayNextHalf()
      requires Consistent()
      modifies `head, `tail, `written, `overflow, `playing, `given, `played, frames
      ensures playing == 1 - old(playing) && Playing() && written == [] && Window(First(1 - playing), 0)
      ensures given == old(given) + [old(written)]
      ensures played == old(played) + [old(written) + Zeros(Half() - |old(written)|, zero)]
      ensures overflow == (old(overflow) || |old(written)| < Half())
      ensures History(Half(), zero, given, played, accepted, [])
    {
      HistoryPlay(Half(), zero, given, played, accepted, written);
      given := given + [written];
      FillWithZeros(First(1 - playing));
      TurnOver();
    }

    /** The half that is full of written frames is the one that plays. */
    ghost method TurnOver()
      requires playing <= 1 && Window(First(1 - playing), Half()) && |written| == Half()
      modifies `playing, `played, `written
      ensures playing == 1 - old(playing) && played == old(played) + [old(written)] && written == []
      ensures Playing() && Window(First(1 - playing), 0)
    {
      playing := 1 - playing;
      played := played + [written];
      assert played[|played| - 1] == written;
      written := [];
    }

    /** The finished half is free again, the pending write in its first frames. */
    method FillReleased() returns (done: Option<nat>)
      requires Playing() && written == [] && Window(First(1 - playing), 0) && writeBlock
      requires History(Half(), zero, given, played, accepted, []) && (pendingWrite.Some? ==> pendingWrite.value != [])
      modifies `head, `tail, `written, `accepted, `pendingWrite, `accessCount, frames
      ensures Consistent() && pendingWrite.None? && accessCount == old(accessCount) + Half()
      ensures accepted == old(accepted) + written
      ensures done.Some? == old(pendingWrite).Some?
      ensures done.Some? ==>
        1 <= done.value <= |old(pendingWrite).value| && written == old(pendingWrite).value[..done.value]
      ensures done.None? ==> written == []
    {
      ghost var before := accepted;
      done := ReleaseHalf(First(1 - playing));
      HistoryWrite(Half(), zero, given, played, before, [], written);
      assert [] + written == written;
      assert Playing();
    }

    /** A half has been played: the application's frames and zero frames are playing, and the finished half is free. */
    method HalfPlayed() returns (done: Option<nat>)
      requires Valid()
      modifies `head, `tail, `written, `overflow, `playing, `given, `played, `accepted, `pendingWrite, `accessCount,
        frames
      ensures Valid() && playing == 1 - old(playing) && pendingWrite.None?
      ensures given == old(given) + [old(written)]
      ensures played == old(played) + [old(written) + Zeros(Half() - |old(written)|, zero)]
      ensures overflow == (old(overflow) || |old(written)| < Half())
      ensures accessCount == old(accessCount) + Half() && accepted == old(accepted) + written
      ensures done.Some? == old(pendingWrite).Some?
      ensures done.Some? ==>
        1 <= done.value <= |old(pendingWrite).value| && written == old(pendingWrite).value[..done.value]
      ensures done.None? ==> written == []
    {
      PlayNextHalf();
      done := FillReleased();
    }

    /** What a completed request is told it has written. */
    static function Reported(waiting: Option<seq<Frame>>, done: Option<nat>): seq<Frame>
    {
      if waiting.Some? && done.Some? && done.value <= |waiting.value| then waiting.value[..done.value] else []
    }

    /** `event_write_complete` */
    method WriteComplete(event: Event, result: int) returns (again: bool, done: Option<nat>)
      requires Valid() && (event.Low? <==> playing == 0)
      modifies this, frames
      ensures Valid()
      ensures result < 0 ==> !again && error == result && done.None? && unchanged(frames) && playing == old(playing)
      ensures result < 0 ==> given == old(given) && played == old(played)
      ensures result >= 0 ==> again == !(old(stopping) && event.High?) && playing == 1 - old(playing)
      ensures result >= 0 ==> given == old(given) + [old(written)]
      ensures result >= 0 ==> played == old(played) + [old(written) + Zeros(Half() - |old(written)|, zero)]
      ensures result >= 0 ==> done.Some? == old(pendingWrite).Some? && pendingWrite.None?
      ensures accepted == old(accepted) + Reported(old(pendingWrite), done)
      ensures if result >= 0 && event.High? && old(stopping) then !started && !stopping
              else started == old(started) && stopping == old(stopping)
      ensures result >= 0 ==> error == old(error) && accessCount == old(accessCount) + Half()
      ensures overflow == (old(overflow) || (result >= 0 && |old(written)| < Half()))
      ensures result < 0 ==> accessCount == old(accessCount) && written == old(written)
    {
      if result < 0 {
        error := result;
        return false, None;
      }
      done := HalfPlayed();
      again := true;
      if stopping && event.High? {
        started, stopping := false, false;
        again := false;
      }
    }

    // ---- runs ----

    /** One call or event, and the frames it reports as written; `low` says which half the DMA finishes next. */
    method Handle(c: Call, low: bool) returns (reported: seq<Frame>, low': bool)
      requires Valid() && (low <==> playing == 0)
      modifies this, frames
      ensures Valid() && (low' <==> playing == 0)
      ensures accepted == old(accepted) + reported && old(given) <= given && old(played) <= played
      ensures !c.Stopping? && !old(stopping) ==> started == old(started) && !stopping
      ensures c.Stopping? ==> !started && stopping
    {
      reported, low' := [], low;
      match c
      case Writing(data, aligned, nonBlocking) =>
        var r := Write(data, aligned, nonBlocking);
        if r.Frames? && r.n <= |data| {
          reported := data[..r.n];
        }
      case Played(result) =>
        var waiting := pendingWrite;
        var again, done := WriteComplete(if low then Low else High, result);
        reported := Reported(waiting, done);
        low' := if result < 0 then low else !low;
      case Stopping => Stop();
    }

    /**
     From START on, over every sequence of writes, halves played and stops: the frames reported as written, in order,
     are those in the halves played and the ones waiting in the other half, and what is played is those of each half
     followed by zero frames.
     */
    method RunAll(calls: seq<Call>) returns (reported: seq<Frame>)
      requires 2 <= frames.Length <= 65534 && frames.Length % 2 == 0
      modifies this, frames
      ensures Valid() && reported == Flatten(given) + written && Padded(Half(), zero, given, played)
      ensures (forall k :: 0 <= k < |calls| ==> !calls[k].Stopping?) ==> started && !stopping
    {
      Start();
      var low := true;
      reported := [];
      for k := 0 to |calls|
        invariant Valid() && (low <==> playing == 0) && reported == accepted
        invariant (forall j :: 0 <= j < k ==> !calls[j].Stopping?) ==> started && !stopping
      {
        var more;
        more, low := Handle(calls[k], low);
        reported := reported + more;
      }
    }
  }

  /** After any run without a stop, a write finds the stream started: what there is room for is taken at once. */
  method WriteAfterRun(s: Stream, calls: seq<Call>, data: seq<Frame>, nonBlocking: bool)
    returns (r: Result, ghost room: nat)
    requires 2 <= s.frames.Length <= 65534 && s.frames.Length % 2 == 0
    requires data != [] && forall k :: 0 <= k < |calls| ==> !calls[k].Stopping?
    modifies s, s.frames
    ensures s.Valid() && s.started && room <= s.frames.Length / 2
    ensures room > 0 ==> r == Frames(Min(|data|, room))
    ensures room == 0 && nonBlocking ==> r in {Again, Busy}
    ensures room == 0 && r == Frames(0) ==> s.pendingWrite == Some(data)
  {
    var reported := s.RunAll(calls);
    room := s.Half() - |s.written|;
    r := s.Write(data, true, nonBlocking);
  }

  /** A stream made and run. */
  method RunStream(size: nat, zero: Frame, calls: seq<Call>) returns (s: Stream, reported: seq<Frame>)
    requires 2 <= size <= 65534 && size % 2 == 0
    ensures fresh(s) && s.Valid() && s.frames.Length == size && s.zero == zero
    ensures reported == Flatten(s.given) + s.written && Padded(size / 2, zero, s.given, s.played)
    ensures (forall k :: 0 <= k < |calls| ==> !calls[k].Stopping?) ==> s.started
  {
    s := new Stream(size, zero);
    reported := s.RunAll(calls);
  }
}
