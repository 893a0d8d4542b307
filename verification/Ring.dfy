/** A ring of slots whose tail is parked at the ring size when the ring is full. */
module Ring {

  ghost predicate InRing(size: nat, head: nat, tail: nat)
  {
    head < size && tail <= size
  }

  /** Stored values, oldest first. */
  function Contents<T>(b: seq<T>, head: nat, tail: nat): seq<T>
    requires InRing(|b|, head, tail)
  {
    if tail == |b| then b[head..] + b[..head]
    else if tail <= head then b[tail..head]
    else b[tail..] + b[..head]
  }

  /** The slot after `i`. */
  function Next(i: nat, size: nat): nat
  {
    if i + 1 == size then 0 else i + 1
  }

  /** Tail after the head moved to `head`: parked when the head has caught up with it. */
  function TailAfterPush(head: nat, tail: nat, size: nat): nat
  {
    if head == tail then size else tail
  }

  /** The slot of the oldest value. */
  function Oldest(head: nat, tail: nat, size: nat): nat
  {
    if tail == size then head else tail
  }

  /** Number of stored values, from the positions alone. */
  function Count(size: nat, head: nat, tail: nat): nat
    requires InRing(size, head, tail)
  {
    if tail == size then size else if head >= tail then head - tail else size - tail + head
  }

  lemma CountSpec<T>(b: seq<T>, head: nat, tail: nat)
    requires InRing(|b|, head, tail)
    ensures |Contents(b, head, tail)| == Count(|b|, head, tail)
    ensures head == tail <==> Contents(b, head, tail) == []
    ensures tail == |b| <==> |Contents(b, head, tail)| == |b|
  {}

  lemma PushFull<T>(b: seq<T>, head: nat, x: T)
    requires head < |b|
    ensures Contents(b[head := x], Next(head, |b|), |b|) == Contents(b, head, |b|)[1..] + [x]
  {
    var b', q := b[head := x], Contents(b, head, |b|);
    if head + 1 == |b| {
      assert b'[0..] == b' && q == [b[head]] + b[..head];
    } else {
      assert b'[head + 1..] == b[head + 1..] && b'[..head + 1] == b[..head] + [x];
      assert q[1..] == b[head + 1..] + b[..head];
    }
  }

  lemma PushRoom<T>(b: seq<T>, head: nat, tail: nat, x: T)
    requires head < |b| && tail < |b|
    ensures var head' := Next(head, |b|);
      Contents(b[head := x], head', TailAfterPush(head', tail, |b|)) == Contents(b, head, tail) + [x]
  {
    var b' := b[head := x];
    if tail <= head {
      assert b'[tail..head + 1] == b[tail..head] + [x];
    } else {
      assert b'[tail..] == b[tail..] && b'[..head + 1] == b[..head] + [x];
    }
  }

  /** Writing at the head and advancing it appends, dropping the oldest value of a full ring. */
  lemma Push<T>(b: seq<T>, head: nat, tail: nat, x: T)
    requires InRing(|b|, head, tail)
    ensures var head' := Next(head, |b|);
      var b', tail' := b[head := x], TailAfterPush(head', tail, |b|);
      var q := Contents(b, head, tail);
      && InRing(|b|, head', tail')
      && Contents(b', head', tail') == (if tail == |b| then q[1..] + [x] else q + [x])
  {
    CountSpec(b, head, tail);
    if tail == |b| {
      PushFull(b, head, x);
    } else {
      PushRoom(b, head, tail, x);
    }
  }

  /** Moving the tail past the oldest value removes it. */
  lemma Pop<T>(b: seq<T>, head: nat, tail: nat)
    requires InRing(|b|, head, tail) && head != tail
    ensures var oldest := Oldest(head, tail, |b|);
      && Contents(b, head, tail) != []
      && b[oldest] == Contents(b, head, tail)[0]
      && Contents(b, head, Next(oldest, |b|)) == Contents(b, head, tail)[1..]
  {
    CountSpec(b, head, tail);
    var t := Next(Oldest(head, tail, |b|), |b|);
    CountSpec(b, head, t);
    var q, q' := Contents(b, head, tail), Contents(b, head, t);
    forall i | 0 <= i < |q'| ensures q'[i] == q[1..][i] {}
  }
}
