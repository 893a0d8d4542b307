/** What a switchboard connection carries, in terms of what its two devices said. */
module LineFlow {
  import opened Common
  import opened PacketLine

  /** The bytes of a run of packets. */
  function Flat(packets: seq<seq<byte>>): seq<byte>
  {
    if packets == [] then [] else Flat(packets[..|packets| - 1]) + packets[|packets| - 1]
  }

  // ---- the input side ----

  /** The bytes the input device supplied. */
  function Supply(heard: seq<Heard>): seq<byte>
  {
    if heard == [] then [] else Supply(heard[..|heard| - 1]) + Bytes(heard[|heard| - 1])
  }

  ghost predicate AllStraight(heard: seq<Heard>)
  {
    forall i :: 0 <= i < |heard| ==> Straight(heard[i])
  }

  lemma LastStraight(heard: seq<Heard>)
    requires heard != []
    ensures AllStraight(heard) <==> AllStraight(heard[..|heard| - 1]) && Straight(heard[|heard| - 1])
  {
    var n := |heard| - 1;
    assert forall i :: 0 <= i < n ==> heard[..n][i] == heard[i];
  }

  lemma {:induction false} SupplyLength(heard: seq<Heard>, taken: seq<seq<byte>>)
    requires Carried(heard, taken)
    ensures |Supply(heard)| <= |Flat(taken)|
    ensures |Supply(heard)| == |Flat(taken)| <==> AllStraight(heard)
    decreases |heard|
  {
    if heard == [] {
    } else {
      var before, h := heard[..|heard| - 1], heard[|heard| - 1];
      LastStraight(heard);
      SupplyLength(before, if Counted(h) == 0 then taken else taken[..|taken| - 1]);
    }
  }

  /**
   What came in is exactly what the input device supplied if and only if no read was answered with nothing and every
   read that completed later had as many bytes as its request was left counting.
   */
  lemma {:induction false} InputExact(heard: seq<Heard>, taken: seq<seq<byte>>)
    requires Carried(heard, taken)
    ensures Flat(taken) == Supply(heard) <==> AllStraight(heard)
    decreases |heard|
  {
    SupplyLength(heard, taken);
    if heard == [] {
    } else {
      var before, h := heard[..|heard| - 1], heard[|heard| - 1];
      LastStraight(heard);
      InputExact(before, if Counted(h) == 0 then taken else taken[..|taken| - 1]);
    }
  }

  // ---- the output side ----

  /** The bytes the output device took. */
  ghost function Received(told: seq<Told>, given: seq<seq<byte>>): seq<byte>
    requires Handed(told, given)
    decreases |told|
  {
    if told == [] then []
    else
      var before, t := told[..|told| - 1], told[|told| - 1];
      match Accepted(t)
      case None => Received(before, given)
      case Some(n) => Received(before, given[..|given| - 1]) + given[|given| - 1][..n]
  }

  /** A write taken as it was offered. */
  predicate Whole(t: Told)
  {
    Accepted(t).Some? ==> Accepted(t).value == Offered(t)
  }

  ghost predicate AllWhole(told: seq<Told>)
  {
    forall i :: 0 <= i < |told| ==> Whole(told[i])
  }

  lemma LastWhole(told: seq<Told>)
    requires told != []
    ensures AllWhole(told) <==> AllWhole(told[..|told| - 1]) && Whole(told[|told| - 1])
  {
    var n := |told| - 1;
    assert forall i :: 0 <= i < n ==> told[..n][i] == told[i];
  }

  lemma {:induction false} ReceivedLength(told: seq<Told>, given: seq<seq<byte>>)
    requires Handed(told, given)
    ensures |Received(told, given)| <= |Flat(given)|
    ensures |Received(told, given)| == |Flat(given)| <==> AllWhole(told)
    decreases |told|
  {
    if told == [] {
    } else {
      var before, t := told[..|told| - 1], told[|told| - 1];
      LastWhole(told);
      ReceivedLength(before, if Accepted(t).None? then given else given[..|given| - 1]);
    }
  }

  /** The output device got exactly the packets that went out if and only if it took every offer whole. */
  lemma {:induction false} OutputExact(told: seq<Told>, given: seq<seq<byte>>)
    requires Handed(told, given)
    ensures Received(told, given) == Flat(given) <==> AllWhole(told)
    decreases |told|
  {
    ReceivedLength(told, given);
    if told == [] {
    } else {
      var before, t := told[..|told| - 1], told[|told| - 1];
      LastWhole(told);
      OutputExact(before, if Accepted(t).None? then given else given[..|given| - 1]);
      if AllWhole(told) && Accepted(t).Some? {
        assert given[|given| - 1][..Accepted(t).value] == given[|given| - 1];
      }
    }
  }

  // ---- end to end ----

  lemma {:induction false} FlatAppend(a: seq<seq<byte>>, b: seq<seq<byte>>)
    ensures Flat(a + b) == Flat(a) + Flat(b)
    decreases |b|
  {
    if b == [] {
      assert a + b == a;
    } else {
      var n := |b| - 1;
      assert (a + b)[..|a| + n] == a + b[..n];
      FlatAppend(a, b[..n]);
    }
  }

  /** Then what the output device got and what waits in the buffers is what the input device supplied. */
  lemma CarriesAll(l: Line)
    requires Inv(l) && l.flags.inUse && AllStraight(l.heard) && AllWhole(l.told)
    ensures Received(l.told, l.given) + Flat(l.queue) == Supply(l.heard)
  {
    InputExact(l.heard, l.taken);
    OutputExact(l.told, l.given);
    FlatAppend(l.given, l.queue);
  }
}
