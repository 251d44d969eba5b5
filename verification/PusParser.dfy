/**
  Splitting a frame into PUS packets, bsp_sam9g20/tmtcbridge/PusParser.cpp.  The packet data length is
  the field of section 4.1.3.5 of CCSDS 133.0-B-2: a packet is 7 bytes longer than it says.
 */
module PusParser {

  datatype Pair = Pair(index: nat, size: nat)

  datatype Result = RETURN_OK | RETURN_FAILED | NO_PACKET_FOUND | SPLIT_PACKET | FIFO_FULL

  /** The length field of a packet that starts at `at`.  If its second byte is just behind the frame,
      the code reads that byte, whatever it is. */
  function LengthField(frame: seq<bv8>, past: bv8, at: nat): nat
    requires at + 5 <= |frame|
  {
    (frame[at + 4] as nat) * 0x100 + (if at + 5 < |frame| then frame[at + 5] else past) as nat
  }

  /** A number of two bytes, the most significant one first. */
  function Number(high: bv8, low: bv8): nat {
    256 * (high as nat) + low as nat
  }

  // ---------- what is promised ----------

  /** A packet with a nonzero length field starts at `at` and lies in the frame. */
  ghost predicate PacketAt(frame: seq<bv8>, at: nat) {
    at + 6 <= |frame| && LengthField(frame, 0, at) != 0 && at + LengthField(frame, 0, at) + 7 <= |frame|
  }

  /** Packet after packet from `at` on, but no more than there is space for. */
  ghost function Chain(frame: seq<bv8>, at: nat, space: nat): seq<Pair>
    decreases space
  {
    if space > 0 && PacketAt(frame, at) then
      var size := LengthField(frame, 0, at) + 7;
      [Pair(at, size)] + Chain(frame, at + size, space - 1)
    else []
  }

  ghost function End(pairs: seq<Pair>, at: nat): nat {
    if pairs == [] then at else pairs[|pairs|-1].index + pairs[|pairs|-1].size
  }

  lemma FieldIsNumber(frame: seq<bv8>, past: bv8, at: nat)
    requires at + 5 <= |frame|
    ensures LengthField(frame, past, at) == Number(frame[at + 4], if at + 5 < |frame| then frame[at + 5] else past)
  {
  }

  lemma {:induction false} ChainInFields(frame: seq<bv8>, at: nat, space: nat)
    ensures var pairs := Chain(frame, at, space);
            && |pairs| <= space
            && (pairs != [] ==> pairs[0].index == at)
            && (forall i :: 0 < i < |pairs| ==> pairs[i].index == pairs[i-1].index + pairs[i-1].size)
            && (forall i :: 0 <= i < |pairs| ==>
                  && PacketAt(frame, pairs[i].index)
                  && pairs[i].size == LengthField(frame, 0, pairs[i].index) + 7
                  && pairs[i].index + pairs[i].size <= |frame|)
            && (|pairs| < space ==> !PacketAt(frame, End(pairs, at)))
    decreases space
  {
    hide LengthField;
    if space > 0 && PacketAt(frame, at) {
      var size := LengthField(frame, 0, at) + 7;
      ChainInFields(frame, at + size, space - 1);
      var rest := Chain(frame, at + size, space - 1);
      assert Chain(frame, at, space) == [Pair(at, size)] + rest;
      assert End([Pair(at, size)] + rest, at) == End(rest, at + size);
    }
  }

  /** The pairs are contiguous, hence disjoint, lie in the frame, and have the sizes that the fifth and
      sixth bytes say; and they are all there are, unless space ran out. */
  lemma ChainIsExact(frame: seq<bv8>, at: nat, space: nat)
    ensures var pairs := Chain(frame, at, space);
            && |pairs| <= space
            && (pairs != [] ==> pairs[0].index == at)
            && (forall i :: 0 < i < |pairs| ==> pairs[i].index == pairs[i-1].index + pairs[i-1].size)
            && (forall i :: 0 <= i < |pairs| ==>
                  && pairs[i].index + 7 < pairs[i].index + pairs[i].size <= |frame|
                  && pairs[i].size == Number(frame[pairs[i].index + 4], frame[pairs[i].index + 5]) + 7)
            && (|pairs| < space ==> !PacketAt(frame, End(pairs, at)))
  {
    hide LengthField, Number;
    ChainInFields(frame, at, space);
    var pairs := Chain(frame, at, space);
    forall i | 0 <= i < |pairs|
      ensures pairs[i].index + 7 < pairs[i].index + pairs[i].size <= |frame|
      ensures pairs[i].size == Number(frame[pairs[i].index + 4], frame[pairs[i].index + 5]) + 7
    {
      assert PacketAt(frame, pairs[i].index);
      FieldIsNumber(frame, 0, pairs[i].index);
    }
  }

  lemma {:induction false} PairsAreDisjoint(frame: seq<bv8>, at: nat, space: nat, i: nat, j: nat)
    requires i < j < |Chain(frame, at, space)|
    ensures var pairs := Chain(frame, at, space); pairs[i].index + pairs[i].size <= pairs[j].index
    decreases j
  {
    hide LengthField;
    ChainInFields(frame, at, space);
    if i < j - 1 { PairsAreDisjoint(frame, at, space, i, j - 1); }
  }

  // ---------- frames made of packets ----------

  /** A packet with a nonzero length field. */
  ghost predicate IsPacket(p: seq<bv8>) {
    |p| >= 6 && LengthField(p, 0, 0) != 0 && |p| == LengthField(p, 0, 0) + 7
  }

  ghost predicate ArePackets(ps: seq<seq<bv8>>) {
    forall i :: 0 <= i < |ps| ==> IsPacket(ps[i])
  }

  function Concat(ps: seq<seq<bv8>>): seq<bv8> {
    if ps == [] then [] else ps[0] + Concat(ps[1..])
  }

  function Boundaries(ps: seq<seq<bv8>>, at: nat): seq<Pair>
    decreases |ps|
  {
    if ps == [] then [] else [Pair(at, |ps[0]|)] + Boundaries(ps[1..], at + |ps[0]|)
  }

  lemma PacketInFrame(before: seq<bv8>, p: seq<bv8>, after: seq<bv8>)
    requires IsPacket(p)
    ensures var frame := before + p + after;
            PacketAt(frame, |before|) && LengthField(frame, 0, |before|) + 7 == |p|
  {
    var frame := before + p + after;
    assert frame[|before| + 4] == p[4] && frame[|before| + 5] == p[5];
  }

  lemma FrameOfPackets(before: seq<bv8>, ps: seq<seq<bv8>>, after: seq<bv8>)
    requires ps != []
    ensures var frame, p, rest := before + Concat(ps) + after, ps[0], Concat(ps[1..]);
            && frame == before + p + (rest + after) == (before + p) + rest + after
            && |before + p| == |before| + |p| && |Concat(ps)| == |p| + |rest|
  {
    Regrouped(before, ps[0], Concat(ps[1..]), after);
  }

  lemma Regrouped(a: seq<bv8>, b: seq<bv8>, c: seq<bv8>, d: seq<bv8>)
    ensures a + (b + c) + d == (a + b) + (c + d) == (a + b) + c + d
  {
    assert a + (b + c) == (a + b) + c;
    assert (a + b) + c + d == (a + b) + (c + d);
  }

  /** The main result: a frame that is a concatenation of packets, with anything behind it that does not
      start a packet, is split into exactly these packets, if there is space for them. */
  lemma {:induction false} ChainFindsThePackets(before: seq<bv8>, ps: seq<seq<bv8>>, after: seq<bv8>, space: nat)
    requires ArePackets(ps) && |ps| <= space
    requires |ps| < space ==> !PacketAt(before + Concat(ps) + after, |before| + |Concat(ps)|)
    ensures Chain(before + Concat(ps) + after, |before|, space) == Boundaries(ps, |before|)
    decreases |ps|
  {
    hide LengthField, PacketAt, IsPacket, Chain, Boundaries;
    var frame := before + Concat(ps) + after;
    if ps == [] {
      NothingFound(frame, |before|, space);
    } else {
      FrameOfPackets(before, ps, after);
      PacketInFrame(before, ps[0], Concat(ps[1..]) + after);
      PacketFound(frame, |before|, space);
      ChainFindsThePackets(before + ps[0], ps[1..], after, space - 1);
      FirstBoundary(ps, |before|);
    }
  }

  lemma PacketFound(frame: seq<bv8>, at: nat, space: nat)
    requires PacketAt(frame, at) && space > 0
    ensures at + 5 <= |frame|
    ensures var size := LengthField(frame, 0, at) + 7;
            Chain(frame, at, space) == [Pair(at, size)] + Chain(frame, at + size, space - 1)
  {
  }

  lemma NothingFound(frame: seq<bv8>, at: nat, space: nat)
    requires space == 0 || !PacketAt(frame, at)
    ensures Chain(frame, at, space) == [] == Boundaries([], at)
  {
  }

  lemma FirstBoundary(ps: seq<seq<bv8>>, at: nat)
    requires ps != []
    ensures Boundaries(ps, at) == [Pair(at, |ps[0]|)] + Boundaries(ps[1..], at + |ps[0]|)
  {
  }

  /** What the pairs cut out of the frame are the packets. */
  lemma {:induction false} BoundariesCutOutThePackets(before: seq<bv8>, ps: seq<seq<bv8>>, after: seq<bv8>, i: nat)
    requires i < |ps|
    ensures |Boundaries(ps, |before|)| == |ps|
    ensures var pair := Boundaries(ps, |before|)[i];
            var frame := before + Concat(ps) + after;
            pair.index + pair.size <= |frame| && frame[pair.index..pair.index + pair.size] == ps[i]
    decreases |ps|
  {
    var frame := before + Concat(ps) + after;
    assert frame == (before + ps[0]) + Concat(ps[1..]) + after;
    if |ps| > 1 { BoundariesCutOutThePackets(before + ps[0], ps[1..], after, if i > 0 then i - 1 else 0); }
    if i == 0 { assert frame[|before|..|before| + |ps[0]|] == ps[0]; }
  }

  // ---------- the code ----------

  /** What the code finds from `at` on and what it returns; store: whether it keeps split packets. */
  ghost function Scan(frame: seq<bv8>, past: bv8, at: nat, space: nat, store: bool): (seq<Pair>, Result)
    decreases |frame| + 1 - at
  {
    if at >= |frame| || at + 5 > |frame| || LengthField(frame, past, at) == 0 then ([], RETURN_OK)
    else
      var size := LengthField(frame, past, at) + 7;
      if size > |frame| - at then (if store && space > 0 then [Pair(at, |frame| - at)] else [], SPLIT_PACKET)
      else if space == 0 then ([], FIFO_FULL)
      else
        var (pairs, result) := Scan(frame, past, at + size, space - 1, store);
        ([Pair(at, size)] + pairs, result)
  }

  ghost function Parse(frame: seq<bv8>, past: bv8, space: nat, store: bool): (seq<Pair>, Result) {
    if |frame| < 5 || space == 0 then ([], RETURN_FAILED)
    else if LengthField(frame, past, 0) == 0 then ([], NO_PACKET_FOUND)
    else Scan(frame, past, 0, space, store)
  }

  lemma PastIsIrrelevant(frame: seq<bv8>, past: bv8, at: nat)
    requires at + 6 <= |frame|
    ensures LengthField(frame, past, at) == LengthField(frame, 0, at)
  {
  }

  /** The code finds the packets; the byte behind the frame makes no difference to what is found. */
  lemma {:induction false} ScanFindsTheChain(frame: seq<bv8>, past: bv8, at: nat, space: nat)
    ensures Scan(frame, past, at, space, false).0 == Chain(frame, at, space)
    decreases space
  {
    hide LengthField;
    if at + 6 <= |frame| {
      PastIsIrrelevant(frame, past, at);
      if space > 0 { ScanFindsTheChain(frame, past, at + LengthField(frame, 0, at) + 7, space - 1); }
    }
  }

  lemma ParseFindsTheChain(frame: seq<bv8>, past: bv8, space: nat)
    ensures Parse(frame, past, space, false).0 == Chain(frame, 0, space)
  {
    hide LengthField;
    ScanFindsTheChain(frame, past, 0, space);
    if |frame| >= 6 { PastIsIrrelevant(frame, past, 0); }
  }

  /** What the return values mean, for the end of the last pair. */
  lemma {:induction false} ScanResults(frame: seq<bv8>, past: bv8, at: nat, space: nat)
    ensures var (pairs, result) := Scan(frame, past, at, space, false);
            var end := End(pairs, at);
            && (result == SPLIT_PACKET <==> end + 5 <= |frame| && LengthField(frame, past, end) != 0
                                            && end + LengthField(frame, past, end) + 7 > |frame|)
            && (result == FIFO_FULL <==> |pairs| == space && PacketAt(frame, end))
            && (result == RETURN_OK <==> result != SPLIT_PACKET && result != FIFO_FULL)
    decreases |frame| + 1 - at
  {
    hide LengthField;
    if at + 6 <= |frame| { PastIsIrrelevant(frame, past, at); }
    if at < |frame| && at + 5 <= |frame| && LengthField(frame, past, at) != 0 {
      var size := LengthField(frame, past, at) + 7;
      if size <= |frame| - at && space > 0 {
        ScanResults(frame, past, at + size, space - 1);
        var (pairs, result) := Scan(frame, past, at + size, space - 1, false);
        assert End([Pair(at, size)] + pairs, at) == End(pairs, at + size);
      }
    }
  }

  /** If split packets were stored, what is left of the frame would be one more pair, if there is space. */
  lemma {:induction false} StoringAddsTheSplitPacket(frame: seq<bv8>, past: bv8, at: nat, space: nat)
    ensures var (pairs, r) := Scan(frame, past, at, space, false);
            var (stored, s) := Scan(frame, past, at, space, true);
            var end := End(pairs, at);
            && s == r && (r == SPLIT_PACKET ==> end <= |frame|)
            && stored == if r == SPLIT_PACKET && |pairs| < space then pairs + [Pair(end, |frame| - end)] else pairs
    decreases |frame| + 1 - at
  {
    hide LengthField;
    if at < |frame| && at + 5 <= |frame| && LengthField(frame, past, at) != 0 {
      var size := LengthField(frame, past, at) + 7;
      if size <= |frame| - at && space > 0 {
        StoringAddsTheSplitPacket(frame, past, at + size, space - 1);
        var (pairs, r) := Scan(frame, past, at + size, space - 1, false);
        assert End([Pair(at, size)] + pairs, at) == End(pairs, at + size);
      }
    }
  }

  function Appended(fifo: seq<Pair>, found: (seq<Pair>, Result)): (seq<Pair>, Result) {
    (fifo + found.0, found.1)
  }

  lemma AppendedNothing(fifo: seq<Pair>, r: Result)
    ensures Appended(fifo, ([], r)) == (fifo, r)
  {
    assert fifo + [] == fifo;
  }

  lemma AppendedOne(fifo: seq<Pair>, p: Pair, found: (seq<Pair>, Result))
    ensures Appended(fifo, ([p] + found.0, found.1)) == Appended(fifo + [p], found)
  {
    assert fifo + ([p] + found.0) == fifo + [p] + found.0;
  }

  class PusParser {
    const maxExpectedPusPackets: nat
    var fifo: seq<Pair>
    var storeSplitPackets: bool

    ghost predicate Valid()
      reads this
    {
      |fifo| <= maxExpectedPusPackets
    }

    /** The flag that the constructor is given is not stored. */
    constructor (maxExpectedPusPackets: nat, storeSplitPackets: bool)
      ensures Valid() && fifo == [] && this.maxExpectedPusPackets == maxExpectedPusPackets && !this.storeSplitPackets
    {
      this.maxExpectedPusPackets := maxExpectedPusPackets;
      fifo := [];
      this.storeSplitPackets := false;
    }

    /** DynamicFIFO::insert. */
    method Insert(p: Pair) returns (r: Result)
      modifies this`fifo
      ensures if |old(fifo)| < maxExpectedPusPackets then r == RETURN_OK && fifo == old(fifo) + [p]
              else r == FIFO_FULL && fifo == old(fifo)
    {
      if |fifo| < maxExpectedPusPackets {
        fifo := fifo + [p];
        r := RETURN_OK;
      } else {
        r := FIFO_FULL;
      }
    }

    method GetNextFifoPair() returns (p: Pair)
      requires Valid()
      modifies this`fifo
      ensures Valid()
      ensures if old(fifo) == [] then p == Pair(0, 0) && fifo == [] else old(fifo) == [p] + fifo
    {
      p := Pair(0, 0);
      if fifo != [] {
        p, fifo := fifo[0], fifo[1..];
      }
    }

    /** parsePusPackets; past is the byte behind the frame.  Everything found is appended to the FIFO. */
    method ParsePusPackets(frame: seq<bv8>, past: bv8) returns (r: Result)
      requires Valid()
      modifies this`fifo
      ensures Valid()
      ensures (fifo, r) ==
        Appended(old(fifo), Parse(frame, past, maxExpectedPusPackets - old(|fifo|), storeSplitPackets))
      ensures !storeSplitPackets ==> fifo == old(fifo) + Chain(frame, 0, maxExpectedPusPackets - old(|fifo|))
    {
      hide LengthField;
      ghost var space := maxExpectedPusPackets - |fifo|;
      ParseFindsTheChain(frame, past, space);
      if |frame| < 5 {
        AppendedNothing(fifo, RETURN_FAILED);
        return RETURN_FAILED;
      }
      if |fifo| == maxExpectedPusPackets {
        AppendedNothing(fifo, RETURN_FAILED);
        return RETURN_FAILED;
      }
      var lengthField := LengthField(frame, past, 0);
      if lengthField == 0 {
        AppendedNothing(fifo, NO_PACKET_FOUND);
        return NO_PACKET_FOUND;
      }
      var packetSize := lengthField + 7;
      if packetSize > |frame| {
        AppendedNothing(fifo, SPLIT_PACKET);
        if storeSplitPackets {
          r := Insert(Pair(0, |frame|));
        }
        return SPLIT_PACKET;
      } else {
        AppendedOne(fifo, Pair(0, packetSize), Scan(frame, past, packetSize, space - 1, storeSplitPackets));
        r := Insert(Pair(0, packetSize));
        if packetSize == |frame| {
          AppendedNothing(fifo, RETURN_OK);
          return RETURN_OK;
        }
      }
      r := ReadMultiplePackets(frame, past, packetSize);
    }

    method ReadMultiplePackets(frame: seq<bv8>, past: bv8, startIndex: nat) returns (r: Result)
      requires Valid()
      modifies this`fifo
      ensures Valid()
      ensures (fifo, r) ==
        Appended(old(fifo), Scan(frame, past, startIndex, maxExpectedPusPackets - old(|fifo|), storeSplitPackets))
    {
      var index := startIndex;
      while index < |frame|
        invariant Valid() && |old(fifo)| <= |fifo|
        invariant Appended(old(fifo),
          Scan(frame, past, startIndex, maxExpectedPusPackets - old(|fifo|), storeSplitPackets))
               == Appended(fifo, Scan(frame, past, index, maxExpectedPusPackets - |fifo|, storeSplitPackets))
      {
        r, index := ReadNextPacket(frame, past, index);
        if r != RETURN_OK {
          return;
        }
      }
      AppendedNothing(fifo, RETURN_OK);
      r := RETURN_OK;
    }

    /** One packet from currentIndex on; the new index is behind it, or behind the frame if no packet
        follows. */
    method ReadNextPacket(frame: seq<bv8>, past: bv8, currentIndex: nat) returns (r: Result, nextIndex: nat)
      requires Valid() && currentIndex < |frame|
      modifies this`fifo
      ensures Valid() && |old(fifo)| <= |fifo|
      ensures r == RETURN_OK ==> nextIndex > currentIndex
      ensures Appended(old(fifo),
        Scan(frame, past, currentIndex, maxExpectedPusPackets - old(|fifo|), storeSplitPackets))
              == if r != RETURN_OK then (fifo, r)
                 else Appended(fifo, Scan(frame, past, nextIndex, maxExpectedPusPackets - |fifo|, storeSplitPackets))
    {
      hide LengthField;
      nextIndex := currentIndex;
      if currentIndex + 5 > |frame| {
        return RETURN_OK, |frame|;
      }
      var lengthField := LengthField(frame, past, currentIndex);
      if lengthField == 0 {
        return RETURN_OK, |frame|;
      }
      var nextPacketSize := lengthField + 7;
      var remainingSize := |frame| - currentIndex;
      if nextPacketSize > remainingSize {
        AppendedNothing(fifo, SPLIT_PACKET);
        if storeSplitPackets {
          r := Insert(Pair(currentIndex, remainingSize));
        }
        return SPLIT_PACKET, nextIndex;
      }
      AppendedNothing(fifo, FIFO_FULL);
      if |fifo| < maxExpectedPusPackets {
        AppendedOne(fifo, Pair(currentIndex, nextPacketSize),
                    Scan(frame, past, currentIndex + nextPacketSize, maxExpectedPusPackets - |fifo| - 1,
                      storeSplitPackets));
      }
      r := Insert(Pair(currentIndex, nextPacketSize));
      nextIndex := currentIndex + nextPacketSize;
    }
  }

  /** A frame that holds nothing but packets, as many as there is space for: the parser finds exactly
      these packets and reports success, whatever the byte behind the frame. */
  lemma PacketsAreFound(ps: seq<seq<bv8>>, past: bv8, space: nat)
    requires ps != [] && ArePackets(ps) && |ps| <= space
    ensures Parse(Concat(ps), past, space, false) == (Boundaries(ps, 0), RETURN_OK)
  {
    hide LengthField, Scan, Chain, Concat, Boundaries;
    var frame := Concat(ps);
    assert [] + frame + [] == frame;
    ChainFindsThePackets([], ps, [], space);
    ParseFindsTheChain(frame, past, space);
    BoundariesEnd(ps, 0);
    FirstLengthField(ps, past);
    ScanResults(frame, past, 0, space);
  }

  lemma FirstLengthField(ps: seq<seq<bv8>>, past: bv8)
    requires ps != [] && ArePackets(ps)
    ensures |Concat(ps)| >= 6 && LengthField(Concat(ps), past, 0) != 0
  {
    var frame := Concat(ps);
    assert |frame| >= 6 && frame[4] == ps[0][4] && frame[5] == ps[0][5];
  }

  lemma {:induction false} BoundariesEnd(ps: seq<seq<bv8>>, at: nat)
    ensures End(Boundaries(ps, at), at) == at + |Concat(ps)|
    decreases |ps|
  {
    if ps != [] {
      BoundariesEnd(ps[1..], at + |ps[0]|);
      assert End(Boundaries(ps, at), at) == End(Boundaries(ps[1..], at + |ps[0]|), at + |ps[0]|);
    }
  }

  // ---------- the format ----------

  /** A packet as it is meant: a header of four bytes (the packet identification and the sequence
      control), the length field, and the data behind it. */
  datatype Packet = Packet(header: seq<bv8>, high: bv8, low: bv8, data: seq<bv8>)

  /** The length field gives the number of bytes of the data, less one, the most significant byte first,
      and is not zero. */
  ghost predicate IsSendable(p: Packet) {
    |p.header| == 4 && |p.data| >= 2 && |p.data| - 1 == 256 * (p.high as nat) + p.low as nat
  }

  /** The packet on the wire. */
  function Encoded(p: Packet): seq<bv8> {
    p.header + [p.high, p.low] + p.data
  }

  function AllEncoded(ps: seq<Packet>): (r: seq<seq<bv8>>)
    ensures |r| == |ps|
  {
    seq(|ps|, i requires 0 <= i < |ps| => Encoded(ps[i]))
  }

  lemma EncodedIsPacket(p: Packet)
    requires IsSendable(p)
    ensures |Encoded(p)| == |p.data| + 6 && IsPacket(Encoded(p))
  {
    var e := Encoded(p);
    assert e[4] == p.high && e[5] == p.low;
  }

  /** The pairs cut exactly these packets out of the frame, one behind the other from its beginning. */
  ghost predicate CutOut(frame: seq<bv8>, pairs: seq<Pair>, ps: seq<Packet>) {
    && |pairs| == |ps|
    && (pairs != [] ==> pairs[0].index == 0)
    && (forall i :: 0 < i < |pairs| ==> pairs[i].index == pairs[i-1].index + pairs[i-1].size)
    && (forall i :: 0 <= i < |pairs| ==>
          && pairs[i].index + pairs[i].size <= |frame|
          && frame[pairs[i].index..pairs[i].index + pairs[i].size] == Encoded(ps[i]))
  }

  lemma BoundariesCutOut(ps: seq<Packet>, rest: seq<bv8>)
    ensures CutOut(Concat(AllEncoded(ps)) + rest, Boundaries(AllEncoded(ps), 0), ps)
  {
    hide Boundaries, Concat, Encoded;
    var es := AllEncoded(ps);
    var frame := Concat(es) + rest;
    assert frame == [] + Concat(es) + rest;
    BoundariesInRow(es, 0);
    forall i | 0 <= i < |ps|
      ensures var pair := Boundaries(es, 0)[i];
              pair.index + pair.size <= |frame| && frame[pair.index..pair.index + pair.size] == Encoded(ps[i])
    {
      BoundariesCutOutThePackets([], es, rest, i);
    }
  }

  lemma {:induction false} BoundariesInRow(ps: seq<seq<bv8>>, at: nat)
    ensures var pairs := Boundaries(ps, at);
            && |pairs| == |ps| && (pairs != [] ==> pairs[0].index == at)
            && forall i :: 0 < i < |pairs| ==> pairs[i].index == pairs[i-1].index + pairs[i-1].size
    decreases |ps|
  {
    if ps != [] {
      BoundariesInRow(ps[1..], at + |ps[0]|);
      FirstBoundary(ps, at);
    }
  }

  /** What the first bytes behind the packets make the code answer.  If the frame ends between the two
      bytes of a length field, the byte behind the frame decides. */
  function Answer(none: bool, rest: seq<bv8>, past: bv8): Result {
    if |rest| < 5 then (if none then RETURN_FAILED else RETURN_OK)
    else
      var n := Number(rest[4], if |rest| > 5 then rest[5] else past);
      if n == 0 then (if none then NO_PACKET_FOUND else RETURN_OK)
      else if n + 7 > |rest| then SPLIT_PACKET
      else FIFO_FULL
  }

  ghost predicate StartsPacket(rest: seq<bv8>) {
    |rest| >= 6 && 7 < Number(rest[4], rest[5]) + 7 <= |rest|
  }

  lemma FieldBehind(before: seq<bv8>, rest: seq<bv8>, past: bv8)
    requires |rest| >= 5
    ensures LengthField(before + rest, past, |before|) == Number(rest[4], if |rest| > 5 then rest[5] else past)
    ensures PacketAt(before + rest, |before|) <==> StartsPacket(rest)
  {
    var frame := before + rest;
    assert frame[|before| + 4] == rest[4];
    if |rest| > 5 { assert frame[|before| + 5] == rest[5]; }
  }

  lemma NoPacketBehind(before: seq<bv8>, rest: seq<bv8>)
    ensures PacketAt(before + rest, |before|) <==> StartsPacket(rest)
  {
    if |rest| >= 5 { FieldBehind(before, rest, 0); }
  }

  lemma ScanOfPackets(ps: seq<Packet>, rest: seq<bv8>, past: bv8, space: nat)
    requires forall i :: 0 <= i < |ps| ==> IsSendable(ps[i])
    requires |ps| <= space && (|ps| < space ==> !StartsPacket(rest))
    ensures var es := AllEncoded(ps);
            var (pairs, r) := Scan(Concat(es) + rest, past, 0, space, false);
            pairs == Boundaries(es, 0) && r == Answer(false, rest, past)
  {
    hide LengthField, PacketAt, StartsPacket, Scan, Chain, Concat, Boundaries, Encoded, IsPacket, Number;
    var es := AllEncoded(ps);
    var packets := Concat(es);
    var frame := packets + rest;
    assert frame == [] + packets + rest;
    forall i | 0 <= i < |es|
      ensures IsPacket(es[i])
    {
      EncodedIsPacket(ps[i]);
    }
    NoPacketBehind(packets, rest);
    ChainFindsThePackets([], es, rest, space);
    ScanFindsTheChain(frame, past, 0, space);
    BoundariesEnd(es, 0);
    BoundariesInRow(es, 0);
    ScanResults(frame, past, 0, space);
    AnswerOfPacket(rest, past);
    if |rest| >= 5 { FieldBehind(packets, rest, past); }
  }

  lemma AnswerOfPacket(rest: seq<bv8>, past: bv8)
    ensures StartsPacket(rest) <==> Answer(false, rest, past) == FIFO_FULL
  {
  }

  /** The main result, in bytes: of a frame of packets with anything behind them, which does not start a
      packet for which there is space, exactly these packets are found, and the first bytes behind them
      give the answer.  With no space at all nothing is looked at. */
  lemma ParseInBytes(ps: seq<Packet>, rest: seq<bv8>, past: bv8, space: nat)
    requires forall i :: 0 <= i < |ps| ==> IsSendable(ps[i])
    requires |ps| <= space && (|ps| < space ==> !StartsPacket(rest))
    ensures var frame := Concat(AllEncoded(ps)) + rest;
            var (pairs, r) := Parse(frame, past, space, false);
            CutOut(frame, pairs, ps) && r == if space == 0 then RETURN_FAILED else Answer(ps == [], rest, past)
  {
    hide Scan, Concat, Encoded, Number, StartsPacket, CutOut;
    var es := AllEncoded(ps);
    ScanOfPackets(ps, rest, past, space);
    BoundariesCutOut(ps, rest);
    if ps == [] {
      NoneEncoded();
      if |rest| >= 5 { FieldBehind([], rest, past); assert [] + rest == rest; }
      assert Concat(es) + rest == rest;
    } else {
      FirstEncoded(ps, rest, past);
    }
  }

  lemma NoneEncoded()
    ensures Concat(AllEncoded([])) == [] && Boundaries(AllEncoded([]), 0) == []
  {
  }

  lemma FirstEncoded(ps: seq<Packet>, rest: seq<bv8>, past: bv8)
    requires ps != [] && forall i :: 0 <= i < |ps| ==> IsSendable(ps[i])
    ensures var frame := Concat(AllEncoded(ps)) + rest;
            |frame| >= 6 && LengthField(frame, past, 0) != 0
  {
    var es := AllEncoded(ps);
    EncodedIsPacket(ps[0]);
    var frame := Concat(es) + rest;
    assert |frame| >= 6 && frame[4] == es[0][4] && frame[5] == es[0][5];
  }
}
