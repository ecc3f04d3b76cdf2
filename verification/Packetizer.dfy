/**
 The packetizer cuts a message out of the decoded bit stream: at the first bit of a frame it asks
 the controller where the message lies, skips to it, collects it and hands it over.
 */
module Packetizer {
  import opened Tasks
  import opened Controller

  datatype PacketState = Idle | Offset | GetFrame

  /** The message inside the bits of a complete frame. */
  function MessageOf(frame: seq<bit>): seq<bit> {
    if BitOffset() <= |frame| then frame[BitOffset()..] else []
  }

  /** The packetizer as seen by its environment: the bits of the frame in progress, none between frames. */
  datatype Collector = Collector(frame: seq<bit>, ctl: Mac, messages: seq<seq<bit>>)

  /** The bits of a frame, from the controller's answer. */
  function FrameLen(mac: MacState): nat {
    DecodeAnswer(mac).bitOffset + DecodeAnswer(mac).outputBitLen
  }

  /** How many more bits may come before the controller has to be ready for another frame. */
  function Room(c: Collector): int {
    if c.frame != [] then if MayReport(c.ctl) then FrameLen(c.ctl.mac) - |c.frame| else 0
    else if MayDecode(c.ctl) then FrameLen(c.ctl.mac) else 0
  }

  /** The controller inside a frame: it was asked at the first bit. */
  function Asked(c: Collector): Mac {
    if c.frame == [] then AfterStart(c.ctl) else c.ctl
  }

  /** The effect of the next bits of a frame. */
  function Collect(c: Collector, bits: seq<bit>): Collector {
    if bits == [] then c
    else if |bits| < Room(c) then Collector(c.frame + bits, Asked(c), c.messages)
    else Collector([], AfterMessage(Asked(c)), c.messages + [MessageOf(c.frame + bits)])
  }

  /** Bits may be delivered in any portions. */
  lemma CollectSplit(c: Collector, a: seq<bit>, b: seq<bit>)
    requires |a| + |b| <= Room(c)
    ensures |b| <= Room(Collect(c, a)) || b == []
    ensures Collect(c, a + b) == Collect(Collect(c, a), b)
  {
    if a == [] {
      assert a + b == b;
    } else if b == [] {
      assert a + b == a;
    } else {
      assert (c.frame + a) + b == c.frame + (a + b);
    }
  }

  class PacketizerBlock {
    const mac: ControllerBlock
    var state: PacketState
    var bitOffset: nat
    var packetLen: nat
    var packet: seq<bit>
    /** The bits of the frame in progress. */
    ghost var frame: seq<bit>

    /** The variables account for the bits of the frame in progress. */
    ghost predicate InFrame()
      reads this, mac
    {
      && mac.Valid() && MayReport(mac.Model())
      && packetLen <= |packet| == BitLen(mac.macState)
      && (state == Offset ==> 0 < bitOffset && |frame| + bitOffset == BitOffset() && packetLen == |packet|)
      && (state == GetFrame ==> 0 < packetLen && |frame| + packetLen == BitOffset() + |packet|
                                && packet[..|packet| - packetLen] == frame[BitOffset()..])
    }

    /** Inside a frame some of its bits are still to come. */
    lemma FrameOpen()
      requires InFrame() && state != Idle
      ensures |frame| < FrameLen(mac.macState)
      ensures mac.Valid() && MayReport(mac.Model())
    {}

    ghost predicate Valid()
      reads this, mac
    {
      && mac.Valid()
      && (state == Idle ==> frame == [])
      && (state != Idle ==> frame != [] && InFrame())
    }

    ghost function Model(): Collector
      reads this, mac
    {
      Collector(frame, mac.Model(), mac.messages)
    }

    /** The source leaves the initial state open; the block is taken to start between frames. */
    constructor (mac: ControllerBlock)
      requires mac.Valid()
      ensures Valid() && this.mac == mac && frame == []
    {
      this.mac := mac;
      state, bitOffset, packetLen, packet, frame := Idle, 0, 0, [], [];
    }

    /** Ask the controller where the message of the next frame lies. */
    method StartFrame()
      requires Valid() && state == Idle && MayDecode(mac.Model())
      modifies this, mac`state
      ensures state == Offset && frame == [] && InFrame() && mac.Model() == AfterStart(old(mac.Model()))
    {
      var task := mac.StartBitDecode();
      bitOffset := task.bitOffset;
      packetLen := task.outputBitLen;
      var last := packet;
      packet := seq(task.outputBitLen, i requires 0 <= i => if i < |last| then last[i] else 0);
      state := Offset;
    }

    /** Skip bits in front of the message. */
    method SkipBits(input: seq<bit>, ii: nat) returns (t: nat)
      requires ii < |input| && state == Offset && InFrame()
      modifies this
      ensures 0 < t && ii + t <= |input| && state != Idle && InFrame()
      ensures frame == old(frame) + input[ii..ii + t]
    {
      t := if |input| - ii < bitOffset then |input| - ii else bitOffset;
      frame := frame + input[ii..ii + t];
      bitOffset := bitOffset - t;
      if bitOffset == 0 {
        state := GetFrame;
        assert packet[..0] == frame[BitOffset()..];
      }
    }

    /** Collect bits of the message; the last one hands it to the controller. */
    method CollectBits(input: seq<bit>, ii: nat) returns (t: nat)
      requires ii < |input| && state == GetFrame && InFrame()
      modifies this, mac, mac.encoderQueue, mac.gateQueue
      ensures 0 < t && ii + t <= |input| && mac.Valid()
      ensures var bits := old(frame) + input[ii..ii + t];
        if |bits| < FrameLen(old(mac.macState)) then
          && state == GetFrame && InFrame() && frame == bits
          && mac.Model() == old(mac.Model()) && mac.messages == old(mac.messages)
          && mac.encoderQueue.items == old(mac.encoderQueue.items) && mac.gateQueue.items == old(mac.gateQueue.items)
        else
          && |bits| == FrameLen(old(mac.macState)) && state == Idle && frame == []
          && mac.Model() == AfterMessage(old(mac.Model()))
          && mac.messages == old(mac.messages) + [MessageOf(bits)]
          && mac.encoderQueue.items == old(mac.encoderQueue.items) + Acknowledge(old(mac.macState), MessageOf(bits))
          && mac.gateQueue.items == old(mac.gateQueue.items) + AcknowledgeGate(old(mac.macState))
    {
      t := if |input| - ii < packetLen then |input| - ii else packetLen;
      var at := |packet| - packetLen;
      var chunk := input[ii..ii + t];
      packet := packet[..at] + chunk + packet[at + t..];
      frame := frame + chunk;
      packetLen := packetLen - t;
      assert packet[..at + t] == frame[BitOffset()..];
      if packetLen == 0 {
        state := Idle;
        assert packet == MessageOf(frame);
        mac.DecodedMessage(packet);
        frame := [];
      }
    }

    /** Process a portion of the bit stream; all of it is used. */
    method Work(input: seq<bit>) returns (ii: nat)
      requires Valid() && |input| <= Room(Model())
      modifies this, mac, mac.encoderQueue, mac.gateQueue
      ensures Valid() && ii == |input|
      ensures Model() == Collect(old(Model()), input)
      ensures mac.encoderQueue.items == old(mac.encoderQueue.items) + Acknowledgement(old(Model()), input)
      ensures mac.gateQueue.items == old(mac.gateQueue.items) + AcknowledgementGate(old(Model()), input)
    {
      hide Collect, Acknowledgement, AcknowledgementGate, Room, MessageOf, Acknowledge, AcknowledgeGate, FrameLen, BitLen,
        BitOffset, InFrame, MayDecode, MayReport, AfterStart, AfterMessage, Asked;
      ghost var c := Model();
      ghost var (tx, rx) := (mac.encoderQueue.items, mac.gateQueue.items);
      ii := 0;
      NoBits(c);
      if input == [] {
        return;
      }
      RoomIsForFrame(c, input);
      while ii < |input|
        invariant ii <= |input| && mac.Valid()
        invariant ii == 0 && state == Idle ==> Valid() && Model() == c
        invariant state != Idle ==>
          && InFrame() && frame == c.frame + input[..ii] && mac.Model() == Asked(c) && mac.messages == c.messages
        invariant state != Idle || ii == 0 ==> mac.encoderQueue.items == tx && mac.gateQueue.items == rx
        invariant state == Idle && ii > 0 ==>
          && ii == |input| && Valid() && Model() == Collect(c, input)
          && mac.encoderQueue.items == tx + Acknowledgement(c, input)
          && mac.gateQueue.items == rx + AcknowledgementGate(c, input)
        decreases |input| - ii, if state == Idle then 1 else 0
      {
        match state {
          case Idle =>
            StartFrame();
            assert input[..0] == [];
          case Offset =>
            var t := SkipBits(input, ii);
            assert c.frame + input[..ii] + input[ii..ii + t] == c.frame + input[..ii + t];
            ii := ii + t;
          case GetFrame =>
            var t := CollectBits(input, ii);
            assert c.frame + input[..ii] + input[ii..ii + t] == c.frame + input[..ii + t];
            ii := ii + t;
            if state == Idle {
              FrameEnds(c, input, ii);
            }
        }
      }
      if state != Idle {
        assert input[..ii] == input;
        FrameOpen();
        FrameGoesOn(c, input, frame);
      }
    }
  }

  lemma NoBits(c: Collector)
    ensures Collect(c, []) == c && Acknowledgement(c, []) == [] && AcknowledgementGate(c, []) == []
  {}

  /** Room for a bit means that a frame is in progress or may start. */
  lemma RoomIsForFrame(c: Collector, input: seq<bit>)
    requires input != [] && |input| <= Room(c)
    ensures c.frame == [] ==> MayDecode(c.ctl) && Asked(c) == AfterStart(c.ctl)
    ensures c.frame != [] ==> Asked(c) == c.ctl
    ensures Asked(c).mac == c.ctl.mac
  {}

  lemma FrameEnds(c: Collector, input: seq<bit>, k: nat)
    requires 0 < k <= |input| <= Room(c) && |c.frame + input[..k]| == FrameLen(c.ctl.mac)
    ensures k == |input| && input[..k] == input
    ensures Collect(c, input) == Collector([], AfterMessage(Asked(c)), c.messages + [MessageOf(c.frame + input)])
    ensures Acknowledgement(c, input) == Acknowledge(c.ctl.mac, MessageOf(c.frame + input))
    ensures AcknowledgementGate(c, input) == AcknowledgeGate(c.ctl.mac)
  {}

  lemma FrameGoesOn(c: Collector, input: seq<bit>, frame: seq<bit>)
    requires input != [] && |input| <= Room(c) && frame == c.frame + input && |frame| < FrameLen(c.ctl.mac)
    ensures Collect(c, input) == Collector(frame, Asked(c), c.messages)
    ensures Acknowledgement(c, input) == [] && AcknowledgementGate(c, input) == []
  {}

  /** What the controller queues for the transmitter when the bits complete a frame. */
  function Acknowledgement(c: Collector, bits: seq<bit>): seq<TxTask> {
    if bits != [] && Room(c) <= |bits| then Acknowledge(c.ctl.mac, MessageOf(c.frame + bits)) else []
  }

  /** And what it queues for the gate. */
  function AcknowledgementGate(c: Collector, bits: seq<bit>): seq<RxTask> {
    if bits != [] && Room(c) <= |bits| then AcknowledgeGate(c.ctl.mac) else []
  }
}
