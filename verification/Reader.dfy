/**
 The reader as a whole: controller, transmitter, receive gate and packetizer, joined by first-in
 first-out queues and by the signal-processing blocks between them, of which only what they take,
 what they hand on and when they call the controller is kept.  The blocks take their steps in any
 order.
 */
module Reader {
  import opened Wrappers
  import opened Tasks
  import opened Pie
  import opened PieEncoder
  import opened Controller
  import opened Packetizer
  import ReceiveGate
  import GateEdges

  /** The calls that the controller receives from the receiving blocks. */
  datatype Callback = SearchCall | SyncCall | BitsCall | MessageCall

  /** The order in which the callbacks have to come in a complete round. */
  const STRICT_ORDER: seq<Callback> :=
    [SearchCall, SyncCall, BitsCall, MessageCall, SearchCall, SyncCall, BitsCall, MessageCall]

  /**
   The state of a run.  `collector` holds the controller's state and the packetizer's frame; `gate` the
   receive gate with the commands it has not taken, `offMax` its time-out and `air` all samples that it is
   ever going to be offered; `bursts` the openings not
   yet searched for a preamble; `frames` the preambles not yet synchronised; `toEmit` the symbols the
   synchroniser still owes; `symbols` those not yet decoded; `bits` the decoded bits the packetizer has
   not seen.  The rest is history: everything ever decoded, let through, queued and called, and
   the moves of the transmitter.
   */
  datatype System = System(
    collector: Collector,
    encoder: Encoder,
    offMax: int,
    air: seq<ReceiveGate.RxSample>,
    gate: ReceiveGate.GateModel,
    bursts: nat,
    frames: nat,
    toEmit: nat,
    symbols: nat,
    bits: seq<bit>,
    stream: seq<bit>,
    passed: seq<ReceiveGate.RxSample>,
    txQueued: seq<TxTask>,
    rxQueued: seq<RxTask>,
    moves: seq<PieEncoder.Move>,
    calls: seq<Callback>)

  function Initial(offMax: int, air: seq<ReceiveGate.RxSample>): System {
    System(Collector([], Mac(ReadyDownlink, MsIdle), []), NEW, offMax, air, ReceiveGate.NewGate([]),
           0, 0, 0, 0, [], [], [], [], [], [], [])
  }

  /** The steps of the blocks. */
  datatype Step =
    | Issue
    | Send(n: nat, was: seq<Sample>, now: seq<Sample>, after: Encoder)
    | RunGate(call: ReceiveGate.Call)
    | SearchPreamble(success: bool)
    | Synchronise
    | EmitSymbols(k: nat)
    | DecodeBits(decoded: seq<bit>)
    | Packetize(k: nat)

  /** The step has what it needs: data in its queue, and for transmitter and gate what their work functions guarantee. */
  ghost predicate Enabled(t: Timing, s: System, step: Step)
    requires t.Valid()
  {
    match step
    case Issue => MayIssue(s.collector.ctl)
    case Send(n, was, now, after) => s.encoder.Valid() ==> Called(t, s.encoder, n, after, was, now)
    case RunGate(call) =>
      && s.gate.read <= |s.air| && call.input <= s.air[s.gate.read..]
      && ReceiveGate.WorkDone(s.offMax, s.gate, call.input, call.noutput, call.after, call.out, call.consumed)
    case SearchPreamble(_) => 0 < s.bursts
    case Synchronise => 0 < s.frames && s.toEmit == 0
    case EmitSymbols(k) => k <= s.toEmit
    case DecodeBits(decoded) => 2 * |decoded| <= s.symbols
    case Packetize(k) => k <= |s.bits|
  }

  /** The assertions of the controller hold in the step, and no carrier is sent to the wrong place. */
  ghost predicate Safe(t: Timing, s: System, step: Step)
    requires t.Valid()
  {
    var ctl := s.collector.ctl;
    match step
    case Issue => MayIssue(ctl)
    case Send(n, _, _, _) => s.encoder.Valid() && s.encoder.Aligned(t, 0, n)
    case SearchPreamble(_) => MaySearch(ctl)
    case Synchronise => MaySynch(ctl)
    case Packetize(k) => k <= Room(s.collector)
    case _ => true
  }

  function Enqueues(tx: seq<TxTask>): seq<PieEncoder.Move> {
    if tx == [] then [] else Enqueues(tx[..|tx| - 1]) + [Enqueue(tx[|tx| - 1])]
  }

  function Push(s: System, tx: seq<TxTask>, rx: seq<RxTask>): System {
    s.(encoder := s.encoder.(queue := s.encoder.queue + tx),
       gate := s.gate.(queue := s.gate.queue + rx),
       txQueued := s.txQueued + tx,
       rxQueued := s.rxQueued + rx,
       moves := s.moves + Enqueues(tx))
  }

  function SetMac(s: System, ctl: Mac): System {
    s.(collector := s.collector.(ctl := ctl))
  }

  /** The effect of a step. */
  function Next(s: System, step: Step): System {
    var ctl := s.collector.ctl;
    match step
    case Issue => Push(SetMac(s, AfterIssue(ctl)), QueryTasks(), QueryGate())
    case Send(n, was, now, after) => s.(encoder := after, moves := s.moves + [Work(n, was, now, after)])
    case RunGate(call) =>
      var added := |call.after.tags| - |s.gate.tags|;
      s.(gate := call.after, bursts := s.bursts + if added > 0 then added else 0,
         passed := s.passed + call.out)
    case SearchPreamble(success) =>
      if s.bursts == 0 then s
      else
        SetMac(s, AfterSearch(ctl, success))
          .(bursts := s.bursts - 1, frames := s.frames + if SearchAnswer(ctl.mac, success) != NoSearch then 1 else 0,
            calls := s.calls + [SearchCall])
    case Synchronise =>
      if s.frames == 0 then s
      else
        SetMac(s, AfterSynch(ctl))
          .(frames := s.frames - 1, toEmit := SynchAnswer(ctl.mac).outputSymbolLen, calls := s.calls + [SyncCall])
    case EmitSymbols(k) =>
      if s.toEmit < k then s else s.(toEmit := s.toEmit - k, symbols := s.symbols + k)
    case DecodeBits(decoded) =>
      if s.symbols < 2 * |decoded| then s
      else s.(symbols := s.symbols - 2 * |decoded|, bits := s.bits + decoded, stream := s.stream + decoded)
    case Packetize(k) =>
      if |s.bits| < k then s
      else
        var portion := s.bits[..k];
        Push(s.(collector := Collect(s.collector, portion), bits := s.bits[k..],
                calls := s.calls + PacketCalls(s.collector, portion)),
             Acknowledgement(s.collector, portion), AcknowledgementGate(s.collector, portion))
  }

  /** The callbacks that a portion of bits causes: one at the first bit of a frame, one at the last. */
  function PacketCalls(c: Collector, portion: seq<bit>): seq<Callback> {
    if portion == [] then []
    else (if c.frame == [] then [BitsCall] else []) + (if Room(c) <= |portion| then [MessageCall] else [])
  }

  /** A run: states and steps from the initial state, every step enabled. */
  ghost predicate IsRun(t: Timing, steps: seq<Step>, states: seq<System>)
    requires t.Valid()
  {
    && |states| == |steps| + 1
    && states[0] == Initial(states[0].offMax, states[0].air)
    && forall i :: 0 <= i < |steps| ==>
      Enabled(t, states[i], steps[i]) && states[i + 1] == Next(states[i], steps[i])
  }

  // ---------------------------------------------------------------- the invariant

  function Openings(queue: seq<RxTask>): nat {
    if queue == [] then 0 else Openings(queue[1..]) + if queue[0].Ungate? then 1 else 0
  }

  /** Nothing is on its way from the gate to the packetizer. */
  ghost predicate Quiet(s: System) {
    && Openings(s.gate.queue) + s.bursts == 0 && s.frames == 0 && s.toEmit == 0 && s.symbols == 0
    && s.bits == [] && s.collector.frame == []
  }

  /** One burst is on its way to the preamble search. */
  ghost predicate BurstAhead(s: System) {
    && Openings(s.gate.queue) + s.bursts == 1 && s.frames == 0 && s.toEmit == 0 && s.symbols == 0
    && s.bits == [] && s.collector.frame == []
  }

  ghost predicate FrameAhead(s: System) {
    && Openings(s.gate.queue) + s.bursts == 0 && s.frames == 1 && s.toEmit == 0 && s.symbols == 0
    && s.bits == [] && s.collector.frame == []
  }

  /** The bits of one frame are on their way: `base` bits were decoded before it. */
  ghost predicate BitsAhead(s: System, base: nat) {
    && Openings(s.gate.queue) + s.bursts == 0 && s.frames == 0
    && base <= |s.stream| && s.stream[base..] == s.collector.frame + s.bits
    && s.toEmit + s.symbols + 2 * (|s.stream| - base) == SymbolLen(s.collector.ctl.mac)
  }

  /**
   Where the round stands in the phase whose frame starts at bit `base` of the stream, which began after
   `calls` callbacks and after the messages `earlier`.
   */
  ghost predicate Phase(s: System, base: nat, calls: nat, earlier: seq<seq<bit>>) {
    match s.collector.ctl.state
    case PreambleDet => BurstAhead(s) && |s.stream| == base && |s.calls| == calls && s.collector.messages == earlier
    case SymbolDet => FrameAhead(s) && |s.stream| == base && |s.calls| == calls + 1 && s.collector.messages == earlier
    case BitDecode =>
      BitsAhead(s, base) && s.collector.frame == [] && |s.calls| == calls + 2 && s.collector.messages == earlier
    case WaitForDecode =>
      || (&& BitsAhead(s, base) && 0 < |s.collector.frame| < FrameLen(s.collector.ctl.mac)
          && |s.calls| == calls + 3 && s.collector.messages == earlier)
      || (&& Quiet(s) && s.collector.ctl.mac == MsEpc && |s.stream| == base + FrameLen(MsEpc)
          && |s.calls| == calls + 4 && s.collector.messages == earlier + [MessageOf(s.stream[base..])])
    case ReadyDownlink => Quiet(s) && |s.stream| == base && |s.calls| == calls + 1 && s.collector.messages == earlier
    case SetTxBurst => false
  }

  /** The reply to the query: the sixteen bits from offset nine of the decoded stream. */
  function Rn16(s: System): seq<bit> {
    if |s.stream| < 25 then [] else s.stream[9..25]
  }

  ghost predicate RoundInvariant(s: System) {
    && s.calls <= STRICT_ORDER
    && match s.collector.ctl.mac
       case MsIdle =>
         && s.collector.ctl.state == ReadyDownlink && Quiet(s) && s.stream == [] && s.calls == []
         && s.txQueued == [] && s.rxQueued == [] && s.gate.queue == [] && s.collector.messages == []
       case MsRn16 =>
         s.txQueued == QueryTasks() && s.rxQueued == QueryGate() && Phase(s, 0, 0, [])
       case MsEpc =>
         && 25 <= |s.stream|
         && s.txQueued == QueryTasks() + AckTasks(Rn16(s)) && s.rxQueued == QueryGate() + AckGate()
         && Phase(s, 25, 4, [Rn16(s)])
  }

  /** The transmitter has come here by a run of its own, in which no carrier was misplaced, and it cannot be misplaced. */
  ghost predicate SendInvariant(t: Timing, s: System)
    requires t.Valid()
  {
    && s.encoder.Valid() && s.encoder.TimedReady()
    && PieEncoder.IsRun(t, s.moves) && AlignedRun(t, s.moves)
    && s.encoder == StateAfter(s.moves)
    && s.txQueued == TasksOf(LogOf(s.moves))
    && (s.collector.ctl.mac == MsIdle ==> s.encoder.queue == [] && s.encoder.Current() == [])
  }

  /** The gate accounts for its commands and samples. */
  ghost predicate GateInvariant(s: System) {
    && GateEdges.EdgesKept(s.gate, s.air, s.offMax) && s.gate.read <= |s.air|
    && ReceiveGate.Faithful(s.gate, s.air[..s.gate.read], s.passed)
    && s.gate.executed + s.gate.queue == s.rxQueued
  }

  ghost predicate Invariant(t: Timing, s: System)
    requires t.Valid()
  {
    RoundInvariant(s) && SendInvariant(t, s) && GateInvariant(s)
  }

  // ---------------------------------------------------------------- every step

  /** In a state of the invariant no enabled step fails an assertion. */
  lemma EnabledIsSafe(t: Timing, s: System, step: Step)
    requires t.Valid() && Invariant(t, s) && Enabled(t, s, step)
    ensures Safe(t, s, step)
  {
    hide PieEncoder.IsRun, AlignedRun, TasksOf, LogOf, QueryTasks, AckTasks, QueryGate, AckGate, GateInvariant;
    match step {
      case Send(n, _, _, _) => ReadyIsAligned(t, s.encoder, n);
      case Packetize(k) =>
        if s.collector.ctl.mac != MsIdle {
          SymbolsMatchBits(s.collector.ctl.mac);
          if s.bits == [] { assert k == 0; }
        }
      case _ =>
    }
  }

  lemma OpeningsHead(queue: seq<RxTask>)
    requires queue != []
    ensures Openings(queue) == Openings(queue[1..]) + if queue[0].Ungate? then 1 else 0
  {}

  lemma QueryOpenings()
    ensures Openings(QueryGate()) == 1
  {
    var q := QueryGate();
    assert q[1..] == [Ungate(800), Done] && q[1..][1..] == [Done] && q[1..][1..][1..] == [];
  }

  lemma AckOpenings()
    ensures Openings(AckGate()) == 1
  {
    var q := AckGate();
    assert q[1..] == [Ungate(2800), Done] && q[1..][1..] == [Done] && q[1..][1..][1..] == [];
  }

  lemma {:induction false} OpeningsConcat(a: seq<RxTask>, b: seq<RxTask>)
    ensures Openings(a + b) == Openings(a) + Openings(b)
    decreases |a|
  {
    if a == [] {
      assert a + b == b;
    } else {
      assert (a + b)[1..] == a[1..] + b;
      OpeningsConcat(a[1..], b);
    }
  }

  /** The next callback is the one that the order asks for. */
  lemma InOrder(calls: seq<Callback>, call: Callback)
    requires calls <= STRICT_ORDER && |calls| < 8
    requires call == match |calls| % 4
                     case 0 => SearchCall
                     case 1 => SyncCall
                     case 2 => BitsCall
                     case _ => MessageCall
    ensures calls + [call] <= STRICT_ORDER
  {
    var k := |calls|;
    assert STRICT_ORDER[k] == call;
    assert calls == STRICT_ORDER[..k];
    assert STRICT_ORDER[..k] + [STRICT_ORDER[k]] == STRICT_ORDER[..k + 1];
  }

  lemma RoundIssue(s: System)
    requires RoundInvariant(s) && MayIssue(s.collector.ctl)
    ensures RoundInvariant(Next(s, Issue))
  {
    QueryOpenings();
    assert [] + QueryGate() == QueryGate() && [] + QueryTasks() == QueryTasks();
  }

  lemma {:induction false} TagsAreOpenings(tasks: seq<RxTask>)
    ensures |ReceiveGate.Tags(tasks)| == Openings(tasks)
    decreases |tasks|
  {
    if tasks != [] {
      var (before, last) := (tasks[..|tasks| - 1], tasks[|tasks| - 1]);
      TagsAreOpenings(before);
      OpeningsConcat(before, [last]);
      assert before + [last] == tasks;
      assert Openings([last]) == if last.Ungate? then 1 else 0 by { OpeningsHead([last]); NoOpenings(); }
    }
  }

  /** Every opening that leaves the gate's queue in a call has a tag in its output. */
  lemma GateOpens(s: System, call: ReceiveGate.Call)
    requires GateInvariant(s) && call.input <= s.air[s.gate.read..]
    requires ReceiveGate.WorkDone(s.offMax, s.gate, call.input, call.noutput, call.after, call.out, call.consumed)
    ensures GateInvariant(Next(s, RunGate(call)))
    ensures Openings(call.after.queue) + |call.after.tags| == Openings(s.gate.queue) + |s.gate.tags|
    ensures |s.gate.tags| <= |call.after.tags|
    ensures s.rxQueued == [] ==> call.after.queue == []
  {
    hide ReceiveGate.Tags, ReceiveGate.Opened, ReceiveGate.OnTime, ReceiveGate.RunFaithful, Openings, GateEdges.EdgesKept;
    ReceiveGate.FaithfulWork(s.offMax, s.gate, call, s.air[..s.gate.read], s.passed);
    GateEdges.WorkKeepsEdges(s.gate, s.air, call, s.offMax);
    assert s.air[..s.gate.read] + call.input[..call.consumed] == s.air[..call.after.read];
    OpeningsConcat(s.gate.executed, s.gate.queue);
    OpeningsConcat(call.after.executed, call.after.queue);
    TagsAreOpenings(s.gate.executed);
    TagsAreOpenings(call.after.executed);
  }

  lemma RoundGate(s: System, call: ReceiveGate.Call)
    requires RoundInvariant(s) && GateInvariant(s) && s.gate.read <= |s.air| && call.input <= s.air[s.gate.read..]
    requires ReceiveGate.WorkDone(s.offMax, s.gate, call.input, call.noutput, call.after, call.out, call.consumed)
    ensures RoundInvariant(Next(s, RunGate(call)))
  {
    hide Openings, GateInvariant, ReceiveGate.WorkDone, MessageOf, QueryTasks, QueryGate, AckTasks, AckGate;
    GateOpens(s, call);
    if s.collector.ctl.mac == MsIdle { NoOpenings(); }
  }

  lemma RoundSearch(s: System, success: bool)
    requires RoundInvariant(s) && 0 < s.bursts && MaySearch(s.collector.ctl)
    ensures RoundInvariant(Next(s, SearchPreamble(success)))
  {
    hide Openings, QueryTasks, QueryGate, AckTasks, AckGate, MessageOf;
    InOrder(s.calls, SearchCall);
  }

  lemma RoundSync(s: System)
    requires RoundInvariant(s) && 0 < s.frames && MaySynch(s.collector.ctl)
    ensures RoundInvariant(Next(s, Synchronise))
  {
    hide Openings, QueryTasks, QueryGate, AckTasks, AckGate, MessageOf;
    InOrder(s.calls, SyncCall);
  }

  lemma RoundEmit(s: System, k: nat)
    requires RoundInvariant(s) && k <= s.toEmit
    ensures RoundInvariant(Next(s, EmitSymbols(k)))
  {
    hide Openings;
  }

  lemma DecodePhase(s: System, decoded: seq<bit>, base: nat, calls: nat, earlier: seq<seq<bit>>)
    requires Phase(s, base, calls, earlier) && decoded != [] && 2 * |decoded| <= s.symbols
    ensures base <= |s.stream|
    ensures Phase(Next(s, DecodeBits(decoded)), base, calls, earlier)
  {
    hide Openings, MessageOf;
    var n := Next(s, DecodeBits(decoded));
    assert n.stream[base..] == s.stream[base..] + decoded;
    assert (s.collector.frame + s.bits) + decoded == s.collector.frame + (s.bits + decoded);
  }

  lemma RoundDecode(s: System, decoded: seq<bit>)
    requires RoundInvariant(s) && 2 * |decoded| <= s.symbols
    ensures RoundInvariant(Next(s, DecodeBits(decoded)))
  {
    hide Openings, Phase, QueryTasks, AckTasks, QueryGate, AckGate;
    var n := Next(s, DecodeBits(decoded));
    if decoded == [] {
      assert s.bits + decoded == s.bits && s.stream + decoded == s.stream;
      assert n == s;
    } else {
      match s.collector.ctl.mac {
        case MsIdle =>
        case MsRn16 => DecodePhase(s, decoded, 0, 0, []);
        case MsEpc =>
          DecodePhase(s, decoded, 25, 4, [Rn16(s)]);
          assert n.stream[9..25] == s.stream[9..25];
      }
    }
  }

  /** A portion that ends inside a frame. */
  lemma RoundPortion(s: System, k: nat, base: nat, calls: nat, earlier: seq<seq<bit>>)
    requires s.calls <= STRICT_ORDER && |STRICT_ORDER| >= calls + 4 && calls in {0, 4}
    requires Phase(s, base, calls, earlier) && 0 < k <= |s.bits| && k < Room(s.collector)
    ensures var n := Next(s, Packetize(k));
      && n.calls <= STRICT_ORDER && Phase(n, base, calls, earlier)
      && n.txQueued == s.txQueued && n.rxQueued == s.rxQueued && n.gate == s.gate
      && n.collector.ctl.mac == s.collector.ctl.mac
  {
    hide Openings, MessageOf;
    var n := Next(s, Packetize(k));
    var portion := s.bits[..k];
    var c := s.collector;
    assert BitsAhead(s, base) && portion != [];
    assert Acknowledgement(c, portion) == [] && AcknowledgementGate(c, portion) == [];
    assert n.collector == Collector(c.frame + portion, Asked(c), c.messages);
    assert s.gate.queue + [] == s.gate.queue && s.txQueued + [] == s.txQueued && s.rxQueued + [] == s.rxQueued;
    assert s.collector.frame + s.bits == (s.collector.frame + portion) + s.bits[k..];
    if c.frame == [] {
      InOrder(s.calls, BitsCall);
    } else {
      assert s.calls + [] == s.calls;
    }
  }

  /** A portion that completes a frame uses up all bits on their way. */
  lemma RoundMessage(s: System, k: nat, base: nat, calls: nat, earlier: seq<seq<bit>>)
    requires s.calls <= STRICT_ORDER && |STRICT_ORDER| >= calls + 4 && calls in {0, 4}
    requires Phase(s, base, calls, earlier) && 0 < k <= |s.bits| && k == Room(s.collector)
    ensures var n := Next(s, Packetize(k));
      && n.calls <= STRICT_ORDER && |n.calls| == calls + 4
      && s.bits[..k] == s.bits && n.bits == [] && n.collector.frame == []
      && s.frames == 0 && s.toEmit == 0 && s.symbols == 0 && Openings(s.gate.queue) + s.bursts == 0
      && |s.stream| == base + FrameLen(s.collector.ctl.mac)
      && n.collector.messages == earlier + [MessageOf(s.stream[base..])]
      && s.collector.frame + s.bits == s.stream[base..]
  {
    hide Openings, MessageOf, AckTasks;
    SymbolsMatchBits(s.collector.ctl.mac);
    assert |s.stream[base..]| == |s.collector.frame| + |s.bits|;
    assert s.bits[..k] == s.bits;
    if s.collector.frame == [] {
      InOrder(s.calls, BitsCall);
      InOrder(s.calls + [BitsCall], MessageCall);
      assert s.calls + ([BitsCall] + [MessageCall]) == (s.calls + [BitsCall]) + [MessageCall];
    } else {
      InOrder(s.calls, MessageCall);
      assert [] + [MessageCall] == [MessageCall];
    }
  }

  lemma RoundPacketize(s: System, k: nat)
    requires RoundInvariant(s) && k <= |s.bits| && k <= Room(s.collector)
    ensures RoundInvariant(Next(s, Packetize(k)))
  {
    hide Openings, Collect, Acknowledgement, AcknowledgementGate, PacketCalls, QueryTasks, QueryGate, AckTasks, AckGate, Room;
    var n := Next(s, Packetize(k));
    var epc := s.collector.ctl.mac == MsEpc;
    var (base, calls, earlier) := (if epc then 25 else 0, if epc then 4 else 0, if epc then [Rn16(s)] else []);
    if k == 0 {
      NothingPacketized(s);
    } else if k < Room(s.collector) {
      NotIdle(s, k);
      RoundPortion(s, k, base, calls, earlier);
    } else {
      NotIdle(s, k);
      RoundMessage(s, k, base, calls, earlier);
      RoundComplete(s, k);
    }
  }

  lemma NotIdle(s: System, k: nat)
    requires 0 < k <= Room(s.collector)
    ensures s.collector.ctl.mac != MsIdle
  {}

  lemma NothingPacketized(s: System)
    ensures Next(s, Packetize(0)) == s
  {
    NoBits(s.collector);
    assert s.bits[..0] == [] && s.bits[0..] == s.bits;
    assert s.encoder.queue + [] == s.encoder.queue && s.gate.queue + [] == s.gate.queue;
    assert s.txQueued + [] == s.txQueued && s.rxQueued + [] == s.rxQueued && s.calls + [] == s.calls;
    assert s.moves + Enqueues([]) == s.moves;
  }

  /** The reply to the query starts the second phase; the message after it ends the round. */
  lemma RoundComplete(s: System, k: nat)
    requires RoundInvariant(s) && 0 < k <= |s.bits| && k == Room(s.collector)
    requires s.collector.ctl.mac != MsIdle
    ensures RoundInvariant(Next(s, Packetize(k)))
  {
    hide Openings, PacketCalls, QueryTasks, QueryGate, AckTasks, AckGate;
    var n := Next(s, Packetize(k));
    var epc := s.collector.ctl.mac == MsEpc;
    RoundMessage(s, k, if epc then 25 else 0, if epc then 4 else 0, if epc then [Rn16(s)] else []);
    if epc {
      assert s.txQueued + [] == s.txQueued && s.rxQueued + [] == s.rxQueued && s.gate.queue + [] == s.gate.queue;
    } else {
      assert s.stream[0..] == s.stream;
      assert MessageOf(s.stream) == s.stream[9..25];
      assert [] + [Rn16(s)] == [Rn16(s)];
      AckOpenings();
      OpeningsConcat(s.gate.queue, AckGate());
      AckIsTasks(Rn16(s));
    }
  }

  lemma AckIsTasks(rn16: seq<bit>)
    ensures AckTasks(rn16) != []
  {}

  lemma RoundStep(t: Timing, s: System, step: Step)
    requires t.Valid() && RoundInvariant(s) && GateInvariant(s) && Enabled(t, s, step) && Safe(t, s, step)
    ensures RoundInvariant(Next(s, step))
  {
    hide RoundInvariant, GateInvariant, ReceiveGate.WorkDone, Called, Room;
    match step {
      case Issue => RoundIssue(s);
      case Send(n, was, now, after) => RoundSend(s, n, was, now, after);
      case RunGate(call) => RoundGate(s, call);
      case SearchPreamble(success) => RoundSearch(s, success);
      case Synchronise => RoundSync(s);
      case EmitSymbols(k) => RoundEmit(s, k);
      case DecodeBits(decoded) => RoundDecode(s, decoded);
      case Packetize(k) => RoundPacketize(s, k);
    }
  }

  lemma RoundSend(s: System, n: nat, was: seq<Sample>, now: seq<Sample>, after: Encoder)
    requires RoundInvariant(s)
    ensures RoundInvariant(Next(s, Send(n, was, now, after)))
  {
    hide Openings;
  }

  // ---------------------------------------------------------------- the gate in the run

  lemma GatePush(s: System, tx: seq<TxTask>, rx: seq<RxTask>)
    requires GateInvariant(s)
    ensures GateInvariant(Push(s, tx, rx))
  {
    hide ReceiveGate.Tags, ReceiveGate.Opened, ReceiveGate.RunFaithful, ReceiveGate.Opens, ReceiveGate.Length;
    EdgesSame(s.gate, Push(s, tx, rx).gate, s.air, s.offMax);
    var (g, h) := (s.gate, Push(s, tx, rx).gate);
    assert g.executed + (g.queue + rx) == (g.executed + g.queue) + rx;
    forall i | 0 <= i < |h.tags| ensures ReceiveGate.RunFaithful(h, s.air[..s.gate.read], s.passed, i) {
      SameRun(g, h, s.air[..s.gate.read], s.passed, i);
    }
  }

  /** New commands in the queue change nothing about what was executed when. */
  lemma EdgesSame(g: ReceiveGate.GateModel, h: ReceiveGate.GateModel, xs: seq<ReceiveGate.RxSample>, offMax: int)
    requires GateEdges.EdgesKept(g, xs, offMax) && h == g.(queue := h.queue)
    ensures GateEdges.EdgesKept(h, xs, offMax)
  {
    hide GateEdges.FirstEdge, GateEdges.NoEdge, GateEdges.NothingPending, GateEdges.CarrierOn, GateEdges.InDip;
    forall k | 0 <= k < |h.executed| && GateEdges.Awaits(h, k)
      ensures GateEdges.FirstEdge(xs, GateEdges.BaseOf(h, k), h.starts[k], offMax)
    {
      assert GateEdges.Awaits(g, k);
    }
  }

  lemma SameRun(g: ReceiveGate.GateModel, h: ReceiveGate.GateModel, ys: seq<ReceiveGate.RxSample>,
                out: seq<ReceiveGate.RxSample>, i: nat)
    requires i < |g.tags| == |g.opens| && ReceiveGate.RunFaithful(g, ys, out, i)
    requires h.tags == g.tags && h.opens == g.opens && h.written == g.written
    ensures ReceiveGate.RunFaithful(h, ys, out, i)
  {}

  lemma GateStep(t: Timing, s: System, step: Step)
    requires t.Valid() && GateInvariant(s) && Enabled(t, s, step)
    ensures GateInvariant(Next(s, step))
  {
    hide GateInvariant, ReceiveGate.WorkDone, QueryTasks, QueryGate, Called;
    match step {
      case Issue =>
        GateSame(s, SetMac(s, AfterIssue(s.collector.ctl)));
        GatePush(SetMac(s, AfterIssue(s.collector.ctl)), QueryTasks(), QueryGate());
      case RunGate(call) => GateOpens(s, call);
      case Packetize(k) =>
        var portion := s.bits[..k];
        var mid := s.(collector := Collect(s.collector, portion), bits := s.bits[k..],
                      calls := s.calls + PacketCalls(s.collector, portion));
        GateSame(s, mid);
        GatePush(mid, Acknowledgement(s.collector, portion), AcknowledgementGate(s.collector, portion));
      case _ => GateSame(s, Next(s, step));
    }
  }

  lemma GateSame(a: System, b: System)
    requires GateInvariant(a)
    requires b.gate == a.gate && b.air == a.air && b.offMax == a.offMax && b.passed == a.passed && b.rxQueued == a.rxQueued
    ensures GateInvariant(b)
  {}

  // ---------------------------------------------------------------- the transmitter in the run

  lemma EnqueueOne(t: Timing, moves: seq<PieEncoder.Move>, task: TxTask)
    requires t.Valid() && PieEncoder.IsRun(t, moves) && AlignedRun(t, moves) && StateAfter(moves).Valid()
    ensures var m := moves + [Enqueue(task)];
      && PieEncoder.IsRun(t, m) && AlignedRun(t, m)
      && StateAfter(m) == StateAfter(moves).(queue := StateAfter(moves).queue + [task])
      && TasksOf(LogOf(m)) == TasksOf(LogOf(moves)) + [task]
  {
    var m := moves + [Enqueue(task)];
    assert m[..|m| - 1] == moves;
    var log := LogOf(m);
    assert log[..|log| - 1] == LogOf(moves);
  }

  /** Queueing tasks, seen from the transmitter's own run. */
  lemma {:induction false} EnqueueAll(t: Timing, moves: seq<PieEncoder.Move>, tx: seq<TxTask>)
    requires t.Valid() && PieEncoder.IsRun(t, moves) && AlignedRun(t, moves) && StateAfter(moves).Valid()
    ensures var m := moves + Enqueues(tx);
      && PieEncoder.IsRun(t, m) && AlignedRun(t, m)
      && StateAfter(m) == StateAfter(moves).(queue := StateAfter(moves).queue + tx)
      && TasksOf(LogOf(m)) == TasksOf(LogOf(moves)) + tx
    decreases |tx|
  {
    hide PieEncoder.IsRun, AlignedRun, StateAfter, TasksOf, LogOf;
    var e := StateAfter(moves);
    if tx == [] {
      assert moves + Enqueues(tx) == moves && TasksOf(LogOf(moves)) + tx == TasksOf(LogOf(moves));
      assert e.queue + tx == e.queue;
    } else {
      var (before, last) := (tx[..|tx| - 1], tx[|tx| - 1]);
      EnqueueAll(t, moves, before);
      EnqueueOne(t, moves + Enqueues(before), last);
      assert moves + Enqueues(tx) == (moves + Enqueues(before)) + [Enqueue(last)];
      assert tx == before + [last];
      assert e.queue + tx == (e.queue + before) + [last];
      assert TasksOf(LogOf(moves)) + tx == (TasksOf(LogOf(moves)) + before) + [last];
    }
  }

  lemma SendPush(t: Timing, s: System, tx: seq<TxTask>, rx: seq<RxTask>)
    requires t.Valid() && SendInvariant(t, s) && s.collector.ctl.mac != MsIdle
    requires forall i :: 0 <= i < |tx| ==> !tx[i].TurnOnTimed?
    ensures SendInvariant(t, Push(s, tx, rx))
  {
    hide PieEncoder.IsRun, AlignedRun, StateAfter, TasksOf, LogOf;
    EnqueueAll(t, s.moves, tx);
  }

  /** The first task may be the timed one: nothing is in front of it. */
  lemma SendIssue(t: Timing, s: System)
    requires t.Valid() && SendInvariant(t, s) && MayIssue(s.collector.ctl)
    ensures SendInvariant(t, Next(s, Issue))
  {
    hide PieEncoder.IsRun, AlignedRun, StateAfter, TasksOf, LogOf;
    EnqueueAll(t, s.moves, QueryTasks());
  }

  lemma WorkOne(t: Timing, moves: seq<PieEncoder.Move>, n: nat, was: seq<Sample>, now: seq<Sample>, after: Encoder)
    requires t.Valid() && PieEncoder.IsRun(t, moves) && AlignedRun(t, moves) && StateAfter(moves).Valid()
    requires StateAfter(moves).Aligned(t, 0, n) && Called(t, StateAfter(moves), n, after, was, now)
    ensures var m := moves + [Work(n, was, now, after)];
      PieEncoder.IsRun(t, m) && AlignedRun(t, m) && StateAfter(m) == after && TasksOf(LogOf(m)) == TasksOf(LogOf(moves))
  {
    hide Called, Encoder.Aligned, Encoder.Line, Encoder.Valid;
    var m := moves + [Work(n, was, now, after)];
    assert m[..|m| - 1] == moves;
    var log := LogOf(m);
    assert log[..|log| - 1] == LogOf(moves);
  }

  lemma CalledKeeps(t: Timing, e: Encoder, n: nat, was: seq<Sample>, now: seq<Sample>, after: Encoder)
    requires t.Valid() && e.Valid() && Called(t, e, n, after, was, now)
    ensures after.Valid() && WorkDone(t, e, n, after, Sent(e.Line(t), n))
    ensures e.TimedReady() ==> after.TimedReady()
  {
    hide Encoder.Line, Encoder.Aligned, Encoder.TimedReady, Sent, Rest;
  }

  lemma SendCall(t: Timing, s: System, n: nat, was: seq<Sample>, now: seq<Sample>, after: Encoder)
    requires t.Valid() && SendInvariant(t, s) && s.encoder.Aligned(t, 0, n) && Called(t, s.encoder, n, after, was, now)
    ensures SendInvariant(t, Next(s, Send(n, was, now, after)))
  {
    hide Encoder.Line, Encoder.Aligned, Encoder.TimedReady, Encoder.Current, Encoder.Valid, Sent, Behind, Called, WorkDone,
      PieEncoder.IsRun, AlignedRun, StateAfter, TasksOf, LogOf;
    WorkOne(t, s.moves, n, was, now, after);
    CalledKeeps(t, s.encoder, n, was, now, after);
    if s.collector.ctl.mac == MsIdle {
      StillEmpty(t, s.encoder, n, after);
    }
  }

  lemma StillEmpty(t: Timing, e: Encoder, n: nat, after: Encoder)
    requires t.Valid() && e.Valid() && e.queue == [] && e.Current() == [] && WorkDone(t, e, n, after, Sent(e.Line(t), n))
    ensures after.queue == [] && after.Current() == []
  {
    hide Sent;
    BehindNone(t, SampleLine(e.Current(), e.Idle()));
    BehindNone(t, SampleLine(after.Current(), after.Idle()));
  }

  lemma BehindNone(t: Timing, line: SampleLine)
    requires t.Valid()
    ensures Behind(t, line, []) == line
  {}

  lemma SendStep(t: Timing, s: System, step: Step)
    requires t.Valid() && SendInvariant(t, s) && Enabled(t, s, step) && Safe(t, s, step)
    ensures SendInvariant(t, Next(s, step))
  {
    hide Called, Encoder.Aligned, ReceiveGate.WorkDone;
    match step {
      case Issue => SendIssue(t, s);
      case Send(n, was, now, after) => SendCall(t, s, n, was, now, after);
      case Packetize(k) => SendPacketize(t, s, k);
      case _ => SendElse(t, s, step);
    }
  }

  lemma SendElse(t: Timing, s: System, step: Step)
    requires t.Valid() && SendInvariant(t, s)
    requires !step.Issue? && !step.Send? && !step.Packetize?
    ensures SendInvariant(t, Next(s, step))
  {
    hide PieEncoder.IsRun, AlignedRun, StateAfter, TasksOf, LogOf;
  }

  lemma SendPacketize(t: Timing, s: System, k: nat)
    requires t.Valid() && SendInvariant(t, s) && k <= |s.bits| && k <= Room(s.collector)
    ensures SendInvariant(t, Next(s, Packetize(k)))
  {
    hide SendInvariant, Encoder.TimedReady, Encoder.Line, Encoder.Current, Encoder.Valid;
    if k == 0 {
      NothingPacketized(s);
    } else {
      var portion := s.bits[..k];
      var (tx, rx) := (Acknowledgement(s.collector, portion), AcknowledgementGate(s.collector, portion));
      SendPush(t, s, tx, rx);
      SendSame(t, Push(s, tx, rx), Next(s, Packetize(k)));
    }
  }

  lemma SendSame(t: Timing, a: System, b: System)
    requires t.Valid() && SendInvariant(t, a)
    requires b.encoder == a.encoder && b.moves == a.moves && b.txQueued == a.txQueued
    requires b.collector.ctl.mac == MsIdle ==> a.collector.ctl.mac == MsIdle
    ensures SendInvariant(t, b)
  {}

  // ---------------------------------------------------------------- every run

  lemma InitialInvariant(t: Timing, offMax: int, air: seq<ReceiveGate.RxSample>)
    requires t.Valid()
    ensures Invariant(t, Initial(offMax, air))
  {
    hide RoundInvariant, SendInvariant, GateInvariant;
    InitialRound(offMax, air);
    InitialSend(t, offMax, air);
    InitialGate(offMax, air);
  }

  lemma InitialRound(offMax: int, air: seq<ReceiveGate.RxSample>)
    ensures RoundInvariant(Initial(offMax, air))
  {
    NoOpenings();
  }

  lemma InitialSend(t: Timing, offMax: int, air: seq<ReceiveGate.RxSample>)
    requires t.Valid()
    ensures SendInvariant(t, Initial(offMax, air))
  {}

  lemma InitialGate(offMax: int, air: seq<ReceiveGate.RxSample>)
    ensures GateInvariant(Initial(offMax, air))
  {
    hide ReceiveGate.Faithful, GateEdges.EdgesKept;
    ReceiveGate.NewGateFaithful([]);
    GateEdges.NewGateEdges([], air, offMax);
    assert air[..0] == [];
  }

  lemma RunStep(t: Timing, steps: seq<Step>, states: seq<System>, i: nat)
    requires t.Valid() && IsRun(t, steps, states) && i < |steps|
    ensures i + 1 < |states| && states[i + 1] == Next(states[i], steps[i])
    ensures Enabled(t, states[i], steps[i])
  {}

  lemma {:induction false} RunInvariant(t: Timing, steps: seq<Step>, states: seq<System>, i: nat)
    requires t.Valid() && IsRun(t, steps, states) && i < |states|
    ensures Invariant(t, states[i])
    decreases i
  {
    hide RoundInvariant, SendInvariant, GateInvariant;
    InitialInvariant(t, states[0].offMax, states[0].air);
    if i > 0 {
      RunInvariant(t, steps, states, i - 1);
      EnabledIsSafe(t, states[i - 1], steps[i - 1]);
      RoundStep(t, states[i - 1], steps[i - 1]);
      SendStep(t, states[i - 1], steps[i - 1]);
      GateStep(t, states[i - 1], steps[i - 1]);
    }
  }

  /**
   In every run no assertion of the controller or of the transmitter fails, neither in a step that was
   taken nor in any step that can be taken next.
   */
  lemma NoAssertionFails(t: Timing, steps: seq<Step>, states: seq<System>, step: Step)
    requires t.Valid() && IsRun(t, steps, states)
    ensures forall i :: 0 <= i < |steps| ==> Safe(t, states[i], steps[i])
    ensures Enabled(t, states[|steps|], step) ==> Safe(t, states[|steps|], step)
  {
    hide RoundInvariant, SendInvariant, GateInvariant, Safe, Enabled, Next;
    forall i | 0 <= i < |steps| ensures Safe(t, states[i], steps[i]) {
      RunInvariant(t, steps, states, i);
      EnabledIsSafe(t, states[i], steps[i]);
    }
    RunInvariant(t, steps, states, |steps|);
    if Enabled(t, states[|steps|], step) { EnabledIsSafe(t, states[|steps|], step); }
  }

  /**
   In every run the callbacks come in the strict order, the tasks ever queued are a prefix of the
   query followed by the acknowledgement of the bits from offset nine of the decoded stream, at most two
   openings are ever queued for the gate, and the gate, whose commands arrive while it runs, executes them
   in order, accounts for every sample, and starts executing at the edges that `GateEdges` defines only.
   */
  lemma RoundTheorem(t: Timing, steps: seq<Step>, states: seq<System>)
    requires t.Valid() && IsRun(t, steps, states)
    ensures var s := states[|steps|];
      && s.calls <= STRICT_ORDER
      && s.txQueued <= QueryTasks() + AckTasks(Rn16(s))
      && s.rxQueued <= QueryGate() + AckGate()
      && Openings(s.rxQueued) <= 2
      && s.gate.executed <= s.rxQueued && s.gate.read <= |s.air|
      && ReceiveGate.Faithful(s.gate, s.air[..s.gate.read], s.passed)
      && GateEdges.EdgesKept(s.gate, s.air, s.offMax)
      && (|QueryTasks()| < |s.txQueued| ==>
           |Rn16(s)| == 16 && s.collector.messages != [] && s.collector.messages[0] == Rn16(s))
  {
    hide Openings;
    RunInvariant(t, steps, states, |steps|);
    QueryOpenings();
    AckOpenings();
    OpeningsConcat(QueryGate(), AckGate());
    NoOpenings();
  }

  lemma NoOpenings()
    ensures Openings([]) == 0
  {}

  lemma StaysStarted(s: System, step: Step)
    requires s.collector.ctl.mac != MsIdle
    ensures Next(s, step).collector.ctl.mac != MsIdle
  {}

  lemma IssueStarts(s: System)
    ensures Next(s, Issue).collector.ctl.mac != MsIdle
  {}

  lemma {:induction false} Started(t: Timing, steps: seq<Step>, states: seq<System>, i: nat, j: nat)
    requires t.Valid() && IsRun(t, steps, states) && |states| == |steps| + 1 && i < j < |states| && steps[i].Issue?
    ensures states[j].collector.ctl.mac != MsIdle
    decreases j
  {
    hide Enabled, Safe, Next, IsRun;
    RunStep(t, steps, states, j - 1);
    if i + 1 == j {
      IssueStarts(states[i]);
    } else {
      Started(t, steps, states, i, j - 1);
      StaysStarted(states[j - 1], steps[j - 1]);
    }
  }

  /** A round is started at most once in a run. */
  lemma StartedOnce(t: Timing, steps: seq<Step>, states: seq<System>, i: nat, j: nat)
    requires t.Valid() && IsRun(t, steps, states) && i < j < |steps| && steps[i].Issue?
    ensures !steps[j].Issue?
  {
    Started(t, steps, states, i, j);
    RunStep(t, steps, states, j);
  }

  // ---------------------------------------------------------------- end to end

  /** The weave of a list of tasks with one more at the end. */
  lemma WeaveSnoc(t: Timing, tasks: seq<TxTask>, gaps: seq<nat>, task: TxTask, gap: nat)
    requires t.Valid() && |gaps| == |tasks| + 1
    ensures Weave(t, tasks + [task], gaps + [gap]) == Weave(t, tasks, gaps) + TaskWave(t, task) + IdleRun(IdleAfter(task), gap)
  {
    hide TaskWave, IdleRun;
    assert (tasks + [task])[..|tasks|] == tasks && (gaps + [gap])[..|gaps|] == gaps;
  }

  lemma WeaveNone(t: Timing, gap: nat)
    requires t.Valid()
    ensures Weave(t, [], [gap]) == Level(Off, gap)
  {}

  /** The whole transmission of a round: the query after a second of carrier, and the acknowledgement. */
  function Transmission(t: Timing, rn16: seq<bit>, before: nat, between: nat, after: nat): seq<Sample>
    requires t.Valid()
  {
    Level(Off, before)
    + (Level(On, 500000) + PreambleWave(t) + (BitsWave(t, QUERY) + Level(On, between)))
    + (FrameSyncWave(t) + (BitsWave(t, [0, 1] + rn16) + Level(On, after)))
  }

  lemma WeaveQuery(t: Timing, before: nat, between: nat)
    requires t.Valid()
    ensures Weave(t, QueryTasks(), [before, 0, 0, 0, between])
         == Level(Off, before) + (Level(On, 500000) + PreambleWave(t) + (BitsWave(t, QUERY) + Level(On, between)))
  {
    hide Weave, BitsWave, PreambleWave, Level;
    WeaveNone(t, before);
    var (a, b, c, d) := (TurnOnTimed(500000), Preamble, DataBits(QUERY), TurnOn);
    WeaveSnoc(t, [], [before], a, 0);
    WeaveSnoc(t, [a], [before, 0], b, 0);
    WeaveSnoc(t, [a, b], [before, 0, 0], c, 0);
    WeaveSnoc(t, [a, b, c], [before, 0, 0, 0], d, between);
    assert [] + [a] == [a] && [a] + [b] == [a, b] && [a, b] + [c] == [a, b, c] && [a, b, c] + [d] == QueryTasks();
    assert [before] + [0] == [before, 0] && [before, 0] + [0] == [before, 0, 0] && [before, 0, 0] + [0] == [before, 0, 0, 0];
    assert [before, 0, 0, 0] + [between] == [before, 0, 0, 0, between];
    var (wa, wb, wc) := (Level(On, 500000), PreambleWave(t), BitsWave(t, QUERY));
    assert TaskWave(t, a) == wa && TaskWave(t, b) == wb && TaskWave(t, c) == wc && TaskWave(t, d) == [];
    var x := Level(Off, before);
    assert x + wa + [] == x + wa;
    assert (x + wa) + wb + [] == x + wa + wb;
    assert (x + wa + wb) + wc + [] == x + wa + wb + wc;
    assert (x + wa + wb + wc) + [] + Level(On, between) == x + (wa + wb + (wc + Level(On, between)));
  }

  lemma WeaveRound(t: Timing, rn16: seq<bit>, gaps: seq<nat>)
    requires t.Valid() && Gaps(QueryTasks() + AckTasks(rn16), gaps)
    ensures |gaps| == 8
    ensures Weave(t, QueryTasks() + AckTasks(rn16), gaps) == Transmission(t, rn16, gaps[0], gaps[4], gaps[7])
  {
    hide Weave, BitsWave, PreambleWave, FrameSyncWave, Level;
    NoGaps(rn16, gaps);
    var (before, between, after) := (gaps[0], gaps[4], gaps[7]);
    WeaveQuery(t, before, between);
    var (q, g) := (QueryTasks(), [before, 0, 0, 0, between]);
    var (a, b, c) := (FrameSynch, DataBits(ACK_PREFIX + rn16), TurnOn);
    WeaveSnoc(t, q, g, a, 0);
    WeaveSnoc(t, q + [a], g + [0], b, 0);
    WeaveSnoc(t, q + [a] + [b], g + [0] + [0], c, after);
    assert q + AckTasks(rn16) == q + [a] + [b] + [c];
    assert g + [0] + [0] + [after] == gaps;
    var (x, wa, wb) := (Weave(t, q, g), FrameSyncWave(t), BitsWave(t, ACK_PREFIX + rn16));
    assert TaskWave(t, a) == wa && TaskWave(t, b) == wb && TaskWave(t, c) == [];
    assert x + wa + [] == x + wa;
    assert (x + wa) + wb + [] == x + wa + wb;
    assert (x + wa + wb) + [] + Level(On, after) == x + (wa + (wb + Level(On, after)));
  }

  /** Between the tasks of a frame there is no gap. */
  lemma NoGaps(rn16: seq<bit>, gaps: seq<nat>)
    requires Gaps(QueryTasks() + AckTasks(rn16), gaps)
    ensures |gaps| == 8 && gaps == [gaps[0], 0, 0, 0, gaps[4], 0, 0, gaps[7]]
  {
    var all := QueryTasks() + AckTasks(rn16);
    assert IdleLevel(all[..1]) == None && IdleLevel(all[..2]) == None && IdleLevel(all[..3]) == None;
    assert IdleLevel(all[..5]) == None && IdleLevel(all[..6]) == None;
    assert gaps[1] == 0 && gaps[2] == 0 && gaps[3] == 0 && gaps[5] == 0 && gaps[6] == 0;
  }

  /**
   In every run that has reached the acknowledgement: what was sent, with what is still pending, is
   the query after the carrier and then, after a frame-sync, the encoding of `0, 1` and of exactly the
   sixteen bits that the packetizer cut from the decoded stream at offset nine.  A receiver that
   listens to either frame gets its bits back.
   */
  lemma EndToEnd(t: Timing, steps: seq<Step>, states: seq<System>) returns (before: nat, between: nat, after: nat)
    requires t.Valid() && t.Readable() && t.Rtcal() < t.trcal
    requires IsRun(t, steps, states) && states[|steps|].collector.ctl.mac == MsEpc
    ensures var s := states[|steps|];
      && s.encoder.Valid() && 25 <= |s.stream|
      && Written(s.moves) + s.encoder.Line(t).pending == Transmission(t, s.stream[9..25], before, between, after)
      && s.collector.messages != [] && s.collector.messages[0] == s.stream[9..25]
      && Receive(Level(On, 500000) + PreambleWave(t) + (BitsWave(t, QUERY) + Level(On, between))) == Some(QUERY)
      && Receive(FrameSyncWave(t) + (BitsWave(t, [0, 1] + s.stream[9..25]) + Level(On, after)))
           == Some([0, 1] + s.stream[9..25])
  {
    hide Weave, Gaps, Transmission, BitsWave, PreambleWave, FrameSyncWave, Receive, Level, TasksOf, LogOf, PieEncoder.IsRun,
      AlignedRun, StateAfter, Written;
    var s := states[|steps|];
    RunInvariant(t, steps, states, |steps|);
    var gaps := RunTheorem(t, s.moves);
    WeaveRound(t, Rn16(s), gaps);
    before, between, after := gaps[0], gaps[4], gaps[7];
    PreambleRoundTrip(t, 500000, QUERY, between);
    FrameSyncRoundTrip(t, 0, ACK_PREFIX + Rn16(s), after);
    NoCarrier(FrameSyncWave(t));
  }

  lemma NoCarrier(w: seq<Sample>)
    ensures Level(On, 0) + w == w
  {}
}
