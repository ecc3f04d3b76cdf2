/**
 The MAC controller.  It starts an inventory round by queueing a query, and is then called back by
 the receiving blocks in a fixed order; the decoded reply to the query makes it queue the
 acknowledgement.
 */
module Controller {
  import opened Tasks

  datatype State = ReadyDownlink | SetTxBurst | PreambleDet | SymbolDet | BitDecode | WaitForDecode
  datatype MacState = MsIdle | MsRn16 | MsEpc

  /** The two state variables of the controller. */
  datatype Mac = Mac(state: State, mac: MacState)

  // ---------------------------------------------------------------- what is queued

  const QUERY: seq<bit> := [1, 0, 0, 0, 0, 1, 0, 1, 0, 0, 0, 0, 0, 0, 0, 0, 0, 1, 1, 1, 1, 1]
  const ACK_PREFIX: seq<bit> := [0, 1]

  function QueryTasks(): seq<TxTask> {
    [TurnOnTimed(500000), Preamble, DataBits(QUERY), TurnOn]
  }

  function QueryGate(): seq<RxTask> {
    [Gate(25 + 75 + 83 + 8 * 50 + 14 * 25 + 10), Ungate(800), Done]
  }

  function AckTasks(rn16: seq<bit>): seq<TxTask> {
    [FrameSynch, DataBits(ACK_PREFIX + rn16), TurnOn]
  }

  function AckGate(): seq<RxTask> {
    [Gate(25 + 75 + 25 + 50 + 14 * 25 + 2 * 50), Ungate(2800), Done]
  }

  // ---------------------------------------------------------------- what is answered

  /** The answer to a preamble search; the numbers are only given for a valid one. */
  datatype SearchTask = NoSearch | SearchTask(sampleOffset: nat, outputSampleLen: nat)
  datatype SyncTask = SyncTask(outputSymbolLen: nat, matchFilterOffset: nat)
  datatype DecodeTask = DecodeTask(bitOffset: nat, outputBitLen: nat)

  function SymbolLen(mac: MacState): nat {
    if mac == MsEpc then 6 + 12 + 32 + 96 * 2 else 6 + 12 + 32
  }

  function BitOffset(): nat { 3 + 6 }

  function BitLen(mac: MacState): nat {
    if mac == MsEpc then 16 + 96 else 16
  }

  /** In both phases the symbols asked for are exactly those of the bits skipped and reported, two per bit. */
  lemma SymbolsMatchBits(mac: MacState)
    ensures SymbolLen(mac) == 2 * (BitOffset() + BitLen(mac))
  {}

  // ---------------------------------------------------------------- when it may be called, and what it then does

  /** The guard of a new round. */
  predicate MayIssue(m: Mac) { m.state == ReadyDownlink && m.mac == MsIdle }

  /** The assertions of the callbacks. */
  predicate MaySearch(m: Mac) { m.state == PreambleDet && m.mac != MsIdle }
  predicate MaySynch(m: Mac) { m.state == SymbolDet && m.mac != MsIdle }
  predicate MayDecode(m: Mac) { m.state == BitDecode && m.mac != MsIdle }
  predicate MayReport(m: Mac) { m.state == WaitForDecode && m.mac != MsIdle }

  function AfterIssue(m: Mac): Mac { Mac(PreambleDet, MsRn16) }

  function AfterSearch(m: Mac, success: bool): Mac { m.(state := if success then SymbolDet else ReadyDownlink) }

  function AfterSynch(m: Mac): Mac { m.(state := BitDecode) }

  function AfterStart(m: Mac): Mac { m.(state := WaitForDecode) }

  /** The reply to the query starts the second phase; the message after it changes nothing. */
  function AfterMessage(m: Mac): Mac { if m.mac == MsRn16 then Mac(PreambleDet, MsEpc) else m }

  function SearchAnswer(mac: MacState, success: bool): SearchTask {
    if success then SearchTask((12 + 7) * 8, (SymbolLen(mac) + if mac == MsEpc then 5 else 2) * 8 - 1) else NoSearch
  }

  function SynchAnswer(mac: MacState): SyncTask { SyncTask(SymbolLen(mac), 7) }

  function DecodeAnswer(mac: MacState): DecodeTask { DecodeTask(BitOffset(), BitLen(mac)) }

  /** What a complete message adds to the two queues. */
  function Acknowledge(mac: MacState, msg: seq<bit>): seq<TxTask> { if mac == MsRn16 then AckTasks(msg) else [] }

  function AcknowledgeGate(mac: MacState): seq<RxTask> { if mac == MsRn16 then AckGate() else [] }

  class ControllerBlock {
    var state: State
    var macState: MacState
    const encoderQueue: MsgQueue<TxTask>
    const gateQueue: MsgQueue<RxTask>
    /** The messages reported so far. */
    ghost var messages: seq<seq<bit>>

    function Model(): Mac
      reads this
    {
      Mac(state, macState)
    }

    ghost predicate Valid() {
      encoderQueue as object != gateQueue as object
    }

    constructor (encoderQueue: MsgQueue<TxTask>, gateQueue: MsgQueue<RxTask>)
      requires encoderQueue as object != gateQueue as object
      ensures Valid() && this.encoderQueue == encoderQueue && this.gateQueue == gateQueue
      ensures Model() == Mac(ReadyDownlink, MsIdle) && messages == []
    {
      this.encoderQueue, this.gateQueue := encoderQueue, gateQueue;
      state, macState, messages := ReadyDownlink, MsIdle, [];
    }

    /** Start an inventory round. */
    method IssueDownlinkCommand()
      requires Valid() && MayIssue(Model())
      modifies this, encoderQueue, gateQueue
      ensures Valid() && Model() == AfterIssue(old(Model())) && messages == old(messages)
      ensures encoderQueue.items == old(encoderQueue.items) + QueryTasks()
      ensures gateQueue.items == old(gateQueue.items) + QueryGate()
    {
      state := PreambleDet;
      macState := MsRn16;
      SetupQueryAckRepBurst();
    }

    method SetupQueryAckRepBurst()
      requires Valid()
      modifies encoderQueue, gateQueue
      ensures encoderQueue.items == old(encoderQueue.items) + QueryTasks()
      ensures gateQueue.items == old(gateQueue.items) + QueryGate()
    {
      encoderQueue.Handle(TurnOnTimed(500000));
      encoderQueue.Handle(Preamble);
      encoderQueue.Handle(DataBits(QUERY));
      encoderQueue.Handle(TurnOn);
      gateQueue.Handle(Gate(25 + 75 + 83 + 8 * 50 + 14 * 25 + 10));
      gateQueue.Handle(Ungate(800));
      gateQueue.Handle(Done);
    }

    method SetupAckBurst(rn16: seq<bit>)
      requires Valid()
      modifies this`macState, encoderQueue, gateQueue
      ensures macState == MsEpc
      ensures encoderQueue.items == old(encoderQueue.items) + AckTasks(rn16)
      ensures gateQueue.items == old(gateQueue.items) + AckGate()
    {
      macState := MsEpc;
      encoderQueue.Handle(FrameSynch);
      encoderQueue.Handle(DataBits(ACK_PREFIX + rn16));
      encoderQueue.Handle(TurnOn);
      gateQueue.Handle(Gate(25 + 75 + 25 + 50 + 14 * 25 + 2 * 50));
      gateQueue.Handle(Ungate(2800));
      gateQueue.Handle(Done);
    }

    /** A received burst was searched for a preamble. */
    method PreambleSearch(success: bool) returns (task: SearchTask)
      requires Valid() && MaySearch(Model())
      modifies this`state
      ensures Model() == AfterSearch(old(Model()), success) && task == SearchAnswer(macState, success)
    {
      match macState
      case MsRn16 =>
        if success {
          task := SearchTask((12 + 7) * 8, (12 + 6 + 32 + 2) * 8 - 1);
          state := SymbolDet;
        } else {
          task := NoSearch;
          state := ReadyDownlink;
        }
      case MsEpc =>
        if success {
          task := SearchTask((12 + 7) * 8, (12 + 6 + 32 + 96 * 2 + 5) * 8 - 1);
          state := SymbolDet;
        } else {
          task := NoSearch;
          state := ReadyDownlink;
        }
    }

    /** The symbol synchroniser found the start of a frame. */
    method SymbolSynch() returns (task: SyncTask)
      requires Valid() && MaySynch(Model())
      modifies this`state
      ensures Model() == AfterSynch(old(Model())) && task == SynchAnswer(macState)
    {
      match macState
      case MsRn16 =>
        task := SyncTask(6 + 12 + 32, 7);
        state := BitDecode;
      case MsEpc =>
        task := SyncTask(6 + 12 + 32 + 96 * 2, 7);
        state := BitDecode;
    }

    /** The packetizer met the first bit of a frame. */
    method StartBitDecode() returns (task: DecodeTask)
      requires Valid() && MayDecode(Model())
      modifies this`state
      ensures Model() == AfterStart(old(Model())) && task == DecodeAnswer(macState)
    {
      match macState
      case MsRn16 =>
        task := DecodeTask(3 + 6, 16);
        state := WaitForDecode;
      case MsEpc =>
        task := DecodeTask(3 + 6, 16 + 96);
        state := WaitForDecode;
    }

    /** The packetizer completed a message: the reply to the query is acknowledged, the one after it only reported. */
    method DecodedMessage(msg: seq<bit>)
      requires Valid() && MayReport(Model())
      modifies this, encoderQueue, gateQueue
      ensures Valid() && messages == old(messages) + [msg] && Model() == AfterMessage(old(Model()))
      ensures encoderQueue.items == old(encoderQueue.items) + Acknowledge(old(macState), msg)
      ensures gateQueue.items == old(gateQueue.items) + AcknowledgeGate(old(macState))
    {
      messages := messages + [msg];
      match macState
      case MsRn16 =>
        SetupAckBurst(msg);
        state := PreambleDet;
      case MsEpc =>
    }
  }
}
