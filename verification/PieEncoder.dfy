/**
 The transmitter.  Whatever the sizes of the buffers it is called with, its output is the
 waveforms of its tasks one after the other, followed by the idle level while there is no task.
 */
module PieEncoder {
  import opened Wrappers
  import opened Tasks
  import opened Pie

  datatype State = OffIdle | OnIdle | OnTimed | SendSamples | GetTask

  /** The variables of the encoder and the contents of its queue. */
  datatype Encoder = Encoder(state: State, counter: int, frame: seq<Sample>, queue: seq<TxTask>)
  {
    predicate Valid() {
      state == SendSamples ==> 0 <= counter <= |frame|
    }

    /** What is left of the task in progress. */
    function Current(): seq<Sample>
      requires Valid()
    {
      match state
      case OnTimed => if counter > 0 then Level(On, counter) else []
      case SendSamples => frame[counter..]
      case _ => []
    }

    function Idle(): Option<Sample> {
      match state
      case OffIdle => Some(Off)
      case OnIdle => Some(On)
      case _ => None
    }

    /** What the encoder is still going to send, and the level it then idles at. */
    function Line(t: Timing): SampleLine
      requires Valid() && t.Valid()
    {
      Behind(t, SampleLine(Current(), Idle()), queue)
    }

    /** A timed task is at most at the very front of the queue, behind nothing. */
    ghost predicate TimedReady()
      requires Valid()
    {
      forall i :: 0 <= i < |queue| && queue[i].TurnOnTimed? ==> i == 0 && Current() == []
    }

    /** A timed carrier is being sent. */
    predicate OnAir() {
      state == OnTimed && counter > 0
    }

    /** Number of samples to send before task `i` of the queue. */
    function StartOf(t: Timing, i: nat): nat
      requires Valid() && t.Valid() && i <= |queue|
    {
      |Current()| + Duration(t, queue[..i])
    }

    /**
     In a call for `n` samples of which `nn` have been produced, no timed carrier starts or goes on
     anywhere but at the start of the call.
     */
    ghost predicate Aligned(t: Timing, nn: nat, n: nat)
      requires Valid() && t.Valid()
    {
      && (OnAir() ==> AtStart(nn, n))
      && forall i :: 0 <= i < |queue| && queue[i].TurnOnTimed? && queue[i].len > 0 ==> AtStart(nn + StartOf(t, i), n)
    }
  }

  /** A position is the start of a call for `n` samples, or beyond it. */
  predicate AtStart(at: nat, n: nat) {
    at == 0 || n <= at
  }

  function Duration(t: Timing, tasks: seq<TxTask>): nat
    requires t.Valid()
    decreases |tasks|
  {
    if tasks == [] then 0 else |TaskWave(t, tasks[0])| + Duration(t, tasks[1..])
  }

  // ---------------------------------------------------------------- the line

  /** The samples that are decided, and the level that follows them, if any. */
  datatype SampleLine = SampleLine(pending: seq<Sample>, idle: Option<Sample>)

  function TaskWave(t: Timing, task: TxTask): seq<Sample>
    requires t.Valid()
  {
    match task
    case TurnOnTimed(len) => if len > 0 then Level(On, len) else []
    case TurnOn => []
    case Preamble => PreambleWave(t)
    case FrameSynch => FrameSyncWave(t)
    case DataBits(data) => BitsWave(t, data)
    case TurnOff => []
  }

  function IdleAfter(task: TxTask): Option<Sample> {
    match task
    case TurnOn => Some(On)
    case TurnOff => Some(Off)
    case _ => None
  }

  /** A task joins the end of the line. */
  function Join(t: Timing, line: SampleLine, task: TxTask): SampleLine
    requires t.Valid()
  {
    SampleLine(line.pending + TaskWave(t, task), IdleAfter(task))
  }

  function Behind(t: Timing, line: SampleLine, tasks: seq<TxTask>): SampleLine
    requires t.Valid()
    decreases |tasks|
  {
    if tasks == [] then line else Behind(t, Join(t, line, tasks[0]), tasks[1..])
  }

  function IdleRun(idle: Option<Sample>, n: nat): seq<Sample> {
    match idle
    case None => []
    case Some(level) => Level(level, n)
  }

  /** The samples that a call for `n` samples gets from a line. */
  function Sent(line: SampleLine, n: nat): (out: seq<Sample>)
    ensures |out| <= n
  {
    if n <= |line.pending| then line.pending[..n]
    else line.pending + IdleRun(line.idle, n - |line.pending|)
  }

  /** The line after that call. */
  function Rest(line: SampleLine, n: nat): SampleLine {
    SampleLine(if n <= |line.pending| then line.pending[n..] else [], line.idle)
  }

  /** Two calls in a row are one call. */
  lemma SplitCall(line: SampleLine, m: nat, n: nat)
    ensures Rest(line, m + n) == Rest(Rest(line, m), n)
    ensures |Sent(line, m)| == m || line.idle == None
    ensures Sent(line, m + n) == Sent(line, m) + Sent(Rest(line, m), n)
  {
    hide IdleRun, Sent;
    SentSplit(line, m, n);
    SentAll(line, m);
    var p := line.pending;
    if m + n <= |p| { assert p[m + n..] == p[m..][n..]; }
  }

  lemma SentAll(line: SampleLine, m: nat)
    ensures |Sent(line, m)| == m || line.idle == None
  {}

  lemma SentSplit(line: SampleLine, m: nat, n: nat)
    ensures Sent(line, m + n) == Sent(line, m) + Sent(Rest(line, m), n)
  {
    hide IdleRun;
    var p := line.pending;
    if m + n <= |p| {
      assert p[..m + n] == p[..m] + p[m..][..n];
    } else if m <= |p| {
      var idle := IdleRun(line.idle, m + n - |p|);
      assert p == p[..m] + p[m..];
      ConcatAssociates(p[..m], p[m..], idle);
      IdleNone(line.idle);
    } else {
      IdleSplit(line.idle, m - |p|, n);
      var (first, later) := (IdleRun(line.idle, m - |p|), IdleRun(line.idle, n));
      ConcatAssociates(p, first, later);
      assert Sent(Rest(line, m), n) == later by { SentNothing(Rest(line, m), n); }
    }
  }

  lemma SentNothing(line: SampleLine, n: nat)
    requires line.pending == []
    ensures Sent(line, n) == IdleRun(line.idle, n)
  {
    hide IdleRun;
    IdleNone(line.idle);
    assert [] + IdleRun(line.idle, n) == IdleRun(line.idle, n);
  }

  lemma ConcatAssociates(a: seq<Sample>, b: seq<Sample>, c: seq<Sample>)
    ensures (a + b) + c == a + (b + c)
  {}

  lemma IdleSplit(idle: Option<Sample>, m: nat, n: nat)
    ensures IdleRun(idle, m + n) == IdleRun(idle, m) + IdleRun(idle, n)
    ensures |IdleRun(idle, m)| == m || idle == None
  {}

  lemma IdleNone(idle: Option<Sample>)
    ensures IdleRun(idle, 0) == []
  {}

  lemma {:induction false} BehindAppend(t: Timing, line: SampleLine, tasks: seq<TxTask>, task: TxTask)
    requires t.Valid()
    ensures Behind(t, line, tasks + [task]) == Join(t, Behind(t, line, tasks), task)
    decreases |tasks|
  {
    if tasks == [] {
      assert tasks + [task] == [task];
    } else {
      assert (tasks + [task])[1..] == tasks[1..] + [task];
      BehindAppend(t, Join(t, line, tasks[0]), tasks[1..], task);
    }
  }

  /** Only the pending samples of a line matter to what joins it. */
  lemma {:induction false} BehindSplit(t: Timing, head: seq<Sample>, line: SampleLine, tasks: seq<TxTask>)
    requires t.Valid()
    ensures Behind(t, SampleLine(head + line.pending, line.idle), tasks)
         == SampleLine(head + Behind(t, line, tasks).pending, Behind(t, line, tasks).idle)
    decreases |tasks|
  {
    if tasks != [] {
      var w := TaskWave(t, tasks[0]);
      assert (head + line.pending) + w == head + (line.pending + w);
      BehindSplit(t, head, Join(t, line, tasks[0]), tasks[1..]);
    }
  }

  // ---------------------------------------------------------------- whole runs

  datatype Event = Queue(task: TxTask) | Call(n: nat)

  /** The line after a sequence of events. */
  function LineAfter(t: Timing, events: seq<Event>): SampleLine
    requires t.Valid()
  {
    if events == [] then SampleLine([], Some(Off))
    else
      var before := LineAfter(t, events[..|events| - 1]);
      match events[|events| - 1]
      case Queue(task) => Join(t, before, task)
      case Call(n) => Rest(before, n)
  }

  /** Everything sent in a sequence of events. */
  function Output(t: Timing, events: seq<Event>): seq<Sample>
    requires t.Valid()
  {
    if events == [] then []
    else
      var (before, last) := (events[..|events| - 1], events[|events| - 1]);
      match last
      case Queue(_) => Output(t, before)
      case Call(n) => Output(t, before) + Sent(LineAfter(t, before), n)
  }

  function TasksOf(events: seq<Event>): seq<TxTask> {
    if events == [] then []
    else
      var (before, last) := (events[..|events| - 1], events[|events| - 1]);
      if last.Queue? then TasksOf(before) + [last.task] else TasksOf(before)
  }

  /** The level at which the encoder idles after the tasks, if it does. */
  function IdleLevel(tasks: seq<TxTask>): Option<Sample> {
    if tasks == [] then Some(Off) else IdleAfter(tasks[|tasks| - 1])
  }

  /** The waveforms of the tasks in order, with `gaps[i]` idle samples before task `i` and `gaps[|tasks|]` at the end. */
  function Weave(t: Timing, tasks: seq<TxTask>, gaps: seq<nat>): seq<Sample>
    requires t.Valid() && |gaps| == |tasks| + 1
  {
    var n := |tasks|;
    var idle := IdleRun(IdleLevel(tasks), gaps[n]);
    if n == 0 then idle
    else Weave(t, tasks[..n - 1], gaps[..n]) + TaskWave(t, tasks[n - 1]) + idle
  }

  /** Where the encoder does not idle there is no gap. */
  ghost predicate Gaps(tasks: seq<TxTask>, gaps: seq<nat>) {
    && |gaps| == |tasks| + 1
    && forall i {:trigger gaps[i]} :: 0 <= i <= |tasks| && IdleLevel(tasks[..i]) == None ==> gaps[i] == 0
  }

  lemma WeaveTask(t: Timing, tasks: seq<TxTask>, gaps: seq<nat>, task: TxTask)
    requires t.Valid() && Gaps(tasks, gaps)
    ensures Gaps(tasks + [task], gaps + [0])
    ensures Weave(t, tasks + [task], gaps + [0]) == Weave(t, tasks, gaps) + TaskWave(t, task)
  {
    var (all, g) := (tasks + [task], gaps + [0]);
    assert all[..|tasks|] == tasks && g[..|gaps|] == gaps;
    forall i | 0 <= i <= |all| && IdleLevel(all[..i]) == None ensures g[i] == 0 {
      if i <= |tasks| { assert all[..i] == tasks[..i] && g[i] == gaps[i]; }
    }
    assert IdleRun(IdleLevel(all), 0) == [];
  }

  lemma WeaveIdle(t: Timing, tasks: seq<TxTask>, gaps: seq<nat>, k: nat)
    requires t.Valid() && Gaps(tasks, gaps) && IdleLevel(tasks) != None
    ensures var g := gaps[|tasks| := gaps[|tasks|] + k];
      Gaps(tasks, g) && Weave(t, tasks, g) == Weave(t, tasks, gaps) + IdleRun(IdleLevel(tasks), k)
  {
    var n := |tasks|;
    var g := gaps[n := gaps[n] + k];
    assert g[..n] == gaps[..n];
    assert tasks[..n] == tasks;
    forall i | 0 <= i <= n && IdleLevel(tasks[..i]) == None ensures g[i] == 0 {
      assert gaps[i] == 0;
    }
    var level := IdleLevel(tasks).value;
    assert Level(level, gaps[n] + k) == Level(level, gaps[n]) + Level(level, k);
  }

  /** What a sequence of events has achieved. */
  ghost predicate Accounts(t: Timing, out: seq<Sample>, line: SampleLine, tasks: seq<TxTask>, gaps: seq<nat>)
    requires t.Valid()
  {
    && Gaps(tasks, gaps)
    && out + line.pending == Weave(t, tasks, gaps)
    && line.idle == IdleLevel(tasks)
  }

  lemma AccountsQueue(t: Timing, out: seq<Sample>, line: SampleLine, tasks: seq<TxTask>, gaps: seq<nat>, task: TxTask)
    requires t.Valid() && Accounts(t, out, line, tasks, gaps)
    ensures Accounts(t, out, Join(t, line, task), tasks + [task], gaps + [0])
  {
    hide Weave, Gaps, TaskWave;
    WeaveTask(t, tasks, gaps, task);
    assert IdleLevel(tasks + [task]) == IdleAfter(task);
    assert out + (line.pending + TaskWave(t, task)) == (out + line.pending) + TaskWave(t, task);
  }

  lemma AccountsCall(t: Timing, out: seq<Sample>, line: SampleLine, tasks: seq<TxTask>, gaps: seq<nat>, n: nat)
    returns (later: seq<nat>)
    requires t.Valid() && Accounts(t, out, line, tasks, gaps)
    ensures Accounts(t, out + Sent(line, n), Rest(line, n), tasks, later)
  {
    if n <= |line.pending| {
      later := gaps;
      assert out + line.pending[..n] + line.pending[n..] == out + line.pending;
    } else if line.idle == None {
      later := gaps;
      assert out + (line.pending + []) + [] == out + line.pending;
    } else {
      var k := n - |line.pending|;
      later := gaps[|tasks| := gaps[|tasks|] + k];
      WeaveIdle(t, tasks, gaps, k);
      assert out + (line.pending + IdleRun(line.idle, k)) + [] == (out + line.pending) + IdleRun(line.idle, k);
    }
  }

  /**
   What a line provides in a sequence of events, followed by what is still pending, is the concatenation
   of all task waveforms in the order queued, with nothing between them but runs of the idle level.
   */
  lemma {:induction false} LineTheorem(t: Timing, events: seq<Event>) returns (gaps: seq<nat>)
    requires t.Valid()
    ensures Gaps(TasksOf(events), gaps)
    ensures Output(t, events) + LineAfter(t, events).pending == Weave(t, TasksOf(events), gaps)
    ensures LineAfter(t, events).idle == IdleLevel(TasksOf(events))
    decreases |events|
  {
    hide Weave, Gaps, IdleLevel, Sent, Rest, Join;
    if events == [] {
      gaps := [0];
      NoEvents(t);
    } else {
      var before := events[..|events| - 1];
      var earlier := LineTheorem(t, before);
      match events[|events| - 1]
      case Queue(task) =>
        gaps := earlier + [0];
        AccountsQueue(t, Output(t, before), LineAfter(t, before), TasksOf(before), earlier, task);
      case Call(n) =>
        gaps := AccountsCall(t, Output(t, before), LineAfter(t, before), TasksOf(before), earlier, n);
    }
  }

  lemma NoEvents(t: Timing)
    requires t.Valid()
    ensures Accounts(t, [], SampleLine([], Some(Off)), [], [0])
  {}

  // ---------------------------------------------------------------- the block

  /** What one call of the block does to the encoder. */
  ghost predicate WorkDone(t: Timing, before: Encoder, n: nat, after: Encoder, out: seq<Sample>)
    requires t.Valid() && before.Valid()
  {
    && after.Valid()
    && out == Sent(before.Line(t), n)
    && after.Line(t) == Rest(before.Line(t), n)
    && |after.queue| <= |before.queue| && after.queue == before.queue[|before.queue| - |after.queue|..]
    && (before.TimedReady() ==> after.TimedReady())
  }

  /**
   A call that the language defines: the front of the buffer was `was` and is now `now`.  That is what the
   line provides if every timed carrier starts at the start of the call; otherwise some sample of a carrier
   was not written.
   */
  ghost predicate Called(t: Timing, before: Encoder, n: nat, after: Encoder, was: seq<Sample>, now: seq<Sample>)
    requires t.Valid() && before.Valid()
  {
    var intended := Sent(before.Line(t), n);
    && WorkDone(t, before, n, after, intended)
    && |was| == |now| == |intended|
    && (before.Aligned(t, 0, n) ==> now == intended)
    && (!before.Aligned(t, 0, n) ==> exists k :: 0 <= k < |now| && intended[k] == On && now[k] == was[k])
  }

  /** A timed task at the very front is right for calls of every size. */
  lemma ReadyIsAligned(t: Timing, e: Encoder, n: nat)
    requires t.Valid() && e.Valid() && e.TimedReady()
    ensures e.Aligned(t, 0, n)
  {}

  /** Write `s` into `a[lo..hi)`. */
  method Fill(a: array<Sample>, lo: nat, hi: nat, s: Sample)
    requires lo <= hi <= a.Length
    modifies a
    ensures a[..] == old(a[..lo]) + Level(s, hi - lo) + old(a[hi..])
  {
    for i := lo to hi
      invariant forall k :: 0 <= k < a.Length ==> a[k] == if lo <= k < i then s else old(a[k])
    {
      a[i] := s;
    }
  }

  /** Copy `wave` into `a` from position `at`. */
  method Copy(wave: seq<Sample>, a: array<Sample>, at: nat)
    requires at + |wave| <= a.Length
    modifies a
    ensures a[..] == old(a[..at]) + wave + old(a[at + |wave|..])
  {
    for i := 0 to |wave|
      invariant forall k :: 0 <= k < a.Length ==> a[k] == if at <= k < at + i then wave[k - at] else old(a[k])
    {
      a[at + i] := wave[i];
    }
  }

  class PieEncoderBlock {
    const timing: Timing
    const data0: seq<Sample>
    const data1: seq<Sample>
    const preamble: seq<Sample>
    const framesync: seq<Sample>
    const cmdQueue: MsgQueue<TxTask>
    var state: State
    var counter: int
    var outgoingFrame: seq<Sample>

    /** The variables of the block, as a value. */
    function Model(): Encoder
      reads this, cmdQueue
    {
      Encoder(state, counter, outgoingFrame, cmdQueue.items)
    }

    ghost predicate Valid()
      reads this, cmdQueue
    {
      && timing.Valid()
      && data0 == Interval(timing.tari, timing.pw)
      && data1 == Interval(timing.data1, timing.pw)
      && preamble == PreambleWave(timing)
      && framesync == FrameSyncWave(timing)
      && Model().Valid()
    }

    constructor (timing: Timing, queue: MsgQueue<TxTask>)
      requires timing.Valid()
      ensures Valid() && this.timing == timing && cmdQueue == queue
      ensures state == OffIdle
    {
      this.timing := timing;
      cmdQueue := queue;
      state, counter, outgoingFrame := OffIdle, 0, [];
      var zero := BuildInterval(timing.tari, timing.pw);
      data0 := zero;
      var one := BuildInterval(timing.data1, timing.pw);
      data1 := one;
      var frame := BuildFrame(timing, zero, false);
      framesync := frame;
      var longFrame := BuildFrame(timing, zero, true);
      preamble := longFrame;
    }

    /** A symbol of the constructor: high, then low for the last `pw` samples. */
    static method BuildInterval(n: nat, pw: nat) returns (wave: seq<Sample>)
      requires pw <= n
      ensures wave == Interval(n, pw)
      ensures |wave| == n && forall k :: 0 <= k < n ==> (wave[k] == On <==> k < n - pw)
    {
      var a := new Sample[n](_ => Off);
      FillInterval(a, 0, n, pw);
      wave := a[..];
    }

    /** Copy a finished piece to position `at`. */
    static method CopyPiece(wave: seq<Sample>, a: array<Sample>, at: nat)
      requires at + |wave| <= a.Length
      modifies a
      ensures a[..at + |wave|] == old(a[..at]) + wave
    {
      Copy(wave, a, at);
    }

    /** Fill an interval of `n` samples from position `at`. */
    static method FillInterval(a: array<Sample>, at: nat, n: nat, pw: nat)
      requires pw <= n && at + n <= a.Length
      modifies a
      ensures a[..at + n] == old(a[..at]) + Interval(n, pw)
    {
      Fill(a, at, at + n - pw, On);
      Fill(a, at + n - pw, at + n, Off);
    }

    /** The frame-sync, or with `full` the preamble, filled piece by piece. */
    static method BuildFrame(timing: Timing, data0: seq<Sample>, full: bool) returns (wave: seq<Sample>)
      requires timing.Valid() && data0 == Interval(timing.tari, timing.pw)
      ensures wave == if full then PreambleWave(timing) else FrameSyncWave(timing)
    {
      hide Level, Interval, FrameSyncWave, PreambleWave;
      var short := timing.delimiter + |data0| + timing.data1 + timing.tari;
      var a := new Sample[short + if full then timing.trcal else 0](_ => Off);
      FrameParts(timing);
      FillFrame(timing, data0, a);
      if full {
        FillInterval(a, short, timing.trcal, timing.pw);
        assert a[..] == a[..short + timing.trcal];
      } else {
        assert a[..] == a[..short];
      }
      wave := a[..];
    }

    /** The delimiter, a data-0 symbol and the calibration symbol at the front of `a`. */
    static method FillFrame(timing: Timing, data0: seq<Sample>, a: array<Sample>)
      requires timing.Valid() && data0 == Interval(timing.tari, timing.pw)
      requires |FrameSyncWave(timing)| == timing.delimiter + |data0| + timing.data1 + timing.tari <= a.Length
      modifies a
      ensures a[..|FrameSyncWave(timing)|] == FrameSyncWave(timing)
    {
      hide Level, Interval, FrameSyncWave;
      var (rtcal, pw) := (timing.data1 + timing.tari, timing.pw);
      var at := timing.delimiter;
      Fill(a, 0, at, Off);
      assert a[..at] == Level(Off, timing.delimiter);
      CopyPiece(data0, a, at);
      at := at + |data0|;
      assert rtcal > pw;
      FillInterval(a, at, rtcal, pw);
      FrameParts(timing);
    }

    /** The waveform of a bit sequence: first its size, then its samples. */
    method BitToPie(b: seq<bit>) returns (p: seq<Sample>)
      requires Valid()
      ensures p == BitsWave(timing, b)
    {
      var sampleCnt := 0;
      for i := 0 to |b|
        invariant sampleCnt == |BitsWave(timing, b[..i])|
      {
        sampleCnt := sampleCnt + if b[i] == 0 then |data0| else |data1|;
        BitsWaveAppend(timing, b, i);
      }
      assert b[..|b|] == b;
      var a := new Sample[sampleCnt](_ => Off);
      var filler := 0;
      for i := 0 to |b|
        invariant filler == |BitsWave(timing, b[..i])| <= a.Length
        invariant a[..filler] == BitsWave(timing, b[..i])
        invariant filler + |BitsWave(timing, b[i..])| == a.Length
      {
        BitsWaveAppend(timing, b, i);
        assert b[i..][1..] == b[i + 1..];
        ghost var done := a[..filler];
        if b[i] == 0 {
          Copy(data0, a, filler);
          filler := filler + |data0|;
        } else {
          Copy(data1, a, filler);
          filler := filler + |data1|;
        }
        assert a[..filler] == done + SymbolWave(timing, b[i]);
      }
      assert filler == a.Length;
      p := a[..];
    }

    /** Take the oldest task out of the queue and start it. */
    method NextTask()
      requires Valid() && cmdQueue.items != []
      modifies this, cmdQueue
      ensures Valid() && cmdQueue.items == old(cmdQueue.items)[1..]
      ensures Model().Current() == TaskWave(timing, old(cmdQueue.items)[0])
      ensures Model().Idle() == IdleAfter(old(cmdQueue.items)[0])
      ensures Model().OnAir() <==> old(cmdQueue.items)[0].TurnOnTimed? && old(cmdQueue.items)[0].len > 0
    {
      var task := cmdQueue.DeleteHead();
      match task
      case TurnOnTimed(len) =>
        counter := len;
        state := OnTimed;
      case TurnOn =>
        state := OnIdle;
      case Preamble =>
        outgoingFrame := preamble;
        state := SendSamples;
        counter := 0;
      case FrameSynch =>
        outgoingFrame := framesync;
        state := SendSamples;
        counter := 0;
      case DataBits(data) =>
        outgoingFrame := BitToPie(data);
        state := SendSamples;
        counter := 0;
      case TurnOff =>
        state := OffIdle;
    }

    /** The idle states: start the next task, or fill the rest of the buffer. */
    method IdleTurn(noutput: nat, output: array<Sample>, nn: nat, level: Sample) returns (ghost w: seq<Sample>, m: nat)
      requires Valid() && nn < noutput <= output.Length
      requires state == if level == Off then OffIdle else OnIdle
      modifies this, cmdQueue, output
      ensures Valid() && |w| == m <= noutput - nn
      ensures output[..nn + m] == old(output[..nn]) + w
      ensures output[nn + m..] == old(output[nn + m..])
      ensures Produced(timing, old(Model()), w, noutput - nn, Model())
      ensures Moved(timing, old(Model()), w, Model(), noutput - nn, false)
    {
      hide Sent, Rest, Behind, TaskWave, IdleAfter, Level, Produced, Encoder.Line;
      ghost var before := Model();
      if cmdQueue.items != [] {
        NextTask();
        Popped(timing, before, noutput - nn, Model());
        w, m := [], 0;
      } else {
        Fill(output, nn, noutput, level);
        w, m := Level(level, noutput - nn), noutput - nn;
        IdleEmitted(timing, before, noutput - nn, level);
      }
    }

    /** The fill of a timed carrier, as it is. */
    method TimedFill(output: array<Sample>, nn: nat, m: nat)
      requires 0 < m && nn <= m && nn + m <= output.Length
      modifies output
      ensures nn == 0 ==> output[..m] == Level(On, m) && output[m..] == old(output[m..])
      ensures nn > 0 ==> Unwritten(old(output[..]), output[..], nn, m)
    {
      ghost var was := output[..];
      Fill(output, nn, m, On);
      assert forall k :: m <= k < output.Length ==> output[k] == output[..][k] == was[m..][k - m];
    }

    /**
     The timed carrier.  The fill ends at sample `m` of the buffer, not `m` samples on, so it is only right
     at the start of a call; it is undefined if it would end before it starts.
     */
    method TimedTurn(noutput: nat, output: array<Sample>, nn: nat) returns (ghost w: seq<Sample>, m: nat, defined: bool)
      requires Valid() && nn < noutput <= output.Length && Model().OnAir()
      modifies this, output
      ensures Valid() && 0 < m == |w| <= noutput - nn && w[m - 1] == On
      ensures nn == 0 ==> defined && output[..m] == w && output[m..] == old(output[m..])
      ensures defined && nn > 0 ==> Unwritten(old(output[..]), output[..], nn, m)
      ensures Produced(timing, old(Model()), w, noutput - nn, Model())
      ensures Moved(timing, old(Model()), w, Model(), noutput - nn, false)
    {
      hide Sent, Rest, Behind, TaskWave, IdleAfter, Produced, Encoder.Line, Unwritten;
      ghost var before := Model();
      m := if counter < noutput - nn then counter else noutput - nn;
      defined := nn <= m;
      if defined {
        TimedFill(output, nn, m);
      }
      counter := counter - m;
      w := Level(On, m);
      LevelSplit(m, before.counter);
      Emitted(timing, before, w, noutput - nn, Model());
    }

    /** The next samples of the outgoing frame. */
    method SendTurn(noutput: nat, output: array<Sample>, nn: nat) returns (ghost w: seq<Sample>, m: nat)
      requires Valid() && nn < noutput <= output.Length && state == SendSamples && counter < |outgoingFrame|
      modifies this, output
      ensures Valid() && |w| == m <= noutput - nn && m > 0
      ensures output[..nn + m] == old(output[..nn]) + w && output[nn + m..] == old(output[nn + m..])
      ensures Produced(timing, old(Model()), w, noutput - nn, Model())
      ensures Moved(timing, old(Model()), w, Model(), noutput - nn, false)
    {
      hide Sent, Rest, Behind, TaskWave, IdleAfter, Level, Produced, Encoder.Line;
      ghost var before := Model();
      m := if |outgoingFrame| - counter < noutput - nn then |outgoingFrame| - counter else noutput - nn;
      w := outgoingFrame[counter..counter + m];
      Copy(outgoingFrame[counter..counter + m], output, nn);
      counter := counter + m;
      Emitted(timing, before, w, noutput - nn, Model());
    }

    /** The body of the work loop; `nn` samples have been produced, `w` should be added. */
    method Turn(noutput: nat, output: array<Sample>, nn: nat)
      returns (ghost w: seq<Sample>, m: nat, exit: bool, defined: bool)
      requires Valid() && nn < noutput <= output.Length
      modifies this, cmdQueue, output
      ensures Valid() && |w| == m <= noutput - nn
      ensures Produced(timing, old(Model()), w, noutput - nn, Model())
      ensures !(old(Model()).OnAir() && nn > 0) ==>
        defined && output[..nn + m] == old(output[..nn]) + w && output[nn + m..] == old(output[nn + m..])
      ensures old(Model()).OnAir() && nn > 0 && defined ==>
        Unwritten(old(output[..]), output[..], nn, m) && w[m - 1] == On
      ensures Moved(timing, old(Model()), w, Model(), noutput - nn, exit)
    {
      hide Sent, Rest, Behind, TaskWave, IdleAfter, Level, Produced, Encoder.Line;
      w, m, exit, defined := [], 0, false, true;
      ghost var before := Model();
      ghost var k := noutput - nn;
      match state
      case OffIdle =>
        w, m := IdleTurn(noutput, output, nn, Off);
      case OnIdle =>
        w, m := IdleTurn(noutput, output, nn, On);
      case OnTimed =>
        if counter > 0 {
          w, m, defined := TimedTurn(noutput, output, nn);
        } else {
          state := GetTask;
          ProducedNothing(timing, before, k, Model());
        }
      case SendSamples =>
        if counter < |outgoingFrame| {
          w, m := SendTurn(noutput, output, nn);
        } else {
          state := GetTask;
          ProducedNothing(timing, before, k, Model());
        }
      case GetTask =>
        if cmdQueue.items != [] {
          NextTask();
          Popped(timing, before, k, Model());
        } else {
          exit := true;
          ProducedNothing(timing, before, k, Model());
        }
    }

    /**
     Produce up to `noutput` samples: those that the line provides, unless a timed carrier is misplaced.
     Only then can the call be undefined.
     */
    method GeneralWork(noutput: nat, output: array<Sample>) returns (nn: nat, defined: bool)
      requires Valid() && noutput <= output.Length
      modifies this, cmdQueue, output
      ensures Valid() && nn <= noutput
      ensures defined ==> Called(timing, old(Model()), noutput, Model(), old(output[..])[..nn], output[..nn])
      ensures defined ==> output[nn..] == old(output[..])[nn..]
      ensures old(Model()).Aligned(timing, 0, noutput) ==> defined
    {
      hide Sent, Rest, Behind, TaskWave, IdleAfter, Level, Encoder.Line, Encoder.TimedReady, Encoder.Idle, Encoder.Aligned,
        Encoder.OnAir, Encoder.Current, Produced, Moved, Unwritten, Buffered, Going, WorkDone, Called;
      ghost var first := output[..];
      ghost var intended: seq<Sample> := [];
      ghost var start := Model();
      ghost var e := start;
      ghost var stale: Option<nat> := None;
      nn, defined := 0, true;
      GoingStart(timing, start, noutput);
      BufferedStart(output[..]);
      while nn < noutput
        invariant Valid() && nn <= noutput && e == Model() && |intended| == nn && defined
        invariant Going(timing, start, intended, noutput, e, stale)
        invariant Buffered(first, output[..], intended, stale)
        decreases noutput - nn, |e.queue|, if state == OnTimed || state == SendSamples then 1 else 0
      {
        ghost var was := output[..];
        ghost var before := stale;
        ghost var w: seq<Sample>;
        var m, exit;
        w, m, exit, defined := Turn(noutput, output, nn);
        if e.OnAir() && nn > 0 && stale == None {
          stale := Some(nn + m - 1);
        }
        GoingOn(timing, start, intended, noutput, e, before, w, Model(), exit, stale);
        if !defined {
          return;
        }
        BufferedStep(first, was, output[..], intended, w, before, e.OnAir() && nn > 0);
        e := Model();
        intended := intended + w;
        nn := nn + m;
        if exit {
          break;
        }
      }
      GoingEnd(timing, start, intended, noutput, e, stale);
      BufferedEnd(first, output[..], intended, stale);
      CalledEnd(timing, start, noutput, e, intended, first, output[..], stale);
      assert output[..][nn..] == output[nn..];
    }
  }

  lemma CalledEnd(t: Timing, start: Encoder, n: nat, e: Encoder, intended: seq<Sample>, was: seq<Sample>,
                  now: seq<Sample>, stale: Option<nat>)
    requires t.Valid() && start.Valid() && WorkDone(t, start, n, e, intended)
    requires (start.Aligned(t, 0, n) <==> stale == None) && |intended| <= |now| == |was|
    requires stale == None ==> now[..|intended|] == intended
    requires stale.Some? ==> exists k :: 0 <= k < |intended| && intended[k] == On && now[k] == was[k]
    ensures Called(t, start, n, e, was[..|intended|], now[..|intended|])
  {
    hide Encoder.Aligned, Encoder.Line, Sent, Rest;
    if stale.Some? {
      var k :| 0 <= k < |intended| && intended[k] == On && now[k] == was[k];
      assert now[..|intended|][k] == was[..|intended|][k];
    }
  }

  // ---------------------------------------------------------------- whole runs of the block

  const NEW := Encoder(OffIdle, 0, [], [])

  /** What happens to the encoder: a task is queued, or the block is called for `n` samples. */
  datatype Move = Enqueue(task: TxTask) | Work(n: nat, was: seq<Sample>, now: seq<Sample>, after: Encoder)

  ghost function StateAfter(moves: seq<Move>): Encoder {
    if moves == [] then NEW
    else
      match moves[|moves| - 1]
      case Enqueue(task) =>
        var e := StateAfter(moves[..|moves| - 1]);
        e.(queue := e.queue + [task])
      case Work(_, _, _, after) => after
  }

  /** Every call is a call of the block in the state reached. */
  ghost predicate IsRun(t: Timing, moves: seq<Move>)
    requires t.Valid()
  {
    moves == [] ||
    (var (before, last) := (moves[..|moves| - 1], moves[|moves| - 1]);
     && IsRun(t, before) && StateAfter(before).Valid()
     && (last.Work? ==> Called(t, StateAfter(before), last.n, last.after, last.was, last.now)))
  }

  /** No call of the run meets a misplaced carrier. */
  ghost predicate AlignedRun(t: Timing, moves: seq<Move>)
    requires t.Valid() && IsRun(t, moves)
  {
    moves == [] ||
    (var (before, last) := (moves[..|moves| - 1], moves[|moves| - 1]);
     AlignedRun(t, before) && (last.Work? ==> StateAfter(before).Aligned(t, 0, last.n)))
  }

  /** The contents of the buffers, one call after the other. */
  function Written(moves: seq<Move>): seq<Sample> {
    if moves == [] then []
    else
      var (before, last) := (moves[..|moves| - 1], moves[|moves| - 1]);
      if last.Work? then Written(before) + last.now else Written(before)
  }

  function LogOf(moves: seq<Move>): seq<Event> {
    if moves == [] then []
    else
      var (before, last) := (moves[..|moves| - 1], moves[|moves| - 1]);
      LogOf(before) + [if last.Enqueue? then Queue(last.task) else Event.Call(last.n)]
  }

  /** Every buffer held the off level before the call. */
  ghost predicate OffBefore(moves: seq<Move>) {
    forall i :: 0 <= i < |moves| && moves[i].Work? ==> moves[i].was == Level(Off, |moves[i].was|)
  }

  /** Queueing a task, on the state and on the line. */
  lemma EnqueueLine(t: Timing, e: Encoder, task: TxTask)
    requires t.Valid() && e.Valid()
    ensures var h := e.(queue := e.queue + [task]); h.Valid() && h.Line(t) == Join(t, e.Line(t), task)
  {
    BehindAppend(t, SampleLine(e.Current(), e.Idle()), e.queue, task);
  }

  lemma LogStep(t: Timing, log: seq<Event>, event: Event)
    requires t.Valid()
    ensures LineAfter(t, log + [event]) ==
      if event.Queue? then Join(t, LineAfter(t, log), event.task) else Rest(LineAfter(t, log), event.n)
    ensures Output(t, log + [event]) ==
      if event.Queue? then Output(t, log) else Output(t, log) + Sent(LineAfter(t, log), event.n)
    ensures TasksOf(log + [event]) == if event.Queue? then TasksOf(log) + [event.task] else TasksOf(log)
  {
    hide Join, Rest, Sent;
    assert (log + [event])[..|log|] == log;
  }

  /**
   A run of the block follows its line, and the buffers hold what the line provides if no carrier is misplaced.
   If they held the off level before, they do so only then.
   */
  lemma {:induction false} RunFollowsLine(t: Timing, moves: seq<Move>)
    requires t.Valid() && IsRun(t, moves)
    ensures StateAfter(moves).Valid() && StateAfter(moves).Line(t) == LineAfter(t, LogOf(moves))
    ensures |Written(moves)| == |Output(t, LogOf(moves))|
    ensures AlignedRun(t, moves) ==> Written(moves) == Output(t, LogOf(moves))
    ensures OffBefore(moves) && Written(moves) == Output(t, LogOf(moves)) ==> AlignedRun(t, moves)
    decreases |moves|
  {
    hide Join, Rest, Sent, Encoder.Line, Encoder.Aligned, LineAfter, Output, TasksOf, Level;
    if moves == [] {
      NewLine(t);
    } else {
      var (before, last) := (moves[..|moves| - 1], moves[|moves| - 1]);
      RunFollowsLine(t, before);
      var e := StateAfter(before);
      match last {
        case Enqueue(task) =>
          EnqueueLine(t, e, task);
          LogStep(t, LogOf(before), Queue(task));
        case Work(n, was, now, after) =>
          LogStep(t, LogOf(before), Event.Call(n));
          if OffBefore(moves) {
            CallWrites(t, e, n, after, was, now);
          }
          var (a, b, c, d) := (Written(before), Output(t, LogOf(before)), now, Sent(e.Line(t), n));
          SameConcat(a, b, c, d);
      }
    }
  }

  lemma SameConcat(a: seq<Sample>, b: seq<Sample>, c: seq<Sample>, d: seq<Sample>)
    requires |a| == |b|
    ensures a + c == b + d <==> a == b && c == d
  {
    if a + c == b + d {
      assert a == (a + c)[..|a|] && c == (a + c)[|a|..];
      assert b == (b + d)[..|a|] && d == (b + d)[|a|..];
    }
  }

  lemma NewLine(t: Timing)
    requires t.Valid()
    ensures NEW.Valid() && NEW.Line(t) == LineAfter(t, [])
    ensures Output(t, []) == []
  {}

  /** On a buffer that held the off level a misplaced carrier shows. */
  lemma CallWrites(t: Timing, e: Encoder, n: nat, after: Encoder, was: seq<Sample>, now: seq<Sample>)
    requires t.Valid() && e.Valid() && Called(t, e, n, after, was, now) && was == Level(Off, |was|)
    ensures now == Sent(e.Line(t), n) <==> e.Aligned(t, 0, n)
  {
    hide Encoder.Line, Encoder.Aligned, Sent, WorkDone;
  }

  /**
   In every run in which no carrier is misplaced, whatever the tasks and the sizes of the calls: the
   buffers written, followed by what is still pending, are all task waveforms in the order queued, with
   nothing between them but runs of the idle level.  No sample is lost, repeated or reordered.
   */
  lemma RunTheorem(t: Timing, moves: seq<Move>) returns (gaps: seq<nat>)
    requires t.Valid() && IsRun(t, moves) && AlignedRun(t, moves)
    ensures StateAfter(moves).Valid()
    ensures var tasks := TasksOf(LogOf(moves));
      && Gaps(tasks, gaps)
      && Written(moves) + StateAfter(moves).Line(t).pending == Weave(t, tasks, gaps)
      && StateAfter(moves).Line(t).idle == IdleLevel(tasks)
  {
    hide Weave, Gaps, IdleLevel, LineAfter, Output, TasksOf, Encoder.Line;
    RunFollowsLine(t, moves);
    gaps := LineTheorem(t, LogOf(moves));
  }

  /**
   Once everything is sent, a call gives the off level at first and after `TurnOff`, the on level after
   `TurnOn`, and no samples after any other task.
   */
  lemma IdleTheorem(t: Timing, moves: seq<Move>, n: nat, was: seq<Sample>, now: seq<Sample>, after: Encoder)
    requires t.Valid() && IsRun(t, moves) && AlignedRun(t, moves) && StateAfter(moves).Valid()
    requires StateAfter(moves).Line(t).pending == []
    requires Called(t, StateAfter(moves), n, after, was, now) && StateAfter(moves).Aligned(t, 0, n)
    ensures var tasks := TasksOf(LogOf(moves));
      if tasks == [] || tasks[|tasks| - 1].TurnOff? then |now| == n && forall k :: 0 <= k < n ==> now[k] == Off
      else if tasks[|tasks| - 1].TurnOn? then |now| == n && forall k :: 0 <= k < n ==> now[k] == On
      else now == []
  {
    hide Weave, Gaps, LineAfter, Output, TasksOf, Encoder.Line, Encoder.Aligned, WorkDone;
    var gaps := RunTheorem(t, moves);
  }

  /** On buffers that held the off level a run writes what its line provides exactly if no carrier is misplaced. */
  lemma MisplacedTheorem(t: Timing, moves: seq<Move>)
    requires t.Valid() && IsRun(t, moves) && OffBefore(moves)
    ensures Written(moves) == Output(t, LogOf(moves)) <==> AlignedRun(t, moves)
  {
    RunFollowsLine(t, moves);
  }

  /** The work loop after producing `intended`: `e` provides the rest, and `stale` says whether a carrier was misplaced. */
  ghost predicate Going(t: Timing, start: Encoder, intended: seq<Sample>, n: nat, e: Encoder, stale: Option<nat>)
    requires t.Valid() && start.Valid() && e.Valid()
  {
    && Produced(t, start, intended, n, e)
    && (start.TimedReady() ==> e.TimedReady())
    && (start.Aligned(t, 0, n) <==> stale == None && e.Aligned(t, |intended|, n))
    && |e.queue| <= |start.queue| && e.queue == start.queue[|start.queue| - |e.queue|..]
  }

  lemma GoingStart(t: Timing, start: Encoder, n: nat)
    requires t.Valid() && start.Valid()
    ensures Going(t, start, [], n, start, None)
  {
    hide Produced, Encoder.TimedReady, Encoder.Aligned;
    ProducedStart(t, start, n);
  }

  lemma GoingOn(t: Timing, start: Encoder, intended: seq<Sample>, n: nat, a: Encoder, before: Option<nat>,
                w: seq<Sample>, b: Encoder, exit: bool, after: Option<nat>)
    requires t.Valid() && start.Valid() && a.Valid() && b.Valid() && |intended| < n && |intended| + |w| <= n
    requires Going(t, start, intended, n, a, before)
    requires Produced(t, a, w, n - |intended|, b) && Moved(t, a, w, b, n - |intended|, exit)
    requires (after == None) == (before == None && !(a.OnAir() && |intended| > 0))
    ensures Going(t, start, intended + w, n, b, after)
    ensures after.Some? ==> !start.Aligned(t, 0, n)
    ensures w == [] && !exit ==>
      || |b.queue| < |a.queue|
      || (b.queue == a.queue && b.state == GetTask && (a.state == OnTimed || a.state == SendSamples))
    ensures exit ==> b.state == GetTask && b.queue == []
  {
    hide Produced, Encoder.TimedReady, Encoder.Aligned, Encoder.OnAir, Moved;
    ProducedTwice(t, start, intended, n, a, w, b);
    MovedTimed(t, a, w, b, n - |intended|, exit);
    MovedAligned(t, a, w, b, |intended|, n, exit);
    if a.OnAir() && |intended| > 0 { NotAligned(t, a, |intended|, n); }
  }

  lemma GoingEnd(t: Timing, start: Encoder, intended: seq<Sample>, n: nat, e: Encoder, stale: Option<nat>)
    requires t.Valid() && start.Valid() && e.Valid() && Going(t, start, intended, n, e, stale)
    requires |intended| == n || (e.state == GetTask && e.queue == [])
    ensures WorkDone(t, start, n, e, intended)
    ensures start.Aligned(t, 0, n) <==> stale == None
  {
    hide Produced, Encoder.TimedReady, Encoder.Aligned, Encoder.Line, Sent, Rest;
    ProducedAll(t, start, intended, n, e);
    EndAligned(t, e, |intended|, n);
  }

  /** What a turn does to the task in progress and the queue: emit, take the next task, idle, or leave the loop. */
  ghost predicate Moved(t: Timing, a: Encoder, w: seq<Sample>, b: Encoder, k: nat, exit: bool)
    requires t.Valid() && a.Valid() && b.Valid()
  {
    || (exit && w == [] && b == a && a.state == GetTask && a.queue == [])
    || (!exit && w == [] && b.queue == a.queue && b.Current() == a.Current() && b.state == GetTask
        && (a.state == OnTimed || a.state == SendSamples) && !a.OnAir())
    || (!exit && w == [] && a.queue != [] && b.queue == a.queue[1..] && a.Current() == []
        && b.Current() == TaskWave(t, a.queue[0]) && !a.OnAir()
        && (b.OnAir() <==> a.queue[0].TurnOnTimed? && a.queue[0].len > 0))
    || (!exit && w != [] && b.queue == a.queue && a.Current() == w + b.Current() && (b.OnAir() ==> a.OnAir() && |w| == k))
    || (!exit && w != [] && |w| == k && b == a && a.queue == [] && !a.OnAir())
  }

  /** A fill at `nn` for `m` samples that left the last of them as it was, and everything around them too. */
  ghost predicate Unwritten(was: seq<Sample>, now: seq<Sample>, nn: nat, m: nat) {
    && |was| == |now| && 0 < m && nn + m <= |was|
    && now[..nn] == was[..nn] && now[nn + m - 1] == was[nn + m - 1] && now[nn + m..] == was[nn + m..]
  }

  /** The buffer holds what it should, but for a carrier sample that was left as it was, if there is one. */
  ghost predicate Buffered(was: seq<Sample>, now: seq<Sample>, intended: seq<Sample>, stale: Option<nat>) {
    && |was| == |now| && |intended| <= |now| && now[|intended|..] == was[|intended|..]
    && (stale == None ==> now[..|intended|] == intended)
    && (stale.Some? ==> stale.value < |intended| && intended[stale.value] == On && now[stale.value] == was[stale.value])
  }

  lemma BufferedStart(was: seq<Sample>)
    ensures Buffered(was, was, [], None)
  {}

  lemma BufferedStep(first: seq<Sample>, was: seq<Sample>, now: seq<Sample>, intended: seq<Sample>, w: seq<Sample>,
                     stale: Option<nat>, spoiled: bool)
    requires Buffered(first, was, intended, stale) && |was| == |now| && |intended| + |w| <= |now|
    requires !spoiled ==> now[..|intended| + |w|] == was[..|intended|] + w && now[|intended| + |w|..] == was[|intended| + |w|..]
    requires spoiled ==> Unwritten(was, now, |intended|, |w|) && w[|w| - 1] == On
    ensures Buffered(first, now, intended + w,
                     if stale.Some? || !spoiled then stale else Some(|intended| + |w| - 1))
  {
    var n := |intended| + |w|;
    forall k | n <= k < |now| ensures now[k] == first[k] {
      assert now[k] == now[n..][k - n] == was[n..][k - n] == was[|intended|..][k - |intended|] == first[|intended|..][k - |intended|];
    }
    assert spoiled ==> was[n - 1] == was[|intended|..][|w| - 1] == first[|intended|..][|w| - 1] == first[n - 1];
    assert !spoiled ==> forall k :: 0 <= k < |intended| ==> now[k] == now[..n][k] == was[..|intended|][k] == was[k];
    assert spoiled ==> forall k :: 0 <= k < |intended| ==> now[k] == now[..|intended|][k] == was[..|intended|][k] == was[k];
  }

  lemma BufferedEnd(was: seq<Sample>, now: seq<Sample>, intended: seq<Sample>, stale: Option<nat>)
    requires Buffered(was, now, intended, stale)
    ensures now[|intended|..] == was[|intended|..]
    ensures stale == None ==> now[..|intended|] == intended
    ensures stale.Some? ==> exists k :: 0 <= k < |intended| && intended[k] == On && now[k] == was[k]
  {}

  /** From `before`, `w` is the front of what a call for `k` samples gets, and `after` provides the rest. */
  ghost predicate Produced(t: Timing, before: Encoder, w: seq<Sample>, k: nat, after: Encoder)
    requires t.Valid() && before.Valid() && after.Valid()
  {
    && |w| <= k
    && Sent(before.Line(t), k) == w + Sent(after.Line(t), k - |w|)
    && Rest(before.Line(t), k) == Rest(after.Line(t), k - |w|)
  }

  /** Timed tasks stay at the front of the queue. */
  lemma MovedTimed(t: Timing, a: Encoder, w: seq<Sample>, b: Encoder, k: nat, exit: bool)
    requires t.Valid() && a.Valid() && b.Valid() && Moved(t, a, w, b, k, exit)
    ensures a.TimedReady() ==> b.TimedReady()
    ensures b.queue == a.queue || (a.queue != [] && b.queue == a.queue[1..])
    ensures w == [] && !exit ==>
      || |b.queue| < |a.queue|
      || (b.queue == a.queue && b.state == GetTask && (a.state == OnTimed || a.state == SendSamples))
    ensures exit ==> b.state == GetTask && b.queue == []
  {
    hide TaskWave;
  }

  /** A turn leaves the places where timed carriers start in the call as they are. */
  lemma MovedAligned(t: Timing, a: Encoder, w: seq<Sample>, b: Encoder, nn: nat, n: nat, exit: bool)
    requires t.Valid() && a.Valid() && b.Valid() && nn < n && nn + |w| <= n && Moved(t, a, w, b, n - nn, exit)
    ensures !(a.OnAir() && nn > 0) ==> (a.Aligned(t, nn, n) <==> b.Aligned(t, nn + |w|, n))
  {
    hide TaskWave, Encoder.OnAir, Encoder.Current, Encoder.StartOf;
    if w != [] && b.queue == a.queue && a.Current() == w + b.Current() {
      forall i | 0 <= i < |a.queue| ensures nn + |w| + b.StartOf(t, i) == nn + a.StartOf(t, i) {
        StartLater(t, a, w, b, i);
      }
    } else if w == [] && a.queue != [] && b.queue == a.queue[1..] && a.Current() == [] {
      AlignedPop(t, a, b, nn, n);
    } else if b.queue == a.queue {
      NotOnAir(b);
      forall i | 0 <= i < |a.queue| ensures b.StartOf(t, i) == a.StartOf(t, i) || w != [] {
        if w == [] { StartLater(t, a, w, b, i); }
      }
    }
  }

  lemma NotOnAir(e: Encoder)
    ensures e.state == GetTask ==> !e.OnAir()
  {}

  lemma StartLater(t: Timing, a: Encoder, w: seq<Sample>, b: Encoder, i: nat)
    requires t.Valid() && a.Valid() && b.Valid() && b.queue == a.queue && i < |a.queue| && |a.Current()| == |w| + |b.Current()|
    ensures a.StartOf(t, i) == |w| + b.StartOf(t, i)
  {}

  lemma AlignedPop(t: Timing, a: Encoder, b: Encoder, nn: nat, n: nat)
    requires t.Valid() && a.Valid() && b.Valid() && nn < n && a.queue != [] && b.queue == a.queue[1..]
    requires a.Current() == [] && b.Current() == TaskWave(t, a.queue[0]) && !a.OnAir()
    requires b.OnAir() <==> a.queue[0].TurnOnTimed? && a.queue[0].len > 0
    ensures a.Aligned(t, nn, n) <==> b.Aligned(t, nn, n)
  {
    hide TaskWave, Encoder.OnAir, Encoder.Current;
    assert a.StartOf(t, 0) == 0;
    forall i | 0 <= i < |b.queue| ensures b.StartOf(t, i) == a.StartOf(t, i + 1) {
      assert a.queue[..i + 1][1..] == b.queue[..i];
    }
    assert forall i :: 0 < i < |a.queue| ==> a.queue[i] == b.queue[i - 1];
  }

  lemma NotAligned(t: Timing, e: Encoder, nn: nat, n: nat)
    requires t.Valid() && e.Valid() && 0 < nn < n && e.OnAir()
    ensures !e.Aligned(t, nn, n)
  {}

  lemma EndAligned(t: Timing, e: Encoder, nn: nat, n: nat)
    requires t.Valid() && e.Valid() && (nn == n || (e.state == GetTask && e.queue == []))
    ensures e.Aligned(t, nn, n)
  {}

  /** A carrier queued behind a frame is misplaced in any call that reaches it. */
  lemma CarrierBehindFrame(t: Timing, n: nat, len: int)
    requires t.Valid() && 0 < len && |FrameSyncWave(t)| < n
    ensures 0 < |FrameSyncWave(t)| ==> !Encoder(OffIdle, 0, [], [FrameSynch, TurnOnTimed(len)]).Aligned(t, 0, n)
  {
    var e := Encoder(OffIdle, 0, [], [FrameSynch, TurnOnTimed(len)]);
    assert e.queue[..1] == [FrameSynch];
    assert e.StartOf(t, 1) == |FrameSyncWave(t)| + Duration(t, [FrameSynch][1..]);
    if 0 < |FrameSyncWave(t)| { assert !AtStart(0 + e.StartOf(t, 1), n); }
  }

  lemma ProducedStart(t: Timing, e: Encoder, k: nat)
    requires t.Valid() && e.Valid()
    ensures Produced(t, e, [], k, e)
  {}

  lemma ProducedTwice(t: Timing, a: Encoder, v: seq<Sample>, k: nat, b: Encoder, w: seq<Sample>, c: Encoder)
    requires t.Valid() && a.Valid() && b.Valid() && c.Valid()
    requires Produced(t, a, v, k, b) && Produced(t, b, w, k - |v|, c)
    ensures Produced(t, a, v + w, k, c)
  {
    hide Sent, Rest, Encoder.Line;
    assert v + (w + Sent(c.Line(t), k - |v| - |w|)) == (v + w) + Sent(c.Line(t), k - |v| - |w|);
  }

  lemma ProducedAll(t: Timing, a: Encoder, out: seq<Sample>, n: nat, e: Encoder)
    requires t.Valid() && a.Valid() && e.Valid() && Produced(t, a, out, n, e)
    requires |out| == n || (e.state == GetTask && e.queue == [])
    ensures out == Sent(a.Line(t), n) && e.Line(t) == Rest(a.Line(t), n)
  {}

  /** A change of state that leaves the line alone. */
  lemma ProducedNothing(t: Timing, before: Encoder, k: nat, after: Encoder)
    requires t.Valid() && before.Valid() && after.Valid()
    requires after.queue == before.queue && after.Current() == before.Current() && after.Idle() == before.Idle()
    ensures Produced(t, before, [], k, after)
  {
    hide Sent, Rest;
  }

  /** Taking a task out of the queue does not change the line. */
  lemma Popped(t: Timing, before: Encoder, k: nat, after: Encoder)
    requires t.Valid() && before.Valid() && after.Valid() && before.Current() == []
    requires before.queue != [] && after.queue == before.queue[1..]
    requires after.Current() == TaskWave(t, before.queue[0]) && after.Idle() == IdleAfter(before.queue[0])
    ensures Produced(t, before, [], k, after)
  {
    hide TaskWave, IdleAfter, Sent, Rest;
    assert [] + TaskWave(t, before.queue[0]) == TaskWave(t, before.queue[0]);
  }

  lemma LevelSplit(m: nat, c: nat)
    requires m <= c
    ensures Level(On, c) == Level(On, m) + Level(On, c - m)
    ensures m == c ==> Level(On, c) == Level(On, m) + []
  {}

  /** Producing the front of the task in progress. */
  lemma Emitted(t: Timing, before: Encoder, w: seq<Sample>, k: nat, after: Encoder)
    requires t.Valid() && before.Valid() && after.Valid() && after.queue == before.queue && |w| <= k
    requires before.Current() == w + after.Current() && before.Idle() == after.Idle()
    ensures Produced(t, before, w, k, after)
  {
    hide Behind, Sent, Rest, TaskWave;
    BehindSplit(t, w, SampleLine(after.Current(), after.Idle()), after.queue);
    SentFront(w, after.Line(t), k);
  }

  lemma SentFront(w: seq<Sample>, rest: SampleLine, k: nat)
    requires |w| <= k
    ensures var full := SampleLine(w + rest.pending, rest.idle);
      Sent(full, k) == w + Sent(rest, k - |w|) && Rest(full, k) == Rest(rest, k - |w|)
  {
    hide IdleRun;
    var full := SampleLine(w + rest.pending, rest.idle);
    if k <= |full.pending| {
      assert full.pending[..k] == w + rest.pending[..k - |w|];
      assert full.pending[k..] == rest.pending[k - |w|..];
    } else {
      var idle := IdleRun(rest.idle, k - |full.pending|);
      assert (w + rest.pending) + idle == w + (rest.pending + idle);
    }
  }

  /** Idling to the end of the buffer. */
  lemma IdleEmitted(t: Timing, e: Encoder, k: nat, level: Sample)
    requires t.Valid() && e.Valid() && e.queue == [] && e.Current() == [] && e.Idle() == Some(level)
    ensures Produced(t, e, Level(level, k), k, e)
  {
    assert [] + Level(level, k) == Level(level, k);
    assert Level(level, k) + [] == Level(level, k);
  }

  lemma FrameParts(t: Timing)
    requires t.Valid()
    ensures FrameSyncWave(t) == Level(Off, t.delimiter) + Interval(t.tari, t.pw) + Interval(t.data1 + t.tari, t.pw)
    ensures |FrameSyncWave(t)| == t.delimiter + t.tari + t.data1 + t.tari
    ensures PreambleWave(t) == FrameSyncWave(t) + Interval(t.trcal, t.pw)
  {}

  lemma {:induction false} BitsWaveConcat(t: Timing, a: seq<bit>, b: seq<bit>)
    requires t.Valid()
    ensures BitsWave(t, a + b) == BitsWave(t, a) + BitsWave(t, b)
    decreases |a|
  {
    if a == [] {
      assert a + b == b;
    } else {
      assert (a + b)[1..] == a[1..] + b;
      BitsWaveConcat(t, a[1..], b);
    }
  }

  lemma BitsWaveAppend(t: Timing, b: seq<bit>, i: nat)
    requires t.Valid() && i < |b|
    ensures BitsWave(t, b[..i + 1]) == BitsWave(t, b[..i]) + SymbolWave(t, b[i])
  {
    assert b[..i + 1] == b[..i] + [b[i]];
    BitsWaveConcat(t, b[..i], [b[i]]);
    assert BitsWave(t, [b[i]]) == SymbolWave(t, b[i]) + BitsWave(t, []);
  }
}
