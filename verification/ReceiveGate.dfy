/**
 The receive gate.  It waits until the transmitter has been on and off, then executes queued
 commands on the incoming samples: discard some, let some through.  One sample at a time
 (`Feed`) it is a small machine; the block, which works on whatever buffers it is given, does
 the same whatever their sizes.
 */
module ReceiveGate {
  import opened Tasks

  datatype State = Bootup | TxOff | TxOnMute | TxOffMute | Unmute | Command | Wait

  /** How the magnitude of a sample compares with the threshold. */
  datatype Loudness = Above | Below | Equal

  datatype RxSample = RxSample(re: real, im: real, loudness: Loudness)

  /**
   The gate as a value: its variables, its queue, how many samples were read and written, the
   absolute positions of the tags; and as history the commands executed and how many samples had
   been read at each of them, and at each opening.
   */
  datatype GateModel = GateModel(state: State, counter: int, queue: seq<RxTask>, read: nat, written: nat, tags: seq<nat>,
                                 executed: seq<RxTask>, starts: seq<nat>, opens: seq<nat>)

  function Execute(g: GateModel): GateModel
    requires g.queue != []
  {
    var h := g.(queue := g.queue[1..], executed := g.executed + [g.queue[0]], starts := g.starts + [g.read]);
    match g.queue[0]
    case Gate(len) => h.(counter := len, state := Wait)
    case Ungate(len) => h.(counter := len, state := Unmute, tags := g.tags + [g.written], opens := g.opens + [g.read])
    case Done => h.(state := TxOff)
  }

  /** Orders the states so that every transition that reads nothing goes down. */
  function Rank(state: State, x: Loudness): nat {
    match state
    case Bootup => 4
    case TxOnMute => if x == Below then 3 else 0
    case TxOffMute => 2
    case TxOff => 1
    case Unmute => 1
    case Wait => 1
    case Command => 0
  }

  /** No transition is left before the sample is read. */
  predicate Settled(g: GateModel, x: Loudness, offMax: int) {
    match g.state
    case Bootup => g.counter != 0
    case TxOff => x != Above
    case TxOnMute => x != Below
    case TxOffMute => g.counter <= offMax && x != Above
    case Command => g.queue == []
    case Wait => g.counter > 0
    case Unmute => g.counter > 0
  }

  /** The next transition that the sample `x` causes before it is read. */
  function Move(g: GateModel, x: Loudness, offMax: int): (h: GateModel)
    requires !Settled(g, x, offMax)
    ensures h.read == g.read && h.written == g.written
    ensures |h.queue| < |g.queue| || (h.queue == g.queue && Rank(h.state, x) < Rank(g.state, x))
  {
    match g.state
    case Bootup => g.(state := TxOff)
    case TxOff => g.(state := TxOnMute)
    case TxOnMute => g.(counter := 0, state := TxOffMute)
    case TxOffMute => g.(state := if g.counter > offMax then TxOff else Command)
    case Command => Execute(g)
    case Wait => g.(state := Command)
    case Unmute => g.(state := Command)
  }

  /** All transitions that the sample `x` causes before it is read. */
  function Settle(g: GateModel, x: Loudness, offMax: int): (s: GateModel)
    ensures Settled(s, x, offMax)
    ensures s.read == g.read && s.written == g.written
    decreases |g.queue|, Rank(g.state, x)
  {
    if Settled(g, x, offMax) then g else Settle(Move(g, x, offMax), x, offMax)
  }

  /** The gate wants a command and there is none. */
  predicate Blocked(g: GateModel) {
    g.state == Command && g.queue == []
  }

  /** Reading one sample in a settled state. */
  function Consume(g: GateModel): GateModel
    requires !Blocked(g)
  {
    var h := g.(read := g.read + 1);
    match g.state
    case Bootup => h.(counter := g.counter - 1)
    case TxOffMute => h.(counter := g.counter + 1)
    case Wait => h.(counter := g.counter - 1)
    case Unmute => h.(counter := g.counter - 1, written := g.written + 1)
    case _ => h
  }

  datatype Fed = Fed(gate: GateModel, out: seq<RxSample>, consumed: nat)

  /** Offer samples to the gate one by one until it blocks. */
  function Feed(g: GateModel, xs: seq<RxSample>, offMax: int): (f: Fed)
    ensures f.consumed <= |xs|
    ensures f.consumed < |xs| ==> Blocked(f.gate)
    decreases |xs|
  {
    if xs == [] then Fed(g, [], 0)
    else
      var s := Settle(g, xs[0].loudness, offMax);
      if Blocked(s) then Fed(s, [], 0)
      else
        var rest := Feed(Consume(s), xs[1..], offMax);
        Fed(rest.gate, (if s.state == Unmute then [xs[0]] else []) + rest.out, 1 + rest.consumed)
  }

  // ---------------------------------------------------------------- splitting the input

  lemma SettleTwice(g: GateModel, x: Loudness, offMax: int)
    requires Settled(g, x, offMax)
    ensures Settle(g, x, offMax) == g
  {}

  lemma FeedSettled(g: GateModel, xs: seq<RxSample>, offMax: int)
    requires xs != []
    ensures Feed(Settle(g, xs[0].loudness, offMax), xs, offMax) == Feed(g, xs, offMax)
  {
    SettleTwice(Settle(g, xs[0].loudness, offMax), xs[0].loudness, offMax);
  }

  lemma OutputAssociates(a: seq<RxSample>, b: seq<RxSample>, c: seq<RxSample>)
    ensures (a + b) + c == a + (b + c)
  {}

  /** Samples offered in two lots. */
  lemma {:induction false} FeedAppend(g: GateModel, a: seq<RxSample>, b: seq<RxSample>, offMax: int)
    requires Feed(g, a, offMax).consumed == |a|
    ensures var (f, r) := (Feed(g, a, offMax), Feed(Feed(g, a, offMax).gate, b, offMax));
      Feed(g, a + b, offMax) == Fed(r.gate, f.out + r.out, |a| + r.consumed)
    decreases |a|
  {
    hide Settle, Consume, Blocked, Settled;
    var (f, r) := (Feed(g, a, offMax), Feed(Feed(g, a, offMax).gate, b, offMax));
    if a == [] {
      assert a + b == b;
      assert f.out + r.out == r.out;
    } else {
      var s := Settle(g, a[0].loudness, offMax);
      FeedAppend(Consume(s), a[1..], b, offMax);
      assert (a + b)[1..] == a[1..] + b;
      var head := if s.state == Unmute then [a[0]] else [];
      OutputAssociates(head, Feed(Consume(s), a[1..], offMax).out, r.out);
    }
  }

  /** While the gate is counting, samples are skipped or let through without looking at them. */
  lemma {:induction false} FeedCounting(g: GateModel, xs: seq<RxSample>, offMax: int)
    requires g.state == Wait || g.state == Unmute
    requires |xs| <= g.counter
    ensures var n := |xs|;
      Feed(g, xs, offMax) ==
        if g.state == Wait then Fed(g.(counter := g.counter - n, read := g.read + n), [], n)
        else Fed(g.(counter := g.counter - n, read := g.read + n, written := g.written + n), xs, n)
    decreases |xs|
  {
    if xs != [] {
      FeedCounting(Consume(g), xs[1..], offMax);
      assert [xs[0]] + xs[1..] == xs;
    }
  }

  // ---------------------------------------------------------------- what the gate lets through

  /** Number of samples that the commands let through altogether. */
  function Opened(tasks: seq<RxTask>): nat {
    if tasks == [] then 0
    else
      var last := tasks[|tasks| - 1];
      Opened(tasks[..|tasks| - 1]) + if last.Ungate? && last.len > 0 then last.len else 0
  }

  /** For every opening, the number of samples that earlier openings let through. */
  function Tags(tasks: seq<RxTask>): seq<nat> {
    if tasks == [] then []
    else
      var (before, last) := (tasks[..|tasks| - 1], tasks[|tasks| - 1]);
      if last.Ungate? then Tags(before) + [Opened(before)] else Tags(before)
  }

  /** How many samples a command takes before the next one is executed; `Done` waits for the transmitter instead. */
  function Length(task: RxTask): nat {
    match task
    case Gate(len) => if len > 0 then len else 0
    case Ungate(len) => if len > 0 then len else 0
    case Done => 0
  }

  /** Where the openings among the commands started. */
  function Opens(tasks: seq<RxTask>, starts: seq<nat>): seq<nat>
    requires |tasks| == |starts|
  {
    if tasks == [] then []
    else
      var n := |tasks| - 1;
      Opens(tasks[..n], starts[..n]) + if tasks[n].Ungate? then [starts[n]] else []
  }

  function Remaining(g: GateModel): nat {
    if (g.state == Wait || g.state == Unmute) && g.counter > 0 then g.counter else 0
  }

  /**
   Every command that counts samples is followed by the next one after exactly its number of samples, and
   what is left of the last one is in the counter.
   */
  ghost predicate OnTime(g: GateModel) {
    && |g.starts| == |g.executed|
    && (forall k :: 0 <= k < |g.executed| - 1 && g.executed[k] != Done ==>
          g.starts[k + 1] == g.starts[k] + Length(g.executed[k]))
    && g.opens == Opens(g.executed, g.starts)
    && (g.state == Wait || g.state == Unmute ==>
          g.executed != [] && g.executed[|g.executed| - 1] != Done)
    && (g.executed != [] && g.executed[|g.executed| - 1] != Done ==>
          && (g.state == Command || g.state == Wait || g.state == Unmute)
          && g.starts[|g.starts| - 1] + Length(g.executed[|g.executed| - 1]) == g.read + Remaining(g))
  }

  lemma OpensExecute(g: GateModel)
    requires g.queue != [] && |g.starts| == |g.executed|
    ensures Opens(Execute(g).executed, Execute(g).starts)
         == Opens(g.executed, g.starts) + if g.queue[0].Ungate? then [g.read] else []
  {
    var (h, n) := (Execute(g), |g.executed|);
    assert h.executed[..n] == g.executed && h.starts[..n] == g.starts;
  }

  lemma OnTimeExecute(g: GateModel)
    requires OnTime(g) && g.queue != [] && g.state == Command
    ensures OnTime(Execute(g))
  {
    hide Opens;
    var h := Execute(g);
    var n := |g.executed|;
    OpensExecute(g);
    forall k | 0 <= k < n && h.executed[k] != Done ensures h.starts[k + 1] == h.starts[k] + Length(h.executed[k]) {
      assert h.executed[k] == g.executed[k] && h.starts[k] == g.starts[k];
      if k + 1 < n { assert h.starts[k + 1] == g.starts[k + 1]; }
    }
  }

  lemma OnTimeMove(g: GateModel, x: Loudness, offMax: int)
    requires OnTime(g) && !Settled(g, x, offMax)
    ensures OnTime(Move(g, x, offMax))
  {
    hide Opens, Execute, Length;
    if g.state == Command { OnTimeExecute(g); }
  }

  lemma OnTimeConsume(g: GateModel, x: Loudness, offMax: int)
    requires OnTime(g) && Settled(g, x, offMax) && !Blocked(g)
    ensures OnTime(Consume(g))
  {
    hide Opens, Length;
  }

  function Due(g: GateModel): nat {
    if g.state == Unmute && g.counter > 0 then g.counter else 0
  }

  /** The `i`-th run of consecutive samples in the output ends where the next begins. */
  function RunEnd(g: GateModel, i: nat): nat
    requires i < |g.tags|
  {
    if i + 1 < |g.tags| then g.tags[i + 1] else g.written
  }

  /** `n` samples of the output from `at` are `n` consecutive samples of the input from `from`. */
  ghost predicate Copied(ys: seq<RxSample>, from: nat, out: seq<RxSample>, at: nat, n: nat) {
    from + n <= |ys| && at + n <= |out| && out[at..at + n] == ys[from..from + n]
  }

  lemma CopiedMore(ys: seq<RxSample>, from: nat, out: seq<RxSample>, at: nat, n: nat, x: RxSample, w: seq<RxSample>)
    requires Copied(ys, from, out, at, n)
    ensures Copied(ys + [x], from, out + w, at, n)
    ensures w == [x] && from + n == |ys| && at + n == |out| ==> Copied(ys + [x], from, out + w, at, n + 1)
  {
    assert (out + w)[at..at + n] == out[at..at + n];
    assert (ys + [x])[from..from + n] == ys[from..from + n];
    if w == [x] && from + n == |ys| && at + n == |out| {
      assert (out + w)[at..at + n + 1] == out[at..at + n] + [x];
      assert (ys + [x])[from..from + n + 1] == ys[from..from + n] + [x];
    }
  }

  /** The `i`-th opening let through consecutive samples. */
  ghost predicate RunFaithful(g: GateModel, ys: seq<RxSample>, out: seq<RxSample>, i: nat)
    requires i < |g.tags| == |g.opens|
  {
    g.tags[i] <= RunEnd(g, i) && Copied(ys, g.opens[i], out, g.tags[i], RunEnd(g, i) - g.tags[i])
  }

  /**
   The gate `g` after reading `ys` and writing `out` since it was created: commands start on time, the tags
   stand where the executed commands put them, and the `i`-th opening let through the samples that followed its
   execution, without a gap.
   */
  ghost predicate Faithful(g: GateModel, ys: seq<RxSample>, out: seq<RxSample>) {
    && |ys| == g.read && |out| == g.written
    && OnTime(g)
    && g.tags == Tags(g.executed) && |g.opens| == |g.tags|
    && g.written + Due(g) == Opened(g.executed)
    && (g.state == Unmute ==> g.tags != [])
    && (g.tags == [] ==> out == [])
    && (g.tags != [] ==> g.tags[0] == 0)
    && (Due(g) > 0 ==> g.opens[|g.opens| - 1] + (g.written - g.tags[|g.tags| - 1]) == g.read)
    && forall i :: 0 <= i < |g.tags| ==> RunFaithful(g, ys, out, i)
  }

  lemma FaithfulExecute(g: GateModel, ys: seq<RxSample>, out: seq<RxSample>)
    requires Faithful(g, ys, out) && g.queue != [] && g.state == Command
    ensures Faithful(Execute(g), ys, out)
  {
    hide OnTime, RunFaithful;
    OnTimeExecute(g);
    OpenedExecute(g);
    forall i | 0 <= i < |Execute(g).tags| ensures RunFaithful(Execute(g), ys, out, i) {
      RunsExecute(g, ys, out, i);
    }
  }

  lemma OpenedExecute(g: GateModel)
    requires g.queue != []
    ensures Tags(Execute(g).executed) == Tags(g.executed) + if g.queue[0].Ungate? then [Opened(g.executed)] else []
    ensures Opened(Execute(g).executed) == Opened(g.executed) + if g.queue[0].Ungate? && g.queue[0].len > 0 then g.queue[0].len else 0
  {
    var h := Execute(g);
    assert h.executed[..|h.executed| - 1] == g.executed;
  }

  lemma RunsExecute(g: GateModel, ys: seq<RxSample>, out: seq<RxSample>, i: nat)
    requires Faithful(g, ys, out) && g.queue != [] && g.state == Command
    requires i < |Execute(g).tags| && |Execute(g).opens| == |Execute(g).tags|
    ensures RunFaithful(Execute(g), ys, out, i)
  {
    hide Copied, OnTime, Tags, Opened;
    var h := Execute(g);
    if i < |g.tags| {
      assert RunFaithful(g, ys, out, i);
      assert RunEnd(h, i) == RunEnd(g, i);
    } else {
      NothingCopied(ys, g.read, out, g.written);
    }
  }

  lemma NothingCopied(ys: seq<RxSample>, from: nat, out: seq<RxSample>, at: nat)
    requires from <= |ys| && at <= |out|
    ensures Copied(ys, from, out, at, 0)
  {}

  lemma FaithfulMove(g: GateModel, x: Loudness, offMax: int, ys: seq<RxSample>, out: seq<RxSample>)
    requires Faithful(g, ys, out) && !Settled(g, x, offMax)
    ensures Faithful(Move(g, x, offMax), ys, out)
  {
    hide Copied, Tags, Opened, Execute, OnTime;
    OnTimeMove(g, x, offMax);
    if g.state == Command {
      FaithfulExecute(g, ys, out);
    } else {
      var h := Move(g, x, offMax);
      forall i | 0 <= i < |h.tags| ensures RunFaithful(h, ys, out, i) {
        assert RunFaithful(g, ys, out, i) && RunEnd(h, i) == RunEnd(g, i);
      }
    }
  }

  lemma {:induction false} FaithfulSettle(g: GateModel, x: Loudness, offMax: int, ys: seq<RxSample>, out: seq<RxSample>)
    requires Faithful(g, ys, out)
    ensures Faithful(Settle(g, x, offMax), ys, out)
    decreases |g.queue|, Rank(g.state, x)
  {
    hide Faithful, Settled, Move, Rank;
    if !Settled(g, x, offMax) {
      FaithfulMove(g, x, offMax, ys, out);
      FaithfulSettle(Move(g, x, offMax), x, offMax, ys, out);
    }
  }

  lemma FaithfulConsume(g: GateModel, x: RxSample, offMax: int, ys: seq<RxSample>, out: seq<RxSample>)
    requires Faithful(g, ys, out) && Settled(g, x.loudness, offMax) && !Blocked(g)
    ensures Faithful(Consume(g), ys + [x], out + if g.state == Unmute then [x] else [])
  {
    hide Copied, Tags, Opened, OnTime;
    OnTimeConsume(g, x.loudness, offMax);
    var h := Consume(g);
    var w := if g.state == Unmute then [x] else [];
    forall i | 0 <= i < |h.tags| ensures RunFaithful(h, ys + [x], out + w, i) {
      assert RunFaithful(g, ys, out, i);
      CopiedMore(ys, g.opens[i], out, g.tags[i], RunEnd(g, i) - g.tags[i], x, w);
      if g.state == Unmute && i + 1 == |g.tags| {
        assert RunEnd(h, i) == RunEnd(g, i) + 1;
      } else {
        assert RunEnd(h, i) == RunEnd(g, i);
      }
    }
  }

  /** Whatever is offered to a gate, it stays faithful. */
  lemma {:induction false} FaithfulFeed(g: GateModel, xs: seq<RxSample>, offMax: int, ys: seq<RxSample>, out: seq<RxSample>)
    requires Faithful(g, ys, out)
    ensures var f := Feed(g, xs, offMax); Faithful(f.gate, ys + xs[..f.consumed], out + f.out)
    decreases |xs|
  {
    hide Faithful, Settle;
    var f := Feed(g, xs, offMax);
    if xs == [] {
      assert ys + xs[..0] == ys && out + [] == out;
    } else {
      var s := Settle(g, xs[0].loudness, offMax);
      FaithfulSettle(g, xs[0].loudness, offMax, ys, out);
      if Blocked(s) {
        assert ys + xs[..0] == ys && out + [] == out;
      } else {
        FaithfulConsume(s, xs[0], offMax, ys, out);
        var head := if s.state == Unmute then [xs[0]] else [];
        FaithfulFeed(Consume(s), xs[1..], offMax, ys + [xs[0]], out + head);
        var rest := Feed(Consume(s), xs[1..], offMax);
        assert (ys + [xs[0]]) + xs[1..][..rest.consumed] == ys + xs[..f.consumed];
        assert (out + head) + rest.out == out + f.out;
      }
    }
  }

  /** The gate as constructed, with its commands queued in advance. */
  function NewGate(commands: seq<RxTask>): GateModel {
    GateModel(Bootup, 10000, commands, 0, 0, [], [], [], [])
  }

  lemma NewGateFaithful(commands: seq<RxTask>)
    ensures Faithful(NewGate(commands), [], [])
  {}

  lemma {:induction false} SettleKeepsCommands(g: GateModel, x: Loudness, offMax: int)
    ensures var s := Settle(g, x, offMax); s.executed + s.queue == g.executed + g.queue
    decreases |g.queue|, Rank(g.state, x)
  {
    if !Settled(g, x, offMax) {
      if g.state == Command {
        assert (g.executed + [g.queue[0]]) + g.queue[1..] == g.executed + g.queue;
      }
      SettleKeepsCommands(Move(g, x, offMax), x, offMax);
    }
  }

  lemma {:induction false} SettleGrowsTags(g: GateModel, x: Loudness, offMax: int)
    ensures g.tags <= Settle(g, x, offMax).tags
    decreases |g.queue|, Rank(g.state, x)
  {
    if !Settled(g, x, offMax) {
      SettleGrowsTags(Move(g, x, offMax), x, offMax);
    }
  }

  lemma {:induction false} FeedGrowsTags(g: GateModel, xs: seq<RxSample>, offMax: int)
    ensures g.tags <= Feed(g, xs, offMax).gate.tags
    decreases |xs|
  {
    hide Settle;
    if xs != [] {
      SettleGrowsTags(g, xs[0].loudness, offMax);
      var s := Settle(g, xs[0].loudness, offMax);
      if !Blocked(s) { FeedGrowsTags(Consume(s), xs[1..], offMax); }
    }
  }

  /** What one call did to the account of commands and samples, from any faithful gate. */
  lemma FaithfulWork(offMax: int, g: GateModel, c: Call, ys: seq<RxSample>, out: seq<RxSample>)
    requires Faithful(g, ys, out) && WorkDone(offMax, g, c.input, c.noutput, c.after, c.out, c.consumed)
    ensures Faithful(c.after, ys + c.input[..c.consumed], out + c.out)
    ensures c.after.executed + c.after.queue == g.executed + g.queue
    ensures g.tags <= c.after.tags
  {
    hide Feed, Settle, Faithful;
    var xs := c.input[..c.consumed];
    FeedGrowsTags(g, xs, offMax);
    FaithfulFeed(g, xs, offMax, ys, out);
    FeedKeepsCommands(g, xs, offMax);
    assert xs[..c.consumed] == xs;
    var f := Feed(g, xs, offMax);
    if c.after != f.gate {
      FaithfulSettle(f.gate, c.input[c.consumed].loudness, offMax, ys + xs, out + c.out);
      SettleKeepsCommands(f.gate, c.input[c.consumed].loudness, offMax);
      SettleGrowsTags(f.gate, c.input[c.consumed].loudness, offMax);
    }
  }

  lemma {:induction false} FeedKeepsCommands(g: GateModel, xs: seq<RxSample>, offMax: int)
    ensures var h := Feed(g, xs, offMax).gate; h.executed + h.queue == g.executed + g.queue
    decreases |xs|
  {
    hide Settle;
    if xs != [] {
      SettleKeepsCommands(g, xs[0].loudness, offMax);
      var s := Settle(g, xs[0].loudness, offMax);
      if !Blocked(s) { FeedKeepsCommands(Consume(s), xs[1..], offMax); }
    }
  }

  // ---------------------------------------------------------------- the block

  /** What one call of the block does to the gate. */
  ghost predicate WorkDone(offMax: int, before: GateModel, input: seq<RxSample>, noutput: nat,
                           after: GateModel, out: seq<RxSample>, consumed: nat)
  {
    && consumed <= |input| && |out| <= noutput
    && var f := Feed(before, input[..consumed], offMax);
      && f.consumed == consumed && out == f.out
      && (|| (after == f.gate && (consumed == |input| || |out| == noutput))
          || (consumed < |input| && Blocked(after) && after == Settle(f.gate, input[consumed].loudness, offMax)))
  }

  /** What has been read so far accounts for what was written and, up to pending transitions, for the state. */
  ghost predicate Progress(offMax: int, start: GateModel, input: seq<RxSample>, ii: nat, now: GateModel, out: seq<RxSample>) {
    && ii <= |input|
    && var f := Feed(start, input[..ii], offMax);
      && f.consumed == ii && out == f.out
      && (now == f.gate ||
          (ii < |input| && Settle(now, input[ii].loudness, offMax) == Settle(f.gate, input[ii].loudness, offMax)))
  }

  lemma ProgressStart(offMax: int, start: GateModel, input: seq<RxSample>)
    ensures Progress(offMax, start, input, 0, start, [])
    ensures start == Feed(start, input[..0], offMax).gate
  {
    assert input[..0] == [];
  }

  /** A transition that reads nothing. */
  lemma ProgressMove(offMax: int, start: GateModel, input: seq<RxSample>, ii: nat, now: GateModel, next: GateModel, out: seq<RxSample>)
    requires Progress(offMax, start, input, ii, now, out) && ii < |input|
    requires Settle(next, input[ii].loudness, offMax) == Settle(now, input[ii].loudness, offMax)
    ensures Progress(offMax, start, input, ii, next, out)
  {
    hide Settle, Feed;
  }

  /** Reading the next `m` samples. */
  lemma ProgressRead(offMax: int, start: GateModel, input: seq<RxSample>, ii: nat, now: GateModel, out: seq<RxSample>,
                     m: nat, next: GateModel, w: seq<RxSample>)
    requires Progress(offMax, start, input, ii, now, out) && 0 < m && ii + m <= |input|
    requires Feed(now, input[ii..ii + m], offMax) == Fed(next, w, m)
    ensures Progress(offMax, start, input, ii + m, next, out + w)
    ensures next == Feed(start, input[..ii + m], offMax).gate
  {
    hide Settle, Feed;
    var f := Feed(start, input[..ii], offMax);
    var xs := input[ii..ii + m];
    FeedSettled(f.gate, xs, offMax);
    FeedSettled(now, xs, offMax);
    FeedAppend(start, input[..ii], xs, offMax);
    assert input[..ii] + xs == input[..ii + m];
  }

  lemma ProgressBlocked(offMax: int, start: GateModel, input: seq<RxSample>, ii: nat, now: GateModel, out: seq<RxSample>, noutput: nat)
    requires Progress(offMax, start, input, ii, now, out) && ii < |input| && Blocked(now) && |out| <= noutput
    ensures WorkDone(offMax, start, input, noutput, now, out, ii)
  {
    hide Feed;
    SettleTwice(now, input[ii].loudness, offMax);
  }

  lemma ProgressDone(offMax: int, start: GateModel, input: seq<RxSample>, ii: nat, now: GateModel, out: seq<RxSample>, noutput: nat)
    requires Progress(offMax, start, input, ii, now, out) && now == Feed(start, input[..ii], offMax).gate
    requires |out| <= noutput && (ii == |input| || |out| == noutput)
    ensures WorkDone(offMax, start, input, noutput, now, out, ii)
  {}

  /** Reading one sample in a state that lets nothing through. */
  lemma ReadOne(g: GateModel, x: RxSample, offMax: int)
    requires Settled(g, x.loudness, offMax) && !Blocked(g) && g.state != Unmute
    ensures Feed(g, [x], offMax) == Fed(Consume(g), [], 1)
  {
    SettleTwice(g, x.loudness, offMax);
    assert [x][1..] == [];
    assert Feed(Consume(g), [], offMax) == Fed(Consume(g), [], 0);
  }

  lemma MoveSettles(g: GateModel, h: GateModel, x: Loudness, offMax: int)
    requires !Settled(g, x, offMax) && h == Move(g, x, offMax)
    ensures Settle(h, x, offMax) == Settle(g, x, offMax)
  {}

  class GateBlock {
    const offMax: int
    const cmdQueue: MsgQueue<RxTask>
    var state: State
    var counter: int
    var nitemsRead: nat
    var nitemsWritten: nat
    var tags: seq<nat>
    ghost var executed: seq<RxTask>
    ghost var starts: seq<nat>
    ghost var opens: seq<nat>

    constructor (offMax: int, queue: MsgQueue<RxTask>)
      ensures this.offMax == offMax && cmdQueue == queue
      ensures Model(0, 0) == NewGate(queue.items)
    {
      this.offMax, cmdQueue := offMax, queue;
      state, counter := Bootup, 10000;
      nitemsRead, nitemsWritten, tags := 0, 0, [];
      executed, starts, opens := [], [], [];
    }

    /** The gate after `ii` and `oo` samples of the call in progress. */
    ghost function Model(ii: nat, oo: nat): GateModel
      reads this, cmdQueue
    {
      GateModel(state, counter, cmdQueue.items, nitemsRead + ii, nitemsWritten + oo, tags, executed, starts, opens)
    }

    method AddTag(offset: nat)
      modifies this`tags
      ensures tags == old(tags) + [nitemsWritten + offset]
    {
      tags := tags + [nitemsWritten + offset];
    }

    method DecodeTask(task: RxTask, ghost ii: nat, oo: nat)
      modifies this`state, this`counter, this`tags, this`opens
      ensures var g := GateModel(old(state), old(counter), [task] + cmdQueue.items, nitemsRead + ii, nitemsWritten + oo,
                                 old(tags), executed, starts, old(opens));
        Model(ii, oo) == Execute(g).(executed := executed, starts := starts)
    {
      assert ([task] + cmdQueue.items)[1..] == cmdQueue.items;
      match task
      case Gate(len) =>
        counter := len;
        state := Wait;
      case Ungate(len) =>
        AddTag(oo);
        opens := opens + [nitemsRead + ii];
        counter := len;
        state := Unmute;
      case Done =>
        state := TxOff;
    }

    /** Take the oldest command out of the queue and execute it. */
    method NextCommand(ghost ii: nat, oo: nat)
      requires cmdQueue.items != []
      modifies this`state, this`counter, this`tags, this`opens, this`executed, this`starts, cmdQueue
      ensures Model(ii, oo) == Execute(old(Model(ii, oo)))
    {
      var task := cmdQueue.DeleteHead();
      executed, starts := executed + [task], starts + [nitemsRead + ii];
      DecodeTask(task, ii, oo);
    }

    /** Reading one sample that is not let through. */
    method ReadMuted(input: seq<RxSample>, ii: nat, ghost oo: nat)
      requires ii < |input| && Settled(Model(ii, oo), input[ii].loudness, offMax)
      requires state == Bootup || state == TxOff || state == TxOnMute || state == TxOffMute
      modifies this`counter
      ensures Feed(old(Model(ii, oo)), input[ii..ii + 1], offMax) == Fed(Model(ii + 1, oo), [], 1)
    {
      hide Feed;
      ReadOne(Model(ii, oo), input[ii], offMax);
      assert input[ii..ii + 1] == [input[ii]];
      match state
      case Bootup => counter := counter - 1;
      case TxOffMute => counter := counter + 1;
      case _ =>
    }

    /** Skip as many samples as the counter and the input allow. */
    method SkipCounted(input: seq<RxSample>, ii: nat, ghost oo: nat) returns (m: nat)
      requires ii < |input| && state == Wait && counter > 0
      modifies this`counter
      ensures 0 < m && ii + m <= |input|
      ensures Feed(old(Model(ii, oo)), input[ii..ii + m], offMax) == Fed(Model(ii + m, oo), [], m)
    {
      hide Feed;
      m := if counter < |input| - ii then counter else |input| - ii;
      FeedCounting(Model(ii, oo), input[ii..ii + m], offMax);
      counter := counter - m;
    }

    /** Let as many samples through as the counter, the input and the output allow. */
    method CopyCounted(input: seq<RxSample>, ii: nat, noutput: nat, output: array<RxSample>, oo: nat)
      returns (m: nat, ghost w: seq<RxSample>)
      requires ii < |input| && oo < noutput <= output.Length && state == Unmute && counter > 0
      modifies this`counter, output
      ensures 0 < m == |w| && ii + m <= |input| && oo + m <= noutput
      ensures output[..oo + m] == old(output[..oo]) + w
      ensures Feed(old(Model(ii, oo)), input[ii..ii + m], offMax) == Fed(Model(ii + m, oo + m), w, m)
    {
      hide Feed;
      m := if noutput - oo < |input| - ii then noutput - oo else |input| - ii;
      m := if counter < m then counter else m;
      w := input[ii..ii + m];
      FeedCounting(Model(ii, oo), w, offMax);
      CopyOut(input[ii..ii + m], output, oo);
      counter := counter - m;
    }

    /** The body of the work loop: a transition that reads nothing, or the next samples; `blocked` leaves the loop. */
    method Turn(input: seq<RxSample>, ii: nat, noutput: nat, output: array<RxSample>, oo: nat)
      returns (m: nat, n: nat, ghost w: seq<RxSample>, blocked: bool)
      requires ii < |input| && oo < noutput <= output.Length
      modifies this`state, this`counter, this`tags, this`opens, this`executed, this`starts, cmdQueue, output
      ensures ii + m <= |input| && n == |w| && n <= m && oo + n <= noutput
      ensures output[..oo + n] == old(output[..oo]) + w
      ensures m > 0 ==> !blocked && Feed(old(Model(ii, oo)), input[ii..ii + m], offMax) == Fed(Model(ii + m, oo + n), w, m)
      ensures m == 0 ==> n == 0
      ensures m == 0 ==> Settle(Model(ii, oo), input[ii].loudness, offMax) == Settle(old(Model(ii, oo)), input[ii].loudness, offMax)
      ensures m == 0 && !blocked ==>
        || |cmdQueue.items| < |old(cmdQueue.items)|
        || (cmdQueue.items == old(cmdQueue.items) && Rank(state, input[ii].loudness) < old(Rank(state, input[ii].loudness)))
      ensures blocked ==> m == 0 && Blocked(Model(ii, oo))
    {
      hide Feed, Settle, Execute;
      ghost var before := Model(ii, oo);
      assert output[..oo] + [] == output[..oo];
      m, n, w, blocked := 0, 0, [], false;
      var x := input[ii].loudness;
      match state {
        case Bootup =>
          if counter == 0 {
            state := TxOff;
          } else {
            ReadMuted(input, ii, oo);
            m := 1;
          }
        case TxOff =>
          if x == Above {
            state := TxOnMute;
          } else {
            ReadMuted(input, ii, oo);
            m := 1;
          }
        case TxOnMute =>
          if x == Below {
            counter := 0;
            state := TxOffMute;
          } else {
            ReadMuted(input, ii, oo);
            m := 1;
          }
        case TxOffMute =>
          if counter > offMax {
            state := TxOff;
          } else if x == Above {
            state := Command;
          } else {
            ReadMuted(input, ii, oo);
            m := 1;
          }
        case Command =>
          if cmdQueue.items != [] {
            NextCommand(ii, oo);
          } else {
            blocked := true;
          }
        case Wait =>
          if counter > 0 {
            m := SkipCounted(input, ii, oo);
          } else {
            state := Command;
          }
        case Unmute =>
          if counter > 0 {
            m, w := CopyCounted(input, ii, noutput, output, oo);
            n := m;
          } else {
            state := Command;
          }
      }
      if m == 0 && !blocked {
        MoveSettles(before, Model(ii, oo), x, offMax);
      }
    }

    method CopyOut(wave: seq<RxSample>, a: array<RxSample>, at: nat)
      requires at + |wave| <= a.Length
      modifies a
      ensures a[..at + |wave|] == old(a[..at]) + wave
    {
      for i := 0 to |wave|
        invariant forall k :: 0 <= k < a.Length ==> a[k] == if at <= k < at + i then wave[k - at] else old(a[k])
      {
        a[at + i] := wave[i];
      }
    }

    /** Process the samples of `input` as far as commands and room in the output allow. */
    method GeneralWork(input: seq<RxSample>, noutput: nat, output: array<RxSample>) returns (ii: nat, oo: nat)
      requires noutput <= output.Length
      modifies this, cmdQueue, output
      ensures oo <= noutput
      ensures WorkDone(offMax, old(Model(0, 0)), input, noutput, Model(0, 0), output[..oo], ii)
    {
      hide Feed, Settle, Progress;
      ghost var start := Model(0, 0);
      ii, oo := 0, 0;
      ProgressStart(offMax, start, input);
      assert output[..0] == [];
      var blocked := false;
      ghost var settled := true;
      while ii < |input| && oo < noutput
        invariant ii <= |input| && oo <= noutput
        invariant Progress(offMax, start, input, ii, Model(ii, oo), output[..oo])
        invariant settled ==> Model(ii, oo) == Feed(start, input[..ii], offMax).gate
        invariant !settled ==> ii < |input| && oo < noutput
        invariant !blocked
        decreases |input| - ii, |cmdQueue.items|, if ii < |input| then Rank(state, input[ii].loudness) else 0
      {
        ghost var before := Model(ii, oo);
        ghost var done := output[..oo];
        ghost var w: seq<RxSample>;
        var m, n;
        m, n, w, blocked := Turn(input, ii, noutput, output, oo);
        assert n == 0 ==> done + w == done;
        if blocked {
          ProgressMove(offMax, start, input, ii, before, Model(ii, oo), done);
          ProgressBlocked(offMax, start, input, ii, Model(ii, oo), done, noutput);
          break;
        }
        if m > 0 {
          ProgressRead(offMax, start, input, ii, before, done, m, Model(ii + m, oo + n), w);
        } else {
          ProgressMove(offMax, start, input, ii, before, Model(ii, oo), done);
        }
        ii, oo := ii + m, oo + n;
        settled := m > 0;
      }
      ghost var final := Model(ii, oo);
      if !blocked {
        ProgressDone(offMax, start, input, ii, final, output[..oo], noutput);
      }
      nitemsRead, nitemsWritten := nitemsRead + ii, nitemsWritten + oo;
      assert Model(0, 0) == final;
    }
  }

  // ---------------------------------------------------------------- whole runs

  /** One call of the block: the samples it was offered, the room it was given, and what it did. */
  datatype Call = Call(input: seq<RxSample>, noutput: nat, after: GateModel, out: seq<RxSample>, consumed: nat)

  /** A sequence of calls on the stream `xs`; every call is offered some samples from where the last one stopped. */
  ghost predicate IsRun(offMax: int, g: GateModel, xs: seq<RxSample>, calls: seq<Call>)
    decreases |calls|
  {
    calls == [] ||
    (var c := calls[0];
     && c.input <= xs
     && WorkDone(offMax, g, c.input, c.noutput, c.after, c.out, c.consumed)
     && IsRun(offMax, c.after, xs[c.consumed..], calls[1..]))
  }

  function Consumed(calls: seq<Call>): nat {
    if calls == [] then 0 else calls[0].consumed + Consumed(calls[1..])
  }

  function Output(calls: seq<Call>): seq<RxSample> {
    if calls == [] then [] else calls[0].out + Output(calls[1..])
  }

  function Final(g: GateModel, calls: seq<Call>): GateModel {
    if calls == [] then g else calls[|calls| - 1].after
  }

  /** The state after a run is what the samples read so far lead to, or the transitions that the next one causes as well. */
  ghost predicate Reached(offMax: int, f: GateModel, xs: seq<RxSample>, k: nat, final: GateModel) {
    final == f || (k < |xs| && Blocked(final) && final == Settle(f, xs[k].loudness, offMax))
  }

  /** A run does what feeding the samples one by one does. */
  lemma {:induction false} RunTheorem(offMax: int, g: GateModel, xs: seq<RxSample>, calls: seq<Call>)
    requires IsRun(offMax, g, xs, calls)
    ensures Consumed(calls) <= |xs|
    ensures var f := Feed(g, xs[..Consumed(calls)], offMax);
      && f.consumed == Consumed(calls) && Output(calls) == f.out
      && Reached(offMax, f.gate, xs, Consumed(calls), Final(g, calls))
    decreases |calls|
  {
    hide Feed, Settle, Reached, Blocked;
    if calls == [] {
      FeedNothing(g, offMax);
      assert xs[..0] == [];
      assert Reached(offMax, g, xs, 0, g) by { ReachedItself(offMax, g, xs, 0); }
    } else {
      var c := calls[0];
      RunTheorem(offMax, c.after, xs[c.consumed..], calls[1..]);
      assert Final(g, calls) == Final(c.after, calls[1..]);
      var n := Consumed(calls[1..]);
      OneMoreCall(offMax, g, xs, c, n, Feed(c.after, xs[c.consumed..][..n], offMax), Final(g, calls));
    }
  }

  lemma ReachedItself(offMax: int, g: GateModel, xs: seq<RxSample>, k: nat)
    ensures Reached(offMax, g, xs, k, g)
  {}

  /** A first call followed by what the rest of the run does. */
  lemma OneMoreCall(offMax: int, g: GateModel, xs: seq<RxSample>, c: Call, n: nat, rest: Fed, final: GateModel)
    requires c.input <= xs && WorkDone(offMax, g, c.input, c.noutput, c.after, c.out, c.consumed)
    requires c.consumed + n <= |xs| && rest == Feed(c.after, xs[c.consumed..][..n], offMax) && rest.consumed == n
    requires Reached(offMax, rest.gate, xs[c.consumed..], n, final)
    ensures var f := Feed(g, xs[..c.consumed + n], offMax);
      && f.consumed == c.consumed + n && c.out + rest.out == f.out
      && Reached(offMax, f.gate, xs, c.consumed + n, final)
  {
    hide Feed, Settle;
    var (k, ys) := (c.consumed, xs[c.consumed..]);
    assert c.input[..k] == xs[..k];
    var f := Feed(g, xs[..k], offMax);
    if n == 0 {
      FeedNothing(c.after, offMax);
      assert ys[..0] == [] && c.out + [] == c.out;
      if c.after != f.gate { SettleTwice(c.after, xs[k].loudness, offMax); }
    } else {
      if c.after != f.gate { FeedSettled(f.gate, ys[..n], offMax); }
      FeedAppend(g, xs[..k], ys[..n], offMax);
      assert xs[..k] + ys[..n] == xs[..k + n];
    }
  }

  lemma FeedNothing(g: GateModel, offMax: int)
    ensures Feed(g, [], offMax) == Fed(g, [], 0)
  {}

  /** A run is over when the stream is used up or the gate waits for a command. */
  predicate Finished(g: GateModel, xs: seq<RxSample>, calls: seq<Call>) {
    Consumed(calls) == |xs| || Blocked(Final(g, calls))
  }

  /** Samples behind one at which the gate blocks are not read. */
  lemma NotFurther(offMax: int, g: GateModel, xs: seq<RxSample>, m: nat, n: nat)
    requires m < n <= |xs| && Feed(g, xs[..m], offMax).consumed == m
    requires Blocked(Settle(Feed(g, xs[..m], offMax).gate, xs[m].loudness, offMax))
    ensures Feed(g, xs[..n], offMax).consumed == m
  {
    hide Feed, Settle, Blocked;
    FeedBlocked(Feed(g, xs[..m], offMax).gate, xs[m..n], offMax);
    FeedAppend(g, xs[..m], xs[m..n], offMax);
    assert xs[..m] + xs[m..n] == xs[..n];
  }

  /** Once the gate waits for a command, no run gets further. */
  lemma BlockedIsEnd(offMax: int, g: GateModel, xs: seq<RxSample>, a: seq<Call>, b: seq<Call>)
    requires IsRun(offMax, g, xs, a) && IsRun(offMax, g, xs, b) && Blocked(Final(g, a))
    ensures Consumed(b) <= Consumed(a)
  {
    hide Feed, Settle, IsRun, Output;
    RunTheorem(offMax, g, xs, a);
    RunTheorem(offMax, g, xs, b);
    var (m, n) := (Consumed(a), Consumed(b));
    if m < n {
      var f := Feed(g, xs[..m], offMax);
      if Final(g, a) == f.gate { SettleTwice(f.gate, xs[m].loudness, offMax); }
      NotFurther(offMax, g, xs, m, n);
    }
  }

  lemma FeedBlocked(g: GateModel, xs: seq<RxSample>, offMax: int)
    requires xs != [] && Blocked(Settle(g, xs[0].loudness, offMax))
    ensures Feed(g, xs, offMax).consumed == 0
  {}

  /**
   With the commands queued in advance the result does not depend on how input and output are cut
   into calls: two finished runs on the same stream read the same samples, write the same samples
   and end in the same state, tags included.
   */
  lemma SplitIndependence(offMax: int, g: GateModel, xs: seq<RxSample>, a: seq<Call>, b: seq<Call>)
    requires IsRun(offMax, g, xs, a) && Finished(g, xs, a)
    requires IsRun(offMax, g, xs, b) && Finished(g, xs, b)
    ensures Consumed(a) == Consumed(b)
    ensures Output(a) == Output(b)
    ensures a != [] && b != [] ==> Final(g, a) == Final(g, b)
  {
    hide Feed, Settle;
    RunTheorem(offMax, g, xs, a);
    RunTheorem(offMax, g, xs, b);
    if Blocked(Final(g, a)) { BlockedIsEnd(offMax, g, xs, a, b); }
    if Blocked(Final(g, b)) { BlockedIsEnd(offMax, g, xs, b, a); }
    var k := Consumed(a);
    var f := Feed(g, xs[..k], offMax).gate;
    if k < |xs| {
      if Final(g, a) == f { SettleTwice(f, xs[k].loudness, offMax); }
      if Final(g, b) == f { SettleTwice(f, xs[k].loudness, offMax); }
    }
  }

  /**
   A gate with its commands queued in advance, in every run: the commands executed are a prefix of
   those queued, a `Gate` or `Ungate` is followed by the next command after exactly its number of
   samples, every tag stands at the number of samples let through by earlier openings, and each opening
   lets through, without a gap, the samples that follow its execution.
   */
  lemma GateTheorem(offMax: int, commands: seq<RxTask>, xs: seq<RxSample>, calls: seq<Call>)
    requires IsRun(offMax, NewGate(commands), xs, calls)
    ensures Consumed(calls) <= |xs|
    ensures var g := Final(NewGate(commands), calls);
      && g.executed + g.queue == commands
      && OnTime(g)
      && g.tags == Tags(g.executed)
      && Faithful(g, xs[..Consumed(calls)], Output(calls))
  {
    hide Feed, Settle;
    var start := NewGate(commands);
    var k := Consumed(calls);
    RunTheorem(offMax, start, xs, calls);
    NewGateFaithful(commands);
    FaithfulFeed(start, xs[..k], offMax, [], []);
    FeedKeepsCommands(start, xs[..k], offMax);
    var f := Feed(start, xs[..k], offMax);
    assert [] + xs[..k][..k] == xs[..k] && [] + f.out == f.out;
    if Final(start, calls) != f.gate {
      FaithfulSettle(f.gate, xs[k].loudness, offMax, xs[..k], f.out);
      SettleKeepsCommands(f.gate, xs[k].loudness, offMax);
    }
  }
}
