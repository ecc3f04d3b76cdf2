/**
 When the receive gate starts to execute commands: at the rising edge after a short dip of the carrier,
 the delimiter of a command, and at no other sample.
 */
module GateEdges {
  import opened Tasks
  import opened ReceiveGate

  /**
   Seen from sample `r`: `a` is the last sample before it, from `base` on, at which the carrier was on, and
   `j` the first one after `a` at which it was off.
   */
  ghost predicate Dip(xs: seq<RxSample>, base: nat, a: nat, j: nat, r: nat) {
    && base <= a < j <= r <= |xs| && j < |xs|
    && xs[a].loudness == Above && (forall m :: a < m < j ==> xs[m].loudness == Equal)
    && xs[j].loudness == Below && (forall m :: j < m < r ==> xs[m].loudness != Above)
  }

  /** Sample `i` is the rising edge after a dip of at most `offMax` samples of a carrier that was on at `base` or later. */
  ghost predicate EdgeAt(xs: seq<RxSample>, base: nat, i: nat, offMax: int) {
    && i < |xs| && xs[i].loudness == Above
    && exists a, j :: Dip(xs, base, a, j, i) && i - j <= offMax
  }

  ghost predicate NoEdge(xs: seq<RxSample>, base: nat, end: nat, offMax: int) {
    forall i :: base <= i < end ==> !EdgeAt(xs, base, i, offMax)
  }

  ghost predicate FirstEdge(xs: seq<RxSample>, base: nat, i: nat, offMax: int) {
    base <= i && EdgeAt(xs, base, i, offMax) && NoEdge(xs, base, i, offMax)
  }

  /** Command `k` has to wait for an edge: it is the first one, or the one before it said that the burst is done. */
  ghost predicate Awaits(g: GateModel, k: nat)
    requires k <= |g.executed| == |g.starts|
  {
    k == 0 || g.executed[k - 1] == Done
  }

  /** From which sample on its edge counts: the first 10000 samples are not looked at. */
  function BaseOf(g: GateModel, k: nat): nat
    requires k <= |g.starts|
  {
    if k == 0 then 10000 else g.starts[k - 1]
  }

  /** The carrier has not been seen since `base`, or its last dip has lasted too long. */
  ghost predicate NothingPending(xs: seq<RxSample>, base: nat, r: nat, offMax: int) {
    && base <= r <= |xs|
    && ((forall m :: base <= m < r ==> xs[m].loudness != Above) || exists a, j :: Dip(xs, base, a, j, r) && r - j > offMax)
  }

  /** Since sample `a` the carrier was not off. */
  ghost predicate OnSince(xs: seq<RxSample>, base: nat, a: nat, r: nat) {
    base <= a < r <= |xs| && xs[a].loudness == Above && forall m :: a < m < r ==> xs[m].loudness == Equal
  }

  /** The carrier is on, at `r` itself, which is no edge, or since some sample before it. */
  ghost predicate CarrierOn(xs: seq<RxSample>, base: nat, r: nat, offMax: int) {
    && base <= r <= |xs|
    && ((r < |xs| && xs[r].loudness == Above && !EdgeAt(xs, base, r, offMax)) || exists a :: OnSince(xs, base, a, r))
  }

  /** The carrier has been off for the last `n` samples. */
  ghost predicate InDip(xs: seq<RxSample>, base: nat, r: nat, n: int) {
    exists a, j :: Dip(xs, base, a, j, r) && n == r - j
  }

  /** What the state of the gate says about the stream `xs`, of which it has read the first samples. */
  ghost predicate StateFits(g: GateModel, xs: seq<RxSample>, offMax: int)
    requires |g.executed| == |g.starts|
  {
    var (n, r) := (|g.executed|, g.read);
    var base := BaseOf(g, n);
    match g.state
    case Bootup => n == 0 && r + g.counter == 10000 && 0 <= g.counter
    case TxOff => Awaits(g, n) && NoEdge(xs, base, r, offMax) && NothingPending(xs, base, r, offMax)
    case TxOnMute => Awaits(g, n) && NoEdge(xs, base, r, offMax) && CarrierOn(xs, base, r, offMax)
    case TxOffMute => Awaits(g, n) && NoEdge(xs, base, r, offMax) && InDip(xs, base, r, g.counter)
    case Command => Awaits(g, n) ==> FirstEdge(xs, base, r, offMax)
    case Wait => !Awaits(g, n)
    case Unmute => !Awaits(g, n)
  }

  /** Every command that had to wait was executed at the first edge, and the state is that of the stream. */
  ghost predicate EdgesKept(g: GateModel, xs: seq<RxSample>, offMax: int) {
    && g.read <= |xs| && |g.starts| == |g.executed|
    && (forall k :: 0 <= k < |g.executed| && Awaits(g, k) ==> FirstEdge(xs, BaseOf(g, k), g.starts[k], offMax))
    && StateFits(g, xs, offMax)
  }

  // ---------------------------------------------------------------- facts about dips

  lemma OneDip(xs: seq<RxSample>, base: nat, a: nat, j: nat, b: nat, k: nat, r: nat)
    requires Dip(xs, base, a, j, r) && Dip(xs, base, b, k, r)
    ensures a == b && j == k
  {}

  /** While the carrier stays on there is no edge. */
  lemma NoEdgeWhileOn(xs: seq<RxSample>, base: nat, a: nat, r: nat, offMax: int)
    requires OnSince(xs, base, a, r)
    ensures !EdgeAt(xs, base, r, offMax)
  {}

  /** With nothing pending the next sample is no edge. */
  lemma NoEdgeYet(xs: seq<RxSample>, base: nat, r: nat, offMax: int)
    requires NothingPending(xs, base, r, offMax)
    ensures !EdgeAt(xs, base, r, offMax)
  {
    if EdgeAt(xs, base, r, offMax) {
      var a, j :| Dip(xs, base, a, j, r) && r - j <= offMax;
      if b, k :| Dip(xs, base, b, k, r) && r - k > offMax {
        OneDip(xs, base, a, j, b, k, r);
      }
      assert false;
    }
  }

  lemma DipGoesOn(xs: seq<RxSample>, base: nat, a: nat, j: nat, r: nat)
    requires Dip(xs, base, a, j, r) && r < |xs| && xs[r].loudness != Above
    ensures Dip(xs, base, a, j, r + 1)
  {}

  lemma PendingGoesOn(xs: seq<RxSample>, base: nat, r: nat, offMax: int)
    requires NothingPending(xs, base, r, offMax) && r < |xs| && xs[r].loudness != Above
    ensures NothingPending(xs, base, r + 1, offMax)
  {
    hide Dip;
    if a, j :| Dip(xs, base, a, j, r) && r - j > offMax { DipGoesOn(xs, base, a, j, r); }
  }

  lemma CarrierGoesOn(xs: seq<RxSample>, base: nat, r: nat, offMax: int)
    requires CarrierOn(xs, base, r, offMax) && r < |xs| && xs[r].loudness != Below
    ensures CarrierOn(xs, base, r + 1, offMax) && !EdgeAt(xs, base, r, offMax)
  {
    hide EdgeAt;
    if xs[r].loudness == Above {
      assert OnSince(xs, base, r, r + 1);
    } else {
      var a :| OnSince(xs, base, a, r);
      assert OnSince(xs, base, a, r + 1);
    }
    if EdgeAt(xs, base, r, offMax) {
      var a :| OnSince(xs, base, a, r);
      NoEdgeWhileOn(xs, base, a, r, offMax);
      assert false;
    }
  }

  lemma CarrierDrops(xs: seq<RxSample>, base: nat, r: nat, offMax: int)
    requires CarrierOn(xs, base, r, offMax) && r < |xs| && xs[r].loudness == Below
    ensures InDip(xs, base, r, 0)
  {
    hide EdgeAt;
    var a :| OnSince(xs, base, a, r);
    assert Dip(xs, base, a, r, r);
  }

  lemma NoEdgeMore(xs: seq<RxSample>, base: nat, r: nat, offMax: int)
    requires NoEdge(xs, base, r, offMax) && r < |xs| && (xs[r].loudness != Above || !EdgeAt(xs, base, r, offMax))
    ensures NoEdge(xs, base, r + 1, offMax)
  {}

  // ---------------------------------------------------------------- every step

  lemma ExecuteKeepsEdges(g: GateModel, xs: seq<RxSample>, offMax: int)
    requires EdgesKept(g, xs, offMax) && g.read < |xs| && g.state == Command && g.queue != []
    ensures EdgesKept(Execute(g), xs, offMax)
  {
    hide EdgeAt, NoEdge, Dip, FirstEdge;
    var (h, n) := (Execute(g), |g.executed|);
    forall k | 0 <= k < n + 1 && Awaits(h, k) ensures FirstEdge(xs, BaseOf(h, k), h.starts[k], offMax) {
      assert Awaits(g, k) && BaseOf(h, k) == BaseOf(g, k);
    }
    if g.queue[0] == Done {
      assert NoEdge(xs, h.read, h.read, offMax) by { Nothing(xs, h.read, offMax); }
    }
  }

  lemma Nothing(xs: seq<RxSample>, r: nat, offMax: int)
    ensures NoEdge(xs, r, r, offMax)
  {}

  lemma MoveKeepsEdges(g: GateModel, xs: seq<RxSample>, offMax: int)
    requires EdgesKept(g, xs, offMax) && g.read < |xs| && !Settled(g, xs[g.read].loudness, offMax)
    ensures EdgesKept(Move(g, xs[g.read].loudness, offMax), xs, offMax)
  {
    hide EdgeAt, NoEdge, Dip, Execute;
    var (r, n) := (g.read, |g.executed|);
    var base := BaseOf(g, n);
    var h := Move(g, xs[r].loudness, offMax);
    if g.state == Command {
      ExecuteKeepsEdges(g, xs, offMax);
    } else {
      forall k | 0 <= k < n && Awaits(h, k) ensures FirstEdge(xs, BaseOf(h, k), h.starts[k], offMax) {
        assert Awaits(g, k) && BaseOf(h, k) == BaseOf(g, k);
      }
      match g.state {
        case Bootup => Nothing(xs, 10000, offMax);
        case TxOff => NoEdgeYet(xs, base, r, offMax);
        case TxOnMute => CarrierDrops(xs, base, r, offMax);
        case TxOffMute =>
          var a, j :| Dip(xs, base, a, j, r) && g.counter == r as int - j;
          DipIsBefore(xs, base, a, j, r);
          if g.counter <= offMax { EdgeHere(xs, base, a, j, r, offMax); }
        case _ =>
      }
    }
  }

  lemma DipIsBefore(xs: seq<RxSample>, base: nat, a: nat, j: nat, r: nat)
    requires Dip(xs, base, a, j, r)
    ensures base <= r <= |xs|
  {}

  lemma EdgeHere(xs: seq<RxSample>, base: nat, a: nat, j: nat, r: nat, offMax: int)
    requires Dip(xs, base, a, j, r) && r - j <= offMax && r < |xs| && xs[r].loudness == Above
    ensures EdgeAt(xs, base, r, offMax)
  {}

  lemma ConsumeKeepsEdges(g: GateModel, xs: seq<RxSample>, offMax: int)
    requires EdgesKept(g, xs, offMax) && g.read < |xs| && Settled(g, xs[g.read].loudness, offMax) && !Blocked(g)
    ensures EdgesKept(Consume(g), xs, offMax)
  {
    hide EdgeAt, NoEdge, Dip, NothingPending, CarrierOn;
    var (r, n) := (g.read, |g.executed|);
    var (base, h) := (BaseOf(g, n), Consume(g));
    forall k | 0 <= k < n && Awaits(h, k) ensures FirstEdge(xs, BaseOf(h, k), h.starts[k], offMax) {
      assert Awaits(g, k) && BaseOf(h, k) == BaseOf(g, k);
    }
    match g.state {
      case TxOff =>
        NoEdgeMore(xs, base, r, offMax);
        PendingGoesOn(xs, base, r, offMax);
      case TxOnMute =>
        CarrierGoesOn(xs, base, r, offMax);
        NoEdgeMore(xs, base, r, offMax);
      case TxOffMute =>
        NoEdgeMore(xs, base, r, offMax);
        var a, j :| Dip(xs, base, a, j, r) && g.counter == r as int - j;
        DipGoesOn(xs, base, a, j, r);
        assert Dip(xs, base, a, j, r + 1) && h.counter == r + 1 - j;
      case _ =>
    }
  }

  // ---------------------------------------------------------------- every run

  lemma {:induction false} SettleKeepsEdges(g: GateModel, xs: seq<RxSample>, offMax: int)
    requires EdgesKept(g, xs, offMax) && g.read < |xs|
    ensures EdgesKept(Settle(g, xs[g.read].loudness, offMax), xs, offMax)
    decreases |g.queue|, Rank(g.state, xs[g.read].loudness)
  {
    hide EdgesKept, Settled, Move, Rank;
    ReadWithin(g, xs, offMax);
    if !Settled(g, xs[g.read].loudness, offMax) {
      MoveKeepsEdges(g, xs, offMax);
      SettleKeepsEdges(Move(g, xs[g.read].loudness, offMax), xs, offMax);
    }
  }

  lemma ReadWithin(g: GateModel, xs: seq<RxSample>, offMax: int)
    requires EdgesKept(g, xs, offMax)
    ensures g.read <= |xs|
  {}

  /** Feeding the next `n` samples of the stream. */
  lemma {:induction false} FeedKeepsEdges(g: GateModel, xs: seq<RxSample>, n: nat, offMax: int)
    requires EdgesKept(g, xs, offMax) && g.read + n <= |xs|
    ensures var f := Feed(g, xs[g.read..g.read + n], offMax);
      EdgesKept(f.gate, xs, offMax) && f.gate.read == g.read + f.consumed
    decreases n
  {
    hide EdgesKept, Settle, Settled;
    var ys := xs[g.read..g.read + n];
    if n > 0 {
      assert ys[0] == xs[g.read];
      SettleKeepsEdges(g, xs, offMax);
      var s := Settle(g, xs[g.read].loudness, offMax);
      if !Blocked(s) {
        ConsumeKeepsEdges(s, xs, offMax);
        assert ys[1..] == xs[Consume(s).read..Consume(s).read + (n - 1)];
        FeedKeepsEdges(Consume(s), xs, n - 1, offMax);
      }
    }
  }

  /** One call of the block on the samples that come next. */
  lemma WorkKeepsEdges(g: GateModel, xs: seq<RxSample>, c: Call, offMax: int)
    requires EdgesKept(g, xs, offMax) && g.read <= |xs| && c.input <= xs[g.read..]
    requires WorkDone(offMax, g, c.input, c.noutput, c.after, c.out, c.consumed)
    ensures EdgesKept(c.after, xs, offMax) && c.after.read == g.read + c.consumed
  {
    hide EdgesKept, Settle, Feed;
    var k := c.consumed;
    assert c.input[..k] == xs[g.read..g.read + k];
    FeedKeepsEdges(g, xs, k, offMax);
    var f := Feed(g, c.input[..k], offMax);
    if c.after != f.gate {
      assert c.input[k] == xs[g.read + k];
      SettleKeepsEdges(f.gate, xs, offMax);
    }
  }

  lemma NewGateEdges(commands: seq<RxTask>, xs: seq<RxSample>, offMax: int)
    ensures EdgesKept(NewGate(commands), xs, offMax)
  {}

  lemma {:induction false} RunKeepsEdges(offMax: int, g: GateModel, xs: seq<RxSample>, all: seq<RxSample>, calls: seq<Call>)
    requires EdgesKept(g, all, offMax) && g.read <= |all| && xs == all[g.read..] && IsRun(offMax, g, xs, calls)
    ensures EdgesKept(Final(g, calls), all, offMax)
    decreases |calls|
  {
    hide EdgesKept, WorkDone;
    if calls != [] {
      var c := calls[0];
      WorkKeepsEdges(g, all, c, offMax);
      WorkConsumes(offMax, g, c);
      assert xs[c.consumed..] == all[c.after.read..];
      RunKeepsEdges(offMax, c.after, xs[c.consumed..], all, calls[1..]);
      assert Final(g, calls) == Final(c.after, calls[1..]);
    }
  }

  lemma WorkConsumes(offMax: int, g: GateModel, c: Call)
    requires WorkDone(offMax, g, c.input, c.noutput, c.after, c.out, c.consumed)
    ensures c.consumed <= |c.input|
  {}

  /**
   In every run of a gate with its commands queued in advance: a command that has to wait for an edge, being
   the first one or the one after a `Done`, is executed at the first edge from the 10001st sample on, or
   from that `Done` on.  As long as it is not executed there has been no edge; in particular, if the
   stream is used up with commands left in the queue, there is none in all of it.
   */
  lemma EdgeTheorem(offMax: int, commands: seq<RxTask>, xs: seq<RxSample>, calls: seq<Call>)
    requires IsRun(offMax, NewGate(commands), xs, calls)
    ensures var g := Final(NewGate(commands), calls);
      && g.read <= |xs| && |g.starts| == |g.executed|
      && (forall k :: 0 <= k < |g.executed| && (k == 0 || g.executed[k - 1] == Done) ==>
            FirstEdge(xs, if k == 0 then 10000 else g.starts[k - 1], g.starts[k], offMax))
      && (g.executed == [] ==> NoEdge(xs, 10000, g.read, offMax))
      && (g.executed != [] && g.executed[|g.executed| - 1] == Done ==>
            NoEdge(xs, g.starts[|g.starts| - 1], g.read, offMax))
  {
    hide FirstEdge, NoEdge, IsRun;
    var start := NewGate(commands);
    NewGateEdges(commands, xs, offMax);
    assert xs[0..] == xs;
    RunKeepsEdges(offMax, start, xs, xs, calls);
    var g := Final(start, calls);
    ReadWithin(g, xs, offMax);
    assert |g.starts| == |g.executed| by { StartsMatch(g, xs, offMax); }
    if Awaits(g, |g.executed|) { WaitsMeansNoEdge(g, xs, offMax); }
    forall k | 0 <= k < |g.executed| && (k == 0 || g.executed[k - 1] == Done)
      ensures FirstEdge(xs, if k == 0 then 10000 else g.starts[k - 1], g.starts[k], offMax)
    {
      assert Awaits(g, k);
    }
  }

  lemma StartsMatch(g: GateModel, xs: seq<RxSample>, offMax: int)
    requires EdgesKept(g, xs, offMax)
    ensures |g.starts| == |g.executed|
  {}

  lemma WaitsMeansNoEdge(g: GateModel, xs: seq<RxSample>, offMax: int)
    requires EdgesKept(g, xs, offMax) && |g.starts| == |g.executed| && Awaits(g, |g.executed|)
    ensures NoEdge(xs, BaseOf(g, |g.executed|), g.read, offMax)
  {}
}
