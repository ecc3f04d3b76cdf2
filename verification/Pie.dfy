/**
 Pulse-interval encoding.  A symbol is a high interval closed by a low pulse; a 1 takes longer
 than a 0.  The waveforms are those of sections 6.3.1.2.3 and 6.3.1.2.8 of the EPCglobal UHF
 Class-1 Generation-2 standard, version 1.2.0, and so is the receiver that reads them back.
 */
module Pie {
  import opened Wrappers
  import opened Tasks

  /** A transmitted sample: the carrier is off or on. */
  datatype Sample = Off | On

  /** Symbol durations in samples. */
  datatype Timing = Timing(delimiter: nat, tari: nat, pw: nat, trcal: nat, data1: nat)
  {
    function Rtcal(): nat { data1 + tari }

    /** Every interval has room for its closing pulse. */
    ghost predicate Valid() {
      pw <= tari && pw <= data1 && pw < Rtcal() && pw <= trcal
    }

    /** Every symbol and the delimiter have edges to measure. */
    ghost predicate Shaped() {
      0 < pw < tari && pw < data1 && 0 < delimiter
    }

    /** The proportions that let a receiver tell the symbols apart. */
    ghost predicate Readable() {
      Shaped() && tari < data1
    }
  }

  function Level(s: Sample, n: nat): (wave: seq<Sample>)
    ensures |wave| == n
  {
    seq(n, _ => s)
  }

  /** An interval of `n` samples that ends with a low pulse of `pw` samples. */
  function Interval(n: nat, pw: nat): (wave: seq<Sample>)
    requires pw <= n
    ensures |wave| == n
  {
    Level(On, n - pw) + Level(Off, pw)
  }

  function SymbolWave(t: Timing, b: bit): seq<Sample>
    requires t.Valid()
  {
    Interval(if b == 0 then t.tari else t.data1, t.pw)
  }

  function BitsWave(t: Timing, bits: seq<bit>): seq<Sample>
    requires t.Valid()
  {
    if bits == [] then [] else SymbolWave(t, bits[0]) + BitsWave(t, bits[1..])
  }

  function FrameSyncWave(t: Timing): seq<Sample>
    requires t.Valid()
  {
    Level(Off, t.delimiter) + Interval(t.tari, t.pw) + Interval(t.Rtcal(), t.pw)
  }

  function PreambleWave(t: Timing): seq<Sample>
    requires t.Valid()
  {
    FrameSyncWave(t) + Interval(t.trcal, t.pw)
  }

  // ---------------------------------------------------------------- the receiver

  /** Number of samples at the front of `wave` that equal `s`. */
  function Leading(wave: seq<Sample>, s: Sample): (n: nat)
    ensures n <= |wave|
  {
    if wave == [] || wave[0] != s then 0 else 1 + Leading(wave[1..], s)
  }

  /** The durations of the symbols, from one rising edge to the next; an interval that has not ended is none. */
  function Durations(wave: seq<Sample>): seq<nat>
    decreases |wave|
  {
    var high := Leading(wave, On);
    var low := Leading(wave[high..], Off);
    if high == 0 || low == 0 then [] else [high + low] + Durations(wave[high + low..])
  }

  function Slice(durations: seq<nat>, rtcal: nat): (bits: seq<bit>)
    ensures |bits| == |durations|
  {
    if durations == [] then []
    else [if 2 * durations[0] > rtcal then 1 else 0] + Slice(durations[1..], rtcal)
  }

  /**
   Skip the carrier and the delimiter, measure the calibration symbol, skip a second calibration
   symbol if there is one (it is longer than the first), and compare every symbol with the pivot
   `RTcal / 2`.
   */
  function Receive(wave: seq<Sample>): Option<seq<bit>> {
    var frame := wave[Leading(wave, On)..];
    var durations := Durations(frame[Leading(frame, Off)..]);
    if |durations| < 2 then None
    else
      var (rtcal, rest) := (durations[1], durations[2..]);
      Some(Slice(if rest != [] && rest[0] > rtcal then rest[1..] else rest, rtcal))
  }

  // ---------------------------------------------------------------- the round trip

  lemma {:induction false} LeadingLevel(s: Sample, n: nat, rest: seq<Sample>)
    requires rest == [] || rest[0] != s
    ensures Leading(Level(s, n) + rest, s) == n
  {
    if n == 0 {
      assert Level(s, 0) + rest == rest;
    } else {
      LeadingLevel(s, n - 1, rest);
      assert (Level(s, n) + rest)[1..] == Level(s, n - 1) + rest;
    }
  }

  /** What may follow a symbol: nothing, or a rising edge. */
  ghost predicate Rises(rest: seq<Sample>) {
    rest == [] || rest[0] == On
  }

  lemma DurationsStep(wave: seq<Sample>, high: nat, low: nat)
    requires 0 < high && 0 < low && high + low <= |wave|
    requires Leading(wave, On) == high && Leading(wave[high..], Off) == low
    ensures Durations(wave) == [high + low] + Durations(wave[high + low..])
  {
    hide Leading;
  }

  lemma DurationsInterval(n: nat, pw: nat, rest: seq<Sample>)
    requires 0 < pw < n && Rises(rest)
    ensures Durations(Interval(n, pw) + rest) == [n] + Durations(rest)
  {
    hide Durations, Leading;
    var wave := Interval(n, pw) + rest;
    var low := Level(Off, pw) + rest;
    assert wave == Level(On, n - pw) + low;
    LeadingLevel(On, n - pw, low);
    assert wave[n - pw..] == low;
    LeadingLevel(Off, pw, rest);
    DurationsStep(wave, n - pw, pw);
    assert wave[n..] == rest;
  }

  lemma DurationsCarrier(n: nat)
    ensures Durations(Level(On, n)) == []
  {
    assert Level(On, n) + [] == Level(On, n);
    LeadingLevel(On, n, []);
  }

  ghost function BitDurations(t: Timing, bits: seq<bit>): (d: seq<nat>)
    ensures |d| == |bits|
  {
    if bits == [] then [] else [if bits[0] == 0 then t.tari else t.data1] + BitDurations(t, bits[1..])
  }

  lemma {:induction false} DurationsBits(t: Timing, bits: seq<bit>, carrier: nat)
    requires t.Valid() && t.Shaped()
    ensures Rises(BitsWave(t, bits) + Level(On, carrier))
    ensures Durations(BitsWave(t, bits) + Level(On, carrier)) == BitDurations(t, bits)
  {
    var tail := Level(On, carrier);
    if bits == [] {
      assert BitsWave(t, bits) + tail == tail;
      DurationsCarrier(carrier);
    } else {
      DurationsBits(t, bits[1..], carrier);
      var rest := BitsWave(t, bits[1..]) + tail;
      var n := if bits[0] == 0 then t.tari else t.data1;
      assert BitsWave(t, bits) + tail == Interval(n, t.pw) + rest;
      DurationsInterval(n, t.pw, rest);
    }
  }

  lemma {:induction false} SliceBits(t: Timing, bits: seq<bit>)
    requires t.Readable()
    ensures Slice(BitDurations(t, bits), t.Rtcal()) == bits
  {
    if bits != [] {
      SliceBits(t, bits[1..]);
      assert BitDurations(t, bits)[1..] == BitDurations(t, bits[1..]);
      assert bits == [bits[0]] + bits[1..];
    }
  }

  lemma BitDurationsShort(t: Timing, bits: seq<bit>)
    ensures bits != [] ==> BitDurations(t, bits)[0] <= t.Rtcal()
  {}

  /** The carrier and the delimiter are skipped. */
  lemma ReceiveFrame(t: Timing, before: nat, rest: seq<Sample>)
    requires t.Valid() && t.Shaped() && Rises(rest)
    ensures Receive(Level(On, before) + FrameSyncWave(t) + rest)
         == var d := Durations(rest);
            Some(Slice(if d != [] && d[0] > t.Rtcal() then d[1..] else d, t.Rtcal()))
  {
    hide Durations, Leading, Slice;
    var symbols := Interval(t.tari, t.pw) + (Interval(t.Rtcal(), t.pw) + rest);
    var frame := Level(Off, t.delimiter) + symbols;
    var wave := Level(On, before) + FrameSyncWave(t) + rest;
    assert wave == Level(On, before) + frame;
    LeadingLevel(On, before, frame);
    assert wave[before..] == frame;
    LeadingLevel(Off, t.delimiter, symbols);
    assert frame[t.delimiter..] == symbols;
    DurationsInterval(t.Rtcal(), t.pw, rest);
    DurationsInterval(t.tari, t.pw, Interval(t.Rtcal(), t.pw) + rest);
    var d := Durations(rest);
    var all := [t.tari] + ([t.Rtcal()] + d);
    assert Durations(symbols) == all;
    assert all[1] == t.Rtcal() && all[2..] == d;
  }

  /** A receiver reads back every bit sequence sent after a frame-sync. */
  lemma FrameSyncRoundTrip(t: Timing, before: nat, bits: seq<bit>, after: nat)
    requires t.Valid() && t.Readable()
    ensures Receive(Level(On, before) + FrameSyncWave(t) + (BitsWave(t, bits) + Level(On, after))) == Some(bits)
  {
    DurationsBits(t, bits, after);
    ReceiveFrame(t, before, BitsWave(t, bits) + Level(On, after));
    BitDurationsShort(t, bits);
    SliceBits(t, bits);
  }

  /** The pivot rule reads every bit sequence back exactly when a 1 takes longer than a 0. */
  lemma PivotTheorem(t: Timing)
    requires t.Valid() && t.Shaped()
    ensures (forall bits: seq<bit> :: Receive(Level(On, 0) + FrameSyncWave(t) + (BitsWave(t, bits) + Level(On, 0))) == Some(bits))
       <==> t.tari < t.data1
  {
    if t.tari < t.data1 {
      forall bits: seq<bit>
        ensures Receive(Level(On, 0) + FrameSyncWave(t) + (BitsWave(t, bits) + Level(On, 0))) == Some(bits)
      {
        FrameSyncRoundTrip(t, 0, bits, 0);
      }
    } else {
      var one: seq<bit> := [1];
      DurationsBits(t, one, 0);
      ReceiveFrame(t, 0, BitsWave(t, one) + Level(On, 0));
      var d := BitDurations(t, one);
      assert d == [t.data1] && Slice(d, t.Rtcal()) == [0];
      assert Receive(Level(On, 0) + FrameSyncWave(t) + (BitsWave(t, one) + Level(On, 0))) != Some(one);
    }
  }

  /** The same after a preamble, whose second calibration symbol is longer than the first. */
  lemma PreambleRoundTrip(t: Timing, before: nat, bits: seq<bit>, after: nat)
    requires t.Valid() && t.Readable() && t.Rtcal() < t.trcal
    ensures Receive(Level(On, before) + PreambleWave(t) + (BitsWave(t, bits) + Level(On, after))) == Some(bits)
  {
    var data := BitsWave(t, bits) + Level(On, after);
    DurationsBits(t, bits, after);
    DurationsInterval(t.trcal, t.pw, data);
    var rest := Interval(t.trcal, t.pw) + data;
    assert Level(On, before) + PreambleWave(t) + data == Level(On, before) + FrameSyncWave(t) + rest;
    ReceiveFrame(t, before, rest);
    assert Durations(rest)[1..] == BitDurations(t, bits);
    SliceBits(t, bits);
  }

  // ---------------------------------------------------------------- the shape of whole waveforms

  /** The lengths of the runs of samples in which the carrier is off. */
  function LowRuns(wave: seq<Sample>): seq<nat>
    decreases |wave|
  {
    if wave == [] then []
    else if wave[0] == On then LowRuns(wave[Leading(wave, On)..])
    else [Leading(wave, Off)] + LowRuns(wave[Leading(wave, Off)..])
  }

  lemma LowRunsCarrier(n: nat, rest: seq<Sample>)
    requires rest == [] || rest[0] == Off
    ensures LowRuns(Level(On, n) + rest) == LowRuns(rest)
  {
    LeadingLevel(On, n, rest);
    var wave := Level(On, n) + rest;
    assert wave[n..] == rest;
    if n == 0 { assert wave == rest; }
  }

  lemma LowRunsPulse(n: nat, rest: seq<Sample>)
    requires 0 < n && Rises(rest)
    ensures LowRuns(Level(Off, n) + rest) == [n] + LowRuns(rest)
  {
    LeadingLevel(Off, n, rest);
    assert (Level(Off, n) + rest)[n..] == rest;
  }

  lemma LowRunsInterval(n: nat, pw: nat, rest: seq<Sample>)
    requires 0 < pw <= n && Rises(rest)
    ensures LowRuns(Interval(n, pw) + rest) == [pw] + LowRuns(rest)
  {
    hide LowRuns;
    var low := Level(Off, pw) + rest;
    assert Interval(n, pw) + rest == Level(On, n - pw) + low;
    LowRunsCarrier(n - pw, low);
    LowRunsPulse(pw, rest);
  }

  function Repeat(x: nat, n: nat): (r: seq<nat>)
    ensures |r| == n && forall i :: 0 <= i < n ==> r[i] == x
  {
    seq(n, _ => x)
  }

  lemma {:induction false} LowRunsBits(t: Timing, bits: seq<bit>, after: nat)
    requires t.Valid() && t.Shaped()
    ensures Rises(BitsWave(t, bits) + Level(On, after))
    ensures LowRuns(BitsWave(t, bits) + Level(On, after)) == Repeat(t.pw, |bits|)
    decreases |bits|
  {
    hide LowRuns, Durations, Leading, Interval, Rises, Repeat, BitDurations, Level;
    DurationsBits(t, bits, after);
    var tail := Level(On, after);
    if bits == [] {
      assert BitsWave(t, bits) + tail == tail && tail + [] == tail;
      LowRunsCarrier(after, []);
      NoLowRuns();
      assert Repeat(t.pw, 0) == [];
    } else {
      LowRunsBits(t, bits[1..], after);
      var rest := BitsWave(t, bits[1..]) + tail;
      var n := if bits[0] == 0 then t.tari else t.data1;
      assert BitsWave(t, bits) + tail == Interval(n, t.pw) + rest;
      LowRunsInterval(n, t.pw, rest);
      RepeatMore(t.pw, |bits| - 1);
    }
  }

  lemma RepeatMore(x: nat, n: nat)
    ensures [x] + Repeat(x, n) == Repeat(x, n + 1)
  {}

  lemma NoLowRuns()
    ensures LowRuns([]) == []
  {}

  /** A frame on the air: carrier, frame-sync or preamble, data, carrier. */
  function OnAirFrame(t: Timing, full: bool, before: nat, bits: seq<bit>, after: nat): seq<Sample>
    requires t.Valid()
  {
    Level(On, before) + (if full then PreambleWave(t) else FrameSyncWave(t)) + (BitsWave(t, bits) + Level(On, after))
  }

  /** What follows the delimiter of a frame. */
  function Symbols(t: Timing, full: bool, bits: seq<bit>, after: nat): seq<Sample>
    requires t.Valid()
  {
    var data := BitsWave(t, bits) + Level(On, after);
    Interval(t.tari, t.pw) + (Interval(t.Rtcal(), t.pw) + if full then Interval(t.trcal, t.pw) + data else data)
  }

  lemma FrameIsSymbols(t: Timing, full: bool, before: nat, bits: seq<bit>, after: nat)
    requires t.Valid()
    ensures OnAirFrame(t, full, before, bits, after) == Level(On, before) + (Level(Off, t.delimiter) + Symbols(t, full, bits, after))
  {
    hide Level, Interval, BitsWave;
  }

  /**
   On the air every frame is a low delimiter of its length and then symbols that each end with a low pulse of
   `pw` samples: a data-0, the calibration symbol of a data-0 and a data-1, in a preamble the second
   calibration symbol, and one symbol for each bit, 0 and 1 with their own durations.
   */
  lemma FrameShape(t: Timing, full: bool, before: nat, bits: seq<bit>, after: nat)
    requires t.Valid() && t.Shaped() && t.pw < t.trcal
    ensures var wave := OnAirFrame(t, full, before, bits, after);
            var head := if full then 3 else 2;
      && LowRuns(wave) == [t.delimiter] + Repeat(t.pw, head + |bits|)
      && Leading(wave, On) == before && Leading(wave[before..], Off) == t.delimiter
      && var d := Durations(wave[before + t.delimiter..]);
        && |d| == head + |bits|
        && d[0] == t.tari && d[1] == t.tari + t.data1 && (full ==> d[2] == t.trcal)
        && forall k :: 0 <= k < |bits| ==> d[head + k] == if bits[k] == 0 then t.tari else t.data1
  {
    hide LowRuns, Durations, Leading, Level, Interval, BitsWave;
    FrameIsSymbols(t, full, before, bits, after);
    var data := BitsWave(t, bits) + Level(On, after);
    var tail := if full then Interval(t.trcal, t.pw) + data else data;
    var symbols := Symbols(t, full, bits, after);
    var wave := OnAirFrame(t, full, before, bits, after);
    LowRunsBits(t, bits, after);
    DurationsBits(t, bits, after);
    BitDurationsAre(t, bits);
    IntervalRises(t.trcal, t.pw, data);
    IntervalRises(t.Rtcal(), t.pw, tail);
    IntervalRises(t.tari, t.pw, Interval(t.Rtcal(), t.pw) + tail);
    if full {
      LowRunsInterval(t.trcal, t.pw, data);
      DurationsInterval(t.trcal, t.pw, data);
    }
    LowRunsInterval(t.Rtcal(), t.pw, tail);
    DurationsInterval(t.Rtcal(), t.pw, tail);
    LowRunsInterval(t.tari, t.pw, Interval(t.Rtcal(), t.pw) + tail);
    DurationsInterval(t.tari, t.pw, Interval(t.Rtcal(), t.pw) + tail);
    LowRunsPulse(t.delimiter, symbols);
    LevelFalls(t.delimiter, symbols);
    LowRunsCarrier(before, Level(Off, t.delimiter) + symbols);
    LeadingLevel(On, before, Level(Off, t.delimiter) + symbols);
    LeadingLevel(Off, t.delimiter, symbols);
    assert wave[before..] == Level(Off, t.delimiter) + symbols;
    assert wave[before + t.delimiter..] == symbols;
  }

  lemma BitDurationsAre(t: Timing, bits: seq<bit>)
    ensures forall k :: 0 <= k < |bits| ==> BitDurations(t, bits)[k] == if bits[k] == 0 then t.tari else t.data1
  {
    if bits != [] {
      BitDurationsAre(t, bits[1..]);
      assert forall k :: 0 < k < |bits| ==> BitDurations(t, bits)[k] == BitDurations(t, bits[1..])[k - 1];
    }
  }

  lemma IntervalRises(n: nat, pw: nat, rest: seq<Sample>)
    requires pw < n
    ensures Rises(Interval(n, pw) + rest)
  {}

  lemma LevelFalls(n: nat, rest: seq<Sample>)
    requires 0 < n
    ensures (Level(Off, n) + rest)[0] == Off
  {}
}
