/** The acquisition script's control logic: the accumulation length and its
    write-only-if-different rule, the 21-pair baseline table and its numpy
    roll, one bundle of spectra read pair by pair, the antenna index arrays
    stored with each bundle, and the bounded reconnect counter.

    The correlator is reached through four calls (get_acc_len, set_acc_len,
    set_input, read_bram) of a library outside this repository; it is
    modelled as a class that records every call in order and whose
    read_bram returns the next of the readouts the hardware supplies. */
module Acquisition {
  import Bits

  /** What one read_bram returns; the model does not look inside it. */
  type Readout = seq<int>

  /** A timestamp as time.time() returned it. */
  type Time = int

  /** One call into the correlator, in the order issued. */
  datatype Command =
    | AccLenWrite(n: int)
    | InputSelect(a: nat, b: nat)
    | BramRead

  class Correlator {
    /** The configured accumulation length. */
    var accLen: int
    /** The readouts the next read_bram calls return, first one first. */
    var pending: seq<Readout>
    /** Every call made so far. */
    var trace: seq<Command>

    constructor (accLen: int, pending: seq<Readout>)
      ensures this.accLen == accLen && this.pending == pending && trace == []
    {
      this.accLen := accLen;
      this.pending := pending;
      trace := [];
    }

    method GetAccLen() returns (n: int)
      ensures n == accLen
    {
      n := accLen;
    }

    method SetAccLen(n: int)
      modifies this
      ensures accLen == n && pending == old(pending)
      ensures trace == old(trace) + [AccLenWrite(n)]
    {
      accLen := n;
      trace := trace + [AccLenWrite(n)];
    }

    method SetInputPair(a: nat, b: nat)
      modifies this
      ensures accLen == old(accLen) && pending == old(pending)
      ensures trace == old(trace) + [InputSelect(a, b)]
    {
      trace := trace + [InputSelect(a, b)];
    }

    method ReadBramNext() returns (r: Readout)
      requires |pending| > 0
      modifies this
      ensures r == old(pending[0]) && pending == old(pending[1..])
      ensures accLen == old(accLen)
      ensures trace == old(trace) + [BramRead]
    {
      r := pending[0];
      pending := pending[1..];
      trace := trace + [BramRead];
    }
  }

  // ---------------------------------------------------------------------
  // Accumulation length

  /** The ADC sample rate, 250e6 per second, as an integer. */
  const SAMPLE_RATE: nat := 250_000_000

  /** int((integration_time * 250e6) / (8 * nchans * spec_per_acc)): the
      quotient truncated toward zero, as int() truncates a float. */
  function AccLen(integrationTime: int, nchans: nat, specPerAcc: nat): (n: int)
    requires nchans > 0 && specPerAcc > 0
    ensures var d, x := 8 * nchans * specPerAcc, integrationTime * SAMPLE_RATE;
      if x >= 0 then 0 <= n && n * d <= x < (n + 1) * d
      else n <= 0 && (-n) * d <= -x < (-n + 1) * d
  {
    var d, x := 8 * nchans * specPerAcc, integrationTime * SAMPLE_RATE;
    FloorBounds(x, d);
    FloorBounds(-x, d);
    if x >= 0 then x / d else -((-x) / d)
  }

  /** Euclidean division of a nonnegative value brackets it between
      multiples of the divisor. */
  lemma FloorBounds(x: int, d: int)
    requires d > 0
    ensures x >= 0 ==> 0 <= x / d && (x / d) * d <= x < (x / d + 1) * d
  {
    var q, r := x / d, x % d;
    assert x == d * q + r && 0 <= r < d;
    assert (q + 1) * d == q * d + d;
  }

  /** Set the accumulation length only when it differs from the configured
      one: at most one write, and afterwards the configured value is acc_len.
      The first pair is then selected. */
  method Configure(corr: Correlator, accLen: int)
    modifies corr
    ensures corr.accLen == accLen && corr.pending == old(corr.pending)
    ensures corr.trace == old(corr.trace) + (if old(corr.accLen) == accLen then [] else [AccLenWrite(accLen)])
      + [InputSelect(0, 0)]
  {
    var current := corr.GetAccLen();
    if !(accLen == current) {
      corr.SetAccLen(accLen);
    }
    corr.SetInputPair(0, 0);
  }

  // ---------------------------------------------------------------------
  // Baseline pairs

  /** cycle_pols: the 21 baselines of six inputs (1x, 1y, 2x, 2y, 3x, 3y as
      0 .. 5) in the order the script reads them. */
  const CYCLE_POLS: seq<(nat, nat)> := [(0, 0), (1, 1), (0, 1), (0, 2), (1, 3), (0, 3), (1, 2),
                                        (0, 4), (1, 5), (0, 5), (1, 4), (2, 2), (3, 3), (2, 3),
                                        (2, 4), (3, 5), (2, 5), (3, 4), (4, 4), (5, 5), (4, 5)]

  /** The index of pair (a, b) in cycle_pols, 21 for a pair not listed. */
  function Slot(a: nat, b: nat): (k: nat)
    ensures k <= 21
  {
    match (a, b)
      case (0, 0) => 0
      case (1, 1) => 1
      case (0, 1) => 2
      case (0, 2) => 3
      case (1, 3) => 4
      case (0, 3) => 5
      case (1, 2) => 6
      case (0, 4) => 7
      case (1, 5) => 8
      case (0, 5) => 9
      case (1, 4) => 10
      case (2, 2) => 11
      case (3, 3) => 12
      case (2, 3) => 13
      case (2, 4) => 14
      case (3, 5) => 15
      case (2, 5) => 16
      case (3, 4) => 17
      case (4, 4) => 18
      case (5, 5) => 19
      case (4, 5) => 20
      case _ => 21
  }

  /** Slot is a left inverse of indexing cycle_pols. */
  lemma SlotOfIndex(i: nat)
    requires i < 21
    ensures CYCLE_POLS[i].0 <= CYCLE_POLS[i].1 < 6
    ensures Slot(CYCLE_POLS[i].0, CYCLE_POLS[i].1) == i
  {
  }

  /** Every pair a <= b < 6 has a slot, and sits there. */
  lemma IndexOfSlot(a: nat, b: nat)
    requires a <= b < 6
    ensures Slot(a, b) < 21 && CYCLE_POLS[Slot(a, b)] == (a, b)
  {
  }

  /** Each entry of cycle_pols is a pair a <= b of the six inputs. */
  lemma CyclePolsInRange()
    ensures |CYCLE_POLS| == 21
    ensures forall i :: 0 <= i < 21 ==> CYCLE_POLS[i].0 <= CYCLE_POLS[i].1 < 6
  {
    forall i | 0 <= i < 21
      ensures CYCLE_POLS[i].0 <= CYCLE_POLS[i].1 < 6
    {
      SlotOfIndex(i);
    }
  }

  /** No baseline is read twice in a spectrum. */
  lemma CyclePolsDistinct()
    ensures forall i, j :: 0 <= i < j < 21 ==> CYCLE_POLS[i] != CYCLE_POLS[j]
  {
    forall i, j | 0 <= i < j < 21
      ensures CYCLE_POLS[i] != CYCLE_POLS[j]
    {
      SlotOfIndex(i);
      SlotOfIndex(j);
    }
  }

  /** Every baseline of the six inputs is read. */
  lemma CyclePolsComplete()
    ensures forall a: nat, b: nat :: a <= b < 6 ==> (a, b) in CYCLE_POLS
  {
    forall a: nat, b: nat | a <= b < 6
      ensures (a, b) in CYCLE_POLS
    {
      IndexOfSlot(a, b);
    }
  }

  // ---------------------------------------------------------------------
  // The rotated reading order

  /** A list of pairs as numpy stores it: row by row. */
  function Flatten(ps: seq<(nat, nat)>): (xs: seq<nat>)
    ensures |xs| == 2 * |ps|
  {
    if ps == [] then [] else [ps[0].0, ps[0].1] + Flatten(ps[1..])
  }

  /** Consecutive values taken two at a time, as the loop over a two-column
      array unpacks them. */
  function Unflatten(xs: seq<nat>): (ps: seq<(nat, nat)>)
    requires |xs| % 2 == 0
    ensures |ps| == |xs| / 2
  {
    if xs == [] then [] else [(xs[0], xs[1])] + Unflatten(xs[2..])
  }

  lemma {:induction false} UnflattenFlatten(ps: seq<(nat, nat)>)
    ensures Unflatten(Flatten(ps)) == ps
  {
    if ps != [] {
      var xs := Flatten(ps);
      assert xs[2..] == Flatten(ps[1..]);
      UnflattenFlatten(ps[1..]);
    }
  }

  lemma {:induction false} FlattenAppend(ps: seq<(nat, nat)>, qs: seq<(nat, nat)>)
    ensures Flatten(ps + qs) == Flatten(ps) + Flatten(qs)
  {
    if ps != [] {
      assert (ps + qs)[1..] == ps[1..] + qs;
      FlattenAppend(ps[1..], qs);
    } else {
      assert ps + qs == qs;
    }
  }

  /** np.roll(xs, shift) on a flattened array: the values move `shift`
      places to the right, those pushed past the end coming in at the front
      (a negative shift moves them left). */
  function Roll<T>(xs: seq<T>, shift: int): (r: seq<T>)
    ensures |r| == |xs|
  {
    if xs == [] then [] else
      var s := shift % |xs|;
      xs[|xs| - s..] + xs[..|xs| - s]
  }

  /** The element at index i lands at index (i + shift) mod n. */
  lemma RollAt<T>(xs: seq<T>, shift: int, i: nat)
    requires i < |xs|
    ensures Roll(xs, shift)[(i + shift) % |xs|] == xs[i]
  {
    var n := |xs|;
    var s := shift % n;
    var j := (i + shift) % n;
    ModAddMod(i, shift, n);
    assert j == (i + s) % n;
    if i + s < n {
      ModSmall(i + s, n);
      assert Roll(xs, shift)[j] == xs[..n - s][i];
    } else {
      ModWrap(i + s, n);
      assert Roll(xs, shift)[j] == xs[n - s..][j];
    }
  }

  lemma ModAddMod(i: int, shift: int, n: int)
    requires n > 0
    ensures (i + shift) % n == (i + shift % n) % n
  {
    var q := shift / n;
    assert shift == n * q + shift % n;
    assert i + shift == n * q + (i + shift % n);
    ModShift(i + shift % n, q, n);
  }

  lemma ModShift(x: int, q: int, n: int)
    requires n > 0
    ensures (n * q + x) % n == x % n
  {
    var a, b := x / n, x % n;
    assert n * q + x == n * (q + a) + b;
    ModUnique(n * q + x, n, q + a, b);
  }

  /** The remainder is the only value in [0, n) that differs from the
      dividend by a multiple of n. */
  lemma ModUnique(y: int, n: int, e: int, b: int)
    requires n > 0 && y == n * e + b && 0 <= b < n
    ensures y % n == b
  {
    var c, d := y / n, y % n;
    assert n * c + d == n * e + b;
    if c > e {
      assert n * (c - e) >= n * 1 by { Bits.MulMonotone(1, c - e, n); }
      assert false;
    } else if c < e {
      assert n * (e - c) >= n * 1 by { Bits.MulMonotone(1, e - c, n); }
      assert false;
    }
  }

  lemma ModSmall(x: int, n: int)
    requires 0 <= x < n
    ensures x % n == x
  {
  }

  lemma ModWrap(x: int, n: int)
    requires n <= x < 2 * n
    ensures x % n == x - n
  {
    ModShift(x - n, 1, n);
  }

  /** np.roll(ps, -2) on a table of pairs: numpy rolls the flattened table
      two values left and the loop reads it back two at a time. */
  function RollRows(ps: seq<(nat, nat)>): (r: seq<(nat, nat)>)
    requires |ps| >= 2
    ensures r == ps[1..] + [ps[0]]
  {
    RollPairs(ps);
    Unflatten(Roll(Flatten(ps), -2))
  }

  /** Rolling a flattened list of pairs two places left moves its first pair
      to the end. */
  lemma RollPairs(ps: seq<(nat, nat)>)
    requires |ps| >= 2
    ensures Unflatten(Roll(Flatten(ps), -2)) == ps[1..] + [ps[0]]
  {
    var xs := Flatten(ps);
    var n := |xs|;
    ModUnique(-2, n, -1, n - 2);
    assert Roll(xs, -2) == xs[2..] + xs[..2];
    assert xs[2..] == Flatten(ps[1..]);
    assert xs[..2] == Flatten([ps[0]]);
    FlattenAppend(ps[1..], [ps[0]]);
    UnflattenFlatten(ps[1..] + [ps[0]]);
  }

  /** Every pair moves one row up, the first one to the end. */
  lemma RollRowsAt(ps: seq<(nat, nat)>, i: nat)
    requires 2 <= |ps| && i < |ps|
    ensures |RollRows(ps)| == |ps|
    ensures RollRows(ps)[i] == ps[(i + 1) % |ps|]
  {
    if i + 1 < |ps| {
      ModSmall(i + 1, |ps|);
    } else {
      ModUnique(i + 1, |ps|, 1, 0);
    }
  }

  /** Rolling loses and repeats nothing. */
  lemma RollRowsPermutes(ps: seq<(nat, nat)>)
    requires |ps| >= 2
    ensures multiset(RollRows(ps)) == multiset(ps)
  {
    assert ps == [ps[0]] + ps[1..];
  }

  /** The order the loop reads the baselines in: it starts with (1, 1) and
      ends with (0, 0). */
  lemma RolledEnds()
    ensures |RollRows(CYCLE_POLS)| == 21
    ensures RollRows(CYCLE_POLS)[0] == (1, 1) && RollRows(CYCLE_POLS)[20] == (0, 0)
  {
  }

  // ---------------------------------------------------------------------
  // The antenna arrays

  /** The baseline pairs of three antennas, one row per spectrum. */
  const ANT1_ROW: seq<nat> := [0, 0, 0, 1, 1, 2]
  const ANT2_ROW: seq<nat> := [0, 1, 2, 1, 2, 2]

  /** np.array([row for t in range(n)]).flatten(): n copies of row. */
  function Repeat(row: seq<nat>, n: nat): (xs: seq<nat>)
    ensures |xs| == |row| * n
  {
    if n == 0 then [] else assert |row| * n == |row| * (n - 1) + |row|; Repeat(row, n - 1) + row
  }

  /** Entry i of the repeated row is entry i mod |row| of the row. */
  lemma {:induction false} RepeatAt(row: seq<nat>, n: nat, i: nat)
    requires |row| > 0
    ensures |Repeat(row, n)| == |row| * n
    ensures i < |row| * n ==> Repeat(row, n)[i] == row[i % |row|]
  {
    if n > 0 {
      RepeatAt(row, n - 1, i);
      var m := |row| * (n - 1);
      assert |row| * n == m + |row|;
      if m <= i < m + |row| {
        ModShift(i - m, n - 1, |row|);
        ModSmall(i - m, |row|);
      }
    }
  }

  /** The two arrays name, spectrum by spectrum, the six pairs a <= b of
      three antennas; every such pair is in each group of six. */
  lemma AntArrays(n: nat, i: nat)
    requires i < 6 * n
    ensures |Repeat(ANT1_ROW, n)| == |Repeat(ANT2_ROW, n)| == 6 * n
    ensures Repeat(ANT1_ROW, n)[i] == ANT1_ROW[i % 6] && Repeat(ANT2_ROW, n)[i] == ANT2_ROW[i % 6]
    ensures Repeat(ANT1_ROW, n)[i] <= Repeat(ANT2_ROW, n)[i] < 3
  {
    RepeatAt(ANT1_ROW, n, i);
    RepeatAt(ANT2_ROW, n, i);
  }

  /** Every pair a <= b of three antennas is in each group of six. */
  lemma AntRowsComplete(a: nat, b: nat)
    requires a <= b < 3
    ensures exists k :: 0 <= k < 6 && ANT1_ROW[k] == a && ANT2_ROW[k] == b
  {
    var k := if a == 0 then b else if a == 1 then b + 2 else 5;
    assert ANT1_ROW[k] == a && ANT2_ROW[k] == b;
  }

  // ---------------------------------------------------------------------
  // One bundle of spectra

  /** The calls one spectrum makes for its first i pairs: select the pair,
      then read it. */
  function SpectrumTrace(pols: seq<(nat, nat)>, i: nat): (t: seq<Command>)
    requires i <= |pols|
  {
    if i == 0 then [] else SpectrumTrace(pols, i - 1) + [InputSelect(pols[i - 1].0, pols[i - 1].1), BramRead]
  }

  /** The calls n spectra make. */
  function BundleTrace(pols: seq<(nat, nat)>, n: nat): (t: seq<Command>)
  {
    if n == 0 then [] else BundleTrace(pols, n - 1) + SpectrumTrace(pols, |pols|)
  }

  /** Call 2k of a spectrum selects pair k, and call 2k + 1 reads it. */
  lemma {:induction false} SpectrumTraceAt(pols: seq<(nat, nat)>, i: nat, k: nat)
    requires i <= |pols|
    ensures |SpectrumTrace(pols, i)| == 2 * i
    ensures k < i ==> SpectrumTrace(pols, i)[2 * k] == InputSelect(pols[k].0, pols[k].1)
    ensures k < i ==> SpectrumTrace(pols, i)[2 * k + 1] == BramRead
  {
    if i > 0 {
      SpectrumTraceAt(pols, i - 1, k);
    }
  }

  lemma {:induction false} BundleTraceLength(pols: seq<(nat, nat)>, n: nat)
    ensures |BundleTrace(pols, n)| == 2 * |pols| * n
  {
    if n > 0 {
      BundleTraceLength(pols, n - 1);
      SpectrumTraceAt(pols, |pols|, 0);
      StepProduct(2 * |pols|, n);
    }
  }

  lemma StepProduct(p: nat, n: nat)
    requires n > 0
    ensures p * n == p * (n - 1) + p
  {
  }

  /** Over a bundle the calls alternate: every even call selects the next
      pair of the reading order, cyclically, and every odd call reads the
      pair just selected. */
  lemma {:induction false} BundleTraceAt(pols: seq<(nat, nat)>, n: nat, j: nat)
    requires |pols| > 0 && j < 2 * |pols| * n
    ensures j < |BundleTrace(pols, n)|
    ensures BundleTrace(pols, n)[j] ==
      if j % 2 == 0 then InputSelect(pols[(j / 2) % |pols|].0, pols[(j / 2) % |pols|].1) else BramRead
  {
    var p := |pols|;
    BundleTraceLength(pols, n);
    BundleTraceLength(pols, n - 1);
    StepProduct(2 * p, n);
    var m := 2 * p * (n - 1);
    if j < m {
      BundleTraceAt(pols, n - 1, j);
    } else {
      var k := (j - m) / 2;
      SpectrumTraceAt(pols, p, k);
      assert BundleTrace(pols, n)[j] == SpectrumTrace(pols, p)[j - m];
      assert m == 2 * (p * (n - 1));
      ModUnique(j, 2, p * (n - 1) + k, (j - m) % 2);
      ModShift(k, n - 1, p);
      ModSmall(k, p);
    }
  }

  /** One spectrum: for each pair in order, select it, read the correlator
      and stamp the time. */
  method CollectSpectrum(corr: Correlator, pols: seq<(nat, nat)>, clock: seq<Time>)
      returns (c: seq<Readout>, times: seq<Time>)
    requires |corr.pending| >= |pols| && |clock| >= |pols|
    modifies corr
    ensures c == old(corr.pending)[..|pols|] && times == clock[..|pols|]
    ensures corr.pending == old(corr.pending)[|pols|..] && corr.accLen == old(corr.accLen)
    ensures corr.trace == old(corr.trace) + SpectrumTrace(pols, |pols|)
  {
    c, times := [], [];
    for i := 0 to |pols|
      invariant c == old(corr.pending)[..i] && times == clock[..i]
      invariant corr.pending == old(corr.pending)[i..] && corr.accLen == old(corr.accLen)
      invariant corr.trace == old(corr.trace) + SpectrumTrace(pols, i)
    {
      corr.SetInputPair(pols[i].0, pols[i].1);
      var r := corr.ReadBramNext();
      c := c + [r];
      times := times + [clock[i]];
    }
  }

  /** numSpectra spectra, each over the rolled baseline table (the script
      passes CYCLE_POLS): one record of 21 readouts per spectrum and one
      timestamp per readout. */
  method CollectBundle(corr: Correlator, cyclePols: seq<(nat, nat)>, numSpectra: nat, clock: seq<Time>)
      returns (data: seq<seq<Readout>>, times: seq<Time>)
    requires |cyclePols| == 21
    requires |corr.pending| >= 21 * numSpectra && |clock| >= 21 * numSpectra
    modifies corr
    ensures |data| == numSpectra && |times| == 21 * numSpectra
    ensures forall s :: 0 <= s < numSpectra ==> data[s] == old(corr.pending)[21 * s..21 * s + 21]
    ensures times == clock[..21 * numSpectra]
    ensures corr.pending == old(corr.pending)[21 * numSpectra..] && corr.accLen == old(corr.accLen)
    ensures corr.trace == old(corr.trace) + BundleTrace(RollRows(cyclePols), numSpectra)
  {
    data, times := [], [];
    ghost var pending0, trace0 := corr.pending, corr.trace;
    for s := 0 to numSpectra
      invariant |data| == s
      invariant forall t :: 0 <= t < s ==> data[t] == pending0[21 * t..21 * t + 21]
      invariant times == clock[..21 * s]
      invariant corr.pending == pending0[21 * s..] && corr.accLen == old(corr.accLen)
      invariant corr.trace == trace0 + BundleTrace(RollRows(cyclePols), s)
    {
      var pols := RollRows(cyclePols);
      var c, ts := CollectSpectrum(corr, pols, clock[21 * s..]);
      assert clock[..21 * s] + clock[21 * s..][..21] == clock[..21 * s + 21];
      data := data + [c];
      times := times + ts;
    }
  }

  /** With the script's table, call 2k of a bundle selects entry
      (k mod 21) + 1 of cycle_pols (mod 21), and the call after it reads. */
  lemma ScriptTraceAt(n: nat, j: nat)
    requires j < 42 * n
    ensures j < |BundleTrace(RollRows(CYCLE_POLS), n)|
    ensures var e := CYCLE_POLS[((j / 2) % 21 + 1) % 21];
      BundleTrace(RollRows(CYCLE_POLS), n)[j] == if j % 2 == 0 then InputSelect(e.0, e.1) else BramRead
  {
    var pols := RollRows(CYCLE_POLS);
    assert |pols| == 21;
    BundleTraceAt(pols, n, j);
    RollRowsAt(CYCLE_POLS, (j / 2) % 21);
  }

  /** The script up to its first file: compute the accumulation length,
      write it when it differs, select pair (0, 0), then collect one bundle
      over the baseline table (the script's is CYCLE_POLS). */
  method Acquire(corr: Correlator, cyclePols: seq<(nat, nat)>, integrationTime: int, nchans: nat,
                 specPerAcc: nat, numSpectra: nat, clock: seq<Time>)
      returns (data: seq<seq<Readout>>, times: seq<Time>)
    requires |cyclePols| == 21 && nchans > 0 && specPerAcc > 0
    requires |corr.pending| >= 21 * numSpectra && |clock| >= 21 * numSpectra
    modifies corr
    ensures var n := AccLen(integrationTime, nchans, specPerAcc);
      corr.accLen == n &&
      corr.trace == old(corr.trace) + (if old(corr.accLen) == n then [] else [AccLenWrite(n)])
        + [InputSelect(0, 0)] + BundleTrace(RollRows(cyclePols), numSpectra)
    ensures |data| == numSpectra && times == clock[..21 * numSpectra]
    ensures forall s :: 0 <= s < numSpectra ==> data[s] == old(corr.pending)[21 * s..21 * s + 21]
  {
    var accLen := AccLen(integrationTime, nchans, specPerAcc);
    Configure(corr, accLen);
    data, times := CollectBundle(corr, cyclePols, numSpectra, clock);
  }

  /** The timestamp the output file is named after, or the IndexError that
      times[0] raises on an empty bundle. */
  datatype Stamp = Stamp(t: Time) | IndexError

  function FileStamp(times: seq<Time>): (r: Stamp)
    ensures r == IndexError <==> times == []
    ensures r.Stamp? ==> r.t == times[0]
  {
    if times == [] then IndexError else Stamp(times[0])
  }

  /** A bundle is named after the first timestamp of its clock; with no
      spectra naming it fails. */
  lemma BundleStamp(numSpectra: nat, clock: seq<Time>)
    requires |clock| >= 21 * numSpectra
    ensures numSpectra == 0 ==> FileStamp(clock[..21 * numSpectra]) == IndexError
    ensures numSpectra > 0 ==> FileStamp(clock[..21 * numSpectra]) == Stamp(clock[0])
  {
  }

  // ---------------------------------------------------------------------
  // Reconnecting

  /** What one attempt to reopen the board did: it raised, it opened a
      board that is not connected, or it opened a connected board. */
  datatype Attempt = Raises | NotConnected | Connected

  /** How the reconnect loop ended: the board is back, the script gave up
      after 20 failures, or the supplied attempts ran out while it was still
      trying. */
  datatype Reconnection = Resumed | GaveUp | StillTrying

  /** The number of attempts that raised. */
  function CountRaises(xs: seq<Attempt>): (k: nat)
    ensures k <= |xs|
  {
    if xs == [] then 0 else CountRaises(xs[..|xs| - 1]) + (if xs[|xs| - 1] == Raises then 1 else 0)
  }

  /** After an interruption: wait 120 s, then retry; every attempt that
      raises costs 60 s and counts, an attempt that opens an unconnected
      board is retried at once, and the loop stops at the first connected
      board or at the 20th failure. */
  method Reconnect(attempts: seq<Attempt>) returns (outcome: Reconnection, cnt: nat, used: nat, slept: nat)
    ensures used <= |attempts| && cnt == CountRaises(attempts[..used]) && cnt <= 20
    ensures slept == 120 + 60 * cnt
    ensures forall k :: 0 <= k < used - 1 ==> attempts[k] != Connected
    ensures outcome != Resumed ==> forall k :: 0 <= k < used ==> attempts[k] != Connected
    ensures outcome == GaveUp <==> cnt == 20
    ensures outcome == GaveUp ==> attempts[used - 1] == Raises
    ensures outcome == Resumed ==> 0 < used && attempts[used - 1] == Connected
    ensures outcome == StillTrying ==> used == |attempts|
  {
    slept := 120;
    cnt, used, outcome := 0, 0, StillTrying;
    while cnt < 20 && used < |attempts|
      invariant used <= |attempts| && cnt == CountRaises(attempts[..used]) && cnt <= 20
      invariant slept == 120 + 60 * cnt
      invariant forall k :: 0 <= k < used ==> attempts[k] != Connected
      invariant cnt == 20 ==> 0 < used && attempts[used - 1] == Raises
      decreases |attempts| - used
    {
      var a := attempts[used];
      used := used + 1;
      assert attempts[..used][..used - 1] == attempts[..used - 1];
      if a == Connected {
        outcome := Resumed;
        break;
      } else if a == Raises {
        slept := slept + 60;
        cnt := cnt + 1;
      }
    }
    if outcome != Resumed && cnt >= 20 {
      outcome := GaveUp;
    }
  }
}
