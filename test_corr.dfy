/** The reference arithmetic of the correlator test: 4-bit two's-complement
    samples, the uint8 ramp test vectors, the walk over antenna pairs with
    its input-select word, the conjugate-multiply-and-sum-by-8 reference
    correlation, and the pairing of the read-back words into complex values.
    Complex values are pairs of integers. */
module TestCorr {
  import opened Bits
  import opened Packing
  import opened RegisterFile

  /** nchans = 2**13 and nstreams = 8. */
  const NCHANS: nat := 8192
  /** The test visits the pairs of the first six antennas. */
  const NANTS: nat := 6

  const NSTREAMS: nat := 8

  // ---------------------------------------------------------------------
  // 4-bit samples

  /** signed_int: subtract 16 when bit 3 (x & 0x8) is set. On a nibble this
      is the two's-complement reading: the value lies in [-8, 7], equals x
      below 8 and x - 16 from 8 on, and is congruent to x mod 16. */
  function SignedInt(x: nat): (r: int)
    ensures x < 16 ==> -8 <= r <= 7 && r == (if x < 8 then x else x - 16) && r % 16 == x
  {
    SignBit(x);
    if And(x, 8) != 0 then x - 16 else x
  }

  /** Every value in [-8, 7] is the reading of its own low four bits. */
  lemma SignedIntOfNibble(r: int)
    requires -8 <= r <= 7
    ensures 0 <= r % 16 < 16 && SignedInt(r % 16) == r
  {
    if r < 0 {
      assert r % 16 == r + 16;
    }
  }

  datatype Complex = Complex(re: int, im: int)

  function Add(a: Complex, b: Complex): Complex
  {
    Complex(a.re + b.re, a.im + b.im)
  }

  function Mul(a: Complex, b: Complex): Complex
  {
    Complex(a.re * b.re - a.im * b.im, a.re * b.im + a.im * b.re)
  }

  function Conj(a: Complex): Complex
  {
    Complex(a.re, -a.im)
  }

  /** A sample byte: signed low nibble (b & 0x0f) as the real part, signed
      high nibble (b >> 4) as the imaginary part. Both parts are 4-bit
      values and together they are the whole byte. */
  function Sample(b: Byte): (c: Complex)
    ensures -8 <= c.re <= 7 && -8 <= c.im <= 7
    ensures b == 16 * (c.im % 16) + c.re % 16
  {
    AndLowMask(b, 4);
    assert Pow2(4) == 16;
    Complex(SignedInt(And(b, 15)), SignedInt(Shr(b, 4)))
  }

  /** The byte that carries a sample with both parts in [-8, 7]. */
  function SampleByte(c: Complex): (b: Byte)
    requires -8 <= c.re <= 7 && -8 <= c.im <= 7
  {
    16 * (c.im % 16) + c.re % 16
  }

  /** Decoding the byte of a sample gives the sample back. */
  lemma SampleRoundTrip(c: Complex)
    requires -8 <= c.re <= 7 && -8 <= c.im <= 7
    ensures Sample(SampleByte(c)) == c
  {
    var b := SampleByte(c);
    var d := Sample(b);
    SignedIntOfNibble(c.re);
    SignedIntOfNibble(c.im);
    DivUnique(b, 16, c.im % 16, c.re % 16);
    DivUnique(b, 16, d.im % 16, d.re % 16);
    assert d.re % 16 == c.re % 16 && d.im % 16 == c.im % 16;
    SignedIntOfNibble(d.re);
    SignedIntOfNibble(d.im);
  }

  // ---------------------------------------------------------------------
  // Test vectors

  /** Byte i of tv: block i / NCHANS belongs to that stream, and byte k of
      stream s's block is the ramp value k + s wrapped to 8 bits. */
  function TvByte(i: nat): (b: Byte)
  {
    (i % NCHANS + i / NCHANS) % 256
  }

  /** tv[stream * nchans + k] == (k + stream) mod 256: the uint8 ramp wraps. */
  lemma TvLane(s: nat, k: nat)
    requires k < NCHANS
    ensures TvByte(s * NCHANS + k) == (k + s) % 256
  {
    DivUnique(s * NCHANS + k, NCHANS, s, k);
  }

  /** Adding to a uint8 that already wrapped wraps the same way. */
  lemma WrapAdd(k: nat, s: nat)
    ensures (k % 256 + s) % 256 == (k + s) % 256
  {
    DivUnique(k, 256, k / 256, k % 256);
    var q := (k % 256 + s) / 256;
    DivUnique(k + s, 256, k / 256 + q, (k % 256 + s) % 256);
  }

  /** The tv array: zeros, then each stream's slice assigned ramp + stream,
      where ramp = arange(nchans) as uint8. */
  method BuildTv() returns (tv: array<Byte>)
    ensures fresh(tv) && tv.Length == NCHANS * NSTREAMS
    ensures forall i :: 0 <= i < tv.Length ==> tv[i] == TvByte(i)
  {
    tv := new Byte[NCHANS * NSTREAMS](_ => 0);
    for stream := 0 to NSTREAMS
      invariant forall i :: 0 <= i < stream * NCHANS ==> tv[i] == TvByte(i)
    {
      forall k | 0 <= k < NCHANS {
        tv[stream * NCHANS + k] := (k % 256 + stream) % 256;
      }
      forall i | stream * NCHANS <= i < (stream + 1) * NCHANS
        ensures tv[i] == TvByte(i)
      {
        var k := i - stream * NCHANS;
        assert tv[stream * NCHANS + k] == (k % 256 + stream) % 256;
        TvLane(stream, k);
        WrapAdd(k, stream);
      }
    }
  }

  /** Write tv to the 'tv' memory, then 'sync_period' = 8192 * 32 and
      'corr_0_acc_len' = 8192. */
  method WriteTestVectors(snap: Host) returns (tv: seq<Byte>)
    modifies snap
    ensures |tv| == NCHANS * NSTREAMS
    ensures forall i :: 0 <= i < |tv| ==> tv[i] == TvByte(i)
    ensures snap.mems == old(snap.mems)["tv" := Overwrite(old(snap.Mem("tv")), tv)]
    ensures snap.regs == old(snap.regs)["sync_period" := 8192 * 32]["corr_0_acc_len" := 8192]
    ensures snap.log == old(snap.log) + [BytesWrite("tv", tv), WordWrite("sync_period", 8192 * 32),
      WordWrite("corr_0_acc_len", 8192)]
  {
    var arr := BuildTv();
    tv := arr[..];
    snap.Write("tv", tv);
    snap.WriteInt("sync_period", 8192 * 32);
    snap.WriteInt("corr_0_acc_len", 8192);
  }

  // ---------------------------------------------------------------------
  // Antenna pairs

  /** (ant1 << 8) + ant2, the 'corr_0_input_sel' word. */
  function InputSel(a: nat, b: nat): (sel: nat)
    ensures a < 256 && b < 256 ==> sel < 0x1_0000
  {
    assert Pow2(8) == 256;
    Shl(a, 8) + b
  }

  /** The word names its pair: ant1 is the high byte and ant2 the low byte. */
  lemma InputSelRoundTrip(a: nat, b: nat)
    requires b < 256
    ensures InputSel(a, b) / 256 == a && InputSel(a, b) % 256 == b
  {
    assert Pow2(8) == 256;
    DivUnique(InputSel(a, b), 256, a, b);
  }

  /** The inner loop for ant1 = a: ant2 runs from a up to 5. */
  function Row(a: nat): (ps: seq<(nat, nat)>)
    requires a <= 6
    ensures |ps| == 6 - a
    ensures forall j :: 0 <= j < |ps| ==> ps[j] == (a, a + j)
  {
    seq(6 - a, j requires 0 <= j < 6 - a => (a, a + j))
  }

  /** The pairs the nested loops visit for ant1 < n, in order. */
  function Rows(n: nat): seq<(nat, nat)>
    requires n <= 6
  {
    if n == 0 then [] else Rows(n - 1) + Row(n - 1)
  }

  /** Every pair (ant1, ant2) the two loops of the test visit, in order. */
  function AllPairs(): (ps: seq<(nat, nat)>)
    ensures forall i :: 0 <= i < |ps| ==> ps[i].0 <= ps[i].1 < 6
  {
    RowsInRange(6);
    Rows(6)
  }

  lemma {:induction false} RowsInRange(n: nat)
    requires n <= 6
    ensures forall i :: 0 <= i < |Rows(n)| ==> Rows(n)[i].0 < n && Rows(n)[i].0 <= Rows(n)[i].1 < 6
  {
    if n > 0 {
      RowsInRange(n - 1);
    }
  }

  lemma {:induction false} RowsComplete(n: nat, a: nat, b: nat)
    requires n <= 6 && a < n && a <= b < 6
    ensures (a, b) in Rows(n)
  {
    if a == n - 1 {
      assert Row(a)[b - a] == (a, b);
      assert Rows(n)[|Rows(n - 1)| + (b - a)] == (a, b);
    } else {
      RowsComplete(n - 1, a, b);
    }
  }

  lemma {:induction false} RowsOrdered(n: nat)
    requires n <= 6
    ensures forall i, j :: 0 <= i < j < |Rows(n)| ==>
      InputSel(Rows(n)[i].0, Rows(n)[i].1) < InputSel(Rows(n)[j].0, Rows(n)[j].1)
  {
    assert Pow2(8) == 256;
    if n > 0 {
      RowsOrdered(n - 1);
      RowsInRange(n - 1);
    }
  }

  /** The loops visit exactly the 21 pairs ant1 <= ant2 < 6, each once, in
      strictly increasing input-select order (lexicographic order). */
  lemma AllPairsFacts()
    ensures |AllPairs()| == 21
    ensures forall a: nat, b: nat :: a <= b < 6 ==> (a, b) in AllPairs()
    ensures forall i, j :: 0 <= i < j < 21 ==>
      InputSel(AllPairs()[i].0, AllPairs()[i].1) < InputSel(AllPairs()[j].0, AllPairs()[j].1)
  {
    assert |Rows(6)| == 21;
    RowsInRange(6);
    RowsOrdered(6);
    forall a: nat, b: nat | a <= b < 6 ensures (a, b) in AllPairs() {
      RowsComplete(6, a, b);
    }
  }

  // ---------------------------------------------------------------------
  // Reference correlation

  /** The samples of the bytes bs. */
  function Samples(bs: seq<Byte>): (cs: seq<Complex>)
    ensures |cs| == |bs| && forall k :: 0 <= k < |bs| ==> cs[k] == Sample(bs[k])
  {
    seq(|bs|, k requires 0 <= k < |bs| => Sample(bs[k]))
  }

  /** tv[ant * nchans:(ant + 1) * nchans] decoded sample by sample. */
  function Pol(tv: seq<Byte>, ant: nat): (p: seq<Complex>)
    requires (ant + 1) * NCHANS <= |tv|
    ensures |p| == NCHANS
  {
    Samples(tv[ant * NCHANS..(ant + 1) * NCHANS])
  }

  /** sum over i of xs[i] * conj(ys[i]). A signal times its own conjugate
      sums to a non-negative real. */
  function DotConj(xs: seq<Complex>, ys: seq<Complex>): (r: Complex)
    requires |xs| == |ys|
    ensures xs == ys ==> r.im == 0 && r.re >= 0
  {
    if xs == [] then Complex(0, 0)
    else
      var a := xs[0];
      assert xs == ys ==> a.re * a.re >= 0 && a.im * a.im >= 0 && a.re * (-a.im) + a.im * a.re == 0;
      Add(Mul(xs[0], Conj(ys[0])), DotConj(xs[1..], ys[1..]))
  }

  /** sum((pol1 * conj(pol2)).reshape(-1, 8), axis=1): entry j is the
      conjugate products of channels 8j .. 8j + 7 summed. */
  function CorrTest(p1: seq<Complex>, p2: seq<Complex>): (r: seq<Complex>)
    requires |p1| == |p2| && |p1| % 8 == 0
    ensures |r| == |p1| / 8
  {
    seq(|p1| / 8, j requires 0 <= j < |p1| / 8 => DotConj(p1[8 * j..8 * j + 8], p2[8 * j..8 * j + 8]))
  }

  /** Swapping the two signals conjugates the sum. */
  lemma {:induction false} DotConjSwap(xs: seq<Complex>, ys: seq<Complex>)
    requires |xs| == |ys|
    ensures DotConj(ys, xs) == Conj(DotConj(xs, ys))
  {
    if xs != [] {
      DotConjSwap(xs[1..], ys[1..]);
      var a, b := xs[0], ys[0];
      assert b.re * (-a.im) + b.im * a.re == -(a.re * (-b.im) + a.im * b.re);
      assert b.re * a.re - b.im * (-a.im) == a.re * b.re - a.im * (-b.im);
    }
  }

  /** An autocorrelation (ant1 == ant2) is real and non-negative in every
      group, and swapping the antennas conjugates every group. */
  lemma CorrTestSymmetry(p1: seq<Complex>, p2: seq<Complex>, j: nat)
    requires |p1| == |p2| && |p1| % 8 == 0 && j < |p1| / 8
    ensures CorrTest(p1, p1)[j].im == 0 && CorrTest(p1, p1)[j].re >= 0
    ensures CorrTest(p2, p1)[j] == Conj(CorrTest(p1, p2)[j])
  {
    DotConjSwap(p1[8 * j..8 * j + 8], p2[8 * j..8 * j + 8]);
  }

  // ---------------------------------------------------------------------
  // Read-back

  /** corr_bram[::2] + 1j * corr_bram[1::2]: even words are real parts and
      odd words imaginary parts. */
  function Pairing(ws: seq<int>): (cs: seq<Complex>)
    ensures |cs| == |ws| / 2
    ensures forall i :: 0 <= i < |cs| ==> cs[i] == Complex(ws[2 * i], ws[2 * i + 1])
    decreases |ws|
  {
    if |ws| < 2 then [] else [Complex(ws[0], ws[1])] + Pairing(ws[2..])
  }

  /** The words that lay complex values out as real, imaginary, ... */
  function Interleave(cs: seq<Complex>): (ws: seq<int>)
    ensures |ws| == 2 * |cs|
  {
    if cs == [] then [] else [cs[0].re, cs[0].im] + Interleave(cs[1..])
  }

  lemma {:induction false} PairingInterleave(cs: seq<Complex>)
    ensures Pairing(Interleave(cs)) == cs
  {
    if cs != [] {
      assert Interleave(cs)[2..] == Interleave(cs[1..]);
      PairingInterleave(cs[1..]);
    }
  }

  /** The signed 32-bit big-endian value of four bytes. */
  function Word32(bs: seq<Byte>): (x: int)
    requires |bs| == 4
    ensures -0x8000_0000 <= x < 0x8000_0000 && x % 0x1_0000_0000 == DecodeBE(bs)
  {
    Pow256Table();
    Signed(DecodeBE(bs))
  }

  /** The correlator's output as the test reads it: the first 8 * 1024 bytes
      of 'corr_0_dout' as 1024 complex values, value i having its real part
      in bytes 8i .. 8i + 3 and its imaginary part in bytes 8i + 4 .. 8i + 7,
      each a signed 32-bit big-endian word. */
  function Measured(dout: seq<Byte>): (cs: seq<Complex>)
    ensures |cs| == 1024
  {
    var bs := Prefix(dout, 8 * 1024);
    seq(1024, i requires 0 <= i < 1024 => Complex(Word32(bs[8 * i..8 * i + 4]), Word32(bs[8 * i + 4..8 * i + 8])))
  }

  /** What the test computes for one pair: the reference correlation of the
      two antennas' samples and the correlator's read-back. */
  datatype PairResult = PairResult(ant1: nat, ant2: nat, test: seq<Complex>, measured: seq<Complex>)

  /** corr_test for antennas a and b. */
  function Reference(tv: seq<Byte>, a: nat, b: nat): (r: seq<Complex>)
    requires a < NSTREAMS && b < NSTREAMS && |tv| == NCHANS * NSTREAMS
    ensures |r| == NCHANS / 8
  {
    CorrTest(Pol(tv, a), Pol(tv, b))
  }

  /** The correlator's output for each selected pair: what it has put in
      'corr_0_dout' once it has settled on that pair. */
  type Output = ((nat, nat)) -> seq<Byte>

  /** The result for pair p: its reference correlation and the read-back of
      the correlator's output for p. */
  function ResultFor(p: (nat, nat), tv: seq<Byte>, output: Output): PairResult
    requires p.0 < NSTREAMS && p.1 < NSTREAMS && |tv| == NCHANS * NSTREAMS
  {
    PairResult(p.0, p.1, Reference(tv, p.0, p.1), Measured(output(p)))
  }

  /** Read 8 * 1024 bytes of 'corr_0_dout' and pair the 2048 signed words. */
  method ReadCorr(snap: Host) returns (corr: seq<Complex>)
    ensures corr == Measured(snap.Mem("corr_0_dout"))
  {
    var bram := snap.Read("corr_0_dout", 8 * 1024);
    UnpackLength(bram, 4, 2048);
    var words := UnpackSigned32(bram);
    corr := Pairing(words);
    forall i | 0 <= i < 1024
      ensures corr[i] == Measured(snap.Mem("corr_0_dout"))[i]
    {
      UnpackWordAt(bram, 2 * i);
      UnpackWordAt(bram, 2 * i + 1);
      assert words[2 * i] == Word32(bram[8 * i..8 * i + 4]);
      assert words[2 * i + 1] == Word32(bram[8 * i + 4..8 * i + 8]);
    }
  }

  /** The write that selects the pair (a, b). */
  function SelWrite(a: nat, b: nat): Access
    requires a < 6 && b < 6
  {
    WordWrite("corr_0_input_sel", InputSel(a, b))
  }

  /** What the test holds for ant1 = a after the first k values of ant2. */
  function RowResults(a: nat, k: nat, tv: seq<Byte>, output: Output): (rs: seq<PairResult>)
    requires a < 6 && a + k <= 6 && |tv| == NCHANS * NSTREAMS
    ensures |rs| == k
  {
    if k == 0 then [] else RowResults(a, k - 1, tv, output) + [ResultFor((a, a + k - 1), tv, output)]
  }

  /** The selects issued for ant1 = a during the first k values of ant2. */
  function RowSels(a: nat, k: nat): (log: seq<Access>)
    requires a < 6 && a + k <= 6
    ensures |log| == k
  {
    if k == 0 then [] else RowSels(a, k - 1) + [SelWrite(a, a + k - 1)]
  }

  /** What the test holds after the rows ant1 < n. */
  function SurveyResults(n: nat, tv: seq<Byte>, output: Output): (rs: seq<PairResult>)
    requires n <= 6 && |tv| == NCHANS * NSTREAMS
    ensures |rs| == |Rows(n)|
  {
    if n == 0 then [] else SurveyResults(n - 1, tv, output) + RowResults(n - 1, 7 - n, tv, output)
  }

  /** The selects issued during the rows ant1 < n. */
  function SurveySels(n: nat): (log: seq<Access>)
    requires n <= 6
    ensures |log| == |Rows(n)|
  {
    if n == 0 then [] else SurveySels(n - 1) + RowSels(n - 1, 7 - n)
  }

  lemma RowStep(a: nat, b: nat, tv: seq<Byte>, output: Output)
    requires a <= b < 6 && |tv| == NCHANS * NSTREAMS
    ensures RowResults(a, b + 1 - a, tv, output) == RowResults(a, b - a, tv, output) + [ResultFor((a, b), tv, output)]
    ensures RowSels(a, b + 1 - a) == RowSels(a, b - a) + [SelWrite(a, b)]
  {
  }

  lemma SurveyStep(n: nat, tv: seq<Byte>, output: Output)
    requires n < 6 && |tv| == NCHANS * NSTREAMS
    ensures SurveyResults(n + 1, tv, output) == SurveyResults(n, tv, output) + RowResults(n, 6 - n, tv, output)
    ensures SurveySels(n + 1) == SurveySels(n) + RowSels(n, 6 - n)
  {
  }

  /** The memories after the rows ant1 < n: 'corr_0_dout' holds the
      output for the last pair of the last row. */
  function SurveyMems(mems0: map<string, seq<Byte>>, n: nat, output: Output): map<string, seq<Byte>>
  {
    if n == 0 then mems0 else mems0["corr_0_dout" := output((n - 1, 5))]
  }

  /** The registers after the rows ant1 < n: the last row's last select. */
  function SurveyRegs(regs0: map<string, Word>, n: nat): map<string, Word>
    requires n <= 6
  {
    if n == 0 then regs0 else regs0["corr_0_input_sel" := InputSel(n - 1, 5)]
  }

  /** How one pass of the inner loop carries the outer loop's state forward. */
  lemma SurveyInvariant(ant1: nat, tv: seq<Byte>, output: Output, results: seq<PairResult>, row: seq<PairResult>,
                        log0: seq<Access>, log: seq<Access>, regs0: map<string, Word>, mems0: map<string, seq<Byte>>)
    requires ant1 < NANTS && |tv| == NCHANS * NSTREAMS
    requires results == SurveyResults(ant1, tv, output) && row == RowResults(ant1, 6 - ant1, tv, output)
    requires log == log0 + SurveySels(ant1)
    ensures results + row == SurveyResults(ant1 + 1, tv, output)
    ensures log + RowSels(ant1, 6 - ant1) == log0 + SurveySels(ant1 + 1)
    ensures SurveyRegs(regs0, ant1)["corr_0_input_sel" := InputSel(ant1, 5)] == SurveyRegs(regs0, ant1 + 1)
    ensures SurveyMems(mems0, ant1, output)["corr_0_dout" := output((ant1, 5))] == SurveyMems(mems0, ant1 + 1, output)
  {
    SurveyStep(ant1, tv, output);
    if ant1 > 0 {
      UpdateTwice(regs0, "corr_0_input_sel", InputSel(ant1 - 1, 5), InputSel(ant1, 5));
      UpdateTwice(mems0, "corr_0_dout", output((ant1 - 1, 5)), output((ant1, 5)));
    }
    AppendAssoc(log0, SurveySels(ant1), RowSels(ant1, 6 - ant1));
  }

  /** The memories after the first k visits of row a: 'corr_0_dout' holds
      the output for the last pair visited. */
  function RowMems(mems0: map<string, seq<Byte>>, a: nat, k: nat, output: Output): map<string, seq<Byte>>
  {
    if k == 0 then mems0 else mems0["corr_0_dout" := output((a, a + k - 1))]
  }

  /** The registers after the first k visits of row a: the last select. */
  function RowRegs(regs0: map<string, Word>, a: nat, k: nat): map<string, Word>
    requires a < 6 && a + k <= 6
  {
    if k == 0 then regs0 else regs0["corr_0_input_sel" := InputSel(a, a + k - 1)]
  }

  /** One more visit replaces the select and the output. */
  lemma {:induction false} RowStateStep(a: nat, k: nat, output: Output, regs0: map<string, Word>, mems0: map<string, seq<Byte>>)
    requires a < 6 && a + k < 6
    ensures RowRegs(regs0, a, k)["corr_0_input_sel" := InputSel(a, a + k)] == RowRegs(regs0, a, k + 1)
    ensures RowMems(mems0, a, k, output)["corr_0_dout" := output((a, a + k))] == RowMems(mems0, a, k + 1, output)
  {
    if k > 0 {
      UpdateTwice(regs0, "corr_0_input_sel", InputSel(a, a + k - 1), InputSel(a, a + k));
      UpdateTwice(mems0, "corr_0_dout", output((a, a + k - 1)), output((a, a + k)));
    }
  }

  lemma {:induction false} RowAt(a: nat, k: nat, tv: seq<Byte>, output: Output, j: nat)
    requires a < 6 && a + k <= 6 && |tv| == NCHANS * NSTREAMS && j < k
    ensures RowResults(a, k, tv, output)[j] == ResultFor((a, a + j), tv, output)
  {
    if j < k - 1 {
      RowAt(a, k - 1, tv, output, j);
    }
  }

  lemma {:induction false} RowSelAt(a: nat, k: nat, j: nat)
    requires a < 6 && a + k <= 6 && j < k
    ensures RowSels(a, k)[j] == SelWrite(a, a + j)
  {
    if j < k - 1 {
      RowSelAt(a, k - 1, j);
    }
  }

  lemma {:induction false} SurveyAt(n: nat, tv: seq<Byte>, output: Output, i: nat)
    requires n <= 6 && |tv| == NCHANS * NSTREAMS && i < |Rows(n)|
    ensures Rows(n)[i].0 < 6 && Rows(n)[i].1 < 6
    ensures SurveyResults(n, tv, output)[i] == ResultFor(Rows(n)[i], tv, output)
  {
    RowsInRange(n);
    var before := |Rows(n - 1)|;
    if i < before {
      SurveyAt(n - 1, tv, output, i);
    } else {
      RowAt(n - 1, 7 - n, tv, output, i - before);
    }
  }

  lemma {:induction false} SurveySelAt(n: nat, i: nat)
    requires n <= 6 && i < |Rows(n)|
    ensures Rows(n)[i].0 < 6 && Rows(n)[i].1 < 6
    ensures SurveySels(n)[i] == SelWrite(Rows(n)[i].0, Rows(n)[i].1)
  {
    RowsInRange(n);
    var before := |Rows(n - 1)|;
    if i < before {
      SurveySelAt(n - 1, i);
    } else {
      RowSelAt(n - 1, 7 - n, i - before);
    }
  }

  /** After all six rows the survey holds one result per pair, for the pairs
      in the order the loops visit them. */
  lemma SurveyResultsShape(tv: seq<Byte>, output: Output, i: nat)
    requires |tv| == NCHANS * NSTREAMS && i < 21
    ensures |SurveyResults(NANTS, tv, output)| == 21
    ensures SurveyResults(NANTS, tv, output)[i] ==
      PairResult(AllPairs()[i].0, AllPairs()[i].1, Reference(tv, AllPairs()[i].0, AllPairs()[i].1), Measured(output(AllPairs()[i])))
  {
    assert |Rows(NANTS)| == 21;
    SurveyAt(NANTS, tv, output, i);
  }

  /** ... and has issued one select per pair, in the same order; the select
      for pair (a, b) writes a * 256 + b. */
  lemma SurveySelsShape(i: nat)
    requires i < 21
    ensures |SurveySels(NANTS)| == 21
    ensures SurveySels(NANTS)[i] == WordWrite("corr_0_input_sel", AllPairs()[i].0 * 256 + AllPairs()[i].1)
  {
    assert |Rows(NANTS)| == 21;
    SurveySelAt(NANTS, i);
    assert Pow2(8) == 256;
  }

  /** The pair loop: for every pair, in order, select it, let the
      correlator publish its output for that pair, compute the reference
      correlation, and read the 1024 complex values back. */
  method Survey(snap: Host, tv: seq<Byte>, output: Output) returns (results: seq<PairResult>)
    requires |tv| == NCHANS * NSTREAMS
    modifies snap
    ensures results == SurveyResults(NANTS, tv, output)
    ensures snap.log == old(snap.log) + SurveySels(NANTS)
    ensures snap.regs == old(snap.regs)["corr_0_input_sel" := InputSel(5, 5)]
    ensures snap.mems == old(snap.mems)["corr_0_dout" := output((5, 5))]
  {
    ghost var log0, regs0, mems0 := snap.log, snap.regs, snap.mems;
    results := [];
    for ant1 := 0 to NANTS
      invariant results == SurveyResults(ant1, tv, output)
      invariant snap.log == log0 + SurveySels(ant1)
      invariant snap.mems == SurveyMems(mems0, ant1, output)
      invariant snap.regs == SurveyRegs(regs0, ant1)
    {
      ghost var log := snap.log;
      var row := SurveyRow(snap, tv, ant1, output);
      SurveyInvariant(ant1, tv, output, results, row, log0, log, regs0, mems0);
      results := results + row;
    }
  }

  /** One pass of the inner loop: ant2 from ant1 up to 5. */
  method SurveyRow(snap: Host, tv: seq<Byte>, ant1: nat, output: Output) returns (row: seq<PairResult>)
    requires |tv| == NCHANS * NSTREAMS && ant1 < 6
    modifies snap
    ensures row == RowResults(ant1, 6 - ant1, tv, output)
    ensures snap.log == old(snap.log) + RowSels(ant1, 6 - ant1)
    ensures snap.regs == old(snap.regs)["corr_0_input_sel" := InputSel(ant1, 5)]
    ensures snap.mems == old(snap.mems)["corr_0_dout" := output((ant1, 5))]
  {
    ghost var log0, regs0, mems0 := snap.log, snap.regs, snap.mems;
    row := [];
    for ant2 := ant1 to 6
      invariant row == RowResults(ant1, ant2 - ant1, tv, output)
      invariant snap.log == log0 + RowSels(ant1, ant2 - ant1)
      invariant snap.mems == RowMems(mems0, ant1, ant2 - ant1, output)
      invariant snap.regs == RowRegs(regs0, ant1, ant2 - ant1)
    {
      var res := VisitPair(snap, tv, ant1, ant2, output);
      RowStateStep(ant1, ant2 - ant1, output, regs0, mems0);
      RowStep(ant1, ant2, tv, output);
      AppendAssoc(log0, RowSels(ant1, ant2 - ant1), [SelWrite(ant1, ant2)]);
      row := row + [res];
    }
  }

  /** The loop body: select the pair; during the pause that follows the
      correlator publishes its output for that pair; compute the reference
      correlation and read the output back. */
  method VisitPair(snap: Host, tv: seq<Byte>, ant1: nat, ant2: nat, output: Output) returns (res: PairResult)
    requires |tv| == NCHANS * NSTREAMS && ant1 < 6 && ant2 < 6
    modifies snap
    ensures res == ResultFor((ant1, ant2), tv, output)
    ensures snap.log == old(snap.log) + [SelWrite(ant1, ant2)]
    ensures snap.regs == old(snap.regs)["corr_0_input_sel" := InputSel(ant1, ant2)]
    ensures snap.mems == old(snap.mems)["corr_0_dout" := output((ant1, ant2))]
  {
    snap.WriteInt("corr_0_input_sel", InputSel(ant1, ant2));
    snap.DeviceStore("corr_0_dout", output((ant1, ant2)));
    var test := Reference(tv, ant1, ant2);
    var corr := ReadCorr(snap);
    res := PairResult(ant1, ant2, test, corr);
  }
}
