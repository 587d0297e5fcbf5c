/** The register-level blocks of the SNAP F-engine. Every block owns the
    registers whose names start with its name and '_', and drives them
    through the accessors of Block over a shared register file (Host). */
module SnapFengine {
  import opened Bits
  import opened Packing
  import opened Format
  import opened RegisterFile

  datatype Option<T> = None | Some(value: T)

  /** How an operation ended: it did its work, it logged an error (and, where
      the code goes on regardless, still did it), it raised
      NotImplementedError, or struct.pack raised on a value that does not fit. */
  datatype Outcome = Ok | LoggedError | NotImplemented | PackError

  // ---------------------------------------------------------------------
  // Block

  /** A named block: its registers are `prefix + reg` on the host. The
      accessors of the code call a global `host` that is never defined;
      here they go to the block's own host, which is evidently meant. */
  class Block {
    const host: Host
    const name: string
    const prefix: string := name + "_"

    constructor (host: Host, name: string)
      ensures this.host == host && this.name == name
    {
      this.host := host;
      this.name := name;
    }

    method ReadInt(reg: string) returns (i: int)
      ensures i == Signed(host.Reg(prefix + reg))
    {
      i := host.ReadInt(prefix + reg);
    }

    method WriteInt(reg: string, v: Word)
      modifies host
      ensures host.regs == old(host.regs)[prefix + reg := v]
      ensures host.mems == old(host.mems)
      ensures host.log == old(host.log) + [WordWrite(prefix + reg, v)]
    {
      host.WriteInt(prefix + reg, v);
    }

    method ReadUint(reg: string) returns (w: Word)
      ensures w == host.Reg(prefix + reg)
    {
      w := host.ReadUint(prefix + reg);
    }

    /** write_uint goes through the host's write_int, like write_int. */
    method WriteUint(reg: string, v: Word)
      modifies host
      ensures host.regs == old(host.regs)[prefix + reg := v]
      ensures host.mems == old(host.mems)
      ensures host.log == old(host.log) + [WordWrite(prefix + reg, v)]
    {
      host.WriteInt(prefix + reg, v);
    }

    method Read(reg: string, nbytes: nat) returns (bs: seq<Byte>)
      ensures bs == Prefix(host.Mem(prefix + reg), nbytes)
    {
      bs := host.Read(prefix + reg, nbytes);
    }

    method Write(reg: string, data: seq<Byte>)
      modifies host
      ensures host.mems == old(host.mems)[prefix + reg := Overwrite(old(host.Mem(prefix + reg)), data)]
      ensures host.regs == old(host.regs)
      ensures host.log == old(host.log) + [BytesWrite(prefix + reg, data)]
    {
      host.Write(prefix + reg, data);
    }

    method Blindwrite(reg: string, data: seq<Byte>)
      modifies host
      ensures host.mems == old(host.mems)[prefix + reg := Overwrite(old(host.Mem(prefix + reg)), data)]
      ensures host.regs == old(host.regs)
      ensures host.log == old(host.log) + [BlindWrite(prefix + reg, data)]
    {
      host.Blindwrite(prefix + reg, data);
    }

    /** change_reg_bits: read the register, clear the field [start,
        start + width) with the mask (2^32 - 1) - ((2^width - 1) << start),
        add val << start, and write the word back. Only that register
        changes, and by one write. */
    method ChangeRegBits(reg: string, val: nat, start: nat, width: nat)
      requires start + width <= 32
      requires val < Pow2(width)
      modifies host
      ensures host.regs == old(host.regs)[prefix + reg := ChangeBits(old(host.Reg(prefix + reg)), val, start, width)]
      ensures host.mems == old(host.mems)
      ensures host.log == old(host.log) + [WordWrite(prefix + reg, ChangeBits(old(host.Reg(prefix + reg)), val, start, width))]
    {
      var origVal := ReadUint(reg);
      var mask := 0xFFFF_FFFF - FieldMask(start, width);
      assert mask == KeepMask(start, width);
      var newVal := And(origVal, mask) + Shl(val, start);
      assert newVal == ChangeBits(origVal, val, start, width);
      WriteInt(reg, newVal);
    }
  }

  // ---------------------------------------------------------------------
  // Sync

  /** Control bits of the sync block's 'arm' register. */
  const ARM_SYNC: nat := Shl(1, 0)
  const ARM_NOISE: nat := Shl(1, 1)
  const SW_SYNC: nat := Shl(1, 4)

  /** The three words a pulse writes to 'arm': the current value kept to
      the other control bits, the same with the target bit added, and the
      first again. */
  function PulseWords(curr: Word, others: nat, target: nat): (ws: seq<Word>)
    requires others < 64 && target < 64
    ensures |ws| == 3 && ws[0] == ws[2]
  {
    var base := And(curr, others);
    [base, Or(base, target), base]
  }

  /** A pulse on control bit t, keeping control bits u and v: the middle
      word is the first plus the target bit; the register is left with the
      target bit clear, bits u and v as they were, and every bit outside the
      three control bits clear. */
  lemma PulseFacts(curr: Word, t: nat, u: nat, v: nat)
    requires t < 5 && u < 5 && v < 5 && t != u && t != v && u != v
    ensures Or(Shl(1, u), Shl(1, v)) < 64 && Shl(1, t) < 64
    ensures var ws := PulseWords(curr, Or(Shl(1, u), Shl(1, v)), Shl(1, t));
      && ws[1] == ws[0] + Shl(1, t)
      && Bit(ws[1], t) == 1 && Bit(ws[2], t) == 0
      && Bit(ws[2], u) == Bit(curr, u) && Bit(ws[2], v) == Bit(curr, v)
      && forall i :: 0 <= i < 32 && i != t && i != u && i != v ==> Bit(ws[1], i) == 0 && Bit(ws[2], i) == 0
  {
    Pow2Monotone(u, 4);
    Pow2Monotone(v, 4);
    Pow2Monotone(t, 4);
    assert Pow2(4) == 16;
    var others, target := Or(Shl(1, u), Shl(1, v)), Shl(1, t);
    var base := And(curr, others);
    forall i | 0 <= i
      ensures Bit(base, i) == if (i == u || i == v) then Bit(curr, i) else 0
      ensures Bit(target, i) == if i == t then 1 else 0
    {
      BitAnd(curr, others, i);
      BitOr(Shl(1, u), Shl(1, v), i);
      BitOfPow2(u, i);
      BitOfPow2(v, i);
      BitOfPow2(t, i);
    }
    Pow2Monotone(6, 32);
    assert Pow2(6) == 64;
    NoCommonBits(base, target, 32);
    OrDisjoint(base, target);
    forall i | 0 <= i ensures Bit(Or(base, target), i) == if i == t then 1 else Bit(base, i) {
      BitOr(base, target, i);
    }
  }

  class Sync {
    const blk: Block

    constructor (host: Host, name: string)
      ensures blk.host == host && blk.prefix == name + "_"
    {
      blk := new Block(host, name);
    }

    /** The raw 'uptime' counter (the value read, not converted to seconds). */
    method Uptime() returns (t: Word)
      ensures t == blk.host.Reg(blk.prefix + "uptime")
    {
      t := blk.ReadUint("uptime");
    }

    method Period() returns (p: Word)
      ensures p == blk.host.Reg(blk.prefix + "period")
    {
      p := blk.ReadUint("period");
    }

    method Count() returns (c: Word)
      ensures c == blk.host.Reg(blk.prefix + "count")
    {
      c := blk.ReadUint("count");
    }

    /** Read 'arm' as a signed value, then write exactly three words to it. */
    method Pulse(others: nat, target: nat)
      requires others < 64 && target < 64
      modifies blk.host
      ensures var ws := PulseWords(old(blk.host.Reg(blk.prefix + "arm")), others, target);
        && blk.host.regs == old(blk.host.regs)[blk.prefix + "arm" := ws[2]]
        && blk.host.mems == old(blk.host.mems)
        && blk.host.log == old(blk.host.log) + [WordWrite(blk.prefix + "arm", ws[0]), WordWrite(blk.prefix + "arm", ws[1]), WordWrite(blk.prefix + "arm", ws[2])]
    {
      ghost var w := blk.host.Reg(blk.prefix + "arm");
      var curr := blk.ReadInt("arm");
      // curr & mask on the signed value sees the register's 32 bits
      var base := AndSigned(curr, others);
      assert base == And(w, others);
      blk.WriteInt("arm", base);
      blk.WriteInt("arm", Or(base, target));
      blk.WriteInt("arm", base);
    }

    /** arm_sync: pulse ARM_SYNC keeping SW_SYNC and ARM_NOISE. */
    method ArmSync()
      modifies blk.host
      ensures var ws := PulseWords(old(blk.host.Reg(blk.prefix + "arm")), Or(SW_SYNC, ARM_NOISE), ARM_SYNC);
        && blk.host.regs == old(blk.host.regs)[blk.prefix + "arm" := ws[2]]
        && blk.host.mems == old(blk.host.mems)
        && blk.host.log == old(blk.host.log) + [WordWrite(blk.prefix + "arm", ws[0]), WordWrite(blk.prefix + "arm", ws[1]), WordWrite(blk.prefix + "arm", ws[2])]
    {
      PulseFacts(0, 0, 4, 1);
      Pulse(Or(SW_SYNC, ARM_NOISE), ARM_SYNC);
    }

    /** arm_noise: pulse ARM_NOISE keeping SW_SYNC and ARM_SYNC. */
    method ArmNoise()
      modifies blk.host
      ensures var ws := PulseWords(old(blk.host.Reg(blk.prefix + "arm")), Or(SW_SYNC, ARM_SYNC), ARM_NOISE);
        && blk.host.regs == old(blk.host.regs)[blk.prefix + "arm" := ws[2]]
        && blk.host.mems == old(blk.host.mems)
        && blk.host.log == old(blk.host.log) + [WordWrite(blk.prefix + "arm", ws[0]), WordWrite(blk.prefix + "arm", ws[1]), WordWrite(blk.prefix + "arm", ws[2])]
    {
      PulseFacts(0, 1, 4, 0);
      Pulse(Or(SW_SYNC, ARM_SYNC), ARM_NOISE);
    }

    /** sw_sync: pulse SW_SYNC keeping ARM_NOISE and ARM_SYNC. */
    method SwSync()
      modifies blk.host
      ensures var ws := PulseWords(old(blk.host.Reg(blk.prefix + "arm")), Or(ARM_NOISE, ARM_SYNC), SW_SYNC);
        && blk.host.regs == old(blk.host.regs)[blk.prefix + "arm" := ws[2]]
        && blk.host.mems == old(blk.host.mems)
        && blk.host.log == old(blk.host.log) + [WordWrite(blk.prefix + "arm", ws[0]), WordWrite(blk.prefix + "arm", ws[1]), WordWrite(blk.prefix + "arm", ws[2])]
    {
      PulseFacts(0, 4, 1, 0);
      Pulse(Or(ARM_NOISE, ARM_SYNC), SW_SYNC);
    }

    method Initialize()
      modifies blk.host
      ensures blk.host.regs == old(blk.host.regs)[blk.prefix + "arm" := 0]
      ensures blk.host.mems == old(blk.host.mems)
      ensures blk.host.log == old(blk.host.log) + [WordWrite(blk.prefix + "arm", 0)]
    {
      blk.WriteInt("arm", 0);
    }
  }

  // ---------------------------------------------------------------------
  // NoiseGen

  /** The register holding the seed of a stream: 'seed' + str(stream // 4),
      the word 'seed' followed by decimal digits only. */
  function SeedReg(stream: nat): (r: string)
    ensures |r| >= 5 && r[..4] == "seed"
  {
    "seed" + Decimal(stream / 4)
  }

  /** Two streams share a seed register exactly when stream // 4 agrees. */
  lemma SeedRegInjective(prefix: string, a: nat, b: nat)
    requires prefix + SeedReg(a) == prefix + SeedReg(b)
    ensures a / 4 == b / 4
  {
    PrefixCancel(prefix, SeedReg(a), SeedReg(b));
    PrefixCancel("seed", Decimal(a / 4), Decimal(b / 4));
    DecimalInjective(a / 4, b / 4);
  }

  /** The word set_seed writes: the old value masked with
      0xffffffff - (0xff << stream), plus seed << stream. The seed lands at
      bit `stream` (not 8 * stream), so neighbouring streams' fields overlap. */
  function SeedWord(val: Word, seed: nat, stream: nat): (w: Word)
    requires seed < 256 && stream <= 24
    ensures w == ChangeBits(val, seed, stream, 8)
  {
    SeedMask(stream);
    var r := ChangeBits(val, seed, stream, 8);
    assert And(val, 0xffffffff - Shl(0xff, stream)) + Shl(seed, stream) == r;
    And(val, 0xffffffff - Shl(0xff, stream)) + Shl(seed, stream)
  }

  /** 0xffffffff - (0xff << stream) is the keep-mask of the 8-bit field at
      bit `stream`. */
  lemma SeedMask(stream: nat)
    requires stream <= 24
    ensures Pow2(8) == 256
    ensures 0xffffffff - Shl(0xff, stream) == KeepMask(stream, 8)
  {
    assert Pow2(8) == 256;
  }

  /** What get_seed returns for a register value: `val & (0xff << stream)`,
      the register's bits stream .. stream + 7 in place and no others. */
  function SeedOf(val: Word, stream: nat): (s: nat)
    ensures forall i :: 0 <= i < 32 ==> Bit(s, i) == if stream <= i < stream + 8 then Bit(val, i) else 0
  {
    SeedOfBits(val, stream);
    And(val, Shl(0xff, stream))
  }

  lemma SeedOfBits(val: Word, stream: nat)
    ensures forall i :: 0 <= i < 32 ==>
      Bit(And(val, Shl(0xff, stream)), i) == if stream <= i < stream + 8 then Bit(val, i) else 0
  {
    assert Pow2(8) - 1 == 0xff;
    forall i | 0 <= i < 32
      ensures Bit(And(val, Shl(0xff, stream)), i) == if stream <= i < stream + 8 then Bit(val, i) else 0
    {
      BitAnd(val, Shl(0xff, stream), i);
      BitShl(0xff, stream, i);
      if stream <= i {
        BitLowMask(8, i - stream);
      }
    }
  }

  /** get_seed after set_seed returns the seed shifted to bit `stream`. */
  lemma SeedRoundTrip(val: Word, seed: nat, stream: nat)
    requires seed < 256 && stream <= 24
    ensures SeedOf(SeedWord(val, seed, stream), stream) == Shl(seed, stream)
  {
    assert Pow2(8) == 256;
    var w := SeedWord(val, seed, stream);
    Pow2Add(8, stream);
    Pow2Monotone(8 + stream, 32);
    Pow2Of32();
    assert Shl(0xff, stream) < Pow2(32);
    assert Shl(seed, stream) < Pow2(8 + stream) by {
      MulMonotone(seed, 255, Pow2(stream));
    }
    assert Shl(seed, stream) < Pow2(32);
    forall i | 0 <= i < 32 ensures Bit(SeedOf(w, stream), i) == Bit(Shl(seed, stream), i) {
      BitAnd(w, Shl(0xff, stream), i);
      BitShl(0xff, stream, i);
      BitShl(seed, stream, i);
      if stream <= i {
        BitLowMask(8, i - stream);
        if i >= stream + 8 {
          BitAbove(seed, 8, i - stream);
        }
      }
    }
    BitsEqual(SeedOf(w, stream), Shl(seed, stream), 32);
  }

  /** set_seed keeps every bit of the register outside 0xff << stream. */
  lemma SeedKeepsOtherBits(val: Word, seed: nat, stream: nat)
    requires seed < 256 && stream <= 24
    ensures And(SeedWord(val, seed, stream), 0xffffffff - Shl(0xff, stream))
         == And(val, 0xffffffff - Shl(0xff, stream))
  {
    assert Pow2(8) == 256;
    ChangeBitsKeepsOutside(val, seed, stream, 8);
  }

  /** Bit i of a register with the 8-bit field at s cleared. */
  lemma ClearedBit(w: Word, s: nat, i: nat)
    requires s <= 24 && i < 32
    ensures Bit(And(w, KeepMask(s, 8)), i) == if s <= i < s + 8 then 0 else Bit(w, i)
  {
    BitAnd(w, KeepMask(s, 8), i);
    BitKeepMask(s, 8, i);
  }

  /** A bit outside the cleared field keeps its value. */
  lemma ClearedOutsideBit(w: Word, c: nat, s: nat, i: nat)
    requires s <= 24 && i < 32 && !(s <= i < s + 8)
    requires c == And(w, KeepMask(s, 8))
    ensures Bit(c, i) == Bit(w, i)
  {
    ClearedBit(w, s, i);
  }

  /** Clearing the field at s zeroes the seed of stream s, and keeps every
      already clear seed clear, whichever way the two fields overlap. */
  lemma ClearedSeed(w: Word, s: nat, t: nat)
    requires s <= 24
    requires t == s || SeedOf(w, t) == 0
    ensures SeedOf(And(w, KeepMask(s, 8)), t) == 0
  {
    var c := And(w, KeepMask(s, 8));
    forall i | 0 <= i < 32
      ensures Bit(SeedOf(c, t), i) == Bit(0, i)
    {
      BitOfZero(i);
      ClearedBit(w, s, i);
      if t != s && t <= i < t + 8 {
        assert Bit(SeedOf(w, t), i) == Bit(w, i);
      }
    }
    assert SeedOf(c, t) <= c;
    Pow2Of32();
    BitsEqual(SeedOf(c, t), 0, 32);
  }

  /** Stream counts for which every seed field 0xff << stream, stream <=
      nstreams, lies inside a 32-bit register. */
  type SeedStreams = n: nat | n <= 24

  /** A zero seed written at bit s is the register with the field of s
      cleared. */
  lemma ZeroSeedWord(val: Word, s: nat)
    requires s <= 24
    ensures SeedWord(val, 0, s) == And(val, KeepMask(s, 8))
  {
    assert Pow2(8) == 256;
    assert Shl(0, s) == 0;
  }

  /** The seed registers of streams 0..n-1 under `prefix`, in stream order;
      four consecutive streams share one register. */
  function SeedKeys(prefix: string, n: nat): (ks: seq<string>)
    ensures |ks| == n
    ensures forall s :: 0 <= s < n ==> ks[s] == prefix + SeedReg(s)
  {
    if n == 0 then [] else SeedKeys(prefix, n - 1) + [prefix + SeedReg(n - 1)]
  }

  /** The registers after the seeds of streams 0..n-1 were set to 0 one
      after another, starting from regs, stream s's seed living in register
      ks[s]; each step clears the stream's field of the value the register
      holds at that point. */
  function SeedsCleared(regs: map<string, Word>, ks: seq<string>, n: SeedStreams): map<string, Word>
    requires n <= |ks|
  {
    if n == 0 then regs
    else
      var r := SeedsCleared(regs, ks, n - 1);
      r[ks[n - 1] := And(RegIn(r, ks[n - 1]), KeepMask(n - 1, 8))]
  }

  /** The writes of that clearing: one to stream s's seed register per
      stream s, in stream order, each the register's value at that point
      with the field of s cleared. */
  function SeedClearLog(regs: map<string, Word>, ks: seq<string>, n: SeedStreams): (log: seq<Access>)
    requires n <= |ks|
    ensures |log| == n
    ensures forall s :: 0 <= s < n ==>
      log[s] == WordWrite(ks[s], And(RegIn(SeedsCleared(regs, ks, s), ks[s]), KeepMask(s, 8)))
  {
    if n == 0 then []
    else
      var r := SeedsCleared(regs, ks, n - 1);
      SeedClearLog(regs, ks, n - 1) + [WordWrite(ks[n - 1], And(RegIn(r, ks[n - 1]), KeepMask(n - 1, 8)))]
  }

  /** One more stream cleared: its register had its field cleared and that
      write was logged. */
  lemma SeedsClearedStep(regs: map<string, Word>, ks: seq<string>, n: nat, r: map<string, Word>, v: Word, log0: seq<Access>)
    requires n < 24 && n < |ks|
    requires r == SeedsCleared(regs, ks, n)
    requires v == RegIn(r, ks[n])
    ensures SeedsCleared(regs, ks, n + 1) == r[ks[n] := SeedWord(v, 0, n)]
    ensures log0 + SeedClearLog(regs, ks, n + 1)
      == (log0 + SeedClearLog(regs, ks, n)) + [WordWrite(ks[n], SeedWord(v, 0, n))]
  {
    ZeroSeedWord(v, n);
    var x := WordWrite(ks[n], SeedWord(v, 0, n));
    assert SeedClearLog(regs, ks, n + 1) == SeedClearLog(regs, ks, n) + [x];
    AppendAssoc(log0, SeedClearLog(regs, ks, n), [x]);
  }

  /** Clearing reads 0 back from the seed of every cleared stream. */
  lemma {:induction false} SeedsClearedZero(regs: map<string, Word>, ks: seq<string>, n: SeedStreams, s: nat)
    requires s < n <= |ks|
    ensures SeedOf(RegIn(SeedsCleared(regs, ks, n), ks[s]), s) == 0
  {
    var r := SeedsCleared(regs, ks, n - 1);
    var reg := ks[n - 1];
    if s == n - 1 {
      ClearedSeed(RegIn(r, reg), s, s);
    } else {
      SeedsClearedZero(regs, ks, n - 1, s);
      if reg == ks[s] {
        ClearedSeed(RegIn(r, reg), n - 1, s);
      }
    }
  }

  /** Clearing leaves every register other than the cleared seed registers. */
  lemma {:induction false} SeedsClearedOther(regs: map<string, Word>, ks: seq<string>, n: SeedStreams, reg: string)
    requires n <= |ks|
    requires forall s :: 0 <= s < n ==> reg != ks[s]
    ensures RegIn(SeedsCleared(regs, ks, n), reg) == RegIn(regs, reg)
  {
    if n > 0 {
      SeedsClearedOther(regs, ks, n - 1, reg);
    }
  }

  /** Bit i of stream s's seed register lies outside the field of every
      stream below n whose seed lives in the same register. */
  predicate OutsideSeedFields(ks: seq<string>, s: nat, i: nat, n: nat)
    requires s < |ks| && n <= |ks|
  {
    forall t :: 0 <= t < n && ks[t] == ks[s] ==> !(t <= i < t + 8)
  }

  /** Clearing keeps every bit of a seed register that lies outside all the
      cleared fields of that register. */
  lemma {:induction false} SeedsClearedBits(regs: map<string, Word>, ks: seq<string>, n: SeedStreams, s: nat, i: nat)
    requires s < |ks| && n <= |ks| && i < 32 && OutsideSeedFields(ks, s, i, n)
    ensures Bit(RegIn(SeedsCleared(regs, ks, n), ks[s]), i) == Bit(RegIn(regs, ks[s]), i)
  {
    if n > 0 {
      var r := SeedsCleared(regs, ks, n - 1);
      var reg, key := ks[n - 1], ks[s];
      var c := And(RegIn(r, reg), KeepMask(n - 1, 8));
      SeedsClearedBits(regs, ks, n - 1, s, i);
      if reg == key {
        ClearedOutsideBit(RegIn(r, reg), c, n - 1, i);
      }
    }
  }

  /** What a host whose registers are the cleared ones reads: a zero seed
      on every cleared stream, every bit of a seed register outside all its
      cleared fields as before, and every other register as before. */
  lemma SeedsClearedReads(h: Host, regs0: map<string, Word>, prefix: string, n: SeedStreams)
    requires h.regs == SeedsCleared(regs0, SeedKeys(prefix, n), n)
    ensures forall s :: 0 <= s < n ==> SeedOf(h.Reg(prefix + SeedReg(s)), s) == 0
    ensures forall s, i :: 0 <= s < n && 0 <= i < 32 && OutsideSeedFields(SeedKeys(prefix, n), s, i, n) ==>
      Bit(h.Reg(prefix + SeedReg(s)), i) == Bit(RegIn(regs0, prefix + SeedReg(s)), i)
    ensures forall reg :: (forall s :: 0 <= s < n ==> reg != prefix + SeedReg(s)) ==>
      h.Reg(reg) == RegIn(regs0, reg)
  {
    var ks := SeedKeys(prefix, n);
    forall s | 0 <= s < n
      ensures SeedOf(h.Reg(prefix + SeedReg(s)), s) == 0
    {
      SeedsClearedZero(regs0, ks, n, s);
      assert ks[s] == prefix + SeedReg(s);
    }
    forall s, i | 0 <= s < n && 0 <= i < 32 && OutsideSeedFields(ks, s, i, n)
      ensures Bit(h.Reg(prefix + SeedReg(s)), i) == Bit(RegIn(regs0, prefix + SeedReg(s)), i)
    {
      SeedsClearedBits(regs0, ks, n, s, i);
      assert ks[s] == prefix + SeedReg(s);
    }
    forall reg | forall s :: 0 <= s < n ==> reg != prefix + SeedReg(s)
      ensures h.Reg(reg) == RegIn(regs0, reg)
    {
      SeedsClearedOther(regs0, ks, n, reg);
    }
  }

  class NoiseGen {
    const blk: Block
    const nstreams: SeedStreams

    constructor (host: Host, name: string, nstreams: SeedStreams)
      ensures blk.host == host && blk.prefix == name + "_" && this.nstreams == nstreams
    {
      blk := new Block(host, name);
      this.nstreams := nstreams;
    }

    /** set_seed: a stream above nstreams is logged and nothing is written;
        otherwise the seed's field of 'seed<stream // 4>' is rewritten.
        The code names the register reg_name and then uses regname; one
        name is meant. */
    method SetSeed(seed: nat, stream: nat) returns (r: Outcome)
      requires seed < 256
      modifies blk.host
      ensures r == if stream > nstreams then LoggedError else Ok
      ensures stream > nstreams ==>
        blk.host.regs == old(blk.host.regs) && blk.host.log == old(blk.host.log)
      ensures stream <= nstreams ==>
        var reg := blk.prefix + SeedReg(stream);
        && blk.host.regs == old(blk.host.regs)[reg := SeedWord(old(blk.host.Reg(reg)), seed, stream)]
        && blk.host.log == old(blk.host.log) + [WordWrite(reg, SeedWord(old(blk.host.Reg(reg)), seed, stream))]
      ensures blk.host.mems == old(blk.host.mems)
    {
      if stream > nstreams {
        return LoggedError;
      }
      var regName := SeedReg(stream);
      var val := blk.ReadUint(regName);
      blk.WriteInt(regName, SeedWord(val, seed, stream));
      r := Ok;
    }

    /** get_seed: nothing for a stream above nstreams, else the register
        masked to 0xff << stream. */
    method GetSeed(stream: nat) returns (r: Option<nat>)
      ensures r.None? <==> stream > nstreams
      ensures r.Some? ==> r.value == SeedOf(blk.host.Reg(blk.prefix + SeedReg(stream)), stream)
    {
      if stream > nstreams {
        return None;
      }
      var val := blk.ReadUint(SeedReg(stream));
      r := Some(SeedOf(val, stream));
    }

    /** initialize: seed 0 on every stream in range(nstreams) (the code
        iterates over the int nstreams itself; the range is meant), one
        set_seed after another. Every stream's seed then reads back as 0,
        the bits of a seed register outside all of its streams' fields are
        kept, and no other register changes. */
    method Initialize()
      modifies blk.host
      ensures blk.host.regs == SeedsCleared(old(blk.host.regs), SeedKeys(blk.prefix, nstreams), nstreams)
      ensures blk.host.log == old(blk.host.log) + SeedClearLog(old(blk.host.regs), SeedKeys(blk.prefix, nstreams), nstreams)
      ensures forall s :: 0 <= s < nstreams ==> SeedOf(blk.host.Reg(blk.prefix + SeedReg(s)), s) == 0
      ensures forall s, i :: 0 <= s < nstreams && 0 <= i < 32 && OutsideSeedFields(SeedKeys(blk.prefix, nstreams), s, i, nstreams) ==>
        Bit(blk.host.Reg(blk.prefix + SeedReg(s)), i) == Bit(RegIn(old(blk.host.regs), blk.prefix + SeedReg(s)), i)
      ensures forall reg :: (forall s :: 0 <= s < nstreams ==> reg != blk.prefix + SeedReg(s)) ==>
        blk.host.Reg(reg) == RegIn(old(blk.host.regs), reg)
      ensures blk.host.mems == old(blk.host.mems)
    {
      var host, prefix := blk.host, blk.prefix;
      ghost var ks := SeedKeys(prefix, nstreams);
      var stream := 0;
      while stream < nstreams
        invariant 0 <= stream <= nstreams
        invariant host.regs == SeedsCleared(old(host.regs), ks, stream)
        invariant host.log == old(host.log) + SeedClearLog(old(host.regs), ks, stream)
        invariant host.mems == old(host.mems)
      {
        ghost var regs0 := host.regs;
        ghost var v := host.Reg(prefix + SeedReg(stream));
        assert ks[stream] == prefix + SeedReg(stream);
        var _ := SetSeed(0, stream);
        SeedsClearedStep(old(host.regs), ks, stream, regs0, v, old(host.log));
        stream := stream + 1;
      }
      SeedsClearedReads(host, old(host.regs), prefix, nstreams);
    }
  }

  // ---------------------------------------------------------------------
  // Input

  const USE_NOISE: nat := 0
  const USE_ADC: nat := 1
  const USE_ZERO: nat := 2

  /** Stream counts for which every source word stays below 2^32. */
  type InputStreams = n: nat | n <= 30

  /** The source-select word for `use` on n streams in closed form:
      use * (2^(n + 1) - 2), the sum of use * 2^(s + 1) over s < n. */
  function SourceSelWord(use: nat, n: InputStreams): (v: Word)
    requires use <= USE_ZERO
    ensures use == USE_NOISE ==> v == 0
    ensures use == USE_ADC ==> forall i :: 0 <= i < 32 ==> Bit(v, i) == if 1 <= i <= n then 1 else 0
    ensures use == USE_ZERO ==> forall i :: 0 <= i < 32 ==> Bit(v, i) == if 2 <= i <= n + 1 then 1 else 0
  {
    SourceSelFacts(use, n, Pow2(n + 1) - 2, use * (Pow2(n + 1) - 2));
    use * (Pow2(n + 1) - 2)
  }

  /** v = use * x for the USE_ADC word x: a word, and for each use the
      bits the source-select word promises. */
  lemma SourceSelFacts(use: nat, n: InputStreams, x: int, v: int)
    requires use <= USE_ZERO && x == Pow2(n + 1) - 2 && v == use * x
    ensures 0 <= v < 0x1_0000_0000
    ensures use == USE_NOISE ==> v == 0
    ensures use == USE_ADC ==> forall i :: 0 <= i < 32 ==> Bit(v, i) == if 1 <= i <= n then 1 else 0
    ensures use == USE_ZERO ==> forall i :: 0 <= i < 32 ==> Bit(v, i) == if 2 <= i <= n + 1 then 1 else 0
  {
    SmallMultiple(use, x);
    Pow2Monotone(n + 1, 31);
    Pow2Monotone(1, n + 1);
    Pow2Of32();
    assert Pow2(32) == 2 * Pow2(31);
    SourceWordAllBits(n, x, 2 * x);
  }

  lemma SmallMultiple(use: nat, x: int)
    requires use <= 2
    ensures use * x == if use == 0 then 0 else if use == 1 then x else 2 * x
  {
  }

  /** In the USE_ADC word every stream s < n contributes 2 << s, that is
      bit s + 1 alone: bits 1..n are set and no other. */
  lemma SourceWordBits(n: nat, i: nat)
    ensures Pow2(n + 1) >= 2
    ensures Bit(Pow2(n + 1) - 2, i) == if 1 <= i <= n then 1 else 0
  {
    Pow2Monotone(1, n + 1);
    assert Pow2(1) == 2;
    if i > 0 {
      assert (Pow2(n + 1) - 2) / 2 == Pow2(n) - 1;
      BitLowMask(n, i - 1);
    }
  }

  /** The bits of the USE_ADC word x = 2^(n + 1) - 2 and of the USE_ZERO
      word y = 2 * x. */
  lemma SourceWordAllBits(n: nat, x: nat, y: nat)
    requires x + 2 == Pow2(n + 1) && y == 2 * x
    ensures forall i :: 0 <= i < 32 ==> Bit(x, i) == if 1 <= i <= n then 1 else 0
    ensures forall i :: 0 <= i < 32 ==> Bit(y, i) == if 2 <= i <= n + 1 then 1 else 0
  {
    forall i | 0 <= i < 32
      ensures Bit(x, i) == if 1 <= i <= n then 1 else 0
    {
      SourceWordBits(n, i);
    }
    forall i | 0 <= i < 32
      ensures Bit(y, i) == if 2 <= i <= n + 1 then 1 else 0
    {
      if i > 0 {
        assert y / 2 == x;
        SourceWordBits(n, i - 1);
      }
    }
  }

  /** x[0::2]: the elements at even indices. */
  function Evens(x: seq<int>): (e: seq<int>)
    ensures |e| == (|x| + 1) / 2
    ensures forall i :: 0 <= i < |e| ==> e[i] == x[2 * i]
    decreases |x|
  {
    if x == [] then [] else [x[0]] + Odds(x[1..])
  }

  /** x[1::2]: the elements at odd indices. */
  function Odds(x: seq<int>): (o: seq<int>)
    ensures |o| == |x| / 2
    ensures forall i :: 0 <= i < |o| ==> o[i] == x[2 * i + 1]
    decreases |x|
  {
    if x == [] then [] else Evens(x[1..])
  }

  class Input {
    const blk: Block
    const nstreams: InputStreams

    constructor (host: Host, name: string, nstreams: InputStreams)
      ensures blk.host == host && blk.prefix == name + "_" && this.nstreams == nstreams
    {
      blk := new Block(host, name);
      this.nstreams := nstreams;
    }

    /** The loop `v += use * (2 << stream)` over range(nstreams): the sum of
        use * 2^(s + 1) over the streams. */
    method SourceWord(use: nat) returns (v: Word)
      requires use <= USE_ZERO
      ensures v == SourceSelWord(use, nstreams)
    {
      var acc: nat := 0;
      for stream := 0 to nstreams
        invariant acc == use * (Pow2(stream + 1) - 2)
      {
        ghost var p := Pow2(stream + 1);
        assert Shl(2, stream) == p;
        assert use * (p - 2) + use * p == use * (2 * p - 2);
        acc := acc + use * Shl(2, stream);
      }
      assert acc == SourceSelWord(use, nstreams);
      v := acc;
    }

    /** Select one source for all streams; selecting per stream raises
        NotImplementedError and writes nothing. */
    method UseSource(use: nat, stream: Option<nat>) returns (r: Outcome)
      requires use <= USE_ZERO
      modifies blk.host
      ensures stream.Some? ==> r == NotImplemented && blk.host.regs == old(blk.host.regs) && blk.host.log == old(blk.host.log)
      ensures stream.None? ==>
        && r == Ok
        && blk.host.regs == old(blk.host.regs)[blk.prefix + "source_sel" := SourceSelWord(use, nstreams)]
        && blk.host.log == old(blk.host.log) + [WordWrite(blk.prefix + "source_sel", SourceSelWord(use, nstreams))]
      ensures blk.host.mems == old(blk.host.mems)
    {
      if stream.Some? {
        return NotImplemented;
      }
      var v := SourceWord(use);
      blk.WriteInt("source_sel", v);
      r := Ok;
    }

    method UseNoise(stream: Option<nat>) returns (r: Outcome)
      modifies blk.host
      ensures stream.Some? ==> r == NotImplemented && blk.host.regs == old(blk.host.regs) && blk.host.log == old(blk.host.log)
      ensures stream.None? ==>
        && r == Ok
        && blk.host.regs == old(blk.host.regs)[blk.prefix + "source_sel" := SourceSelWord(USE_NOISE, nstreams)]
        && blk.host.log == old(blk.host.log) + [WordWrite(blk.prefix + "source_sel", SourceSelWord(USE_NOISE, nstreams))]
      ensures blk.host.mems == old(blk.host.mems)
    {
      r := UseSource(USE_NOISE, stream);
    }

    method UseAdc(stream: Option<nat>) returns (r: Outcome)
      modifies blk.host
      ensures stream.Some? ==> r == NotImplemented && blk.host.regs == old(blk.host.regs) && blk.host.log == old(blk.host.log)
      ensures stream.None? ==>
        && r == Ok
        && blk.host.regs == old(blk.host.regs)[blk.prefix + "source_sel" := SourceSelWord(USE_ADC, nstreams)]
        && blk.host.log == old(blk.host.log) + [WordWrite(blk.prefix + "source_sel", SourceSelWord(USE_ADC, nstreams))]
      ensures blk.host.mems == old(blk.host.mems)
    {
      r := UseSource(USE_ADC, stream);
    }

    method UseZero(stream: Option<nat>) returns (r: Outcome)
      modifies blk.host
      ensures stream.Some? ==> r == NotImplemented && blk.host.regs == old(blk.host.regs) && blk.host.log == old(blk.host.log)
      ensures stream.None? ==>
        && r == Ok
        && blk.host.regs == old(blk.host.regs)[blk.prefix + "source_sel" := SourceSelWord(USE_ZERO, nstreams)]
        && blk.host.log == old(blk.host.log) + [WordWrite(blk.prefix + "source_sel", SourceSelWord(USE_ZERO, nstreams))]
      ensures blk.host.mems == old(blk.host.mems)
    {
      r := UseSource(USE_ZERO, stream);
    }

    /** get_stats: pulse 'rms_enable' low, read 2 * nstreams signed words
        from 'rms_levels', re-enable, and split them into means (even
        positions) and standard deviations (odd positions). */
    method GetStats() returns (means: seq<int>, sds: seq<int>)
      modifies blk.host
      ensures var x := UnpackSigned32(Prefix(old(blk.host.Mem(blk.prefix + "rms_levels")), nstreams * 8));
        |x| == 2 * nstreams && means == Evens(x) && sds == Odds(x)
      ensures |means| == nstreams && |sds| == nstreams
      ensures blk.host.regs == old(blk.host.regs)[blk.prefix + "rms_enable" := 1]
      ensures blk.host.mems == old(blk.host.mems)
      ensures blk.host.log == old(blk.host.log) + [WordWrite(blk.prefix + "rms_enable", 1),
        WordWrite(blk.prefix + "rms_enable", 0), WordWrite(blk.prefix + "rms_enable", 1)]
    {
      ghost var m0, regs0 := blk.host.Mem(blk.prefix + "rms_levels"), blk.host.regs;
      blk.WriteInt("rms_enable", 1);
      blk.WriteInt("rms_enable", 0);
      UpdateTwice(regs0, blk.prefix + "rms_enable", 1, 0);
      var raw := blk.Read("rms_levels", nstreams * 8);
      assert raw == Prefix(m0, nstreams * 8);
      UnpackLength(raw, 4, 2 * nstreams);
      var x := UnpackSigned32(raw);
      assert |x| == 2 * nstreams;
      blk.WriteInt("rms_enable", 1);
      UpdateTwice(regs0, blk.prefix + "rms_enable", 0, 1);
      means := Evens(x);
      sds := Odds(x);
    }

    method Initialize()
      modifies blk.host
      ensures blk.host.regs == old(blk.host.regs)[blk.prefix + "source_sel" := SourceSelWord(USE_ADC, nstreams)][blk.prefix + "rms_enable" := 1]
      ensures blk.host.mems == old(blk.host.mems)
      ensures blk.host.log == old(blk.host.log) + [WordWrite(blk.prefix + "source_sel", SourceSelWord(USE_ADC, nstreams)),
        WordWrite(blk.prefix + "rms_enable", 1)]
    {
      var _ := UseAdc(None);
      blk.WriteInt("rms_enable", 1);
    }
  }

  // ---------------------------------------------------------------------
  // Delay

  class Delay {
    const blk: Block
    const nstreams: nat

    constructor (host: Host, name: string, nstreams: nat)
      ensures blk.host == host && blk.prefix == name + "_" && this.nstreams == nstreams
    {
      blk := new Block(host, name);
      this.nstreams := nstreams;
    }

    /** set_delay: the 4-bit field at bit 4 * stream of 'delays'. A stream
        above nstreams is logged, and the field is written all the same: the
        code does not return after the log. */
    method SetDelay(stream: nat, delay: nat) returns (r: Outcome)
      requires stream < 8 && delay < 16
      modifies blk.host
      ensures r == if stream > nstreams then LoggedError else Ok
      ensures var w := ChangeBits(old(blk.host.Reg(blk.prefix + "delays")), delay, 4 * stream, 4);
        && blk.host.regs == old(blk.host.regs)[blk.prefix + "delays" := w]
        && blk.host.log == old(blk.host.log) + [WordWrite(blk.prefix + "delays", w)]
      ensures blk.host.mems == old(blk.host.mems)
    {
      r := if stream > nstreams then LoggedError else Ok;
      assert Pow2(4) == 16;
      blk.ChangeRegBits("delays", delay, 4 * stream, 4);
    }

    method Initialize()
      modifies blk.host
      ensures blk.host.regs == old(blk.host.regs)[blk.prefix + "delays" := 0]
      ensures blk.host.mems == old(blk.host.mems)
      ensures blk.host.log == old(blk.host.log) + [WordWrite(blk.prefix + "delays", 0)]
    {
      blk.WriteInt("delays", 0);
    }
  }

  // ---------------------------------------------------------------------
  // Pfb

  const SHIFT_OFFSET: nat := 0
  const SHIFT_WIDTH: nat := 12
  const PRESHIFT_OFFSET: nat := 12
  const PRESHIFT_WIDTH: nat := 2
  const STAT_RST_BIT: nat := 14

  class Pfb {
    const blk: Block

    constructor (host: Host, name: string)
      ensures blk.host == host && blk.prefix == name + "_"
    {
      blk := new Block(host, name);
    }

    /** The FFT shift schedule: bits 0-11 of 'ctrl'; the others are kept. */
    method SetFftShift(shift: nat)
      requires shift < Pow2(SHIFT_WIDTH)
      modifies blk.host
      ensures var w := ChangeBits(old(blk.host.Reg(blk.prefix + "ctrl")), shift, SHIFT_OFFSET, SHIFT_WIDTH);
        && blk.host.regs == old(blk.host.regs)[blk.prefix + "ctrl" := w]
        && blk.host.log == old(blk.host.log) + [WordWrite(blk.prefix + "ctrl", w)]
        && forall i :: 12 <= i < 32 ==> Bit(w, i) == Bit(old(blk.host.Reg(blk.prefix + "ctrl")), i)
      ensures blk.host.mems == old(blk.host.mems)
    {
      blk.ChangeRegBits("ctrl", shift, SHIFT_OFFSET, SHIFT_WIDTH);
    }

    /** The FFT pre-shift: bits 12-13 of 'ctrl'; the others are kept. */
    method SetFftPreshift(shift: nat)
      requires shift < Pow2(PRESHIFT_WIDTH)
      modifies blk.host
      ensures var w := ChangeBits(old(blk.host.Reg(blk.prefix + "ctrl")), shift, PRESHIFT_OFFSET, PRESHIFT_WIDTH);
        && blk.host.regs == old(blk.host.regs)[blk.prefix + "ctrl" := w]
        && blk.host.log == old(blk.host.log) + [WordWrite(blk.prefix + "ctrl", w)]
        && forall i :: 0 <= i < 32 && !(12 <= i < 14) ==> Bit(w, i) == Bit(old(blk.host.Reg(blk.prefix + "ctrl")), i)
      ensures blk.host.mems == old(blk.host.mems)
    {
      blk.ChangeRegBits("ctrl", shift, PRESHIFT_OFFSET, PRESHIFT_WIDTH);
    }

    /** Raise and drop the statistics reset bit (the code names it RST_BIT;
        STAT_RST_BIT is meant). The register ends as it was with bit 14 clear. */
    method RstStats()
      modifies blk.host
      ensures var w := old(blk.host.Reg(blk.prefix + "ctrl"));
        && blk.host.regs == old(blk.host.regs)[blk.prefix + "ctrl" := ChangeBits(w, 0, STAT_RST_BIT, 1)]
        && blk.host.log == old(blk.host.log) + [WordWrite(blk.prefix + "ctrl", ChangeBits(w, 1, STAT_RST_BIT, 1)),
             WordWrite(blk.prefix + "ctrl", ChangeBits(w, 0, STAT_RST_BIT, 1))]
        && Bit(ChangeBits(w, 0, STAT_RST_BIT, 1), STAT_RST_BIT) == 0
      ensures blk.host.mems == old(blk.host.mems)
    {
      RaiseAndDrop(STAT_RST_BIT);
    }

    /** change_reg_bits('ctrl', 1, bit) then change_reg_bits('ctrl', 0, bit). */
    method RaiseAndDrop(bit: nat)
      requires bit < 32
      modifies blk.host
      ensures var w := old(blk.host.Reg(blk.prefix + "ctrl"));
        && blk.host.regs == old(blk.host.regs)[blk.prefix + "ctrl" := ChangeBits(w, 0, bit, 1)]
        && blk.host.log == old(blk.host.log) + [WordWrite(blk.prefix + "ctrl", ChangeBits(w, 1, bit, 1)),
             WordWrite(blk.prefix + "ctrl", ChangeBits(w, 0, bit, 1))]
        && Bit(ChangeBits(w, 0, bit, 1), bit) == 0
      ensures blk.host.mems == old(blk.host.mems)
    {
      ghost var w := blk.host.Reg(blk.prefix + "ctrl");
      assert Pow2(1) == 2;
      blk.ChangeRegBits("ctrl", 1, bit, 1);
      blk.ChangeRegBits("ctrl", 0, bit, 1);
      ChangeBitsOverrides(w, 1, 0, bit, 1);
      BitOfZero(0);
    }

    method IsOverflowing() returns (b: bool)
      ensures b <==> blk.host.Reg(blk.prefix + "status") != 0
    {
      var s := blk.ReadUint("status");
      b := s != 0;
    }

    /** initialize clears the host's unprefixed 'ctrl' register (the code
        calls host.write_int directly), then pulses the reset bit of this
        block's own 'ctrl'. */
    method Initialize()
      modifies blk.host
      ensures blk.host.regs == old(blk.host.regs)["ctrl" := 0][blk.prefix + "ctrl" :=
        ChangeBits(old(blk.host.Reg(blk.prefix + "ctrl")), 0, STAT_RST_BIT, 1)]
      ensures blk.host.mems == old(blk.host.mems)
      ensures var w := old(blk.host.Reg(blk.prefix + "ctrl"));
        blk.host.log == old(blk.host.log) + [WordWrite("ctrl", 0),
          WordWrite(blk.prefix + "ctrl", ChangeBits(w, 1, STAT_RST_BIT, 1)),
          WordWrite(blk.prefix + "ctrl", ChangeBits(w, 0, STAT_RST_BIT, 1))]
    {
      ghost var regs0, log0, key := blk.host.regs, blk.host.log, blk.prefix + "ctrl";
      ghost var w0 := blk.host.Reg(key);
      ghost var w := ChangeBits(w0, 0, STAT_RST_BIT, 1);
      assert key != "ctrl" by {
        assert |key| > 4;
      }
      blk.host.WriteInt("ctrl", 0);
      assert blk.host.Reg(key) == w0;
      ghost var log1 := blk.host.log;
      assert log1 == log0 + [WordWrite("ctrl", 0)];
      RstStats();
      AppendOneThenTwo(log0, WordWrite("ctrl", 0), WordWrite(key, ChangeBits(w0, 1, STAT_RST_BIT, 1)), WordWrite(key, w));
      assert blk.host.regs == regs0["ctrl" := 0][key := w];
    }
  }

  // ---------------------------------------------------------------------
  // Eq

  const EQ_WIDTH: nat := 18
  const EQ_BP: nat := 7
  /** The largest coefficient the equalizer holds: 2^18 - 1. */
  const EQ_MAX: nat := Pow2(EQ_WIDTH) - 1

  function Min(a: nat, b: nat): nat
  {
    if a <= b then a else b
  }

  /** The words set_coeffs sends for `coeffs`: each scaled by 2^bp and
      capped at 2^width - 1; every one fits in a '>Q' word. */
  function Quantized(coeffs: seq<nat>): (qs: seq<nat>)
    ensures |qs| == |coeffs|
    ensures Fits(qs, 8)
  {
    Pow2Table();
    Pow256Table();
    seq(|coeffs|, j requires 0 <= j < |coeffs| => Min(Shl(coeffs[j], EQ_BP), EQ_MAX))
  }

  /** n copies of v. */
  function Constant(n: nat, v: nat): (vs: seq<nat>)
    ensures |vs| == n && forall j :: 0 <= j < n ==> vs[j] == v
  {
    seq(n, _ => v)
  }

  /** Unit coefficients quantize to 2^bp = 128. */
  lemma QuantizedOnes(n: nat)
    ensures Quantized(Constant(n, 1)) == Constant(n, 128)
  {
    assert Pow2(EQ_BP) == 128;
  }

  /** Scale by 2^bp, flag whether any value exceeds 2^width - 1, and clamp
      those values to exactly 2^width - 1 in place; values at or below the
      limit stay as scaled. (The code tests self.coeffs and width; the local
      coeffs and self.width are meant.) */
  method SaturateCoeffs(coeffs: seq<nat>) returns (qs: seq<nat>, warned: bool)
    ensures |qs| == |coeffs|
    ensures forall j :: 0 <= j < |coeffs| ==>
      (Shl(coeffs[j], EQ_BP) > EQ_MAX ==> qs[j] == EQ_MAX) && (Shl(coeffs[j], EQ_BP) <= EQ_MAX ==> qs[j] == Shl(coeffs[j], EQ_BP))
    ensures warned <==> exists j :: 0 <= j < |coeffs| && Shl(coeffs[j], EQ_BP) > EQ_MAX
  {
    var a := new nat[|coeffs|](j requires 0 <= j < |coeffs| => Shl(coeffs[j], EQ_BP));
    warned := AnyAbove(a, EQ_MAX);
    ClampToMax(a, EQ_MAX);
    qs := a[..];
  }

  /** np.any(a > bound). */
  method AnyAbove(a: array<nat>, bound: nat) returns (found: bool)
    ensures found <==> exists k :: 0 <= k < a.Length && a[k] > bound
  {
    found := false;
    for j := 0 to a.Length
      invariant found <==> exists k :: 0 <= k < j && a[k] > bound
    {
      if a[j] > bound {
        found := true;
      }
    }
  }

  /** a[a > bound] = bound: every entry above the bound becomes the bound and
      the others are kept. */
  method ClampToMax(a: array<nat>, bound: nat)
    modifies a
    ensures forall k :: 0 <= k < a.Length ==> a[k] == Min(old(a[k]), bound)
  {
    for j := 0 to a.Length
      invariant forall k :: 0 <= k < j ==> a[k] == Min(old(a[k]), bound)
      invariant forall k :: j <= k < a.Length ==> a[k] == old(a[k])
    {
      if a[j] > bound {
        a[j] := bound;
      }
    }
  }


  /** What get_coeffs reads back: ncoeffs '>Q' words from the front of a memory. */
  function CoeffsIn(m: seq<Byte>, ncoeffs: nat): (cs: seq<nat>)
    ensures |cs| == ncoeffs
  {
    UnpackLength(Prefix(m, 8 * ncoeffs), 8, ncoeffs);
    UnpackBE(Prefix(m, 8 * ncoeffs), 8)
  }

  /** get_coeffs after set_coeffs of a full table returns the quantized values. */
  lemma CoeffsRoundTrip(m: seq<Byte>, coeffs: seq<nat>)
    ensures CoeffsIn(Overwrite(m, PackBE(Quantized(coeffs), 8)), |coeffs|) == Quantized(coeffs)
  {
    var data := PackBE(Quantized(coeffs), 8);
    PrefixOverwrite(m, data);
    UnpackPack(Quantized(coeffs), 8);
  }

  /** The memory holding a stream's coefficients: '%d_coeffs' % stream,
      decimal digits followed by the suffix '_coeffs'. */
  function CoeffMem(stream: nat): (r: string)
    ensures |r| >= 8 && r[|r| - 7..] == "_coeffs"
  {
    Decimal(stream) + "_coeffs"
  }

  lemma CoeffMemInjective(prefix: string, a: nat, b: nat)
    requires prefix + CoeffMem(a) == prefix + CoeffMem(b)
    ensures a == b
  {
    PrefixCancel(prefix, CoeffMem(a), CoeffMem(b));
    SuffixCancel(Decimal(a), Decimal(b), "_coeffs");
    DecimalInjective(a, b);
  }

  /** The writes an initialize of n streams issues, in stream order: the
      unit table, quantized to 2^bp, to each stream's coefficient memory. */
  function UnitCoeffLog(prefix: string, n: nat, ncoeffs: nat): (log: seq<Access>)
    ensures |log| == n
    ensures forall s :: 0 <= s < n ==> log[s] == BytesWrite(prefix + CoeffMem(s), PackBE(Constant(ncoeffs, 128), 8))
  {
    if n == 0 then [] else UnitCoeffLog(prefix, n - 1, ncoeffs) + [BytesWrite(prefix + CoeffMem(n - 1), PackBE(Constant(ncoeffs, 128), 8))]
  }

  /** The coefficient memories of streams 0..n-1 under `prefix`, in stream order. */
  function CoeffKeys(prefix: string, n: nat): (ks: seq<string>)
    ensures |ks| == n
    ensures forall s :: 0 <= s < n ==> ks[s] == prefix + CoeffMem(s)
  {
    if n == 0 then [] else CoeffKeys(prefix, n - 1) + [prefix + CoeffMem(n - 1)]
  }

  /** Stream n's memory is not among those of the streams before it. */
  lemma CoeffKeysFresh(prefix: string, n: nat)
    ensures prefix + CoeffMem(n) !in CoeffKeys(prefix, n)
  {
    var ks := CoeffKeys(prefix, n);
    forall s | 0 <= s < n
      ensures ks[s] != prefix + CoeffMem(n)
    {
      if ks[s] == prefix + CoeffMem(n) {
        CoeffMemInjective(prefix, s, n);
      }
    }
  }

  /** m is m0 after `data` went to each memory in ks: each of those holds
      data written over what it held, and every other memory is as it was. */
  ghost predicate TablesWritten(m0: map<string, seq<Byte>>, m: map<string, seq<Byte>>, ks: seq<string>, data: seq<Byte>)
  {
    && (forall j :: 0 <= j < |ks| ==> ks[j] in m && m[ks[j]] == Overwrite(MemIn(m0, ks[j]), data))
    && (forall mem :: mem !in ks ==> (mem in m <==> mem in m0) && MemIn(m, mem) == MemIn(m0, mem))
  }

  /** Writing one more memory, not written before, extends the run. */
  lemma TablesWrittenStep(m0: map<string, seq<Byte>>, m: map<string, seq<Byte>>, ks: seq<string>, key: string, data: seq<Byte>)
    requires TablesWritten(m0, m, ks, data)
    requires key !in ks
    ensures TablesWritten(m0, m[key := Overwrite(MemIn(m, key), data)], ks + [key], data)
  {
    var m' := m[key := Overwrite(MemIn(m, key), data)];
    var ks' := ks + [key];
    forall j | 0 <= j < |ks'|
      ensures ks'[j] in m' && m'[ks'[j]] == Overwrite(MemIn(m0, ks'[j]), data)
    {
      if j < |ks| {
        assert ks'[j] == ks[j] && ks[j] != key;
      }
    }
    forall mem | mem !in ks'
      ensures (mem in m' <==> mem in m0) && MemIn(m', mem) == MemIn(m0, mem)
    {
      assert mem != key && mem !in ks;
    }
  }

  /** One more stream's write extends the log and the memories written. */
  lemma UnitCoeffStep(prefix: string, n: nat, ncoeffs: nat, log0: seq<Access>)
    ensures log0 + UnitCoeffLog(prefix, n + 1, ncoeffs)
      == (log0 + UnitCoeffLog(prefix, n, ncoeffs)) + [BytesWrite(prefix + CoeffMem(n), PackBE(Constant(ncoeffs, 128), 8))]
    ensures CoeffKeys(prefix, n + 1) == CoeffKeys(prefix, n) + [prefix + CoeffMem(n)]
    ensures prefix + CoeffMem(n) !in CoeffKeys(prefix, n)
  {
    var x := BytesWrite(prefix + CoeffMem(n), PackBE(Constant(ncoeffs, 128), 8));
    assert log0 + (UnitCoeffLog(prefix, n, ncoeffs) + [x]) == (log0 + UnitCoeffLog(prefix, n, ncoeffs)) + [x];
    CoeffKeysFresh(prefix, n);
  }

  class Eq {
    const blk: Block
    const nstreams: nat
    const ncoeffs: nat

    constructor (host: Host, name: string, nstreams: nat, ncoeffs: nat)
      ensures blk.host == host && blk.prefix == name + "_"
      ensures this.nstreams == nstreams && this.ncoeffs == ncoeffs
    {
      blk := new Block(host, name);
      this.nstreams := nstreams;
      this.ncoeffs := ncoeffs;
    }

    /** set_coeffs: quantize, pack as '>Q' words and write '<stream>_coeffs';
        the result says whether the out-of-range warning was logged. */
    method SetCoeffs(stream: nat, coeffs: seq<nat>) returns (warned: bool)
      modifies blk.host
      ensures warned <==> exists j :: 0 <= j < |coeffs| && Shl(coeffs[j], EQ_BP) > EQ_MAX
      ensures var mem := blk.prefix + CoeffMem(stream);
        && blk.host.mems == old(blk.host.mems)[mem := Overwrite(old(blk.host.Mem(mem)), PackBE(Quantized(coeffs), 8))]
        && blk.host.log == old(blk.host.log) + [BytesWrite(mem, PackBE(Quantized(coeffs), 8))]
      ensures blk.host.regs == old(blk.host.regs)
    {
      var qs;
      qs, warned := SaturateCoeffs(coeffs);
      assert qs == Quantized(coeffs);
      var coeffsStr := PackBE(qs, 8);
      blk.Write(CoeffMem(stream), coeffsStr);
    }

    /** get_coeffs, before the division by 2^bp. */
    method GetCoeffs(stream: nat) returns (cs: seq<nat>)
      ensures cs == CoeffsIn(blk.host.Mem(blk.prefix + CoeffMem(stream)), ncoeffs)
      ensures |cs| == ncoeffs && Fits(cs, 8)
    {
      var coeffsStr := blk.Read(CoeffMem(stream), ncoeffs * 8);
      cs := UnpackBE(coeffsStr, 8);
    }

    /** initialize: unit coefficients on every stream in range(nstreams)
        (the code iterates over the int, passes self twice and builds float
        ones, on which `<<` raises; the range, set_coeffs(stream, ones) and
        integer ones are meant). Each stream's memory takes the table of
        2^bp words and reads back 2^bp everywhere; no other memory and no
        register changes, and the writes go out in stream order. */
    method Initialize()
      modifies blk.host
      ensures forall s :: 0 <= s < nstreams ==>
        CoeffsIn(blk.host.Mem(blk.prefix + CoeffMem(s)), ncoeffs) == Constant(ncoeffs, 128)
      ensures TablesWritten(old(blk.host.mems), blk.host.mems, CoeffKeys(blk.prefix, nstreams), PackBE(Constant(ncoeffs, 128), 8))
      ensures blk.host.regs == old(blk.host.regs)
      ensures blk.host.log == old(blk.host.log) + UnitCoeffLog(blk.prefix, nstreams, ncoeffs)
    {
      var ones := Constant(ncoeffs, 1);
      QuantizedOnes(ncoeffs);
      var host, prefix := blk.host, blk.prefix;
      ghost var data := PackBE(Constant(ncoeffs, 128), 8);
      var stream := 0;
      while stream < nstreams
        invariant 0 <= stream <= nstreams
        invariant TablesWritten(old(host.mems), host.mems, CoeffKeys(prefix, stream), data)
        invariant host.regs == old(host.regs)
        invariant host.log == old(host.log) + UnitCoeffLog(prefix, stream, ncoeffs)
      {
        ghost var m := host.mems;
        ghost var key := prefix + CoeffMem(stream);
        var _ := SetCoeffs(stream, ones);
        UnitCoeffStep(prefix, stream, ncoeffs, old(host.log));
        TablesWrittenStep(old(host.mems), m, CoeffKeys(prefix, stream), key, data);
        stream := stream + 1;
      }
      forall s | 0 <= s < nstreams
        ensures CoeffsIn(host.Mem(prefix + CoeffMem(s)), ncoeffs) == Constant(ncoeffs, 128)
      {
        assert CoeffKeys(prefix, nstreams)[s] == prefix + CoeffMem(s);
        CoeffsRoundTrip(MemIn(old(host.mems), prefix + CoeffMem(s)), ones);
      }
    }
  }

  // ---------------------------------------------------------------------
  // EqTvg

  /** Stream counts whose byte lanes all fit in a '>Q' word. */
  type TvgStreams = n: nat | n <= 8

  /** b << 8 * s summed over s < m: b in each of the m low byte lanes. */
  function Lanes(b: nat, m: nat): nat
  {
    if m == 0 then 0 else Lanes(b, m - 1) + Shl(b, 8 * (m - 1))
  }

  lemma {:induction false} LanesHorner(b: nat, m: nat)
    ensures Lanes(b, m + 1) == b + 256 * Lanes(b, m)
  {
    Pow256IsPow2(m);
    if m > 0 {
      LanesHorner(b, m - 1);
      Pow256IsPow2(m - 1);
      assert b * Pow256(m) == 256 * (b * Pow256(m - 1));
    }
  }

  /** Byte lane s of Lanes(b, m) is b for the m low lanes and 0 above. */
  lemma {:induction false} LaneDigit(b: nat, m: nat, s: nat)
    requires b < 256
    ensures (Lanes(b, m) / Pow256(s)) % 256 == if s < m then b else 0
  {
    if m == 0 {
    } else {
      LanesHorner(b, m - 1);
      var x, rest := Lanes(b, m), Lanes(b, m - 1);
      DivUnique(x, 256, rest, b);
      if s > 0 {
        DivDiv256(x, s - 1);
        LaneDigit(b, m - 1, s - 1);
        assert x / Pow256(s) == rest / Pow256(s - 1);
      } else {
        assert Pow256(s) == 1;
        assert x / Pow256(s) == x;
      }
    }
  }

  /** The nchans words write_freq_ramp sends. */
  function RampWords(nchans: nat, nstreams: nat): (ws: seq<nat>)
    ensures |ws| == nchans
  {
    seq(nchans, k requires 0 <= k < nchans => Lanes(k % 256, nstreams))
  }

  /** In the packed ramp, byte lane s of channel k's word (byte 8k + 7 - s)
      is k mod 256 for the streams s < nstreams, and 0 in the lanes above. */
  lemma RampLane(nchans: nat, nstreams: nat, k: nat, s: nat)
    requires k < nchans && s < 8
    ensures 8 * k + 7 - s < |PackBE(RampWords(nchans, nstreams), 8)|
    ensures PackBE(RampWords(nchans, nstreams), 8)[8 * k + 7 - s] == if s < nstreams then k % 256 else 0
  {
    var ws := RampWords(nchans, nstreams);
    PackQuadAt(ws, k, 7 - s);
    EncodeBEDigit(ws[k], 8, s);
    LaneDigit(k % 256, nstreams, s);
  }

  class EqTvg {
    const blk: Block
    const nstreams: TvgStreams
    const nchans: nat

    constructor (host: Host, name: string, nstreams: TvgStreams, nchans: nat)
      ensures blk.host == host && blk.prefix == name + "_"
      ensures this.nstreams == nstreams && this.nchans == nchans
    {
      blk := new Block(host, name);
      this.nstreams := nstreams;
      this.nchans := nchans;
    }

    method TvgEn()
      modifies blk.host
      ensures blk.host.regs == old(blk.host.regs)[blk.prefix + "tvg_en" := 1]
      ensures blk.host.mems == old(blk.host.mems)
      ensures blk.host.log == old(blk.host.log) + [WordWrite(blk.prefix + "tvg_en", 1)]
    {
      blk.WriteInt("tvg_en", 1);
    }

    method TvgDisable()
      modifies blk.host
      ensures blk.host.regs == old(blk.host.regs)[blk.prefix + "tvg_en" := 0]
      ensures blk.host.mems == old(blk.host.mems)
      ensures blk.host.log == old(blk.host.log) + [WordWrite(blk.prefix + "tvg_en", 0)]
    {
      blk.WriteInt("tvg_en", 0);
    }

    /** write_freq_ramp: tv starts at zero, each stream adds
        (k % 256) << 8 * stream to every channel's word k (one whole-vector
        update per stream), and the words go out as big-endian '>Q'. In the
        code the in-place `tv +=` adds an int64 array to a '>Q' (uint64)
        array, which numpy refuses to cast, so nothing would be written;
        this is the ramp the loop evidently means to write. */
    method WriteFreqRamp()
      modifies blk.host
      ensures blk.host.mems == old(blk.host.mems)[blk.prefix + "tv" :=
        Overwrite(old(blk.host.Mem(blk.prefix + "tv")), PackBE(RampWords(nchans, nstreams), 8))]
      ensures blk.host.regs == old(blk.host.regs)
      ensures blk.host.log == old(blk.host.log) + [BytesWrite(blk.prefix + "tv", PackBE(RampWords(nchans, nstreams), 8))]
    {
      var tv: seq<nat> := seq(nchans, _ => 0);
      for stream := 0 to nstreams
        invariant |tv| == nchans
        invariant forall k :: 0 <= k < nchans ==> tv[k] == Lanes(k % 256, stream)
      {
        tv := seq(nchans, k requires 0 <= k < nchans => tv[k] + Shl(k % 256, 8 * stream));
      }
      assert tv == RampWords(nchans, nstreams);
      blk.Write("tv", PackBE(tv, 8));
    }

    method Initialize()
      modifies blk.host
      ensures blk.host.regs == old(blk.host.regs)[blk.prefix + "tvg_en" := 0]
      ensures blk.host.mems == old(blk.host.mems)[blk.prefix + "tv" :=
        Overwrite(old(blk.host.Mem(blk.prefix + "tv")), PackBE(RampWords(nchans, nstreams), 8))]
      ensures blk.host.log == old(blk.host.log) + [WordWrite(blk.prefix + "tvg_en", 0),
        BytesWrite(blk.prefix + "tv", PackBE(RampWords(nchans, nstreams), 8))]
    {
      TvgDisable();
      WriteFreqRamp();
    }
  }

  // ---------------------------------------------------------------------
  // ChanReorder

  /** The reorder map read back from the first 2 * nchans bytes decodes to
      the order that was packed. */
  lemma ReorderRoundTrip(m: seq<Byte>, order: seq<nat>)
    requires Fits(order, 2)
    ensures |PackBE(order, 2)| == 2 * |order|
    ensures UnpackBE(Prefix(Overwrite(m, PackBE(order, 2)), 2 * |order|), 2) == order
  {
    PrefixOverwrite(m, PackBE(order, 2));
    UnpackPack(order, 2);
  }

  class ChanReorder {
    const blk: Block
    const nchans: nat

    constructor (host: Host, name: string, nchans: nat)
      ensures blk.host == host && blk.prefix == name + "_" && this.nchans == nchans
    {
      blk := new Block(host, name);
      this.nchans := nchans;
    }

    /** set_channel_order: a map of the wrong length is logged (the code
        calls logger.Error; logger.error is meant) and nothing is written; a
        value that is not a uint16 makes struct.pack raise; otherwise the
        '>H' map goes to 'reorder1_map1'. */
    method SetChannelOrder(order: seq<nat>) returns (r: Outcome)
      modifies blk.host
      ensures |order| != nchans ==> r == LoggedError
      ensures |order| == nchans && !Fits(order, 2) ==> r == PackError
      ensures r != Ok ==> blk.host.mems == old(blk.host.mems) && blk.host.log == old(blk.host.log)
      ensures r == Ok <==> |order| == nchans && Fits(order, 2)
      ensures r == Ok ==> var mem := blk.prefix + "reorder1_map1";
        && blk.host.mems == old(blk.host.mems)[mem := Overwrite(old(blk.host.Mem(mem)), PackBE(order, 2))]
        && blk.host.log == old(blk.host.log) + [BytesWrite(mem, PackBE(order, 2))]
        && |PackBE(order, 2)| == 2 * nchans
        && UnpackBE(Prefix(blk.host.Mem(mem), 2 * nchans), 2) == order
      ensures blk.host.regs == old(blk.host.regs)
    {
      if |order| != nchans {
        return LoggedError;
      }
      if !Fits(order, 2) {
        return PackError;
      }
      ghost var m := blk.host.Mem(blk.prefix + "reorder1_map1");
      var orderStr := PackBE(order, 2);
      blk.Write("reorder1_map1", orderStr);
      ReorderRoundTrip(m, order);
      r := Ok;
    }
  }

  // ---------------------------------------------------------------------
  // Packetizer

  class Packetizer {
    const blk: Block

    constructor (host: Host, name: string)
      ensures blk.host == host && blk.prefix == name + "_"
    {
      blk := new Block(host, name);
    }

    method SetNants(nants: Word)
      modifies blk.host
      ensures blk.host.regs == old(blk.host.regs)[blk.prefix + "n_ants" := nants]
      ensures blk.host.mems == old(blk.host.mems)
      ensures blk.host.log == old(blk.host.log) + [WordWrite(blk.prefix + "n_ants", nants)]
    {
      blk.WriteInt("n_ants", nants);
    }

    method UseGpuPacking()
      modifies blk.host
      ensures blk.host.regs == old(blk.host.regs)[blk.prefix + "stupid_gpu_packing" := 1]
      ensures blk.host.mems == old(blk.host.mems)
      ensures blk.host.log == old(blk.host.log) + [WordWrite(blk.prefix + "stupid_gpu_packing", 1)]
    {
      blk.WriteInt("stupid_gpu_packing", 1);
    }

    method UseFpgaPacking()
      modifies blk.host
      ensures blk.host.regs == old(blk.host.regs)[blk.prefix + "stupid_gpu_packing" := 0]
      ensures blk.host.mems == old(blk.host.mems)
      ensures blk.host.log == old(blk.host.log) + [WordWrite(blk.prefix + "stupid_gpu_packing", 0)]
    {
      blk.WriteInt("stupid_gpu_packing", 0);
    }

    /** Write a table as '>L' words; struct.pack raises on a value that does
        not fit in 32 bits, and then nothing is written. */
    method WriteTable(mem: string, xs: seq<nat>) returns (r: Outcome)
      modifies blk.host
      ensures r == Ok <==> Fits(xs, 4)
      ensures r != Ok ==> r == PackError && blk.host.mems == old(blk.host.mems) && blk.host.log == old(blk.host.log)
      ensures r == Ok ==>
        && blk.host.mems == old(blk.host.mems)[blk.prefix + mem := Overwrite(old(blk.host.Mem(blk.prefix + mem)), PackBE(xs, 4))]
        && blk.host.log == old(blk.host.log) + [BytesWrite(blk.prefix + mem, PackBE(xs, 4))]
        && UnpackBE(PackBE(xs, 4), 4) == xs
      ensures blk.host.regs == old(blk.host.regs)
    {
      if !Fits(xs, 4) {
        return PackError;
      }
      blk.Write(mem, PackBE(xs, 4));
      UnpackPack(xs, 4);
      r := Ok;
    }

    method SetDestIps(ips: seq<nat>) returns (r: Outcome)
      modifies blk.host
      ensures r == Ok <==> Fits(ips, 4)
      ensures r != Ok ==> r == PackError && blk.host.mems == old(blk.host.mems) && blk.host.log == old(blk.host.log)
      ensures r == Ok ==>
        && blk.host.mems == old(blk.host.mems)[blk.prefix + "ips" := Overwrite(old(blk.host.Mem(blk.prefix + "ips")), PackBE(ips, 4))]
        && blk.host.log == old(blk.host.log) + [BytesWrite(blk.prefix + "ips", PackBE(ips, 4))]
      ensures blk.host.regs == old(blk.host.regs)
    {
      r := WriteTable("ips", ips);
    }

    method SetAntHeaders(ants: seq<nat>) returns (r: Outcome)
      modifies blk.host
      ensures r == Ok <==> Fits(ants, 4)
      ensures r != Ok ==> r == PackError && blk.host.mems == old(blk.host.mems) && blk.host.log == old(blk.host.log)
      ensures r == Ok ==>
        && blk.host.mems == old(blk.host.mems)[blk.prefix + "ants" := Overwrite(old(blk.host.Mem(blk.prefix + "ants")), PackBE(ants, 4))]
        && blk.host.log == old(blk.host.log) + [BytesWrite(blk.prefix + "ants", PackBE(ants, 4))]
      ensures blk.host.regs == old(blk.host.regs)
    {
      r := WriteTable("ants", ants);
    }

    method SetChanHeaders(chans: seq<nat>) returns (r: Outcome)
      modifies blk.host
      ensures r == Ok <==> Fits(chans, 4)
      ensures r != Ok ==> r == PackError && blk.host.mems == old(blk.host.mems) && blk.host.log == old(blk.host.log)
      ensures r == Ok ==>
        && blk.host.mems == old(blk.host.mems)[blk.prefix + "chans" := Overwrite(old(blk.host.Mem(blk.prefix + "chans")), PackBE(chans, 4))]
        && blk.host.log == old(blk.host.log) + [BytesWrite(blk.prefix + "chans", PackBE(chans, 4))]
      ensures blk.host.regs == old(blk.host.regs)
    {
      r := WriteTable("chans", chans);
    }

    /** initialize: 1024 zero destination addresses, 4096 zero bytes. */
    method Initialize()
      modifies blk.host
      ensures blk.host.mems == old(blk.host.mems)[blk.prefix + "ips" :=
        Overwrite(old(blk.host.Mem(blk.prefix + "ips")), PackBE(seq(1024, _ => 0), 4))]
      ensures |PackBE(seq(1024, _ => 0), 4)| == 4096
      ensures blk.host.regs == old(blk.host.regs)
      ensures blk.host.log == old(blk.host.log) + [BytesWrite(blk.prefix + "ips", PackBE(seq(1024, _ => 0), 4))]
    {
      var r := SetDestIps(seq(1024, _ => 0));
      assert r == Ok;
    }
  }

  // ---------------------------------------------------------------------
  // Eth

  /** The fields of the Ethernet core's 'sw_status' word. */
  datatype EthStatus = EthStatus(
    rxOverrun: nat, rxBadFrame: nat, txOf: nat, txAfull: nat,
    txLed: nat, rxLed: nat, up: nat, eofCnt: nat)

  predicate ValidStatus(s: EthStatus)
  {
    s.rxOverrun <= 1 && s.rxBadFrame <= 1 && s.txOf <= 1 && s.txAfull <= 1
    && s.txLed <= 1 && s.rxLed <= 1 && s.up <= 1 && s.eofCnt < 0x200_0000
  }

  /** The word whose fields are s: flag i at bit i, eof_cnt from bit 7. */
  function EncodeStatus(s: EthStatus): (stat: nat)
    requires ValidStatus(s)
    ensures stat < 0x1_0000_0000
  {
    s.rxOverrun + 2 * s.rxBadFrame + 4 * s.txOf + 8 * s.txAfull
    + 16 * s.txLed + 32 * s.rxLed + 64 * s.up + 128 * s.eofCnt
  }

  /** Shifting right by one more position halves the result. */
  lemma ShrStep(x: nat, n: nat)
    ensures Shr(x, n + 1) == Shr(x, n) / 2
  {
    var p := Pow2(n);
    var q, r := x / p, x % p;
    var a, b := q / 2, q % 2;
    assert x == p * q + r;
    assert p * q == (2 * p) * a + p * b;
    assert p * b + r < 2 * p;
    DivUnique(x, 2 * p, a, p * b + r);
  }

  /** A word is its seven low bits plus 128 times the rest, and the rest
      fits in 25 bits. */
  lemma StatusWord(x: Word)
    ensures x == Shr(x, 0) % 2 + 2 * (Shr(x, 1) % 2) + 4 * (Shr(x, 2) % 2) + 8 * (Shr(x, 3) % 2)
      + 16 * (Shr(x, 4) % 2) + 32 * (Shr(x, 5) % 2) + 64 * (Shr(x, 6) % 2) + 128 * Shr(x, 7)
    ensures Shr(x, 7) < 0x200_0000
  {
    ShrStep(x, 0); ShrStep(x, 1); ShrStep(x, 2); ShrStep(x, 3);
    ShrStep(x, 4); ShrStep(x, 5); ShrStep(x, 6);
    Pow2Table();
  }

  /** One binary digit and the rest are determined by the number. */
  lemma DigitCancel(a: nat, r: nat, b: nat, t: nat)
    requires r < 2 && t < 2 && 2 * a + r == 2 * b + t
    ensures a == b && r == t
  {
  }

  /** Valid fields are determined by the word they encode. */
  lemma EncodeStatusInjective(s: EthStatus, t: EthStatus)
    requires ValidStatus(s) && ValidStatus(t) && EncodeStatus(s) == EncodeStatus(t)
    ensures s == t
  {
    var a6, b6 := s.up + 2 * s.eofCnt, t.up + 2 * t.eofCnt;
    var a5, b5 := s.rxLed + 2 * a6, t.rxLed + 2 * b6;
    var a4, b4 := s.txLed + 2 * a5, t.txLed + 2 * b5;
    var a3, b3 := s.txAfull + 2 * a4, t.txAfull + 2 * b4;
    var a2, b2 := s.txOf + 2 * a3, t.txOf + 2 * b3;
    var a1, b1 := s.rxBadFrame + 2 * a2, t.rxBadFrame + 2 * b2;
    assert EncodeStatus(s) == s.rxOverrun + 2 * a1;
    assert EncodeStatus(t) == t.rxOverrun + 2 * b1;
    DigitCancel(a1, s.rxOverrun, b1, t.rxOverrun);
    DigitCancel(a2, s.rxBadFrame, b2, t.rxBadFrame);
    DigitCancel(a3, s.txOf, b3, t.txOf);
    DigitCancel(a4, s.txAfull, b4, t.txAfull);
    DigitCancel(a5, s.txLed, b5, t.txLed);
    DigitCancel(a6, s.rxLed, b6, t.rxLed);
    DigitCancel(s.eofCnt, s.up, t.eofCnt, t.up);
  }

  /** get_status: (stat >> i) & 1 for the seven flags and
      (stat >> 7) & (2^25 - 1) for eof_cnt. The fields are flags and a 25-bit
      count, and together they are the whole word. */
  function DecodeStatus(stat: Word): (s: EthStatus)
    ensures ValidStatus(s)
    ensures EncodeStatus(s) == stat
  {
    StatusWord(stat);
    AndOne(Shr(stat, 0)); AndOne(Shr(stat, 1)); AndOne(Shr(stat, 2)); AndOne(Shr(stat, 3));
    AndOne(Shr(stat, 4)); AndOne(Shr(stat, 5)); AndOne(Shr(stat, 6));
    Pow2Table();
    AndLowMaskSmall(Shr(stat, 7), 25);
    EthStatus(
      And(Shr(stat, 0), 1), And(Shr(stat, 1), 1), And(Shr(stat, 2), 1), And(Shr(stat, 3), 1),
      And(Shr(stat, 4), 1), And(Shr(stat, 5), 1), And(Shr(stat, 6), 1),
      And(Shr(stat, 7), Pow2(25) - 1))
  }

  /** Decoding the word built from valid fields gives those fields back. */
  lemma StatusRoundTrip(s: EthStatus)
    requires ValidStatus(s)
    ensures DecodeStatus(EncodeStatus(s)) == s
  {
    EncodeStatusInjective(DecodeStatus(EncodeStatus(s)), s);
  }

  /** After clearing bit p and then bit q (p != q), both are clear and every
      other bit is kept. */
  lemma ClearTwoBits(w: Word, p: nat, q: nat)
    requires p < 32 && q < 32 && p != q
    ensures Pow2(1) == 2
    ensures var v := ChangeBits(ChangeBits(w, 0, p, 1), 0, q, 1);
      && Bit(v, p) == 0 && Bit(v, q) == 0
      && forall i :: 0 <= i < 32 && i != p && i != q ==> Bit(v, i) == Bit(w, i)
  {
    assert Pow2(1) == 2;
    var w1 := ChangeBits(w, 0, p, 1);
    BitOfZero(0);
  }

  class Eth {
    const blk: Block
    const port: nat

    constructor (host: Host, name: string, port: nat)
      ensures blk.host == host && blk.prefix == name + "_" && this.port == port
    {
      blk := new Block(host, name);
      this.port := port;
    }

    method GetStatus() returns (st: EthStatus)
      ensures ValidStatus(st)
      ensures EncodeStatus(st) == blk.host.Reg(blk.prefix + "sw_status")
    {
      var stat := blk.ReadUint("sw_status");
      st := DecodeStatus(stat);
    }

    /** Pulse bit 18 of 'ctrl' 0, 1, 0; the register ends with bit 18 clear. */
    method StatusReset()
      modifies blk.host
      ensures var w := old(blk.host.Reg(blk.prefix + "ctrl"));
        && blk.host.regs == old(blk.host.regs)[blk.prefix + "ctrl" := ChangeBits(w, 0, 18, 1)]
        && blk.host.log == old(blk.host.log) + [WordWrite(blk.prefix + "ctrl", ChangeBits(w, 0, 18, 1)),
             WordWrite(blk.prefix + "ctrl", ChangeBits(w, 1, 18, 1)), WordWrite(blk.prefix + "ctrl", ChangeBits(w, 0, 18, 1))]
        && Bit(ChangeBits(w, 0, 18, 1), 18) == 0
      ensures blk.host.mems == old(blk.host.mems)
    {
      LowHighLow(18);
    }

    /** change_reg_bits('ctrl', v, bit) for v = 0, 1, 0. */
    method LowHighLow(bit: nat)
      requires bit < 32
      modifies blk.host
      ensures var w := old(blk.host.Reg(blk.prefix + "ctrl"));
        && blk.host.regs == old(blk.host.regs)[blk.prefix + "ctrl" := ChangeBits(w, 0, bit, 1)]
        && blk.host.log == old(blk.host.log) + [WordWrite(blk.prefix + "ctrl", ChangeBits(w, 0, bit, 1)),
             WordWrite(blk.prefix + "ctrl", ChangeBits(w, 1, bit, 1)), WordWrite(blk.prefix + "ctrl", ChangeBits(w, 0, bit, 1))]
        && Bit(ChangeBits(w, 0, bit, 1), bit) == 0
      ensures blk.host.mems == old(blk.host.mems)
    {
      ghost var w := blk.host.Reg(blk.prefix + "ctrl");
      assert Pow2(1) == 2;
      blk.ChangeRegBits("ctrl", 0, bit, 1);
      blk.ChangeRegBits("ctrl", 1, bit, 1);
      ChangeBitsOverrides(w, 0, 1, bit, 1);
      blk.ChangeRegBits("ctrl", 0, bit, 1);
      ChangeBitsOverrides(w, 1, 0, bit, 1);
      BitOfZero(0);
    }

    /** The UDP port: bits 2-17 of 'ctrl'; the others are kept. */
    method SetPort(port: nat)
      requires port < Pow2(16)
      modifies blk.host
      ensures var w := ChangeBits(old(blk.host.Reg(blk.prefix + "ctrl")), port, 2, 16);
        && blk.host.regs == old(blk.host.regs)[blk.prefix + "ctrl" := w]
        && blk.host.log == old(blk.host.log) + [WordWrite(blk.prefix + "ctrl", w)]
        && forall i :: 0 <= i < 32 && !(2 <= i < 18) ==> Bit(w, i) == Bit(old(blk.host.Reg(blk.prefix + "ctrl")), i)
      ensures blk.host.mems == old(blk.host.mems)
    {
      blk.ChangeRegBits("ctrl", port, 2, 16);
    }

    /** Disable the core (bit 1), then pulse the reset bit 0 low-high-low.
        Both bits end clear and every other bit is kept. */
    method Reset()
      modifies blk.host
      ensures var w := old(blk.host.Reg(blk.prefix + "ctrl"));
        var w1 := ChangeBits(w, 0, 1, 1);
        && blk.host.regs == old(blk.host.regs)[blk.prefix + "ctrl" := ChangeBits(w1, 0, 0, 1)]
        && blk.host.log == old(blk.host.log) + [WordWrite(blk.prefix + "ctrl", w1),
             WordWrite(blk.prefix + "ctrl", ChangeBits(w1, 0, 0, 1)), WordWrite(blk.prefix + "ctrl", ChangeBits(w1, 1, 0, 1)),
             WordWrite(blk.prefix + "ctrl", ChangeBits(w1, 0, 0, 1))]
      ensures var w, v := old(blk.host.Reg(blk.prefix + "ctrl")), blk.host.Reg(blk.prefix + "ctrl");
        && Bit(v, 0) == 0 && Bit(v, 1) == 0
        && forall i :: 2 <= i < 32 ==> Bit(v, i) == Bit(w, i)
      ensures blk.host.mems == old(blk.host.mems)
    {
      DisableThenPulse(1, 0);
    }

    /** change_reg_bits('ctrl', 0, enable), then bit `rst` low-high-low. */
    method DisableThenPulse(enable: nat, rst: nat)
      requires enable < 32 && rst < 32 && enable != rst
      modifies blk.host
      ensures var w := old(blk.host.Reg(blk.prefix + "ctrl"));
        var w1 := ChangeBits(w, 0, enable, 1);
        && blk.host.regs == old(blk.host.regs)[blk.prefix + "ctrl" := ChangeBits(w1, 0, rst, 1)]
        && blk.host.log == old(blk.host.log) + [WordWrite(blk.prefix + "ctrl", w1),
             WordWrite(blk.prefix + "ctrl", ChangeBits(w1, 0, rst, 1)), WordWrite(blk.prefix + "ctrl", ChangeBits(w1, 1, rst, 1)),
             WordWrite(blk.prefix + "ctrl", ChangeBits(w1, 0, rst, 1))]
      ensures var w, v := old(blk.host.Reg(blk.prefix + "ctrl")), blk.host.Reg(blk.prefix + "ctrl");
        && Bit(v, enable) == 0 && Bit(v, rst) == 0
        && forall i :: 0 <= i < 32 && i != enable && i != rst ==> Bit(v, i) == Bit(w, i)
      ensures blk.host.mems == old(blk.host.mems)
    {
      ghost var w := blk.host.Reg(blk.prefix + "ctrl");
      Disable(enable);
      LowHighLow(rst);
      ClearTwoBits(w, enable, rst);
    }

    /** change_reg_bits('ctrl', 0, bit). */
    method Disable(bit: nat)
      requires bit < 32
      modifies blk.host
      ensures blk.host.regs == old(blk.host.regs)[blk.prefix + "ctrl" := ChangeBits(old(blk.host.Reg(blk.prefix + "ctrl")), 0, bit, 1)]
      ensures blk.host.log == old(blk.host.log) + [WordWrite(blk.prefix + "ctrl", ChangeBits(old(blk.host.Reg(blk.prefix + "ctrl")), 0, bit, 1))]
      ensures blk.host.mems == old(blk.host.mems)
    {
      blk.ChangeRegBits("ctrl", 0, bit, 1);
    }

    /** Set the transmit-enable bit 1 of 'ctrl'. */
    method EnableTx()
      modifies blk.host
      ensures var w := ChangeBits(old(blk.host.Reg(blk.prefix + "ctrl")), 1, 1, 1);
        && blk.host.regs == old(blk.host.regs)[blk.prefix + "ctrl" := w]
        && blk.host.log == old(blk.host.log) + [WordWrite(blk.prefix + "ctrl", w)]
      ensures Bit(blk.host.Reg(blk.prefix + "ctrl"), 1) == 1
      ensures blk.host.mems == old(blk.host.mems)
    {
      assert Pow2(1) == 2;
      blk.ChangeRegBits("ctrl", 1, 1, 1);
    }
  }
}
