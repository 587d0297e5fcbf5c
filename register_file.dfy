/** The FPGA as seen by the control software: a file of named 32-bit
    registers and named byte memories, and the record of every write the
    software issues to it. */
module RegisterFile {
  import opened Bits
  import opened Packing

  /** One write issued to the device, in the order issued. */
  datatype Access =
    | WordWrite(reg: string, value: Word)
    | BytesWrite(mem: string, data: seq<Byte>)
    | BlindWrite(mem: string, data: seq<Byte>)

  /** A memory after `data` is written at offset 0: the first |data| bytes
      are replaced and any bytes past them are kept. */
  function Overwrite(prev: seq<Byte>, data: seq<Byte>): (r: seq<Byte>)
    ensures |r| == if |data| < |prev| then |prev| else |data|
    ensures r[..|data|] == data
    ensures |data| < |prev| ==> r[|data|..] == prev[|data|..]
  {
    if |data| < |prev| then data + prev[|data|..] else data
  }

  /** The first n bytes of a memory; bytes never written read as 0. */
  function Prefix(m: seq<Byte>, n: nat): (r: seq<Byte>)
    ensures |r| == n
    ensures forall i :: 0 <= i < n ==> r[i] == if i < |m| then m[i] else 0
  {
    if n <= |m| then m[..n] else m + seq(n - |m|, _ => 0)
  }

  /** Reading back as many bytes as were written returns them. */
  lemma PrefixOverwrite(m: seq<Byte>, data: seq<Byte>)
    ensures Prefix(Overwrite(m, data), |data|) == data
  {
  }

  /** Writing a register twice leaves the second value. */
  lemma UpdateTwice<K, V>(m: map<K, V>, k: K, v: V, w: V)
    ensures m[k := v][k := w] == m[k := w]
  {
  }

  /** The value of a register in a register map; one never written reads as 0. */
  function RegIn(regs: map<string, Word>, name: string): (w: Word)
    ensures name in regs ==> w == regs[name]
    ensures name !in regs ==> w == 0
  {
    if name in regs then regs[name] else 0
  }

  /** The contents of a memory in a memory map; one never written is empty. */
  function MemIn(mems: map<string, seq<Byte>>, name: string): (m: seq<Byte>)
    ensures name in mems ==> m == mems[name]
    ensures name !in mems ==> m == []
  {
    if name in mems then mems[name] else []
  }

  /** Appending to a log in two steps is appending the concatenation. */
  lemma AppendAssoc<T>(a: seq<T>, b: seq<T>, c: seq<T>)
    ensures a + b + c == a + (b + c)
  {
  }

  /** One write followed by two more is the three writes in order. */
  lemma AppendOneThenTwo<T>(a: seq<T>, x: T, y: T, z: T)
    ensures (a + [x]) + [y, z] == a + [x, y, z]
  {
    assert [x] + [y, z] == [x, y, z];
    AppendAssoc(a, [x], [y, z]);
  }

  class Host {
    var regs: map<string, Word>
    var mems: map<string, seq<Byte>>
    var log: seq<Access>

    constructor ()
      ensures regs == map[] && mems == map[] && log == []
    {
      regs := map[];
      mems := map[];
      log := [];
    }

    /** The current value of a register; one never written reads as 0. */
    function Reg(name: string): (w: Word)
      reads this
      ensures name in regs ==> w == regs[name]
    {
      RegIn(regs, name)
    }

    /** The current contents of a memory; one never written is empty. */
    function Mem(name: string): (m: seq<Byte>)
      reads this
      ensures name in mems ==> m == mems[name]
    {
      MemIn(mems, name)
    }

    method ReadUint(name: string) returns (w: Word)
      ensures w == Reg(name)
    {
      w := Reg(name);
    }

    /** read_int: the register as a two's-complement 32-bit value. */
    method ReadInt(name: string) returns (i: int)
      ensures i == Signed(Reg(name))
      ensures -0x8000_0000 <= i < 0x8000_0000 && i % 0x1_0000_0000 == Reg(name)
    {
      i := Signed(Reg(name));
    }

    method WriteInt(name: string, v: Word)
      modifies this
      ensures regs == old(regs)[name := v]
      ensures mems == old(mems)
      ensures log == old(log) + [WordWrite(name, v)]
    {
      regs := regs[name := v];
      log := log + [WordWrite(name, v)];
    }

    method Read(name: string, n: nat) returns (bs: seq<Byte>)
      ensures bs == Prefix(Mem(name), n)
    {
      bs := Prefix(Mem(name), n);
    }

    method Write(name: string, data: seq<Byte>)
      modifies this
      ensures mems == old(mems)[name := Overwrite(old(Mem(name)), data)]
      ensures regs == old(regs)
      ensures log == old(log) + [BytesWrite(name, data)]
    {
      mems := mems[name := Overwrite(Mem(name), data)];
      log := log + [BytesWrite(name, data)];
    }

    /** The device itself replacing a memory's contents, as the correlator
        does when it publishes a new output. The software issues no write,
        so nothing is logged. */
    method DeviceStore(name: string, data: seq<Byte>)
      modifies this
      ensures mems == old(mems)[name := data]
      ensures regs == old(regs)
      ensures log == old(log)
    {
      mems := mems[name := data];
    }

    /** blindwrite: the same store as write, without the read-back the
        transport would otherwise do. */
    method Blindwrite(name: string, data: seq<Byte>)
      modifies this
      ensures mems == old(mems)[name := Overwrite(old(Mem(name)), data)]
      ensures regs == old(regs)
      ensures log == old(log) + [BlindWrite(name, data)]
    {
      mems := mems[name := Overwrite(Mem(name), data)];
      log := log + [BlindWrite(name, data)];
    }
  }
}
