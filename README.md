# HERA SNAP F-engine control: a Dafny model

The HERA SNAP F-engine is an FPGA design that filters, channelises and
correlates antenna signals. It is driven from Python over a register
interface. This project models three pieces of its control software and
proves properties of them:

- **The block layer** (`control_software/snap_fengine.py`). Each hardware
  block (sync, noise generator, input select, delay, PFB, equaliser, test
  vector generator, channel reorder, packetizer, Ethernet) owns the
  registers whose names start with its name and `_`. Every operation is
  built from prefixed register accessors. The central primitive is the
  read-modify-write of a bit field, `change_reg_bits`. Here the device is
  an abstract register file: the class `RegisterFile.Host` holds a map from
  register name to 32-bit word, a map from memory name to bytes, and the
  log of every write in order. Each block is a class over a `Block`. Each
  of its methods that writes states the new registers, the new memories
  and the new log in full, as functions of the old ones.
- **The acquisition script** (`control_software/scripts/get_corr_12hr.py`).
  It covers:
  - the accumulation length and its write-only-if-different rule;
  - the 21-pair baseline table and the numpy roll of that table;
  - the select-then-read order within one bundle of spectra;
  - the per-bundle record counts and the antenna index arrays;
  - the bounded reconnect counter.

  The correlator object the script uses comes from a library outside this
  repository. Here it is a class that records each call in order. Its
  `read_bram` returns the next of a supplied sequence of readouts.
- **The correlator test** (`control_software/test_corr.py`). It covers:
  - the 4-bit two's-complement sample decode;
  - the wrapping uint8 ramp test vectors;
  - the walk over antenna pairs and its input-select word;
  - the conjugate-multiply, sum-by-8 reference correlation;
  - the pairing of the read-back int32 words into complex values.

  Complex values are pairs of integers.

Layout, one module per file:
- `Bits`: Python's non-negative integer bit operations (`&`, `|`, `<<`,
  `>>`), and the field transform `ChangeBits` with its bit-level
  characterisation.
- `Packing`: big-endian `struct.pack` and `struct.unpack` (`>H`, `>L`,
  `>Q`, `>l`).
- `Format`: `'%d'` formatting.
- `RegisterFile`: the device.
- `SnapFengine`: the blocks.
- `Acquisition`: the script.
- `TestCorr`: the test.

Register words are integers in [0, 2^32), as Python sees them. A signed
read (`read_int`) is the two's-complement reading of the stored word.

### Where the code and the intended design differ

The model follows the code in each of these places:
- A noise-generator seed is written at bit `stream` of its register, not
  at bit `8 * (stream mod 4)`. Neighbouring streams' seed fields
  therefore overlap.
- The stream range checks of `set_seed`, `get_seed` and `set_delay` reject
  `stream > nstreams`. So `stream == nstreams` is accepted.
- `set_delay` logs an out-of-range stream but still performs the write.
- The accumulation length is `int()` of a quotient. That truncates toward
  zero, and agrees with the floor only for non-negative integration times.

The code has errors that would stop it from running. The model follows
the evident intent. Where an error changes what a member does, the
member's comment says so:
- `regname` / `reg_name`;
- `RST_BIT` for `STAT_RST_BIT`;
- `self.coeffs` and `width` in `set_coeffs`;
- iterating over the integer `nstreams`, where `range(nstreams)` is meant;
- `set_coeffs(self, ...)`;
- the malformed `write_int` call of `set_delay`, modelled as
  `change_reg_bits('delays', delay, 4*stream, 4)`;
- `logger.Error`;
- the `dict` syntax of `get_status`;
- `def Sync`;
- the `super` calls that name the wrong classes;
- `logging.get_logger` at module level, where `logging.getLogger` is meant;
- the global `host` that the accessors of `Block` call and that is never
  defined. The model's accessors use the block's own host;
- the unmatched `)` that ends the `write_int` and `write_uint` lines of
  `Block`;
- `tv += ramp << (8*stream)` in `write_freq_ramp`. It adds an int64 array
  in place to a '>Q' (uint64) array, which numpy refuses to cast, so nothing
  would be written. `EqTvg.WriteFreqRamp` writes the ramp the loop
  evidently means;
- the float `np.ones` that `Eq.initialize` passes to `set_coeffs`, on which
  `coeffs << self.bp` raises. The model passes integer ones.

## Model

| member | source | states |
|---|---|---|
| RegisterFile.Host.ReadUint | control_software/snap_fengine.py:55-56 | the unsigned read returns the stored word (0 for a register never written) |
| RegisterFile.Host.ReadInt | control_software/snap_fengine.py:49-50 | the signed read is the two's-complement value of the stored word: in [-2^31, 2^31) and congruent to it mod 2^32 |
| RegisterFile.Host.WriteInt | control_software/snap_fengine.py:52-53 | a word write updates exactly that register, leaves the memories, and appends one write to the log |
| RegisterFile.Host.Read | control_software/snap_fengine.py:61-62 | a memory read returns the first n bytes, zero past what was written |
| RegisterFile.Host.Write | control_software/snap_fengine.py:64-65 | a memory write overwrites the front of that memory, leaves the registers, and logs one write |
| RegisterFile.Host.Blindwrite | control_software/snap_fengine.py:67-68 | the same store as write, logged as a blind write |
| RegisterFile.Host.DeviceStore | control_software/test_corr.py:32-33 | the correlator replacing a memory during the pause after a select: that memory holds the new data, and the registers and the log are unchanged |
| RegisterFile.RegIn | control_software/snap_fengine.py:55-56 | a register in the map reads its stored word and one never written reads 0 |
| RegisterFile.MemIn | control_software/snap_fengine.py:61-62 | a memory in the map reads its contents and one never written is empty |
| RegisterFile.Overwrite | control_software/snap_fengine.py:64-65 | the written bytes replace the front of the memory and the bytes past them are kept |
| RegisterFile.Prefix | control_software/snap_fengine.py:61-62 | length n; byte i is the stored byte or 0 |
| RegisterFile.PrefixOverwrite | control_software/snap_fengine.py:61-65 | reading back as many bytes as were written returns them |
| Format.DecimalInjective | control_software/snap_fengine.py:149 | different stream numbers give different '%d' names, so per-stream registers never collide |
| Format.Decimal | control_software/snap_fengine.py:149 | '%d': only digits, one digit exactly below 10, the last digit is n mod 10, and no leading zero from 10 on |
| Bits.Signed | control_software/snap_fengine.py:49-50 | the two's-complement reading of a word: in [-2^31, 2^31) and congruent to the word mod 2^32 |
| Bits.AndSigned | control_software/snap_fengine.py:106-107 | `curr & mask` on the signed reading, taken on its low 32 bits, is at most the mask |
| Bits.ChangeBits | control_software/snap_fengine.py:70-74 | every bit of `(orig & mask) + (val << start)` inside [start, start+width) is val's, and every bit outside is orig's |
| Bits.FieldOfChangeBits | control_software/snap_fengine.py:70-74 | reading the field back gives the value written |
| Bits.ChangeBitsKeepsOutside | control_software/snap_fengine.py:70-74 | the bits outside the field are those of the original word |
| Bits.ChangeBitsIdempotent | control_software/snap_fengine.py:70-74 | writing the same field value twice equals writing it once |
| Bits.ChangeBitsOverrides | control_software/snap_fengine.py:70-74 | a second write to the same field overrides the first |
| Bits.ChangeBitsSameValue | control_software/snap_fengine.py:70-74 | writing back the value a field holds leaves the word unchanged |
| Bits.AndLowMask | control_software/snap_fengine.py:371 | `x & (2^n - 1)` is x mod 2^n |
| Bits.SignBit | control_software/test_corr.py:8 | on a nibble, `x & 0x8` is set exactly when x >= 8 |
| Packing.DecodeEncode | control_software/snap_fengine.py:281-286 | a value below 256^size decodes back from its big-endian encoding |
| Packing.EncodeDecode | control_software/snap_fengine.py:281-286 | encoding the value of a byte string gives that byte string back |
| Packing.UnpackPack | control_software/snap_fengine.py:281-286 | unpacking a packing of values that fit gives the values back |
| Packing.UnpackLength | control_software/snap_fengine.py:286 | size*n bytes unpack to n values |
| Packing.PackQuadAt | control_software/snap_fengine.py:312 | byte j of value k is at index 8k + j of a '>Q' packing |
| Packing.UnpackWordAt | control_software/snap_fengine.py:213 | word k of a 4-byte unpacking is bytes 4k..4k+3 read big-endian |
| Packing.UnpackSigned32 | control_software/snap_fengine.py:213 | '>l' unpacking gives one 32-bit signed value per 4 bytes, congruent to the unsigned word |
| Packing.PackBE | control_software/snap_fengine.py:281 | n values pack to size·n bytes |
| Packing.UnpackBE | control_software/snap_fengine.py:286 | every unpacked value fits in `size` bytes |
| SnapFengine.Block.ReadInt | control_software/snap_fengine.py:49-50 | reads the prefixed register as a signed value |
| SnapFengine.Block.WriteInt | control_software/snap_fengine.py:52-53 | writes exactly the prefixed register and logs it |
| SnapFengine.Block.ReadUint | control_software/snap_fengine.py:55-56 | reads the prefixed register |
| SnapFengine.Block.WriteUint | control_software/snap_fengine.py:58-59 | goes through write_int: writes exactly the prefixed register |
| SnapFengine.Block.Read | control_software/snap_fengine.py:61-62 | reads nbytes of the prefixed memory |
| SnapFengine.Block.Write | control_software/snap_fengine.py:64-65 | overwrites the prefixed memory only |
| SnapFengine.Block.Blindwrite | control_software/snap_fengine.py:67-68 | overwrites the prefixed memory only, logged as blind |
| SnapFengine.Block.ChangeRegBits | control_software/snap_fengine.py:70-74 | one read-modify-write: the prefixed register becomes ChangeBits of its old value, no other register or memory changes, one write is logged |
| SnapFengine.PulseWords | control_software/snap_fengine.py:106-109 | three words, the first equal to the third |
| SnapFengine.PulseFacts | control_software/snap_fengine.py:80-82 | the middle write is the first plus the target bit; the register ends with the target bit clear, the two kept control bits as they were, and every other bit clear |
| SnapFengine.Sync.Uptime | control_software/snap_fengine.py:84-88 | the raw 'uptime' register |
| SnapFengine.Sync.Period | control_software/snap_fengine.py:90-94 | the 'period' register |
| SnapFengine.Sync.Count | control_software/snap_fengine.py:96-100 | the 'count' register |
| SnapFengine.Sync.Pulse | control_software/snap_fengine.py:106-109 | exactly three writes to 'arm' of the pulse words; nothing else changes |
| SnapFengine.Sync.ArmSync | control_software/snap_fengine.py:102-109 | three writes pulsing ARM_SYNC while keeping SW_SYNC and ARM_NOISE |
| SnapFengine.Sync.ArmNoise | control_software/snap_fengine.py:111-118 | three writes pulsing ARM_NOISE while keeping SW_SYNC and ARM_SYNC |
| SnapFengine.Sync.SwSync | control_software/snap_fengine.py:120-127 | three writes pulsing SW_SYNC while keeping ARM_NOISE and ARM_SYNC |
| SnapFengine.Sync.Initialize | control_software/snap_fengine.py:134-135 | 'arm' becomes 0 |
| SnapFengine.SeedRegInjective | control_software/snap_fengine.py:149 | two streams share a seed register only when stream // 4 agrees |
| SnapFengine.SeedReg | control_software/snap_fengine.py:149 | the register name is 'seed' followed by at least one more character, the digits of stream // 4 |
| SnapFengine.SeedMask | control_software/snap_fengine.py:151 | `0xffffffff - (0xff << stream)` is the keep-mask of the 8-bit field at bit `stream` |
| SnapFengine.SeedOf | control_software/snap_fengine.py:162 | `val & (0xff << stream)` has bits stream..stream+7 of the register in place and every other bit 0 |
| SnapFengine.SeedOfBits | control_software/snap_fengine.py:162 | the same, for the expression itself |
| SnapFengine.SeedWord | control_software/snap_fengine.py:150-152 | the word set_seed writes is the 8-bit field write at bit `stream` |
| SnapFengine.SeedRoundTrip | control_software/snap_fengine.py:142-162 | get_seed after set_seed returns `seed << stream` |
| SnapFengine.SeedKeepsOtherBits | control_software/snap_fengine.py:151-152 | set_seed keeps every bit outside `0xff << stream` |
| SnapFengine.ClearedBit | control_software/snap_fengine.py:150-152 | after set_seed(0, s), bit i is 0 inside the field of s and the old bit outside |
| SnapFengine.ClearedOutsideBit | control_software/snap_fengine.py:150-152 | a bit outside the cleared field keeps its value |
| SnapFengine.ClearedSeed | control_software/snap_fengine.py:150-167 | clearing the field of s zeroes the seed of s and keeps every already zero seed zero, however the fields overlap |
| SnapFengine.ZeroSeedWord | control_software/snap_fengine.py:150-152 | set_seed(0, s) writes the register with the field of s cleared |
| SnapFengine.SeedKeys | control_software/snap_fengine.py:149 | the seed registers of streams 0..n-1, in stream order: entry s is `prefix + 'seed%d' % (s // 4)` |
| SnapFengine.SeedClearLog | control_software/snap_fengine.py:165-167 | n writes, in stream order; write s goes to stream s's register and is that register's value at that point with the field of s cleared |
| SnapFengine.SeedsClearedStep | control_software/snap_fengine.py:150-152 | one more set_seed(0, s) is one more clearing step and appends its one write to the log |
| SnapFengine.SeedsClearedZero | control_software/snap_fengine.py:154-167 | after the clearing, the seed of every cleared stream reads 0 |
| SnapFengine.SeedsClearedOther | control_software/snap_fengine.py:165-167 | the clearing leaves every register that holds no cleared stream's seed |
| SnapFengine.SeedsClearedBits | control_software/snap_fengine.py:151-152 | the clearing keeps every bit of a seed register that lies outside the fields of all its cleared streams |
| SnapFengine.SeedsClearedReads | control_software/snap_fengine.py:154-167 | the three facts above, read through the host |
| SnapFengine.NoiseGen.SetSeed | control_software/snap_fengine.py:142-152 | for stream > nstreams it logs and writes nothing; otherwise it writes exactly the seed word to `seed<stream // 4>` |
| SnapFengine.NoiseGen.GetSeed | control_software/snap_fengine.py:154-162 | nothing exactly when stream > nstreams; otherwise the register masked to `0xff << stream` |
| SnapFengine.NoiseGen.Initialize | control_software/snap_fengine.py:165-167 | the registers are the seeds of streams 0..nstreams-1 cleared one after another, and the log holds those nstreams writes in stream order; every stream's seed then reads back 0, every bit of a seed register outside all of its streams' fields is kept, no other register changes, and no memory changes |
| SnapFengine.SourceWordBits | control_software/snap_fengine.py:191-196 | the USE_ADC word has bits 1..n set and no other |
| SnapFengine.SourceSelWord | control_software/snap_fengine.py:182-207 | the select word is a 32-bit word: 0 for USE_NOISE, bits 1..n set for USE_ADC, bits 2..n+1 set for USE_ZERO, and no other bits |
| SnapFengine.SourceSelFacts | control_software/snap_fengine.py:182-207 | the same facts, for `use * (2^(n+1) - 2)` |
| SnapFengine.SourceWordAllBits | control_software/snap_fengine.py:191-207 | the bits of the USE_ADC word and of twice it, the USE_ZERO word |
| SnapFengine.Evens | control_software/snap_fengine.py:215 | `x[0::2]`: the elements at even indices |
| SnapFengine.Odds | control_software/snap_fengine.py:216 | `x[1::2]`: the elements at odd indices |
| SnapFengine.Input.SourceWord | control_software/snap_fengine.py:184-186 | the accumulating loop computes use * (2^(n+1) - 2), the sum of use * (2 << s) |
| SnapFengine.Input.UseSource | control_software/snap_fengine.py:182-207 | with a stream it raises NotImplementedError and writes nothing; otherwise it writes exactly 'source_sel' |
| SnapFengine.Input.UseNoise | control_software/snap_fengine.py:182-189 | the same, for USE_NOISE |
| SnapFengine.Input.UseAdc | control_software/snap_fengine.py:191-198 | the same, for USE_ADC |
| SnapFengine.Input.UseZero | control_software/snap_fengine.py:200-207 | the same, for USE_ZERO |
| SnapFengine.Input.GetStats | control_software/snap_fengine.py:209-217 | 'rms_enable' is written 1, 0, 1; the means and sds are the even and odd entries of the 2·nstreams signed words read |
| SnapFengine.Input.Initialize | control_software/snap_fengine.py:219-221 | source_sel holds the ADC word and rms_enable is 1, by exactly those two logged writes in that order; no memory changes |
| SnapFengine.Delay.SetDelay | control_software/snap_fengine.py:231-234 | logs for stream > nstreams and writes the 4-bit field at bit 4·stream in every case |
| SnapFengine.Delay.Initialize | control_software/snap_fengine.py:236-237 | 'delays' becomes 0 |
| SnapFengine.Pfb.SetFftShift | control_software/snap_fengine.py:248-249 | writes bits 0-11 of 'ctrl' and keeps bits 12-31 |
| SnapFengine.Pfb.SetFftPreshift | control_software/snap_fengine.py:251-252 | writes bits 12-13 of 'ctrl' and keeps all the others |
| SnapFengine.Pfb.RaiseAndDrop | control_software/snap_fengine.py:255-256 | two writes, bit up then down; the register ends with that bit clear and the rest as before |
| SnapFengine.Pfb.RstStats | control_software/snap_fengine.py:254-256 | pulses bit 14; 'ctrl' ends with bit 14 clear |
| SnapFengine.Pfb.IsOverflowing | control_software/snap_fengine.py:258-259 | true exactly when 'status' is non-zero |
| SnapFengine.Pfb.Initialize | control_software/snap_fengine.py:261-263 | the unprefixed 'ctrl' becomes 0 and the block's 'ctrl' loses bit 14; the log holds the clear, then the raise and the drop of bit 14; no memory changes |
| SnapFengine.Quantized | control_software/snap_fengine.py:275-279 | one word per coefficient, each fitting a '>Q' word |
| SnapFengine.Constant | control_software/snap_fengine.py:291 | n copies of a value |
| SnapFengine.QuantizedOnes | control_software/snap_fengine.py:289-291 | unit coefficients quantize to 2^7 = 128 |
| SnapFengine.SaturateCoeffs | control_software/snap_fengine.py:275-279 | each scaled value above 2^18 - 1 becomes exactly 2^18 - 1, the others stay as scaled; the warning is given exactly when some value is above |
| SnapFengine.AnyAbove | control_software/snap_fengine.py:276 | `np.any(a > bound)`, both directions |
| SnapFengine.ClampToMax | control_software/snap_fengine.py:279 | in place, each entry becomes min(entry, bound) |
| SnapFengine.CoeffsIn | control_software/snap_fengine.py:285-286 | ncoeffs values read back |
| SnapFengine.CoeffsRoundTrip | control_software/snap_fengine.py:274-286 | get_coeffs after set_coeffs of a full table returns the quantized values |
| SnapFengine.CoeffMemInjective | control_software/snap_fengine.py:282 | different streams use different coefficient memories |
| SnapFengine.CoeffMem | control_software/snap_fengine.py:282 | the memory name ends in '_coeffs', after at least one digit |
| SnapFengine.CoeffKeys | control_software/snap_fengine.py:282 | the coefficient memories of streams 0..n-1 in stream order: entry s is `prefix + '%d_coeffs' % s` |
| SnapFengine.CoeffKeysFresh | control_software/snap_fengine.py:282 | stream n's memory is not among those of the streams before it |
| SnapFengine.UnitCoeffLog | control_software/snap_fengine.py:289-291 | n writes in stream order; write s sends the table of 128s to stream s's memory |
| SnapFengine.TablesWrittenStep | control_software/snap_fengine.py:281-291 | writing the table to one more memory not yet written extends the run of written memories and leaves the rest |
| SnapFengine.UnitCoeffStep | control_software/snap_fengine.py:289-291 | one more stream appends its one write to the log and its memory to the written ones, and that memory is new |
| SnapFengine.Eq.SetCoeffs | control_software/snap_fengine.py:274-282 | writes the '>Q' packing of the quantized values to '<stream>_coeffs' only; warns exactly when some value saturates |
| SnapFengine.Eq.GetCoeffs | control_software/snap_fengine.py:284-286 | the ncoeffs '>Q' values at the front of '<stream>_coeffs' |
| SnapFengine.Eq.Initialize | control_software/snap_fengine.py:289-291 | each stream's memory holds the table of 128s written over what it held, and reads back 128 everywhere; no other memory and no register changes; the log holds the nstreams writes in stream order |
| SnapFengine.LanesHorner | control_software/snap_fengine.py:310-311 | one more byte lane is b plus 256 times the lanes so far |
| SnapFengine.LaneDigit | control_software/snap_fengine.py:310-311 | byte lane s of the accumulated word is b for s < nstreams and 0 above |
| SnapFengine.RampWords | control_software/snap_fengine.py:307-311 | nchans words |
| SnapFengine.RampLane | control_software/snap_fengine.py:306-312 | in the packed ramp, byte lane s of word k is k mod 256 for every stream s < nstreams, and 0 above |
| SnapFengine.EqTvg.TvgEn | control_software/snap_fengine.py:300-301 | 'tvg_en' becomes 1 |
| SnapFengine.EqTvg.TvgDisable | control_software/snap_fengine.py:303-304 | 'tvg_en' becomes 0 |
| SnapFengine.EqTvg.WriteFreqRamp | control_software/snap_fengine.py:306-312 | the per-stream accumulation loop writes the packed ramp words to 'tv' |
| SnapFengine.EqTvg.Initialize | control_software/snap_fengine.py:314-316 | 'tvg_en' becomes 0 and the ramp goes to 'tv', by exactly those two logged writes in that order |
| SnapFengine.ReorderRoundTrip | control_software/snap_fengine.py:328-329 | 2·n bytes are written, and they decode as '>H' back to the order |
| SnapFengine.ChanReorder.SetChannelOrder | control_software/snap_fengine.py:323-329 | a map of the wrong length is logged and nothing is written; otherwise exactly 2·nchans bytes go to 'reorder1_map1' and read back as the order; a non-uint16 entry raises and writes nothing |
| SnapFengine.Packetizer.SetNants | control_software/snap_fengine.py:335-336 | 'n_ants' becomes nants |
| SnapFengine.Packetizer.UseGpuPacking | control_software/snap_fengine.py:338-339 | 'stupid_gpu_packing' becomes 1 |
| SnapFengine.Packetizer.UseFpgaPacking | control_software/snap_fengine.py:341-342 | 'stupid_gpu_packing' becomes 0 |
| SnapFengine.Packetizer.WriteTable | control_software/snap_fengine.py:344-351 | writes the '>L' packing exactly when every value fits 32 bits (otherwise raises and writes nothing); the packing unpacks back |
| SnapFengine.Packetizer.SetDestIps | control_software/snap_fengine.py:344-345 | exactly when every value fits in 32 bits, the '>L' table goes to 'ips' by one logged write; otherwise struct.pack raises and nothing changes; no register changes |
| SnapFengine.Packetizer.SetAntHeaders | control_software/snap_fengine.py:347-348 | exactly when every value fits in 32 bits, the '>L' table goes to 'ants' by one logged write; otherwise struct.pack raises and nothing changes; no register changes |
| SnapFengine.Packetizer.SetChanHeaders | control_software/snap_fengine.py:350-351 | exactly when every value fits in 32 bits, the '>L' table goes to 'chans' by one logged write; otherwise struct.pack raises and nothing changes; no register changes |
| SnapFengine.Packetizer.Initialize | control_software/snap_fengine.py:353-354 | 1024 zero addresses, 4096 bytes, go to 'ips' by one logged write; nothing else changes |
| SnapFengine.EncodeStatus | control_software/snap_fengine.py:364-371 | a status with valid fields encodes to a 32-bit word |
| SnapFengine.EncodeStatusInjective | control_software/snap_fengine.py:364-371 | valid fields are determined by their word |
| SnapFengine.DecodeStatus | control_software/snap_fengine.py:361-372 | seven flags in {0,1} and eof_cnt < 2^25, which together re-encode to the word: stat == Σ flag_i·2^i + eof_cnt·2^7 |
| SnapFengine.StatusWord | control_software/snap_fengine.py:364-371 | a word is its seven low bits plus 128 times the rest, and the rest is below 2^25 |
| SnapFengine.StatusRoundTrip | control_software/snap_fengine.py:361-372 | decoding the word of valid fields gives them back |
| SnapFengine.ClearTwoBits | control_software/snap_fengine.py:382-388 | clearing two bits leaves both clear and every other bit as it was |
| SnapFengine.Eth.GetStatus | control_software/snap_fengine.py:361-372 | the decoded status of 'sw_status': valid fields that re-encode to the register |
| SnapFengine.Eth.StatusReset | control_software/snap_fengine.py:374-377 | bit 18 of 'ctrl' is written 0, 1, 0 and ends clear |
| SnapFengine.Eth.LowHighLow | control_software/snap_fengine.py:375-377 | one bit written 0, 1, 0; it ends clear and the rest as before |
| SnapFengine.Eth.SetPort | control_software/snap_fengine.py:379-380 | writes bits 2-17 of 'ctrl' and keeps all the others |
| SnapFengine.Eth.Reset | control_software/snap_fengine.py:382-388 | four writes; 'ctrl' ends with bits 0 and 1 clear and bits 2-31 as before |
| SnapFengine.Eth.DisableThenPulse | control_software/snap_fengine.py:382-388 | the enable bit cleared, then the reset bit pulsed: both end clear, the rest kept |
| SnapFengine.Eth.Disable | control_software/snap_fengine.py:384 | clears one bit of 'ctrl' by one field write |
| SnapFengine.Eth.EnableTx | control_software/snap_fengine.py:390-391 | bit 1 of 'ctrl' ends set |
| TestCorr.SignedInt | control_software/test_corr.py:7-11 | on a nibble the value is in [-8, 7], equals x below 8 and x - 16 from 8 on, and is congruent to x mod 16 |
| TestCorr.SignedIntOfNibble | control_software/test_corr.py:7-11 | every value in [-8, 7] is the reading of its own low nibble |
| TestCorr.Sample | control_software/test_corr.py:35-43 | a byte decodes to (signed low nibble, signed high nibble), both in [-8, 7], that together give the byte back |
| TestCorr.SampleRoundTrip | control_software/test_corr.py:35-43 | decoding the byte of a sample gives the sample back |
| TestCorr.TvLane | control_software/test_corr.py:19-23 | `tv[stream·nchans + k] == (k + stream) mod 256` |
| TestCorr.WrapAdd | control_software/test_corr.py:19-23 | adding the stream number to a uint8 ramp value that already wrapped wraps like the unwrapped sum |
| TestCorr.BuildTv | control_software/test_corr.py:19-23 | the slice-assigning loop yields that array, of nchans·nstreams bytes |
| TestCorr.WriteTestVectors | control_software/test_corr.py:19-28 | writes tv to 'tv', then 'sync_period' = 8192·32 and 'corr_0_acc_len' = 8192, in that order |
| TestCorr.InputSel | control_software/test_corr.py:32 | the select word of two antennas below 256 fits in 16 bits |
| TestCorr.InputSelRoundTrip | control_software/test_corr.py:32 | `(ant1 << 8) + ant2` decodes back to (ant1, ant2) |
| TestCorr.Row | control_software/test_corr.py:31 | the inner loop visits (a, a), (a, a+1), ..., (a, 5) |
| TestCorr.AllPairs | control_software/test_corr.py:30-31 | every visited pair has ant1 <= ant2 < 6 |
| TestCorr.RowsInRange | control_software/test_corr.py:30-31 | the first n rows have ant1 < n and ant1 <= ant2 < 6 |
| TestCorr.RowsComplete | control_software/test_corr.py:30-31 | every pair with ant1 < n is visited in the first n rows |
| TestCorr.RowsOrdered | control_software/test_corr.py:30-32 | the visits are in strictly increasing select-word order |
| TestCorr.AllPairsFacts | control_software/test_corr.py:30-32 | exactly 21 pairs, every pair ant1 <= ant2 < 6, each once, in lexicographic order |
| TestCorr.Samples | control_software/test_corr.py:36-42 | one sample per byte |
| TestCorr.Pol | control_software/test_corr.py:35-43 | nchans samples of one antenna's slice |
| TestCorr.CorrTest | control_software/test_corr.py:45-46 | nchans/8 sums, entry j summing the conjugate products of channels 8j..8j+7 |
| TestCorr.DotConj | control_software/test_corr.py:45-46 | a signal times its own conjugate sums to a real value that is not negative |
| TestCorr.DotConjSwap | control_software/test_corr.py:45-46 | swapping the signals conjugates the sum |
| TestCorr.CorrTestSymmetry | control_software/test_corr.py:45-46 | an autocorrelation is real and non-negative in every group, and swapping the antennas conjugates every group |
| TestCorr.Pairing | control_software/test_corr.py:51 | value i is (word 2i, word 2i+1) |
| TestCorr.PairingInterleave | control_software/test_corr.py:51 | pairing the interleaved words of complex values gives them back |
| TestCorr.Word32 | control_software/test_corr.py:48 | a signed 32-bit value congruent to the big-endian word |
| TestCorr.Measured | control_software/test_corr.py:48-51 | 1024 complex values from 8·1024 bytes |
| TestCorr.Reference | control_software/test_corr.py:35-46 | nchans/8 reference sums for a pair |
| TestCorr.ReadCorr | control_software/test_corr.py:48-51 | the 2048 '>l' words, paired even=real and odd=imaginary, are the measured values |
| TestCorr.RowAt | control_software/test_corr.py:31-48 | entry j of a row's results is the result for (a, a+j) |
| TestCorr.RowSelAt | control_software/test_corr.py:31-32 | select j of a row writes the word of (a, a+j) |
| TestCorr.SurveyAt | control_software/test_corr.py:30-48 | result i of the survey is the result for the i-th visited pair |
| TestCorr.SurveySelAt | control_software/test_corr.py:30-32 | select i of the survey writes the i-th visited pair's word |
| TestCorr.SurveyResultsShape | control_software/test_corr.py:30-48 | 21 results, result i holding pair i of AllPairs with its reference correlation |
| TestCorr.SurveySelsShape | control_software/test_corr.py:30-32 | 21 selects, select i writing a·256 + b for pair i of AllPairs |
| TestCorr.Survey | control_software/test_corr.py:30-48 | the nested loops give the survey's results, each pair with its own output read back, and issue exactly its selects; 'corr_0_input_sel' ends as (5, 5) and 'corr_0_dout' holds the output for (5, 5) |
| TestCorr.SurveyRow | control_software/test_corr.py:31-48 | one inner loop: that row's results and selects; the row's last select and last output remain |
| TestCorr.RowStateStep | control_software/test_corr.py:31-33 | one more visit replaces the select register and the output memory with those of the new pair |
| TestCorr.SurveyInvariant | control_software/test_corr.py:30-48 | one pass of the inner loop carries the results, the selects, the select register and the output memory of the outer loop forward by one row |
| TestCorr.VisitPair | control_software/test_corr.py:32-48 | one logged select of the pair; the correlator then holds its output for that pair in 'corr_0_dout'; the result is the pair's reference and that output read back |
| Acquisition.Correlator.GetAccLen | control_software/scripts/get_corr_12hr.py:54 | the configured accumulation length |
| Acquisition.Correlator.SetAccLen | control_software/scripts/get_corr_12hr.py:55 | sets it and records one write |
| Acquisition.Correlator.SetInputPair | control_software/scripts/get_corr_12hr.py:59 | records one select |
| Acquisition.Correlator.ReadBramNext | control_software/scripts/get_corr_12hr.py:71 | returns the next supplied readout and records one read |
| Acquisition.AccLen | control_software/scripts/get_corr_12hr.py:52-53 | the quotient of integration_time·250e6 by 8·nchans·spec_per_acc, truncated toward zero: n·d <= x < (n+1)·d when x >= 0, mirrored when x < 0 |
| Acquisition.FloorBounds | control_software/scripts/get_corr_12hr.py:52-53 | floor division brackets a non-negative dividend |
| Acquisition.Configure | control_software/scripts/get_corr_12hr.py:54-59 | at most one write, made exactly when the value differs; the configured value then equals acc_len, and pair (0, 0) is selected |
| Acquisition.SlotOfIndex | control_software/scripts/get_corr_12hr.py:48-50 | each table entry is a pair a <= b < 6 found at its own index |
| Acquisition.IndexOfSlot | control_software/scripts/get_corr_12hr.py:48-50 | every pair a <= b < 6 is in the table at its slot |
| Acquisition.CyclePolsInRange | control_software/scripts/get_corr_12hr.py:48-50 | 21 entries, each a pair a <= b < 6 |
| Acquisition.CyclePolsDistinct | control_software/scripts/get_corr_12hr.py:48-50 | the 21 pairs are distinct |
| Acquisition.CyclePolsComplete | control_software/scripts/get_corr_12hr.py:48-50 | the table contains every pair a <= b < 6 |
| Acquisition.UnflattenFlatten | control_software/scripts/get_corr_12hr.py:68 | reading a flattened pair table two at a time gives the table |
| Acquisition.FlattenAppend | control_software/scripts/get_corr_12hr.py:68 | flattening distributes over concatenation |
| Acquisition.Roll | control_software/scripts/get_corr_12hr.py:68 | np.roll keeps the length |
| Acquisition.RollAt | control_software/scripts/get_corr_12hr.py:68 | the element at index i lands at index (i + shift) mod n |
| Acquisition.RollRows | control_software/scripts/get_corr_12hr.py:68 | rolling the flattened table two places left moves the first pair to the end |
| Acquisition.RollPairs | control_software/scripts/get_corr_12hr.py:68 | the same, for the flattened table read two at a time |
| Acquisition.RollRowsAt | control_software/scripts/get_corr_12hr.py:68 | element i of the rolled table is `cycle_pols[(i+1) mod 21]` |
| Acquisition.RollRowsPermutes | control_software/scripts/get_corr_12hr.py:68 | the rolled table holds the same pairs |
| Acquisition.RolledEnds | control_software/scripts/get_corr_12hr.py:68 | the reading order starts with (1, 1) and ends with (0, 0) |
| Acquisition.RepeatAt | control_software/scripts/get_corr_12hr.py:44-45 | n copies of a row: length |row|·n and entry i equals row[i mod |row|] |
| Acquisition.Repeat | control_software/scripts/get_corr_12hr.py:44-45 | n copies of a row have |row|·n entries |
| Acquisition.AntArrays | control_software/scripts/get_corr_12hr.py:44-45 | both arrays have 6·num_spectra entries, repeat [0,0,0,1,1,2] and [0,1,2,1,2,2], and pair ant1 <= ant2 < 3 |
| Acquisition.AntRowsComplete | control_software/scripts/get_corr_12hr.py:44-45 | every pair a <= b < 3 appears in each group of six |
| Acquisition.SpectrumTraceAt | control_software/scripts/get_corr_12hr.py:68-71 | call 2k of a spectrum selects pair k and call 2k+1 reads it |
| Acquisition.BundleTraceLength | control_software/scripts/get_corr_12hr.py:66-71 | a bundle makes 2·|pols|·n calls |
| Acquisition.BundleTraceAt | control_software/scripts/get_corr_12hr.py:66-71 | every read is immediately preceded by the select of the corresponding pair, cyclically through the reading order |
| Acquisition.ScriptTraceAt | control_software/scripts/get_corr_12hr.py:66-71 | with the script's table, even call j selects `cycle_pols[((j/2) mod 21 + 1) mod 21]` and odd calls read |
| Acquisition.CollectSpectrum | control_software/scripts/get_corr_12hr.py:67-72 | one readout and one timestamp per pair, in order, with a select before each read |
| Acquisition.CollectBundle | control_software/scripts/get_corr_12hr.py:63-73 | num_spectra records of 21 readouts each, 21·num_spectra timestamps, and exactly the bundle's calls |
| Acquisition.Acquire | control_software/scripts/get_corr_12hr.py:52-73 | the optional acc_len write, the (0, 0) select, then the bundle's calls; the data and times of the bundle |
| Acquisition.BundleStamp | control_software/scripts/get_corr_12hr.py:75 | the file is named after the first timestamp; an empty bundle raises IndexError |
| Acquisition.FileStamp | control_software/scripts/get_corr_12hr.py:75 | `times[0]` raises IndexError exactly when `times` is empty, and otherwise gives the first timestamp |
| Acquisition.CountRaises | control_software/scripts/get_corr_12hr.py:93-96 | at most one count per attempt |
| Acquisition.Reconnect | control_software/scripts/get_corr_12hr.py:86-101 | the counter counts exactly the attempts that raised, never exceeds 20, and costs 120 + 60·cnt seconds; no attempt before the last used one connected, and unless the loop resumes none of the used ones did; it gives up exactly at 20, after a raise; it resumes only on a connected attempt; it stops trying only when it resumed, gave up or ran out of attempts |

## Left out

- The casperfpga transport and its errors. The device is the abstract
  register file `RegisterFile.Host`, which cannot fail. Register values
  produced by the hardware (uptime, counters, RMS levels, status words)
  are whatever the register file holds. The correlator's output for each
  pair in the correlator test is a supplied function of the pair.
- `listdev`: it is broken as written, and its result depends on the
  device's listing.
- `time.sleep` settle and back-off delays. The reconnect loop records only
  the 120 s and 60 s it would sleep.
- Logging, `print_status`, `print` and plotting: they are output only.
- The `SnapFengine` aggregate of blocks: it is instantiation only.
- The acquisition script's argparse, redis monitoring, file naming (beyond
  the `times[0]` stamp) and `np.savez` output. `wait_time` is parsed but
  never used.
- Floating point:
  - the frequency axis `fqs`;
  - the division by `2.**bp` in `get_coeffs` (`Eq.GetCoeffs` returns the
    integers before it);
  - the `/8` float comparisons the correlator test prints.
- The accumulation length takes `integration_time` as an integer. The
  script multiplies by 250e6 and divides in floating point. The model's
  exact quotient agrees with the script while |integration_time·250e6|
  stays below 2^53. Beyond that the float product is rounded.
- `np.transpose` of each spectrum's readouts. A record is the 21 readouts
  in reading order.
- The KeyboardInterrupt that triggers a reconnect, and the outer
  `while True` loop around bundles. The attempts to reopen the board are a
  finite sequence of outcomes supplied to `Acquisition.Reconnect`.
  `time.time()` values are supplied as a clock sequence.
- Bits.ChangeBits: requires `val < 2^width` and `start + width <= 32`. On
  other inputs the code's sum can spill into the bits above the field or
  out of the word, and the model does not describe that.
- SnapFengine.Block.ChangeRegBits: the same preconditions as
  `Bits.ChangeBits`, for the same reason.
- SnapFengine.NoiseGen.SetSeed: requires `seed < 256`, and nstreams is at
  most 24 so that the field `0xff << stream` lies inside the word.
- SnapFengine.Delay.SetDelay: requires `stream < 8` and `delay < 16`, so
  that the 4-bit field lies inside the word.
- SnapFengine.Input.UseSource: nstreams is at most 30 so that the source
  word stays below 2^32.
- SnapFengine.EqTvg.WriteFreqRamp: nstreams is at most 8, so that every
  byte lane lies in a '>Q' word.
- SnapFengine.Pfb.SetFftShift: requires `shift < 2^12`. The
  SetFftPreshift requirement `shift < 2^2` is the same rule.
- SnapFengine.Eth.SetPort: requires `port < 2^16`.
- SnapFengine.Eq.SetCoeffs: coefficients are non-negative integers. A
  float or negative coefficient is not modelled.
- Packing.UnpackBE: ignores a trailing partial group of bytes, where
  struct.unpack would raise. The callers always pass whole groups.
- Acquisition.CollectBundle: requires as many supplied readouts and clock
  values as the bundle consumes.
