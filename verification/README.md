# Bootloader MD5 and interrupt priorities

This project models two parts of the STM32 bootloaders and proves what they compute.

**MD5** (`MODULE/md5.c` and `md5.h` of `Bootloader_C6T6_Simplied`; `Bootloader_C8T6_Simplied_20231209`
carries the same text). The code digests a message incrementally: a context with a partial-block
buffer, a two-word bit counter with a hand-written carry, and an unrolled 64-step compression. The
specification is RFC 1321 on whole messages (`Rfc1321.dfy`): pad, cut into 64-byte blocks, fold a
table-driven compression over them. `Blocks.dfy` and `Streaming.dfy` hold for any compression function;
the rest instantiates them. The main results are

- `OneShot.Final`: the digest call writes exactly the RFC digest of its input, for every length it takes
  and any two places in memory, overlapping or not;
- `Md5Context.Update`: one update of *any* context, reachable or not, is `Absorb`, a description of the
  new counter, state and all 64 buffer bytes that never mentions the code's branches;
- `StreamingInvariant`, `RunIsOneUpdate`, `RunsAgree`, `SplittingsAgree`, `StreamedDigest`: any run of updates,
  over any leftover buffer contents, depends on the concatenation of its inputs alone and gives the RFC digest,
  also after the bit counter has wrapped; `Md5Context.UpdateAll` and `OneShot.DigestPieces` are such runs of the
  code itself;
- `SineTable`: the 64 additive constants are the integer parts of 2^32 |sin 1| to 2^32 |sin 64|, in radians, proved
  from the power series of sine and cosine at 1 and the addition formulas, with rational bounds carried through;
- `Transform`, `StepsInverse`, `CompressInverse`: the unrolled code is the RFC's table, its 64 steps permute the
  registers, and subtracting the old state and undoing the steps gives the old state back;
- `InitialBytes`, `PadBytes`, `OutputWords`: what the initial state, every byte of the padded message and the words
  of a digest are;
- `UnpadInverse`, `LengthFieldExact`, `DigestsMeetInCompression`: padding can be undone, and two different
  messages (within the length field) share a digest only if compressing a block of the one and a block of the
  other, each in the state its own digest reaches there, is two different calls with one result;
- `BlockLoopStopsExactly`, `ByteLoopStopsExactly`: the loop variables are 32-bit sums, so the loops do *not* end
  for every length. MD5Update's block loop ends exactly for lengths below `LastIndex`, the loops of MD5Encode and
  MD5Decode exactly for lengths up to 2^32 - 4; that is what the methods ask of their callers. The shortest
  failing update of an empty buffer is given by `LongInputNeverStops`.

**Interrupt priorities** (`CORE/core_cm3.h`, and NVIC_Init in `FWLIB/src/misc.c`). The number P of
implemented priority bits (`prioBits`) is a parameter, 0 to 8. Encoding and decoding are mutual inverses up
to the field widths, encoded and stored priorities are ordered lexicographically, and any sequence of settings
leaves each exception with the last value set for it. The peripheral library's NVIC_Init does *not* always store
the byte that NVIC_SetPriority stores for NVIC_EncodePriority's result: it does so exactly if PRIGROUP is at least
3 or the four low bits of the preemption priority are zero (`InitAgrees`). Below PRIGROUP 3 the C shifts by
2^32 - 3 to 2^32 - 1 places, which C leaves undefined and the processor's LSL by register turns into zero, so
that every channel gets priority 0. The bootloaders are in this case: nothing in them calls
NVIC_PriorityGroupConfig or NVIC_SetPriorityGrouping or writes AIRCR, so PRIGROUP keeps its reset value 0 when
UART_Init asks for preemption 3 and sub priority 3 (`UartPriority`). (The App programs do call
NVIC_PriorityGroupConfig, with group 2, which is PRIGROUP 5.)

Sine and cosine are not in the language. `IsRadian` says that two reals are sin 1 and cos 1: each lies between
all the partial sums of its alternating series, which pins it down. `PartialsNested` shows that the partial sums
from below stay below those from above, so that the completeness of the reals gives such a number. `Turned` then
takes the sine and cosine of 1 to those of n by the addition formulas.

How the C is represented:

- A 32-bit word is a `nat` below 2^32. `&`, `|` and `^` are defined bit by bit (`Word32.Bitwise`), shifts
  one place at a time, and `+`, `-` and `<<` wrap explicitly; masks, shifts and disjoint `|` are then proved
  to be remainders, quotients and sums.
- A pointer into a byte array is an array with an offset. Two pointers that C may alias may alias here,
  at any offsets, except where the C calls memcpy between them; memcpy itself copies between disjoint ranges,
  of one array or of two.
- The uninitialised MD5_CTX and the array `x[64]` of MD5Transform hold arbitrary values.
- In MD5Decode the byte shifted into bit 31 is taken as unsigned, which is what the target compilers do.
- MD5Transform's 64 macro calls are written out, sixteen to a method; MD5Update's counter and block loop are
  methods of their own, and so is the end of MD5Final (`OneShot.Finish`). The ghost parameters of the macros name
  the RFC step that a call is.
- `UpdateAll`, `DigestPieces` and `SetAll` stand for callers: they make any sequence of calls of the functions they
  cite. Their ghost parameter `chunks` names the bytes that the pointers point to.

## Model

| member | source | states |
|---|---|---|
| Rfc1321.AuxiliaryBits | Bootloader_C6T6_Simplied/MODULE/md5.h:14-17 | bit by bit, F and G are conditionals, H is the parity and I flips y where x or not z |
| Word32.RotateLeftSwaps | Bootloader_C6T6_Simplied/MODULE/md5.h:18 | the OR of two shifts swaps the high n bits with the low 32 - n |
| Word32.RotateInverse | Bootloader_C6T6_Simplied/MODULE/md5.h:18 | rotating right by n undoes rotating left by n, and the other way round |
| Compression.Accumulate | Bootloader_C6T6_Simplied/MODULE/md5.h:19-24 | the three wrapping updates in a step macro give b + ((a + f + x + ac) <<< s) modulo 2^32, written out |
| Compression.FF | Bootloader_C6T6_Simplied/MODULE/md5.h:19-24 | with the word, shift and constant of a round 1 step, the macro takes the RFC registers one step further |
| Compression.GG | Bootloader_C6T6_Simplied/MODULE/md5.h:25-30 | the same for round 2 |
| Compression.HH | Bootloader_C6T6_Simplied/MODULE/md5.h:31-36 | the same for round 3 |
| Compression.II | Bootloader_C6T6_Simplied/MODULE/md5.h:37-42 | the same for round 4 |
| Rfc1321.RowFormula | Bootloader_C6T6_Simplied/MODULE/md5.c:91-160 | the step table uses words i, 5i + 1, 3i + 5 and 7i modulo 16 and four cyclic rotations a round |
| Sines.SineTable | Bootloader_C6T6_Simplied/MODULE/md5.c:91-160 | the constant of step i is the integer part of 4294967296 times the absolute value of sin(i + 1), for all 64 steps (section 3.4 of RFC 1321) |
| Compression.Round1 | Bootloader_C6T6_Simplied/MODULE/md5.c:91-106 | the unrolled calls are RFC steps 0 to 15 |
| Compression.Round2 | Bootloader_C6T6_Simplied/MODULE/md5.c:108-124 | the unrolled calls are RFC steps 16 to 31 |
| Compression.Round3 | Bootloader_C6T6_Simplied/MODULE/md5.c:126-142 | the unrolled calls are RFC steps 32 to 47 |
| Compression.Round4 | Bootloader_C6T6_Simplied/MODULE/md5.c:144-160 | the unrolled calls are RFC steps 48 to 63 |
| Compression.Transform | Bootloader_C6T6_Simplied/MODULE/md5.c:83-165 | for every state and block, the new state is the RFC compression of the old one with that block, whatever x[16..63] held |
| Permutation.StepInverse | Bootloader_C6T6_Simplied/MODULE/md5.h:18-42 | subtracting, rotating right and subtracting again undoes a step, and the other way round |
| Permutation.StepsInverse | Bootloader_C6T6_Simplied/MODULE/md5.c:91-160 | for any fixed block, any number of steps is undone by the inverse steps in reverse order, on both sides |
| Permutation.StepsInjective | Bootloader_C6T6_Simplied/MODULE/md5.c:91-160 | registers agree after the steps if and only if they agreed before |
| Permutation.CompressInverse | Bootloader_C6T6_Simplied/MODULE/md5.c:83-165 | for every state and block, subtracting the old state from the new one and undoing the 64 steps gives the old state: all four words are fed forward, after exactly 64 steps |
| Codec.Encode | Bootloader_C6T6_Simplied/MODULE/md5.c:57-69 | for every length on which the loop ends, writes the little-endian bytes of the words at the output pointer, rounding the length up to whole words, and leaves the output before and after alone |
| Codec.Decode | Bootloader_C6T6_Simplied/MODULE/md5.c:70-82 | for every length on which the loop ends, writes the words whose little-endian bytes are at the input pointer and leaves the rest of the output alone |
| Loops.ByteLoopStopsExactly | Bootloader_C6T6_Simplied/MODULE/md5.c:60-82 | the loops of MD5Encode and MD5Decode end if and only if the length is at most 2^32 - 4 |
| LittleEndian.WordsOfBytes | Bootloader_C6T6_Simplied/MODULE/md5.c:57-82 | decoding encoded words gives the words back |
| LittleEndian.BytesOfWords | Bootloader_C6T6_Simplied/MODULE/md5.c:57-82 | encoding decoded bytes gives the bytes back |
| Counter.IndexBits | Bootloader_C6T6_Simplied/MODULE/md5.c:21 | the shift and mask give the bytes in the buffer, count / 8 modulo 64 |
| Counter.CounterIsExact | Bootloader_C6T6_Simplied/MODULE/md5.c:23-26 | the carry test and the three top bits make the two words an exact 64-bit sum, for all counts and lengths |
| Loops.BlockLoopStopsExactly | Bootloader_C6T6_Simplied/MODULE/md5.c:32 | the block loop ends if and only if the length is below 0xFFFFFFC0 plus its start modulo 64 |
| Loops.LongInputNeverStops | Bootloader_C6T6_Simplied/MODULE/md5.c:32 | with an empty buffer a length of 0xFFFFFFC0 makes every loop test succeed |
| Rfc1321.InitialBytes | Bootloader_C6T6_Simplied/MODULE/md5.c:13-16 | as bytes, the initial state runs up from 01 to ef and down from fe to 10 (section 3.3 of RFC 1321) |
| Md5.Md5Context.Init | Bootloader_C6T6_Simplied/MODULE/md5.c:9-17 | two zero counter words and state words with the bytes 01 to ef and fe to 10; the buffer keeps what it held |
| Md5.Memcpy | Bootloader_C6T6_Simplied/MODULE/md5.c:30-40 | overwrites a range of one array with a disjoint range of it or with one of another array |
| Md5.Md5Context.Count | Bootloader_C6T6_Simplied/MODULE/md5.c:23-26 | the counter words become those of the context after the update; nothing else changes |
| Md5.Md5Context.CompressBlocks | Bootloader_C6T6_Simplied/MODULE/md5.c:28-34 | the state folds the live bytes and every whole block of the input; fewer than 64 bytes are left |
| Md5.Md5Context.Update | Bootloader_C6T6_Simplied/MODULE/md5.c:18-41 | the whole new context is the old one having absorbed the input, for every length on which the block loop ends |
| Md5.Md5Context.UpdateAll | Bootloader_C6T6_Simplied/MODULE/md5.c:18-41 | any sequence of updates leaves the context that the fold of `Absorb` over its inputs gives |
| Blocks.FoldIsLoop | Bootloader_C6T6_Simplied/MODULE/md5.c:28-40 | a fold compresses the consecutive 64-byte slices of the stream, each once, length / 64 of them |
| Streaming.IndexAfter | Bootloader_C6T6_Simplied/MODULE/md5.c:21-26 | the index taken from the counter advances by the input length modulo 64, also when the 64-bit counter wraps |
| Streaming.LiveAfter | Bootloader_C6T6_Simplied/MODULE/md5.c:28-40 | the live buffer after an update is the tail of the old live bytes followed by the input |
| Streaming.RefilledBytes | Bootloader_C6T6_Simplied/MODULE/md5.c:28-40 | every buffer byte after an update: the rest of the stream, then the first block's bytes if one was filled, else the old ones |
| Streaming.StaleBytesIgnored | Bootloader_C6T6_Simplied/MODULE/md5.c:9-41 | contexts that differ only in dead buffer bytes still do so after an update |
| Streaming.RunsAgree | Bootloader_C6T6_Simplied/MODULE/md5.c:9-41 | contexts that differ only in dead buffer bytes still do so after any run of updates |
| Streaming.RunIndex | Bootloader_C6T6_Simplied/MODULE/md5.c:18-41 | after any run from any context the index has advanced by all the bytes fed, modulo 64 |
| Streaming.ChunkingIndependent | Bootloader_C6T6_Simplied/MODULE/md5.c:18-41 | updating with a and then b is updating with a + b, from any context |
| Streaming.RunIsOneUpdate | Bootloader_C6T6_Simplied/MODULE/md5.c:18-41 | any run of updates is one update with the concatenation |
| Streaming.SplittingsAgree | Bootloader_C6T6_Simplied/MODULE/md5.c:18-41 | any two splittings of a message leave agreeing contexts |
| Streaming.AbsorbRepresents | Bootloader_C6T6_Simplied/MODULE/md5.c:18-41 | an update of a context that has seen m gives one that has seen m and the input |
| Streaming.StreamingInvariant | Bootloader_C6T6_Simplied/MODULE/md5.c:9-41 | after any run the state folds the complete blocks, the buffer holds the tail and the counter is 8 times the length modulo 2^64 |
| Padding.PadLenExact | Bootloader_C6T6_Simplied/MODULE/md5.c:50-51 | the two-branch padding length is the RFC's |
| Padding.PadLengthIsLeast | Bootloader_C6T6_Simplied/MODULE/md5.c:50-53 | it is the least positive length that leaves eight bytes of the last block |
| Padding.BlockCount | Bootloader_C6T6_Simplied/MODULE/md5.c:50-54 | a padded message has exactly (length + 8) / 64 + 1 whole blocks and no rest |
| Padding.PadBytes | Bootloader_C6T6_Simplied/MODULE/md5.c:50-54 | byte by byte, a padded message is the message, 0x80, zeros and the eight bytes of 8 times its length, lowest first |
| Padding.UnpadInverse | Bootloader_C6T6_Simplied/MODULE/md5.c:50-54 | stripping the length, the zeros and 0x80 gives every message back |
| Padding.PadInjective | Bootloader_C6T6_Simplied/MODULE/md5.c:50-54 | padded messages are equal if and only if the messages are |
| Padding.LengthFieldExact | Bootloader_C6T6_Simplied/MODULE/md5.c:52-54 | the last eight bytes are the bit length modulo 2^64, and determine the length exactly below 2^61 bytes |
| Padding.FinishedRepresents | Bootloader_C6T6_Simplied/MODULE/md5.c:50-55 | the two final updates feed exactly the rest of the padded message, with the count taken before them; no byte stays in the buffer and the state is the digest's |
| Padding.DigestIsLoop | Bootloader_C6T6_Simplied/MODULE/md5.c:42-56 | a digest compresses the (length + 8) / 64 + 1 blocks of the padded message in turn, from the initial state |
| Padding.StreamedDigest | Bootloader_C6T6_Simplied/MODULE/md5.c:42-56 | initialising, any run of updates and the final steps give the RFC digest of the concatenation |
| Padding.StaleBytesFinished | Bootloader_C6T6_Simplied/MODULE/md5.c:42-56 | dead buffer bytes cannot influence the final context either |
| Padding.StaleBytesDigest | Bootloader_C6T6_Simplied/MODULE/md5.c:9-56 | from contexts that agree, any run of updates and the final steps reach one state |
| Blocks.PrefixesCollide | Bootloader_C6T6_Simplied/MODULE/md5.c:31-33 | two streams that differ in their first n blocks, and leave one state after them, have two different compressions with one result at the same block |
| Chaining.DigestsMeetInCompression | Bootloader_C6T6_Simplied/MODULE/md5.c:42-56 | two messages below 2^61 bytes with one digest are equal, or block i of one padded message and block j of the other are two different compressions with one result, each in the state after the blocks before it |
| Rfc1321.OutputWords | Bootloader_C6T6_Simplied/MODULE/md5.c:55 | the sixteen output bytes decode to the state words a, b, c and d in this order |
| OneShot.EncodeCount | Bootloader_C6T6_Simplied/MODULE/md5.c:52 | the length bytes are those of the array of counter words, which are the 64-bit count's, low word first |
| OneShot.EncodeState | Bootloader_C6T6_Simplied/MODULE/md5.c:55 | sixteen bytes at the output pointer are those of the array of state words, the rest stay |
| OneShot.Finish | Bootloader_C6T6_Simplied/MODULE/md5.c:50-55 | from any context, the output gets the state that the padding and length updates lead to, and is otherwise unchanged |
| OneShot.Final | Bootloader_C6T6_Simplied/MODULE/md5.c:42-56 | for every input of up to 65535 bytes, anywhere in an array, sixteen bytes at the output pointer become its RFC 1321 digest and the rest stay, also when output and input overlap |
| OneShot.DigestPieces | Bootloader_C6T6_Simplied/MODULE/md5.c:9-56 | initialising, any sequence of updates and the end of a digest write the RFC digest of the concatenated inputs |
| Nvic.WidthsSum | Bootloader_C6T6_Simplied/CORE/core_cm3.h:1640-1641 | the preemption width is the lesser of P and 7 - group, and the two widths sum to P |
| Nvic.EncodedValue | Bootloader_C6T6_Simplied/CORE/core_cm3.h:1634-1647 | an encoded priority is both fields reduced to their widths, preemption on top, below 2^P |
| Nvic.DecodePriority | Bootloader_C6T6_Simplied/CORE/core_cm3.h:1665-1676 | stores the two decoded fields through the pointers and nothing else; through one pointer twice, the sub priority stays |
| Nvic.DecodedBits | Bootloader_C6T6_Simplied/CORE/core_cm3.h:1674-1675 | the shifts and masks of decoding take the quotient and the remainder by 2 to the sub width, the quotient reduced to the preemption width |
| Nvic.DecodeEncode | Bootloader_C6T6_Simplied/CORE/core_cm3.h:1634-1676 | decoding an encoded pair gives both fields reduced to their widths, for all arguments |
| Nvic.EncodeDecode | Bootloader_C6T6_Simplied/CORE/core_cm3.h:1634-1676 | encoding a decoded priority gives it modulo 2^P |
| Nvic.EncodeOrders | Bootloader_C6T6_Simplied/CORE/core_cm3.h:1634-1647 | encoded priorities compare as the pairs (preemption, sub) do, lexicographically |
| Nvic.SystemIndexRange | Bootloader_C6T6_Simplied/CORE/core_cm3.h:1589 | among core exceptions exactly -12 to -1 index SHP within its bounds, at exception + 12 |
| Nvic.LoadStore | Bootloader_C6T6_Simplied/CORE/core_cm3.h:1586-1616 | storing one exception's byte changes what is loaded for that exception only |
| Nvic.StoredBits | Bootloader_C6T6_Simplied/CORE/core_cm3.h:1589-1591 | shift and mask put the priority modulo 2^P at the top of the byte |
| Nvic.StoredValue | Bootloader_C6T6_Simplied/CORE/core_cm3.h:1589-1615 | reading a stored byte back gives the priority modulo 2^P |
| Nvic.Controller.SetPriority | Bootloader_C6T6_Simplied/CORE/core_cm3.h:1586-1592 | the shifted and masked byte goes to SHP[exception + 12] or IP[exception] and no other cell of either array changes |
| Nvic.Controller.GetPriority | Bootloader_C6T6_Simplied/CORE/core_cm3.h:1609-1616 | reads SHP[exception + 12] or IP[exception], shifted down, and changes nothing |
| Nvic.Controller.SetAll | Bootloader_C6T6_Simplied/CORE/core_cm3.h:1586-1592 | any sequence of settings leaves the registers that the fold of `Store` over it gives |
| Nvic.LastSettingWins | Bootloader_C6T6_Simplied/CORE/core_cm3.h:1586-1616 | after any sequence of settings an exception reads the last value set for it, modulo 2^P |
| Nvic.OthersUndisturbed | Bootloader_C6T6_Simplied/CORE/core_cm3.h:1586-1616 | settings of other exceptions leave its register alone |
| Nvic.StoredOrders | Bootloader_C6T6_Simplied/CORE/core_cm3.h:1586-1592 | stored bytes compare as the P-bit priorities do |
| Nvic.StoredLexicographic | Bootloader_C6T6_Simplied/CORE/core_cm3.h:1586-1647 | stored bytes of encoded priorities compare lexicographically by preemption and sub priority |
| Nvic.ConfiguredPriority | Bootloader_C6T6_Simplied/CORE/core_cm3.h:1586-1676 | encoding, setting, getting and decoding gives both fields back, reduced to their widths |
| NvicInit.GroupBits | Bootloader_C6T6_Simplied/FWLIB/src/misc.c:124 | the masked difference shifted down is 7 minus the PRIGROUP field |
| NvicInit.ShiftDefined | Bootloader_C6T6_Simplied/FWLIB/src/misc.c:124-128 | the shift by 4 - tmppriority is by less than 32 places if and only if PRIGROUP is at least 3 |
| NvicInit.LowGroups | Bootloader_C6T6_Simplied/FWLIB/src/misc.c:124-132 | below PRIGROUP 3 the byte is 0 for all priorities |
| NvicInit.InitByteValue | Bootloader_C6T6_Simplied/FWLIB/src/misc.c:124-132 | for PRIGROUP 3 to 7 the byte is the one NVIC_SetPriority stores for the encoded pair, below that it is 0, for all 8-bit priorities |
| NvicInit.InitAgrees | Bootloader_C6T6_Simplied/FWLIB/src/misc.c:124-132 | NVIC_Init's byte and NVIC_SetPriority's are equal if and only if PRIGROUP is at least 3 or the preemption priority is 0 modulo 16 |
| NvicInit.UartPriority | Bootloader_C6T6_Simplied/FWLIB/src/misc.c:124-132 | with PRIGROUP 0, preemption 3 and sub priority 3, which `MODULE/uart.c` asks for in lines 62 to 66, are stored as 0, while NVIC_SetPriority stores 0x30 for the encoded pair |
| NvicInit.InitPriority | Bootloader_C6T6_Simplied/FWLIB/src/misc.c:112-144 | for every PRIGROUP IP[channel] gets that byte if the channel is enabled, a disabled channel keeps its own, no other cell of IP or SHP changes |

## Left out

- Cryptographic strength of MD5, beyond tracing equal digests back to the blocks whose compressions meet.
- Memory overrun in MD5Update, MD5Encode and MD5Decode for lengths that never let their loop end: the model stops at the loop test.
- Md5.Memcpy: the library call is a parallel copy between disjoint ranges; C leaves overlapping copies undefined.
- Md5.Md5Context.Update: the input may lie anywhere except in the context's own buffer, into which the C calls memcpy from it.
- NvicInit.InitByteValue: the zero that the model gives to shifts by 32 and more is the processor's, not C's, which leaves them undefined.
- NvicInit.InitPriority: the enable and disable registers (ISER, ICER) are hardware with no state to read back, and are not modelled.
- The bootloader's frame handler, flash writing, CRC and serial code: they call the digest but add device I/O.
- The rest of `core_cm3.h` (SysTick, ITM, reset, interrupt enable and pending bits) and `core_cm3.c`: memory-mapped I/O and inline assembly.
- `system_stm32f10x.c`, the peripheral library apart from NVIC_Init, and the four App copies of `core_cm3.h`, which are the same vendor file.
- The ESP8266 tree, the mini-program and the C# downloader: other programs, UI and data.
