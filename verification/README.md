# Solidbits, verified

Solidbits is a bitmap server: clients send text commands (`SETBIT`, `GETBIT`, `BITCOUNT`, `BITOP`), and
every key is a file. This Dafny project models the five parts of it that carry state and arithmetic, proves
what they are for, and puts them together again. `dafny verify dfyconfig.toml` checks it all.

**Hashing** (`Words`, `WordBits`, `Memory`, `ByteOrder`, `Stripes`, `Xxh64`, `Xxh32`, `Xxh64Injective`,
`HashValues`, `StripeValues`, `Xxh32Values`, `CommandHashes`, `Keys`). `Xxh64.Hash` and `Xxh32.Hash` follow the "XXH64 Algorithm Description" and
"XXH32 Algorithm Description", Steps 1 to 6, of the "xxHash fast digest algorithm specification". The
one-shot code, the unrolled finalisation switch and the streaming state machine are methods and classes
proved to compute them, on processors of either byte order and for every way of cutting the input. Given values,
computed step by step, fix every constant, rotation and accumulator of the description. On top of that: where XXH64 cannot collide, that the constants the dispatcher switches on are the hashes of the
command names, and keys for which the descriptor table goes wrong.

**Bit commands** (`FileView`, `BitCount`, `BitCommands`, `BitOp`). A file is a byte sequence that is
zero-filled when written past its end, with the length cached in its descriptor beside it. The popcount,
the chunked word-at-a-time BITOP, BITCOUNT's ranges and SETBIT/GETBIT are proved against one-line
specifications over bytes and bits, where a bit is a binary digit of a byte's number.

**Connections** (`Framing`, `ConnectionSpec`, `Connection`). `ConnectionSpec.Step` is the state machine of
one client: reads, work done, write done, with every outcome of every allocation and call. The class
`Connection.Connection` has the buffers and loops of the callbacks and is proved to take exactly those
steps. The properties are about all runs under every interleaving.

**Descriptor table** (`TableSpec`, `DescTable`). The slot array, the hash index, the reference counts and
the eviction of slots, with the loops of the code proved to take the steps of `TableSpec.Step` from every
reachable table.

**Parser** (`Splitter`, `ParserSpec`, `Parser`, `Requests`). The two scanners, the dispatch with every
refusal, the descriptors asked for, taken and released, the command that is run, the text of the answer, and the
round trip from a client's line to the request.

**The whole server** (`Server`, `Running`, `Reopened`, `FreshServer`, `Session`). `Server.Serve` runs a request through
the steps of the descriptor table, the buffers of the streams and the SETBIT, GETBIT and BITCOUNT of the files,
and refines a bitmap for every key as long as no file is opened behind a byte that waits in another stream.
`Running` runs the command that the parser records on the open file and gets what the server answers.
`Reopened` says when an answer is right without that, `FreshServer` when it holds by itself. `Session` adds the
connection and the parser, from the bytes received to the bytes sent.

Calls into the outside are inputs: how `stat`, `fopen`, allocations and writes to the socket turn out, what
`atol` makes of a word, and what the files answer. 32- and 64-bit words of the hashes are naturals with
addition, multiplication and rotation modulo 2^32 or 2^64; words of the bit commands are bit-vectors.

## Where the code and its documentation differ

The model follows the code. The members named state exactly when the code does what is expected, or give
the failing input.

- The repository's README.md:64-65 says that negative range arguments of BITCOUNT count from the end. An end that lies
  before the first byte is moved onto the first byte, so `BITCOUNT key 0 -5` on a one-byte file counts that
  byte (`BitCommands.BitCountIsNaive`, `EndMovedExample`).
- The repository's README.md:117-118 promises that requests on one connection are processed in order. A line behind a BITPOS,
  or behind a BITFIELD with enough arguments, is not processed until more bytes arrive, because these get no
  reply and only a finished write dispatches the next line (src/net.c:286-294). Nothing else makes a line
  wait (`Session.WaitsExactly`, `WaitsExample`). The comment at src/net.c:47, that running out of memory for a
  reply closes the connection, is not what the code does, but no reply outgrows its first buffer
  (`Session.AnswerFits`, `Session.Work`).
- A second key in a bucket replaces the first in the index instead of being chained behind it
  (src/file.c:244-250), so the first file is opened again later (`TableSpec.RunFindableExactly`); "aao4" and
  "aaux" are two such keys (`Keys.CollidingKeys`).
- Writes stay in the buffer of their stream (src/file.c:159-165) until the stream is positioned again or closed,
  and the stream of a file that no lookup finds any more, after a collision or an eviction over slot 0, is neither.
  The file is then opened again and read without the byte: after `SETBIT aao4 0 1` and `SETBIT aaux 0 1`,
  `GETBIT aao4 0` answers 0 (`Reopened.StaleExample`). An answer is right nevertheless exactly when the waiting
  byte has the bit that is on disk (`Reopened.ReopenedExactly`).
- The slot of a file is taken for free exactly when its key hashes to 0 (`TableSpec.ZeroHashExactly`), as
  "zeroat6dLZYWwO92" does (`Keys.ZeroKeyOverwritten`).
- When a slot is evicted the new file is not put into it but into slot 0, whether that is in use or not
  (src/file.c:34, 102-153); this is right exactly when slot 0 is the one evicted
  (`TableSpec.EvictionExactly`), and the reference count of the slot is lost otherwise
  (`TableSpec.StepRefsExactly`; `EvictionExample`, for a table of any size). The search for the slot to evict starts at idx, so on a
  table that has just been filled it sees only the last slot (`TableSpec.FirstEviction`).
- Truncating a file keeps its old length cached (src/file.c:118-128), after which SETBIT and GETBIT fail on
  bytes that are no longer there (`TableSpec.LengthIsSize`, `Server.TruncatedFails`).
- The Python client passes the end of a BITCOUNT given without a start as the only range argument
  (clients/python/solidbits.py:45-52), which the server takes as the start
  (`Requests.RangeMeantExactly`, `EndAloneExample`).
- BITOP reports a result of 2^31 bytes as a failure, because its offset is an int
  (`BitOp.ReplyIsLength`, `BitOp.LargestFile`).
- When one source of BITOP cannot be opened, the descriptors taken before it are never released
  (`ParserSpec.LeakedExactly`, `LeakExample`).
- The digest of 2^64 bytes and more is computed without the accumulators when their number has wrapped around to
  less than 32. It is then right exactly if these converge to what is taken instead
  (`Xxh64Injective.DigestExactly`), and for every seed there are 2^64 bytes for which they do not
  (`Xxh64Injective.WrongDigest`).

## Model

| member | source | states |
|---|---|---|
| Memory.ReadLEPortable | src/xxhash.c:220-245 | A little-endian read gives the same word on processors of either byte order: loading natively and swapping on a big-endian one is loading on a little-endian one. |
| Memory.SwapOfBE | src/xxhash.c:632-661 | Reversing the bytes of the big-endian value of a byte sequence gives its little-endian value, for any width. |
| Memory.CanonicalRoundTrip | src/xxhash.c:1018-1028 | hashFromCanonical undoes canonicalFromHash between any two machines, and the bytes in between are the big-endian digits of the hash whichever machine wrote them. |
| ByteOrder.ReadLE32Portable | src/xxhash.c:203-245 | With XXH_swap32 as shifts and masks: the 32-bit word read has the bytes in memory order, lowest first, on both kinds of processor. |
| ByteOrder.ReadLE64Portable | src/xxhash.c:632-656 | The same for XXH_swap64 and 64-bit words. |
| ByteOrder.Swap32Number | src/xxhash.c:203-209 | The shifts and masks of XXH_swap32 reverse the four bytes of the number, as the reads above do. |
| ByteOrder.Swap64Number | src/xxhash.c:632-642 | The shifts and masks of XXH_swap64 reverse the eight bytes of the number. |
| ByteOrder.Load32Value | src/xxhash.c:174-179 | The native load of 4 bytes holds the number that the hash reads, on either byte order. |
| ByteOrder.Load64Value | src/xxhash.c:618-623 | The same for 8 bytes. |
| Stripes.FoldAppend | src/xxhash.c:911-969 | Consuming more input from the accumulators and the unconsumed remainder gives what consuming all of it at once gives, accumulators and remainder; this is why 4 words and one partial stripe are enough state. |
| Xxh64.Process8 | src/xxhash.c:716-721 | One 8-byte macro of the switch leaves the greedy tail's result unchanged. |
| Xxh64.Process4 | src/xxhash.c:711-714 | The 4-byte macro, where fewer than 8 bytes are left, leaves the greedy tail's result unchanged. |
| Xxh64.Process1 | src/xxhash.c:707-709 | The 1-byte macro, where fewer than 4 bytes are left, leaves the greedy tail's result unchanged. |
| Xxh64.Finalize | src/xxhash.c:701-808 | The fall-through switch over len & 31 is the avalanche of the greedy tail (8 bytes while possible, then at most one 4, then single bytes), for every length and content. |
| Xxh64.StripeLoop | src/xxhash.c:832-837 | The do-while loop is the stripe fold of the rest of the input and stops at its remainder. |
| Xxh64.OneShot | src/xxhash.c:810-852 | The one-shot code computes the XXH64 digest of seed and input, on either byte order. |
| Xxh64.State.Reset | src/xxhash.c:898-909 | Reset makes any state, whatever was fed before, a valid state of nothing fed under the new seed. |
| Xxh64.State.FinishStripe | src/xxhash.c:932-940 | Completing the buffered stripe consumes it: what remains of the new data is all that is still owed to the accumulators. |
| Xxh64.State.Absorb | src/xxhash.c:942-965 | The remaining whole stripes are consumed and the buffer holds exactly the remainder of everything fed. |
| Xxh64.State.Update | src/xxhash.c:911-969 | After an update the accumulators, the buffer and the total are those of the old bytes followed by the new, wherever memsize + len does not wrap; a null input changes nothing and is an error. |
| Xxh64.State.Digest | src/xxhash.c:981-1003 | The digest is the one-shot digest of all bytes fed, unless the 64-bit total has wrapped around to less than 32; then it is the value that DigestOf says. |
| Xxh64.DigestPieces | src/xxhash.c:857-862 | For every seed and every list of pieces of total below 2^64 bytes, the digest after each update is the one-shot digest of the bytes so far. |
| StripeValues.SentenceHash | src/xxhash.c:810-852 | The XXH64 of "The quick brown fox jumps over the lazy dogs.", a stripe and then eight bytes, four and one, is 3601704655662352320. |
| StripeValues.LettersHash | src/xxhash.c:826-852 | Under the seed 2654435761, that of the 32 bytes "abcdefghijklmnopqrstuvwxyz012345" is 6428530720109514939. |
| StripeValues.EmptyHash | src/xxhash.c:846-851 | That of no bytes is 17241709254077376921. |
| StripeValues.SeededEmptyHash | src/xxhash.c:846-851 | Under the seed 2654435761 it is 12427117621484918767. |
| Xxh32.Process4 | src/xxhash.c:301-304 | The 4-byte macro leaves the greedy tail's result unchanged. |
| Xxh32.Process1 | src/xxhash.c:297-299 | The 1-byte macro, where fewer than 4 bytes are left, leaves the greedy tail's result unchanged. |
| Xxh32.Finalize | src/xxhash.c:290-348 | The fall-through switch over len & 15 is the avalanche of the greedy tail. |
| Xxh32.StripeLoop | src/xxhash.c:373-378 | The do-while loop is the stripe fold of the rest of the input and stops at its remainder. |
| Xxh32.OneShot | src/xxhash.c:351-389 | The one-shot code computes the XXH32 digest, on either byte order. |
| Xxh32.State.Reset | src/xxhash.c:437-448 | Reset makes any state a valid state of nothing fed under the new seed. |
| Xxh32.State.Count | src/xxhash.c:464-465 | large_len is set exactly when the true total is at least 16, although the 32-bit count it consults wraps. |
| Xxh32.State.FinishStripe | src/xxhash.c:473-483 | Completing the buffered stripe consumes it: what remains of the new data is all that is still owed. |
| Xxh32.State.Absorb | src/xxhash.c:485-508 | The remaining whole stripes are consumed and the buffer holds exactly the remainder of everything fed. |
| Xxh32.State.Update | src/xxhash.c:451-512 | After an update the state is that of the old bytes followed by the new, wherever memsize + len does not wrap; a null input changes nothing and is an error. |
| Xxh32.State.Digest | src/xxhash.c:526-543 | The digest is the one-shot digest of all bytes fed, for every total, wrapped or not. |
| Xxh32.DigestPieces | src/xxhash.c:394-399 | For every seed and list of pieces the digest after each update is the one-shot digest of the bytes so far, without a bound on the total. |
| Xxh32Values.LettersHash | src/xxhash.c:351-389 | Under the seed 7, the XXH32 of "abcdefghijklmnopqrstu", a stripe and then four bytes and one, is 3611600673. |
| Xxh32Values.EmptyHash | src/xxhash.c:382-388 | That of no bytes is 46947589. |
| Xxh32Values.SeededEmptyHash | src/xxhash.c:382-388 | Under the seed 2654435761 it is 917998311. |
| Xxh64Injective.RoundInjective | src/xxhash.c:672-678 | XXH64_round is injective in its input word for any accumulator. |
| Xxh64Injective.AvalancheInjective | src/xxhash.c:688-696 | XXH64_avalanche is injective on 64-bit words. |
| Xxh64Injective.TailInjective | src/xxhash.c:701-808 | Whatever bytes follow, the tail keeps different running hashes apart. |
| Xxh64Injective.NoCollisionInsideStep | src/xxhash.c:701-852 | Two inputs of any equal length that differ only inside one 8-, 4- or 1-byte step of the finalisation have different hashes. |
| Xxh64Injective.NoCollisionSmallKeys | src/xxhash.c:855-878 | Among inputs of 8, of 4 and of 1 bytes, equal hashes mean equal inputs, under every seed. |
| Xxh64Injective.NoCollisionAcrossSeeds | src/xxhash.c:846-851 | An input shorter than a stripe has a different hash under every seed. |
| Xxh64Injective.DigestExactly | src/xxhash.c:981-1003 | For every total, the streaming digest is the one-shot digest if and only if the total is below 32 or is at least 32 modulo 2^64, or the accumulators happen to converge to what is taken instead. |
| Xxh64Injective.WrongDigest | src/xxhash.c:981-1003 | For every seed there is an input of 2^64 bytes whose streaming digest is not its one-shot digest. |
| CommandHashes.SetbitHash | src/parser.c:103-103 | The constant of the SETBIT case is the XXH64 of "SETBI". |
| CommandHashes.GetbitHash | src/parser.c:150-150 | The constant of the GETBIT case is the XXH64 of "GETBI". |
| CommandHashes.BitopHash | src/parser.c:196-196 | The constant of the BITOP case is the XXH64 of "BITOP". |
| CommandHashes.BitcountHash | src/parser.c:286-286 | The constant of the BITCOUNT case is the XXH64 of "BITCO". |
| CommandHashes.BitposHash | src/parser.c:348-348 | The constant of the BITPOS case is the XXH64 of "BITPO". |
| CommandHashes.BitfieldHash | src/parser.c:358-358 | The constant of the BITFIELD case is the XXH64 of "BITFI". |
| Keys.SameFileExactly | src/file.c:203-204 | Keys of 1, 4 or 8 characters name the same file exactly when they are the same up to the first NUL. |
| Keys.RestIgnored | src/file.c:203-203 | Keys that agree up to a NUL byte have one hash, whatever follows. |
| Keys.SlotsApart | src/file.c:197-221 | Different keys of 1, 4 or 8 characters are never found in the same slot. |
| Keys.ZeroKeyOverwritten | src/file.c:21-27 | "zeroat6dLZYWwO92" hashes to 0: on any table with a free slot, the next file that is opened is put into its slot, and it cannot be found any more. |
| Keys.CollidingKeys | src/file.c:244-250 | "aao4" and "aaux" share a bucket: asking for the first, the second and the first again opens three files. |
| BitCount.LaneCounts | src/bitops.c:121-141 | The three stages on one word leave in each byte lane the number of set bits of that byte; nothing is carried or borrowed across lanes. |
| BitCount.Gather | src/bitops.c:135-143 | With at most 56 per lane, the multiplication by 0x01010101 and the shift by 24 give the sum of the four lanes: no carry enters or leaves the highest lane. |
| BitCount.BlockCount | src/bitops.c:108-144 | Seven words hold the count of 28 bytes, on either byte order. |
| BitCount.TableCounts | src/bitops.c:104-104 | Each of the 256 table entries is the number of set bits of its index. |
| BitCount.Popcount | src/bitops.c:99-150 | redisPopcount returns the number of set bits of the buffer, for every length. |
| FileView.WrittenAt | src/file.c:155-179 | A write changes its own bytes and, read with zeros past the end, no other byte; the file ends at the larger of its old end and the write's. |
| FileView.Desc.ReadFrom | src/file.c:181-195 | A read delivers the bytes of the file in the range, fewer at its end and none past it; where the stream has an error it returns 0 although a part of them is in the buffer. |
| FileView.Desc.WriteTo | src/file.c:155-179 | A write puts its bytes at the offset, zero-fills a gap, and raises the cached length to the write's end if it was lower; one that fails returns 0 and leaves the length, whatever part of it reached the file. |
| BitCommands.StoreBit | src/bitops.c:64-68 | Storing the changed byte sets bit `offset` of the whole file to the value, leaves every other bit as it was, and changes the number of set bits by the new bit minus the old. |
| BitCommands.BitAtIsDigit | src/bitops.c:44-53 | The bit at an offset is the binary digit of byte offset / 8 at the power 7 - offset % 8. |
| BitCommands.PutBitAddsPower | src/bitops.c:64-67 | Replacing a bit changes the number of the byte by exactly this power of two, or not at all. |
| BitCommands.SecondBitExample | src/bitops.c:44-67 | Setting offset 1 of an empty file stores 0x40, which is offset 1 and not offset 6. |
| BitCommands.SetBit | src/bitops.c:35-73 | SETBIT returns the old bit and sets just that bit; setting 0 past the end does nothing; growth zero-fills. It fails exactly when reading or writing the byte fails, or the cached length promises a byte the file does not have, and then no other bit changes. |
| BitCommands.GetBit | src/bitops.c:75-97 | GETBIT returns the bit, 0 past the end, and fails exactly when reading fails or the cached length promises a byte the file does not have. |
| BitCommands.RunCommands | src/bitops.c:35-97 | Any sequence of SETBIT and GETBIT replies, and leaves the file, as a finite set of bit offsets does. |
| BitCommands.ReplyAt | src/bitops.c:35-97 | In that specification the k-th reply is whether the offset is in the set that the commands before it leave. |
| BitCommands.CountIsSize | src/bitops.c:152-210 | The bit count of a file is the size of the set of offsets it stands for. |
| BitCommands.CountInRange | src/bitops.c:188-207 | The bit count of a range of bytes is the number of offsets of the set in it. |
| BitCommands.BitCountCommand | src/bitops.c:152-210 | BITCOUNT is the count of set bits in the normalised range, for all signed start and end, up to the first read that fails, through reads of any positive chunk size, and terminates; it is -1 exactly when there is something to read and no memory for the buffer. |
| BitCommands.ReadableUntil | src/bitops.c:194-207 | What is counted is what comes before the first read that fails. |
| BitCommands.BitCountIsNaive | src/bitops.c:159-186 | The reply is the naive count over the range as named, negative arguments counting from the end, if and only if the end was not moved onto a first byte that has bits set. |
| BitCommands.EndMovedExample | src/bitops.c:171-178 | A range that names no byte and is counted as the first byte. |
| BitCommands.AdjacentRanges | src/bitops.c:159-187 | Counts over adjacent ranges add up for bounds of either sign, as long as each range is counted as named. |
| BitCommands.AdjacentInside | src/bitops.c:159-187 | They add up whenever the ends name bytes of the file or are not negative. |
| BitCommands.WholeFile | src/parser.c:320-324 | The range BITCOUNT uses when none is given counts the whole file, as does 0 to -1. |
| BitOp.Bytewise | src/bitops.c:294-345 | An operation on 64-bit words is the operation on each of their bytes, on either byte order. |
| BitOp.BytewiseNegation | src/bitops.c:346-357 | Negating a word negates each of its bytes. |
| BitOp.CombineWord | src/bitops.c:300-303 | One word statement combines exactly 8 bytes of the first buffer with the same bytes of another, in place. |
| BitOp.GroupSources | src/bitops.c:298-305 | The loop over the sources leaves in the first buffer the fold of all of them on the 32 bytes of a group. |
| BitOp.CombineGroups | src/bitops.c:294-345 | The unrolled AND, OR and XOR loops turn the first buffer into the result on all whole groups and touch nothing behind them. |
| BitOp.NegateGroups | src/bitops.c:346-358 | The unrolled NOT loop does the same. |
| BitOp.ByteSources | src/bitops.c:368-384 | The loop over the sources for one byte leaves the fold of all of them. |
| BitOp.CombineTail | src/bitops.c:360-386 | The byte loop completes the chunk from where the groups end. |
| BitOp.CombineChunk | src/bitops.c:289-386 | After both loops every byte of the chunk is the operation on the old contents of all the buffers. |
| BitOp.Plan | src/bitops.c:244-268 | The planned reads of each source cover its length exactly, the last one with its remainder, and the longest source and its length are found. |
| BitOp.StillPlanned | src/bitops.c:239-241 | With the real chunk size and files of up to 2^31 bytes, the planned reads and last sizes stay ints through every turn of the loop, of which this is an invariant. |
| BitOp.ReadSource | src/bitops.c:283-287 | The buffer holds the source's bytes at this offset, zeros past its end and for what does not arrive when the read fails, and one planned read is used up. |
| BitOp.ReadChunk | src/bitops.c:279-288 | The same for all sources, whatever their lengths and whichever reads fail. |
| BitOp.NextChunk | src/bitops.c:279-386 | One turn of the loop leaves in the first buffer the next bytes of the result on the sources as they arrive. |
| BitOp.SeenByte | src/bitops.c:283-287 | A byte of a source counts as zero where the read of its chunk failed before it, and as it is otherwise. |
| BitOp.StoreChunk | src/bitops.c:387-394 | Writing a chunk extends the result in dest and, where dest is a source, overwrites only bytes that have been read; a write that breaks puts a part of the chunk and leaves the length. |
| BitOp.Deliver | src/bitops.c:387-398 | The hook of a chunk stores it, or adds its set bits to the count; only a write that breaks ends the command. |
| BitOp.RunChunks | src/bitops.c:277-400 | The chunk loop delivers the whole result, for any positive chunk size, or stops in the first chunk whose write breaks. |
| BitOp.FirstBrokenIs | src/bitops.c:389-394 | The chunk at which the loop stops is the first whose write breaks. |
| BitOp.BitOpCommand | src/bitops.c:237-406 | With hook NONE dest is the AND, OR, XOR or NOT of the sources as they were at the call, zero-padded to the longest, followed by dest's own later bytes, also when dest is one or more of the sources; with COUNTOP no file changes and the count of that result is returned. What of a chunk of a source does not arrive counts as zeros. If a write breaks the reply is -1, and dest holds the result up to there and its own bytes behind. The reply wraps as an int. Without memory for the buffers nothing changes and the reply is -1. |
| BitOp.ResultBits | src/bitops.c:294-386 | A bit of the result is set where all sources have it set (AND), where any has (OR), where an odd number have (XOR), or where the source has not (NOT). |
| BitOp.CountIsCountOfStored | src/bitops.c:387-405 | BITCOP equals BITCOUNT of BITOP: counting without storing gives what storing the result in an empty file and counting that file gives. |
| BitOp.ReplyIsLength | src/bitops.c:399-406 | The reply is the length of the result if and only if that is at most 2^31 - 1; at 2^31 bytes it is negative. |
| BitOp.LargestFile | src/bitops.c:399-406 | A file of 2^31 bytes is copied whole, and the reply is -2^31. |
| Framing.LinesFlat | src/net.c:225-236 | A stream is its complete lines, each followed by a newline, and an incomplete rest. |
| Framing.LinesOfFlat | src/net.c:225-236 | Lines taken off the front of a stream are its first lines, and the lines of what is left are the others. |
| ConnectionSpec.StepKeeps | src/net.c:74-325 | Every callback, under every outcome of its calls, keeps framing, the request in flight, closing and the order of replies consistent. |
| ConnectionSpec.EveryRun | src/net.c:74-325 | In every run: dispatched lines and buffer are exactly the bytes received unless input was thrown away, which closes the connection; busy exactly while one request lives and every other one has been freed once; uv_close called once, exactly when closing with nothing in flight; replies answer lines in order. |
| ConnectionSpec.FramingIndependent | src/net.c:176-267 | Two runs that received the same bytes, however cut and interleaved, dispatched the same lines as far as both got and buffer the same rest. |
| ConnectionSpec.DroppedExactly | src/net.c:193-218 | Received bytes are thrown away if and only if the buffer would exceed 64 KiB or cannot be grown. |
| ConnectionSpec.LostExactly | src/net.c:141-218 | Any event throws bytes away if and only if it is a read past 64 KiB or into a buffer that cannot grow, or there is no memory to dispatch a complete line. |
| ConnectionSpec.ClosesExactly | src/net.c:176-325 | An event makes the connection closing if and only if the stream has ended or failed, bytes are thrown away, a reply could not be handed over, or one has not been written. |
| ConnectionSpec.RepliesExactly | src/net.c:277-307 | A reply is handed to the socket if and only if a request was run to its end, with memory and with something to say, on a connection that is not closing, and it is that text for that line. |
| ConnectionSpec.ExecutedIsSaid | src/net.c:269-307 | A request that ran out of memory or has nothing to say is freed without a reply; any other one is answered with what it has said. |
| ConnectionSpec.StalledExactly | src/net.c:277-294 | A complete line is left waiting with nothing in flight if and only if a request ended without a reply to write while another line was buffered (or nothing has arrived since). |
| ConnectionSpec.SecondLineStalls | src/net.c:286-294 | Two lines read together, the first without a reply: the second is not dispatched, and the connection stays open. |
| ConnectionSpec.EveryLineAnswered | src/net.c:223-325 | In a run without failures in which every executed line has a reply, whenever the connection is idle every received line has been answered with its own reply, in order, and only an incomplete line is buffered. |
| Connection.ReplyBuffer.Append | src/net.c:28-55 | A reply is appended whole, or the request is marked out of memory and its text kept, exactly when it does not fit and the buffer cannot grow. |
| Connection.Connection.constructor | src/net.c:92-107 | A new connection is the initial state of the state machine. |
| Connection.Connection.MaybeClose | src/net.c:74-82 | maybe_close on the object is its step of the state machine. |
| Connection.Connection.DispatchLine | src/net.c:141-174 | dispatch_line, with each of its allocations failing or not, is the dispatch step. |
| Connection.Connection.OnReadError | src/net.c:179-185 | A read error or the end of the stream is the ReadError step. |
| Connection.Connection.MakeRoom | src/net.c:192-218 | The capacity is doubled until it suffices, refused past 64 KiB, and the buffered bytes are kept. |
| Connection.Connection.DispatchAvailable | src/net.c:223-241 | The scanning loop dispatches the first complete line if nothing is in flight, and removes just that line from the buffer. |
| Connection.Connection.OnRead | src/net.c:176-242 | on_read with its buffer growth, copy, scan and memmove is the Read step. |
| Connection.Connection.TryDispatchNext | src/net.c:244-267 | try_dispatch_next is its step of the state machine. |
| Connection.Connection.AfterWork | src/net.c:277-307 | after_work_cb on all of its paths is the WorkDone step. |
| Connection.Connection.OnWrite | src/net.c:309-325 | on_write is the WriteDone step. |
| TableSpec.LengthIsSize | src/file.c:112-152 | The cached length is the size of the opened file if and only if it was not a non-empty file being truncated. |
| TableSpec.StepUnlinked | src/file.c:16-283 | Nothing ever links two slots, with evictions, collisions and any hashes. |
| TableSpec.StepKeeps | src/file.c:197-283 | As long as no slot is evicted and no hash is 0, preparing and releasing keep: slots used without gaps up to idx, each bucket's entry the latest slot of that bucket. |
| TableSpec.BucketsAreShort | src/file.c:208-230 | In every reachable table a bucket holds a single slot, so the walk never follows a link and its depth is 0. |
| TableSpec.FindableExactly | src/file.c:207-230 | Every open file can be found if and only if no two slots share a bucket. |
| TableSpec.RunFindableExactly | src/file.c:197-255 | After any run from an empty table without evictions, every open file can be found if and only if no two different hashes opened in it are equal modulo 65537. |
| TableSpec.SlotStable | src/file.c:207-218 | Without such collisions a file found in a slot is found in the same slot after any further run. |
| TableSpec.StepRefsExactly | src/file.c:214-283 | In every table, full or not, one event changes the reference count of a slot as it should unless, and only unless, a file that is not found can be opened, the slot is referred to, and it is the first free slot or, when none is free and there is a victim, slot 0. |
| TableSpec.RefsBalance | src/file.c:214-283 | In every run that does not do so, with evictions and collisions, the reference count of a slot is its successful prepares minus its releases. |
| TableSpec.OrdinaryNeverReuses | src/file.c:197-255 | Runs without evictions and hashes of 0 never do so. |
| TableSpec.CollisionExample | src/file.c:244-250 | Any two hashes in one bucket: the first file is hidden by the second and opened again in a third slot. |
| TableSpec.ZeroHashExactly | src/file.c:21-27 | The slot a file was opened in is taken for free again if and only if its hash is 0. |
| TableSpec.ZeroHashOverwritten | src/file.c:21-27 | Then the next file that is opened is put over it, and it cannot be found. |
| TableSpec.VictimIs | src/file.c:19-33 | The slot chosen for eviction is unreferenced, was accessed before the clock, and is the least recently accessed of those from idx on; there is none if and only if there is no such slot from idx on. |
| TableSpec.AccessNoted | src/file.c:212-242 | A file that is found or opened is noted as accessed then, and has one reference more, or one. |
| TableSpec.RecentlyUsedSpared | src/file.c:19-33 | So it is not evicted while another idle one among those looked at has been left alone for longer. |
| TableSpec.FailsExactly | src/file.c:102-153 | A prepare that finds nothing open fails with -2 if and only if the file is absent and may not be created, and with -1 if and only if there is no slot, no path or no stream. |
| TableSpec.StreamTaken | src/file.c:120-150 | An fopen that fails takes the stream of the slot it was meant for, which is slot 0 after an eviction, in use or not. |
| TableSpec.RetryFinds | src/file.c:34-45 | A search that found no slot to evict makes the next one look at all slots: that one opens its file if and only if some slot is idle. |
| TableSpec.EvictionExactly | src/file.c:34-153 | After an eviction the file is opened in slot 0 with a new stream, and slot 0 loses what it held; it gets the slot that was freed for it if and only if that is slot 0. |
| TableSpec.FirstEviction | src/file.c:16-45 | On a table filled in order, the next file is opened if and only if the last slot is unreferenced, however many others are. |
| TableSpec.EvictionStep | src/file.c:34-153 | On a table filled in order whose last slot is idle, a new file evicts that slot, is put over the first file, and neither old file can be found. |
| TableSpec.EvictionExample | src/file.c:34-153 | A table of any size from 2 on is filled with files of distinct buckets and the last one released: the next file is put over the first, which is in use; two prepares have yielded slot 0 and one reference is left. |
| DescTable.FileTable.constructor | src/file.c:285-288 | The new table is empty. |
| DescTable.FileTable.GetAvailableSlot | src/file.c:16-77 | The scan stops at the first free slot from idx on; if there is none, the victim is evicted, idx is 0 and the victim returned, or -1. |
| DescTable.FileTable.Evict | src/file.c:45-74 | The victim's bucket and slot are emptied; the branches for linked slots are not reached. |
| DescTable.FileTable.OpenFile | src/file.c:102-153 | Opening caches the length and the stream in the slot at idx, which is not the one returned to it after an eviction, or returns the error code, for each mode, each outcome of stat and fopen and every table; an fopen that fails takes the stream of that slot. |
| DescTable.FileTable.Walk | src/file.c:207-230 | The loop finds the first slot of the bucket with the hash and counts the links followed. |
| DescTable.FileTable.PrepareFile | src/file.c:197-255 | Preparing any key on any reachable table is the Prepare step of its hash and returns that step's slot or error code; the branch that links slots is not reached. |
| DescTable.FileTable.PrepareHash | src/file.c:205-255 | The same once the key has been hashed. |
| DescTable.FileTable.ReleaseDesc | src/file.c:277-283 | Releasing is the Release step. |
| Splitter.GetArgCount | src/parser.c:4-24 | The one-pass scanner counts the maximal runs of non-spaces. |
| Splitter.SplitFill | src/parser.c:35-59 | The cursor scanner returns the runs after the first, empty ones where the line has fewer; asked for the counted number it returns exactly those and leaves only spaces unread. |
| Splitter.SplitRoundTrip | src/parser.c:35-59 | Words written with any positive number of spaces between them, and any number around them, split into themselves. |
| ParserSpec.OneReply | src/parser.c:84-370 | Every line is answered with exactly one line of text, unless its hash is that of BITPOS, or that of BITFIELD with at least five words; these get none. |
| ParserSpec.ReplyFits | src/net.c:11-55 | No reply is longer than 36 bytes, so none outgrows the 64 of its first buffer. |
| ParserSpec.OperationWords | src/parser.c:203-224 | Each operation is named by exactly the words "and", "or", "xor" and "not", in either case of every letter. |
| ParserSpec.HookWords | src/parser.c:231-241 | The hooks are named by exactly "countop" and "getop" in either case. |
| ParserSpec.DigitsRead | src/parser.c:145-145 | The digits of a number, read from the left, are the number, without leading zeros. |
| ParserSpec.LeakedExactly | src/file.c:257-275 | Descriptors stay referenced after a request if and only if a source of BITOP failed to open after another had been opened. |
| ParserSpec.LeakExample | src/file.c:257-275 | A BITOP of two sources, of which the second to be opened fails: the slot of the first is never released. |
| Parser.Execution.constructor | src/parser.c:100-100 | A job starts without descriptors or replies. |
| Parser.Execution.PrepareFiles | src/file.c:257-275 | The sources are asked for from the last to the first and not to be created, a missing one is none; on the first failure those prepared so far are left behind. |
| Parser.Execution.ReleaseAll | src/parser.c:61-72 | Every descriptor of the job is released exactly once, as often as it is held, and the job is emptied. |
| Parser.Execution.ReplyResult | src/parser.c:139-146 | A result is reported as text that reads as its decimal number, or as a failed file access when negative; the text fits the 16-byte buffer. |
| Parser.Execution.OptionOf | src/parser.c:203-224 | The comparisons behind a look at the first letter recognise the four operations in either case of the letters, and nothing else. |
| Parser.Execution.CaseSetBit | src/parser.c:103-148 | SETBIT: refused, run and answered as the tokens ask; all that was acquired is released. |
| Parser.Execution.CaseGetBit | src/parser.c:150-194 | GETBIT likewise; a missing file answers 0. |
| Parser.Execution.Bounds | src/parser.c:320-334 | The range that is counted: to the last byte where no end is given, the whole file where nothing is given. |
| Parser.Execution.CaseBitOp | src/parser.c:196-284 | BITOP likewise, with its hooks; all that was acquired is released but what a failing source leaks. |
| Parser.Execution.CaseBitCount | src/parser.c:286-346 | BITCOUNT likewise; a missing or empty file answers 0. |
| Parser.Execution.ParseAndExecute | src/parser.c:84-370 | For every line: the replies made, the command run on which descriptors, and acquired equals released plus leaked, are those of the request the line's tokens and the hash of its first five bytes stand for. |
| Parser.Execution.SetBitRan | src/parser.c:103-148 | A SETBIT that was not refused has asked for its second word so that it is created, and has been run on the slot this yielded with its third and fourth word, or not at all. |
| Parser.Execution.GetBitRan | src/parser.c:150-194 | A GETBIT has asked for its second word without creating it, and has been run with its third word. |
| Parser.Execution.BitCountRan | src/parser.c:286-346 | A BITCOUNT has been run from its third word to its fourth, or from 0 and to the last byte where these are missing, on the slot of its second word; not on an empty file. |
| Parser.Execution.BitOpRan | src/parser.c:249-274 | A BITOP that has been run has asked for its third word to be truncated and then for the sources; each source it was run on is what the call for this word yielded. |
| Parser.Execution.BitOpHookedRan | src/parser.c:232-275 | With a hook nothing is asked for but the sources, in the same order, and the command is run without a destination. |
| Requests.SetBitArrives | clients/python/solidbits.py:37-39 | A SETBIT line as the client writes it, with any spacing, is taken as that key, offset and value. |
| Requests.GetBitArrives | clients/python/solidbits.py:41-43 | A GETBIT line arrives as that key and offset. |
| Requests.BitCountArrives | clients/python/solidbits.py:45-52 | A BITCOUNT line arrives as that key and as many range arguments as were written. |
| Requests.RangeMeantExactly | clients/python/solidbits.py:45-52 | For every start and end given to the client or not, the range the server counts is the one that is meant if and only if a start is given, or no end, or the range is the only byte of the file. |
| Requests.EndAloneExample | clients/python/solidbits.py:45-52 | bitcount("k", end=5) on 12 bytes counts bytes 5 to 11. |
| Requests.BitOpArrives | clients/python/solidbits.py:54-57 | A BITOP line with the word "and", "or", "xor" or "not", in either case of its letters, arrives as that operation, its destination and list of sources. |
| Requests.BitCopArrives | clients/python/solidbits.py:59-62 | With Ctrl+E and "countop" for the destination it arrives as counting. |
| Requests.OtherOperationRefused | src/parser.c:219-224 | Any other word for the operation is refused. |
| Requests.AndLineExample | src/parser.c:203-206 | "BITOP AND d a b" asks for the and of a and b in d. |
| Requests.ShortAnswers | src/parser.c:93-97 | A line of fewer than 10 bytes is answered with "ERR:CMD TOO SHORT". |
| Requests.SetBitAnswers | src/parser.c:103-148 | The text that answers a SETBIT line for each way it can be refused, in the order of the checks, with their limits; otherwise the result in decimal. |
| Requests.GetBitAnswers | src/parser.c:150-194 | The same for GETBIT; a missing file answers 0. |
| Requests.BitCountAnswers | src/parser.c:286-346 | The same for BITCOUNT; a missing or empty file answers 0. |
| Requests.BitOpAnswers | src/parser.c:196-284 | The same for BITOP, with its hooks and its files. |
| Requests.BitFieldAnswers | src/parser.c:358-364 | BITFIELD with fewer than five words is refused, and otherwise not answered. |
| Requests.OtherAnswers | src/parser.c:366-368 | A line whose first five bytes have no known hash is answered with "ERR:UNKNOW CMD". |
| Server.LookupAfter | src/file.c:197-255 | After a prepare, on any table, its own hash is found in the slot it yielded, and any other hash that is found is found where it was, in an unchanged slot, unless a failing fopen has taken its stream. |
| Server.RefinesAfterFlush | src/file.c:80-86 | Writing the buffer of any stream does not change what any file, with the byte that waits for it, stands for. |
| Server.PrepareConsistent | src/file.c:197-255 | Preparing a file, a victim's stream being closed on the way, keeps every file that can be found with its own stream, the only one that may wait, and the size that this stream sees as its cached length, if no other stream waits for a file that is opened. |
| Server.AppliedRefines | src/file.c:155-195 | A command that positions the stream of a file and then leaves a byte in its buffer changes the bitmap of this file to the one with the byte, and no other. |
| Server.RunRefines | src/parser.c:125-148 | Preparing a file, running a command on it and releasing it keeps all this and changes the bitmap of this key only. |
| Server.ServeRefines | src/parser.c:103-346 | A SETBIT, GETBIT or BITCOUNT with any range, run through the table, the streams and the files, is answered from the key's bitmap and leaves the files standing for the bitmaps after it, evictions included, if it does not open a file while another stream has an unwritten byte of it. |
| Server.SequenceRefines | src/parser.c:103-346 | The same for any sequence of requests on any keys. |
| Server.SpecReplyAt | src/parser.c:103-346 | In that specification the k-th answer is that of the bitmaps which the requests before it leave. |
| Server.TruncatedFails | src/file.c:118-136 | Every SETBIT and GETBIT of a byte that a file had before it was truncated fails. |
| Server.EvictedIsWritten | src/file.c:72-86 | When a file is evicted its last byte is on disk, and nothing waits for it any more. |
| Server.ReadIsWritten | src/file.c:181-186 | A GETBIT inside the file or a BITCOUNT of some bytes leaves nothing waiting in its stream. |
| Server.SetWaits | src/file.c:155-165 | The byte that SETBIT stores waits in its stream, and the file on disk is without it. |
| Server.UntouchedWaits | src/bitops.c:46-96 | A command that looks at no byte of the file leaves what waits in its stream. |
| Server.NoRoom | src/parser.c:132-137 | A request for which the table has no room is answered with "ERR:FILESYSTEM FAILED" and changes no bitmap. |
| Server.ServeReleases | src/parser.c:61-346 | A request gives back every reference it takes: between requests no slot is referred to. |
| Running.RunOne | src/parser.c:138-184 | Running a recorded SETBIT, GETBIT or BITCOUNT on a descriptor has that command's result and leaves that command's file. |
| Running.RunBitOp | src/parser.c:274-274 | Running a recorded BITOP leaves its operation on the sources in the destination, which may be one of them, or counts it. |
| Running.Committed | src/parser.c:131-336 | For a request of the server the parser asks for the key that the server looks up, in the same mode, and records this request, a range with its bounds filled in. |
| Running.RunIsServed | src/parser.c:131-346 | That recorded command, run on the file as the stream of its slot sees it, has the result the server answers with, and leaves the file and the cached length that the server leaves. |
| Reopened.ReopenedExactly | src/file.c:117-136 | A SETBIT or GETBIT that opens a file is answered with the bit on disk; this is the bit of the key if and only if every byte of the file that waits in another stream has this bit, too. |
| Reopened.CollidingAnswersOld | src/file.c:155-179 | For any two keys in one bucket: the first bits of both are set, and the first one is answered 0. |
| Reopened.StaleExample | src/file.c:155-179 | "aao4" and "aaux" are two such keys. |
| FreshServer.FewKeysServed | src/file.c:197-255 | On a server that has just started, any number of requests for at most as many keys as the table has slots, no two in one bucket, find room and open no file twice. |
| FreshServer.FewKeysRefine | src/parser.c:103-346 | So they are answered as the bitmaps say that the files at the start stand for. |
| Session.AnswerIsLine | src/parser.c:84-370 | What is sent for a line is one line of bytes, or nothing exactly for the commands that are not implemented. |
| Session.AnswerFits | src/net.c:28-55 | The bytes sent for a line fit the first reply buffer. |
| Session.Work | src/net.c:269-275 | Running the parser on the queued line and collecting its replies is the Execute step with that line's answer, and never out of memory. |
| Session.WaitsExactly | src/net.c:269-325 | In every run in which lines are run by this parser, an event leaves a complete line waiting if and only if the line just run is not implemented (or it was waiting and nothing has arrived). |
| Session.WaitsExample | src/net.c:286-294 | "BITPOS k 1" and another line read together: the other line is not run although the connection is idle. |
| Session.LineForLine | src/net.c:176-325 | As long as nothing fails and every executed line has an answer, whenever the connection is idle it has sent exactly one line per line received, and the k-th line sent answers the k-th line received. |
| Session.BitsOverTheWire | src/net.c:176-325 | A client that sends SETBIT, GETBIT and BITCOUNT lines for any keys, to a server whose files stand for bitmaps and which runs them through its table, streams and files without opening a file behind a byte that waits elsewhere, reads back one decimal number per line: the bit, or the number of set bits in the range, as the lines before left it; and the files stand for the bitmaps that all of them leave. |
| Session.FewKeysOverTheWire | src/net.c:176-325 | On a server that has just started this holds for any lines of these kinds on up to 8192 keys, no two in one bucket. |

## Left out

- Xxh64.State.Update: requires that memsize + len does not wrap at 2^64, where the code would overrun its buffer; the same for Xxh32.State.Update.
- Xxh64Injective.NoCollisionInsideStep: says nothing about inputs that differ in more than one step or before the tail; such inputs can collide.
- BitCommands.SetBit: commands run one at a time; the lock covers one read or one write, so two connections setting bits of one byte can interleave, and this is not modelled.
- BitOp.CombineGroups: one loop stands for the three copies of it for AND, OR and XOR, and the pointers into the buffers are one common offset.
- BitOp.BitOpCommand: sources are at most 2^31 bytes, the longest SETBIT can make.
- Parser.Execution.ParseAndExecute: what prepare_file and the commands answer is an input; Server computes it for SETBIT, GETBIT and BITCOUNT, as Running.RunIsServed shows. Results of 10^14 and more, whose digits do not fit the 16-byte buffer, are excluded; no file has that many bits.
- Session.BitsOverTheWire: BITOP, keys that hash to 0, refused lines, a table without room and failing files are not followed from end to end. What happens after a file has been opened while another stream has an unwritten byte of it is followed for one request only, in Reopened.
- Server.Serve: what fread has taken into the buffer of a stream is read from disk in the model. Where requests are followed nobody but the stream itself writes to its file, or the stream is new.
- DescTable.FileTable.PrepareFile: streams that are opened over stay open in the code; they are recorded and never closed here either.
- Connection.Connection.AfterWork: libuv, the thread pool and the sockets are events in an order the model leaves open; the request in flight is recorded as a value.
- Hooks: GETOP retrieves nothing in the code and is modelled as neither storing nor counting.
- BITPOS and BITFIELD are not implemented in the code beyond their checks.
- Rotations are sums of the two shifted parts, which are disjoint, instead of the or of them.
- Alignment and compile-time variants of the reads, how atol reads a number, file names, options, logging, signals and the daemon.
- XXH32 has the same invertible steps; that it does not collide within one of them is not repeated for it.
