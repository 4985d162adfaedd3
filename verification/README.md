# MicroTime randomness source, modelled in Dafny

`RandomLib\Source\MicroTime` is a deliberately weak randomness source. It is meant only to be mixed with stronger sources. It keeps a 64-byte SHA-512 state per instance and one counter shared by the whole process. `generate($size)` works in three steps:

1. It folds a `microtime()` reading and the memory usage into the state.
2. It runs rounds at byte offsets 0, 8, 16, … while the offset is below `$size`. Each round hashes the state, a fresh clock reading, `pack('N', offset)` and `pack('i', counter())`. The digest becomes the new state, and its first 8 bytes are appended to the output.
3. It cuts the output to `$size` bytes.

`counter()` increments the shared counter. When the counter is at or above `PHP_INT_MAX`, it jumps to `-PHP_INT_MAX - 1` instead.

The model has four modules:

- `Bytes` defines bytes, binary strings and the 64-byte `Digest` type. It also holds `pack('N', …)` with its inverse, and the prefix form of `substr`.
- `Strength` defines the ordered strength scale.
- `Counter` holds the counter as explicit state. `Advance` is one `counter()` call and `AdvanceN` is `n` of them. `Wrap` is a 64-bit two's complement reference that the counter is proved against.
- `MicroTime` holds `GetStrength`, the round arithmetic (`Rounds`, `Offsets`) and the `Generate` method. It also defines three references, `SeedAt` (the message hashed in round `k`), `DigestAt` (the state after `k` rounds) and `Blocks` (the accumulator after `n` rounds), and the method is proved equal to them.

The model threads the counter through calls instead of keeping it in a static field. SHA-512 and `pack('i', …)` are function-valued fields of `Platform`. SHA-512 may be any function that returns 64 bytes. The clock and memory probes are the `Readings` oracle: reading 0 is taken before the loop and reading `k + 1` in round `k`.

Three facts about the code shape the model:

- `generate` does not check its size. A negative size runs no rounds, and the result is the empty string on PHP 8 (`false` on earlier versions, see "Left out"). `Generate` takes any `int` size and does the same.
- `generate(0)` still rehashes the state: the reseed before the loop runs whatever the size. `Generate` does too.
- `counter()` tests `>= PHP_INT_MAX`, not equality, so `Advance` sends every value at or above `PHP_INT_MAX` to the minimum.

## Model

| member | source | states |
|---|---|---|
| MicroTime.GetStrength | lib/RandomLib/Source/MicroTime.php:56-58 | the reported level is the weakest on the scale, at most every other level |
| MicroTime.Rounds | lib/RandomLib/Source/MicroTime.php:92 | the loop over `$i = 0, 8, …` while `$i < $size` runs ⌈size/8⌉ times: the least `n` with `8n >= size`, and 0 for `size <= 0` |
| MicroTime.Offsets | lib/RandomLib/Source/MicroTime.php:92-95 | there is one offset per round, offset `k` is `8k` (so 0, 8, 16, …), each is at least 8 above the one before, and all are below `size`; `Generate` proves round `k` packs `Offsets(size)[k]` |
| MicroTime.Blocks | lib/RandomLib/Source/MicroTime.php:97-103 | after `n` rounds the accumulator holds `8n` bytes, and byte `j` is byte `j mod 8` of round `j div 8`'s digest, so digest bytes 8..63 never appear |
| MicroTime.CutBlocks | lib/RandomLib/Source/MicroTime.php:103-105 | cutting the full accumulator to `size` leaves exactly `size` bytes (none when `size <= 0`), each one of the first 8 bytes of its round's digest; for `size > 0` the bytes after the last offset are a prefix of the final digest |
| MicroTime.Generate | lib/RandomLib/Source/MicroTime.php:81-106 | the output has exactly `size` bytes (none when `size <= 0`) and is the round-ordered accumulator cut to `size`; each output byte is one of the first 8 bytes of its round's digest; the counter advances once per round, so not at all for `size <= 0`, and stays in range; the state is always rehashed before the loop, ends as the last round's digest, and the output's last block is a prefix of that final state; round `k` hashes the previous state, clock reading `k + 1`, `pack('N', Offsets(size)[k])` and `pack('i', …)` of the counter after its own advance, and its digest is the next state |
| Counter.Advance | lib/RandomLib/Source/MicroTime.php:108-115 | at or above `PHP_INT_MAX` the counter goes to `-PHP_INT_MAX - 1`; an in-range counter stays in range and moves like a 64-bit two's complement increment |
| Counter.AdvanceNIsWrappedSum | lib/RandomLib/Source/MicroTime.php:108-115 | from an in-range value, `n` calls of `counter()` give the two's complement sum `c + n` |
| Counter.AdvanceNAdd | lib/RandomLib/Source/MicroTime.php:92-96 | `m` advances followed by `n` advances equal `m + n` advances, so consecutive `generate` calls advance the counter by their total round count |
| Counter.CounterValuesDistinct | lib/RandomLib/Source/MicroTime.php:40-43 | from an in-range start, fewer than 2^64 further `counter()` calls never repeat a counter value |
| Counter.CounterPeriod | lib/RandomLib/Source/MicroTime.php:108-115 | from an in-range start, 2^64 `counter()` calls return the counter to where it began |
| Bytes.PackN | lib/RandomLib/Source/MicroTime.php:95 | `pack('N', x)` gives 4 bytes that read back, big-endian, as `x` modulo 2^32 |
| Bytes.PackUnpack | lib/RandomLib/Source/MicroTime.php:95 | every 4-byte string is the `pack('N', …)` encoding of its big-endian value, the other half of the round trip |
| Bytes.PackNInjective | lib/RandomLib/Source/MicroTime.php:95 | two offsets pack to the same bytes exactly when they agree modulo 2^32, so distinct offsets below 2^32 pack to distinct strings |
| Bytes.Substr | lib/RandomLib/Source/MicroTime.php:105 | `substr($s, 0, $n)` is a prefix of `$s`: exactly `n` bytes when `0 <= n <= len`, all of `$s` when `n` is longer, and `len + n` bytes (at least 0) when `n` is negative |

## Left out

- The constructor (lib/RandomLib/Source/MicroTime.php:60-72) is not modelled. It gathers `posix_times`, the pid, memory usage and `$_ENV`, all process I/O. The initial state is any 64-byte `Digest`.
- Counter bootstrap via `bindec` of generated bytes (lib/RandomLib/Source/MicroTime.php:68-71) is not modelled. It asks for `strlen(dechex(PHP_INT_MAX))` bytes (16 on 64-bit builds) and `bindec` keeps only their '0' and '1' characters, so the counter starts as a small non-negative integer below 2^16. While that bootstrap call runs the counter is still `null`, which `counter()` treats like 0 (`null++` gives 1). The model takes the starting counter as any integer parameter.
- SHA-512 internals are not modelled. Any function returning 64 bytes can stand in.
- `pack('i', …)` depends on the machine, so it is an uninterpreted field of `Platform`. On common 64-bit builds it writes a 4-byte C int, so counter values 2^32 apart feed identical bytes to the hash; the distinctness proved for the counter says nothing about the packed bytes.
- `microtime()` and `memory_get_usage()` are wall-clock and process reads. They enter as the `Readings` oracle.
- `gc_collect_cycles()` is dropped: it only adds timing jitter and affects no value.
- Counter.Advance: `PHP_INT_MAX` is fixed at the 64-bit value 2^63 - 1. 32-bit builds, where it is 2^31 - 1, are not covered.
- Bytes.Substr: follows PHP 8, which returns an empty string for an empty result. Before PHP 8.0, `substr($s, 0, $n)` with a negative `$n` reaching past the start returns `false`, so `generate` with a negative size returns `false` rather than `''`. Before PHP 7.0 (the file declares PHP 5.3) `substr('', 0, 0)` is `false` as well, so `generate(0)` returns `false` there too.
- MicroTime.Generate: sizes are integers. PHP's coercion of non-integer `$size` arguments is not modelled.
- Concurrent access to the static counter is not modelled: PHP runs this code single-threaded.
- Claims about unpredictability or randomness quality are not modelled. They are probabilistic, not functional.
