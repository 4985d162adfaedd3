/** The MicroTime randomness source: a deliberately weak source that folds
    clock readings and memory usage into a 64-byte SHA-512 state and hands
    out 8 bytes of each fresh digest. SHA-512, `pack('i', ...)`, the clock
    and the memory counter are foreign: they enter as parameters. */
module MicroTime {
  import opened Bytes
  import opened Counter
  import opened Strength

  /** The platform services the source calls and this model cannot see. */
  datatype Platform = Platform(
    /** `hash('sha512', m, true)`: any function returning a 64-byte digest. */
    sha512: Bytes -> Digest,
    /** `pack('i', c)`: machine-dependent encoding of a native signed int. */
    packInt: int -> Bytes)

  /** What the ambient probes return during one `generate` call. */
  datatype Readings = Readings(
    /** Successive `microtime()` strings: reading 0 is taken before the
        rounds, reading `k + 1` in round `k`. */
    clock: nat -> Bytes,
    /** The `memory_get_usage()` string taken before the rounds. */
    memoryUsage: Bytes)

  /** One source instance: its 64-byte internal state. */
  datatype Source = Source(state: Digest)

  /** Bytes of each round's digest that reach the output. */
  const BLOCK: nat := 8

  /** `getStrength`: this source always rates itself the weakest level. */
  function GetStrength(): (s: Strength)
    ensures forall other: Strength :: s.AtMost(other)
    ensures s.Rank() == 0
  {
    VeryLow
  }

  /** Number of rounds `generate(size)` runs: the least `n` with `8 * n >= size`. */
  function Rounds(size: int): (n: nat)
    ensures size <= 0 ==> n == 0
    ensures size > 0 ==> BLOCK * (n - 1) < size <= BLOCK * n
  {
    if size <= 0 then 0 else (size + BLOCK - 1) / BLOCK
  }

  /** The offsets `generate(size)` passes to `pack('N', ...)`, in round order:
      0, 8, 16, ..., one per round, every one below `size`. */
  function Offsets(size: int): (offs: seq<nat>)
    ensures |offs| == Rounds(size)
    ensures forall k :: 0 <= k < |offs| ==> offs[k] == BLOCK * k
    ensures forall k :: 0 <= k < |offs| ==> offs[k] < size
    ensures forall j, k :: 0 <= j < k < |offs| ==> offs[j] + BLOCK <= offs[k]
  {
    seq(Rounds(size), k requires 0 <= k => BLOCK * k)
  }

  /** The state after the pre-loop reseed: old state, then one clock reading
      and the memory usage, hashed together. */
  function Reseed(p: Platform, state: Digest, r: Readings): Digest {
    p.sha512(state + r.clock(0) + r.memoryUsage)
  }

  /** The message hashed in round `k`: state, clock reading, packed offset
      `8 * k` and packed counter value. */
  function RoundSeed(p: Platform, state: Digest, r: Readings, k: nat, ctr: int): Bytes {
    state + r.clock(k + 1) + PackN(BLOCK * k) + p.packInt(ctr)
  }

  /** Reference definition: the message hashed in round `k` of a run that
      started from state `s0` and counter `c0`. */
  function SeedAt(p: Platform, s0: Digest, c0: int, r: Readings, k: nat): Bytes
    decreases k, 1
  {
    RoundSeed(p, DigestAt(p, s0, c0, r, k), r, k, AdvanceN(c0, k + 1))
  }

  /** Reference definition: the state after `k` rounds that started from state
      `s0` and counter `c0`. Round `k - 1` packs the counter after its own
      advance, `AdvanceN(c0, k)`. */
  function DigestAt(p: Platform, s0: Digest, c0: int, r: Readings, k: nat): Digest
    decreases k, 0
  {
    if k == 0 then s0
    else p.sha512(SeedAt(p, s0, c0, r, k - 1))
  }

  /** Reference definition: the accumulator after `n` rounds, the first 8 bytes
      of each round's digest in round order. */
  function Blocks(p: Platform, s0: Digest, c0: int, r: Readings, n: nat): (acc: Bytes)
    ensures |acc| == BLOCK * n
    ensures forall j :: 0 <= j < |acc| ==> acc[j] == DigestAt(p, s0, c0, r, j / BLOCK + 1)[j % BLOCK]
    decreases n
  {
    if n == 0 then []
    else
      var prev := Blocks(p, s0, c0, r, n - 1);
      var last := DigestAt(p, s0, c0, r, n);
      var acc := prev + last[..BLOCK];
      assert forall j :: 0 <= j < |acc| ==> acc[j] == DigestAt(p, s0, c0, r, j / BLOCK + 1)[j % BLOCK] by {
        forall j | 0 <= j < |acc|
          ensures acc[j] == DigestAt(p, s0, c0, r, j / BLOCK + 1)[j % BLOCK]
        {
          if j >= |prev| {
            assert j / BLOCK + 1 == n && j % BLOCK == j - |prev|;
          }
        }
      }
      acc
  }

  /** The accumulator after `Rounds(size)` rounds, cut to `size`: exactly `size`
      bytes, each taken from the first 8 bytes of its round's digest, ending in
      a prefix of the last round's digest. */
  lemma CutBlocks(p: Platform, s0: Digest, c0: int, r: Readings, size: int)
    ensures var out := Substr(Blocks(p, s0, c0, r, Rounds(size)), size);
      && |out| == (if size <= 0 then 0 else size)
      && (forall j :: 0 <= j < |out| ==> out[j] == DigestAt(p, s0, c0, r, j / BLOCK + 1)[j % BLOCK])
      && (size > 0 ==> out[BLOCK * (Rounds(size) - 1)..] <= DigestAt(p, s0, c0, r, Rounds(size))[..BLOCK])
  {
    var n := Rounds(size);
    var acc := Blocks(p, s0, c0, r, n);
    var out := Substr(acc, size);
    if size > 0 {
      assert |out| == size;
      var tail := out[BLOCK * (n - 1)..];
      var last := DigestAt(p, s0, c0, r, n);
      forall j | 0 <= j < |tail|
        ensures tail[j] == last[j]
      {
        var k := BLOCK * (n - 1) + j;
        assert out[k] == acc[k];
        assert k / BLOCK + 1 == n && k % BLOCK == j;
      }
    }
  }

  /** `generate(size)`: reseed the state, run `Rounds(size)` rounds at offsets
      0, 8, 16, ..., each advancing the counter once and appending the first
      8 bytes of the new digest, then cut the accumulator to `size`. Returns
      the output, the source with its new state, and the new counter. */
  method Generate(p: Platform, src: Source, counter: int, size: int, r: Readings)
    returns (out: Bytes, src': Source, counter': int, ghost seeds: seq<Bytes>)
    ensures |seeds| == Rounds(size)
    ensures forall k :: 0 <= k < |seeds| ==>
      seeds[k] == DigestAt(p, Reseed(p, src.state, r), counter, r, k) + r.clock(k + 1)
                  + PackN(Offsets(size)[k]) + p.packInt(AdvanceN(counter, k + 1))
    ensures forall k :: 0 <= k < |seeds| ==>
      p.sha512(seeds[k]) == DigestAt(p, Reseed(p, src.state, r), counter, r, k + 1)
    ensures |out| == if size <= 0 then 0 else size
    ensures out == Substr(Blocks(p, Reseed(p, src.state, r), counter, r, Rounds(size)), size)
    ensures forall j :: 0 <= j < |out| ==>
      out[j] == DigestAt(p, Reseed(p, src.state, r), counter, r, j / BLOCK + 1)[j % BLOCK]
    ensures src'.state == DigestAt(p, Reseed(p, src.state, r), counter, r, Rounds(size))
    ensures size > 0 ==> out[BLOCK * (Rounds(size) - 1)..] <= src'.state[..BLOCK]
    ensures counter' == AdvanceN(counter, Rounds(size))
    ensures InRange(counter) ==> InRange(counter')
    ensures size <= 0 ==> out == [] && counter' == counter && src'.state == Reseed(p, src.state, r)
  {
    var result: Bytes := [];
    var state := Reseed(p, src.state, r);
    ghost var s0 := state;
    var c := counter;
    var i := 0;
    var round: nat := 0;
    seeds := [];
    while i < size
      invariant round <= Rounds(size)
      invariant i == BLOCK * round
      invariant |seeds| == round
      invariant forall k :: 0 <= k < round ==> seeds[k] == SeedAt(p, s0, counter, r, k)
      invariant c == AdvanceN(counter, round)
      invariant state == DigestAt(p, s0, counter, r, round)
      invariant result == Blocks(p, s0, counter, r, round)
      decreases size - i
    {
      c := Advance(c);
      var seed := state + r.clock(round + 1) + PackN(i) + p.packInt(c);
      assert seed == SeedAt(p, s0, counter, r, round);
      assert forall k :: 0 <= k < round ==> (seeds + [seed])[k] == seeds[k];
      seeds := seeds + [seed];
      state := p.sha512(seed);
      assert state == DigestAt(p, s0, counter, r, round + 1);
      result := result + state[..BLOCK];
      i := i + BLOCK;
      round := round + 1;
    }
    assert round == Rounds(size);
    out := Substr(result, size);
    src' := Source(state);
    counter' := c;
    CutBlocks(p, s0, counter, r, size);
    forall k | 0 <= k < |seeds|
      ensures seeds[k] == DigestAt(p, s0, counter, r, k) + r.clock(k + 1)
                          + PackN(Offsets(size)[k]) + p.packInt(AdvanceN(counter, k + 1))
      ensures p.sha512(seeds[k]) == DigestAt(p, s0, counter, r, k + 1)
    {
      assert seeds[k] == SeedAt(p, s0, counter, r, k);
      assert Offsets(size)[k] == BLOCK * k;
    }
    if InRange(counter) {
      AdvanceNIsWrappedSum(counter, round);
    }
  }
}
