/** Word-level layout of the I2S DMA transmit buffer `txBuf` of
    main/i2s_example_main.c: the buffer geometry, the C integer operations
    that pack one integer sample into 16-bit words, the whole-buffer layouts
    for the 24-bit and 16-bit modes, and what can be read back from them. */
module Packing {

  // Buffer geometry (the #defines at the top of the source).
  const SampleRate: int := 44100
  const WaveFreqHz: int := 1700
  /** Integer division: 44100 / 1700 == 25, the fraction .94 is dropped. */
  const SamplesPerCycle: int := SampleRate / WaveFreqHz
  /** Words in `txBuf`: 25 samples * (left + right) * two 16-bit words. */
  const BufSamples: int := SamplesPerCycle * 4

  const Two16: int := 0x1_0000
  const Two32: int := 0x1_0000_0000

  /** A `uint16_t` element of `txBuf`. */
  type Word = x: int | 0 <= x < 0x1_0000

  /** A 32-bit C `int`. */
  type Int32 = x: int | -0x8000_0000 <= x < 0x8000_0000

  /** The value a 32-bit two's-complement `int` holds after an arithmetic
      result `x` is wrapped into it: the unique int32 congruent to `x`
      modulo 2^32. */
  function Wrap32(x: int): (v: Int32)
    ensures (v - x) % Two32 == 0
    ensures -0x8000_0000 <= x < 0x8000_0000 ==> v == x
  {
    var p := x % Two32;
    if p < 0x8000_0000 then p else p - Two32
  }

  /** `lval << 8` on a 32-bit `int`: multiplies by 256, then wraps. */
  function ShiftLeft8(lval: Int32): (v: Int32)
    ensures (v - lval * 256) % Two32 == 0
  {
    Wrap32(lval * 256)
  }

  /** `v & 0xFFFF`: the low 16 bits of the two's-complement pattern. */
  function Low16(v: Int32): (w: Word)
    ensures (v - w) % Two16 == 0
  {
    v % Two16
  }

  /** `(v >> 16) & 0xFFFF` with `>>` an arithmetic (sign-propagating)
      shift: the high 16 bits of the two's-complement pattern. */
  function High16(v: Int32): (w: Word)
    ensures (w * Two16 + Low16(v) - v) % Two32 == 0
  {
    (v / Two16) % Two16
  }

  /** The two 16-bit words, high word first, read back as one 32-bit
      two's-complement `int`. */
  function Combine32(hi: Word, lo: Word): Int32
  {
    Wrap32(hi * Two16 + lo)
  }

  /** Splitting an int32 into its two halves and recombining them gives it
      back. */
  lemma SplitCombine(v: Int32)
    ensures Combine32(High16(v), Low16(v)) == v
  {
    var q := v / Two16;
    assert v == q * Two16 + Low16(v);
    assert -0x8000 <= q < 0x8000;
    var hi := High16(v);
    assert hi == q || hi == q + Two16;
    assert hi * Two16 + Low16(v) == v || hi * Two16 + Low16(v) == v + Two32;
    Wrap32Periodic(v, hi * Two16 + Low16(v));
  }

  /** Two arguments congruent modulo 2^32 wrap to the same int32. */
  lemma Wrap32Periodic(x: int, y: int)
    requires y == x || y == x + Two32
    ensures Wrap32(x) == Wrap32(y)
  {
    assert y % Two32 == x % Two32;
  }

  // ---------------------------------------------------------------------
  // 24-bit mode: one group of four words per sample.

  /** The four words `setup_sine_waves24` stores for sample `s`: the low
      and the high half of `s << 8` (the left channel, a 24-bit value
      left-justified in a 32-bit slot) followed by two zero words (the
      right channel). */
  function PackSample24(s: Int32): (g: seq<Word>)
    ensures |g| == 4
  {
    var v := ShiftLeft8(s);
    [Low16(v), High16(v), 0, 0]
  }

  /** Reading a 24-bit sample back from its low and high words: recombine
      the 32-bit value and shift it right by 8 (arithmetic shift). */
  function Unpack24(lo: Word, hi: Word): (s: int)
    ensures -0x80_0000 <= s < 0x80_0000
  {
    Combine32(hi, lo) / 256
  }

  /** The recombined 32-bit value is `s * 256` exactly when `s` fits in 24
      signed bits. */
  lemma Combine24(s: Int32)
    ensures Combine32(PackSample24(s)[1], PackSample24(s)[0]) == s * 256
            <==> -0x80_0000 <= s < 0x80_0000
  {
    var v := ShiftLeft8(s);
    SplitCombine(v);
    if -0x80_0000 <= s < 0x80_0000 {
      assert v == s * 256;
    }
  }

  /** Round trip of the 24-bit packing: the sample is recovered from its
      two words exactly when it fits in 24 signed bits (otherwise `<< 8`
      has shifted bits out of the 32-bit `int`). */
  lemma PackUnpack24(s: Int32)
    ensures Unpack24(PackSample24(s)[0], PackSample24(s)[1]) == s
            <==> -0x80_0000 <= s < 0x80_0000
  {
    Combine24(s);
  }

  /** The low byte of the low word is always zero: it holds the 8 bits
      shifted in by `<< 8`. */
  lemma LowByteZero24(s: Int32)
    ensures PackSample24(s)[0] % 256 == 0
  {
    var v := ShiftLeft8(s);
    var t := s + ((v - s * 256) / Two32) * 0x100_0000;
    assert v == 256 * t;
    MulMod(t);
  }

  /** `(256 * t) & 0xFFFF == 256 * (t & 0xFF)`. */
  lemma MulMod(t: int)
    ensures (256 * t) % Two16 == 256 * (t % 256)
  {
    var q, r := t / 256, t % 256;
    assert 256 * t == Two16 * q + 256 * r;
  }

  /** A sample packs to four zero words exactly when it is a multiple of
      2^24 (shifting it by 8 then leaves no bit in the 32-bit `int`); in
      particular a zero sample gives zero words. */
  lemma ZeroGroup24(s: Int32)
    ensures PackSample24(s) == [0, 0, 0, 0] <==> s % 0x100_0000 == 0
  {
    var v := ShiftLeft8(s);
    SplitCombine(v);
    if s % 0x100_0000 == 0 {
      var m := s / 0x100_0000;
      assert s * 256 == m * Two32;
      assert v == 0;
    }
    if PackSample24(s) == [0, 0, 0, 0] {
      assert v == 0;
      var m := (0 - s * 256) / Two32;
      assert -(s * 256) == m * Two32;
      assert s == -(m * 0x100_0000);
    }
  }

  /** The whole 24-bit buffer for a sequence of samples: their groups,
      one after another. */
  function Frame24(samples: seq<Int32>): (f: seq<Word>)
    ensures |f| == 4 * |samples|
  {
    if samples == [] then [] else PackSample24(samples[0]) + Frame24(samples[1..])
  }

  /** Word j of group k of the 24-bit buffer is word j of the packing of
      sample k: group k depends on sample k only. */
  lemma {:induction false} Frame24At(samples: seq<Int32>, k: int, j: int)
    requires 0 <= k < |samples| && 0 <= j < 4
    ensures Frame24(samples)[4 * k + j] == PackSample24(samples[k])[j]
  {
    if k > 0 {
      Frame24At(samples[1..], k - 1, j);
    }
  }

  /** Packing one more sample appends its group to the buffer. */
  lemma {:induction false} Frame24Snoc(samples: seq<Int32>, s: Int32)
    ensures Frame24(samples + [s]) == Frame24(samples) + PackSample24(s)
  {
    if samples != [] {
      assert (samples + [s])[1..] == samples[1..] + [s];
      Frame24Snoc(samples[1..], s);
    } else {
      assert Frame24([s]) == PackSample24(s) + Frame24([]);
    }
  }

  /** The four words of group k of the 24-bit buffer, as the loop of
      `setup_sine_waves24` computes them from sample k. */
  lemma Frame24Words(samples: seq<Int32>, k: int)
    requires 0 <= k < |samples|
    ensures var v := ShiftLeft8(samples[k]);
      Frame24(samples)[4 * k] == Low16(v) && Frame24(samples)[4 * k + 1] == High16(v) &&
      Frame24(samples)[4 * k + 2] == 0 && Frame24(samples)[4 * k + 3] == 0
  {
    Frame24At(samples, k, 0);
    Frame24At(samples, k, 1);
    Frame24At(samples, k, 2);
    Frame24At(samples, k, 3);
  }

  /** In the 24-bit buffer, the right-channel words 4k+2 and 4k+3 are
      zero, and the low byte of the left channel's low word 4k is zero. */
  lemma Frame24Zeros(samples: seq<Int32>, k: int)
    requires 0 <= k < |samples|
    ensures Frame24(samples)[4 * k + 2] == 0 && Frame24(samples)[4 * k + 3] == 0
    ensures Frame24(samples)[4 * k] % 256 == 0
  {
    Frame24At(samples, k, 0);
    Frame24At(samples, k, 2);
    Frame24At(samples, k, 3);
    LowByteZero24(samples[k]);
  }

  /** Two words equal to the packing of `s` read back as `s` exactly when
      it fits in 24 signed bits. */
  lemma ReadBack24(lo: Word, hi: Word, s: Int32)
    requires lo == PackSample24(s)[0] && hi == PackSample24(s)[1]
    ensures Unpack24(lo, hi) == s <==> -0x80_0000 <= s < 0x80_0000
  {
    PackUnpack24(s);
  }

  /** Words 4k (low) and 4k+1 (high) of the 24-bit buffer read back as
      sample k exactly when it fits in 24 signed bits. */
  lemma Frame24RoundTrip(samples: seq<Int32>, k: int)
    requires 0 <= k < |samples|
    ensures Unpack24(Frame24(samples)[4 * k], Frame24(samples)[4 * k + 1]) == samples[k]
            <==> -0x80_0000 <= samples[k] < 0x80_0000
  {
    Frame24At(samples, k, 0);
    Frame24At(samples, k, 1);
    ReadBack24(Frame24(samples)[4 * k], Frame24(samples)[4 * k + 1], samples[k]);
  }

  /** All-zero samples (amplitude 0) give an all-zero 24-bit buffer. */
  lemma Frame24Silence(samples: seq<Int32>)
    requires forall k :: 0 <= k < |samples| ==> samples[k] == 0
    ensures forall i :: 0 <= i < |Frame24(samples)| ==> Frame24(samples)[i] == 0
  {
    forall i | 0 <= i < |Frame24(samples)|
      ensures Frame24(samples)[i] == 0
    {
      var k, j := i / 4, i % 4;
      assert i == 4 * k + j;
      Frame24At(samples, k, j);
      ZeroGroup24(samples[k]);
    }
  }

  // ---------------------------------------------------------------------
  // 16-bit mode: one pair of words per sample.

  /** The two words `setup_sine_waves16` stores for sample `s`: `s & 0xFFFF`
      (left channel) and zero (right channel). */
  function PackSample16(s: Int32): (g: seq<Word>)
    ensures |g| == 2
  {
    [Low16(s), 0]
  }

  /** Reading a 16-bit word back as a signed sample (sign extension). */
  function SignExtend16(w: Word): (s: int)
    ensures -0x8000 <= s < 0x8000
    ensures (s - w) % Two16 == 0
  {
    if w < 0x8000 then w else w - Two16
  }

  /** Round trip of the 16-bit packing: sign-extending the stored word
      gives the sample back exactly when it fits in 16 signed bits. */
  lemma PackUnpack16(s: Int32)
    ensures SignExtend16(PackSample16(s)[0]) == s <==> -0x8000 <= s < 0x8000
  {
    var w := Low16(s);
    if -0x8000 <= s < 0x8000 {
      assert w == (if s < 0 then s + Two16 else s);
    }
  }

  /** A sample packs to two zero words exactly when it is a multiple of
      2^16. */
  lemma ZeroGroup16(s: Int32)
    ensures PackSample16(s) == [0, 0] <==> s % Two16 == 0
  {
  }

  /** The whole 16-bit buffer for a sequence of samples. */
  function Frame16(samples: seq<Int32>): (f: seq<Word>)
    ensures |f| == 2 * |samples|
  {
    if samples == [] then [] else PackSample16(samples[0]) + Frame16(samples[1..])
  }

  /** Word j of pair k of the 16-bit buffer is word j of the packing of
      sample k. */
  lemma {:induction false} Frame16At(samples: seq<Int32>, k: int, j: int)
    requires 0 <= k < |samples| && 0 <= j < 2
    ensures Frame16(samples)[2 * k + j] == PackSample16(samples[k])[j]
  {
    if k > 0 {
      Frame16At(samples[1..], k - 1, j);
    }
  }

  /** Packing one more sample appends its pair to the buffer. */
  lemma {:induction false} Frame16Snoc(samples: seq<Int32>, s: Int32)
    ensures Frame16(samples + [s]) == Frame16(samples) + PackSample16(s)
  {
    if samples != [] {
      assert (samples + [s])[1..] == samples[1..] + [s];
      Frame16Snoc(samples[1..], s);
    } else {
      assert Frame16([s]) == PackSample16(s) + Frame16([]);
    }
  }

  /** The first 2m words of the 16-bit buffer are the buffer of the first
      m samples. */
  lemma {:induction false} Frame16Prefix(samples: seq<Int32>, m: nat)
    requires m <= |samples|
    ensures Frame16(samples)[..2 * m] == Frame16(samples[..m])
  {
    if m > 0 {
      Frame16Prefix(samples[1..], m - 1);
      assert samples[..m][1..] == samples[1..][..m - 1];
      assert Frame16(samples) == PackSample16(samples[0]) + Frame16(samples[1..]);
      assert Frame16(samples[..m]) == PackSample16(samples[0]) + Frame16(samples[1..][..m - 1]);
    }
  }

  /** In the 16-bit buffer every odd word is zero and word 2j is
      `s_j & 0xFFFF`. */
  lemma Frame16Pair(samples: seq<Int32>, j: int)
    requires 0 <= j < |samples|
    ensures Frame16(samples)[2 * j + 1] == 0
    ensures Frame16(samples)[2 * j] == samples[j] % Two16
  {
    Frame16At(samples, j, 0);
    Frame16At(samples, j, 1);
  }

  /** A word equal to the packing of `s` sign-extends back to `s` exactly
      when it fits in 16 signed bits. */
  lemma ReadBack16(w: Word, s: Int32)
    requires w == PackSample16(s)[0]
    ensures SignExtend16(w) == s <==> -0x8000 <= s < 0x8000
  {
    PackUnpack16(s);
  }

  /** Word 2j of the 16-bit buffer sign-extends back to sample j exactly
      when the sample fits in 16 signed bits. */
  lemma Frame16RoundTrip(samples: seq<Int32>, j: int)
    requires 0 <= j < |samples|
    ensures SignExtend16(Frame16(samples)[2 * j]) == samples[j]
            <==> -0x8000 <= samples[j] < 0x8000
  {
    Frame16At(samples, j, 0);
    ReadBack16(Frame16(samples)[2 * j], samples[j]);
  }

  /** All-zero samples give an all-zero 16-bit buffer. */
  lemma Frame16Silence(samples: seq<Int32>)
    requires forall k :: 0 <= k < |samples| ==> samples[k] == 0
    ensures forall i :: 0 <= i < |Frame16(samples)| ==> Frame16(samples)[i] == 0
  {
    forall i | 0 <= i < |Frame16(samples)|
      ensures Frame16(samples)[i] == 0
    {
      var k, j := i / 2, i % 2;
      assert i == 2 * k + j;
      Frame16At(samples, k, j);
    }
  }
}
