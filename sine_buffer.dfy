/** The two routines of main/i2s_example_main.c that fill the global DMA
    buffer `txBuf` in place: `setup_sine_waves24` and `setup_sine_waves16`.

    The sine itself is not modelled. The truncated value
    `(int)(amplitude * sin(2 * PI * k / SAMPLE_PER_CYCLE))` for sample index
    `k` is supplied by the caller as the function `tone`, so every property
    below holds whatever integer samples the floating-point code produces. */
module SineBuffer {
  import opened Packing

  /** The integer sample for an amplitude and a sample index, as the
      truncating double-to-int conversion of the source yields it. */
  type Tone = (int, nat) -> Int32

  /** The fixed amplitude `setup_sine_waves16` uses. */
  const Amplitude16: int := 10000

  /** Samples 0 .. n-1 of the tone at the given amplitude. */
  function Wave(amplitude: int, tone: Tone, n: nat): (w: seq<Int32>)
    ensures |w| == n
    ensures forall k :: 0 <= k < n ==> w[k] == tone(amplitude, k)
  {
    seq(n, k requires 0 <= k < n => tone(amplitude, k))
  }

  /** The first m samples of a longer run are the run of m samples: in
      particular the first half of the 50 samples `setup_sine_waves16`
      packs is one nominal cycle of 25. */
  lemma WavePrefix(amplitude: int, tone: Tone, m: nat, n: nat)
    requires m <= n
    ensures Wave(amplitude, tone, n)[..m] == Wave(amplitude, tone, m)
  {
  }

  /** The first half of the buffer `setup_sine_waves16` leaves (words
      0 .. 49) is the 16-bit packing of one nominal cycle of 25 samples. */
  lemma SineWaves16FirstCycle(tone: Tone)
    ensures Frame16(Wave(Amplitude16, tone, BufSamples / 2))[..BufSamples / 2]
            == Frame16(Wave(Amplitude16, tone, SamplesPerCycle))
  {
    var samples := Wave(Amplitude16, tone, BufSamples / 2);
    Frame16Prefix(samples, SamplesPerCycle);
    WavePrefix(Amplitude16, tone, SamplesPerCycle, BufSamples / 2);
  }

  /** `setup_sine_waves24(amplitude)`: for pos = 0, 4, 8, .. the sample
      `lval` of index pos/4 is shifted left by 8 and stored as its high
      half at pos+1 and its low half at pos, and pos+2, pos+3 are cleared.
      Afterwards the buffer is the 24-bit layout of one cycle of
      SAMPLE_PER_CYCLE samples. */
  method SetupSineWaves24(txBuf: array<Word>, amplitude: int, tone: Tone)
    requires txBuf.Length == BufSamples
    modifies txBuf
    ensures txBuf[..] == Frame24(Wave(amplitude, tone, SamplesPerCycle))
  {
    ghost var samples := Wave(amplitude, tone, SamplesPerCycle);
    ghost var target := Frame24(samples);
    var pos := 0;
    ghost var k := 0;
    while pos < BufSamples
      invariant 0 <= k <= SamplesPerCycle && pos == 4 * k
      invariant forall i :: 0 <= i < pos ==> txBuf[i] == target[i]
    {
      var lval := tone(amplitude, pos / 4);
      assert pos / 4 == k && lval == samples[k];
      Frame24Words(samples, k);
      lval := ShiftLeft8(lval);
      txBuf[pos + 1] := High16(lval);
      txBuf[pos] := Low16(lval);
      txBuf[pos + 2] := 0;
      txBuf[pos + 3] := 0;
      assert txBuf[pos] == target[pos] && txBuf[pos + 1] == target[pos + 1];
      assert txBuf[pos + 2] == target[pos + 2] && txBuf[pos + 3] == target[pos + 3];
      pos, k := pos + 4, k + 1;
    }
    assert txBuf[..] == target;
  }

  /** `setup_sine_waves16()`: for pos = 0, 2, 4, .. the sample of index
      pos/2 at amplitude 10000 is stored as `lval & 0xFFFF` at pos and a
      zero at pos+1. The buffer is sized for four words per sample, so the
      index pos/2 runs over 0 .. 49: two nominal cycles. */
  method SetupSineWaves16(txBuf: array<Word>, tone: Tone)
    requires txBuf.Length == BufSamples
    modifies txBuf
    ensures txBuf[..] == Frame16(Wave(Amplitude16, tone, BufSamples / 2))
  {
    ghost var samples := Wave(Amplitude16, tone, BufSamples / 2);
    ghost var target := Frame16(samples);
    var pos := 0;
    ghost var j := 0;
    while pos < BufSamples
      invariant 0 <= j <= BufSamples / 2 && pos == 2 * j
      invariant forall i :: 0 <= i < pos ==> txBuf[i] == target[i]
    {
      var lval := tone(Amplitude16, pos / 2);
      Frame16Pair(samples, j);
      txBuf[pos] := Low16(lval);
      txBuf[pos + 1] := 0;
      pos, j := pos + 2, j + 1;
    }
    assert txBuf[..] == target;
  }
}
