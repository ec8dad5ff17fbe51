/** The body of the endless loop of `app_main` in main/i2s_example_main.c:
    a pass counter `cnt`, and every twelfth pass one tick of the amplitude
    ramp (`amplitude += vol`, reversing `vol` once `amplitude` has left
    [1000000, 3000000]) followed by a regeneration of `txBuf`.

    The ramp and the pass counter are first specified as pure functions of
    the number of ticks and passes; the class `ToneLoop` then holds the
    loop's variables and the buffer and performs one pass in place. */
module AmplitudeRamp {
  import opened Packing
  import opened SineBuffer

  const StartAmplitude: int := 1000000
  const StartVol: int := 50000
  const MinAmplitude: int := 1000000
  const MaxAmplitude: int := 3000000
  /** A pass ticks the ramp when the post-incremented `cnt` was above
      this (`cnt++ > 10`). */
  const CountLimit: int := 10

  /** The ramp's two variables. */
  datatype Ramp = Ramp(amplitude: int, vol: int)

  /** One tick: add `vol`, then reverse `vol` if the new amplitude lies
      outside [MinAmplitude, MaxAmplitude]. The test comes after the add,
      so the amplitude overshoots the band by one step before it turns. */
  function RampStep(r: Ramp): (r': Ramp)
    ensures r'.amplitude == r.amplitude + r.vol
    ensures r'.vol == r.vol || r'.vol == -r.vol
    ensures MinAmplitude <= r'.amplitude <= MaxAmplitude ==> r'.vol == r.vol
    ensures r.vol != 0 ==> (r'.vol != r.vol <==> r'.amplitude > MaxAmplitude || r'.amplitude < MinAmplitude)
  {
    var a := r.amplitude + r.vol;
    Ramp(a, if a > MaxAmplitude || a < MinAmplitude then -r.vol else r.vol)
  }

  /** The ramp after `ticks` ticks from amplitude 1000000, vol 50000. */
  function RampAfter(ticks: nat): Ramp
  {
    if ticks == 0 then Ramp(StartAmplitude, StartVol) else RampStep(RampAfter(ticks - 1))
  }

  /** The number of ticks after which the ramp is back at its start. */
  const Period: nat := 84

  /** The ramp as a triangle wave: 41 ticks up from 1000000 to 3050000,
      42 ticks down to 950000, then up again. */
  function Triangle(t: nat): Ramp
    requires t < Period
  {
    if t <= 40 then Ramp(1000000 + 50000 * t, 50000)
    else if t <= 82 then Ramp(3050000 - 50000 * (t - 41), -50000)
    else Ramp(950000, 50000)
  }

  /** One tick moves the triangle one position on, wrapping after 84. */
  lemma TriangleStep(u: nat)
    requires u < Period
    ensures RampStep(Triangle(u)) == Triangle(if u == Period - 1 then 0 else u + 1)
  {
    if u <= 39 {
      assert 1000000 + 50000 * u + 50000 == 1000000 + 50000 * (u + 1);
    } else if u == 40 {
    } else if u <= 81 {
      assert 3050000 - 50000 * (u - 41) - 50000 == 3050000 - 50000 * (u + 1 - 41);
    }
  }

  /** Counting ticks modulo the period: the tick after x lands one
      position on, or wraps to 0 from the last position. */
  lemma PeriodSucc(x: nat)
    ensures (x + 1) % Period == if x % Period == Period - 1 then 0 else x % Period + 1
  {
    var q, r := x / Period, x % Period;
    assert x + 1 == q * Period + (r + 1);
    if r == Period - 1 {
      assert x + 1 == (q + 1) * Period;
    }
  }

  /** The ramp follows the triangle, with period 84 ticks. */
  lemma {:induction false} RampIsTriangle(t: nat)
    ensures RampAfter(t) == Triangle(t % Period)
  {
    if t > 0 {
      var u := (t - 1) % Period;
      PeriodSucc(t - 1);
      calc {
        RampAfter(t);
        RampStep(RampAfter(t - 1));
        { RampIsTriangle(t - 1); }
        RampStep(Triangle(u));
        { TriangleStep(u); }
        Triangle(if u == Period - 1 then 0 else u + 1);
      }
    }
  }

  /** After 84 ticks the ramp is where it was. */
  lemma RampPeriodic(t: nat)
    ensures RampAfter(t + Period) == RampAfter(t)
  {
    var u := t % Period;
    assert (t + Period) % Period == u;
    RampIsTriangle(t);
    assert RampAfter(t) == Triangle(u);
    RampIsTriangle(t + Period);
  }

  /** `vol` is always plus or minus 50000, and `amplitude` is a multiple of
      50000 in [950000, 3050000]: one step beyond each end of the band. */
  lemma RampBounds(t: nat)
    ensures RampAfter(t).vol == 50000 || RampAfter(t).vol == -50000
    ensures 950000 <= RampAfter(t).amplitude <= 3050000
    ensures RampAfter(t).amplitude % 50000 == 0
  {
    RampIsTriangle(t);
    var u := t % Period;
    if u <= 40 {
      assert 1000000 + 50000 * u == 50000 * (20 + u);
    } else if u <= 82 {
      assert 3050000 - 50000 * (u - 41) == 50000 * (61 - (u - 41));
    }
  }

  /** For the first 40 ticks the amplitude rises by 50000 per tick and
      `vol` stays positive. */
  lemma Rising(t: nat)
    requires t <= 40
    ensures RampAfter(t) == Ramp(1000000 + 50000 * t, 50000)
  {
    RampIsTriangle(t);
    assert t % Period == t;
  }

  /** The 40th tick reaches 3000000, the 41st overshoots to 3050000 and
      reverses `vol`, the 42nd comes back to 3000000. */
  lemma FirstReflection()
    ensures RampAfter(40) == Ramp(3000000, 50000)
    ensures RampAfter(41) == Ramp(3050000, -50000)
    ensures RampAfter(42) == Ramp(3000000, -50000)
  {
    RampIsTriangle(40);
    RampIsTriangle(41);
    RampIsTriangle(42);
  }

  /** `vol` changes sign on a tick exactly when that tick takes the
      amplitude out of the band [1000000, 3000000]. */
  lemma ReversesOutsideBand(t: nat)
    ensures RampAfter(t + 1).vol != RampAfter(t).vol
            <==> RampAfter(t + 1).amplitude > MaxAmplitude || RampAfter(t + 1).amplitude < MinAmplitude
  {
    RampBounds(t);
  }

  /** The ticks that reverse `vol` are exactly ticks 41 and 83 of every
      period of 84. */
  lemma ReversalTicks(t: nat)
    ensures RampAfter(t + 1).vol != RampAfter(t).vol
            <==> t % Period == 40 || t % Period == 82
  {
    RampIsTriangle(t);
    RampIsTriangle(t + 1);
    PeriodSucc(t);
  }

  // -----------------------------------------------------------------------
  // The pass counter.

  /** The loop variables at the top of a pass. */
  datatype LoopState = LoopState(cnt: int, ramp: Ramp)

  /** The state before the first pass (lines 187-191). */
  const Initial: LoopState := LoopState(0, Ramp(StartAmplitude, StartVol))

  /** Whether a pass ticks the ramp: the test `cnt++ > 10`. */
  function Ticks(s: LoopState): (b: bool)
    ensures 0 <= s.cnt <= 11 ==> (b <==> s.cnt == 11)
  {
    s.cnt > CountLimit
  }

  /** One pass: increment `cnt`; if it was above 10, reset it and tick the
      ramp. */
  function Pass(s: LoopState): (p: LoopState)
    ensures 0 <= s.cnt <= 11 ==> 0 <= p.cnt <= 11
    ensures s.cnt >= 0 ==> (Ticks(s) <==> p.cnt == 0)
    ensures !Ticks(s) ==> p.ramp == s.ramp
  {
    if Ticks(s) then LoopState(0, RampStep(s.ramp)) else LoopState(s.cnt + 1, s.ramp)
  }

  /** The loop variables after `n` passes. */
  function AfterPasses(n: nat): LoopState
  {
    if n == 0 then Initial else Pass(AfterPasses(n - 1))
  }

  /** After n passes `cnt` is n mod 12 and the ramp has ticked n div 12
      times: `cnt` stays in [0, 11] and the ramp ticks once per 12 passes. */
  lemma {:induction false} Cadence(n: nat)
    ensures AfterPasses(n) == LoopState(n % 12, RampAfter(n / 12))
  {
    if n > 0 {
      Cadence(n - 1);
      if (n - 1) % 12 == 11 {
        assert n % 12 == 0 && n / 12 == (n - 1) / 12 + 1;
      } else {
        assert n % 12 == (n - 1) % 12 + 1 && n / 12 == (n - 1) / 12;
      }
    }
  }

  /** Pass n + 1 ticks the ramp (and regenerates the buffer) exactly when
      `cnt` is 11 at its top, that is exactly when n + 1 is a multiple of
      12; the ramp then always changes, and on other passes it does not. */
  lemma EveryTwelfthPass(n: nat)
    ensures Ticks(AfterPasses(n)) <==> AfterPasses(n).cnt == 11
    ensures Ticks(AfterPasses(n)) <==> (n + 1) % 12 == 0
    ensures AfterPasses(n + 1).ramp != AfterPasses(n).ramp <==> (n + 1) % 12 == 0
  {
    Cadence(n);
    Cadence(n + 1);
    assert AfterPasses(n + 1) == Pass(AfterPasses(n));
    if (n + 1) % 12 == 0 {
      assert n % 12 == 11;
      RampBounds(n / 12);
      assert AfterPasses(n + 1).ramp == RampStep(AfterPasses(n).ramp);
    } else {
      assert n % 12 != 11;
    }
  }

  /** The loop of `app_main` from line 187 on: its variables and the DMA
      buffer they regenerate. `tone` stands for the floating-point sine
      of the source. */
  class ToneLoop {
    var cnt: int
    var amplitude: int
    var vol: int
    const txBuf: array<Word>
    const tone: Tone
    /** The number of passes made so far. */
    ghost var passes: nat

    /** The variables are those after `passes` passes, and the buffer holds
        one cycle packed at the current amplitude. */
    ghost predicate Valid()
      reads this, txBuf
    {
      txBuf.Length == BufSamples &&
      LoopState(cnt, Ramp(amplitude, vol)) == AfterPasses(passes) &&
      txBuf[..] == Frame24(Wave(amplitude, tone, SamplesPerCycle))
    }

    /** Lines 187-191: `cnt = 0`, `amplitude = 1000000`, the first buffer,
        `vol = 50000`. */
    constructor (tone: Tone)
      ensures Valid() && passes == 0 && fresh(txBuf)
      ensures this.tone == tone
      ensures cnt == 0 && amplitude == 1000000 && vol == 50000
    {
      var buf := new Word[BufSamples];
      SetupSineWaves24(buf, StartAmplitude, tone);
      cnt, amplitude := 0, StartAmplitude;
      vol := StartVol;
      this.tone := tone;
      txBuf := buf;
      passes := 0;
    }

    /** One pass of the loop up to the write to the I2S driver. */
    method Step()
      requires Valid()
      modifies this, txBuf
      ensures Valid() && passes == old(passes) + 1
      ensures LoopState(cnt, Ramp(amplitude, vol)) == Pass(old(LoopState(cnt, Ramp(amplitude, vol))))
      ensures old(cnt) == 11 || txBuf[..] == old(txBuf[..])
      ensures 0 <= cnt <= 11
      ensures vol == 50000 || vol == -50000
      ensures 950000 <= amplitude <= 3050000 && amplitude % 50000 == 0
    {
      var was := cnt;
      cnt := cnt + 1;
      if was > CountLimit {
        cnt := 0;
        amplitude := amplitude + vol;
        if amplitude > MaxAmplitude || amplitude < MinAmplitude {
          vol := -vol;
        }
        SetupSineWaves24(txBuf, amplitude, tone);
      }
      passes := passes + 1;
      Cadence(old(passes));
      Cadence(passes);
      RampBounds(passes / 12);
    }
  }
}
