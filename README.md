# ESP32 I2S sine demo: a Dafny model of its integer core

The program in `main/i2s_example_main.c` fills a DMA buffer `txBuf` of
`BUF_SAMPLES = (44100 / 1700) * 4 = 100` sixteen-bit words with one cycle of
a sine tone and streams it to the I2S peripheral. Every twelfth pass of its
endless loop it moves the amplitude one step along a ramp between
1000000 and 3000000 and repacks the buffer. A separate routine routes the
I2S master clock to GPIO0, GPIO1 or GPIO3.

This project models the integer part of that program:

- `packing.dfy` (module `Packing`): the buffer geometry and the C integer
  operations that pack one sample into words. For the 24-bit mode these are
  `lval << 8` with 32-bit wrap-around, `& 0xFFFF` and an arithmetic
  `>> 16`. For the 16-bit mode it is `& 0xFFFF`. The module also gives the
  whole-buffer layouts `Frame24` and `Frame16` as the concatenation of the
  packed groups, and proves what can be read back from them.
- `sine_buffer.dfy` (module `SineBuffer`): `setup_sine_waves24` and
  `setup_sine_waves16` as loops that write an `array` in place. Each is
  proved to leave exactly the layout `Frame24` or `Frame16` of its samples.
  The floating-point sine is a parameter `tone(amplitude, k)` that gives
  the truncated integer sample for index `k`.
- `amplitude_ramp.dfy` (module `AmplitudeRamp`): the loop of `app_main`.
  The ramp and the pass counter are specified as pure functions of the
  number of ticks and passes. The class `ToneLoop` holds `cnt`,
  `amplitude`, `vol` and the buffer, and its `Step` method performs one
  pass in place.
- `mclk.dfy` (module `Mclk`): `i2s_mclk_gpio_select` as a pure decision
  function. It returns either `ESP_ERR_INVALID_ARG` or the pin function
  and the `PIN_CTRL` value that would be written.

Two behaviours of the code worth noting:

- `setup_sine_waves16` strides by 2 over a buffer sized for 4 words per
  sample. Its sample index `pos/2` therefore runs over 0..49, which is two
  nominal cycles, not one.
- The ramp reverses `vol` on the same tick that takes the amplitude out of
  [1000000, 3000000]. The 41st tick reaches 3050000 and sets `vol` to
  -50000, and the 42nd tick comes back to 3000000.

C semantics made explicit:

- `int` is 32-bit two's complement. `<<` on a negative or too-large `int`
  is undefined in ISO C (C11 section 6.5.7, paragraph 4), and half the
  samples of every cycle are negative. GCC defines it as the two's-complement
  shift, modelled as multiplication by 256 wrapped to 32 bits.
- `>>` on a negative `int` is an arithmetic shift, modelled as floor
  division.
- `i2s_port_t` is an unsigned enumeration. `gpio_num_t` is signed.

## Model

| member | source | states |
|---|---|---|
| `Packing.Wrap32` | main/i2s_example_main.c:83 | the value an `int` holds is the unique 32-bit value congruent to the arithmetic result modulo 2^32, and equals it when it fits |
| `Packing.ShiftLeft8` | main/i2s_example_main.c:83 | `lval << 8` is congruent to `lval * 256` modulo 2^32 |
| `Packing.Low16` | main/i2s_example_main.c:86 | `v & 0xFFFF` is a 16-bit word congruent to `v` modulo 2^16 |
| `Packing.SplitCombine` | main/i2s_example_main.c:85-86 | the high and low words of an int32 recombine to that int32 |
| `Packing.PackSample24` | main/i2s_example_main.c:83-88 | one sample occupies exactly four words |
| `Packing.High16` | main/i2s_example_main.c:85 | `(v >> 16) & 0xFFFF` is the 16-bit word that, placed above `v & 0xFFFF`, rebuilds `v` modulo 2^32 |
| `Packing.Unpack24` | main/i2s_example_main.c:83-86 | reading a sample back from its two words gives a 24-bit signed value |
| `Packing.Combine24` | main/i2s_example_main.c:83-86 | the 32-bit value formed from words 4k+1 (high) and 4k (low) is `s * 256` exactly when s fits in 24 signed bits |
| `Packing.PackUnpack24` | main/i2s_example_main.c:83-86 | round trip: shifting the recombined value right by 8 recovers s exactly when -2^23 <= s < 2^23 |
| `Packing.LowByteZero24` | main/i2s_example_main.c:83-86 | the low 8 bits of the low word are always 0 |
| `Packing.ZeroGroup24` | main/i2s_example_main.c:83-88 | a sample packs to four zero words exactly when it is a multiple of 2^24, so a zero sample packs to zeros |
| `Packing.Frame24` | main/i2s_example_main.c:76-92 | the 24-bit buffer of n samples has 4n words |
| `Packing.Frame24At` | main/i2s_example_main.c:76-88 | word 4k+j of the buffer is word j of the packing of sample k: group k depends on sample k only |
| `Packing.Frame24Snoc` | main/i2s_example_main.c:76-88 | packing one more sample appends its group at the end of the buffer |
| `Packing.Frame24Words` | main/i2s_example_main.c:83-88 | words 4k..4k+3 of the buffer are the low and high half of `s_k << 8` followed by two zeros |
| `Packing.Frame24Zeros` | main/i2s_example_main.c:83-88 | in every group k, words 4k+2 and 4k+3 are 0 and word 4k has a zero low byte |
| `Packing.ReadBack24` | main/i2s_example_main.c:83-86 | any two words equal to the packing of s read back as s exactly when s fits in 24 signed bits |
| `Packing.Frame24RoundTrip` | main/i2s_example_main.c:83-86 | words 4k (low) and 4k+1 (high) read back as sample k exactly when it fits in 24 signed bits |
| `Packing.Frame24Silence` | main/i2s_example_main.c:78-88 | all-zero samples, as amplitude 0 gives, leave every word of the 24-bit buffer 0 |
| `Packing.PackSample16` | main/i2s_example_main.c:57-58 | one sample occupies exactly two words |
| `Packing.SignExtend16` | main/i2s_example_main.c:57 | sign extension yields a 16-bit signed value congruent to the word modulo 2^16 |
| `Packing.PackUnpack16` | main/i2s_example_main.c:54-57 | round trip: sign-extending `s & 0xFFFF` recovers s exactly when -2^15 <= s < 2^15 |
| `Packing.ZeroGroup16` | main/i2s_example_main.c:57-58 | a sample packs to two zero words exactly when it is a multiple of 2^16 |
| `Packing.Frame16` | main/i2s_example_main.c:50-62 | the 16-bit buffer of n samples has 2n words |
| `Packing.Frame16At` | main/i2s_example_main.c:50-58 | word 2k+j of the buffer is word j of the packing of sample k |
| `Packing.Frame16Snoc` | main/i2s_example_main.c:50-58 | packing one more sample appends its pair at the end of the buffer |
| `Packing.Frame16Prefix` | main/i2s_example_main.c:50-58 | the first 2m words of the 16-bit buffer are the buffer of the first m samples |
| `Packing.Frame16Pair` | main/i2s_example_main.c:57-58 | every odd word is 0 and word 2j is `s_j & 0xFFFF` |
| `Packing.ReadBack16` | main/i2s_example_main.c:54-57 | a word equal to the packing of s sign-extends back to s exactly when s fits in 16 signed bits |
| `Packing.Frame16RoundTrip` | main/i2s_example_main.c:54-57 | word 2j sign-extends back to sample j exactly when it fits in 16 signed bits |
| `Packing.Frame16Silence` | main/i2s_example_main.c:50-58 | all-zero samples leave every word of the 16-bit buffer 0 |
| `SineBuffer.Wave` | main/i2s_example_main.c:52-54 | sample k of the run is the truncated tone value at index k and amplitude `amplitude`, for each of the n indices |
| `SineBuffer.WavePrefix` | main/i2s_example_main.c:50-54 | the first m samples of a longer run are the run of m samples |
| `SineBuffer.SineWaves16FirstCycle` | main/i2s_example_main.c:50-58 | words 0..49 of the buffer `setup_sine_waves16` leaves are the 16-bit packing of one nominal cycle of 25 samples |
| `SineBuffer.SetupSineWaves24` | main/i2s_example_main.c:68-94 | afterwards the whole 100-word buffer is `Frame24` of the 25 samples of one cycle at the given amplitude |
| `SineBuffer.SetupSineWaves16` | main/i2s_example_main.c:42-66 | afterwards the whole 100-word buffer is `Frame16` of the 50 samples (indices 0..49) at amplitude 10000 |
| `AmplitudeRamp.RampStep` | main/i2s_example_main.c:198-200 | one tick adds `vol` to the amplitude and keeps `vol` up to sign; a nonzero `vol` flips exactly when the new amplitude is outside [1000000, 3000000] |
| `AmplitudeRamp.TriangleStep` | main/i2s_example_main.c:198-200 | one tick moves the triangle wave one position on, wrapping after 84 |
| `AmplitudeRamp.RampIsTriangle` | main/i2s_example_main.c:188-200 | the ramp after t ticks is a triangle wave of period 84: 41 ticks up from 1000000 to 3050000, 42 down to 950000 |
| `AmplitudeRamp.RampPeriodic` | main/i2s_example_main.c:188-200 | after 84 ticks the ramp is back in the same state |
| `AmplitudeRamp.RampBounds` | main/i2s_example_main.c:188-200 | vol stays in {50000, -50000}; amplitude stays a multiple of 50000 in [950000, 3050000] |
| `AmplitudeRamp.Rising` | main/i2s_example_main.c:188-200 | for the first 40 ticks amplitude is 1000000 + 50000 t and vol is 50000 |
| `AmplitudeRamp.FirstReflection` | main/i2s_example_main.c:188-200 | tick 40 reaches 3000000, tick 41 overshoots to 3050000 and reverses vol, tick 42 is back at 3000000 |
| `AmplitudeRamp.ReversesOutsideBand` | main/i2s_example_main.c:198-200 | vol changes sign on a tick exactly when that tick leaves [1000000, 3000000] |
| `AmplitudeRamp.ReversalTicks` | main/i2s_example_main.c:188-200 | the reversing ticks are exactly ticks 41 and 83 of each period of 84 |
| `AmplitudeRamp.Ticks` | main/i2s_example_main.c:195 | for cnt in [0, 11] the test `cnt++ > 10` holds exactly when cnt is 11 |
| `AmplitudeRamp.Pass` | main/i2s_example_main.c:195-203 | one pass keeps cnt in [0, 11], resets it to 0 exactly on a ticking pass, and leaves the ramp alone on the other passes |
| `AmplitudeRamp.Cadence` | main/i2s_example_main.c:187-198 | after n passes cnt is n mod 12 and the ramp has ticked n div 12 times |
| `AmplitudeRamp.EveryTwelfthPass` | main/i2s_example_main.c:195-203 | `cnt++ > 10` holds exactly when cnt is 11, exactly on every twelfth pass, and exactly then the ramp changes |
| `AmplitudeRamp.ToneLoop.constructor` | main/i2s_example_main.c:187-191 | starts with cnt 0, amplitude 1000000, vol 50000 and the buffer packed from the caller's tone at that amplitude |
| `AmplitudeRamp.ToneLoop.Step` | main/i2s_example_main.c:195-204 | one pass takes the variables to `Pass` of the old ones, keeps the buffer equal to the packing at the current amplitude, leaves it untouched unless cnt was 11, and keeps cnt in [0, 11] and the ramp bounds |
| `Mclk.ErrorCode` | main/i2s_example_main.c:100-130 | the returned code is `ESP_OK` exactly for a successful selection and `ESP_ERR_INVALID_ARG` for a rejected one |
| `Mclk.MclkGpioSelect` | main/i2s_example_main.c:96-131 | the result is `ESP_ERR_INVALID_ARG`, with no register effect, exactly when the port is not below `I2S_NUM_MAX` or the GPIO is not 0, 1 or 3 |
| `Mclk.MatchesTable` | main/i2s_example_main.c:107-129 | the selection succeeds exactly for the six (port, gpio) pairs of the `PIN_CTRL` table and writes the table's value |
| `Mclk.PortIndependence` | main/i2s_example_main.c:107-129 | the pin function depends on the GPIO only; port 1 writes port 0's `PIN_CTRL` value with its low nibble set to 0xF |

## Left out

- The sine and the double-to-int truncation of lines 52-54 and 78-80 are
  floating-point work. They are replaced by the parameter `tone`, so
  nothing is claimed about the waveform's shape, only about how its
  integer samples are laid out.
- The `printf` diagnostics and `esp_get_free_heap_size()` are console
  output and a call into the runtime.
- The driver calls `i2s_driver_install`, `i2s_set_pin`, `i2s_set_clk` and
  `i2s_write`, and the `i2s_config` and `pin_config` structures, belong to
  a vendor driver that is not part of this model. The same holds for the
  call `i2s_mclk_gpio_select(I2S_NUM, GPIO_NUM_3)` at line 180; its result
  is `MclkGpioSelect(0, 3)`.
- The `PIN_FUNC_SELECT` and `WRITE_PERI_REG` register effects are not
  performed. `MclkGpioSelect` returns which function and value they
  would set.
- The endless `while (1)` is modelled as one pass, `ToneLoop.Step`, plus the
  pure functions of the number of passes.
- `rxBuf`, the unused `rval` and the unused `i2s_bytes_write` of the two
  packing routines are not modelled.
