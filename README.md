# Relay bank and pixel animation of the cocktail-bot interface firmware

This project models the two small stateful device abstractions of the
firmware, and proves properties of them.

- `RelayController<NUM>` (module `Relays`) maps a relay index to one bit of
  the output buffer of NUM chained 74HC595 shift registers. It writes
  `closed != inverted`, rejects indices at or above `relayCount = NUM * 8`
  (a `uint8`, so truncated modulo 256), and opens every relay on
  construction. The shift register library is modelled as a class over an
  `array<bool>` of NUM * 8 bits with `set`, `setAllHigh` and `setAllLow`.
  `relayCount` and `inverted` are `const` fields: they are fixed by the
  constructor and cannot be assigned afterwards. A ghost sequence
  `closedRelays` gives the logical (closed/open) view that the bits encode.
- `PixelAnimation` (module `Animation`) is a frame-rate gate. The constructor
  sets `timePerFrame = 1000 / fps` and `lastFrame = 0`. `process()` does
  nothing unless `millis() - lastFrame >= timePerFrame`, in `uint64`
  arithmetic. When the gate opens it records the time and pushes one frame.
  The three setters each store one field. `millis()` is the `now` argument.
  Each `FastLED.show()` call is recorded in a ghost log of frame times. The
  object invariant keeps consecutive frame times at least one frame interval
  apart.

Some behaviour one might expect of this firmware is not in its code, and
the model follows the code:
- Relay index 255 is not a broadcast. With four registers it is simply
  rejected, like every index at or above 32.
- No colour or brightness interpolation exists. `setBaseColor` writes
  `targetColor`, not `baseColor`. `process` never reads or writes the colour,
  brightness, transition-time or progress fields.
- No command dispatcher, load cell or calibration store appears in the code
  (no command handler is registered), so none is modelled.

Files: `fixed_width.dfy` (fixed-width integer types, `Option`),
`relays.dfy`, `pixel_animation.dfy`.

## Model

| member | source | states |
|---|---|---|
| `Relays.Level` | lib/RelayController/src/RelayController.cpp:18 | the written level equals the inversion flag exactly when the relay is requested open |
| `Relays.RelayCount` | lib/RelayController/src/RelayController.cpp:8 | `NUM * 8` stored in a `uint8`: exact when it fits, 256 lost for every 32 registers, never above `NUM * 8` |
| `Relays.AllOpen` | lib/RelayController/src/RelayController.cpp:24-27 | the buffer after `openAllRelays`: every bit at the open level |
| `Relays.SetRelayOn` | lib/RelayController/src/RelayController.cpp:14-21 | accepted iff `id < relayCount`; a rejected call leaves the buffer equal; an accepted one sets bit `id` to `closed != inverted`; no other bit changes |
| `Relays.LastRequestWins` | lib/RelayController/src/RelayController.cpp:14-27 | after any sequence of `setRelay`/`openAllRelays` calls, each bit is the level of the last request addressing it, or its old value if none did |
| `Relays.NeverClosedStaysOpen` | lib/RelayController/src/RelayController.cpp:11-27 | starting all-open, a relay that no call closed is still open after any calls |
| `Relays.RequestedNotClosed` | lib/RelayController/src/RelayController.cpp:14-21 | if no call closes relay `j`, the last request for `j` is never "closed" |
| `Relays.OpenAllIdempotent` | lib/RelayController/src/RelayController.cpp:24-27 | calling `openAllRelays` twice leaves the same buffer as calling it once |
| `Relays.OpenAfterOpenAllUnchanged` | lib/RelayController/src/RelayController.cpp:18-26 | after `openAllRelays`, `setRelay(i, false)` for a valid `i` is accepted and leaves the buffer unchanged |
| `Relays.FirmwareRelayCount` | lib/RelayController/src/RelayController.cpp:8-16 | with the firmware's `NUM = 4` (src/main.cpp line 10) there are 32 relays, and `setRelay(255, _)` returns false without a write |
| `Relays.RelayCountTruncates` | lib/RelayController/src/RelayController.h:11 | the `uint8` relay count is 248 for 31 registers, 0 for 32 and 8 for 33 |
| `Relays.ShiftRegister.constructor` | lib/RelayController/src/RelayController.cpp:7 | a fresh buffer of `NUM * 8` bits |
| `Relays.ShiftRegister.Set` | lib/RelayController/src/RelayController.cpp:18 | only bit `pin` changes, to `value` |
| `Relays.ShiftRegister.SetAllHigh` | lib/RelayController/src/RelayController.cpp:25 | every bit is high |
| `Relays.ShiftRegister.SetAllLow` | lib/RelayController/src/RelayController.cpp:26 | every bit is low |
| `Relays.RelayController.constructor` | lib/RelayController/src/RelayController.cpp:5-12 | `relayCount = RelayCount(NUM)`, `inverted = invertRelays`, every bit at the open level, every relay logically open |
| `Relays.RelayController.SetRelay` | lib/RelayController/src/RelayController.cpp:14-21 | result and new buffer are those of `SetRelayOn`; the logical view changes at `relayId` only, and only when accepted |
| `Relays.RelayController.OpenAllRelays` | lib/RelayController/src/RelayController.cpp:23-27 | every bit at the open level (high exactly when inverted); every relay logically open |
| `Animation.FrameInterval` | src/PixelAnimation.cpp:6 | `1000 / fps` is the largest `t` with `t * fps <= 1000`, and lies in 3..1000 for a `uint8` fps |
| `Animation.Elapsed` | src/PixelAnimation.cpp:13 | `now - lastFrame` in `uint64`: the plain difference without a wrap, the wrapped one otherwise |
| `Animation.DueWithoutWrap` | src/PixelAnimation.cpp:13 | without a wrap, a frame is due iff `lastFrame + timePerFrame <= now` |
| `Animation.NoSecondFrameAtSameTime` | src/PixelAnimation.cpp:13-15 | with `timePerFrame > 0`, a `process` at the time of the last frame is a no-op |
| `Animation.FrameRateBound` | src/PixelAnimation.cpp:12-17 | frame times spaced by the gate on a non-wrapping clock leave `timePerFrame` per frame: `first + (n-1) * timePerFrame <= last` |
| `Animation.PixelAnimation.constructor` | src/PixelAnimation.cpp:5-10 | `timePerFrame = FrameInterval(fps)`, `lastFrame = 0`, no frame pushed |
| `Animation.PixelAnimation.Process` | src/PixelAnimation.cpp:12-17 | not due: no field changes and no frame is pushed; due: only `lastFrame` becomes `now` and exactly one frame is pushed; the spacing invariant is kept |
| `Animation.PixelAnimation.SetBaseColor` | src/PixelAnimation.cpp:19-21 | only `targetColor` changes; `baseColor` is untouched |
| `Animation.PixelAnimation.SetBrightness` | src/PixelAnimation.cpp:23-25 | only `targetBrightness` changes |
| `Animation.PixelAnimation.SetTransitionTime` | src/PixelAnimation.cpp:27-29 | only `transitionTime` changes |
| `Animation.PixelAnimation.FrameBudget` | src/PixelAnimation.cpp:12-17 | on a non-wrapping clock, the frames pushed so far times `timePerFrame` is at most `lastFrame` |
| `Animation.FirmwareFrameInterval` | src/PixelAnimation.cpp:6 | the firmware's 50 fps (src/main.cpp line 28) give a 20 ms frame interval |

## Left out

- Clocking and latching of the 74HC595 chips, and the pins passed to the constructors: hardware I/O, abstracted as the bit buffer.
- The initial contents of the shift register buffer are not specified; the controller's constructor overwrites them all.
- `FastLED.show()` and the LED driver: abstracted as the ghost log of frame times.
- `millis()`: a parameter. `process()` calls it twice (lines 13 and 15); the model uses one `now` per call, so a tick between the two reads is not captured.
- `pixelCount` and the `leds` pointer of `PixelAnimation`: the value is computed from the pointer's size, never used, and not modelled.
- Fields the `PixelAnimation` constructor does not assign start with arbitrary values; the model states nothing about them.
- `setup()`/`loop()` glue, pin and baud configuration and the serial command object of `src/main.cpp`: configuration only. Its constants (4 registers, 50 fps) are used in the firmware lemmas.
- Command dispatcher, load cell, tare/calibration and EEPROM persistence: not present in this code.
