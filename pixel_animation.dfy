/**
 * `PixelAnimation`: a frame-rate gate in front of the LED driver.
 *
 * `millis()` is an explicit `now` argument and `FastLED.show()` is recorded
 * in a ghost log of the times at which a frame was pushed. The colour,
 * brightness and transition fields are only stored by the setters; no
 * operation reads them or interpolates between them.
 */
module Animation {
  import opened FixedWidth

  /** FastLED's `CRGB`: three 8-bit channels. */
  datatype Crgb = Crgb(r: uint8, g: uint8, b: uint8)

  /** `timePerFrame = 1000 / fps`: the largest whole number of milliseconds that fits `fps` times in a second. */
  function FrameInterval(fps: uint8): (t: uint16)
    requires fps > 0
    ensures t * fps <= 1000 < (t + 1) * fps
    ensures 3 <= t <= 1000
  {
    1000 / fps
  }

  /** `now - lastFrame` computed in `uint64` arithmetic, wrapping when `now < lastFrame`. */
  function Elapsed(now: uint64, lastFrame: uint64): (e: uint64)
    ensures now >= lastFrame ==> e == now - lastFrame
    ensures now < lastFrame ==> e == UINT64_MODULUS - (lastFrame - now)
  {
    (now - lastFrame) % UINT64_MODULUS
  }

  /** Whether `process()` at time `now` pushes a frame. */
  predicate Due(now: uint64, lastFrame: uint64, timePerFrame: uint16)
  {
    Elapsed(now, lastFrame) >= timePerFrame
  }

  /** Without a wrap of the clock, a frame is due exactly when a whole frame interval has passed. */
  lemma DueWithoutWrap(now: uint64, lastFrame: uint64, timePerFrame: uint16)
    requires lastFrame <= now
    ensures Due(now, lastFrame, timePerFrame) <==> lastFrame + timePerFrame <= now
  {
  }

  /** Right after a frame at `now`, another `process()` at the same `now` is a no-op. */
  lemma NoSecondFrameAtSameTime(now: uint64, timePerFrame: uint16)
    requires timePerFrame > 0
    ensures !Due(now, now, timePerFrame)
  {
  }

  /** Consecutive frame times are at least one frame interval apart. */
  ghost predicate Spaced(marks: seq<uint64>, timePerFrame: uint16)
  {
    forall i :: 0 < i < |marks| ==> Due(marks[i], marks[i - 1], timePerFrame)
  }

  ghost predicate Nondecreasing(marks: seq<uint64>)
  {
    forall i :: 0 < i < |marks| ==> marks[i - 1] <= marks[i]
  }

  /**
   * The frame-rate cap: over a clock that does not wrap, frame times spaced
   * by the gate leave at least `timePerFrame` milliseconds per frame.
   */
  lemma {:induction false} FrameRateBound(marks: seq<uint64>, timePerFrame: uint16)
    requires |marks| > 0 && Spaced(marks, timePerFrame) && Nondecreasing(marks)
    ensures marks[0] + (|marks| - 1) * timePerFrame <= marks[|marks| - 1]
    decreases |marks|
  {
    var n := |marks|;
    if n > 1 {
      var prefix := marks[..n - 1];
      assert Spaced(prefix, timePerFrame) by {
        forall i | 0 < i < |prefix| ensures Due(prefix[i], prefix[i - 1], timePerFrame) {
          assert prefix[i] == marks[i] && prefix[i - 1] == marks[i - 1];
        }
      }
      assert Nondecreasing(prefix) by {
        forall i | 0 < i < |prefix| ensures prefix[i - 1] <= prefix[i] {
          assert prefix[i] == marks[i] && prefix[i - 1] == marks[i - 1];
        }
      }
      FrameRateBound(prefix, timePerFrame);
      assert Due(marks[n - 1], marks[n - 2], timePerFrame);
      DueWithoutWrap(marks[n - 1], marks[n - 2], timePerFrame);
      assert (n - 1) * timePerFrame == (n - 2) * timePerFrame + timePerFrame;
    }
  }

  /** The fields of a `PixelAnimation`, as one value. */
  datatype Fields = Fields(
    transitionTime: uint16,
    timePerFrame: uint16,
    lastFrame: uint64,
    baseColor: Crgb,
    targetColor: Crgb,
    colorTransitionProgress: uint16,
    brightness: uint8,
    targetBrightness: uint8,
    brightnessTransitionProgress: uint16)

  class PixelAnimation {
    var transitionTime: uint16
    var timePerFrame: uint16
    var lastFrame: uint64
    var baseColor: Crgb
    var targetColor: Crgb
    var colorTransitionProgress: uint16
    var brightness: uint8
    var targetBrightness: uint8
    var brightnessTransitionProgress: uint16

    /** The times at which `FastLED.show()` was called, oldest first. */
    ghost var shows: seq<uint64>

    ghost function State(): Fields
      reads this
    {
      Fields(transitionTime, timePerFrame, lastFrame, baseColor, targetColor,
             colorTransitionProgress, brightness, targetBrightness, brightnessTransitionProgress)
    }

    /** The construction time 0 followed by the frame times. */
    ghost function Marks(): seq<uint64>
      reads this
    {
      [0] + shows
    }

    /** `lastFrame` is the latest mark, and the marks are spaced by the frame interval. */
    ghost predicate Valid()
      reads this
    {
      timePerFrame > 0 &&
      lastFrame == Marks()[|Marks()| - 1] &&
      Spaced(Marks(), timePerFrame)
    }

    /** The other fields start with whatever value the memory held. */
    constructor (fps: uint8)
      requires fps > 0
      ensures Valid()
      ensures timePerFrame == FrameInterval(fps) && lastFrame == 0 && shows == []
    {
      timePerFrame := FrameInterval(fps);
      lastFrame := 0;
      shows := [];
    }

    /** `process()`: pushes one frame when a frame interval has elapsed, otherwise does nothing. */
    method Process(now: uint64)
      requires Valid()
      modifies this
      ensures Valid()
      ensures Due(now, old(lastFrame), old(timePerFrame)) ==>
        State() == old(State()).(lastFrame := now) && shows == old(shows) + [now]
      ensures !Due(now, old(lastFrame), old(timePerFrame)) ==>
        State() == old(State()) && shows == old(shows)
    {
      if Elapsed(now, lastFrame) < timePerFrame {
        return;
      }
      lastFrame := now;
      shows := shows + [now];
      assert Marks() == old(Marks()) + [now];
    }

    /** `setBaseColor(color)`: stores the colour as the target; `baseColor` is untouched. */
    method SetBaseColor(color: Crgb)
      modifies this
      ensures State() == old(State()).(targetColor := color)
      ensures shows == old(shows)
      ensures old(Valid()) ==> Valid()
    {
      targetColor := color;
    }

    /** `setBrightness(value)`. */
    method SetBrightness(value: uint8)
      modifies this
      ensures State() == old(State()).(targetBrightness := value)
      ensures shows == old(shows)
      ensures old(Valid()) ==> Valid()
    {
      targetBrightness := value;
    }

    /** `setTransitionTime(time)`. */
    method SetTransitionTime(time: uint16)
      modifies this
      ensures State() == old(State()).(transitionTime := time)
      ensures shows == old(shows)
      ensures old(Valid()) ==> Valid()
    {
      transitionTime := time;
    }

    /** Over a clock that has not wrapped, at most one frame per `timePerFrame` milliseconds has been pushed. */
    lemma FrameBudget()
      requires Valid() && Nondecreasing(Marks())
      ensures |shows| * timePerFrame <= lastFrame
    {
      FrameRateBound(Marks(), timePerFrame);
    }
  }

  /** The firmware's 50 frames per second give a 20 ms frame interval. */
  lemma FirmwareFrameInterval()
    ensures FrameInterval(50) == 20
  {
  }
}
