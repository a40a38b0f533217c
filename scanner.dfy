/** The digit scanner's state machine: the camera and recogniser flags, the
    scan timer, the single-flight guard around recognition, and the stability
    window with the confirmed result. One recognition pass is split at its
    `await`: `BeginPass` is everything up to handing the binarised canvas to
    the recogniser, `FinishPass` everything after the recogniser settles, so
    that ticks arriving in between can be modelled. */
module Scanner {
  import opened Wrappers
  import opened Geometry
  import opened Conditioner
  import opened TextNormalizer
  import opened Stability

  /** How the recogniser settled: with a result whose text and confidence may
      be missing, or by throwing. */
  datatype Recognition = Recognized(text: Option<string>, confidence: Option<real>) | Threw

  /** How the synchronous part of a pass ended: it returned early without
      touching anything, it threw while reading an empty canvas back, or it
      handed the binarised canvas to the recogniser. */
  datatype PassStart = Skipped | Aborted | Recognizing

  /** The message shown above the video. */
  datatype Alert = NoAlert | OcrLoadFailed | CameraUnavailable

  /** The canvas a pass draws the region of interest into, if there is a region. */
  function CanvasOf(video: Option<Video>): (c: Option<Size>)
    ensures c.Some? <==> GetROI(video).Some?
  {
    match GetROI(video)
    case None => None
    case Some(roi) => Some(CanvasSize(roi))
  }

  /** `getImageData` throws on a canvas with no pixels. */
  predicate HasPixels(c: Size) {
    c.width > 0 && c.height > 0
  }

  /** A reading the page can hold: digits only, at most 32 of them. */
  predicate IsReading(s: string) {
    IsDigitString(s) && |s| <= MaxDigits
  }

  /** A consistent filter whose window and result are readings. */
  predicate HoldsReadings(f: Filter) {
    && Consistent(f)
    && (forall i | 0 <= i < |f.window| :: IsReading(f.window[i]))
    && IsReading(f.result)
  }

  /** Observing a reading keeps a filter of readings one. */
  lemma ObserveHoldsReadings(f: Filter, digits: string, confNow: real)
    requires HoldsReadings(f) && IsReading(digits)
    ensures HoldsReadings(Observe(f, digits, confNow))
  {
    var g := Observe(f, digits, confNow);
    ObserveDrawsFrom(f, digits, confNow);
    forall i | 0 <= i < |g.window|
      ensures IsReading(g.window[i])
    {
      if g.window[i] != digits {
        var j :| 0 <= j < |f.window| && f.window[j] == g.window[i];
      }
    }
  }

  class DigitScanner {
    var streaming: bool
    var ready: bool
    var scanning: bool
    var busy: bool
    /** Whether a scan timer is installed (`intervalRef.current` is set). */
    var timerSet: bool
    /** The stability window, oldest reading first. */
    var lastReads: seq<string>
    var result: string
    var conf: Option<real>
    var alert: Alert

    /** The stability filter's part of the state. */
    function Readings(): Filter
      reads this`lastReads, this`result, this`conf
    {
      Filter(lastReads, result, conf)
    }

    /** The scanner's invariant: the filter is consistent and holds digit
        strings of at most 32 digits, the timer runs exactly while scanning,
        and scanning happens only with the camera on and the recogniser ready.
        The page's test-field button that stores typed text as the result is
        not modelled; it would break the bounds on the result. */
    ghost predicate Valid()
      reads this`lastReads, this`result, this`conf, this`timerSet, this`scanning, this`streaming, this`ready
    {
      && HoldsReadings(Readings())
      && (timerSet <==> scanning)
      && (scanning ==> streaming && ready)
    }

    /** The state when the page mounts. */
    constructor ()
      ensures Valid()
      ensures !streaming && !ready && !scanning && !busy && !timerSet
      ensures Readings() == Initial && alert == NoAlert
    {
      streaming, ready, scanning, busy, timerSet := false, false, false, false, false;
      lastReads, result, conf := [], "", None;
      alert := NoAlert;
    }

    /** The recogniser finished loading (`loaded`) or failed to. */
    method WorkerLoaded(loaded: bool)
      requires Valid()
      modifies this`ready, this`alert
      ensures Valid()
      ensures ready == (old(ready) || loaded)
      ensures alert == if loaded then old(alert) else OcrLoadFailed
    {
      if loaded {
        ready := true;
      } else {
        alert := OcrLoadFailed;
      }
    }

    /** Stops the camera and the scan timer. The recognition guard, the window
        and the result are left alone; a pass in flight still completes. */
    method StopCamera()
      requires Valid()
      modifies this`scanning, this`timerSet, this`streaming
      ensures Valid()
      ensures !scanning && !timerSet && !streaming
    {
      scanning := false;
      if timerSet {
        timerSet := false;
      }
      streaming := false;
    }

    /** The camera button: stops a running camera, otherwise starts it when
        the device grants a stream (`granted`) and shows an alert when not. */
    method ToggleCamera(granted: bool)
      requires Valid()
      modifies this`scanning, this`timerSet, this`streaming, this`alert
      ensures Valid()
      ensures old(streaming) ==> !scanning && !timerSet && !streaming && alert == old(alert)
      ensures !old(streaming) && granted ==>
        streaming && scanning == old(scanning) && timerSet == old(timerSet) && alert == old(alert)
      ensures !old(streaming) && !granted ==>
        !streaming && scanning == old(scanning) && timerSet == old(timerSet) && alert == CameraUnavailable
    {
      if streaming {
        StopCamera();
        return;
      }
      if granted {
        streaming := true;
      } else {
        alert := CameraUnavailable;
      }
    }

    /** The scan button: does nothing unless the camera is on and the
        recogniser ready; otherwise flips scanning and installs or clears the
        scan timer to match. */
    method ToggleScan()
      requires Valid()
      modifies this`scanning, this`timerSet
      ensures Valid()
      ensures !(streaming && ready) ==> scanning == old(scanning) && timerSet == old(timerSet)
      ensures streaming && ready ==> scanning == !old(scanning) && timerSet == scanning
    {
      if !streaming || !ready {
        return;
      }
      var next := !scanning;
      if next {
        timerSet := true;
      } else if timerSet {
        timerSet := false;
      }
      scanning := next;
    }

    /** A tick of the scan timer, up to the call of the recogniser: returns at
        once while a pass is in flight, without a recogniser or without a region
        of interest; throws when the canvas has no pixels; otherwise binarises
        the canvas's RGBA buffer `image` in place and raises the guard. */
    method BeginPass(video: Option<Video>, image: array<byte>) returns (start: PassStart)
      requires Valid()
      requires CanvasOf(video).Some? ==>
        image.Length == 4 * (CanvasOf(video).value.width * CanvasOf(video).value.height)
      modifies this`busy, image
      ensures Valid()
      ensures start == Recognizing <==>
        !old(busy) && ready && CanvasOf(video).Some? && HasPixels(CanvasOf(video).value)
      ensures start == Skipped <==> old(busy) || !ready || CanvasOf(video).None?
      ensures start == Recognizing ==> image.Length % 4 == 0
      ensures start == Recognizing ==> busy && image[..] == Binarized(old(image[..]))
      ensures start != Recognizing ==> busy == old(busy) && image[..] == old(image[..])
    {
      if busy {
        return Skipped;
      }
      if !ready {
        return Skipped;
      }
      var roi := GetROI(video);
      if roi.None? {
        return Skipped;
      }
      var canvas := CanvasSize(roi.value);
      if canvas.width == 0 || canvas.height == 0 {
        return Aborted;
      }
      WholeBuffer(canvas.width * canvas.height);
      BinarizeInPlace(image);
      busy := true;
      return Recognizing;
    }

    /** Pushes a non-empty reading onto the window and shifts the oldest one
        out once there are more than three. */
    method PushReading(digits: string)
      modifies this`lastReads
      ensures lastReads == Slide(old(lastReads), digits)
    {
      lastReads := lastReads + [digits];
      if |lastReads| > Capacity {
        lastReads := lastReads[1..];
      }
    }

    /** The stability filter's update for one normalised reading `digits`
        with the recogniser's confidence: an empty reading changes nothing;
        otherwise it is pushed onto the window, the oldest reading is shifted
        out beyond three, and it becomes the result when the window agrees and
        the rounded confidence passes the gate. */
    method ObserveReading(digits: string, confidence: Option<real>)
      requires Valid() && IsReading(digits)
      modifies this`lastReads, this`result, this`conf
      ensures Valid()
      ensures Readings() == Observe(old(Readings()), digits, RoundConfidence(confidence.GetOr(0.0)))
    {
      ghost var before := Readings();
      var confNow := RoundConfidence(confidence.GetOr(0.0));
      ObserveHoldsReadings(before, digits, confNow);
      if digits != "" {
        PushReading(digits);
        var allSame := AllSame(lastReads);
        if allSame && confNow >= MinConfidence {
          result := digits;
          conf := Some(confNow);
        }
      }
    }

    /** The rest of a pass once the recogniser settles: a result's text is
        trimmed and normalised and fed to the stability filter; a throw changes
        nothing. Either way the guard is lowered. */
    method FinishPass(outcome: Recognition)
      requires Valid() && busy
      modifies this`busy, this`lastReads, this`result, this`conf
      ensures Valid() && !busy
      ensures outcome.Threw? ==> Readings() == old(Readings())
      ensures outcome.Recognized? ==>
        Readings() == Observe(old(Readings()), ReadDigits(outcome.text.GetOr("")),
                              RoundConfidence(outcome.confidence.GetOr(0.0)))
    {
      if outcome.Recognized? {
        var digits := ReadDigits(outcome.text.GetOr(""));
        ObserveReading(digits, outcome.confidence);
      }
      busy := false;
    }

    /** A whole pass whose recogniser settles before the next tick. */
    method RunPass(video: Option<Video>, image: array<byte>, outcome: Recognition) returns (start: PassStart)
      requires Valid()
      requires CanvasOf(video).Some? ==>
        image.Length == 4 * (CanvasOf(video).value.width * CanvasOf(video).value.height)
      modifies this`busy, this`lastReads, this`result, this`conf, image
      ensures Valid()
      ensures start == Recognizing <==>
        !old(busy) && ready && CanvasOf(video).Some? && HasPixels(CanvasOf(video).value)
      ensures start == Skipped <==> old(busy) || !ready || CanvasOf(video).None?
      ensures start != Recognizing ==> busy == old(busy) && Readings() == old(Readings())
      ensures start != Recognizing ==> image[..] == old(image[..])
      ensures start == Recognizing ==> image.Length % 4 == 0
      ensures start == Recognizing ==> !busy && image[..] == Binarized(old(image[..]))
      ensures start == Recognizing && outcome.Threw? ==> Readings() == old(Readings())
      ensures start == Recognizing && outcome.Recognized? ==>
        Readings() == Observe(old(Readings()), ReadDigits(outcome.text.GetOr("")),
                              RoundConfidence(outcome.confidence.GetOr(0.0)))
    {
      start := BeginPass(video, image);
      if start == Recognizing {
        FinishPass(outcome);
      }
    }
  }
}
