/** The stability filter behind the scanner's result: a window of the most
    recent non-empty readings (at most three) and the confirmed reading with its
    confidence. A non-empty reading is pushed onto the window, the oldest entry
    is shifted out once there are more than three, and the reading becomes the
    confirmed result when every entry of the window equals the window's first
    entry and the rounded confidence is at least 50. The window need not be
    full: the first non-empty reading confirms on its own. */
module Stability {
  import opened Wrappers

  /** Most readings the window keeps. */
  const Capacity: nat := 3

  /** Lowest rounded confidence that confirms a reading. */
  const MinConfidence: real := 50.0

  /** The window (oldest first) and the confirmed reading with its confidence;
      `conf` is `None` until something is confirmed. */
  datatype Filter = Filter(window: seq<string>, result: string, conf: Option<real>)

  const Initial: Filter := Filter([], "", None)

  /** One normalised reading and its rounded confidence. */
  datatype Read = Read(digits: string, confidence: real)

  /** `Math.round(c * 10) / 10`: the confidence rounded half up to one decimal. */
  function RoundConfidence(c: real): (r: real)
    ensures c - 0.05 < r <= c + 0.05
    ensures (r * 10.0).Floor as real == r * 10.0
  {
    (c * 10.0 + 0.5).Floor as real / 10.0
  }

  /** A raw confidence passes the gate after rounding exactly when it is at
      least 49.95. */
  lemma RoundedGate(c: real)
    ensures RoundConfidence(c) >= MinConfidence <==> c >= 49.95
  {
    var f := (c * 10.0 + 0.5).Floor;
    assert f as real <= c * 10.0 + 0.5 < f as real + 1.0;
    if c >= 49.95 {
      assert f >= 500;
    }
  }

  /** The last (at most) `n` elements of `s`. */
  function LastN(s: seq<string>, n: nat): (t: seq<string>)
    ensures |t| == if |s| <= n then |s| else n
    ensures t == s[|s| - |t|..]
  {
    if |s| <= n then s else s[|s| - n..]
  }

  /** `push` followed by one `shift` when the window outgrew its capacity. */
  function Slide(window: seq<string>, digits: string): (w: seq<string>)
    ensures |window| <= Capacity ==> w == LastN(window + [digits], Capacity)
  {
    var pushed := window + [digits];
    if |pushed| > Capacity then pushed[1..] else pushed
  }

  /** `window.every(v => v === window[0])`. */
  predicate AllSame(window: seq<string>) {
    forall i | 0 <= i < |window| :: window[i] == window[0]
  }

  /** The filter's invariant: a bounded window of non-empty readings, and a
      confirmed reading exactly when a confidence is recorded, which then
      passed the gate. */
  predicate Consistent(f: Filter) {
    && |f.window| <= Capacity
    && (forall i | 0 <= i < |f.window| :: f.window[i] != "")
    && (f.result == "" <==> f.conf.None?)
    && (f.conf.Some? ==> f.conf.value >= MinConfidence)
  }

  /** The filter after one normalised reading with rounded confidence `confNow`. */
  function Observe(f: Filter, digits: string, confNow: real): (g: Filter)
    ensures digits == "" ==> g == f
    ensures Consistent(f) ==> Consistent(g)
  {
    if digits == "" then f
    else
      var w := Slide(f.window, digits);
      SlideDrawsFrom(f.window, digits);
      SlideShape(f.window, digits);
      if AllSame(w) && confNow >= MinConfidence then Filter(w, digits, Some(confNow))
      else Filter(w, f.result, f.conf)
  }

  /** Every reading the filter holds after an observation was held before or
      is the observed one. */
  lemma ObserveDrawsFrom(f: Filter, digits: string, confNow: real)
    requires |f.window| <= Capacity
    ensures var g := Observe(f, digits, confNow);
      && (forall i | 0 <= i < |g.window| :: g.window[i] == digits || g.window[i] in f.window)
      && (g.result == digits || g.result == f.result)
  {
    if digits != "" {
      SlideDrawsFrom(f.window, digits);
    }
  }

  lemma SlideDrawsFrom(window: seq<string>, digits: string)
    ensures var w := Slide(window, digits);
      forall i | 0 <= i < |w| :: w[i] == digits || w[i] in window
  {
    var w := Slide(window, digits);
    var drop := |window| + 1 - |w|;
    SlideShape(window, digits);
    forall i | 0 <= i < |w|
      ensures w[i] == digits || w[i] in window
    {
      if i < |w| - 1 {
        assert w[i] == window[drop + i];
      }
    }
  }

  /** The window after a slide: the new reading last, preceded by the old
      window with at most its oldest entry dropped. */
  lemma SlideShape(window: seq<string>, digits: string)
    ensures var w := Slide(window, digits);
      var drop := |window| + 1 - |w|;
      && 1 <= |w| <= |window| + 1 && drop <= 1 && w[|w| - 1] == digits
      && (drop == 1 <==> |window| >= Capacity)
      && (forall i | 0 <= i < |w| - 1 :: w[i] == window[drop + i])
  {
    var pushed := window + [digits];
    var w := Slide(window, digits);
    if |pushed| > Capacity {
      assert w == pushed[1..] && |w| == |window|;
      forall i | 0 <= i < |w| - 1
        ensures w[i] == window[1 + i]
      {
        assert w[i] == pushed[1 + i];
      }
    } else {
      assert w == pushed && |w| == |window| + 1;
      forall i | 0 <= i < |w| - 1
        ensures w[i] == window[i]
      {
        assert w[i] == pushed[i];
      }
    }
  }

  /** The confirmation rule restated with `LastN`: a non-empty reading
      becomes the last three non-empty readings' newest entry, and is confirmed
      with its confidence exactly when every entry of the window equals it and
      the confidence passes the gate; otherwise the previous confirmation stays. */
  lemma ConfirmationRule(f: Filter, digits: string, confNow: real)
    requires |f.window| <= Capacity && digits != ""
    ensures var w := LastN(f.window + [digits], Capacity);
      Observe(f, digits, confNow) ==
        if (forall i | 0 <= i < |w| :: w[i] == digits) && confNow >= MinConfidence
        then Filter(w, digits, Some(confNow))
        else Filter(w, f.result, f.conf)
  {
    var w := LastN(f.window + [digits], Capacity);
    assert w[|w| - 1] == digits;
    assert AllSame(w) <==> forall i | 0 <= i < |w| :: w[i] == digits;
  }

  /** Since the window need not be full, agreement only looks back as far as
      the readings already there: a non-empty reading is confirmed (given the
      confidence) exactly when the up to two newest entries already in the
      window equal it. */
  lemma AgreementLooksBackTwo(window: seq<string>, digits: string)
    requires |window| <= Capacity
    ensures AllSame(Slide(window, digits)) <==>
      forall j | 0 <= j < |window| && j >= |window| - (Capacity - 1) :: window[j] == digits
  {
    var w := Slide(window, digits);
    SlideShape(window, digits);
    AgreementOfShape(window, digits, w, |window| + 1 - |w|);
  }

  lemma AgreementOfShape(window: seq<string>, digits: string, w: seq<string>, drop: nat)
    requires |window| <= Capacity && 1 <= |w| <= Capacity && |w| == |window| + 1 - drop
    requires drop <= 1 && (drop == 1 ==> |window| == Capacity)
    requires w[|w| - 1] == digits && forall i | 0 <= i < |w| - 1 :: w[i] == window[drop + i]
    ensures AllSame(w) <==>
      forall j | 0 <= j < |window| && j >= |window| - (Capacity - 1) :: window[j] == digits
  {
    if AllSame(w) {
      forall j | 0 <= j < |window| && j >= |window| - (Capacity - 1)
        ensures window[j] == digits
      {
        assert w[j - drop] == window[j] && w[j - drop] == w[0] && w[|w| - 1] == w[0];
      }
    } else {
      var i :| 0 <= i < |w| && w[i] != w[0];
      if w[0] == digits {
        assert w[i] == window[drop + i] && drop + i >= |window| - (Capacity - 1);
      } else {
        assert w[0] == window[drop] && drop >= |window| - (Capacity - 1);
      }
    }
  }

  /** The filter after a sequence of readings, oldest first. */
  function Feed(f: Filter, readings: seq<Read>): Filter
  {
    if readings == [] then f
    else
      var last := readings[|readings| - 1];
      Observe(Feed(f, readings[..|readings| - 1]), last.digits, last.confidence)
  }

  /** The non-empty readings of `readings`, in order. */
  function NonEmpty(readings: seq<Read>): seq<string>
  {
    if readings == [] then []
    else
      var last := readings[|readings| - 1];
      NonEmpty(readings[..|readings| - 1]) + (if last.digits == "" then [] else [last.digits])
  }

  lemma LastNOfLastN(s: seq<string>, d: string, n: nat)
    ensures LastN(LastN(s, n) + [d], n) == LastN(s + [d], n)
  {
    var t := LastN(s, n);
    if |s| > n {
      var x, y := t + [d], s + [d];
      var u, v := LastN(x, n), LastN(y, n);
      assert |u| == |v| == n;
      forall i | 0 <= i < n
        ensures u[i] == v[i]
      {
        var a, b := |x| - n + i, |y| - n + i;
        assert u[i] == x[a] && v[i] == y[b];
        if a < |t| {
          assert x[a] == t[a] == s[|s| - n + a] && b == |s| - n + a && y[b] == s[b];
        }
      }
    }
  }

  /** The window is always the last three non-empty readings, in order: empty
      readings never enter it, and older readings leave it one at a time. */
  lemma {:induction false} WindowIsRecentReadings(f: Filter, readings: seq<Read>)
    requires |f.window| <= Capacity
    ensures Feed(f, readings).window == LastN(f.window + NonEmpty(readings), Capacity)
    ensures |Feed(f, readings).window| <= Capacity
    decreases |readings|
  {
    if readings != [] {
      var prefix := readings[..|readings| - 1];
      var last := readings[|readings| - 1];
      WindowIsRecentReadings(f, prefix);
      if last.digits != "" {
        LastNOfLastN(f.window + NonEmpty(prefix), last.digits, Capacity);
        assert f.window + NonEmpty(readings) == f.window + NonEmpty(prefix) + [last.digits];
      } else {
        assert NonEmpty(readings) == NonEmpty(prefix);
      }
    }
  }

  /** A confirmed result is either the one the filter started with or one of
      the readings, fed with a confidence that passed the gate. */
  lemma {:induction false} ResultComesFromReads(f: Filter, readings: seq<Read>)
    ensures var g := Feed(f, readings);
      (g.result == f.result && g.conf == f.conf) ||
      exists i | 0 <= i < |readings| ::
        readings[i].digits == g.result && g.conf == Some(readings[i].confidence)
        && readings[i].confidence >= MinConfidence
    decreases |readings|
  {
    if readings != [] {
      var prefix := readings[..|readings| - 1];
      ResultComesFromReads(f, prefix);
      var g := Feed(f, readings);
      if g.result != Feed(f, prefix).result || g.conf != Feed(f, prefix).conf {
        assert readings[|readings| - 1].digits == g.result;
      } else if !(g.result == f.result && g.conf == f.conf) {
        var i :| 0 <= i < |prefix| && prefix[i].digits == Feed(f, prefix).result
          && Feed(f, prefix).conf == Some(prefix[i].confidence) && prefix[i].confidence >= MinConfidence;
        assert readings[i] == prefix[i];
      }
    }
  }

  /** The window after a slide ends with the new reading, preceded by the
      previous window's newest entry. */
  lemma SlideEnds(w: seq<string>, digits: string)
    requires |w| <= Capacity
    ensures var v := Slide(w, digits);
      1 <= |v| <= Capacity && v[|v| - 1] == digits
      && |v| >= |w| && (|w| >= 1 ==> |v| >= 2 && v[|v| - 2] == w[|w| - 1])
  {
  }

  lemma SlideAfterTwoAgreeing(w: seq<string>, digits: string)
    requires 2 <= |w| <= Capacity && w[|w| - 1] == digits && w[|w| - 2] == digits
    ensures Slide(w, digits) == [digits, digits, digits]
  {
    var pushed := w + [digits];
    if |w| == 2 {
      assert pushed == [w[0], w[1], digits];
    } else {
      assert pushed[1..] == [w[1], w[2], digits];
    }
  }

  /** Three consecutive identical non-empty readings whose confidence passes the
      gate always confirm that reading, whatever the filter held before. */
  lemma ThreeAgreeingReadsConfirm(f: Filter, digits: string, confNow: real)
    requires |f.window| <= Capacity && digits != "" && confNow >= MinConfidence
    ensures Observe(Observe(Observe(f, digits, confNow), digits, confNow), digits, confNow)
      == Filter([digits, digits, digits], digits, Some(confNow))
  {
    var f2 := Observe(Observe(f, digits, confNow), digits, confNow);
    TwoReadsEndWindow(f, digits, confNow);
    SlideAfterTwoAgreeing(f2.window, digits);
    ObserveConfirmsThree(f2, digits, confNow);
  }

  /** After two equal non-empty readings the window ends with two copies. */
  lemma TwoReadsEndWindow(f: Filter, digits: string, confNow: real)
    requires |f.window| <= Capacity && digits != ""
    ensures var w := Observe(Observe(f, digits, confNow), digits, confNow).window;
      2 <= |w| <= Capacity && w[|w| - 1] == digits && w[|w| - 2] == digits
  {
    var f1 := Observe(f, digits, confNow);
    assert f1.window == Slide(f.window, digits);
    SlideEnds(f.window, digits);
    var f2 := Observe(f1, digits, confNow);
    assert f2.window == Slide(f1.window, digits);
    SlideEnds(f1.window, digits);
  }

  /** A reading that fills the window with copies of itself is confirmed. */
  lemma ObserveConfirmsThree(f: Filter, digits: string, confNow: real)
    requires digits != "" && confNow >= MinConfidence
    requires Slide(f.window, digits) == [digits, digits, digits]
    ensures Observe(f, digits, confNow) == Filter([digits, digits, digits], digits, Some(confNow))
  {
    var w := Slide(f.window, digits);
    forall i | 0 <= i < |w|
      ensures w[i] == w[0]
    {
    }
  }

  /** The very first non-empty reading confirms on its own, with a window of one
      entry, provided its confidence passes the gate. */
  lemma FirstReadConfirms(digits: string, confNow: real)
    requires digits != "" && confNow >= MinConfidence
    ensures Observe(Initial, digits, confNow) == Filter([digits], digits, Some(confNow))
  {
  }

  /** A divergent third reading is not confirmed; the reading confirmed by the
      first two stays. */
  lemma DivergentReadKeepsResult()
    ensures Observe(Observe(Observe(Initial, "123", 90.0), "123", 90.0), "124", 90.0)
      == Filter(["123", "123", "124"], "123", Some(90.0))
  {
    var f2 := Observe(Observe(Initial, "123", 90.0), "123", 90.0);
    assert f2 == Filter(["123", "123"], "123", Some(90.0));
    var w := ["123", "123", "124"];
    assert Slide(f2.window, "124") == w;
    assert w[2] == "124" && w[0] == "123";
    assert "124"[2] != "123"[2];
    assert w[2] != w[0];
  }

  /** An empty reading between agreeing ones neither enters nor resets the
      window: after "123", "", "123", "123" the window is three "123"s. */
  lemma EmptyReadIsSkipped()
    ensures Observe(Observe(Observe(Observe(Initial, "123", 90.0), "", 90.0), "123", 90.0), "123", 90.0)
      == Filter(["123", "123", "123"], "123", Some(90.0))
  {
    var f2 := Observe(Observe(Initial, "123", 90.0), "", 90.0);
    assert f2 == Observe(Initial, "123", 90.0);
    ThreeAgreeingReadsConfirm(Initial, "123", 90.0);
  }

  /** The confidence gate: identical readings at confidence 40 never confirm,
      at 60 they do. */
  lemma ConfidenceGate()
    ensures Observe(Observe(Observe(Initial, "77", 40.0), "77", 40.0), "77", 40.0).result == ""
    ensures Observe(Observe(Observe(Initial, "77", 60.0), "77", 60.0), "77", 60.0).result == "77"
  {
    ThreeAgreeingReadsConfirm(Initial, "77", 60.0);
  }
}
