/**
  Evenly spaced reference windows over a clip
  (transcriptions/known_speaker.py), with the quotients taken exactly.
 */
module ReferenceWindows {
  import opened Rounding

  lemma RoundOfMultiple(k: int, q: int)
    requires q > 0
    ensures RoundQuotient(k * q, q) == k
  {
    RoundIsNearest(k * q, q);
    assert (k + 1) * q == k * q + q && (k - 1) * q == k * q - q;
    var r := RoundQuotient(k * q, q);
    if r > k {
      MultiplyBoth(k + 1, r, q);
    }
    if r < k {
      MultiplyBoth(r, k - 1, q);
    }
  }

  lemma MultiplyBoth(a: int, b: int, q: int)
    requires a <= b && q > 0
    ensures a * q <= b * q
  {
  }

  /** The start of window `i` out of `gaps + 1` windows, the last starting at `last`. */
  function WindowStart(i: int, last: int, gaps: int): int
    requires gaps > 0
  {
    RoundQuotient(i * last, gaps)
  }

  /** Rounded starts stay a whole window apart when the exact ones are. */
  lemma StartsAreAWindowApart(i: nat, last: int, gaps: int, window: int)
    requires gaps > 0 && window >= 1 && last >= window * gaps
    ensures WindowStart(i + 1, last, gaps) >= WindowStart(i, last, gaps) + window
  {
    hide RoundQuotient;
    if last == window * gaps {
      ExactStart(i, last, gaps, window);
      ExactStart(i + 1, last, gaps, window);
      assert (i + 1) * window == i * window + window;
    } else {
      RoundIsNearest(i * last, gaps);
      RoundIsNearest((i + 1) * last, gaps);
      assert (i + 1) * last == i * last + last;
      GapSurvivesRounding(i * last, last, WindowStart(i, last, gaps), WindowStart(i + 1, last, gaps), gaps, window);
    }
  }

  lemma ExactStart(i: nat, last: int, gaps: int, window: int)
    requires gaps > 0 && last == window * gaps
    ensures WindowStart(i, last, gaps) == i * window
  {
    hide RoundQuotient;
    Regroup(i, window, gaps);
    RoundOfMultiple(i * window, gaps);
  }

  lemma Regroup(a: int, b: int, c: int)
    ensures a * (b * c) == (a * b) * c
  {
  }

  lemma GapSurvivesRounding(x: int, step: int, a: int, b: int, q: int, window: int)
    requires q > 0 && step > window * q
    requires 2 * (a * q) <= 2 * x + q && 2 * (x + step) - q <= 2 * (b * q)
    ensures b >= a + window
  {
    assert (a + window - 1) * q == a * q + window * q - q;
    if b <= a + window - 1 {
      MultiplyBoth(b, a + window - 1, q);
    }
  }

  lemma StartsEnclose(last: int, gaps: int)
    requires gaps > 0
    ensures WindowStart(0, last, gaps) == 0 && WindowStart(gaps, last, gaps) == last
  {
    assert 0 * last == 0 * gaps && gaps * last == last * gaps;
    RoundOfMultiple(0, gaps);
    RoundOfMultiple(last, gaps);
  }

  /** Windows of one length in order and without overlap, from 0 to `samples`. */
  ghost predicate SpansClip(bounds: seq<(int, int)>, samples: int, window: int) {
    && bounds != [] && bounds[0].0 == 0 && bounds[|bounds| - 1].1 == samples
    && (forall i | 0 <= i < |bounds| :: bounds[i].1 == bounds[i].0 + window)
    && (forall i, j | 0 <= i < j < |bounds| :: bounds[i].1 <= bounds[j].0)
  }

  function Max(a: int, b: int): int { if a < b then b else a }

  function Min(a: int, b: int): int { if a < b then a else b }

  lemma CountFits(samples: int, window: int, count: int)
    requires window >= 1 && 2 <= count <= samples / window
    ensures samples - window >= window * (count - 1)
  {
    assert samples == window * (samples / window) + samples % window;
    assert window * count <= window * (samples / window);
    assert window * (count - 1) == window * count - window;
  }

  ghost predicate Seen(bounds: seq<(int, int)>, seen: set<int>) {
    forall start | start in seen :: exists bound :: bound in bounds && bound.0 == start
  }

  /** A start a window past the last one cannot be a duplicate. */
  lemma NotSeenBefore(bounds: seq<(int, int)>, seen: set<int>, start: int, window: int)
    requires Seen(bounds, seen) && window >= 1
    requires forall i | 0 <= i < |bounds| :: bounds[i].1 == bounds[i].0 + window && bounds[i].1 <= start
    ensures start !in seen
    ensures Seen(bounds + [(start, start + window)], seen + {start})
  {
    assert (start, start + window) in bounds + [(start, start + window)];
  }

  method SelectReferenceWindowBounds(samples: int, windowLength: int, maxWindows: int)
    returns (bounds: seq<(int, int)>)
    ensures var window := Max(windowLength, 1);
            var count := Min(maxWindows, samples / window);
            && (samples <= 0 ==> bounds == [])
            && (0 < samples <= window ==> bounds == [(0, samples)])
            && (samples > window && count <= 1 ==> bounds == [(0, window)])
            && (samples > window && count >= 2 ==> |bounds| == count && SpansClip(bounds, samples, window))
  {
    if samples <= 0 {
      return [];
    }
    var window := Max(windowLength, 1);
    if samples <= window {
      return [(0, samples)];
    }
    var count := Min(maxWindows, samples / window);
    if count <= 1 {
      return [(0, window)];
    }
    var last := samples - window;
    var gaps := count - 1;
    CountFits(samples, window, count);
    StartsEnclose(last, gaps);
    hide WindowStart, RoundQuotient;
    bounds := [];
    var seen: set<int> := {};
    for index := 0 to count
      invariant |bounds| == index
      invariant forall i | 0 <= i < index ::
          bounds[i] == (WindowStart(i, last, gaps), WindowStart(i, last, gaps) + window)
      invariant forall i, j | 0 <= i < j < index :: bounds[i].1 <= bounds[j].0
      invariant Seen(bounds, seen)
    {
      var start := WindowStart(index, last, gaps);
      if index > 0 {
        StartsAreAWindowApart(index - 1, last, gaps, window);
      }
      StartStaysInClip(index, last, gaps, window);
      start := Max(0, Min(start, last));
      NotSeenBefore(bounds, seen, start, window);
      if start in seen {
        continue;
      }
      seen := seen + {start};
      bounds := bounds + [(start, start + window)];
    }
  }

  /** Clamping a start to the clip never changes it. */
  lemma {:induction false} StartStaysInClip(index: nat, last: int, gaps: int, window: int)
    requires gaps > 0 && window >= 1 && last >= window * gaps && index <= gaps
    ensures 0 <= WindowStart(index, last, gaps) <= last
    decreases gaps - index
  {
    StartsEnclose(last, gaps);
    if index < gaps {
      StartsAreAWindowApart(index, last, gaps, window);
      StartStaysInClip(index + 1, last, gaps, window);
    }
    StartIsNotNegative(index, last, gaps, window);
  }

  lemma {:induction false} StartIsNotNegative(index: nat, last: int, gaps: int, window: int)
    requires gaps > 0 && window >= 1 && last >= window * gaps
    ensures 0 <= WindowStart(index, last, gaps)
  {
    StartsEnclose(last, gaps);
    if index > 0 {
      StartIsNotNegative(index - 1, last, gaps, window);
      StartsAreAWindowApart(index - 1, last, gaps, window);
    }
  }
}
