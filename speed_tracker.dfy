/**
 * The sliding-window throughput estimator of the vanity search (`SpeedTracker`).
 *
 * Instants are integer nanoseconds on a monotonic clock and durations are
 * natural numbers of nanoseconds; the estimated rate is an exact `real`
 * (keys per second) where the program computes an `f64`.
 */
module SpeedTracking {

  const NanosPerSecond: nat := 1_000_000_000

  /** The coordinator keeps the last five seconds of samples. */
  const DefaultWindow: nat := 5 * NanosPerSecond

  /** One entry of the queue: when a batch was received and how many keys it covered. */
  datatype Sample = Sample(time: int, count: nat)

  /**
   * How many entries eviction removes from the front of `q`: it stops at the
   * first entry that is not older than `cutoff`.
   */
  function StaleCount(q: seq<Sample>, cutoff: int): (k: nat)
    ensures k <= |q|
    // everything evicted is older than the cutoff
    ensures forall i :: 0 <= i < k ==> q[i].time < cutoff
    // eviction stops at an entry that is not older than the cutoff, or at the end
    ensures k == |q| || q[k].time >= cutoff
  {
    if q != [] && q[0].time < cutoff then 1 + StaleCount(q[1..], cutoff) else 0
  }

  /** The queue after evicting its stale front: a suffix of the queue, in the same order. */
  function DropStale(q: seq<Sample>, cutoff: int): seq<Sample>
  {
    q[StaleCount(q, cutoff)..]
  }

  /**
   * What eviction leaves: a suffix of the queue, where every entry dropped is
   * older than the cutoff and the first entry kept is not.
   */
  lemma DropStaleMeaning(q: seq<Sample>, cutoff: int)
    ensures var r := DropStale(q, cutoff);
            |r| <= |q| && r == q[|q| - |r|..]
            && (forall i :: 0 <= i < |q| - |r| ==> q[i].time < cutoff)
            && (r == [] || r[0].time >= cutoff)
  {
  }

  /** Sum of the counts of the samples. */
  function Total(q: seq<Sample>): (r: nat)
  {
    if q == [] then 0 else Total(q[..|q| - 1]) + q[|q| - 1].count
  }

  /** The sum is at least every count in it, and it is 0 exactly when every count is 0. */
  lemma {:induction false} TotalBounds(q: seq<Sample>)
    ensures forall i :: 0 <= i < |q| ==> q[i].count <= Total(q)
    ensures Total(q) == 0 <==> forall i :: 0 <= i < |q| ==> q[i].count == 0
  {
    if q != [] {
      var n := |q| - 1;
      TotalBounds(q[..n]);
      assert forall i :: 0 <= i < n ==> q[..n][i] == q[i];
    }
  }

  /** The samples are in order of their timestamps. */
  ghost predicate NonDecreasing(q: seq<Sample>)
  {
    forall i, j :: 0 <= i < j < |q| ==> q[i].time <= q[j].time
  }

  /** Every sample lies in the closed interval [lo, hi]. */
  ghost predicate Within(q: seq<Sample>, lo: int, hi: int)
  {
    forall i :: 0 <= i < |q| ==> lo <= q[i].time <= hi
  }

  /** The queue is in order and lies within the window of length `window` that ends at `latest`. */
  ghost predicate Windowed(q: seq<Sample>, latest: int, window: nat)
  {
    NonDecreasing(q) && Within(q, latest - window, latest)
  }

  /** `SpeedTracker`: a queue of recent samples and the length of the window it covers. */
  class SpeedTracker {
    var recentIterations: seq<Sample>
    const windowDuration: nat

    /** `SpeedTracker::new`: an empty queue. */
    constructor (windowDuration: nat)
      ensures recentIterations == [] && this.windowDuration == windowDuration
    {
      recentIterations := [];
      this.windowDuration := windowDuration;
    }

    /**
     * `add_iterations`: append the sample at the back of the queue, then pop
     * stale entries from the front until the front is inside the window.
     */
    method AddIterations(time: int, count: nat)
      modifies this
      ensures recentIterations == DropStale(old(recentIterations) + [Sample(time, count)], time - windowDuration)
      // the new sample is at the back and survives eviction
      ensures recentIterations != [] && recentIterations[|recentIterations| - 1] == Sample(time, count)
    {
      ghost var pushed := recentIterations + [Sample(time, count)];
      recentIterations := recentIterations + [Sample(time, count)];
      var cutoff := time - windowDuration;
      ghost var evicted := 0;
      while recentIterations != []
        invariant evicted <= |pushed| && recentIterations == pushed[evicted..]
        invariant forall i :: 0 <= i < evicted ==> pushed[i].time < cutoff
        decreases |recentIterations|
      {
        if recentIterations[0].time >= cutoff {
          break;
        }
        recentIterations := recentIterations[1..];
        evicted := evicted + 1;
      }
      StaleCountUnique(pushed, cutoff, evicted);
      NewSampleSurvives(old(recentIterations), Sample(time, count), windowDuration);
    }

    /**
     * `calculate_speed`: keys per second over the queue, or 0 when the queue
     * is empty or its newest sample is not later than its oldest.
     */
    function CalculateSpeed(): (rate: real)
      reads this
      ensures rate >= 0.0
      ensures recentIterations == [] ==> rate == 0.0
      ensures recentIterations != [] && recentIterations[|recentIterations| - 1].time <= recentIterations[0].time
              ==> rate == 0.0
      ensures recentIterations != [] && recentIterations[|recentIterations| - 1].time > recentIterations[0].time
              ==> rate * (recentIterations[|recentIterations| - 1].time - recentIterations[0].time) as real
                  == (Total(recentIterations) * NanosPerSecond) as real
    {
      if recentIterations == [] then 0.0
      else
        // `Instant - Instant` saturates at zero, so an out-of-order queue gives a zero span
        var span := recentIterations[|recentIterations| - 1].time - recentIterations[0].time;
        if span > 0 then (Total(recentIterations) * NanosPerSecond) as real / span as real else 0.0
    }
  }

  /**
   * Eviction is determined by where it stops: if the first `k` entries are
   * older than the cutoff and entry `k` (if any) is not, exactly those `k` go.
   */
  lemma StaleCountUnique(q: seq<Sample>, cutoff: int, k: nat)
    requires k <= |q|
    requires forall i :: 0 <= i < k ==> q[i].time < cutoff
    requires k == |q| || q[k].time >= cutoff
    ensures StaleCount(q, cutoff) == k
  {
  }

  /** The sample just pushed is never evicted: it ends the queue that is left. */
  lemma NewSampleSurvives(q: seq<Sample>, s: Sample, window: nat)
    ensures var r := DropStale(q + [s], s.time - window);
            r != [] && r[|r| - 1] == s
  {
    var p := q + [s];
    assert p[|q|] == s;
  }

  /**
   * The window invariant: when the queue is in timestamp order and nothing in
   * it is later than the new sample, the queue after `add_iterations` is
   * still in order and lies within the window that ends at the new sample.
   */
  lemma WindowInvariant(q: seq<Sample>, s: Sample, window: nat)
    requires NonDecreasing(q)
    requires forall i :: 0 <= i < |q| ==> q[i].time <= s.time
    ensures Windowed(DropStale(q + [s], s.time - window), s.time, window)
  {
    var p := q + [s];
    var k := StaleCount(p, s.time - window);
    var r := p[k..];
    AppendNonDecreasing(q, s);
    SuffixNonDecreasing(p, k);
    forall i | 0 <= i < |r|
      ensures s.time - window <= r[i].time <= s.time
    {
      assert r[i] == p[k + i] && r[0] == p[k] && p[|p| - 1] == s;
    }
  }

  lemma AppendNonDecreasing(q: seq<Sample>, s: Sample)
    requires NonDecreasing(q)
    requires forall i :: 0 <= i < |q| ==> q[i].time <= s.time
    ensures NonDecreasing(q + [s])
  {
    var p := q + [s];
    forall i, j | 0 <= i < j < |p|
      ensures p[i].time <= p[j].time
    {
      if j < |q| {
        assert p[i] == q[i] && p[j] == q[j];
      } else {
        assert p[i] == q[i] && p[j] == s;
      }
    }
  }

  lemma SuffixNonDecreasing(q: seq<Sample>, k: nat)
    requires NonDecreasing(q) && k <= |q|
    ensures NonDecreasing(q[k..])
  {
    forall i, j | 0 <= i < j < |q| - k
      ensures q[k..][i].time <= q[k..][j].time
    {
      assert q[k..][i] == q[k + i] && q[k..][j] == q[k + j];
    }
  }

  /** The queue left by feeding the samples one by one to `add_iterations`, starting from an empty queue. */
  function Replay(samples: seq<Sample>, window: nat): seq<Sample>
  {
    if samples == [] then []
    else
      var s := samples[|samples| - 1];
      DropStale(Replay(samples[..|samples| - 1], window) + [s], s.time - window)
  }

  lemma ReplayStep(samples: seq<Sample>, s: Sample, window: nat)
    ensures Replay(samples + [s], window) == DropStale(Replay(samples, window) + [s], s.time - window)
  {
    var t := samples + [s];
    assert t[..|t| - 1] == samples;
    assert t[|t| - 1] == s;
  }

  /** After any non-empty sequence of insertions the queue ends with the last sample inserted. */
  lemma ReplayEndsWithLast(samples: seq<Sample>, window: nat)
    requires samples != []
    ensures var q := Replay(samples, window);
            q != [] && q[|q| - 1] == samples[|samples| - 1]
  {
    var n := |samples| - 1;
    NewSampleSurvives(Replay(samples[..n], window), samples[n], window);
  }

  /**
   * After any sequence of insertions the queue is a suffix of everything
   * inserted, in insertion order.
   */
  lemma {:induction false} ReplayIsSuffix(samples: seq<Sample>, window: nat)
    ensures var q := Replay(samples, window);
            |q| <= |samples| && q == samples[|samples| - |q|..]
  {
    if samples != [] {
      var n := |samples| - 1;
      var s := samples[n];
      ReplayIsSuffix(samples[..n], window);
      var prev := Replay(samples[..n], window);
      var j := n - |prev|;
      SuffixExtends(samples, j);
      var pushed := samples[j..];
      assert prev + [s] == pushed;
      var k := StaleCount(pushed, s.time - window);
      assert Replay(samples, window) == pushed[k..];
      SliceOfSlice(samples, j, k);
      assert |samples| - |Replay(samples, window)| == j + k;
    }
  }

  /** A suffix of all but the last sample, extended by the last sample, is a suffix of all of them. */
  lemma SuffixExtends(samples: seq<Sample>, j: nat)
    requires j < |samples|
    ensures samples[..|samples| - 1][j..] + [samples[|samples| - 1]] == samples[j..]
  {
  }

  lemma SliceOfSlice(q: seq<Sample>, j: nat, k: nat)
    requires j + k <= |q|
    ensures q[j..][k..] == q[j + k..]
  {
  }

  /**
   * The window invariant over a whole run: when the samples are inserted in
   * timestamp order, the queue is in order and covers at most one window
   * ending at the last sample inserted.
   */
  lemma {:induction false} ReplayWindowed(samples: seq<Sample>, window: nat)
    requires NonDecreasing(samples) && samples != []
    ensures Windowed(Replay(samples, window), samples[|samples| - 1].time, window)
  {
    var n := |samples| - 1;
    var s := samples[n];
    var prev := Replay(samples[..n], window);
    if n > 0 {
      assert NonDecreasing(samples[..n]);
      ReplayWindowed(samples[..n], window);
      assert samples[..n][n - 1].time <= s.time;
    }
    WindowInvariant(prev, s, window);
  }

  /** A steady 100 keys per second, then a gap of eight seconds. */
  method SpeedTrackerScenario()
  {
    var tracker := new SpeedTracker(DefaultWindow);
    var a, b, c := Sample(0, 100), Sample(NanosPerSecond, 100), Sample(2 * NanosPerSecond, 100);
    tracker.AddIterations(0, 100);
    assert tracker.recentIterations == [a];
    tracker.AddIterations(NanosPerSecond, 100);
    assert [a] + [b] == [a, b];
    assert tracker.recentIterations == [a, b];
    tracker.AddIterations(2 * NanosPerSecond, 100);
    assert [a, b] + [c] == [a, b, c];
    assert tracker.recentIterations == [a, b, c];
    assert [a][..0] == [] && Total([a]) == 100;
    assert [a, b][..1] == [a] && Total([a, b]) == 200;
    assert [a, b, c][..2] == [a, b] && Total([a, b, c]) == 300;
    assert tracker.CalculateSpeed() == 150.0;
    tracker.AddIterations(10 * NanosPerSecond, 100);
    assert tracker.recentIterations == [Sample(10 * NanosPerSecond, 100)];
    assert tracker.CalculateSpeed() == 0.0;
  }
}
