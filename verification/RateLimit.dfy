// The sliding-window rate limiter. Time is an integer count of nanoseconds and
// every call is given the clock reading it would have taken.
module RateLimit {

  datatype Limits = Limits(maxRequests: int, window: int, minInterval: int)

  ghost predicate Nondecreasing(ts: seq<int>) {
    forall i, j :: 0 <= i < j < |ts| ==> ts[i] <= ts[j]
  }

  /** Consecutive times lie at least `gap` apart. */
  ghost predicate Spaced(ts: seq<int>, gap: int) {
    forall i :: 0 < i < |ts| ==> ts[i] - ts[i - 1] >= gap
  }

  /** How many of the times lie in the closed interval from `lo` to `hi`. */
  ghost function CountIn(ts: seq<int>, lo: int, hi: int): nat {
    if |ts| == 0 then 0
    else CountIn(ts[..|ts| - 1], lo, hi) + if lo <= ts[|ts| - 1] <= hi then 1 else 0
  }

  /** The rule on the complete admission history: nothing is ever forgotten. */
  ghost predicate Admits(lim: Limits, history: seq<int>, now: int) {
    var recent := CountIn(history, now - lim.window, now);
    && recent < lim.maxRequests
    && (recent > 0 ==> |history| > 0 && now - history[|history| - 1] >= lim.minInterval)
  }

  /** The times admitted when every arrival is decided by `Admits`, in order. */
  ghost function Greedy(lim: Limits, arrivals: seq<int>): seq<int> {
    if |arrivals| == 0 then []
    else
      var history := Greedy(lim, arrivals[..|arrivals| - 1]);
      var now := arrivals[|arrivals| - 1];
      if Admits(lim, history, now) then history + [now] else history
  }

  /** `requests` is what is left of the admission history after `dropped` entries,
      all of them older than one window, have been pruned from its front. */
  ghost predicate Pruned(history: seq<int>, dropped: nat, requests: seq<int>, cutoff: int) {
    && dropped <= |history|
    && requests == history[dropped..]
    && forall k :: 0 <= k < dropped ==> history[k] < cutoff
  }

  ghost predicate Consistent(lim: Limits, arrivals: seq<int>, history: seq<int>, dropped: nat, requests: seq<int>) {
    && Nondecreasing(arrivals)
    && history == Greedy(lim, arrivals)
    && if |arrivals| == 0 then requests == [] && dropped == 0
       else Pruned(history, dropped, requests, arrivals[|arrivals| - 1] - lim.window)
  }

  class RateLimiter {
    var requests: seq<int>
    const limits: Limits

    // Everything that ever arrived, everything that was ever admitted, and how
    // many of the admitted times have been pruned from `requests`.
    ghost var arrivals: seq<int>
    ghost var history: seq<int>
    ghost var dropped: nat

    ghost predicate Valid()
      reads this
    {
      Consistent(limits, arrivals, history, dropped, requests)
    }

    /** The clock has not run backwards since the last call. */
    ghost predicate InOrder(now: int)
      reads this
    {
      |arrivals| > 0 ==> arrivals[|arrivals| - 1] <= now
    }

    constructor (maxRequests: int, window: int, minInterval: int)
      ensures Valid() && limits == Limits(maxRequests, window, minInterval)
      ensures arrivals == [] && history == []
    {
      limits := Limits(maxRequests, window, minInterval);
      requests, arrivals, history, dropped := [], [], [], 0;
    }

    /** Decides on the pruned list exactly what the full history would decide. */
    method Allow(now: int) returns (allowed: bool)
      requires Valid() && InOrder(now)
      modifies this
      ensures Valid()
      ensures allowed == Admits(limits, old(history), now)
      ensures history == old(history) + (if allowed then [now] else [])
      ensures arrivals == old(arrivals) + [now]
    {
      hide Consistent, Pending, Admits;
      var cutoff := now - limits.window;
      var i := 0;
      while i < |requests| && requests[i] < cutoff
        invariant i <= |requests|
        invariant forall k :: 0 <= k < i ==> requests[k] < cutoff
        modifies {}
      {
        i := i + 1;
      }
      PruneKeeps(limits, arrivals, history, dropped, requests, i, now);
      requests := requests[i..];
      dropped := dropped + i;
      OneCall(limits, arrivals, history, dropped, requests, now);
      arrivals := arrivals + [now];

      if |requests| >= limits.maxRequests {
        return false;
      }
      if |requests| > 0 {
        var last := requests[|requests| - 1];
        if now - last < limits.minInterval {
          return false;
        }
      }
      requests := requests + [now];
      history := history + [now];
      return true;
    }
  }

  /** Between the pruning loop and the checks. */
  ghost predicate Pending(lim: Limits, arrivals: seq<int>, history: seq<int>, dropped: nat, kept: seq<int>, now: int) {
    && Nondecreasing(arrivals) && (|arrivals| > 0 ==> arrivals[|arrivals| - 1] <= now)
    && history == Greedy(lim, arrivals)
    && Pruned(history, dropped, kept, now - lim.window)
    && (|kept| > 0 ==> kept[0] >= now - lim.window)
  }

  lemma PruneKeeps(lim: Limits, arrivals: seq<int>, history: seq<int>, dropped: nat, requests: seq<int>,
                   i: nat, now: int)
    requires Consistent(lim, arrivals, history, dropped, requests)
    requires |arrivals| > 0 ==> arrivals[|arrivals| - 1] <= now
    requires i <= |requests| && forall k :: 0 <= k < i ==> requests[k] < now - lim.window
    requires i < |requests| ==> requests[i] >= now - lim.window
    ensures Pending(lim, arrivals, history, dropped + i, requests[i..], now)
  {
    forall k | 0 <= k < dropped + i ensures history[k] < now - lim.window {
      if k >= dropped {
        assert requests[k - dropped] == history[k];
      }
    }
  }

  /** The checks on what is left decide as the whole history would, and the new
      state is consistent. */
  lemma OneCall(lim: Limits, arrivals: seq<int>, history: seq<int>, dropped: nat, kept: seq<int>, now: int)
    requires Pending(lim, arrivals, history, dropped, kept, now)
    ensures Admits(lim, history, now) <==> AdmitsPruned(lim, kept, now)
    ensures !Admits(lim, history, now) ==>
      Consistent(lim, arrivals + [now], history, dropped, kept)
    ensures Admits(lim, history, now) ==>
      Consistent(lim, arrivals + [now], history + [now], dropped, kept + [now])
  {
    GreedyShape(lim, arrivals);
    hide Admits, CountIn;
    PrunedDecidesAlike(lim, history, dropped, kept, now);
    DecisionKeeps(lim, arrivals, history, dropped, kept, now);
  }

  /** The two checks of `Allow` on the pruned list. */
  predicate AdmitsPruned(lim: Limits, kept: seq<int>, now: int) {
    && |kept| < lim.maxRequests
    && (|kept| > 0 ==> now - kept[|kept| - 1] >= lim.minInterval)
  }

  /** Pruning loses nothing: on the pruned list the checks are the rule on the
      whole history. */
  lemma PrunedDecidesAlike(lim: Limits, history: seq<int>, dropped: nat, kept: seq<int>, now: int)
    requires Nondecreasing(history) && (|history| > 0 ==> history[|history| - 1] <= now)
    requires Pruned(history, dropped, kept, now - lim.window)
    requires |kept| > 0 ==> kept[0] >= now - lim.window
    ensures Admits(lim, history, now) <==> AdmitsPruned(lim, kept, now)
  {
    forall k | dropped <= k < |history| ensures now - lim.window <= history[k] <= now {
      assert kept[0] == history[dropped];
    }
    CountSuffix(history, dropped, now - lim.window, now);
    assert |kept| > 0 ==> kept[|kept| - 1] == history[|history| - 1];
  }

  lemma GreedyStep(lim: Limits, arrivals: seq<int>, now: int)
    ensures Greedy(lim, arrivals + [now])
            == Greedy(lim, arrivals) + if Admits(lim, Greedy(lim, arrivals), now) then [now] else []
  {
    assert (arrivals + [now])[..|arrivals|] == arrivals;
  }

  /** The state that `Allow` leaves behind is consistent again. */
  lemma DecisionKeeps(lim: Limits, arrivals: seq<int>, history: seq<int>, dropped: nat, kept: seq<int>, now: int)
    requires Nondecreasing(arrivals) && history == Greedy(lim, arrivals)
    requires |arrivals| > 0 ==> arrivals[|arrivals| - 1] <= now
    requires Pruned(history, dropped, kept, now - lim.window)
    ensures !Admits(lim, history, now) ==>
      Consistent(lim, arrivals + [now], history, dropped, kept)
    ensures Admits(lim, history, now) ==>
      Consistent(lim, arrivals + [now], history + [now], dropped, kept + [now])
  {
    hide Admits, CountIn;
    GreedyStep(lim, arrivals, now);
    assert (history + [now])[dropped..] == kept + [now];
  }

  // ---------------------------------------------------------------- counting

  lemma CountAppend(ts: seq<int>, t: int, lo: int, hi: int)
    ensures CountIn(ts + [t], lo, hi) == CountIn(ts, lo, hi) + if lo <= t <= hi then 1 else 0
  {
    assert (ts + [t])[..|ts|] == ts;
  }

  /** On a list whose first `d` times are too old, the window holds the rest. */
  lemma {:induction false} CountSuffix(ts: seq<int>, d: nat, lo: int, hi: int)
    requires d <= |ts|
    requires forall k :: 0 <= k < d ==> ts[k] < lo
    requires forall k :: d <= k < |ts| ==> lo <= ts[k] <= hi
    ensures CountIn(ts, lo, hi) == |ts| - d
  {
    if |ts| > 0 {
      CountSuffix(ts[..|ts| - 1], if d == |ts| then d - 1 else d, lo, hi);
    }
  }

  lemma {:induction false} CountAtLeast(ts: seq<int>, d: nat, lo: int, hi: int)
    requires d <= |ts|
    requires forall k :: d <= k < |ts| ==> lo <= ts[k] <= hi
    ensures CountIn(ts, lo, hi) >= |ts| - d
  {
    if |ts| > d {
      CountAtLeast(ts[..|ts| - 1], d, lo, hi);
    }
  }

  lemma {:induction false} CountAtMost(ts: seq<int>, d: nat, lo: int, hi: int)
    requires d <= |ts|
    requires forall k :: 0 <= k < d ==> ts[k] < lo
    ensures CountIn(ts, lo, hi) <= |ts| - d
  {
    if |ts| > 0 {
      CountAtMost(ts[..|ts| - 1], if d == |ts| then d - 1 else d, lo, hi);
    }
  }

  /** Shrinking the interval from below, with every time already below both tops. */
  lemma {:induction false} CountShrinks(ts: seq<int>, lo: int, hi: int, lo': int, hi': int)
    requires lo' <= lo
    requires forall k :: 0 <= k < |ts| ==> ts[k] <= hi'
    ensures CountIn(ts, lo, hi) <= CountIn(ts, lo', hi')
  {
    if |ts| > 0 {
      CountShrinks(ts[..|ts| - 1], lo, hi, lo', hi');
    }
  }

  // ------------------------------------------------------------- rate safety

  lemma {:induction false} GreedyShape(lim: Limits, arrivals: seq<int>)
    requires Nondecreasing(arrivals)
    ensures Nondecreasing(Greedy(lim, arrivals))
    ensures forall k :: 0 <= k < |Greedy(lim, arrivals)| ==>
      |arrivals| > 0 && Greedy(lim, arrivals)[k] <= arrivals[|arrivals| - 1]
  {
    if |arrivals| > 0 {
      GreedyShape(lim, arrivals[..|arrivals| - 1]);
    }
  }

  /** Every closed interval of one window holds at most `maxRequests` admissions. */
  lemma {:induction false} WindowSafety(lim: Limits, arrivals: seq<int>, lo: int)
    requires Nondecreasing(arrivals)
    ensures CountIn(Greedy(lim, arrivals), lo, lo + lim.window)
            <= if lim.maxRequests > 0 then lim.maxRequests else 0
  {
    if |arrivals| > 0 {
      var before, now := arrivals[..|arrivals| - 1], arrivals[|arrivals| - 1];
      var history := Greedy(lim, before);
      WindowSafety(lim, before, lo);
      GreedyShape(lim, before);
      hide CountIn;
      if Admits(lim, history, now) {
        CountAppend(history, now, lo, lo + lim.window);
        if lo <= now <= lo + lim.window {
          CountShrinks(history, lo, lo + lim.window, now - lim.window, now);
        }
      }
    }
  }

  lemma {:induction false} GreedySpaced(lim: Limits, arrivals: seq<int>)
    requires Nondecreasing(arrivals)
    requires lim.maxRequests <= 0 || lim.minInterval <= 0 || lim.minInterval <= lim.window + 1
    ensures Spaced(Greedy(lim, arrivals), lim.minInterval)
  {
    if |arrivals| > 0 {
      var before, now := arrivals[..|arrivals| - 1], arrivals[|arrivals| - 1];
      var history := Greedy(lim, before);
      GreedySpaced(lim, before);
      GreedyShape(lim, before);
      if Admits(lim, history, now) && |history| > 0 {
        if now - lim.window <= history[|history| - 1] {
          CountAtLeast(history, |history| - 1, now - lim.window, now);
        }
      }
    }
  }

  ghost predicate AlwaysSpaced(lim: Limits) {
    forall arrivals :: Nondecreasing(arrivals) ==> Spaced(Greedy(lim, arrivals), lim.minInterval)
  }

  /** The minimum interval is honoured on every run exactly under this condition:
      pruning forgets the last admission once it is more than a window old. */
  lemma IntervalExactly(lim: Limits)
    ensures AlwaysSpaced(lim)
            <==> lim.maxRequests <= 0 || lim.minInterval <= 0 || lim.minInterval <= lim.window + 1
  {
    if lim.maxRequests <= 0 || lim.minInterval <= 0 || lim.minInterval <= lim.window + 1 {
      forall arrivals | Nondecreasing(arrivals)
        ensures Spaced(Greedy(lim, arrivals), lim.minInterval)
      {
        GreedySpaced(lim, arrivals);
      }
    } else {
      var late := if lim.window + 1 >= 0 then lim.window + 1 else 0;
      TooEarlyYetAdmitted(lim, late);
      assert !Spaced(Greedy(lim, [0, late]), lim.minInterval) by {
        assert [0, late][1] - [0, late][0] < lim.minInterval;
      }
    }
  }

  /** The failing run: a second request just after the first one has been pruned. */
  lemma TooEarlyYetAdmitted(lim: Limits, late: int)
    requires lim.maxRequests > 0
    requires late > lim.window && late >= 0
    ensures Greedy(lim, [0, late]) == [0, late]
  {
    CountAtMost([0], 1, late - lim.window, late);
    GreedyStep(lim, [], 0);
    GreedyStep(lim, [0], late);
    hide Greedy, CountIn;
    assert [] + [0] == [0] && [0] + [late] == [0, late];
  }

  // ------------------------------------------------------- greedy optimality

  /** The arrivals an arbitrary admission policy picked. */
  ghost function Selected(arrivals: seq<int>, picks: seq<bool>): seq<int>
    requires |picks| == |arrivals|
  {
    if |arrivals| == 0 then []
    else
      var n := |arrivals| - 1;
      Selected(arrivals[..n], picks[..n]) + if picks[n] then [arrivals[n]] else []
  }

  /** What both limits demand of a list of admission times. */
  ghost predicate Legal(lim: Limits, ts: seq<int>) {
    && (forall lo, hi :: hi == lo + lim.window ==> CountIn(ts, lo, hi) <= lim.maxRequests)
    && Spaced(ts, lim.minInterval)
  }

  lemma {:induction false} SelectedShape(arrivals: seq<int>, picks: seq<bool>)
    requires |picks| == |arrivals| && Nondecreasing(arrivals)
    ensures Nondecreasing(Selected(arrivals, picks))
    ensures forall k :: 0 <= k < |Selected(arrivals, picks)| ==>
      |arrivals| > 0 && Selected(arrivals, picks)[k] <= arrivals[|arrivals| - 1]
  {
    if |arrivals| > 0 {
      SelectedShape(arrivals[..|arrivals| - 1], picks[..|arrivals| - 1]);
    }
  }

  lemma LegalDropLast(lim: Limits, ts: seq<int>, now: int)
    requires Legal(lim, ts + [now])
    ensures Legal(lim, ts)
  {
    assert (ts + [now])[..|ts|] == ts;
    forall lo, hi | hi == lo + lim.window ensures CountIn(ts, lo, hi) <= lim.maxRequests {
      assert CountIn(ts + [now], lo, hi) <= lim.maxRequests;
    }
    forall i | 0 < i < |ts| ensures ts[i] - ts[i - 1] >= lim.minInterval {
      assert (ts + [now])[i] - (ts + [now])[i - 1] >= lim.minInterval;
    }
  }

  /** If any policy may admit `now` after `ts`, the rule admits it after a list
      of the same length that is pointwise no later. */
  lemma AdmitsWhenAhead(lim: Limits, ts: seq<int>, history: seq<int>, now: int)
    requires lim.maxRequests >= 1
    requires Nondecreasing(ts + [now]) && Legal(lim, ts + [now])
    requires Nondecreasing(history) && |history| == |ts|
    requires forall i :: 0 <= i < |ts| ==> history[i] <= ts[i]
    ensures Admits(lim, history, now)
  {
    var m := |ts|;
    var all := ts + [now];
    if m > 0 {
      assert all[m] - all[m - 1] >= lim.minInterval;
    }
    if m < lim.maxRequests {
      CountAtMost(history, 0, now - lim.window, now);
    } else {
      var d := m - lim.maxRequests;
      if now <= all[d] + lim.window {
        var lo, hi := all[d], all[d] + lim.window;
        CountAtLeast(all, d, lo, hi);
        assert false;
      }
      assert history[d] <= ts[d] == all[d];
      CountAtMost(history, d + 1, now - lim.window, now);
    }
  }

  /** `history` has admitted at least as many as `ts`, each one no later. */
  ghost predicate Ahead(history: seq<int>, ts: seq<int>) {
    && |ts| <= |history|
    && forall i :: 0 <= i < |ts| ==> history[i] <= ts[i]
  }

  lemma {:induction false} GreedyStaysAhead(lim: Limits, arrivals: seq<int>, picks: seq<bool>)
    requires lim.maxRequests >= 1
    requires |picks| == |arrivals| && Nondecreasing(arrivals)
    requires Legal(lim, Selected(arrivals, picks))
    ensures Ahead(Greedy(lim, arrivals), Selected(arrivals, picks))
  {
    hide Admits, CountIn, Legal;
    if |arrivals| > 0 {
      var n := |arrivals| - 1;
      var before, now := arrivals[..n], arrivals[n];
      var ts, history := Selected(before, picks[..n]), Greedy(lim, before);
      if picks[n] {
        LegalDropLast(lim, ts, now);
      } else {
        assert Selected(arrivals, picks) == ts;
      }
      GreedyStaysAhead(lim, before, picks[..n]);
      GreedyShape(lim, before);
      SelectedShape(before, picks[..n]);
      assert Nondecreasing(history) && (|history| > 0 ==> history[|history| - 1] <= now);
      assert Nondecreasing(ts + [now]);
      StayAhead(lim, ts, history, now, picks[n]);
    }
  }

  /** One arrival, which the policy takes or leaves. */
  lemma StayAhead(lim: Limits, ts: seq<int>, history: seq<int>, now: int, pick: bool)
    requires lim.maxRequests >= 1
    requires Nondecreasing(history) && (|history| > 0 ==> history[|history| - 1] <= now)
    requires Nondecreasing(ts + [now]) && (pick ==> Legal(lim, ts + [now]))
    requires Ahead(history, ts)
    ensures Ahead(if Admits(lim, history, now) then history + [now] else history,
                  if pick then ts + [now] else ts)
  {
    hide Admits, CountIn, Legal;
    if pick && |history| == |ts| {
      AdmitsWhenAhead(lim, ts, history, now);
    }
  }

  /** After any prefix of the arrivals, no policy that obeys both limits has
      admitted more requests than the limiter. */
  lemma GreedyOptimal(lim: Limits, arrivals: seq<int>, picks: seq<bool>, n: nat)
    requires lim.maxRequests >= 1
    requires |picks| == |arrivals| && Nondecreasing(arrivals) && n <= |arrivals|
    requires Legal(lim, Selected(arrivals, picks))
    ensures |Selected(arrivals[..n], picks[..n])| <= |Greedy(lim, arrivals[..n])|
  {
    LegalPrefix(lim, arrivals, picks, n);
    GreedyStaysAhead(lim, arrivals[..n], picks[..n]);
  }

  lemma {:induction false} LegalPrefix(lim: Limits, arrivals: seq<int>, picks: seq<bool>, n: nat)
    requires |picks| == |arrivals| && n <= |arrivals|
    requires Legal(lim, Selected(arrivals, picks))
    ensures Legal(lim, Selected(arrivals[..n], picks[..n]))
    decreases |arrivals|
  {
    if n == |arrivals| {
      assert arrivals[..n] == arrivals && picks[..n] == picks;
    } else {
      var k := |arrivals| - 1;
      var ts := Selected(arrivals[..k], picks[..k]);
      if picks[k] {
        LegalDropLast(lim, ts, arrivals[k]);
      } else {
        assert Selected(arrivals, picks) == ts;
      }
      assert Legal(lim, ts);
      assert arrivals[..k][..n] == arrivals[..n] && picks[..k][..n] == picks[..n];
      LegalPrefix(lim, arrivals[..k], picks[..k], n);
    }
  }

  /** The optimum is attained: under the exact condition of `IntervalExactly` the
      limiter's own admissions are a legal selection of the arrivals. */
  lemma {:induction false} GreedyIsLegalChoice(lim: Limits, arrivals: seq<int>) returns (picks: seq<bool>)
    requires lim.maxRequests >= 1 && Nondecreasing(arrivals)
    requires lim.minInterval <= 0 || lim.minInterval <= lim.window + 1
    ensures |picks| == |arrivals|
    ensures Selected(arrivals, picks) == Greedy(lim, arrivals)
    ensures Legal(lim, Selected(arrivals, picks))
  {
    picks := GreedyPicks(lim, arrivals);
    GreedySpaced(lim, arrivals);
    forall lo, hi | hi == lo + lim.window ensures CountIn(Greedy(lim, arrivals), lo, hi) <= lim.maxRequests {
      WindowSafety(lim, arrivals, lo);
    }
  }

  lemma {:induction false} GreedyPicks(lim: Limits, arrivals: seq<int>) returns (picks: seq<bool>)
    ensures |picks| == |arrivals|
    ensures Selected(arrivals, picks) == Greedy(lim, arrivals)
  {
    if |arrivals| == 0 {
      picks := [];
    } else {
      var n := |arrivals| - 1;
      var rest := GreedyPicks(lim, arrivals[..n]);
      picks := rest + [Admits(lim, Greedy(lim, arrivals[..n]), arrivals[n])];
      assert picks[..n] == rest;
    }
  }
}
