/**
 * The sliding-window bookkeeping of `HttpClient.handle_rate_limit`, as functions of the
 * history, the current time `now` (seconds, read once before any sleep), `max_requests`
 * and `window_seconds`. The class method in module Transport is proved against these.
 */
module RateLimit {

  /** What one run of the hook does after pruning: go on, sleep, or fail inside `min([])`. */
  datatype Gate = Admit | Sleep(seconds: real) | EmptyMinError

  /** A timestamp survives pruning when it is at most `window` seconds old. */
  predicate InWindow(t: real, now: real, window: real)
  {
    now - t <= window
  }

  /** The filtering comprehension: the timestamps still in the window, in their original order. */
  function Prune(history: seq<real>, now: real, window: real): (kept: seq<real>)
    ensures |kept| <= |history|
  {
    if history == [] then []
    else
      var n := |history| - 1;
      var rest := Prune(history[..n], now, window);
      if InWindow(history[n], now, window) then rest + [history[n]] else rest
  }

  /** Python's `min` on a non-empty list. */
  function Min(s: seq<real>): (m: real)
    requires |s| > 0
    ensures m in s
    ensures forall x :: x in s ==> m <= x
  {
    if |s| == 1 then s[0]
    else
      var m := Min(s[1..]);
      assert forall x :: x in s ==> x == s[0] || x in s[1..];
      if s[0] <= m then s[0] else m
  }

  /**
   * The decision taken on the pruned history: a wait exactly when at least `maxRequests`
   * timestamps remain, and the wait lasts until the oldest of them is `window` seconds old
   * (or is zero when it already is).
   */
  function Decide(kept: seq<real>, now: real, maxRequests: int, window: real): (g: Gate)
    ensures g.Admit? <==> |kept| < maxRequests
    ensures g.EmptyMinError? <==> |kept| >= maxRequests && kept == []
    ensures g.Sleep? ==> |kept| >= maxRequests && |kept| > 0 && g.seconds >= 0.0
    ensures g.Sleep? && g.seconds > 0.0 ==> now + g.seconds == Min(kept) + window
    ensures g.Sleep? && g.seconds == 0.0 ==> now >= Min(kept) + window
  {
    if |kept| >= maxRequests then
      if kept == [] then EmptyMinError
      else
        var wait := window - (now - Min(kept));
        Sleep(if wait > 0.0 then wait else 0.0)
    else Admit
  }

  /** The history the hook leaves behind: the pruned one plus `now`, unless `min` raised. */
  function NextHistory(history: seq<real>, now: real, maxRequests: int, window: real): (next: seq<real>)
    ensures var kept := Prune(history, now, window);
            |kept| <= |next| <= |kept| + 1 &&
            next[..|kept|] == kept &&
            (|next| == |kept| <==> Decide(kept, now, maxRequests, window).EmptyMinError?) &&
            (|next| == |kept| + 1 ==> next[|kept|] == now)
    ensures forall t :: t in next ==> t == now || (t in history && InWindow(t, now, window))
  {
    PruneMembers(history, now, window);
    var kept := Prune(history, now, window);
    if Decide(kept, now, maxRequests, window).EmptyMinError? then kept else kept + [now]
  }

  /** A timestamp appears in the pruned history as often as in the old one if it is in the window, else never. */
  lemma {:induction false} PruneCounts(history: seq<real>, now: real, window: real, t: real)
    ensures multiset(Prune(history, now, window))[t] ==
              if InWindow(t, now, window) then multiset(history)[t] else 0
  {
    if history != [] {
      var n := |history| - 1;
      PruneCounts(history[..n], now, window, t);
      assert history == history[..n] + [history[n]];
    }
  }

  /** The survivors are exactly the old timestamps in the window; every dropped one was older. */
  lemma PruneMembers(history: seq<real>, now: real, window: real)
    ensures forall t :: t in Prune(history, now, window) <==> t in history && InWindow(t, now, window)
  {
    forall t ensures t in Prune(history, now, window) <==> t in history && InWindow(t, now, window) {
      PruneCounts(history, now, window, t);
    }
  }

  /** Pruning keeps relative order: it distributes over concatenation. */
  lemma {:induction false} PruneAppend(a: seq<real>, b: seq<real>, now: real, window: real)
    ensures Prune(a + b, now, window) == Prune(a, now, window) + Prune(b, now, window)
  {
    if b != [] {
      var n := |b| - 1;
      assert (a + b)[..|a + b| - 1] == a + b[..n];
      PruneAppend(a, b[..n], now, window);
    } else {
      assert a + b == a;
    }
  }

  /** A single timestamp is kept or dropped by the window test alone. */
  lemma PruneSingleton(t: real, now: real, window: real)
    ensures Prune([t], now, window) == if InWindow(t, now, window) then [t] else []
  {
    assert [t][..0] == [];
  }

  /** Pruning twice at the same time changes nothing. */
  lemma {:induction false} PruneIdempotent(history: seq<real>, now: real, window: real)
    ensures Prune(Prune(history, now, window), now, window) == Prune(history, now, window)
  {
    if history != [] {
      var n := |history| - 1;
      var rest := Prune(history[..n], now, window);
      PruneIdempotent(history[..n], now, window);
      if InWindow(history[n], now, window) {
        PruneAppend(rest, [history[n]], now, window);
        PruneSingleton(history[n], now, window);
      }
    }
  }

  /** On a pruned history, the clamp at zero never applies: the wait is exactly the remaining window of the oldest. */
  lemma WaitOnPrunedHistory(history: seq<real>, now: real, maxRequests: int, window: real)
    requires var kept := Prune(history, now, window); |kept| >= maxRequests && kept != []
    ensures var kept := Prune(history, now, window);
            Decide(kept, now, maxRequests, window) == Sleep(window - (now - Min(kept)))
  {
    PruneMembers(history, now, window);
  }

  /** The wait never exceeds the window when no timestamp lies in the future. */
  lemma WaitAtMostWindow(kept: seq<real>, now: real, maxRequests: int, window: real)
    requires window >= 0.0
    requires forall t :: t in kept ==> t <= now
    ensures var g := Decide(kept, now, maxRequests, window); g.Sleep? ==> g.seconds <= window
  {
  }

  /** The first request, on an empty history, never waits (for any positive limit). */
  lemma FirstRequestNeverWaits(now: real, maxRequests: int, window: real)
    requires maxRequests >= 1
    ensures Decide(Prune([], now, window), now, maxRequests, window) == Admit
    ensures NextHistory([], now, maxRequests, window) == [now]
  {
  }

  /**
   * Right after a wait the history holds more than `maxRequests` entries: the timestamp is
   * recorded without pruning again, so the history is not bounded by the limit.
   */
  lemma WaitLeavesHistoryOverLimit(history: seq<real>, now: real, maxRequests: int, window: real)
    requires Decide(Prune(history, now, window), now, maxRequests, window).Sleep?
    ensures |NextHistory(history, now, maxRequests, window)| > maxRequests
  {
  }

  /** Timestamps recorded in non-decreasing order, as a clock that never goes back produces them. */
  ghost predicate Chronological(history: seq<real>) {
    forall i, j :: 0 <= i < j < |history| ==> history[i] <= history[j]
  }

  /** On a chronological history the minimum is the first, oldest, entry. */
  lemma {:induction false} MinOfChronological(s: seq<real>)
    requires |s| > 0 && Chronological(s)
    ensures Min(s) == s[0]
  {
    if |s| > 1 {
      assert Chronological(s[1..]);
      MinOfChronological(s[1..]);
    }
  }

  /** Pruning a chronological history keeps it chronological. */
  lemma {:induction false} PruneChronological(history: seq<real>, now: real, window: real)
    requires Chronological(history)
    ensures Chronological(Prune(history, now, window))
  {
    if history != [] {
      var n := |history| - 1;
      assert Chronological(history[..n]);
      PruneChronological(history[..n], now, window);
      PruneMembers(history[..n], now, window);
      var rest := Prune(history[..n], now, window);
      forall t | t in rest ensures t <= history[n] {
        var i :| 0 <= i < n && history[..n][i] == t;
        assert history[i] == t;
      }
      ExtendChronological(rest, history[n]);
    }
  }

  /** Appending a timestamp no earlier than all recorded ones keeps a history chronological. */
  lemma ExtendChronological(s: seq<real>, x: real)
    requires Chronological(s)
    requires forall t :: t in s ==> t <= x
    ensures Chronological(s + [x])
  {
    forall i, j | 0 <= i < j < |s| + 1 ensures (s + [x])[i] <= (s + [x])[j] {
      assert (s + [x])[i] == s[i];
      if j == |s| { assert s[i] in s; }
    }
  }

  /**
   * With a clock that never goes back, the hook keeps the history chronological, ends it
   * with `now`, and leaves in it only timestamps at most `window` seconds older than `now`.
   */
  lemma StepKeepsHistoryOrdered(history: seq<real>, now: real, maxRequests: int, window: real)
    requires Chronological(history)
    requires forall t :: t in history ==> t <= now
    requires window >= 0.0
    ensures var next := NextHistory(history, now, maxRequests, window);
            && Chronological(next)
            && (forall t :: t in next ==> t <= now && InWindow(t, now, window))
  {
    PruneChronological(history, now, window);
    PruneMembers(history, now, window);
    ExtendChronological(Prune(history, now, window), now);
  }

  /**
   * A burst: when the whole chronological history is still in the window and holds at
   * least `maxRequests` entries, the next hook waits until the FIRST of them leaves the window,
   * not for the full window.
   */
  lemma BurstWaitsForOldest(history: seq<real>, now: real, maxRequests: int, window: real)
    requires Chronological(history) && |history| >= maxRequests && |history| >= 1
    requires forall t :: t in history ==> InWindow(t, now, window)
    ensures Decide(Prune(history, now, window), now, maxRequests, window) ==
              Sleep(window - (now - history[0]))
  {
    PruneMembers(history, now, window);
    PruneAll(history, now, window);
    MinOfChronological(history);
  }

  /** When every timestamp is in the window, pruning keeps all of them. */
  lemma {:induction false} PruneAll(history: seq<real>, now: real, window: real)
    requires forall t :: t in history ==> InWindow(t, now, window)
    ensures Prune(history, now, window) == history
  {
    if history != [] {
      var n := |history| - 1;
      assert forall t :: t in history[..n] ==> t in history;
      PruneAll(history[..n], now, window);
      assert history[..n] + [history[n]] == history;
    }
  }
}
