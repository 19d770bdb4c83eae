/**
 * The fixed-window limiter on login and password mail, with its opportunistic
 * sweep (backend/internal/api/ratelimit.go).
 *
 * `Table` is the window table of a run that never sweeps, `SweptTable` the real
 * limiter's; the bounds are about the real one and are proved through the other.
 */
module RateLimiter {
  import opened Wrappers

  datatype Window = Window(start: int, count: int)

  datatype Attempt = Attempt(key: string, at: int)

  predicate Expired(w: Window, now: int, span: int) {
    now - w.start >= span
  }

  /** The window an attempt leaves behind: a fresh one, or the running one counted up. */
  function Counted(windows: map<string, Window>, a: Attempt, span: int): Window {
    if a.key !in windows || Expired(windows[a.key], a.at, span) then Window(a.at, 1)
    else windows[a.key].(count := windows[a.key].count + 1)
  }

  predicate Fresh(windows: map<string, Window>, a: Attempt, span: int) {
    a.key !in windows || Expired(windows[a.key], a.at, span)
  }

  predicate Allowed(windows: map<string, Window>, a: Attempt, limit: int, span: int) {
    Fresh(windows, a, span) || Counted(windows, a, span).count <= limit
  }

  function Swept(windows: map<string, Window>, now: int, span: int): map<string, Window> {
    map k | k in windows && !Expired(windows[k], now, span) :: windows[k]
  }

  class Limiter {
    var windows: map<string, Window>
    const limit: int
    const span: int

    constructor (limit: int, span: int)
      ensures this.limit == limit && this.span == span && windows == map[]
    {
      this.limit := limit;
      this.span := span;
      windows := map[];
    }

    method Sweep(now: int)
      modifies this
      ensures windows == Swept(old(windows), now, span)
    {
      var todo := windows.Keys;
      while todo != {}
        invariant forall k | k in todo :: k in old(windows)
        invariant forall k :: k in windows <==>
                    k in old(windows) && (k in todo || !Expired(old(windows)[k], now, span))
        invariant forall k | k in windows :: windows[k] == old(windows)[k]
        decreases |todo|
      {
        var k :| k in todo;
        todo := todo - {k};
        if now - windows[k].start >= span {
          windows := windows - {k};
        }
      }
    }

    /** Records an attempt and says whether it is within the limit. */
    method Allow(a: Attempt) returns (ok: bool)
      modifies this
      ensures ok == Allowed(old(windows), a, limit, span)
      ensures windows == KeptSwept(old(windows), a, span)
    {
      if a.key !in windows || a.at - windows[a.key].start >= span {
        windows := windows[a.key := Window(a.at, 1)];
        Sweep(a.at);
        return true;
      }
      var w := windows[a.key];
      w := w.(count := w.count + 1);
      windows := windows[a.key := w];
      ok := w.count <= limit;
    }
  }

  // ----- Runs -------------------------------------------------------------------------

  function Kept(windows: map<string, Window>, a: Attempt, span: int): map<string, Window> {
    windows[a.key := Counted(windows, a, span)]
  }

  function KeptSwept(windows: map<string, Window>, a: Attempt, span: int): map<string, Window> {
    if Fresh(windows, a, span) then Swept(Kept(windows, a, span), a.at, span) else Kept(windows, a, span)
  }

  /** The table after a run, never sweeping. */
  function Table(run: seq<Attempt>, span: int): map<string, Window> {
    if run == [] then map[] else Kept(Table(run[..|run| - 1], span), run[|run| - 1], span)
  }

  /** The table after a run of the real limiter. */
  function SweptTable(run: seq<Attempt>, span: int): map<string, Window> {
    if run == [] then map[] else KeptSwept(SweptTable(run[..|run| - 1], span), run[|run| - 1], span)
  }

  ghost predicate Chronological(run: seq<Attempt>) {
    forall i, j | 0 <= i <= j < |run| :: run[i].at <= run[j].at
  }

  /** The n-th attempt of a run got through. */
  predicate Passed(run: seq<Attempt>, n: nat, limit: int, span: int)
    requires n < |run|
  {
    Allowed(SweptTable(run[..n], span), run[n], limit, span)
  }

  predicate Falls(a: Attempt, key: string, lo: int, hi: int) {
    a.key == key && lo <= a.at < hi
  }

  /** Attempts of a key at instants from lo up to, not including, hi. */
  function AttemptsIn(run: seq<Attempt>, key: string, lo: int, hi: int): nat {
    if run == [] then 0
    else AttemptsIn(run[..|run| - 1], key, lo, hi) + if Falls(run[|run| - 1], key, lo, hi) then 1 else 0
  }

  /** Those of them that got through. */
  function PassedIn(run: seq<Attempt>, key: string, lo: int, hi: int, limit: int, span: int): nat {
    if run == [] then 0
    else
      var n := |run| - 1;
      PassedIn(run[..n], key, lo, hi, limit, span)
      + if Falls(run[n], key, lo, hi) && Passed(run, n, limit, span) then 1 else 0
  }

  // ----- Sweeping changes no answer -----------------------------------------------------

  /** The swept table lacks only windows that no later attempt can still count in. */
  ghost predicate Agree(swept: map<string, Window>, full: map<string, Window>, now: int, span: int) {
    && (forall k | k in swept :: k in full && swept[k] == full[k])
    && (forall k | k in full && k !in swept :: Expired(full[k], now, span))
  }

  lemma AgreeStep(swept: map<string, Window>, full: map<string, Window>, before: int, a: Attempt, span: int)
    requires Agree(swept, full, before, span) && before <= a.at
    ensures Agree(KeptSwept(swept, a, span), Kept(full, a, span), a.at, span)
    ensures forall limit :: Allowed(swept, a, limit, span) == Allowed(full, a, limit, span)
    ensures Fresh(swept, a, span) == Fresh(full, a, span)
  {
  }

  lemma {:induction false} TablesAgree(run: seq<Attempt>, span: int, now: int)
    requires Chronological(run) && (run != [] ==> run[|run| - 1].at <= now)
    ensures Agree(SweptTable(run, span), Table(run, span), now, span)
  {
    if run != [] {
      var front, last := run[..|run| - 1], run[|run| - 1];
      TablesAgree(front, span, last.at);
      AgreeStep(SweptTable(front, span), Table(front, span), last.at, last, span);
    }
  }

  /** With a clock that never runs back, the sweeping limiter answers every attempt as one that never sweeps. */
  lemma SweepIsInvisible(run: seq<Attempt>, a: Attempt, limit: int, span: int)
    requires Chronological(run + [a])
    ensures Allowed(SweptTable(run, span), a, limit, span) == Allowed(Table(run, span), a, limit, span)
    ensures Fresh(SweptTable(run, span), a, span) == Fresh(Table(run, span), a, span)
  {
    assert forall i | 0 <= i < |run| :: (run + [a])[i] == run[i];
    assert (run + [a])[|run|] == a;
    TablesAgree(run, span, a.at);
    AgreeStep(SweptTable(run, span), Table(run, span), a.at, a, span);
  }

  /** When an injected clock runs back it does not: the sweep has forgotten a window that counts again. */
  lemma SweepShowsWhenTimeRunsBack()
    ensures
      var run := [Attempt("a", 0), Attempt("b", 10)];
      var back := Attempt("a", 5);
      Allowed(SweptTable(run, 10), back, 1, 10) != Allowed(Table(run, 10), back, 1, 10)
  {
    var a, b := Attempt("a", 0), Attempt("b", 10);
    TableSnoc([], a, 10);
    TableSnoc([a], b, 10);
    assert [a] + [b] == [a, b] && [] + [a] == [a];
    assert "a" != "b" by {
      assert "a"[0] != "b"[0];
    }
    assert Table([a], 10) == map["a" := Window(0, 1)];
    assert SweptTable([a], 10) == map["a" := Window(0, 1)];
    assert "a" !in SweptTable([a, b], 10);
  }

  lemma TableSnoc(run: seq<Attempt>, a: Attempt, span: int)
    ensures Table(run + [a], span) == Kept(Table(run, span), a, span)
    ensures SweptTable(run + [a], span) == KeptSwept(SweptTable(run, span), a, span)
  {
    assert (run + [a])[..|run|] == run;
  }

  /** After an attempt that opened a window, only running windows are left. */
  lemma OnlyRunningWindowsLeft(windows: map<string, Window>, a: Attempt, span: int, k: string)
    requires Fresh(windows, a, span) && k in KeptSwept(windows, a, span)
    ensures !Expired(KeptSwept(windows, a, span)[k], a.at, span)
  {
  }

  /**
   * What an attempt leaves of any key: its own window counted or opened, and the others unless it opened one and
   * they had run out.
   */
  lemma TableMoves(windows: map<string, Window>, a: Attempt, span: int, k: string)
    ensures
      var after := KeptSwept(windows, a, span);
      var opens := a.key in windows ==> a.at >= windows[a.key].start + span;
      && (k != a.key ==> (k in after <==> k in windows && (opens ==> a.at < windows[k].start + span)))
      && (k != a.key && k in after ==> after[k] == windows[k])
      && (opens ==> (a.key in after <==> span > 0) && (span > 0 ==> after[a.key] == Window(a.at, 1)))
      && (!opens ==> a.key in after && after[a.key] == Window(windows[a.key].start, windows[a.key].count + 1))
  {
  }

  // ----- Keys are independent -----------------------------------------------------------

  function Only(run: seq<Attempt>, key: string): seq<Attempt> {
    if run == [] then []
    else
      var front, last := Only(run[..|run| - 1], key), run[|run| - 1];
      if last.key == key then front + [last] else front
  }

  /** Every attempt of the key, as often as it was made, and no other. */
  lemma {:induction false} OnlyItsOwn(run: seq<Attempt>, key: string, a: Attempt)
    ensures multiset(Only(run, key))[a] == if a.key == key then multiset(run)[a] else 0
  {
    if run != [] {
      var front, last := run[..|run| - 1], run[|run| - 1];
      OnlyItsOwn(front, key, a);
      assert run == front + [last];
    }
  }

  /** A key's window is what its own attempts alone make it. */
  lemma {:induction false} KeysAreIndependent(run: seq<Attempt>, key: string, span: int)
    ensures key in Table(run, span) <==> key in Table(Only(run, key), span)
    ensures key in Table(run, span) ==> Table(run, span)[key] == Table(Only(run, key), span)[key]
  {
    if run != [] {
      var front, last := run[..|run| - 1], run[|run| - 1];
      KeysAreIndependent(front, key, span);
      if last.key == key {
        assert Only(run, key)[..|Only(run, key)| - 1] == Only(front, key);
      }
    }
  }

  lemma {:induction false} OnlyKeepsOrder(run: seq<Attempt>, key: string)
    requires Chronological(run)
    ensures Chronological(Only(run, key))
    ensures Only(run, key) != [] ==> run != [] && Only(run, key)[|Only(run, key)| - 1].at <= run[|run| - 1].at
  {
    if run != [] {
      OnlyKeepsOrder(run[..|run| - 1], key);
    }
  }

  lemma ChronologicalSnoc(run: seq<Attempt>, a: Attempt)
    ensures Chronological(run + [a]) <==> Chronological(run) && (run == [] || run[|run| - 1].at <= a.at)
  {
    var all := run + [a];
    assert forall i | 0 <= i < |run| :: all[i] == run[i];
    assert all[|run|] == a;
    if Chronological(all) && run != [] {
      assert all[|run| - 1].at <= all[|run|].at;
    }
  }

  /** So what other keys do never changes an answer of the real limiter. */
  lemma OthersDoNotMatter(run: seq<Attempt>, a: Attempt, limit: int, span: int)
    requires Chronological(run + [a])
    ensures Allowed(SweptTable(run, span), a, limit, span) == Allowed(SweptTable(Only(run, a.key), span), a, limit, span)
  {
    ChronologicalSnoc(run, a);
    OnlyKeepsOrder(run, a.key);
    ChronologicalSnoc(Only(run, a.key), a);
    SweepIsInvisible(run, a, limit, span);
    SweepIsInvisible(Only(run, a.key), a, limit, span);
    KeysAreIndependent(run, a.key, span);
  }

  // ----- The sliding bound ----------------------------------------------------------------

  /** The same count for a limiter that never sweeps. */
  function FullPassedIn(run: seq<Attempt>, key: string, lo: int, hi: int, limit: int, span: int): nat {
    if run == [] then 0
    else
      var n := |run| - 1;
      FullPassedIn(run[..n], key, lo, hi, limit, span)
      + if Falls(run[n], key, lo, hi) && Allowed(Table(run[..n], span), run[n], limit, span) then 1 else 0
  }

  lemma {:induction false} CountsAgree(run: seq<Attempt>, key: string, lo: int, hi: int, limit: int, span: int)
    requires Chronological(run)
    ensures PassedIn(run, key, lo, hi, limit, span) == FullPassedIn(run, key, lo, hi, limit, span)
  {
    if run != [] {
      var front, last := run[..|run| - 1], run[|run| - 1];
      CountsAgree(front, key, lo, hi, limit, span);
      assert front + [last] == run;
      SweepIsInvisible(front, last, limit, span);
    }
  }

  /** How many may have passed since lo, given the key's present window. */
  ghost predicate Within(w: Window, passed: int, lo: int, limit: int, span: int) {
    && w.count >= 1
    && (w.start < lo ==> passed <= Min(w.count, limit) - 1)
    && (lo <= w.start < lo + span ==> passed <= limit - 1 + Min(w.count, limit))
    && (w.start >= lo + span ==> passed <= 2 * limit - 1)
  }

  lemma {:induction false} WindowBounds(run: seq<Attempt>, key: string, lo: int, limit: int, span: int)
    requires Chronological(run) && limit >= 1 && span >= 1
    ensures key !in Table(run, span) ==> FullPassedIn(run, key, lo, lo + span, limit, span) == 0
    ensures key in Table(run, span) ==>
              Within(Table(run, span)[key], FullPassedIn(run, key, lo, lo + span, limit, span), lo, limit, span)
    ensures key in Table(run, span) ==> run != [] && Table(run, span)[key].start <= run[|run| - 1].at
    ensures run != [] && run[|run| - 1].at < lo ==> FullPassedIn(run, key, lo, lo + span, limit, span) == 0
  {
    if run != [] {
      var front, last := run[..|run| - 1], run[|run| - 1];
      WindowBounds(front, key, lo, limit, span);
    }
  }

  /** In any stretch of time one span long a key gets at most twice the limit through, less one. */
  lemma SlidingBound(run: seq<Attempt>, key: string, lo: int, limit: int, span: int)
    requires Chronological(run) && limit >= 1 && span >= 1
    ensures PassedIn(run, key, lo, lo + span, limit, span) <= 2 * limit - 1
  {
    WindowBounds(run, key, lo, limit, span);
    CountsAgree(run, key, lo, lo + span, limit, span);
  }

  // ----- The bound is reached ---------------------------------------------------------------

  /** The run followed by n attempts of one key at one instant. */
  function Burst(run: seq<Attempt>, key: string, at: int, n: nat): seq<Attempt> {
    if n == 0 then run else Burst(run, key, at, n - 1) + [Attempt(key, at)]
  }

  lemma FullPassedInSnoc(run: seq<Attempt>, a: Attempt, key: string, lo: int, hi: int, limit: int, span: int)
    ensures FullPassedIn(run + [a], key, lo, hi, limit, span) ==
            FullPassedIn(run, key, lo, hi, limit, span)
            + if a.key == key && lo <= a.at < hi && Allowed(Table(run, span), a, limit, span) then 1 else 0
  {
    assert (run + [a])[..|run|] == run;
  }

  /** A run after which a key has this window and this many of its attempts have passed. */
  ghost predicate Stands(run: seq<Attempt>, key: string, w: Window, passed: nat, lo: int, hi: int, limit: int, span: int) {
    && key in Table(run, span) && Table(run, span)[key] == w
    && FullPassedIn(run, key, lo, hi, limit, span) == passed
  }

  lemma OneMorePasses(run: seq<Attempt>, key: string, at: int, w: Window, passed: nat, lo: int, hi: int, limit: int,
                      span: int)
    requires Stands(run, key, w, passed, lo, hi, limit, span)
    requires !Expired(w, at, span) && lo <= at < hi && w.count < limit
    ensures Stands(run + [Attempt(key, at)], key, Window(w.start, w.count + 1), passed + 1, lo, hi, limit, span)
  {
    TableSnoc(run, Attempt(key, at), span);
    FullPassedInSnoc(run, Attempt(key, at), key, lo, hi, limit, span);
  }

  /** A burst within a running window counts it up, and passes while the count allows. */
  lemma {:induction false} BurstInWindow(run: seq<Attempt>, key: string, at: int, n: nat, w: Window, passed: nat, lo: int,
                                         hi: int, limit: int, span: int)
    requires Stands(run, key, w, passed, lo, hi, limit, span)
    requires !Expired(w, at, span) && lo <= at < hi && w.count + n <= limit
    ensures Stands(Burst(run, key, at, n), key, Window(w.start, w.count + n), passed + n, lo, hi, limit, span)
  {
    if n > 0 {
      BurstInWindow(run, key, at, n - 1, w, passed, lo, hi, limit, span);
      OneMorePasses(Burst(run, key, at, n - 1), key, at, Window(w.start, w.count + n - 1), passed + n - 1, lo, hi, limit,
                    span);
    }
  }

  lemma {:induction false} BurstIsChronological(run: seq<Attempt>, key: string, at: int, n: nat)
    requires Chronological(run) && run != [] && run[|run| - 1].at <= at
    ensures Chronological(Burst(run, key, at, n)) && Burst(run, key, at, n) != []
    ensures Burst(run, key, at, n)[|Burst(run, key, at, n)| - 1].at <= at
  {
    if n > 0 {
      BurstIsChronological(run, key, at, n - 1);
      ChronologicalSnoc(Burst(run, key, at, n - 1), Attempt(key, at));
    }
  }

  /** One attempt opens a window and the rest of its allowance comes at its very end: a full window. */
  function FirstWindow(key: string, limit: int, span: int): seq<Attempt>
    requires limit >= 1
  {
    Burst([Attempt(key, 0)], key, span - 1, limit - 1)
  }

  /** Then a full new window at once. */
  function WorstRun(key: string, limit: int, span: int): seq<Attempt>
    requires limit >= 1
  {
    Burst(FirstWindow(key, limit, span) + [Attempt(key, span)], key, span, limit - 1)
  }

  lemma WorstRunIsChronological(key: string, limit: int, span: int)
    requires limit >= 1 && span >= 1
    ensures Chronological(WorstRun(key, limit, span))
  {
    BurstIsChronological([Attempt(key, 0)], key, span - 1, limit - 1);
    ChronologicalSnoc(FirstWindow(key, limit, span), Attempt(key, span));
    BurstIsChronological(FirstWindow(key, limit, span) + [Attempt(key, span)], key, span, limit - 1);
  }

  lemma WindowOpens(run: seq<Attempt>, key: string, at: int, lo: int, hi: int, limit: int, span: int)
    requires limit >= 1 && Fresh(Table(run, span), Attempt(key, at), span) && at < hi
    ensures
      var passed := FullPassedIn(run, key, lo, hi, limit, span) + if lo <= at then 1 else 0;
      Stands(run + [Attempt(key, at)], key, Window(at, 1), passed, lo, hi, limit, span)
  {
    TableSnoc(run, Attempt(key, at), span);
    FullPassedInSnoc(run, Attempt(key, at), key, lo, hi, limit, span);
  }

  lemma FirstWindowPasses(key: string, lo: int, hi: int, limit: int, span: int)
    requires limit >= 1 && span >= 1 && 0 <= lo <= span - 1 && span < hi
    ensures Stands(FirstWindow(key, limit, span), key, Window(0, limit), limit - if lo == 0 then 0 else 1,
                   lo, hi, limit, span)
  {
    assert [] + [Attempt(key, 0)] == [Attempt(key, 0)];
    WindowOpens([], key, 0, lo, hi, limit, span);
    BurstInWindow([Attempt(key, 0)], key, span - 1, limit - 1, Window(0, 1), if lo == 0 then 1 else 0, lo, hi, limit, span);
  }

  lemma WorstRunPasses(key: string, lo: int, hi: int, limit: int, span: int)
    requires limit >= 1 && span >= 1 && 0 <= lo <= span - 1 && span < hi
    ensures FullPassedIn(WorstRun(key, limit, span), key, lo, hi, limit, span) == 2 * limit - if lo == 0 then 0 else 1
  {
    var first, passed := FirstWindow(key, limit, span), limit - if lo == 0 then 0 else 1;
    FirstWindowPasses(key, lo, hi, limit, span);
    WindowOpens(first, key, span, lo, hi, limit, span);
    BurstInWindow(first + [Attempt(key, span)], key, span, limit - 1, Window(span, 1), passed + 1, lo, hi, limit, span);
  }

  /** The bound cannot be lowered: for a span of two instants or more this run meets it. */
  lemma SlidingBoundIsReached(key: string, limit: int, span: int)
    requires limit >= 1 && span >= 2
    ensures Chronological(WorstRun(key, limit, span))
    ensures PassedIn(WorstRun(key, limit, span), key, 1, 1 + span, limit, span) == 2 * limit - 1
  {
    WorstRunIsChronological(key, limit, span);
    WorstRunPasses(key, 1, 1 + span, limit, span);
    CountsAgree(WorstRun(key, limit, span), key, 1, 1 + span, limit, span);
  }

  // ----- Counting the closing instant too -----------------------------------------------------

  /** How many may have passed since lo, the closing instant included, given the key's present window. */
  ghost predicate WithinClosed(w: Window, passed: int, lo: int, limit: int, span: int) {
    && w.count >= 1
    && (w.start < lo ==> passed <= Min(w.count, limit) - 1)
    && (w.start < lo && passed > 0 ==> lo < w.start + span)
    && (w.start == lo ==> passed <= Min(w.count, limit))
    && (lo < w.start <= lo + span ==> passed <= limit + Min(w.count, limit))
    && (w.start > lo + span ==> passed <= 2 * limit)
  }

  lemma {:induction false} ClosedWindowBounds(run: seq<Attempt>, key: string, lo: int, limit: int, span: int)
    requires Chronological(run) && limit >= 1 && span >= 1
    ensures key !in Table(run, span) ==> FullPassedIn(run, key, lo, lo + span + 1, limit, span) == 0
    ensures key in Table(run, span) ==>
              && WithinClosed(Table(run, span)[key], FullPassedIn(run, key, lo, lo + span + 1, limit, span), lo, limit, span)
              && run != [] && Table(run, span)[key].start <= run[|run| - 1].at
    ensures run != [] && run[|run| - 1].at < lo ==> FullPassedIn(run, key, lo, lo + span + 1, limit, span) == 0
  {
    if run != [] {
      ClosedWindowBounds(run[..|run| - 1], key, lo, limit, span);
    }
  }

  /** Twice the limit is what a stretch of one span gets when both of its end instants count. */
  lemma ClosedBound(run: seq<Attempt>, key: string, lo: int, limit: int, span: int)
    requires Chronological(run) && limit >= 1 && span >= 1
    ensures PassedIn(run, key, lo, lo + span + 1, limit, span) <= 2 * limit
  {
    ClosedWindowBounds(run, key, lo, limit, span);
    CountsAgree(run, key, lo, lo + span + 1, limit, span);
  }

  /** And that is reached as well: a full window at its opening instant, the next one span later. */
  lemma ClosedBoundIsReached(key: string, limit: int, span: int)
    requires limit >= 1 && span >= 1
    ensures
      var run := WorstRun(key, limit, span);
      Chronological(run) && PassedIn(run, key, 0, span + 1, limit, span) == 2 * limit
  {
    WorstRunIsChronological(key, limit, span);
    WorstRunPasses(key, 0, span + 1, limit, span);
    CountsAgree(WorstRun(key, limit, span), key, 0, span + 1, limit, span);
  }

  // ----- One window, and recovery ---------------------------------------------------------------

  /** A window opened at some attempt of its key, and no attempt of the key is a span or more past that. */
  lemma {:induction false} WindowOrigin(run: seq<Attempt>, key: string, span: int)
    requires Chronological(run) && span >= 1
    ensures key in Table(run, span) ==>
              exists j | 0 <= j < |run| :: run[j].key == key && run[j].at == Table(run, span)[key].start
    ensures forall j | 0 <= j < |run| && run[j].key == key ::
              key in Table(run, span) && run[j].at < Table(run, span)[key].start + span
  {
    if run != [] {
      var front, last := run[..|run| - 1], run[|run| - 1];
      WindowOrigin(front, key, span);
      if last.key == key {
        if Fresh(Table(front, span), last, span) {
          assert run[|run| - 1].at == Table(run, span)[key].start;
        }
      }
      if key in Table(front, span) {
        var j :| 0 <= j < |front| && front[j].key == key && front[j].at == Table(front, span)[key].start;
        assert run[j] == front[j];
      }
    }
  }

  lemma {:induction false} NoneYet(run: seq<Attempt>, key: string, lo: int, hi: int, limit: int, span: int)
    requires forall j | 0 <= j < |run| && run[j].key == key :: run[j].at < lo
    ensures AttemptsIn(run, key, lo, hi) == 0 && FullPassedIn(run, key, lo, hi, limit, span) == 0
  {
    if run != [] {
      NoneYet(run[..|run| - 1], key, lo, hi, limit, span);
    }
  }

  lemma OpeningIsFirst(run: seq<Attempt>, a: Attempt, hi: int, limit: int, span: int)
    requires Chronological(run) && span >= 1 && Fresh(Table(run, span), a, span)
    ensures AttemptsIn(run, a.key, a.at, hi) == 0 && FullPassedIn(run, a.key, a.at, hi, limit, span) == 0
  {
    WindowOrigin(run, a.key, span);
    NoneYet(run, a.key, a.at, hi, limit, span);
  }

  /** The window opened at s counts its attempts; a later window begins a span or more after it. */
  ghost predicate CountsWindow(w: Window, s: int, attempts: nat, passed: nat, limit: int, span: int) {
    && (w.start == s || w.start >= s + span)
    && (w.start == s ==> w.count == attempts)
    && passed == Min(attempts, limit)
  }

  lemma {:induction false} WindowCounts(run: seq<Attempt>, key: string, n: nat, limit: int, span: int)
    requires Chronological(run) && limit >= 1 && span >= 1
    requires n < |run| && run[n].key == key && Fresh(Table(run[..n], span), run[n], span)
    ensures key in Table(run, span) && Table(run, span)[key].start <= run[|run| - 1].at
    ensures
      var s := run[n].at;
      CountsWindow(Table(run, span)[key], s, AttemptsIn(run, key, s, s + span),
                   FullPassedIn(run, key, s, s + span, limit, span), limit, span)
  {
    var front, last := run[..|run| - 1], run[|run| - 1];
    if n == |run| - 1 {
      OpeningIsFirst(front, last, last.at + span, limit, span);
    } else {
      assert front[..n] == run[..n];
      WindowCounts(front, key, n, limit, span);
    }
  }

  /** Of the attempts a key makes while a window of the real limiter runs, exactly the first ones up to the limit pass. */
  lemma WindowLetsThroughTheLimit(run: seq<Attempt>, n: nat, limit: int, span: int)
    requires Chronological(run) && limit >= 1 && span >= 1
    requires n < |run| && Fresh(SweptTable(run[..n], span), run[n], span)
    ensures
      var key, s := run[n].key, run[n].at;
      PassedIn(run, key, s, s + span, limit, span) == Min(AttemptsIn(run, key, s, s + span), limit)
  {
    assert run[..n] + [run[n]] == run[..n + 1];
    SweepIsInvisible(run[..n], run[n], limit, span);
    WindowCounts(run, run[n].key, n, limit, span);
    CountsAgree(run, run[n].key, run[n].at, run[n].at + span, limit, span);
  }

  /** A key that made no attempt for a span is let through, whatever came before. */
  lemma QuietKeyRecovers(run: seq<Attempt>, a: Attempt, limit: int, span: int)
    requires Chronological(run + [a]) && span >= 1
    requires forall j | 0 <= j < |run| && run[j].key == a.key :: run[j].at <= a.at - span
    ensures Allowed(SweptTable(run, span), a, limit, span)
  {
    ChronologicalSnoc(run, a);
    WindowOrigin(run, a.key, span);
    SweepIsInvisible(run, a, limit, span);
  }

  /** What the sweep leaves behind is only keys that made an attempt within the last span. */
  lemma OnlyRecentKeysLeft(run: seq<Attempt>, a: Attempt, span: int, k: string)
    requires Chronological(run + [a]) && span >= 1
    requires Fresh(SweptTable(run, span), a, span) && k in SweptTable(run + [a], span)
    ensures exists j | 0 <= j < |run + [a]| :: (run + [a])[j].key == k && (run + [a])[j].at > a.at - span
  {
    var all := run + [a];
    assert all[|run|] == a;
    TableSnoc(run, a, span);
    OnlyRunningWindowsLeft(SweptTable(run, span), a, span, k);
    TablesAgree(all, span, a.at);
    WindowOrigin(all, k, span);
  }

  /** A running window lets through exactly the attempts up to the limit; once it is a span old the key recovers. */
  lemma WindowVerdict(windows: map<string, Window>, a: Attempt, limit: int, span: int)
    requires limit >= 1
    ensures a.key in windows && !Expired(windows[a.key], a.at, span) ==>
              (Allowed(windows, a, limit, span) <==> windows[a.key].count < limit)
    ensures a.key in windows && a.at >= windows[a.key].start + span ==>
              Allowed(windows, a, limit, span) && Counted(windows, a, span) == Window(a.at, 1)
  {
  }
}
