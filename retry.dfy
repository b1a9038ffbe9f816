/** The loop shape shared by `get_transcript` in app.py and the three
    retrying functions of youtube_downloader_pytube.py:

      for attempt in range(max_retries):
          try: ... return <value>                 # Return
          except ...:
              if attempt < max_retries - 1:
                  time.sleep(<pause>); continue
              return <failure value>              # Failed
      return <exhausted>

    One attempt is described by an `Attempt`: how it ends and the calls it
    made. `Run` is the loop over all attempts. */
module Retry {
  import opened Trace

  /** `Return`: the attempt returns `value` from the function at once
      (a success, or an early exit that is not retried). `Failed`: an
      exception was caught; `value` is what the function returns if this
      was the last attempt. */
  datatype Outcome<T> = Return(value: T) | Failed(value: T)

  datatype Attempt<T, C> = Attempt(outcome: Outcome<T>, events: seq<Event<C>>)

  predicate NoSleeps<C>(t: seq<Event<C>>)
  {
    forall i :: 0 <= i < |t| ==> t[i].Call?
  }

  /** The loop from attempt `a` on, with `n` the retry budget: what the
      function returns and the events it leaves. */
  function Run<T, C>(attempts: nat -> Attempt<T, C>, a: nat, n: int, pause: nat, exhausted: T): (T, seq<Event<C>>)
    decreases n - a
  {
    if n <= a then (exhausted, [])
    else
      var s := attempts(a);
      match s.outcome
      case Return(v) => (v, s.events)
      case Failed(v) =>
        if a < n - 1 then
          var rest := Run(attempts, a + 1, n, pause, exhausted);
          (rest.0, s.events + [Sleep(pause)] + rest.1)
        else (v, s.events)
  }

  /** What a loop that has made attempts `0` to `a - 1` knows: it got here
      by failed attempts only, and the trace so far (`done`) is followed by
      what the rest of the loop does. */
  ghost predicate Resumes<T, C>(attempts: nat -> Attempt<T, C>, a: nat, n: int, pause: nat, exhausted: T, done: seq<Event<C>>)
  {
    && Run(attempts, 0, n, pause, exhausted).0 == Run(attempts, a, n, pause, exhausted).0
    && Run(attempts, 0, n, pause, exhausted).1 == done + Run(attempts, a, n, pause, exhausted).1
    && (a < n ==> Last(attempts, 0, n) == Last(attempts, a, n))
  }

  lemma Starts<T, C>(attempts: nat -> Attempt<T, C>, n: int, pause: nat, exhausted: T)
    ensures Resumes(attempts, 0, n, pause, exhausted, [])
  {
    assert [] + Run(attempts, 0, n, pause, exhausted).1 == Run(attempts, 0, n, pause, exhausted).1;
  }

  /** A failed attempt that is not the last: pause, and go on with the next. */
  lemma Continues<T, C>(attempts: nat -> Attempt<T, C>, a: nat, n: int, pause: nat, exhausted: T, done: seq<Event<C>>)
    requires a < n - 1 && attempts(a).outcome.Failed?
    requires Resumes(attempts, a, n, pause, exhausted, done)
    ensures Resumes(attempts, a + 1, n, pause, exhausted, done + attempts(a).events + [Sleep(pause)])
  {
    var rest := Run(attempts, a + 1, n, pause, exhausted).1;
    assert done + (attempts(a).events + [Sleep(pause)] + rest) == done + attempts(a).events + [Sleep(pause)] + rest;
  }

  /** An attempt that returns, or the last one: the loop ends with it. */
  lemma Ends<T, C>(attempts: nat -> Attempt<T, C>, a: nat, n: int, pause: nat, exhausted: T, done: seq<Event<C>>)
    requires a < n && (attempts(a).outcome.Return? || a == n - 1)
    requires Resumes(attempts, a, n, pause, exhausted, done)
    ensures Run(attempts, 0, n, pause, exhausted) == (attempts(a).outcome.value, done + attempts(a).events)
    ensures Made(attempts, n) == a + 1
  {
  }

  /** The budget is used up before any attempt: only when there was none. */
  lemma Exhausted<T, C>(attempts: nat -> Attempt<T, C>, a: nat, n: int, pause: nat, exhausted: T, done: seq<Event<C>>)
    requires n <= a && (a == 0 || a < n)
    requires Resumes(attempts, a, n, pause, exhausted, done)
    ensures Run(attempts, 0, n, pause, exhausted) == (exhausted, done) && done == [] && Made(attempts, n) == 0
  {
  }

  /** The last attempt the loop makes from `a` on: the first one that
      returns, or the last one allowed. */
  function Last<T, C>(attempts: nat -> Attempt<T, C>, a: nat, n: int): (k: nat)
    requires a < n
    ensures a <= k < n
    ensures forall j :: a <= j < k ==> attempts(j).outcome.Failed?
    ensures attempts(k).outcome.Return? || k == n - 1
    decreases n - a
  {
    if attempts(a).outcome.Return? || a == n - 1 then a else Last(attempts, a + 1, n)
  }

  /** How many attempts the loop makes. */
  function Made<T, C>(attempts: nat -> Attempt<T, C>, n: int): (m: nat)
    ensures n <= 0 ==> m == 0
    ensures n >= 1 ==> 1 <= m <= n
  {
    if n <= 0 then 0 else Last(attempts, 0, n) + 1
  }

  /** The events of attempts `a` to `k`, a pause between each two. */
  function Spaced<T, C>(attempts: nat -> Attempt<T, C>, a: nat, k: nat, pause: nat): seq<Event<C>>
    decreases k - a
  {
    if k <= a then attempts(a).events
    else attempts(a).events + [Sleep(pause)] + Spaced(attempts, a + 1, k, pause)
  }

  /** The loop makes attempts `a` to `Last` and returns what the last one gives. */
  lemma {:induction false} RunIsSpaced<T, C>(attempts: nat -> Attempt<T, C>, a: nat, n: int, pause: nat, exhausted: T)
    requires a < n
    ensures Run(attempts, a, n, pause, exhausted).0 == attempts(Last(attempts, a, n)).outcome.value
    ensures Run(attempts, a, n, pause, exhausted).1 == Spaced(attempts, a, Last(attempts, a, n), pause)
    decreases n - a
  {
    if attempts(a).outcome.Failed? && a < n - 1 {
      RunIsSpaced(attempts, a + 1, n, pause, exhausted);
    }
  }

  /** With no budget the loop body never runs. */
  lemma NoBudget<T, C>(attempts: nat -> Attempt<T, C>, n: int, pause: nat, exhausted: T)
    requires n <= 0
    ensures Run(attempts, 0, n, pause, exhausted) == (exhausted, [])
  {
  }

  /** One pause between each two attempts made, none after the last. */
  lemma {:induction false} SpacedSleeps<T, C>(attempts: nat -> Attempt<T, C>, a: nat, k: nat, pause: nat)
    requires a <= k
    requires forall j :: a <= j <= k ==> NoSleeps(attempts(j).events)
    ensures Sleeps(Spaced(attempts, a, k, pause)) == k - a
    decreases k - a
  {
    var e := attempts(a).events;
    assert Sleeps(e) == 0;
    if k > a {
      SpacedSleeps(attempts, a + 1, k, pause);
      SleepsAppend(e, [Sleep(pause)]);
      SleepsAppend(e + [Sleep(pause)], Spaced(attempts, a + 1, k, pause));
    }
  }

  /** If every attempt makes one call of kind `c`, the calls of that kind
      count the attempts made. */
  lemma {:induction false} SpacedCalls<T, C>(attempts: nat -> Attempt<T, C>, a: nat, k: nat, pause: nat, c: C)
    requires a <= k
    requires forall j :: a <= j <= k ==> Calls(attempts(j).events, c) == 1
    ensures Calls(Spaced(attempts, a, k, pause), c) == k - a + 1
    decreases k - a
  {
    var e := attempts(a).events;
    if k > a {
      SpacedCalls(attempts, a + 1, k, pause, c);
      CallsAppend(e, [Sleep(pause)], c);
      CallsAppend(e + [Sleep(pause)], Spaced(attempts, a + 1, k, pause), c);
      assert Calls([Sleep(pause)], c) == 0;
    }
  }

  /** Every event of the attempts made belongs to one of them or is a pause. */
  lemma {:induction false} SpacedMembers<T, C>(attempts: nat -> Attempt<T, C>, a: nat, k: nat, pause: nat, x: Event<C>)
    requires a <= k && x in Spaced(attempts, a, k, pause)
    ensures x == Sleep(pause) || exists j :: a <= j <= k && x in attempts(j).events
    decreases k - a
  {
    if k > a {
      var e := attempts(a).events;
      if x !in e && x != Sleep(pause) {
        SpacedMembers(attempts, a + 1, k, pause, x);
      }
    }
  }

  /** When every attempt within the budget makes one call of kind `c` and
      no pause, the trace holds one such call per attempt made and a pause
      between each two. */
  lemma RunCounts<T, C>(attempts: nat -> Attempt<T, C>, n: int, pause: nat, exhausted: T, c: C)
    requires n >= 1
    requires forall j :: 0 <= j < n ==> NoSleeps(attempts(j).events) && Calls(attempts(j).events, c) == 1
    ensures Calls(Run(attempts, 0, n, pause, exhausted).1, c) == Made(attempts, n)
    ensures Sleeps(Run(attempts, 0, n, pause, exhausted).1) == Made(attempts, n) - 1
  {
    var k := Last(attempts, 0, n);
    RunIsSpaced(attempts, 0, n, pause, exhausted);
    SpacedSleeps(attempts, 0, k, pause);
    SpacedCalls(attempts, 0, k, pause, c);
  }

  /** The first attempt that returns ends the loop with its value. */
  lemma FirstReturn<T, C>(attempts: nat -> Attempt<T, C>, n: int, pause: nat, exhausted: T, k: nat)
    requires k < n && attempts(k).outcome.Return?
    requires forall j :: 0 <= j < k ==> attempts(j).outcome.Failed?
    ensures Made(attempts, n) == k + 1
    ensures Run(attempts, 0, n, pause, exhausted).0 == attempts(k).outcome.value
  {
    RunIsSpaced(attempts, 0, n, pause, exhausted);
  }

  /** When no attempt returns, all of them are made and the loop gives what
      the last one leaves. */
  lemma NoneReturns<T, C>(attempts: nat -> Attempt<T, C>, n: int, pause: nat, exhausted: T)
    requires n >= 1 && forall j :: 0 <= j < n ==> attempts(j).outcome.Failed?
    ensures Made(attempts, n) == n
    ensures Run(attempts, 0, n, pause, exhausted).0 == attempts(n - 1).outcome.value
  {
    RunIsSpaced(attempts, 0, n, pause, exhausted);
  }
}
