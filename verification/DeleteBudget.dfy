/**
 * The deletion budget: a counter that any number of threads decrement by compare-and-exchange. In
 * every interleaving no more deletions are granted than the limit, and one is refused only when
 * the budget is spent.
 */
module DeleteBudget {
  import opened Bytes

  const UNLIMITED: nat := 0xFFFF_FFFF_FFFF_FFFF

  /** A thread before its load, or between load and exchange. */
  datatype Thread = Ready | Loaded(current: int)

  /** The counter, the threads, and how many calls have returned true and false. */
  datatype State = State(remaining: int, threads: seq<Thread>, granted: nat, refused: nat)

  /** What a thread does next; the weak exchange may also fail for no reason. */
  datatype Step = Load(t: nat) | Exchange(t: nat, spurious: bool)

  ghost predicate Enabled(s: State, step: Step) {
    step.t < |s.threads| && (if step.Load? then s.threads[step.t].Ready? else s.threads[step.t].Loaded?)
  }

  /** A thread whose call has returned is ready for its next one. */
  ghost function Next(s: State, step: Step): State
    requires Enabled(s, step)
  {
    match step
    case Load(t) =>
      if s.remaining == 0 then s.(refused := s.refused + 1)
      else if s.remaining == UNLIMITED then s.(granted := s.granted + 1)
      else s.(threads := s.threads[t := Loaded(s.remaining)])
    case Exchange(t, spurious) =>
      var retry := s.threads[t := Ready];
      if spurious || s.remaining != s.threads[t].current then s.(threads := retry)
      else s.(remaining := s.remaining - 1, threads := retry, granted := s.granted + 1)
  }

  ghost function Start(limit: nat, n: nat): State {
    State(limit, seq(n, _ => Ready), 0, 0)
  }

  /** Where a run leads; None if a step is taken that is not possible. */
  ghost function Run(s: State, steps: seq<Step>, n: nat): Option<State>
    requires n <= |steps|
  {
    if n == 0 then Some(s) else
    match Run(s, steps, n - 1)
    case None => None
    case Some(u) => if Enabled(u, steps[n - 1]) then Some(Next(u, steps[n - 1])) else None
  }

  /** What every run keeps: grants and remainder add up to the limit, and refusals come after the last grant. */
  ghost predicate Kept(s: State, limit: nat) {
    && s.remaining >= 0
    && (if limit == UNLIMITED then s.remaining == UNLIMITED && s.refused == 0 else s.granted + s.remaining == limit)
    && (s.refused > 0 ==> s.remaining == 0)
    && (forall t :: 0 <= t < |s.threads| && s.threads[t].Loaded? ==>
          limit != UNLIMITED && s.remaining <= s.threads[t].current && 0 < s.threads[t].current < UNLIMITED)
  }

  lemma KeptNext(s: State, step: Step, limit: nat)
    requires limit <= UNLIMITED && Kept(s, limit) && Enabled(s, step)
    ensures Kept(Next(s, step), limit)
    // with a limit, a thread that loses an exchange for a reason lost it to a grant
    ensures step.Exchange? && !step.spurious && Next(s, step).granted == s.granted ==>
              s.remaining < s.threads[step.t].current
  {
  }

  /** In every interleaving of any number of threads. */
  lemma {:induction false} NeverExceeded(limit: nat, threads: nat, steps: seq<Step>, n: nat)
    requires limit <= UNLIMITED && n <= |steps| && Run(Start(limit, threads), steps, n).Some?
    ensures Kept(Run(Start(limit, threads), steps, n).value, limit)
    ensures var s := Run(Start(limit, threads), steps, n).value;
            && (limit < UNLIMITED ==> s.granted <= limit)
            && (s.refused > 0 ==> limit < UNLIMITED && s.granted == limit)
  {
    if n > 0 {
      NeverExceeded(limit, threads, steps, n - 1);
      KeptNext(Run(Start(limit, threads), steps, n - 1).value, steps[n - 1], limit);
    }
  }

  /**
   * A call that no rival disturbs is granted while there is budget: at once if it is unlimited,
   * otherwise by its load and an exchange that does not fail for no reason, which spend one.
   */
  lemma Granted(s: State, t: nat)
    requires t < |s.threads| && s.threads[t].Ready? && s.remaining != 0
    ensures Enabled(s, Load(t))
    ensures var u := Next(s, Load(t));
            if s.remaining == UNLIMITED then u == s.(granted := s.granted + 1)
            else
              && u.granted == s.granted && u.remaining == s.remaining && Enabled(u, Exchange(t, false))
              && Next(u, Exchange(t, false)) == s.(granted := s.granted + 1, remaining := s.remaining - 1)
  {
    var u := Next(s, Load(t));
    if s.remaining != UNLIMITED {
      assert u.threads[t := Ready] == s.threads;
    }
  }

  /** With no budget left it is refused at once. */
  lemma Refused(s: State, t: nat)
    requires t < |s.threads| && s.threads[t].Ready? && s.remaining == 0
    ensures Enabled(s, Load(t)) && Next(s, Load(t)) == s.(refused := s.refused + 1)
  {
  }
}
