/**
 * `debounce(func, delay)` of the background script: the returned function
 * cancels the pending timer (`clearTimeout`) and arms a new one that calls
 * `func` with the latest arguments once `delay` has passed. Time is an
 * explicit clock: `Invoke` is a call of the debounced function at time `at`,
 * `Elapse` is the clock reaching `now`, when the timer fires if it is due.
 * What `func` does is not modelled; each firing appends its arguments to
 * `fired`, the calls `func` receives, in order.
 */
module Debounce {
  import opened Wrappers

  /** The one armed timer: when it is due, and the arguments it will pass. */
  datatype Timer<A> = Timer(deadline: int, args: A)

  /** The captured `timeoutId` (at most one pending timer) and the calls made so far. */
  datatype DebounceState<A> = DebounceState(pending: Option<Timer<A>>, fired: seq<A>)

  datatype Event<A> = Invoke(at: int, args: A) | Elapse(now: int)

  /** One event: a call re-arms the timer; the clock reaching a due timer fires it once. */
  function Step<A>(delay: nat, s: DebounceState<A>, e: Event<A>): DebounceState<A>
  {
    match e
    case Invoke(at, args) => s.(pending := Some(Timer(at + delay, args)))
    case Elapse(now) =>
      if s.pending.Some? && s.pending.value.deadline <= now
      then DebounceState(None, s.fired + [s.pending.value.args])
      else s
  }

  /** A trace of events, in order. */
  function Run<A>(delay: nat, s: DebounceState<A>, events: seq<Event<A>>): DebounceState<A>
    decreases |events|
  {
    if events == [] then s else Run(delay, Step(delay, s, events[0]), events[1..])
  }

  /** Only calls, no clock: nothing fires, and the pending timer is the last call's. */
  predicate AllInvokes<A>(events: seq<Event<A>>)
  {
    forall k :: 0 <= k < |events| ==> events[k].Invoke?
  }

  /**
   * A burst of calls leaves exactly one pending timer, armed by the last call
   * of the burst with its arguments; every earlier call was cancelled and
   * nothing fired.
   */
  lemma {:induction false} BurstKeepsLast<A>(delay: nat, s: DebounceState<A>, events: seq<Event<A>>)
    requires events != [] && AllInvokes(events)
    ensures var last := events[|events| - 1];
            Run(delay, s, events) == DebounceState(Some(Timer(last.at + delay, last.args)), s.fired)
    decreases |events|
  {
    if |events| > 1 {
      assert AllInvokes(events[1..]) by {
        forall k | 0 <= k < |events[1..]| ensures events[1..][k].Invoke? {
          assert events[1..][k] == events[k + 1];
        }
      }
      BurstKeepsLast(delay, Step(delay, s, events[0]), events[1..]);
    }
  }

  /**
   * After a burst, the clock reaching the last call's deadline fires the
   * function once with the last call's arguments only; the clock stopping
   * short of it fires nothing and keeps the timer.
   */
  lemma OnlyLastFires<A>(delay: nat, s: DebounceState<A>, burst: seq<Event<A>>, now: int)
    requires burst != [] && AllInvokes(burst)
    ensures var last := burst[|burst| - 1];
            var r := Run(delay, s, burst + [Elapse(now)]);
            && (now >= last.at + delay ==> r == DebounceState(None, s.fired + [last.args]))
            && (now < last.at + delay ==> r == DebounceState(Some(Timer(last.at + delay, last.args)), s.fired))
  {
    RunAppend(delay, s, burst, [Elapse(now)]);
    BurstKeepsLast(delay, s, burst);
  }

  /** Running two traces one after the other is running their concatenation. */
  lemma {:induction false} RunAppend<A>(delay: nat, s: DebounceState<A>, p: seq<Event<A>>, q: seq<Event<A>>)
    ensures Run(delay, s, p + q) == Run(delay, Run(delay, s, p), q)
    decreases |p|
  {
    if p == [] {
      assert p + q == q;
    } else {
      assert (p + q)[1..] == p[1..] + q;
      RunAppend(delay, Step(delay, s, p[0]), p[1..], q);
    }
  }

  /**
   * A timer fires at most once: once nothing is pending, the clock moving on
   * without a new call fires nothing more.
   */
  lemma {:induction false} FiresAtMostOnce<A>(delay: nat, s: DebounceState<A>, events: seq<Event<A>>)
    requires s.pending.None?
    requires forall k :: 0 <= k < |events| ==> events[k].Elapse?
    ensures Run(delay, s, events) == s
    decreases |events|
  {
    if events != [] {
      assert forall k :: 0 <= k < |events[1..]| ==> events[1..][k] == events[k + 1];
      FiresAtMostOnce(delay, s, events[1..]);
    }
  }

  /** Whatever happens, the calls made so far are never retracted. */
  lemma {:induction false} FiredOnlyGrows<A>(delay: nat, s: DebounceState<A>, events: seq<Event<A>>)
    ensures s.fired <= Run(delay, s, events).fired
    ensures |Run(delay, s, events).fired| <= |s.fired| + |events|
    decreases |events|
  {
    if events != [] {
      FiredOnlyGrows(delay, Step(delay, s, events[0]), events[1..]);
    }
  }

  /** The closure `debounce` returns, with the variable it captures. */
  class Debouncer<A> {
    const delay: nat
    var pending: Option<Timer<A>>
    var fired: seq<A>

    function State(): DebounceState<A>
      reads this
    {
      DebounceState(pending, fired)
    }

    /** `debounce(func, delay)`: no timer yet, nothing called. */
    constructor (delay: nat)
      ensures this.delay == delay
      ensures State() == DebounceState(None, [])
    {
      this.delay := delay;
      pending, fired := None, [];
    }

    /** A call of the debounced function at time `at`: `clearTimeout`, then `setTimeout`. */
    method Invoke(at: int, args: A)
      modifies this
      ensures State() == Step(delay, old(State()), Event.Invoke(at, args))
    {
      pending := None;
      pending := Some(Timer(at + delay, args));
    }

    /** The clock reaches `now`: a due timer runs `func(...args)` and is spent. */
    method Elapse(now: int) returns (ran: bool)
      modifies this
      ensures State() == Step(delay, old(State()), Event.Elapse(now))
      ensures ran <==> old(pending).Some? && old(pending).value.deadline <= now
    {
      ran := false;
      match pending {
        case Some(t) =>
          if t.deadline <= now {
            fired := fired + [t.args];
            pending := None;
            ran := true;
          }
        case None =>
      }
    }
  }
}
