/** `debounce(func, delay)` (src/test-assets/staticDebounce.ts), the
    reference the debounce task's Jest suite (src/test-assets/debounce.test.js)
    is written against. The returned function keeps one timer: each call
    cancels the pending one and starts a new one holding that call's `this`
    and arguments; when the timer's time comes, `func` is applied to them
    and the timer is cleared. Time is Jest's fake clock, passed in as a
    number of milliseconds; `func` is a mock that records its invocations. */
module Debounce {
  import opened Maybe

  /** One application of `func`: the `this` and the arguments it received. */
  datatype Invocation<C, A> = Invocation(context: C, args: A)

  /** A pending `setTimeout`: when it fires and what it will pass on. */
  datatype Timer<C, A> = Timer(fireAt: int, context: C, args: A)

  /** The closure's `timer` and the invocations `func` has recorded. */
  datatype State<C, A> = State(timer: Option<Timer<C, A>>, invocations: seq<Invocation<C, A>>)

  /** Calling the debounced function at time `now`. */
  function CallStep<C, A>(s: State<C, A>, delay: nat, now: int, context: C, args: A): State<C, A> {
    State(Some(Timer(now + delay, context, args)), s.invocations)
  }

  /** The fake clock reaching `now`: a due timer fires once and is cleared. */
  function TickStep<C, A>(s: State<C, A>, now: int): State<C, A> {
    if s.timer.Some? && s.timer.value.fireAt <= now then
      State(None, s.invocations + [Invocation(s.timer.value.context, s.timer.value.args)])
    else s
  }

  /** A call made at time `at`, with its `this` and arguments. */
  datatype Call<C, A> = Call(at: int, context: C, args: A)

  /** The clock is advanced to each call's time and the call is made there. */
  function Calls<C, A>(s: State<C, A>, delay: nat, calls: seq<Call<C, A>>): State<C, A>
    decreases |calls|
  {
    if |calls| == 0 then s
    else
      var c := calls[|calls| - 1];
      CallStep(TickStep(Calls(s, delay, calls[..|calls| - 1]), c.at), delay, c.at, c.context, c.args)
  }

  /** Each call comes before the previous one's timer is due. */
  predicate Rapid<C, A>(calls: seq<Call<C, A>>, delay: nat) {
    forall i :: 0 <= i < |calls| - 1 ==> calls[i].at <= calls[i + 1].at < calls[i].at + delay
  }

  /** Each call comes once the previous one's timer is due. */
  predicate Spread<C, A>(calls: seq<Call<C, A>>, delay: nat) {
    forall i :: 0 <= i < |calls| - 1 ==> calls[i].at + delay <= calls[i + 1].at
  }

  function InvocationOf<C, A>(c: Call<C, A>): Invocation<C, A> {
    Invocation(c.context, c.args)
  }

  function InvocationsOf<C, A>(calls: seq<Call<C, A>>): (r: seq<Invocation<C, A>>)
    ensures |r| == |calls|
    ensures forall i :: 0 <= i < |calls| ==> r[i] == InvocationOf(calls[i])
  {
    seq(|calls|, i requires 0 <= i < |calls| => InvocationOf(calls[i]))
  }

  /** A call cancels whatever was pending: only its own timer remains, due
      `delay` after it, and nothing is invoked. */
  lemma CallReplacesTimer<C, A>(s: State<C, A>, delay: nat, now: int, context: C, args: A)
    ensures var r := CallStep(s, delay, now, context, args);
            r.timer == Some(Timer(now + delay, context, args)) && r.invocations == s.invocations
  {
  }

  /** Advancing the clock to less than `delay` after a call invokes nothing
      and leaves the call's timer pending; reaching `delay` invokes `func`
      once with that call's `this` and arguments and clears the timer. */
  lemma FiresExactlyAtDelay<C, A>(s: State<C, A>, delay: nat, t: int, context: C, args: A, now: int)
    ensures var r := TickStep(CallStep(s, delay, t, context, args), now);
            && (now < t + delay ==> r == CallStep(s, delay, t, context, args))
            && (now >= t + delay ==> r == State(None, s.invocations + [Invocation(context, args)]))
  {
  }

  /** Once idle, advancing the clock invokes nothing more. */
  lemma IdleStaysIdle<C, A>(s: State<C, A>, now: int)
    requires s.timer.None?
    ensures TickStep(s, now) == s
  {
  }

  /** Calls closer together than `delay` coalesce: whatever their number,
      nothing is invoked and only the last call's timer is pending. */
  lemma {:induction false} RapidCallsCoalesce<C, A>(s: State<C, A>, delay: nat, calls: seq<Call<C, A>>)
    requires |calls| > 0 && s.timer.None? && Rapid(calls, delay)
    ensures var last := calls[|calls| - 1];
            Calls(s, delay, calls) == State(Some(Timer(last.at + delay, last.context, last.args)), s.invocations)
    decreases |calls|
  {
    if |calls| > 1 {
      var front := calls[..|calls| - 1];
      assert Rapid(front, delay) by {
        forall i | 0 <= i < |front| - 1
          ensures front[i].at <= front[i + 1].at < front[i].at + delay
        {
          assert front[i] == calls[i] && front[i + 1] == calls[i + 1];
        }
      }
      RapidCallsCoalesce(s, delay, front);
      assert front[|front| - 1] == calls[|calls| - 2];
    }
  }

  /** A rapid burst, then the clock reaching `delay` after its last call:
      `func` runs once, with the last call's `this` and arguments. */
  lemma RapidBurstFiresOnce<C, A>(s: State<C, A>, delay: nat, calls: seq<Call<C, A>>, now: int)
    requires |calls| > 0 && s.timer.None? && Rapid(calls, delay)
    requires now >= calls[|calls| - 1].at + delay
    ensures TickStep(Calls(s, delay, calls), now)
         == State(None, s.invocations + [InvocationOf(calls[|calls| - 1])])
  {
    RapidCallsCoalesce(s, delay, calls);
  }

  /** Calls at least `delay` apart are each passed on, in order: after the
      last one, its own timer is the one pending. */
  lemma {:induction false} SpreadCallsAllFire<C, A>(s: State<C, A>, delay: nat, calls: seq<Call<C, A>>)
    requires |calls| > 0 && s.timer.None? && Spread(calls, delay)
    ensures Calls(s, delay, calls)
         == State(Some(Timer(calls[|calls| - 1].at + delay, calls[|calls| - 1].context,
                             calls[|calls| - 1].args)),
                  s.invocations + InvocationsOf(calls[..|calls| - 1]))
    decreases |calls|
  {
    var n := |calls|;
    if n == 1 {
      assert calls[..0] == [];
      assert InvocationsOf<C, A>([]) == [];
    } else {
      var front := calls[..n - 1];
      assert Spread(front, delay) by {
        forall i | 0 <= i < |front| - 1
          ensures front[i].at + delay <= front[i + 1].at
        {
          assert front[i] == calls[i] && front[i + 1] == calls[i + 1];
        }
      }
      SpreadCallsAllFire(s, delay, front);
      assert front[n - 2] == calls[n - 2];
      assert front[..n - 2] == calls[..n - 2];
      var done := InvocationsOf(calls[..n - 2]);
      assert InvocationsOf(calls[..n - 1]) == done + [InvocationOf(calls[n - 2])];
    }
  }

  /** The function `debounce` returns, with its closure's `timer`. */
  class Debounced<C, A> {
    const delay: nat
    var timer: Option<Timer<C, A>>
    /** What the wrapped mock has recorded. */
    var invocations: seq<Invocation<C, A>>

    function Current(): State<C, A>
      reads this
    {
      State(timer, invocations)
    }

    /** `debounce(func, delay)`: no timer yet and nothing invoked. */
    constructor (delay: nat)
      ensures this.delay == delay && timer == None && invocations == []
    {
      this.delay := delay;
      timer := None;
      invocations := [];
    }

    /** `debounced.call(context, ...args)` at time `now`: `clearTimeout` on the
        pending timer, then `setTimeout` for `delay` milliseconds. */
    method Invoke(now: int, context: C, args: A)
      modifies this
      ensures Current() == CallStep(old(Current()), delay, now, context, args)
    {
      timer := Some(Timer(now + delay, context, args));
    }

    /** Jest's fake clock reaching `now`: the timer's callback runs when it
        is due, applying `func` and setting `timer = null`. */
    method Tick(now: int)
      modifies this
      ensures Current() == TickStep(old(Current()), now)
    {
      if timer.Some? && timer.value.fireAt <= now {
        invocations := invocations + [Invocation(timer.value.context, timer.value.args)];
        timer := None;
      }
    }
  }

  // ---------------------------------------------------------------------
  // The four cases of the debounce suite, replayed on the model; `ctx`
  // is whatever `this` the calls are made with.

  /** Three calls, then 50 ms, then 50 ms more: no invocation until the
      delay has passed, then exactly one. */
  method OnlyOnceAfterDelay<C>(ctx: C) returns (atStart: nat, atHalf: nat, atFull: nat)
    ensures atStart == 0 && atHalf == 0 && atFull == 1
  {
    var d := new Debounced<C, seq<int>>(100);
    var now := 0;
    d.Invoke(now, ctx, []);
    d.Invoke(now, ctx, []);
    d.Invoke(now, ctx, []);
    atStart := |d.invocations|;
    now := now + 50;
    d.Tick(now);
    atHalf := |d.invocations|;
    now := now + 50;
    d.Tick(now);
    atFull := |d.invocations|;
  }

  /** Calls with 1, 2 and 3, then 100 ms: `func` ran once, and received 3. */
  method LastArgumentsWin<C>(ctx: C) returns (recorded: seq<Invocation<C, seq<int>>>)
    ensures recorded == [Invocation(ctx, [3])]
  {
    var d := new Debounced<C, seq<int>>(100);
    d.Invoke(0, ctx, [1]);
    d.Invoke(0, ctx, [2]);
    d.Invoke(0, ctx, [3]);
    d.Tick(100);
    recorded := d.invocations;
  }

  /** A call made with `this` bound to `context`, then 100 ms: one
      invocation, with that `this`. */
  method ContextPreserved<C>(context: C) returns (recorded: seq<Invocation<C, seq<int>>>)
    ensures |recorded| == 1 && recorded[0].context == context
  {
    var d := new Debounced<C, seq<int>>(100);
    d.Invoke(0, context, []);
    d.Tick(100);
    recorded := d.invocations;
  }

  /** Two debounced functions, the second called 50 ms after the first:
      after 100 ms only the first has run, after 150 ms both have, once each.
      Advancing the shared clock ticks both. */
  method IndependentInstances<C>(ctx: C) returns (first: seq<nat>, second: seq<nat>)
    ensures first == [0, 1, 1] && second == [0, 0, 1]
  {
    var d1 := new Debounced<C, seq<int>>(100);
    var d2 := new Debounced<C, seq<int>>(100);
    var now := 0;
    d1.Invoke(now, ctx, []);
    now := now + 50;
    d1.Tick(now);
    d2.Tick(now);
    d2.Invoke(now, ctx, []);
    first, second := [|d1.invocations|], [|d2.invocations|];
    now := now + 50;
    d1.Tick(now);
    d2.Tick(now);
    first, second := first + [|d1.invocations|], second + [|d2.invocations|];
    now := now + 50;
    d1.Tick(now);
    d2.Tick(now);
    first, second := first + [|d1.invocations|], second + [|d2.invocations|];
  }
}
