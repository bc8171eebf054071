/**
 * `PersistentTask`: a background task that survives its activity being recreated.
 * If it finishes while no activity is attached, it keeps the result and delivers it
 * (`onFinish`) when an activity attaches again. Only the UI-thread callbacks are
 * modelled; the hooks the task calls are recorded as a trace of callbacks.
 */
module Tasks {
  import opened Wrappers

  /** A hook the task calls on itself. */
  datatype Callback<R> = OnStart | OnFinishImmediate(result: R) | OnFinish(result: R)

  /** What happens to the task: the UI thread calls one of these. */
  datatype Event<A, R> = Attach(activity: A) | Detach | PreExecute | PostExecute(result: R)

  /** The fields `mActivity`, `mOnFinishPending`, `mResult`. */
  datatype TaskState<A, R> = TaskState(activity: Option<A>, onFinishPending: bool, result: Option<R>)

  datatype Stepped<A, R> = Stepped(state: TaskState<A, R>, calls: seq<Callback<R>>)

  /** The effect of one event: the new fields and the hooks called, in order. */
  function Step<A, R>(s: TaskState<A, R>, e: Event<A, R>): Stepped<A, R>
  {
    match e
    case Attach(a) =>
      if s.onFinishPending && s.result.Some? then
        Stepped(TaskState(Some(a), false, s.result), [OnFinish(s.result.value)])
      else
        Stepped(s.(activity := Some(a), onFinishPending := false), [])
    case Detach => Stepped(s.(activity := None), [])
    case PreExecute => Stepped(s, [OnStart])
    case PostExecute(r) =>
      if s.activity.Some? then Stepped(s, [OnFinishImmediate(r), OnFinish(r)])
      else Stepped(TaskState(None, true, Some(r)), [OnFinishImmediate(r)])
  }

  /** A pending result is always stored. */
  predicate Valid<A, R>(s: TaskState<A, R>)
  {
    s.onFinishPending ==> s.result.Some?
  }

  lemma StepValid<A, R>(s: TaskState<A, R>, e: Event<A, R>)
    requires Valid(s)
    ensures Valid(Step(s, e).state)
  {
  }

  /** The state after a run of events, and every hook called along the way. */
  function Run<A, R>(s: TaskState<A, R>, events: seq<Event<A, R>>): Stepped<A, R>
  {
    if events == [] then Stepped(s, [])
    else
      var before := Run(s, events[..|events| - 1]);
      var last := Step(before.state, events[|events| - 1]);
      Stepped(last.state, before.calls + last.calls)
  }

  /** How many times `onFinish` is called in `calls`. */
  function Finishes<R>(calls: seq<Callback<R>>): nat
  {
    if calls == [] then 0
    else Finishes(calls[..|calls| - 1]) + (if calls[|calls| - 1].OnFinish? then 1 else 0)
  }

  /** Every `onFinish` in `calls` delivers `r`. */
  ghost predicate AllDeliver<R>(calls: seq<Callback<R>>, r: R)
  {
    forall i :: 0 <= i < |calls| && calls[i].OnFinish? ==> calls[i].result == r
  }

  predicate NoPostExecute<A, R>(events: seq<Event<A, R>>)
  {
    forall i :: 0 <= i < |events| ==> !events[i].PostExecute?
  }

  predicate SomeAttach<A, R>(events: seq<Event<A, R>>)
  {
    exists i :: 0 <= i < |events| && events[i].Attach?
  }

  /** The activity attached after `events`, starting from `activity`. */
  function AttachedAfter<A, R>(activity: Option<A>, events: seq<Event<A, R>>): Option<A>
  {
    if events == [] then activity
    else
      match events[|events| - 1]
      case Attach(a) => Some(a)
      case Detach => None
      case _ => AttachedAfter(activity, events[..|events| - 1])
  }

  lemma {:induction false} FinishesAppend<R>(a: seq<Callback<R>>, b: seq<Callback<R>>)
    ensures Finishes(a + b) == Finishes(a) + Finishes(b)
    decreases |b|
  {
    if b == [] {
      assert a + b == a;
    } else {
      assert (a + b)[..|a + b| - 1] == a + b[..|b| - 1];
      FinishesAppend(a, b[..|b| - 1]);
    }
  }

  /**
   * Without a result to deliver, nothing is ever delivered: a run with no
   * `PostExecute` from a state with nothing pending calls no `onFinish`, leaves nothing
   * pending, keeps the stored result and tracks the attached activity.
   */
  lemma {:induction false} RunWithoutResult<A, R>(s: TaskState<A, R>, events: seq<Event<A, R>>)
    requires !s.onFinishPending && NoPostExecute(events)
    ensures !Run(s, events).state.onFinishPending
    ensures Run(s, events).state.result == s.result
    ensures Run(s, events).state.activity == AttachedAfter(s.activity, events)
    ensures Finishes(Run(s, events).calls) == 0
    decreases |events|
  {
    if events != [] {
      var init := events[..|events| - 1];
      assert NoPostExecute(init) by {
        forall i | 0 <= i < |init| ensures !init[i].PostExecute? {
          assert init[i] == events[i];
        }
      }
      RunWithoutResult(s, init);
      var before := Run(s, init);
      var last := Step(before.state, events[|events| - 1]);
      FinishesAppend(before.calls, last.calls);
      assert Finishes(last.calls) == 0 by {
        assert last.calls == [] || last.calls == [OnStart];
      }
    }
  }

  /**
   * With a result pending, the first `attach` delivers it once and clears the flag;
   * until then it stays pending, and afterwards nothing more is delivered.
   */
  lemma {:induction false} RunWithPending<A, R>(s: TaskState<A, R>, r: R, events: seq<Event<A, R>>)
    requires s.onFinishPending && s.result == Some(r) && NoPostExecute(events)
    ensures Run(s, events).state.onFinishPending <==> !SomeAttach(events)
    ensures Run(s, events).state.result == Some(r)
    ensures Finishes(Run(s, events).calls) == (if SomeAttach(events) then 1 else 0)
    ensures AllDeliver(Run(s, events).calls, r)
    decreases |events|
  {
    if events != [] {
      var init := events[..|events| - 1];
      var e := events[|events| - 1];
      assert NoPostExecute(init) by {
        forall i | 0 <= i < |init| ensures !init[i].PostExecute? {
          assert init[i] == events[i];
        }
      }
      assert SomeAttach(events) <==> SomeAttach(init) || e.Attach? by {
        if SomeAttach(init) {
          var i :| 0 <= i < |init| && init[i].Attach?;
          assert events[i] == init[i];
        }
        if SomeAttach(events) && !e.Attach? {
          var i :| 0 <= i < |events| && events[i].Attach?;
          assert init[i] == events[i];
        }
      }
      RunWithPending(s, r, init);
      var before := Run(s, init);
      var last := Step(before.state, e);
      FinishesAppend(before.calls, last.calls);
      assert AllDeliver(before.calls + last.calls, r) by {
        forall i | 0 <= i < |before.calls + last.calls| && (before.calls + last.calls)[i].OnFinish?
          ensures (before.calls + last.calls)[i].result == r
        {
          if i >= |before.calls| {
            assert (before.calls + last.calls)[i] == last.calls[i - |before.calls|];
          }
        }
      }
    }
  }

  /**
   * Exactly-once delivery. A task that starts with nothing pending and finishes once,
   * after the events `before` and followed by the events `after`, calls `onFinish` with
   * its result exactly once if an activity was attached when it finished or attaches
   * later, and never otherwise.
   */
  lemma ExactlyOnceDelivery<A, R>(s: TaskState<A, R>, before: seq<Event<A, R>>, r: R, after: seq<Event<A, R>>)
    requires !s.onFinishPending && NoPostExecute(before) && NoPostExecute(after)
    ensures var calls := Run(s, before + [PostExecute(r)] + after).calls;
      && AllDeliver(calls, r)
      && Finishes(calls) ==
         (if AttachedAfter(s.activity, before).Some? || SomeAttach(after) then 1 else 0)
  {
    var mid := Run(s, before);
    RunWithoutResult(s, before);
    NoFinishAllDeliver(mid.calls, r);
    var post := Step(mid.state, PostExecute(r));
    FinishOnPost(mid.state, r);
    var beforePost := before + [PostExecute(r)];
    assert beforePost[..|beforePost| - 1] == before;
    var atPost := Run(s, beforePost);
    assert atPost == Stepped(post.state, mid.calls + post.calls);
    FinishesAppend(mid.calls, post.calls);
    AllDeliverAppend(mid.calls, post.calls, r);
    var rest := Run(atPost.state, after);
    if mid.state.activity.Some? {
      RunWithoutResult(atPost.state, after);
      NoFinishAllDeliver(rest.calls, r);
    } else {
      RunWithPending(atPost.state, r, after);
    }
    RunConcat(s, beforePost, after);
    FinishesAppend(atPost.calls, rest.calls);
    AllDeliverAppend(atPost.calls, rest.calls, r);
  }

  /** Finishing delivers at once to an attached activity, and otherwise leaves the result pending. */
  lemma FinishOnPost<A, R>(st: TaskState<A, R>, r: R)
    requires !st.onFinishPending
    ensures Finishes(Step(st, PostExecute(r)).calls) == (if st.activity.Some? then 1 else 0)
    ensures AllDeliver(Step(st, PostExecute(r)).calls, r)
    ensures st.activity.Some? ==> Step(st, PostExecute(r)).state == st
    ensures st.activity.None? ==> Step(st, PostExecute(r)).state == TaskState(None, true, Some(r))
  {
    var fi: seq<Callback<R>> := [OnFinishImmediate(r)];
    assert Finishes(fi) == 0 by { assert fi[..0] == []; }
    if st.activity.Some? {
      assert Step(st, PostExecute(r)).calls[..1] == fi;
    }
  }

  lemma AllDeliverAppend<R>(a: seq<Callback<R>>, b: seq<Callback<R>>, r: R)
    requires AllDeliver(a, r) && AllDeliver(b, r)
    ensures AllDeliver(a + b, r)
  {
    forall i | 0 <= i < |a + b| && (a + b)[i].OnFinish? ensures (a + b)[i].result == r {
      if i >= |a| {
        assert (a + b)[i] == b[i - |a|];
      }
    }
  }

  lemma NoFinishAllDeliver<R>(calls: seq<Callback<R>>, r: R)
    requires Finishes(calls) == 0
    ensures AllDeliver(calls, r)
  {
    forall i | 0 <= i < |calls| ensures !calls[i].OnFinish? {
      NoFinishIn(calls, i);
    }
  }

  /** A trace without `onFinish` has none at any position. */
  lemma {:induction false} NoFinishIn<R>(calls: seq<Callback<R>>, i: int)
    requires Finishes(calls) == 0 && 0 <= i < |calls|
    ensures !calls[i].OnFinish?
    decreases |calls|
  {
    if i < |calls| - 1 {
      assert calls[..|calls| - 1][i] == calls[i];
      NoFinishIn(calls[..|calls| - 1], i);
    }
  }

  /** Running two batches of events is running them one after the other. */
  lemma {:induction false} RunConcat<A, R>(s: TaskState<A, R>, a: seq<Event<A, R>>, b: seq<Event<A, R>>)
    ensures Run(s, a + b) ==
      Stepped(Run(Run(s, a).state, b).state, Run(s, a).calls + Run(Run(s, a).state, b).calls)
    decreases |b|
  {
    if b == [] {
      assert a + b == a;
    } else {
      var init := b[..|b| - 1];
      assert (a + b)[..|a + b| - 1] == a + init;
      assert (a + b)[|a + b| - 1] == b[|b| - 1];
      RunConcat(s, a, init);
      var mid := Run(Run(s, a).state, init);
      var last := Step(mid.state, b[|b| - 1]);
      assert Run(s, a).calls + mid.calls + last.calls == Run(s, a).calls + (mid.calls + last.calls);
    }
  }

  /**
   * The task object. `A` stands for the activity class and `R` for the result type;
   * `calls` records the hooks (`onStart`, `onFinishImmediate`, `onFinish`) the task has
   * called on itself.
   */
  class PersistentTask<A, R> {
    var activity: Option<A>
    var onFinishPending: bool
    var result: Option<R>
    var calls: seq<Callback<R>>

    function State(): TaskState<A, R>
      reads this
    {
      TaskState(activity, onFinishPending, result)
    }

    constructor (activity: Option<A>)
      ensures State() == TaskState(activity, false, None) && calls == []
      ensures Valid(State())
    {
      this.activity := activity;
      onFinishPending := false;
      result := None;
      calls := [];
    }

    /** Forget the activity; a pending result stays pending. */
    method Detach()
      modifies this
      ensures State() == Step(old(State()), Event.Detach).state && calls == old(calls)
      ensures onFinishPending == old(onFinishPending) && result == old(result)
      ensures Valid(old(State())) ==> Valid(State())
    {
      activity := None;
    }

    /** Attach `a`, and deliver a result that finished while no activity was attached. */
    method Attach(a: A)
      requires Valid(State())
      modifies this
      ensures State() == Step(old(State()), Event.Attach(a)).state
      ensures calls == old(calls) + Step(old(State()), Event.Attach(a)).calls
      ensures Valid(State())
    {
      activity := Some(a);
      if onFinishPending {
        onFinishPending := false;
        calls := calls + [OnFinish(result.value)];
      }
    }

    method OnPreExecute()
      modifies this
      ensures State() == old(State()) && calls == old(calls) + [OnStart]
      ensures Valid(old(State())) ==> Valid(State())
    {
      calls := calls + [OnStart];
    }

    /** The background work produced `r`: deliver it now, or keep it until an activity attaches. */
    method OnPostExecute(r: R)
      requires Valid(State())
      modifies this
      ensures State() == Step(old(State()), PostExecute(r)).state
      ensures calls == old(calls) + Step(old(State()), PostExecute(r)).calls
      ensures Valid(State())
    {
      calls := calls + [OnFinishImmediate(r)];
      if activity.Some? {
        calls := calls + [OnFinish(r)];
      } else {
        result := Some(r);
        onFinishPending := true;
      }
    }
  }
}
