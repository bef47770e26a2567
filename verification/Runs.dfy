/** Machines that take one input at a time, may report something each time, and may stop
    with an exception.  Nothing here depends on what the machine is.
  */
module Runs {

  /** What one step leads to besides the new state. */
  datatype Outcome<+M> = Quiet | Delivered(message: M) | Fault

  /** The state after a string of inputs and what was reported on the way.  An exception
      ends the run. */
  datatype Run<+S, +M> = Run(state: S, out: seq<M>, faulted: bool)

  function Reports<M>(o: Outcome<M>): seq<M> {
    if o.Delivered? then [o.message] else []
  }

  function RunAll<S, B, M>(step: (S, B) -> (S, Outcome<M>), s: S, input: seq<B>): Run<S, M>
    decreases |input|
  {
    if input == [] then Run(s, [], false)
    else
      var (s1, o) := step(s, input[0]);
      if o.Fault? then Run(s1, [], true)
      else
        var r := RunAll(step, s1, input[1..]);
        r.(out := Reports(o) + r.out)
  }

  /** Runs one after the other. */
  function Then<S, M>(r: Run<S, M>, q: Run<S, M>): Run<S, M> {
    if r.faulted then r else q.(out := r.out + q.out)
  }

  lemma {:induction false} RunAppend<S, B, M>(step: (S, B) -> (S, Outcome<M>), s: S, t: seq<B>, u: seq<B>)
    ensures RunAll(step, s, t + u) == Then(RunAll(step, s, t), RunAll(step, RunAll(step, s, t).state, u))
    decreases |t|
  {
    if t == [] {
      assert t + u == u;
    } else {
      assert (t + u)[1..] == t[1..] + u;
      var (s1, o) := step(s, t[0]);
      RunAppend(step, s1, t[1..], u);
    }
  }

  lemma RunOne<S, B, M>(step: (S, B) -> (S, Outcome<M>), s: S, b: B)
    ensures var (s1, o) := step(s, b); RunAll(step, s, [b]) == Run(s1, Reports(o), o.Fault?)
  {
    assert [b][1..] == [];
  }

  lemma RunOneMore<S, B, M>(
    step: (S, B) -> (S, Outcome<M>), s: S, t: seq<B>, k: nat, s1: S, s2: S, o: Outcome<M>)
    requires k < |t|
    requires RunAll(step, s, t[..k]) == Run(s1, [], false)
    requires step(s1, t[k]) == (s2, o)
    ensures RunAll(step, s, t[..k + 1]) == Run(s2, Reports(o), o.Fault?)
  {
    assert t[..k + 1] == t[..k] + [t[k]];
    RunAppend(step, s, t[..k], [t[k]]);
    RunOne(step, s1, t[k]);
  }
}
