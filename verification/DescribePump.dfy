/** Exporter.Describe (internal/pgxexporter/exporter.go): a collector feeding an unbuffered channel, and a goroutine
    that forwards the descriptor of each metric it receives. */
module DescribePump {
  import opened MetricMaps
  import opened Evaluator

  // The caller of Describe sends, closes the channel, waits for the goroutine, and returns.
  datatype Producer = Sending | Waiting | Returned

  datatype Consumer = Receiving | Holding(m: Metric) | Finished

  datatype State = State(todo: seq<Metric>, sent: seq<Metric>, closed: bool, forwarded: seq<Desc>,
                         producer: Producer, consumer: Consumer)

  datatype Step = Handover | Forward | Close | Finish | Return

  ghost predicate Enabled(s: State, step: Step) {
    match step
    case Handover => s.producer == Sending && s.todo != [] && s.consumer == Receiving
    case Forward => s.consumer.Holding?
    case Close => s.producer == Sending && s.todo == []
    case Finish => s.consumer == Receiving && s.closed
    case Return => s.producer == Waiting && s.consumer == Finished
  }

  ghost function After(s: State, step: Step): State
    requires Enabled(s, step)
  {
    match step
    case Handover => s.(todo := s.todo[1..], sent := s.sent + [s.todo[0]], consumer := Holding(s.todo[0]))
    case Forward => s.(forwarded := s.forwarded + [s.consumer.m.desc], consumer := Receiving)
    case Close => s.(closed := true, producer := Waiting)
    case Finish => s.(consumer := Finished)
    case Return => s.(producer := Returned)
  }

  ghost function Descs(metrics: seq<Metric>): seq<Desc> {
    Sequences.Map((m: Metric) => m.desc, metrics)
  }

  /** A run of Describe whose collector sends `collected`. */
  ghost predicate Run(collected: seq<Metric>, steps: seq<Step>, states: seq<State>) {
    && |states| == |steps| + 1
    && states[0] == State(collected, [], false, [], Sending, Receiving)
    && forall i | 0 <= i < |steps| :: Enabled(states[i], steps[i]) && states[i + 1] == After(states[i], steps[i])
  }

  ghost predicate Inv(collected: seq<Metric>, s: State) {
    && s.sent + s.todo == collected
    && s.forwarded + (if s.consumer.Holding? then [s.consumer.m.desc] else []) == Descs(s.sent)
    && (s.closed <==> s.producer != Sending)
    && (s.closed ==> s.todo == [])
    && (s.consumer == Finished ==> s.closed)
    && (s.producer == Returned ==> s.consumer == Finished)
  }

  /** Steps still to come. */
  ghost function Remaining(s: State): nat {
    2 * |s.todo|
    + (if s.consumer.Holding? then 1 else 0)
    + (if s.producer == Sending then 2 else if s.producer == Waiting then 1 else 0)
    + (if s.consumer == Finished then 0 else 1)
  }

  lemma StepKeepsInv(collected: seq<Metric>, s: State, step: Step)
    requires Inv(collected, s) && Enabled(s, step)
    ensures Inv(collected, After(s, step)) && Remaining(After(s, step)) == Remaining(s) - 1
  {
    var s' := After(s, step);
    match step
    case Handover =>
      assert s'.sent + s'.todo == s.sent + s.todo;
      assert Descs(s'.sent) == Descs(s.sent) + [s.todo[0].desc];
    case Forward =>
      assert s'.forwarded + [] == Descs(s.sent);
    case Close =>
    case Finish =>
    case Return =>
  }

  lemma {:induction false} InvHolds(collected: seq<Metric>, steps: seq<Step>, states: seq<State>, n: nat)
    requires Run(collected, steps, states) && n <= |steps|
    ensures Inv(collected, states[n]) && Remaining(states[n]) == 2 * |collected| + 3 - n
  {
    if n == 0 {
      assert [] + collected == collected;
    } else {
      InvHolds(collected, steps, states, n - 1);
      StepKeepsInv(collected, states[n - 1], steps[n - 1]);
    }
  }

  /** In every interleaving, Describe has returned only when the descriptor of every metric sent has been
      forwarded, in order. */
  lemma NothingIsLost(collected: seq<Metric>, steps: seq<Step>, states: seq<State>, n: nat)
    requires Run(collected, steps, states) && n <= |steps| && states[n].producer == Returned
    ensures states[n].sent == collected && states[n].forwarded == Descs(collected)
  {
    InvHolds(collected, steps, states, n);
    assert collected + [] == collected;
  }

  /** No send follows the close. */
  lemma NoSendAfterClose(collected: seq<Metric>, steps: seq<Step>, states: seq<State>, i: nat, j: nat)
    requires Run(collected, steps, states) && i < j < |steps| && steps[i] == Close
    ensures steps[j] != Handover && steps[j] != Close
  {
    InvHolds(collected, steps, states, j);
    StaysClosed(collected, steps, states, i, j);
  }

  lemma {:induction false} StaysClosed(collected: seq<Metric>, steps: seq<Step>, states: seq<State>, i: nat, j: nat)
    requires Run(collected, steps, states) && i < j <= |steps| && steps[i] == Close
    ensures states[j].closed
  {
    if i < j - 1 {
      StaysClosed(collected, steps, states, i, j - 1);
    }
    assert states[j] == After(states[j - 1], steps[j - 1]);
  }

  /** Describe never gets stuck, and returns after exactly two steps for each metric and three more. */
  lemma DescribeReturns(collected: seq<Metric>, steps: seq<Step>, states: seq<State>)
    requires Run(collected, steps, states)
    ensures |steps| <= 2 * |collected| + 3
    ensures states[|steps|].producer == Returned <==> |steps| == 2 * |collected| + 3
    ensures states[|steps|].producer != Returned ==> exists step :: Enabled(states[|steps|], step)
  {
    var s := states[|steps|];
    InvHolds(collected, steps, states, |steps|);
    if s.producer != Returned {
      var step :=
        if s.consumer.Holding? then Forward
        else if s.producer == Sending then (if s.todo == [] then Close else Handover)
        else if s.consumer == Finished then Return
        else Finish;
      assert Enabled(s, step);
    }
  }
}
