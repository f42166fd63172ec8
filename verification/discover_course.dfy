// The discover of one client against the clock: how it ends, and which failures leave the client running.

module DiscoverCourses {
  import opened Wrappers

  /** In nanoseconds: how long a command waits for its reply, and how long after the connection was made the
      timer stops the client. */
  const REPLY_WAIT: nat := 5_000_000_000
  const STOP_TIMER: nat := 10_000_000_000

  /** What comes of one request: its reply, an error (it cannot be sent, or what came back is no use), or nothing. */
  datatype Reply = Good(ns: nat) | Error(ns: nat) | Silence

  /** The commands up to the features give up waiting by themselves; the reads of the log page do not. */
  datatype Step = Command(reply: Reply) | Read(reply: Reply)

  datatype Course = NoDial | Dialled(commands: seq<Reply>, pages: seq<Reply>)

  /** How the discover of a new client ends: with the log page; before there was a connection to talk on;
      with an error while the client runs; or because the timer stopped the client. */
  datatype Outcome = Connected | NoConnection | FailedEarly | TimedOut

  function StepsOf(course: Course): (steps: seq<Step>)
    requires course.Dialled?
  {
    var (n, m) := (|course.commands|, |course.pages|);
    seq(n + m, i requires 0 <= i < n + m => if i < n then Command(course.commands[i]) else Read(course.pages[i - n]))
  }

  predicate InTime(step: Step) { step.reply.Good? && (step.Command? ==> step.reply.ns < REPLY_WAIT) }

  /** When a step that does not succeed fails, if it ever does by itself. */
  function FailsAfter(step: Step): Option<nat>
  {
    if step.Command? then Some(if step.reply.Error? && step.reply.ns < REPLY_WAIT then step.reply.ns else REPLY_WAIT)
    else if step.reply.Error? then Some(step.reply.ns)
    else None
  }

  /** One step after the other. The timer has the first go at its own time. */
  function Go(steps: seq<Step>, clock: nat): Outcome
    decreases |steps|
  {
    if clock >= STOP_TIMER then TimedOut
    else if steps == [] then Connected
    else if InTime(steps[0]) then Go(steps[1..], clock + steps[0].reply.ns)
    else if FailsAfter(steps[0]).Some? && clock + FailsAfter(steps[0]).value < STOP_TIMER then FailedEarly
    else TimedOut
  }

  function OutcomeOf(course: Course): Outcome
  {
    if course.NoDial? then NoConnection else Go(StepsOf(course), 0)
  }

  /** The time that the replies took. */
  function Elapsed(steps: seq<Step>): nat
  {
    if steps == [] then 0 else (if steps[0].reply.Good? then steps[0].reply.ns else 0) + Elapsed(steps[1..])
  }

  /** Step `k` is the first one that does not succeed. */
  predicate FailsAt(steps: seq<Step>, k: nat)
  {
    k < |steps| && !InTime(steps[k]) && forall i :: 0 <= i < k ==> InTime(steps[i])
  }

  /** It fails by itself before the timer fires. */
  predicate FailsEarly(steps: seq<Step>, k: nat)
    requires k < |steps|
  {
    FailsAfter(steps[k]).Some? && Elapsed(steps[..k]) + FailsAfter(steps[k]).value < STOP_TIMER
  }

  lemma ElapsedFirst(steps: seq<Step>, k: nat)
    requires 0 < k <= |steps|
    ensures Elapsed(steps[..k])
         == (if steps[0].reply.Good? then steps[0].reply.ns else 0) + Elapsed(steps[1..][..k - 1])
  {
    assert steps[..k][1..] == steps[1..][..k - 1];
  }

  /** With the clock at `clock`: what the first step that does not succeed makes of it. */
  lemma {:induction false} GoFails(steps: seq<Step>, clock: nat, k: nat)
    requires FailsAt(steps, k)
    ensures var f := FailsAfter(steps[k]);
      Go(steps, clock)
        == if f.Some? && clock + Elapsed(steps[..k]) + f.value < STOP_TIMER then FailedEarly else TimedOut
    decreases |steps|
  {
    hide InTime, FailsAfter;
    if k == 0 {
      assert steps[..0] == [];
    } else {
      assert InTime(steps[0]) && steps[0].reply.Good? by { GoodInTime(steps[0]); }
      GoFails(steps[1..], clock + steps[0].reply.ns, k - 1);
      ElapsedFirst(steps, k);
    }
  }

  lemma GoodInTime(step: Step)
    ensures InTime(step) ==> step.reply.Good?
  {
  }

  lemma {:induction false} GoSucceeds(steps: seq<Step>, clock: nat)
    requires forall i :: 0 <= i < |steps| ==> InTime(steps[i])
    ensures Go(steps, clock) == if clock + Elapsed(steps) < STOP_TIMER then Connected else TimedOut
    decreases |steps|
  {
    hide InTime, FailsAfter;
    if steps == [] {
    } else {
      assert InTime(steps[0]) && steps[0].reply.Good? by { GoodInTime(steps[0]); }
      GoSucceeds(steps[1..], clock + steps[0].reply.ns);
    }
  }

  lemma {:induction false} SomeFails(steps: seq<Step>)
    ensures (forall i :: 0 <= i < |steps| ==> InTime(steps[i])) || exists k: nat :: FailsAt(steps, k)
  {
    hide InTime;
    if steps == [] {
    } else {
      var rest := steps[..|steps| - 1];
      SomeFails(rest);
      if k: nat :| FailsAt(rest, k) {
        assert FailsAt(steps, k);
      } else if !InTime(steps[|rest|]) {
        assert FailsAt(steps, |rest|);
      }
    }
  }

  // The same in replies and times only.

  /** Reply `i` of a course, the commands first. */
  function ReplyAt(course: Course, i: nat): Reply
    requires course.Dialled? && i < |course.commands| + |course.pages|
  {
    if i < |course.commands| then course.commands[i] else course.pages[i - |course.commands|]
  }

  /** The nanoseconds that the first `k` replies took. */
  function Spent(course: Course, k: nat): nat
    requires course.Dialled? && k <= |course.commands| + |course.pages|
    decreases k
  {
    if k == 0 then 0
    else Spent(course, k - 1) + match ReplyAt(course, k - 1) case Good(ns) => ns case _ => 0
  }

  /** The first `k` replies are good, and those to commands come within five seconds. */
  ghost predicate Prompt(course: Course, k: nat)
    requires course.Dialled? && k <= |course.commands| + |course.pages|
  {
    forall i :: 0 <= i < k ==>
      ReplyAt(course, i).Good? && (i < |course.commands| ==> ReplyAt(course, i).ns < 5_000_000_000)
  }

  /** The client is left running at reply `k`: an error comes, or five seconds pass at a command, and all of it
      within ten seconds. */
  ghost predicate LeaksAt(course: Course, k: nat)
    requires course.Dialled? && k < |course.commands| + |course.pages|
  {
    && Prompt(course, k)
    && match ReplyAt(course, k)
       case Error(ns) =>
         Spent(course, k) + (if k < |course.commands| && ns > 5_000_000_000 then 5_000_000_000 else ns) < 10_000_000_000
       case Silence => k < |course.commands| && Spent(course, k) + 5_000_000_000 < 10_000_000_000
       case Good(ns) =>
         k < |course.commands| && ns >= 5_000_000_000 && Spent(course, k) + 5_000_000_000 < 10_000_000_000
  }

  lemma {:induction false} SpentIs(course: Course, k: nat)
    requires course.Dialled? && k <= |course.commands| + |course.pages|
    ensures Spent(course, k) == Elapsed(StepsOf(course)[..k])
  {
    hide Elapsed;
    var steps := StepsOf(course);
    if k == 0 {
      assert steps[..0] == [];
      NoneElapsed();
    } else {
      SpentIs(course, k - 1);
      assert steps[..k] == steps[..k - 1] + [steps[k - 1]];
      ElapsedMore(steps[..k - 1], steps[k - 1]);
    }
  }

  lemma NoneElapsed()
    ensures Elapsed([]) == 0
  {
  }

  lemma {:induction false} ElapsedMore(steps: seq<Step>, step: Step)
    ensures Elapsed(steps + [step]) == Elapsed(steps) + if step.reply.Good? then step.reply.ns else 0
  {
    if steps == [] {
      assert [] + [step] == [step] && [step][1..] == [];
    } else {
      assert (steps + [step])[1..] == steps[1..] + [step];
      ElapsedMore(steps[1..], step);
    }
  }

  lemma PromptIs(course: Course, k: nat)
    requires course.Dialled? && k <= |course.commands| + |course.pages|
    ensures Prompt(course, k) <==> forall i :: 0 <= i < k ==> InTime(StepsOf(course)[i])
  {
    var steps := StepsOf(course);
    assert forall i :: 0 <= i < k ==>
      steps[i].reply == ReplyAt(course, i) && (steps[i].Command? <==> i < |course.commands|);
  }

  lemma LeaksIs(course: Course, k: nat)
    requires course.Dialled? && k < |course.commands| + |course.pages|
    ensures LeaksAt(course, k) <==> FailsAt(StepsOf(course), k) && FailsEarly(StepsOf(course), k)
  {
    SpentIs(course, k);
    PromptIs(course, k);
    hide Elapsed, Spent, Prompt;
    assert StepsOf(course)[k].reply == ReplyAt(course, k);
  }

  /** The exact condition of each outcome: no connection; connected if every reply is prompt and all of them are in
      before ten seconds; failed with the client left running if it leaks at some reply; and otherwise the
      timer stops the client. */
  lemma OutcomeExact(course: Course)
    ensures course.NoDial? <==> OutcomeOf(course) == NoConnection
    ensures course.Dialled? ==>
      var n := |course.commands| + |course.pages|;
      && (OutcomeOf(course) == Connected <==> Prompt(course, n) && Spent(course, n) < 10_000_000_000)
      && (OutcomeOf(course) == FailedEarly <==> exists k: nat :: k < n && LeaksAt(course, k))
  {
    hide InTime, FailsAfter, Elapsed, LeaksAt, Prompt, Spent;
    if course.Dialled? {
      var (steps, n) := (StepsOf(course), |course.commands| + |course.pages|);
      SpentIs(course, n);
      PromptIs(course, n);
      assert steps[..n] == steps;
      forall k: nat | k < n ensures LeaksAt(course, k) <==> FailsAt(steps, k) && FailsEarly(steps, k) {
        LeaksIs(course, k);
      }
      SomeFails(steps);
      if k: nat :| FailsAt(steps, k) {
        GoFails(steps, 0, k);
        assert forall j: nat :: FailsAt(steps, j) ==> j == k;
      } else {
        GoSucceeds(steps, 0);
      }
    }
  }

  /** A target that falls silent, all replies before being prompt. At a read of the log page the timer stops the
      client. At a command it does so exactly when the command was sent in the last five seconds before the
      timer, and otherwise nobody does. */
  lemma SilenceAt(course: Course, k: nat)
    requires course.Dialled? && k < |course.commands| + |course.pages|
    requires Prompt(course, k) && ReplyAt(course, k) == Silence
    ensures OutcomeOf(course) ==
      if k < |course.commands| && Spent(course, k) + 5_000_000_000 < 10_000_000_000 then FailedEarly else TimedOut
  {
    SpentIs(course, k);
    PromptIs(course, k);
    hide Elapsed, Go, Prompt, Spent;
    GoFails(StepsOf(course), 0, k);
  }

  /** A target whose reply is an error, all replies before being prompt: the client is left running exactly when the
      error comes before the timer fires. An error that comes late to a command is a silent command. */
  lemma ErrorAt(course: Course, k: nat, ns: nat)
    requires course.Dialled? && k < |course.commands| + |course.pages|
    requires Prompt(course, k) && ReplyAt(course, k) == Error(ns)
    ensures var after := if k < |course.commands| && ns > 5_000_000_000 then 5_000_000_000 else ns;
      OutcomeOf(course) == if Spent(course, k) + after < 10_000_000_000 then FailedEarly else TimedOut
  {
    SpentIs(course, k);
    PromptIs(course, k);
    hide Elapsed, Go, Prompt, Spent;
    GoFails(StepsOf(course), 0, k);
  }

  /** A command whose good reply comes after five seconds: as if it never came. */
  lemma LateAt(course: Course, k: nat, ns: nat)
    requires course.Dialled? && k < |course.commands|
    requires Prompt(course, k) && course.commands[k] == Good(ns) && ns >= 5_000_000_000
    ensures OutcomeOf(course) == if Spent(course, k) + 5_000_000_000 < 10_000_000_000 then FailedEarly else TimedOut
  {
    SpentIs(course, k);
    PromptIs(course, k);
    hide Elapsed, Go, Prompt, Spent;
    GoFails(StepsOf(course), 0, k);
  }
}
