// test/calculate_performance.py: workers that pull requests from a shared queue, put back what
// the server failed to answer, and leave when the queue looks empty; and the progress bar that
// watches them. Each action is one statement on the shared state.

module LoadHarness {
  import opened Wrappers
  import opened Sums

  /** What `requests.post` comes back with; `Unreachable` is an exception. */
  datatype Outcome = Ok(text: string) | NoContent | OtherStatus | Unreachable

  datatype Answer = Answer(request: string, text: string)

  const NO_CONTENTS: string := "No Contents"

  /** Where a worker is in its loop, with the request it has taken off the queue. */
  datatype Worker =
    | Idle
    | Holding(data: string)
    | Posted(data: string, outcome: Outcome)
    | Flagging
    | Leaving
    | Gone

  /** The progress bar: at the top of its loop, with a count read, or finished. */
  datatype Bar = Top | Counted(count: nat) | Stopped

  datatype State = State(
    queue: seq<string>, workers: seq<Worker>, responses: seq<Answer>,
    doneThreads: nat, serverAlive: bool, bar: Bar)

  datatype Action =
    | Get(w: nat)
    | TimeOut(w: nat)
    | Post(w: nat, outcome: Outcome)
    | Settle(w: nat)
    | Flag(w: nat)
    | SignOff(w: nat)
    | BarCount
    | BarCheck

  function Init(requests: seq<string>, n: nat): State {
    State(requests, seq(n, _ => Idle), [], 0, true, Top)
  }

  predicate Enabled(s: State, a: Action) {
    match a
    case Get(w) => w < |s.workers| && s.workers[w].Idle? && s.queue != []
    case TimeOut(w) => w < |s.workers| && s.workers[w].Idle? && s.queue == []
    case Post(w, _) => w < |s.workers| && s.workers[w].Holding?
    case Settle(w) => w < |s.workers| && s.workers[w].Posted?
    case Flag(w) => w < |s.workers| && s.workers[w].Flagging?
    case SignOff(w) => w < |s.workers| && s.workers[w].Leaving?
    case BarCount => s.bar.Top?
    case BarCheck => s.bar.Counted?
  }

  /** `total` is `N_REQUEST * coff`. */
  function Apply(s: State, a: Action, total: nat): State
    requires Enabled(s, a)
  {
    match a
    case Get(w) => s.(queue := s.queue[1..], workers := s.workers[w := Holding(s.queue[0])])
    case TimeOut(w) => s.(workers := s.workers[w := Leaving])
    case Post(w, outcome) =>
      s.(workers := s.workers[w := Posted(s.workers[w].data, outcome)],
         serverAlive := s.serverAlive || !outcome.Unreachable?)
    case Settle(w) =>
      var data, idle := s.workers[w].data, s.workers[w := Idle];
      (match s.workers[w].outcome
       case Ok(text) => s.(responses := s.responses + [Answer(data, text)], workers := idle)
       case NoContent => s.(responses := s.responses + [Answer(data, NO_CONTENTS)], workers := idle)
       case OtherStatus => s.(queue := s.queue + [data], workers := idle)
       case Unreachable => s.(queue := s.queue + [data], workers := s.workers[w := Flagging]))
    case Flag(w) => s.(serverAlive := false, workers := s.workers[w := Idle])
    case SignOff(w) => s.(doneThreads := s.doneThreads + 1, workers := s.workers[w := Gone])
    case BarCount => s.(bar := Counted(|s.responses|))
    case BarCheck => s.(bar := if s.bar.count >= total || s.doneThreads >= |s.workers| then Stopped else Top)
  }

  /** The state a sequence of actions leads to, if every one of them is enabled in turn. */
  function Run(s: State, actions: seq<Action>, total: nat): Option<State> {
    if actions == [] then Some(s)
    else
      match Run(s, actions[..|actions| - 1], total)
      case None => None
      case Some(t) =>
        var last := actions[|actions| - 1];
        if Enabled(t, last) then Some(Apply(t, last, total)) else None
  }

  // ---------- conservation ----------

  /** The requests that have been answered. */
  function Answered(responses: seq<Answer>): (requests: seq<string>)
    ensures |requests| == |responses|
  {
    seq(|responses|, i requires 0 <= i < |responses| => responses[i].request)
  }

  // Numbers kept per worker: copies of a request in its hands, whether it is gone, and how many
  // steps it may still take.

  function InHand(request: string): Worker -> int {
    (w: Worker) => if (w.Holding? || w.Posted?) && w.data == request then 1 else 0
  }

  function GoneCount(w: Worker): int {
    if w.Gone? then 1 else 0
  }

  function StepsLeft(w: Worker): int {
    match w
    case Idle => 2
    case Holding(_) => 4
    case Posted(_, outcome) =>
      (match outcome case Ok(_) => 3 case NoContent => 3 case OtherStatus => 6 case Unreachable => 7)
    case Flagging => 3
    case Leaving => 1
    case Gone => 0
  }

  /** Every worker has seen the queue empty. */
  predicate AllOut(s: State) {
    forall w :: 0 <= w < |s.workers| ==> s.workers[w].Leaving? || s.workers[w].Gone?
  }

  /** How often a request is queued, in a worker's hands or answered. */
  function Copies(x: string, s: State): int {
    multiset(s.queue)[x] + Sum(InHand(x), s.workers) + multiset(Answered(s.responses))[x]
  }

  /** As often as it was sent. */
  ghost predicate Conserved(s: State, requests: seq<string>) {
    forall x :: Copies(x, s) == multiset(requests)[x]
  }

  ghost predicate Inv(s: State, requests: seq<string>, n: nat) {
    && |s.workers| == n && Conserved(s, requests)
    && s.doneThreads == Sum(GoneCount, s.workers)
    && (AllOut(s) ==> s.queue == [])
    && (s.bar.Counted? ==> s.bar.count <= |s.responses|)
    && (s.bar.Stopped? ==> |s.responses| == |requests|)
  }

  lemma InitInv(requests: seq<string>, n: nat)
    requires n > 0 || requests == []
    ensures Inv(Init(requests, n), requests, n)
  {
    var s := Init(requests, n);
    forall x ensures Copies(x, s) == multiset(requests)[x] {
      SumAtMost(InHand(x), s.workers, 0);
    }
    SumAtMost(GoneCount, s.workers, 0);
    assert n > 0 ==> s.workers[0].Idle?;
  }

  /** What is queued or answered is within what was sent. */
  lemma AtMostOnce(s: State, requests: seq<string>)
    requires Conserved(s, requests)
    ensures multiset(s.queue) + multiset(Answered(s.responses)) <= multiset(requests)
    ensures |s.queue| + |s.responses| <= |requests|
  {
    var out := multiset(s.queue) + multiset(Answered(s.responses));
    forall x ensures out[x] <= multiset(requests)[x] {
      SumAtLeast(InHand(x), s.workers);
      assert Copies(x, s) == multiset(requests)[x];
    }
    assert multiset(requests) == out + (multiset(requests) - out);
    assert |out| == |multiset(s.queue)| + |multiset(Answered(s.responses))|;
  }

  /** Once every worker is out, nothing is queued, nothing is held, and each request has been
      answered exactly once. */
  lemma AllAnswered(s: State, requests: seq<string>, n: nat)
    requires Inv(s, requests, n) && AllOut(s)
    ensures s.queue == [] && multiset(Answered(s.responses)) == multiset(requests) && |s.responses| == |requests|
  {
    forall x ensures multiset(Answered(s.responses))[x] == multiset(requests)[x] {
      SumAtMost(InHand(x), s.workers, 0);
      assert Copies(x, s) == multiset(requests)[x];
    }
    assert multiset(Answered(s.responses)) == multiset(requests);
    assert |multiset(Answered(s.responses))| == |multiset(requests)|;
  }

  /** Only one worker, the queue and the answers move; what one loses another gains. */
  lemma CopiesMove(x: string, s: State, t: State, w: nat)
    requires w < |s.workers| == |t.workers| && t.workers == s.workers[w := t.workers[w]]
    requires multiset(t.queue)[x] + InHand(x)(t.workers[w]) + multiset(Answered(t.responses))[x] ==
      multiset(s.queue)[x] + InHand(x)(s.workers[w]) + multiset(Answered(s.responses))[x]
    ensures Copies(x, t) == Copies(x, s)
  {
    SumReplaced(InHand(x), s.workers, w, t.workers[w]);
  }

  lemma CopiesKeptByAnswer(x: string, s: State, t: State, w: nat, text: string)
    requires w < |s.workers| && s.workers[w].Posted? && t.workers == s.workers[w := Idle] && t.queue == s.queue
    requires t.responses == s.responses + [Answer(s.workers[w].data, text)]
    ensures Copies(x, t) == Copies(x, s)
  {
    assert Answered(t.responses) == Answered(s.responses) + [s.workers[w].data];
    CopiesMove(x, s, t, w);
  }

  lemma CopiesKeptByRequeue(x: string, s: State, t: State, w: nat)
    requires w < |s.workers| == |t.workers| && s.workers[w].Posted? && t.workers == s.workers[w := t.workers[w]]
    requires t.workers[w].Idle? || t.workers[w].Flagging?
    requires t.queue == s.queue + [s.workers[w].data] && t.responses == s.responses
    ensures Copies(x, t) == Copies(x, s)
  {
    CopiesMove(x, s, t, w);
  }

  lemma CopiesStep(x: string, s: State, a: Action, total: nat)
    requires Enabled(s, a)
    ensures Copies(x, Apply(s, a, total)) == Copies(x, s)
  {
    var t := Apply(s, a, total);
    match a
    case Get(w) =>
      assert s.queue == [s.queue[0]] + t.queue;
      CopiesMove(x, s, t, w);
    case Settle(w) =>
      match s.workers[w].outcome {
        case Ok(text) => CopiesKeptByAnswer(x, s, t, w, text);
        case NoContent => CopiesKeptByAnswer(x, s, t, w, NO_CONTENTS);
        case _ => CopiesKeptByRequeue(x, s, t, w);
      }
    case TimeOut(w) => CopiesMove(x, s, t, w);
    case Post(w, _) => CopiesMove(x, s, t, w);
    case Flag(w) => CopiesMove(x, s, t, w);
    case SignOff(w) => CopiesMove(x, s, t, w);
    case BarCount =>
    case BarCheck =>
  }

  /** A worker that puts a request back is not out, so a non-empty queue always has somebody
      left to serve it. */
  lemma SomebodyLeft(s: State, a: Action, total: nat)
    requires AllOut(s) ==> s.queue == []
    requires Enabled(s, a) && AllOut(Apply(s, a, total))
    ensures Apply(s, a, total).queue == []
  {
    var t := Apply(s, a, total);
    if a.TimeOut? {
    } else if a.SignOff? {
      forall w | 0 <= w < |s.workers| ensures s.workers[w].Leaving? || s.workers[w].Gone? {
        assert t.workers[w].Leaving? || t.workers[w].Gone?;
      }
    } else if a.BarCount? || a.BarCheck? {
      assert t.workers == s.workers;
    } else {
      assert !t.workers[a.w].Leaving? && !t.workers[a.w].Gone?;
    }
  }

  lemma GoneStep(s: State, a: Action, total: nat)
    requires Enabled(s, a) && s.doneThreads == Sum(GoneCount, s.workers)
    ensures Apply(s, a, total).doneThreads == Sum(GoneCount, Apply(s, a, total).workers)
  {
    if !a.BarCount? && !a.BarCheck? {
      SumReplaced(GoneCount, s.workers, a.w, Apply(s, a, total).workers[a.w]);
    }
  }

  lemma BarStep(s: State, a: Action, requests: seq<string>, n: nat)
    requires Inv(s, requests, n) && Enabled(s, a)
    ensures var t := Apply(s, a, |requests|);
      && (t.bar.Counted? ==> t.bar.count <= |t.responses|)
      && (t.bar.Stopped? ==> |t.responses| == |requests|)
  {
    AtMostOnce(s, requests);
    if a.BarCheck? {
      SumAtMost(GoneCount, s.workers, 1);
      if s.doneThreads >= |s.workers| {
        AllAnswered(s, requests, n);
      }
    } else if a.Settle? {
      forall x ensures Copies(x, Apply(s, a, |requests|)) == multiset(requests)[x] {
        CopiesStep(x, s, a, |requests|);
      }
      AtMostOnce(Apply(s, a, |requests|), requests);
    }
  }

  /** At the bottom of its loop the bar stops exactly if the count it read is the number of requests,
      or every worker is gone; otherwise it goes round. */
  lemma BarCheckExactly(s: State, requests: seq<string>, n: nat)
    requires Inv(s, requests, n) && s.bar.Counted?
    ensures var t := Apply(s, BarCheck, |requests|);
      && (t.bar.Stopped? <==> s.bar.count == |requests| || forall w :: 0 <= w < n ==> s.workers[w].Gone?)
      && (t.bar.Stopped? || t.bar.Top?)
  {
    AtMostOnce(s, requests);
    SumAtMost(GoneCount, s.workers, 1);
    assert forall w :: 0 <= w < n ==> (GoneCount(s.workers[w]) == 1 <==> s.workers[w].Gone?);
  }

  lemma InvStep(s: State, a: Action, requests: seq<string>, n: nat)
    requires Inv(s, requests, n) && Enabled(s, a)
    ensures Inv(Apply(s, a, |requests|), requests, n)
  {
    forall x ensures Copies(x, Apply(s, a, |requests|)) == multiset(requests)[x] {
      CopiesStep(x, s, a, |requests|);
    }
    GoneStep(s, a, |requests|);
    BarStep(s, a, requests, n);
    if AllOut(Apply(s, a, |requests|)) {
      SomebodyLeft(s, a, |requests|);
    }
  }

  /** Once everything is answered, or every worker is gone, one round of the bar stops it. */
  lemma BarRoundStops(s: State, requests: seq<string>, n: nat)
    requires Inv(s, requests, n) && s.bar.Top?
    requires |s.responses| == |requests| || forall w :: 0 <= w < n ==> s.workers[w].Gone?
    ensures var t := Apply(s, BarCount, |requests|); Enabled(t, BarCheck) && Apply(t, BarCheck, |requests|).bar.Stopped?
  {
    InvStep(s, BarCount, requests, n);
    BarCheckExactly(Apply(s, BarCount, |requests|), requests, n);
  }

  /** In every run of one or more workers. */
  lemma {:induction false} RunInv(requests: seq<string>, n: nat, actions: seq<Action>)
    requires n > 0 || requests == []
    ensures var r := Run(Init(requests, n), actions, |requests|); r.Some? ==> Inv(r.value, requests, n)
  {
    if actions == [] {
      InitInv(requests, n);
    } else {
      RunInv(requests, n, actions[..|actions| - 1]);
      var r := Run(Init(requests, n), actions[..|actions| - 1], |requests|);
      if r.Some? && Enabled(r.value, actions[|actions| - 1]) {
        InvStep(r.value, actions[|actions| - 1], requests, n);
      }
    }
  }

  /** All workers have left, or the progress bar has stopped. */
  predicate Over(s: State) {
    s.doneThreads == |s.workers| || s.bar.Stopped?
  }

  /** Both ways out mean the work is done: when all workers have left, and when the progress
      bar has stopped, each request has been answered exactly once. */
  lemma OverMeansAnswered(s: State, requests: seq<string>, n: nat)
    requires Inv(s, requests, n) && Over(s)
    ensures s.queue == [] && multiset(Answered(s.responses)) == multiset(requests)
  {
    SumAtMost(GoneCount, s.workers, 1);
    if s.doneThreads == n {
      AllAnswered(s, requests, n);
    } else {
      AtMostOnce(s, requests);
      var rest := multiset(requests) - multiset(Answered(s.responses));
      assert multiset(requests) == multiset(Answered(s.responses)) + rest;
      assert |rest| == 0;
    }
  }

  /** No run loses or duplicates a request, at any moment or in the end. */
  lemma NothingLost(requests: seq<string>, n: nat, actions: seq<Action>, s: State)
    requires (n > 0 || requests == []) && Run(Init(requests, n), actions, |requests|) == Some(s)
    ensures Conserved(s, requests)
    ensures Over(s) ==> s.queue == [] && multiset(Answered(s.responses)) == multiset(requests)
  {
    RunInv(requests, n, actions);
    if Over(s) {
      OverMeansAnswered(s, requests, n);
    }
  }

  // ---------- termination ----------

  predicate Failing(a: Action) {
    a.Post? && (a.outcome.OtherStatus? || a.outcome.Unreachable?)
  }

  function Failures(actions: seq<Action>): nat {
    if actions == [] then 0
    else Failures(actions[..|actions| - 1]) + if Failing(actions[|actions| - 1]) then 1 else 0
  }

  function WorkerActions(actions: seq<Action>): nat {
    if actions == [] then 0
    else
      var last := actions[|actions| - 1];
      WorkerActions(actions[..|actions| - 1]) + if last.BarCount? || last.BarCheck? then 0 else 1
  }

  function Work(s: State): int {
    3 * |s.queue| + Sum(StepsLeft, s.workers)
  }

  lemma WorkDecreases(s: State, a: Action, total: nat)
    requires Enabled(s, a)
    ensures var t := Apply(s, a, total);
      if a.BarCount? || a.BarCheck? then Work(t) == Work(s)
      else Work(t) + 1 <= Work(s) + if Failing(a) then 4 else 0
  {
    if !a.BarCount? && !a.BarCheck? {
      SumReplaced(StepsLeft, s.workers, a.w, Apply(s, a, total).workers[a.w]);
    }
  }

  lemma WorkNonNegative(s: State)
    ensures Work(s) >= 0
  {
    SumAtLeast(StepsLeft, s.workers);
  }

  lemma {:induction false} WorkOfRun(requests: seq<string>, n: nat, actions: seq<Action>, s: State)
    requires Run(Init(requests, n), actions, |requests|) == Some(s)
    ensures WorkerActions(actions) + Work(s) <= 3 * |requests| + 2 * n + 4 * Failures(actions)
  {
    if actions == [] {
      SumAtMost(StepsLeft, s.workers, 2);
    } else {
      var before := actions[..|actions| - 1];
      var t := Run(Init(requests, n), before, |requests|).value;
      WorkOfRun(requests, n, before, t);
      WorkDecreases(t, actions[|actions| - 1], |requests|);
    }
  }

  /** The workers' steps are bounded by the requests, the workers and the failures met. */
  lemma RunsAreBounded(requests: seq<string>, n: nat, actions: seq<Action>)
    requires Run(Init(requests, n), actions, |requests|).Some?
    ensures WorkerActions(actions) <= 3 * |requests| + 2 * n + 4 * Failures(actions)
  {
    var s := Run(Init(requests, n), actions, |requests|).value;
    WorkNonNegative(s);
    WorkOfRun(requests, n, actions, s);
  }

  /** The action a worker that has not left can take. */
  function NextOf(s: State, w: nat): Action
    requires w < |s.workers|
  {
    match s.workers[w]
    case Idle => if s.queue != [] then Get(w) else TimeOut(w)
    case Holding(_) => Post(w, NoContent)
    case Posted(_, _) => Settle(w)
    case Flagging => Flag(w)
    case Leaving => SignOff(w)
    case Gone => BarCount
  }

  /** Until all workers are gone some worker can step, failing or not: no deadlock. */
  lemma Progress(s: State)
    requires exists w :: 0 <= w < |s.workers| && !s.workers[w].Gone?
    ensures exists a :: Enabled(s, a) && !a.BarCount? && !a.BarCheck?
  {
    var w :| 0 <= w < |s.workers| && !s.workers[w].Gone?;
    assert Enabled(s, NextOf(s, w));
  }

  lemma BarStopsAtOnce(requests: seq<string>)
    ensures Run(Init(requests, 0), [BarCount, BarCheck], |requests|)
      == Some(Init(requests, 0).(bar := Stopped))
  {
    var s := Init(requests, 0);
    assert [BarCount, BarCheck][..1] == [BarCount];
    assert [BarCount][..0] == [];
    assert Run(s, [BarCount], |requests|) == Some(s.(bar := Counted(0)));
  }

  /** If the run is over, everything is answered. */
  predicate AnsweredWhenOver(requests: seq<string>, n: nat, actions: seq<Action>) {
    match Run(Init(requests, n), actions, |requests|)
    case None => true
    case Some(s) => Over(s) ==> multiset(Answered(s.responses)) == multiset(requests)
  }

  lemma NobodyAnswers(requests: seq<string>)
    requires requests != []
    ensures !AnsweredWhenOver(requests, 0, [BarCount, BarCheck])
  {
    BarStopsAtOnce(requests);
    assert requests[0] in multiset(requests);
    assert Answered([]) == [];
  }

  /** Every run that is over has answered everything exactly when there is somebody to do it or
      nothing to do. */
  lemma AnsweredExactly(requests: seq<string>, n: nat)
    ensures n > 0 || requests == [] <==> forall actions :: AnsweredWhenOver(requests, n, actions)
  {
    if n > 0 || requests == [] {
      forall actions ensures AnsweredWhenOver(requests, n, actions) {
        var r := Run(Init(requests, n), actions, |requests|);
        if r.Some? {
          NothingLost(requests, n, actions, r.value);
        }
      }
    } else {
      NobodyAnswers(requests);
    }
  }

  /** From every reachable state the pool can go on to its end: every worker gone, the bar stopped. */
  lemma {:induction false} CanFinish(requests: seq<string>, n: nat, actions: seq<Action>, s: State)
    returns (all: seq<Action>, t: State)
    requires n > 0 || requests == []
    requires Run(Init(requests, n), actions, |requests|) == Some(s)
    ensures actions <= all && Run(Init(requests, n), all, |requests|) == Some(t)
    ensures t.bar.Stopped? && forall w :: 0 <= w < |t.workers| ==> t.workers[w].Gone?
    decreases Work(s), if s.bar.Top? then 2 else if s.bar.Counted? then 1 else 0
  {
    RunInv(requests, n, actions);
    WorkNonNegative(s);
    if w :| 0 <= w < |s.workers| && !s.workers[w].Gone? {
      var a := NextOf(s, w);
      WorkDecreases(s, a, |requests|);
      assert (actions + [a])[..|actions|] == actions;
      all, t := CanFinish(requests, n, actions + [a], Apply(s, a, |requests|));
    } else if s.bar.Stopped? {
      all, t := actions, s;
    } else {
      if s.bar.Counted? {
        BarCheckExactly(s, requests, n);
      }
      var a := if s.bar.Top? then BarCount else BarCheck;
      assert (actions + [a])[..|actions|] == actions;
      all, t := CanFinish(requests, n, actions + [a], Apply(s, a, |requests|));
    }
  }

  // ---------- what the comparison of checksums relies on ----------

  /** The text appended for an outcome, if one is. */
  function TextOf(outcome: Outcome): Option<string> {
    match outcome
    case Ok(text) => Some(text)
    case NoContent => Some(NO_CONTENTS)
    case _ => None
  }

  /** Whenever a post in the run is answered, it is answered as `reply` says. */
  predicate AnswersBy(reply: string -> string, s: State, a: Action) {
    a.Post? && a.w < |s.workers| && s.workers[a.w].Holding? && TextOf(a.outcome).Some? ==>
      TextOf(a.outcome).value == reply(s.workers[a.w].data)
  }

  predicate RunAnswersBy(reply: string -> string, s: State, actions: seq<Action>, total: nat) {
    forall i | 0 <= i < |actions| && Run(s, actions[..i], total).Some? ::
      AnswersBy(reply, Run(s, actions[..i], total).value, actions[i])
  }

  /** Every answer, given or still in a worker's hands, is the reply to its request. */
  ghost predicate Replied(reply: string -> string, s: State) {
    && (forall i :: 0 <= i < |s.responses| ==> s.responses[i].text == reply(s.responses[i].request))
    && forall w :: 0 <= w < |s.workers| && s.workers[w].Posted? && TextOf(s.workers[w].outcome).Some? ==>
      TextOf(s.workers[w].outcome).value == reply(s.workers[w].data)
  }

  lemma RepliedStep(reply: string -> string, s: State, a: Action, total: nat)
    requires Replied(reply, s) && Enabled(s, a) && AnswersBy(reply, s, a)
    ensures Replied(reply, Apply(s, a, total))
  {
  }

  lemma {:induction false} RepliedRun(
    reply: string -> string, requests: seq<string>, n: nat, actions: seq<Action>, s: State)
    requires Run(Init(requests, n), actions, |requests|) == Some(s)
    requires RunAnswersBy(reply, Init(requests, n), actions, |requests|)
    ensures Replied(reply, s)
  {
    if actions != [] {
      var k := |actions| - 1;
      var before := actions[..k];
      forall i | 0 <= i < k ensures before[..i] == actions[..i] {}
      var t := Run(Init(requests, n), before, |requests|).value;
      RepliedRun(reply, requests, n, before, t);
      assert AnswersBy(reply, t, actions[k]);
      RepliedStep(reply, t, actions[k], |requests|);
    }
  }

  function RepliesTo(reply: string -> string, requests: seq<string>): (answers: seq<Answer>)
    ensures |answers| == |requests|
  {
    seq(|requests|, i requires 0 <= i < |requests| => Answer(requests[i], reply(requests[i])))
  }

  lemma {:induction false} CountReplies(reply: string -> string, requests: seq<string>, a: Answer)
    ensures multiset(RepliesTo(reply, requests))[a] ==
      if a.text == reply(a.request) then multiset(requests)[a.request] else 0
  {
    if requests != [] {
      var rest, last := requests[..|requests| - 1], requests[|requests| - 1];
      CountReplies(reply, rest, a);
      assert requests == rest + [last];
      assert RepliesTo(reply, requests) == RepliesTo(reply, rest) + [Answer(last, reply(last))];
    }
  }

  /** The order of the requests does not show in the replies. */
  lemma SameReplies(reply: string -> string, s: seq<string>, t: seq<string>)
    requires multiset(s) == multiset(t)
    ensures multiset(RepliesTo(reply, s)) == multiset(RepliesTo(reply, t))
  {
    forall a ensures multiset(RepliesTo(reply, s))[a] == multiset(RepliesTo(reply, t))[a] {
      CountReplies(reply, s, a);
      CountReplies(reply, t, a);
    }
  }

  /** The answers of a run that is over are the replies to the requests, each once, whatever the
      schedule, the number of workers and the failures on the way. */
  lemma AnswersAreReplies(reply: string -> string, requests: seq<string>, n: nat, actions: seq<Action>, s: State)
    requires (n > 0 || requests == []) && Run(Init(requests, n), actions, |requests|) == Some(s) && Over(s)
    requires RunAnswersBy(reply, Init(requests, n), actions, |requests|)
    ensures multiset(s.responses) == multiset(RepliesTo(reply, requests))
  {
    NothingLost(requests, n, actions, s);
    RepliedRun(reply, requests, n, actions, s);
    assert s.responses == RepliesTo(reply, Answered(s.responses));
    SameReplies(reply, Answered(s.responses), requests);
  }

  lemma SettledOnce(s: State, w: nat, total: nat)
    requires w < |s.workers| && s.workers[w].Posted?
    ensures var t := Apply(s, Settle(w), total);
      && multiset(t.queue) + multiset(Answered(t.responses)) ==
        multiset(s.queue) + multiset(Answered(s.responses)) + multiset{s.workers[w].data}
      && (TextOf(s.workers[w].outcome).Some? <==> |t.responses| == |s.responses| + 1)
  {
    var t := Apply(s, Settle(w), total);
    if TextOf(s.workers[w].outcome).Some? {
      assert Answered(t.responses) == Answered(s.responses) + [s.workers[w].data];
    }
  }

  // ---------- the flag of a dead server ----------

  /** What was last learnt: a post that came back, or one that raised and was noted. */
  function LastSign(actions: seq<Action>): bool {
    if actions == [] then true
    else
      match actions[|actions| - 1]
      case Post(_, outcome) => !outcome.Unreachable? || LastSign(actions[..|actions| - 1])
      case Flag(_) => false
      case _ => LastSign(actions[..|actions| - 1])
  }

  lemma {:induction false} AliveIsLastSign(requests: seq<string>, n: nat, actions: seq<Action>, s: State)
    requires Run(Init(requests, n), actions, |requests|) == Some(s)
    ensures s.serverAlive == LastSign(actions)
  {
    if actions != [] {
      var before := actions[..|actions| - 1];
      AliveIsLastSign(requests, n, before, Run(Init(requests, n), before, |requests|).value);
    }
  }

  /** What a schedule leads to, in which whatever is not enabled waits. */
  function Play(s: State, schedule: seq<Action>, total: nat): State {
    if schedule == [] then s
    else
      var t, last := Play(s, schedule[..|schedule| - 1], total), schedule[|schedule| - 1];
      if Enabled(t, last) then Apply(t, last, total) else t
  }

  // ---------- the shared variables and the statements that change them ----------

  class Harness {
    var queue: seq<string>
    var workers: seq<Worker>
    var responses: seq<Answer>
    var doneThreads: nat
    var serverAlive: bool
    var bar: Bar
    const total: nat
    ghost const requests: seq<string>

    ghost function Snapshot(): State
      reads this
    {
      State(queue, workers, responses, doneThreads, serverAlive, bar)
    }

    ghost predicate Valid()
      reads this
    {
      total == |requests| && Inv(Snapshot(), requests, |workers|)
    }

    constructor (requests: seq<string>, n: nat)
      requires n > 0 || requests == []
      ensures this.requests == requests && Valid() && Snapshot() == Init(requests, n)
    {
      queue, responses, doneThreads, serverAlive, bar := requests, [], 0, true, Top;
      workers := seq(n, _ => Idle);
      total := |requests|;
      this.requests := requests;
      new;
      InitInv(requests, n);
    }

    /** `que.get(timeout=0.1)`, in time or too late. */
    method TakeRequest(w: nat)
      requires Valid() && w < |workers| && workers[w].Idle?
      modifies this
      ensures Valid() && Snapshot() == Apply(old(Snapshot()), if old(queue) != [] then Get(w) else TimeOut(w), total)
      ensures workers[w].Holding? ==> old(queue) == [workers[w].data] + queue
      ensures !workers[w].Holding? ==> old(queue) == queue == [] && workers[w].Leaving?
    {
      ghost var s := Snapshot();
      ghost var a := if queue != [] then Get(w) else TimeOut(w);
      InvStep(s, a, requests, |workers|);
      if queue != [] {
        workers := workers[w := Holding(queue[0])];
        queue := queue[1..];
      } else {
        workers := workers[w := Leaving];
      }
      assert Snapshot() == Apply(s, a, total);
    }

    /** `requests.post`, and `server_alive = True` when it returns. */
    method PostRequest(w: nat, outcome: Outcome)
      requires Valid() && w < |workers| && workers[w].Holding?
      modifies this
      ensures Valid() && Snapshot() == Apply(old(Snapshot()), Post(w, outcome), total)
      ensures serverAlive == (old(serverAlive) || outcome != Unreachable)
      ensures workers[w] == Posted(old(workers[w].data), outcome)
    {
      InvStep(Snapshot(), Post(w, outcome), requests, |workers|);
      workers := workers[w := Posted(workers[w].data, outcome)];
      if !outcome.Unreachable? {
        serverAlive := true;
      }
    }

    /** Appends the answer, or puts the request back: one of the two, and once. */
    method SettleReply(w: nat)
      requires Valid() && w < |workers| && workers[w].Posted?
      modifies this
      ensures Valid() && Snapshot() == Apply(old(Snapshot()), Settle(w), total)
      ensures multiset(queue) + multiset(Answered(responses)) ==
        multiset(old(queue)) + multiset(Answered(old(responses))) + multiset{old(workers[w].data)}
      ensures match TextOf(old(workers[w].outcome))
        case Some(text) => queue == old(queue) && responses == old(responses) + [Answer(old(workers[w].data), text)]
        case None => queue == old(queue) + [old(workers[w].data)] && responses == old(responses)
    {
      ghost var s := Snapshot();
      InvStep(s, Settle(w), requests, |workers|);
      SettledOnce(s, w, total);
      var data := workers[w].data;
      match workers[w].outcome {
        case Ok(text) =>
          responses := responses + [Answer(data, text)];
          workers := workers[w := Idle];
        case NoContent =>
          responses := responses + [Answer(data, NO_CONTENTS)];
          workers := workers[w := Idle];
        case OtherStatus =>
          queue := queue + [data];
          workers := workers[w := Idle];
        case Unreachable =>
          queue := queue + [data];
          workers := workers[w := Flagging];
      }
      assert Snapshot() == Apply(s, Settle(w), total);
    }

    /** `server_alive = False`. */
    method FlagServer(w: nat)
      requires Valid() && w < |workers| && workers[w].Flagging?
      modifies this
      ensures Valid() && Snapshot() == Apply(old(Snapshot()), Flag(w), total) && !serverAlive
    {
      InvStep(Snapshot(), Flag(w), requests, |workers|);
      serverAlive := false;
      workers := workers[w := Idle];
    }

    /** `done_threads += 1` under the lock, and out of the loop; with the last worker out, every
        request has been answered. */
    method LeaveLoop(w: nat)
      requires Valid() && w < |workers| && workers[w].Leaving?
      modifies this
      ensures Valid() && Snapshot() == Apply(old(Snapshot()), SignOff(w), total)
      ensures doneThreads == |workers| ==> queue == [] && multiset(Answered(responses)) == multiset(requests)
    {
      InvStep(Snapshot(), SignOff(w), requests, |workers|);
      doneThreads := doneThreads + 1;
      workers := workers[w := Gone];
      if doneThreads == |workers| {
        OverMeansAnswered(Snapshot(), requests, |workers|);
      }
    }

    /** The bar reads the count at the top of its loop and tests it at the bottom; it stops on
        nothing less than an answer to every request. */
    method WatchProgress()
      requires Valid() && !bar.Stopped?
      modifies this
      ensures Valid() && Snapshot() == Apply(old(Snapshot()), if old(bar).Top? then BarCount else BarCheck, total)
      ensures bar.Stopped? ==> queue == [] && multiset(Answered(responses)) == multiset(requests)
      ensures old(bar).Top? ==> bar == Counted(|responses|)
      ensures old(bar).Counted? ==>
        (bar.Stopped? <==> old(bar).count == total || forall w :: 0 <= w < |workers| ==> workers[w].Gone?)
    {
      if bar.Counted? {
        BarCheckExactly(Snapshot(), requests, |workers|);
      }
      InvStep(Snapshot(), if bar.Top? then BarCount else BarCheck, requests, |workers|);
      if bar.Top? {
        bar := Counted(|responses|);
      } else {
        bar := if bar.count >= total || doneThreads >= |workers| then Stopped else Top;
      }
      if bar.Stopped? {
        OverMeansAnswered(Snapshot(), requests, |workers|);
      }
    }

    method Perform(a: Action)
      requires Valid() && Enabled(Snapshot(), a)
      modifies this
      ensures Valid() && Snapshot() == Apply(old(Snapshot()), a, total)
    {
      match a
      case Get(w) => TakeRequest(w);
      case TimeOut(w) => TakeRequest(w);
      case Post(w, outcome) => PostRequest(w, outcome);
      case Settle(w) => SettleReply(w);
      case Flag(w) => FlagServer(w);
      case SignOff(w) => LeaveLoop(w);
      case BarCount => WatchProgress();
      case BarCheck => WatchProgress();
    }
  }

  /** Any schedule, whatever the server answers: if it lets the bar stop or every worker leave,
      each request has exactly one answer. */
  method Interleave(requests: seq<string>, n: nat, schedule: seq<Action>) returns (answers: seq<Answer>, over: bool)
    requires n > 0 || requests == []
    ensures multiset(Answered(answers)) <= multiset(requests)
    ensures over ==> multiset(Answered(answers)) == multiset(requests)
    ensures var s := Play(Init(requests, n), schedule, |requests|); answers == s.responses && over == Over(s)
  {
    var h := new Harness(requests, n);
    for i := 0 to |schedule|
      invariant h.requests == requests && h.Valid()
      invariant h.Snapshot() == Play(Init(requests, n), schedule[..i], |requests|)
    {
      assert schedule[..i + 1][..i] == schedule[..i];
      var enabled := Enabled(State(h.queue, h.workers, h.responses, h.doneThreads, h.serverAlive, h.bar), schedule[i]);
      if enabled {
        h.Perform(schedule[i]);
      }
    }
    assert schedule[..|schedule|] == schedule;
    answers := h.responses;
    over := h.bar.Stopped? || h.doneThreads == |h.workers|;
    AtMostOnce(h.Snapshot(), requests);
    if over {
      OverMeansAnswered(h.Snapshot(), requests, |h.workers|);
    }
  }
}
