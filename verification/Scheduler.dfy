/** The cooperative per-lane scheduler (nub-arch-x86 `task.rs`).

    What a task does when polled is up to the environment: a run takes the list
    of answers its polls get, so statements over all lists are statements over
    all task behaviours. */
module Scheduler {
  import opened Prelude

  const ERR_TASK_BOOKKEEPING: nat := 74

  datatype Poll<T, O> = Pending(task: T) | Finished(outcome: O) | Broke(code: nat)

  datatype Sched<T, O> = Sched(nextId: nat, tasks: map<nat, T>, completed: map<nat, O>, ready: seq<nat>)

  function New<T, O>(): Sched<T, O> {
    Sched(0, map[], map[], [])
  }

  /** `submit_invoke`: the id is used up even if no task can be built. */
  function Submit<T, O>(s: Sched<T, O>, built: Option<T>): Sched<T, O> {
    match built
    case None => s.(nextId := s.nextId + 1)
    case Some(t) => Sched(s.nextId + 1, s.tasks[s.nextId := t], s.completed, s.ready + [s.nextId])
  }

  /** One answered poll of whichever task is at the head of the ready queue. */
  function PollFront<T, O>(s: Sched<T, O>, answer: Poll<T, O>): Sched<T, O>
    requires s.ready != []
  {
    var id, rest := s.ready[0], s.ready[1..];
    match answer
    case Pending(t) => s.(tasks := s.tasks[id := t], ready := rest + [id])
    case Finished(o) => s.(tasks := s.tasks - {id}, completed := s.completed[id := o], ready := rest)
    case Broke(_) => s.(tasks := s.tasks - {id}, ready := rest)
  }

  function Take<T, O>(s: Sched<T, O>, id: nat): Sched<T, O> {
    s.(completed := s.completed - {id})
  }

  // ---- Integrity ------------------------------------------------------------

  /** The ready queue lists exactly the resident tasks, each once. */
  ghost predicate QueueOk<T, O>(s: Sched<T, O>) {
    NoDuplicates(s.ready) && forall id: nat :: id in s.ready <==> id in s.tasks
  }

  /** Every id handed out is resident, completed, delivered or failed, and only
      one of these. */
  ghost predicate Accounted<T, O>(s: Sched<T, O>, delivered: set<nat>, failed: set<nat>) {
    && s.tasks.Keys !! s.completed.Keys !! delivered !! failed
    && forall id: nat :: id < s.nextId <==> id in s.tasks || id in s.completed || id in delivered || id in failed
  }

  ghost predicate Inv<T, O>(s: Sched<T, O>, delivered: set<nat>, failed: set<nat>) {
    QueueOk(s) && Accounted(s, delivered, failed)
  }

  lemma NewInv<T, O>()
    ensures Inv<T, O>(New(), {}, {})
  {
  }

  lemma SubmitKeeps<T, O>(s: Sched<T, O>, built: Option<T>, delivered: set<nat>, failed: set<nat>)
    requires Inv(s, delivered, failed)
    ensures built.Some? ==> Inv(Submit(s, built), delivered, failed) && s.nextId in Submit(s, built).tasks
    ensures built.None? ==> Inv(Submit(s, built), delivered, failed + {s.nextId})
  {
  }

  lemma HeadUnique(q: seq<nat>)
    requires NoDuplicates(q) && q != []
    ensures q[0] !in q[1..] && NoDuplicates(q[1..]) && q == [q[0]] + q[1..]
    ensures forall x :: x in q <==> x == q[0] || x in q[1..]
  {
    assert q == [q[0]] + q[1..];
  }

  lemma PollQueue<T, O>(s: Sched<T, O>, answer: Poll<T, O>)
    requires QueueOk(s) && s.ready != []
    ensures QueueOk(PollFront(s, answer))
  {
    HeadUnique(s.ready);
  }

  lemma HeadResident<T, O>(s: Sched<T, O>)
    requires QueueOk(s) && s.ready != []
    ensures s.ready[0] in s.tasks
  {
    assert s.ready[0] in s.ready;
  }

  lemma PollKeeps<T, O>(s: Sched<T, O>, answer: Poll<T, O>, delivered: set<nat>, failed: set<nat>)
    requires Inv(s, delivered, failed) && s.ready != []
    ensures s.ready[0] in s.tasks
    ensures Inv(PollFront(s, answer), delivered, if answer.Broke? then failed + {s.ready[0]} else failed)
  {
    HeadResident(s);
    PollQueue(s, answer);
    hide QueueOk;
  }

  lemma TakeKeeps<T, O>(s: Sched<T, O>, id: nat, delivered: set<nat>, failed: set<nat>)
    requires Inv(s, delivered, failed) && id in s.completed
    ensures Inv(Take(s, id), delivered + {id}, failed)
  {
  }

  // ---- run_until_result -----------------------------------------------------

  /** How a call ends: with the outcome, with the polled task's error, with an
      empty ready queue, with a queued id that is not resident, or still running
      when the answers run out. */
  datatype Ended<T, O> =
    | Got(s: Sched<T, O>, outcome: O)
    | TaskError(s: Sched<T, O>, id: nat, code: nat)
    | Exhausted(s: Sched<T, O>)
    | Lost(s: Sched<T, O>)
    | Waiting(s: Sched<T, O>)

  function Loop<T, O>(s: Sched<T, O>, target: nat, answers: seq<Poll<T, O>>): Ended<T, O>
    decreases |answers|, 0
  {
    if s.ready == [] then Exhausted(s)
    else if s.ready[0] !in s.tasks then Lost(s.(ready := s.ready[1..]))
    else if answers == [] then Waiting(s)
    else
      var id, s' := s.ready[0], PollFront(s, answers[0]);
      match answers[0]
      case Broke(code) => TaskError(s', id, code)
      case Finished(o) =>
        if id == target then Got(Take(s', id), o) else Resume(s', target, answers[1..])
      case Pending(_) => Resume(s', target, answers[1..])
  }

  /** The check after each poll, then the loop again. */
  function Resume<T, O>(s: Sched<T, O>, target: nat, answers: seq<Poll<T, O>>): Ended<T, O>
    decreases |answers|, 1
  {
    if target in s.completed then Got(Take(s, target), s.completed[target]) else Loop(s, target, answers)
  }

  lemma EmptyQueue<T, O>(s: Sched<T, O>)
    requires QueueOk(s) && s.ready == []
    ensures s.tasks == map[]
  {
  }

  /** A call leaves the bookkeeping intact whatever its tasks do: the resident
      lookup never fails, the outcome it returns is delivered once, a task whose
      poll errors is failed, and an empty queue means the target was not there. */
  lemma {:induction false} RunKeeps<T, O>(
    s: Sched<T, O>, target: nat, answers: seq<Poll<T, O>>, delivered: set<nat>, failed: set<nat>)
    requires Inv(s, delivered, failed)
    ensures
      var e := Resume(s, target, answers);
      && !e.Lost?
      && (e.Got? ==> (target in s.tasks || target in s.completed) && Inv(e.s, delivered + {target}, failed))
      && (e.TaskError? ==> e.id in s.tasks && Inv(e.s, delivered, failed + {e.id}))
      && (e.Exhausted? ==> target !in s.tasks && target !in s.completed && e.s.tasks == map[] && Inv(e.s, delivered, failed))
      && (e.Waiting? ==> Inv(e.s, delivered, failed))
    decreases |answers|
  {
    hide QueueOk, Accounted;
    if target in s.completed {
      TakeKeeps(s, target, delivered, failed);
    } else if s.ready == [] {
      EmptyQueue(s);
    } else if answers == [] {
      HeadResident(s);
    } else {
      HeadResident(s);
      PollKeeps(s, answers[0], delivered, failed);
      var id, s' := s.ready[0], PollFront(s, answers[0]);
      match answers[0] {
        case Broke(_) =>
        case Finished(_) =>
          if id == target {
            TakeKeeps(s', id, delivered, failed);
          } else {
            RunKeeps(s', target, answers[1..], delivered, failed);
          }
        case Pending(_) =>
          RunKeeps(s', target, answers[1..], delivered, failed);
      }
    }
  }

  // ---- Fairness -------------------------------------------------------------

  /** Everything that can happen to a scheduler, in any order. */
  datatype Event<T, O> = Submitted(built: Option<T>) | Polled(answer: Poll<T, O>) | Taken(id: nat)

  predicate Enabled<T, O>(s: Sched<T, O>, ev: Event<T, O>) {
    ev.Polled? ==> s.ready != []
  }

  function Apply<T, O>(s: Sched<T, O>, ev: Event<T, O>): Sched<T, O> {
    match ev
    case Submitted(built) => Submit(s, built)
    case Polled(answer) => if s.ready == [] then s else PollFront(s, answer)
    case Taken(id) => Take(s, id)
  }

  /** A possible history from `s`. */
  predicate Possible<T, O>(s: Sched<T, O>, evs: seq<Event<T, O>>)
    decreases |evs|
  {
    evs == [] || (Enabled(s, evs[0]) && Possible(Apply(s, evs[0]), evs[1..]))
  }

  function After<T, O>(s: Sched<T, O>, evs: seq<Event<T, O>>): Sched<T, O>
    decreases |evs|
  {
    if evs == [] then s else After(Apply(s, evs[0]), evs[1..])
  }

  /** The tasks polled, in order. */
  function PollLog<T, O>(s: Sched<T, O>, evs: seq<Event<T, O>>): seq<nat>
    decreases |evs|
  {
    if evs == [] then []
    else (if evs[0].Polled? && s.ready != [] then [s.ready[0]] else []) + PollLog(Apply(s, evs[0]), evs[1..])
  }

  lemma LogFirst<T, O>(s: Sched<T, O>, evs: seq<Event<T, O>>)
    ensures evs == [] ==> PollLog(s, evs) == [] && After(s, evs) == s
    ensures evs != [] ==>
      var s' := Apply(s, evs[0]);
      && PollLog(s, evs) == (if evs[0].Polled? && s.ready != [] then [s.ready[0]] else []) + PollLog(s', evs[1..])
      && After(s, evs) == After(s', evs[1..])
  {
  }

  lemma PopAhead(ready: seq<nat>, x: nat, ahead: seq<nat>, behind: seq<nat>)
    requires ready == ahead + [x] + behind && ready[0] != x
    ensures ahead != [] && ahead == [ready[0]] + ahead[1..] && ready[1..] == ahead[1..] + [x] + behind
  {
    assert ahead != [];
    assert ready[0] == ahead[0];
  }

  /** Round robin: while `x` waits behind `ahead`, exactly the members of `ahead`
      are polled, in order, and nobody joins in front of it. */
  lemma {:induction false} RoundRobin<T, O>(s: Sched<T, O>, x: nat, ahead: seq<nat>, behind: seq<nat>, evs: seq<Event<T, O>>)
    returns (left: seq<nat>, joined: seq<nat>)
    requires s.ready == ahead + [x] + behind && x !in PollLog(s, evs)
    ensures ahead == PollLog(s, evs) + left
    ensures After(s, evs).ready == left + [x] + joined
    decreases |evs|
  {
    hide PollLog, After, NoDuplicates;
    LogFirst(s, evs);
    if evs == [] {
      left, joined := ahead, behind;
    } else {
      var s' := Apply(s, evs[0]);
      match evs[0] {
        case Submitted(built) =>
          var behind' := if built.Some? then behind + [s.nextId] else behind;
          assert s'.ready == ahead + [x] + behind';
          left, joined := RoundRobin(s', x, ahead, behind', evs[1..]);
        case Taken(_) =>
          left, joined := RoundRobin(s', x, ahead, behind, evs[1..]);
        case Polled(answer) =>
          var id := s.ready[0];
          assert PollLog(s, evs)[0] == id;
          PopAhead(s.ready, x, ahead, behind);
          var behind' := if answer.Pending? then behind + [id] else behind;
          assert s'.ready == ahead[1..] + [x] + behind';
          left, joined := RoundRobin(s', x, ahead[1..], behind', evs[1..]);
      }
    }
  }

  /** Between two consecutive polls of one task, those polled are exactly the
      other tasks resident at the first of them, each exactly once. */
  lemma Fair<T, O>(s: Sched<T, O>, t: T, evs: seq<Event<T, O>>)
    requires QueueOk(s) && s.ready != []
    requires
      var s' := PollFront(s, Pending(t));
      && s.ready[0] !in PollLog(s', evs)
      && After(s', evs).ready != [] && After(s', evs).ready[0] == s.ready[0]
    ensures
      var x, log := s.ready[0], PollLog(PollFront(s, Pending(t)), evs);
      && NoDuplicates(log)
      && forall id :: id in log <==> id in s.tasks && id != x
  {
    var x, rest := s.ready[0], s.ready[1..];
    var s' := PollFront(s, Pending(t));
    assert s'.ready == rest + [x] + [];
    var left, joined := RoundRobin(s', x, rest, [], evs);
    var log := PollLog(s', evs);
    assert rest == log + left;
    HeadUnique(s.ready);
    assert left == [];
    assert log == rest;
    forall id: nat ensures id in log <==> id in s.tasks && id != x {
      assert id in s.ready <==> id == x || id in rest;
    }
  }

  // ---- Every sequence of calls ----------------------------------------------

  datatype CallOp<T, O> = SubmitCall(built: Option<T>) | RunCall(target: nat, answers: seq<Poll<T, O>>)

  function Perform<T, O>(s: Sched<T, O>, op: CallOp<T, O>): Sched<T, O> {
    match op
    case SubmitCall(built) => Submit(s, built)
    case RunCall(target, answers) => Resume(s, target, answers).s
  }

  function PerformAll<T, O>(s: Sched<T, O>, ops: seq<CallOp<T, O>>): Sched<T, O>
    decreases |ops|
  {
    if ops == [] then s else PerformAll(Perform(s, ops[0]), ops[1..])
  }

  /** After any sequence of submits and runs the queue lists exactly the resident
      tasks and every id is accounted for once. */
  lemma {:induction false} AlwaysConsistent<T, O>(
    s: Sched<T, O>, ops: seq<CallOp<T, O>>, delivered: set<nat>, failed: set<nat>)
    returns (delivered': set<nat>, failed': set<nat>)
    requires Inv(s, delivered, failed)
    ensures delivered <= delivered' && failed <= failed' && Inv(PerformAll(s, ops), delivered', failed')
    decreases |ops|
  {
    hide QueueOk, Accounted;
    if ops == [] {
      delivered', failed' := delivered, failed;
    } else {
      var d, f := delivered, failed;
      match ops[0] {
        case SubmitCall(built) =>
          SubmitKeeps(s, built, delivered, failed);
          f := if built.None? then failed + {s.nextId} else failed;
        case RunCall(target, answers) =>
          RunKeeps(s, target, answers, delivered, failed);
          var e := Resume(s, target, answers);
          d := if e.Got? then delivered + {target} else delivered;
          f := if e.TaskError? then failed + {e.id} else failed;
      }
      delivered', failed' := AlwaysConsistent(Perform(s, ops[0]), ops[1..], d, f);
    }
  }

  /** From a fresh scheduler in particular. */
  lemma AlwaysConsistentFromNew<T, O>(ops: seq<CallOp<T, O>>) returns (delivered: set<nat>, failed: set<nat>)
    ensures Inv(PerformAll(New<T, O>(), ops), delivered, failed)
  {
    NewInv<T, O>();
    delivered, failed := AlwaysConsistent(New<T, O>(), ops, {}, {});
  }

  // ---- Calls as histories ---------------------------------------------------

  /** What a call does, event by event. */
  function RunEvents<T, O>(s: Sched<T, O>, target: nat, answers: seq<Poll<T, O>>): seq<Event<T, O>>
    decreases |answers|, 1
  {
    if target in s.completed then [Taken(target)] else LoopEvents(s, target, answers)
  }

  function LoopEvents<T, O>(s: Sched<T, O>, target: nat, answers: seq<Poll<T, O>>): seq<Event<T, O>>
    decreases |answers|, 0
  {
    if s.ready == [] || s.ready[0] !in s.tasks || answers == [] then []
    else
      var s' := PollFront(s, answers[0]);
      [Polled(answers[0])] +
        if answers[0].Broke? then []
        else if answers[0].Finished? && s.ready[0] == target then [Taken(target)]
        else RunEvents(s', target, answers[1..])
  }

  function Polls<T, O>(answers: seq<Poll<T, O>>): (evs: seq<Event<T, O>>)
    ensures |evs| == |answers| && forall k :: 0 <= k < |evs| ==> evs[k] == Polled(answers[k])
  {
    seq(|answers|, k requires 0 <= k < |answers| => Polled(answers[k]))
  }

  lemma PollsFirst<T, O>(answers: seq<Poll<T, O>>, n: nat)
    requires n <= |answers|
    ensures Polls(answers[..n]) == if n == 0 then [] else [Polled(answers[0])] + Polls(answers[1..][..n - 1])
  {
  }

  lemma NoEvents<T, O>(s: Sched<T, O>)
    ensures Possible(s, []) && After(s, []) == s && PollLog(s, []) == []
  {
  }

  lemma Cons<T, O>(s: Sched<T, O>, ev: Event<T, O>, rest: seq<Event<T, O>>)
    ensures Possible(s, [ev] + rest) <==> Enabled(s, ev) && Possible(Apply(s, ev), rest)
    ensures After(s, [ev] + rest) == After(Apply(s, ev), rest)
  {
    assert ([ev] + rest)[1..] == rest;
  }

  lemma OneEvent<T, O>(s: Sched<T, O>, ev: Event<T, O>)
    ensures After(s, [ev]) == Apply(s, ev) && (Possible(s, [ev]) <==> Enabled(s, ev))
  {
    Cons(s, ev, []);
    assert [ev] + [] == [ev];
  }

  /** A run is a history: polls answered by the first `n` answers in order, and
      then the outcome taken if there is one. */
  lemma {:induction false} RunIsHistory<T, O>(s: Sched<T, O>, target: nat, answers: seq<Poll<T, O>>) returns (n: nat)
    requires QueueOk(s)
    ensures
      var evs, e := RunEvents(s, target, answers), Resume(s, target, answers);
      && Possible(s, evs) && After(s, evs) == e.s
      && n <= |answers| && evs == Polls(answers[..n]) + (if e.Got? then [Taken(target)] else [])
      && (e.Waiting? ==> n == |answers|)
    decreases |answers|
  {
    hide QueueOk, PollFront, Possible, After, Polls;
    n := 0;
    NoEvents(s);
    PollsFirst(answers, 0);
    if target in s.completed {
      OneEvent(s, Taken(target));
    } else if s.ready != [] {
      HeadResident(s);
      if answers != [] {
        PollQueue(s, answers[0]);
        var s' := PollFront(s, answers[0]);
        var rest: seq<Event<T, O>> := [];
        NoEvents(s');
        PollsFirst(answers[1..], 0);
        if answers[0].Finished? && s.ready[0] == target {
          rest := [Taken(target)];
          OneEvent(s', Taken(target));
        } else if !answers[0].Broke? {
          rest := RunEvents(s', target, answers[1..]);
          n := RunIsHistory(s', target, answers[1..]);
        }
        Cons(s, Polled(answers[0]), rest);
        n := n + 1;
        PollsFirst(answers, n);
      }
    }
  }

  lemma {:induction false} Concat<T, O>(s: Sched<T, O>, a: seq<Event<T, O>>, b: seq<Event<T, O>>)
    ensures Possible(s, a + b) <==> Possible(s, a) && Possible(After(s, a), b)
    ensures After(s, a + b) == After(After(s, a), b)
    decreases |a|
  {
    if a == [] {
      assert a + b == b;
    } else {
      Concat(Apply(s, a[0]), a[1..], b);
      Cons(s, a[0], a[1..] + b);
      assert a + b == [a[0]] + (a[1..] + b);
    }
  }

  /** Histories keep the bookkeeping. */
  lemma {:induction false} HistoryKeeps<T, O>(s: Sched<T, O>, evs: seq<Event<T, O>>, delivered: set<nat>, failed: set<nat>)
    returns (delivered': set<nat>, failed': set<nat>)
    requires Inv(s, delivered, failed) && Possible(s, evs)
    ensures Inv(After(s, evs), delivered', failed')
    decreases |evs|
  {
    hide QueueOk, Accounted, PollFront, Submit;
    if evs == [] {
      delivered', failed' := delivered, failed;
    } else {
      var d, f := delivered, failed;
      match evs[0] {
        case Submitted(built) =>
          SubmitKeeps(s, built, delivered, failed);
          f := if built.None? then failed + {s.nextId} else failed;
        case Polled(answer) =>
          PollKeeps(s, answer, delivered, failed);
          f := if answer.Broke? then failed + {s.ready[0]} else failed;
        case Taken(id) =>
          if id in s.completed {
            TakeKeeps(s, id, delivered, failed);
            d := delivered + {id};
          } else {
            assert Take(s, id) == s;
          }
      }
      delivered', failed' := HistoryKeeps(Apply(s, evs[0]), evs[1..], d, f);
    }
  }

  function CallEvents<T, O>(s: Sched<T, O>, op: CallOp<T, O>): seq<Event<T, O>> {
    match op
    case SubmitCall(built) => [Submitted(built)]
    case RunCall(target, answers) => RunEvents(s, target, answers)
  }

  /** The histories of a sequence of calls, end to end. */
  function AllEvents<T, O>(s: Sched<T, O>, ops: seq<CallOp<T, O>>): seq<Event<T, O>>
    decreases |ops|
  {
    if ops == [] then [] else CallEvents(s, ops[0]) + AllEvents(Perform(s, ops[0]), ops[1..])
  }

  /** They are one history of the scheduler. */
  lemma {:induction false} CallsAreHistory<T, O>(
    s: Sched<T, O>, ops: seq<CallOp<T, O>>, delivered: set<nat>, failed: set<nat>)
    requires Inv(s, delivered, failed)
    ensures Possible(s, AllEvents(s, ops)) && After(s, AllEvents(s, ops)) == PerformAll(s, ops)
    decreases |ops|
  {
    hide QueueOk, Accounted, RunEvents, Resume, Submit;
    if ops != [] {
      var first, s' := CallEvents(s, ops[0]), Perform(s, ops[0]);
      match ops[0] {
        case SubmitCall(built) => OneEvent(s, Submitted(built));
        case RunCall(target, answers) => var _ := RunIsHistory(s, target, answers);
      }
      var d, f := HistoryKeeps(s, first, delivered, failed);
      CallsAreHistory(s', ops[1..], d, f);
      Concat(s, first, AllEvents(s', ops[1..]));
    }
  }

  /** Events `i` and `j` of a history are consecutive polls of task `x`, which
      stayed pending at the first. */
  predicate PolledTwice<T, O>(s: Sched<T, O>, evs: seq<Event<T, O>>, i: nat, j: nat, x: nat) {
    && i < j < |evs| && evs[i].Polled? && evs[i].answer.Pending? && evs[j].Polled?
    && After(s, evs[..i]).ready != [] && After(s, evs[..i]).ready[0] == x
    && After(s, evs[..j]).ready != [] && After(s, evs[..j]).ready[0] == x
    && x !in PollLog(After(s, evs[..i + 1]), evs[i + 1..j])
  }

  /** Fairness over any sequence of submits and runs: between two consecutive polls
      of one task, whichever calls made them, those polled are exactly the other
      tasks resident at the first of them, each exactly once. */
  lemma FairAcrossCalls<T, O>(
    s: Sched<T, O>, ops: seq<CallOp<T, O>>, delivered: set<nat>, failed: set<nat>, i: nat, j: nat, x: nat)
    requires Inv(s, delivered, failed) && PolledTwice(s, AllEvents(s, ops), i, j, x)
    ensures
      var evs := AllEvents(s, ops);
      var log := PollLog(After(s, evs[..i + 1]), evs[i + 1..j]);
      && NoDuplicates(log)
      && forall id :: id in log <==> id in After(s, evs[..i]).tasks && id != x
  {
    hide QueueOk, Accounted, PollFront, AllEvents, After, PollLog;
    var evs := AllEvents(s, ops);
    CallsAreHistory(s, ops, delivered, failed);
    var first, between := After(s, evs[..i]), evs[i + 1..j];
    Concat(s, evs[..i], evs[i..]);
    assert evs == evs[..i] + evs[i..];
    var _, _ := HistoryKeeps(s, evs[..i], delivered, failed);
    Concat(s, evs[..i], [evs[i]]);
    assert evs[..i + 1] == evs[..i] + [evs[i]];
    OneEvent(first, evs[i]);
    Concat(s, evs[..i + 1], between);
    assert evs[..j] == evs[..i + 1] + between;
    Fair(first, evs[i].answer.task, between);
  }

  lemma TakenOnly<T, O>(s: Sched<T, O>, id: nat)
    ensures PollLog(s, [Taken(id)]) == []
  {
    LogFirst(s, [Taken(id)]);
    NoEvents(Take(s, id));
  }

  /** The polls of a loop: none, or the head and then those of the rest. */
  lemma LoopLog<T, O>(s: Sched<T, O>, target: nat, answers: seq<Poll<T, O>>)
    ensures s.ready == [] || s.ready[0] !in s.tasks || answers == [] ==> PollLog(s, LoopEvents(s, target, answers)) == []
    ensures s.ready != [] && s.ready[0] in s.tasks && answers != [] ==>
      var s' := PollFront(s, answers[0]);
      PollLog(s, LoopEvents(s, target, answers)) == [s.ready[0]] +
        if answers[0].Broke? || (answers[0].Finished? && s.ready[0] == target) then []
        else PollLog(s', RunEvents(s', target, answers[1..]))
  {
    hide PollLog, PollFront, After;
    var evs := LoopEvents(s, target, answers);
    LogFirst(s, evs);
    if s.ready != [] && s.ready[0] in s.tasks && answers != [] {
      var s' := PollFront(s, answers[0]);
      NoEvents(s');
      TakenOnly(s', target);
    }
  }

  // ---- In place -------------------------------------------------------------

  datatype Result<O> = Outcome(o: O) | Failure(code: nat)

  class KernelScheduler<T, O> {
    var nextTaskId: nat
    var tasks: map<nat, T>
    var completed: map<nat, O>
    var ready: seq<nat>

    ghost function View(): Sched<T, O>
      reads this
    {
      Sched(nextTaskId, tasks, completed, ready)
    }

    constructor ()
      ensures View() == New()
    {
      nextTaskId, tasks, completed, ready := 0, map[], map[], [];
    }

    method SubmitInvoke(built: Option<T>) returns (id: Option<nat>)
      modifies this
      ensures View() == Submit(old(View()), built)
      ensures id == if built.Some? then Some(old(nextTaskId)) else None
    {
      var next := nextTaskId;
      nextTaskId := nextTaskId + 1;
      if built.None? {
        return None;
      }
      tasks := tasks[next := built.value];
      ready := ready + [next];
      id := Some(next);
    }

    /** `run_until_result` with the answers its polls get; `None` if they run
        out first. The ids it polls, in order, are those of its history. */
    method RunUntilResult(target: nat, answers: seq<Poll<T, O>>) returns (r: Option<Result<O>>, ghost polled: seq<nat>)
      modifies this
      ensures polled == PollLog(old(View()), RunEvents(old(View()), target, answers))
      ensures
        var e := Resume(old(View()), target, answers);
        && View() == e.s
        && r == match e
                case Got(_, o) => Some(Outcome(o))
                case TaskError(_, _, code) => Some(Failure(code))
                case Exhausted(_) => Some(Failure(ERR_TASK_BOOKKEEPING))
                case Lost(_) => Some(Failure(ERR_TASK_BOOKKEEPING))
                case Waiting(_) => None
    {
      hide PollLog, After, LoopEvents;
      polled := [];
      if target in completed {
        r := Some(Outcome(completed[target]));
        TakenOnly(View(), target);
        completed := completed - {target};
        return;
      }
      var k := 0;
      while ready != []
        invariant 0 <= k <= |answers| && target !in completed
        invariant PollLog(old(View()), RunEvents(old(View()), target, answers))
          == polled + PollLog(View(), LoopEvents(View(), target, answers[k..]))
        invariant Resume(old(View()), target, answers) == Loop(View(), target, answers[k..])
        decreases |answers| - k
      {
        var id := ready[0];
        LoopLog(View(), target, answers[k..]);
        if id !in tasks {
          ready := ready[1..];
          return Some(Failure(ERR_TASK_BOOKKEEPING)), polled;
        }
        if k == |answers| {
          return None, polled;
        }
        polled := polled + [id];
        assert answers[k..][0] == answers[k] && answers[k..][1..] == answers[k + 1..];
        ready := ready[1..];
        var answer := answers[k];
        k := k + 1;
        match answer {
          case Pending(t) =>
            tasks := tasks[id := t];
            ready := ready + [id];
          case Broke(code) =>
            tasks := tasks - {id};
            return Some(Failure(code)), polled;
          case Finished(o) =>
            tasks := tasks - {id};
            if id == target {
              assert Take(View().(completed := completed[id := o]), id) == View();
              return Some(Outcome(o)), polled;
            }
            completed := completed[id := o];
        }
      }
      LoopLog(View(), target, answers[k..]);
      r := Some(Failure(ERR_TASK_BOOKKEEPING));
    }
  }
}