/** Whose outcome a run returns and which task a poll runs (nub-arch-x86
    `task.rs`): over every history of a fresh scheduler each id keeps its own. */
module Outcomes {
  import opened Prelude
  import opened Scheduler

  /** A fresh scheduler after the first `k` events. */
  function At<T, O>(evs: seq<Event<T, O>>, k: nat): Sched<T, O>
    requires k <= |evs|
  {
    After(New<T, O>(), evs[..k])
  }

  /** Event `k` polls task `id`, the head of the ready queue. */
  predicate Turn<T, O>(evs: seq<Event<T, O>>, k: nat, id: nat) {
    k < |evs| && evs[k].Polled? && At(evs, k).ready != [] && At(evs, k).ready[0] == id
  }

  /** Event `k` is the submit that gets `id`. */
  predicate Born<T, O>(evs: seq<Event<T, O>>, k: nat, id: nat) {
    k < |evs| && evs[k].Submitted? && At(evs, k).nextId == id
  }

  lemma StartAt<T, O>(evs: seq<Event<T, O>>)
    ensures At(evs, 0) == New<T, O>()
  {
  }

  lemma StepAt<T, O>(evs: seq<Event<T, O>>, k: nat)
    requires k < |evs| && Possible(New<T, O>(), evs)
    ensures At(evs, k + 1) == Apply(At(evs, k), evs[k]) && Enabled(At(evs, k), evs[k])
  {
    hide After, Possible, Apply;
    var empty := New<T, O>();
    Concat(empty, evs[..k], [evs[k]]);
    Concat(empty, evs[..k + 1], evs[k + 1..]);
    assert evs == evs[..k + 1] + evs[k + 1..] && evs[..k + 1] == evs[..k] + [evs[k]];
    OneEvent(At(evs, k), evs[k]);
  }

  lemma SoundAt<T, O>(evs: seq<Event<T, O>>, k: nat)
    requires k <= |evs| && Possible(New<T, O>(), evs)
    ensures QueueOk(At(evs, k))
    ensures forall id <- At(evs, k).tasks :: id < At(evs, k).nextId
  {
    hide After, Possible, QueueOk;
    var empty := New<T, O>();
    Concat(empty, evs[..k], evs[k..]);
    assert evs == evs[..k] + evs[k..];
    NewInv<T, O>();
    var _, _ := HistoryKeeps(empty, evs[..k], {}, {});
  }

  /** A polled task is resident. */
  lemma TurnResident<T, O>(evs: seq<Event<T, O>>, k: nat, id: nat)
    requires Possible(New<T, O>(), evs) && Turn(evs, k, id)
    ensures id in At(evs, k).tasks && id < At(evs, k).nextId
  {
    hide At, Possible, QueueOk;
    SoundAt(evs, k);
    HeadResident(At(evs, k));
  }

  lemma {:induction false} IdsGrow<T, O>(evs: seq<Event<T, O>>, i: nat, k: nat)
    requires Possible(New<T, O>(), evs) && i <= k <= |evs|
    ensures At(evs, i).nextId <= At(evs, k).nextId
    decreases k
  {
    hide At, Possible;
    if i < k {
      IdsGrow(evs, i, k - 1);
      StepAt(evs, k - 1);
    }
  }

  /** A task whose poll did not leave it pending is not resident again. */
  lemma {:induction false} Dismissed<T, O>(evs: seq<Event<T, O>>, j: nat, k: nat, id: nat)
    requires Possible(New<T, O>(), evs) && j < k <= |evs| && Turn(evs, j, id) && !evs[j].answer.Pending?
    ensures id < At(evs, k).nextId && id !in At(evs, k).tasks
    decreases k
  {
    hide At, Possible, QueueOk;
    StepAt(evs, k - 1);
    TurnResident(evs, j, id);
    if j < k - 1 {
      Dismissed(evs, j, k - 1, id);
      if evs[k - 1].Polled? {
        TurnResident(evs, k - 1, At(evs, k - 1).ready[0]);
      }
    }
  }

  /** So that poll was its last. */
  lemma LastTurn<T, O>(evs: seq<Event<T, O>>, j: nat, id: nat)
    requires Possible(New<T, O>(), evs) && Turn(evs, j, id) && !evs[j].answer.Pending?
    ensures forall k: nat :: Turn(evs, k, id) ==> k <= j
  {
    hide At, Possible;
    forall k: nat | Turn(evs, k, id) ensures k <= j {
      if j < k {
        TurnResident(evs, k, id);
        Dismissed(evs, j, k, id);
      }
    }
  }

  lemma {:induction false} OutcomeComesFrom<T, O>(evs: seq<Event<T, O>>, k: nat, id: nat) returns (j: nat)
    requires Possible(New<T, O>(), evs) && k <= |evs| && id in At(evs, k).completed
    ensures j < k && Turn(evs, j, id) && evs[j].answer == Finished(At(evs, k).completed[id])
    decreases k
  {
    hide At, Possible;
    StartAt(evs);
    StepAt(evs, k - 1);
    if evs[k - 1].Polled? && evs[k - 1].answer.Finished? && At(evs, k - 1).ready[0] == id {
      j := k - 1;
    } else {
      j := OutcomeComesFrom(evs, k - 1, id);
    }
  }

  /** A completed outcome is the one its own task finished with, at the one poll
      that did not leave it pending. */
  lemma OutcomeIsOwn<T, O>(evs: seq<Event<T, O>>, k: nat, id: nat) returns (j: nat)
    requires Possible(New<T, O>(), evs) && k <= |evs| && id in At(evs, k).completed
    ensures j < k && Turn(evs, j, id) && evs[j].answer == Finished(At(evs, k).completed[id])
    ensures forall i: nat :: Turn(evs, i, id) && !evs[i].answer.Pending? ==> i == j
  {
    hide At, Possible;
    j := OutcomeComesFrom(evs, k, id);
    LastTurn(evs, j, id);
    forall i: nat | Turn(evs, i, id) && !evs[i].answer.Pending? ensures i == j {
      LastTurn(evs, i, id);
    }
  }

  /** And it stays there until it is taken. */
  lemma {:induction false} OutcomeStays<T, O>(evs: seq<Event<T, O>>, j: nat, k: nat, id: nat)
    requires Possible(New<T, O>(), evs) && j < k <= |evs| && Turn(evs, j, id) && evs[j].answer.Finished?
    requires forall i :: j < i < k ==> evs[i] != Taken(id)
    ensures id in At(evs, k).completed && At(evs, k).completed[id] == evs[j].answer.outcome
    decreases k
  {
    hide At, Possible;
    StepAt(evs, k - 1);
    if j < k - 1 {
      OutcomeStays(evs, j, k - 1, id);
      LastTurn(evs, j, id);
      assert !Turn(evs, k - 1, id);
    }
  }

  /** A resident task is as its last poll left it, or as it was submitted if there
      was no poll. */
  lemma {:induction false} TaskIsOwn<T, O>(evs: seq<Event<T, O>>, k: nat, id: nat) returns (j: nat)
    requires Possible(New<T, O>(), evs) && k <= |evs| && id in At(evs, k).tasks
    ensures j < k && forall i :: j < i < k ==> !Turn(evs, i, id)
    ensures
      || (Turn(evs, j, id) && evs[j].answer == Pending(At(evs, k).tasks[id]))
      || (&& Born(evs, j, id) && evs[j].built == Some(At(evs, k).tasks[id])
          && forall i :: 0 <= i < j ==> !Turn(evs, i, id))
    decreases k
  {
    hide At, Possible;
    StartAt(evs);
    StepAt(evs, k - 1);
    if Turn(evs, k - 1, id) {
      j := k - 1;
    } else if Born(evs, k - 1, id) {
      j := k - 1;
      SoundAt(evs, j);
      forall i | 0 <= i < j ensures !Turn(evs, i, id) {
        IdsGrow(evs, i, j);
        if Turn(evs, i, id) {
          TurnResident(evs, i, id);
        }
      }
    } else {
      j := TaskIsOwn(evs, k - 1, id);
    }
  }

  // ---- Calls ----------------------------------------------------------------

  lemma Finishes<T, O>(s: Sched<T, O>, answer: Poll<T, O>)
    requires s.ready != [] && answer.Finished?
    ensures s.ready[0] in PollFront(s, answer).completed && PollFront(s, answer).completed[s.ready[0]] == answer.outcome
  {
  }

  /** The event a successful run ends with takes the outcome it returns. */
  lemma {:induction false} GotTakes<T, O>(s: Sched<T, O>, target: nat, answers: seq<Poll<T, O>>)
    requires Resume(s, target, answers).Got?
    ensures
      var evs := RunEvents(s, target, answers);
      && evs != [] && evs[|evs| - 1] == Taken(target)
      && var before := After(s, evs[..|evs| - 1]);
         target in before.completed && before.completed[target] == Resume(s, target, answers).outcome
    decreases |answers|
  {
    hide After, PollFront;
    var evs := RunEvents(s, target, answers);
    NoEvents(s);
    if target in s.completed {
      assert evs[..0] == [];
    } else {
      assert evs == LoopEvents(s, target, answers) && Resume(s, target, answers) == Loop(s, target, answers);
      var s', ev := PollFront(s, answers[0]), Event.Polled(answers[0]);
      assert Apply(s, ev) == s';
      if answers[0].Finished? && s.ready[0] == target {
        assert evs[..1] == [ev];
        OneEvent(s, ev);
        Finishes(s, answers[0]);
      } else {
        GotTakes(s', target, answers[1..]);
        var rest := RunEvents(s', target, answers[1..]);
        assert evs[..|evs| - 1] == [ev] + rest[..|rest| - 1];
        Cons(s, ev, rest[..|rest| - 1]);
      }
    }
  }

  /** A run that fails with a task's error ends at that task's own poll. */
  lemma {:induction false} ErrorEnds<T, O>(s: Sched<T, O>, target: nat, answers: seq<Poll<T, O>>)
    requires Resume(s, target, answers).TaskError?
    ensures
      var evs, e := RunEvents(s, target, answers), Resume(s, target, answers);
      && evs != [] && evs[|evs| - 1] == Event.Polled(Broke(e.code))
      && var before := After(s, evs[..|evs| - 1]);
         before.ready != [] && before.ready[0] == e.id
    decreases |answers|
  {
    hide After, PollFront;
    var evs := RunEvents(s, target, answers);
    assert evs == LoopEvents(s, target, answers) && Resume(s, target, answers) == Loop(s, target, answers);
    NoEvents(s);
    var s', ev := PollFront(s, answers[0]), Event.Polled(answers[0]);
    assert Apply(s, ev) == s';
    if answers[0].Broke? {
      assert evs == [ev] && evs[..0] == [];
    } else {
      ErrorEnds(s', target, answers[1..]);
      var rest := RunEvents(s', target, answers[1..]);
      assert evs[..|evs| - 1] == [ev] + rest[..|rest| - 1];
      Cons(s, ev, rest[..|rest| - 1]);
    }
  }

  /** After any calls on a fresh scheduler, what a run returns for `target` is what
      that task finished with, at the one poll that did not leave it pending. */
  lemma RunReturnsOwn<T, O>(ops: seq<CallOp<T, O>>, target: nat, answers: seq<Poll<T, O>>) returns (j: nat)
    requires Resume(PerformAll(New<T, O>(), ops), target, answers).Got?
    ensures
      var s := PerformAll(New<T, O>(), ops);
      var evs := AllEvents(New<T, O>(), ops) + RunEvents(s, target, answers);
      && Possible(New<T, O>(), evs) && After(New<T, O>(), evs) == Resume(s, target, answers).s
      && Turn(evs, j, target) && evs[j].answer == Finished(Resume(s, target, answers).outcome)
      && forall i: nat :: Turn(evs, i, target) && !evs[i].answer.Pending? ==> i == j
  {
    hide Resume, RunEvents, AllEvents, After, Possible, Turn, QueueOk, Accounted, PerformAll;
    var empty := New<T, O>();
    NewInv<T, O>();
    CallsAreHistory(empty, ops, {}, {});
    var first, s := AllEvents(empty, ops), PerformAll(empty, ops);
    var _, _ := HistoryKeeps(empty, first, {}, {});
    var run := RunEvents(s, target, answers);
    var _ := RunIsHistory(s, target, answers);
    GotTakes(s, target, answers);
    var evs, last := first + run, |first| + |run| - 1;
    Concat(empty, first, run);
    Concat(empty, first, run[..|run| - 1]);
    assert evs[..last] == first + run[..|run| - 1];
    j := OutcomeIsOwn(evs, last, target);
  }
}
