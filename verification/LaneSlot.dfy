/** The host/guest lane slot (nub-arch-x86 `guest_fns.rs`, nub-arch-x86-abi
    `lib.rs`): one status word, one packet, one result, and two parties that
    never lock.

    Each action below is one atomic load, store or compare-exchange, or one end
    of a non-atomic copy. A history is any interleaving of enabled actions. */
module LaneSlot {

  datatype Status = Empty | Ready | Running | Done | Stop | Starting | EvictReady

  /** What the host is doing. */
  datatype Host<P, R> =
    | HIdle
    | HWriting(p: P)      // copying a packet into the slot
    | HWritten            // packet in place, READY not yet stored
    | HPosted             // waiting for DONE
    | HCopying            // saw DONE, copying the result out
    | HCopied(r: R)       // copied, EMPTY not yet stored
    | HEvicting           // waiting for DONE of a control command
    | HEvicted            // saw that DONE
    | HStopping           // waiting for the worker to leave
    | HDown               // no worker

  /** What the guest worker is doing. */
  datatype Guest<P, R> =
    | GBoot
    | GBootStore          // saw STARTING, EMPTY not yet stored
    | GPoll               // about to load the status
    | GSaw(seen: Status)  // about to act on it
    | GReading            // claimed a job, copying the packet out
    | GExec(p: P)
    | GEvict
    | GWriting(r: R)      // copying the result into the slot
    | GWritten            // result in place, DONE not yet stored
    | GGone

  datatype Run<P, R> = Run(p: P, r: R)

  /** The slot, the two parties and the history: packets posted, packets run with
      their outcomes, results delivered. */
  datatype State<P, R> = State(
    status: Status, packet: P, result: R, host: Host<P, R>, guest: Guest<P, R>,
    posted: seq<P>, runs: seq<Run<P, R>>, delivered: seq<R>)

  datatype Action<P, R> =
    // host
    | BeginWrite(p: P) | EndWrite | Post | SeeDone | EndCopy | Release
    | PostEvict | PostStop | SeeStopped | Restart
    // guest; a run has some outcome
    | BootLoad | BootStore | Load | Act | ReadPacket | Execute(r: R) | Evict(zero: R) | WriteResult | StoreDone

  predicate Enabled<P, R>(s: State<P, R>, a: Action<P, R>) {
    match a
    case BeginWrite(_) => s.host.HIdle? && s.status == Empty
    case EndWrite => s.host.HWriting?
    case Post => s.host.HWritten?
    case SeeDone => (s.host.HPosted? || s.host.HEvicting?) && s.status == Done
    case EndCopy => s.host.HCopying?
    case Release => s.host.HCopied? || s.host.HEvicted?
    case PostEvict => s.host.HIdle? && s.status == Empty
    case PostStop => s.host.HIdle? && s.status == Empty
    case SeeStopped => s.host.HStopping? && s.status == Empty
    case Restart => s.host.HDown?
    case BootLoad => s.guest.GBoot?
    case BootStore => s.guest.GBootStore?
    case Load => s.guest.GPoll?
    case Act => s.guest.GSaw?
    case ReadPacket => s.guest.GReading?
    case Execute(_) => s.guest.GExec?
    case Evict(_) => s.guest.GEvict?
    case WriteResult => s.guest.GWriting?
    case StoreDone => s.guest.GWritten?
  }

  /** The worker's match on the status it loaded, with its compare-exchanges. */
  function GuestActs<P, R>(s: State<P, R>): State<P, R>
    requires s.guest.GSaw?
  {
    match s.guest.seen
    case Ready => if s.status == Ready then s.(status := Running, guest := GReading) else s.(guest := GPoll)
    case EvictReady => if s.status == EvictReady then s.(status := Running, guest := GEvict) else s.(guest := GPoll)
    case Stop => s.(status := Empty, guest := GGone)
    case _ => s.(guest := GPoll)
  }

  function Apply<P, R>(s: State<P, R>, a: Action<P, R>): State<P, R>
    requires Enabled(s, a)
  {
    match a
    case BeginWrite(p) => s.(host := HWriting(p))
    case EndWrite => s.(packet := s.host.p, host := HWritten)
    case Post => s.(status := Ready, host := HPosted, posted := s.posted + [s.packet])
    case SeeDone => s.(host := if s.host.HPosted? then HCopying else HEvicted)
    case EndCopy => s.(host := HCopied(s.result))
    case Release =>
      s.(status := Empty, host := HIdle, delivered := if s.host.HCopied? then s.delivered + [s.host.r] else s.delivered)
    case PostEvict => s.(status := EvictReady, host := HEvicting)
    case PostStop => s.(status := Stop, host := HStopping)
    case SeeStopped => s.(host := HDown)
    case Restart => s.(status := Starting, host := HIdle, guest := GBoot)
    case BootLoad => s.(guest := if s.status == Starting then GBootStore else GPoll)
    case BootStore => s.(status := Empty, guest := GPoll)
    case Load => s.(guest := GSaw(s.status))
    case Act => GuestActs(s)
    case ReadPacket => s.(guest := GExec(s.packet))
    case Execute(r) => s.(guest := GWriting(r), runs := s.runs + [Run(s.guest.p, r)])
    case Evict(zero) => s.(guest := GWriting(zero))
    case WriteResult => s.(result := s.guest.r, guest := GWritten)
    case StoreDone => s.(status := Done, guest := GPoll)
  }

  /** A worker has just been started on an idle slot. */
  predicate Init<P, R>(s: State<P, R>) {
    && s.host.HIdle? && s.guest.GBoot? && (s.status == Empty || s.status == Starting)
    && s.posted == [] && s.runs == [] && s.delivered == []
  }

  // ---- The invariant --------------------------------------------------------

  /** The worker is between jobs and has seen nothing it would act on. */
  predicate Free<P, R>(g: Guest<P, R>) {
    g.GBoot? || g.GPoll? || (g.GSaw? && g.seen !in {Ready, EvictReady, Stop})
  }

  /** Waiting for the worker to claim what the host stored. */
  predicate Unclaimed<P, R>(s: State<P, R>, st: Status) {
    s.status == st && (Free(s.guest) || s.guest == GSaw(st))
  }

  /** Who may be doing what, phase by phase. */
  predicate Phases<P, R>(s: State<P, R>) {
    match s.host
    case HIdle =>
      (s.status == Empty && Free(s.guest)) || (s.status == Starting && (s.guest.GBoot? || s.guest.GBootStore?))
    case HWriting(_) => s.status == Empty && Free(s.guest)
    case HWritten => s.status == Empty && Free(s.guest)
    case HPosted =>
      || Unclaimed(s, Ready)
      || (s.status == Running && (s.guest.GReading? || s.guest.GExec? || s.guest.GWriting? || s.guest.GWritten?))
      || (s.status == Done && Free(s.guest))
    case HCopying => s.status == Done && Free(s.guest)
    case HCopied(_) => s.status == Done && Free(s.guest)
    case HEvicting =>
      || Unclaimed(s, EvictReady)
      || (s.status == Running && (s.guest.GEvict? || s.guest.GWriting? || s.guest.GWritten?))
      || (s.status == Done && Free(s.guest))
    case HEvicted => s.status == Done && Free(s.guest)
    case HStopping => Unclaimed(s, Stop) || (s.status == Empty && s.guest.GGone?)
    case HDown => s.status == Empty && s.guest.GGone?
  }

  /** A job is out with the worker and has not run yet. */
  predicate ToRun<P, R>(s: State<P, R>) {
    s.host.HPosted? && (s.status == Ready || s.guest.GReading? || s.guest.GExec?)
  }

  /** A job has been posted and its result not yet delivered. */
  predicate Owed<P, R>(s: State<P, R>) {
    s.host.HPosted? || s.host.HCopying? || s.host.HCopied?
  }

  /** Jobs run in posting order, each once, and their results come back in that
      order. */
  predicate Ledger<P(==), R(==)>(s: State<P, R>) {
    && |s.posted| == |s.runs| + (if ToRun(s) then 1 else 0)
    && |s.posted| == |s.delivered| + (if Owed(s) then 1 else 0)
    && (forall k :: 0 <= k < |s.runs| ==> s.runs[k].p == s.posted[k])
    && (forall k :: 0 <= k < |s.delivered| ==> s.delivered[k] == s.runs[k].r)
  }

  function Last<T>(q: seq<T>): T
    requires |q| > 0
  {
    q[|q| - 1]
  }

  /** The copy in flight is the job's own packet or result. */
  predicate InFlight<P(==), R(==)>(s: State<P, R>) {
    && (ToRun(s) ==>
          && |s.posted| > 0 && s.packet == Last(s.posted)
          && (s.guest.GExec? ==> s.guest.p == Last(s.posted)))
    && (Owed(s) && !ToRun(s) ==>
          && |s.runs| > 0
          && (s.guest.GWriting? ==> s.guest.r == Last(s.runs).r)
          && (s.guest.GWritten? || s.status == Done ==> s.result == Last(s.runs).r)
          && (s.host.HCopied? ==> s.host.r == Last(s.runs).r))
  }

  predicate Inv<P(==), R(==)>(s: State<P, R>) {
    Phases(s) && Ledger(s) && InFlight(s)
  }

  lemma InitInv<P, R>(s: State<P, R>)
    requires Init(s)
    ensures Inv(s)
  {
  }

  predicate IsGuest<P, R>(a: Action<P, R>) {
    a.BootLoad? || a.BootStore? || a.Load? || a.Act? || a.ReadPacket? || a.Execute? || a.Evict? || a.WriteResult? || a.StoreDone?
  }

  lemma HostKeeps<P, R>(s: State<P, R>, a: Action<P, R>)
    requires Inv(s) && Enabled(s, a) && !IsGuest(a)
    ensures Inv(Apply(s, a))
  {
  }

  lemma GuestPhases<P, R>(s: State<P, R>, a: Action<P, R>)
    requires Phases(s) && Enabled(s, a) && IsGuest(a)
    ensures Phases(Apply(s, a))
  {
  }

  /** Running the job moves it from posted to run, with the posted packet. */
  lemma ExecuteJobs<P, R>(s: State<P, R>, r: R)
    requires Inv(s) && s.guest.GExec?
    ensures Ledger(Apply(s, Execute(r))) && InFlight(Apply(s, Execute(r)))
  {
  }

  lemma SameDebts<P, R>(s: State<P, R>, a: Action<P, R>)
    requires Inv(s) && Enabled(s, a) && IsGuest(a) && !a.Execute?
    ensures ToRun(Apply(s, a)) == ToRun(s) && Owed(Apply(s, a)) == Owed(s)
    ensures Ledger(Apply(s, a))
  {
  }

  /** No other guest action touches the jobs. */
  lemma GuestJobs<P, R>(s: State<P, R>, a: Action<P, R>)
    requires Inv(s) && Enabled(s, a) && IsGuest(a) && !a.Execute?
    ensures Ledger(Apply(s, a)) && InFlight(Apply(s, a))
  {
    var s' := Apply(s, a);
    assert s'.host == s.host && s'.posted == s.posted && s'.runs == s.runs && s'.delivered == s.delivered && s'.packet == s.packet;
    SameDebts(s, a);
    hide Ledger;
  }

  lemma GuestKeeps<P, R>(s: State<P, R>, a: Action<P, R>)
    requires Inv(s) && Enabled(s, a) && IsGuest(a)
    ensures Inv(Apply(s, a))
  {
    hide Phases, Ledger, InFlight, Apply;
    GuestPhases(s, a);
    if a.Execute? {
      ExecuteJobs(s, a.r);
    } else {
      GuestJobs(s, a);
    }
  }

  // ---- Every interleaving ---------------------------------------------------

  predicate Possible<P, R>(s: State<P, R>, acts: seq<Action<P, R>>)
    decreases |acts|
  {
    acts == [] || (Enabled(s, acts[0]) && Possible(Apply(s, acts[0]), acts[1..]))
  }

  function After<P, R>(s: State<P, R>, acts: seq<Action<P, R>>): State<P, R>
    requires Possible(s, acts)
    decreases |acts|
  {
    if acts == [] then s else After(Apply(s, acts[0]), acts[1..])
  }

  lemma {:induction false} AlwaysInv<P, R>(s: State<P, R>, acts: seq<Action<P, R>>)
    requires Inv(s) && Possible(s, acts)
    ensures Inv(After(s, acts))
    decreases |acts|
  {
    hide Inv, Enabled, Apply;
    if acts != [] {
      if IsGuest(acts[0]) {
        GuestKeeps(s, acts[0]);
      } else {
        HostKeeps(s, acts[0]);
      }
      AlwaysInv(Apply(s, acts[0]), acts[1..]);
    }
  }

  /** Neither copy is ever read while the other side writes it. */
  predicate NoOverlap<P, R>(s: State<P, R>) {
    !(s.host.HWriting? && s.guest.GReading?) && !(s.guest.GWriting? && s.host.HCopying?)
  }

  /** Job `k` ran as posted, at most once, and what was delivered for it is the
      outcome of that run. */
  predicate JobsOk<P(==), R(==)>(s: State<P, R>) {
    && |s.delivered| <= |s.runs| <= |s.posted| <= |s.delivered| + 1
    && (forall k :: 0 <= k < |s.runs| ==> s.runs[k].p == s.posted[k])
    && (forall k :: 0 <= k < |s.delivered| ==> s.delivered[k] == s.runs[k].r)
  }

  lemma InvSafe<P, R>(s: State<P, R>)
    requires Inv(s)
    ensures NoOverlap(s) && JobsOk(s)
  {
  }

  /** Safety over every interleaving of the worker with the host's steps. */
  lemma SlotSafe<P, R>(s: State<P, R>, acts: seq<Action<P, R>>)
    requires Init(s) && Possible(s, acts)
    ensures NoOverlap(After(s, acts)) && JobsOk(After(s, acts))
  {
    InitInv(s);
    AlwaysInv(s, acts);
    hide Possible;
    InvSafe(After(s, acts));
  }

  // ---- What is asked gets done ----------------------------------------------

  /** What the host waits for has happened: DONE for a job or an eviction, the
      worker gone for a stop, EMPTY for a start. */
  predicate Settled<P, R>(s: State<P, R>) {
    match s.host
    case HPosted => s.status == Done
    case HEvicting => s.status == Done
    case HStopping => s.status == Empty && s.guest.GGone?
    case HIdle => s.status == Empty
    case _ => true
  }

  /** The guest's next action; a run's outcome is `r`. */
  function GuestNext<P, R>(s: State<P, R>, r: R): Action<P, R> {
    match s.guest
    case GBoot => BootLoad
    case GBootStore => BootStore
    case GPoll => Load
    case GSaw(_) => Act
    case GReading => ReadPacket
    case GExec(_) => Execute(r)
    case GEvict => Evict(r)
    case GWriting(_) => WriteResult
    case GWritten => StoreDone
    case GGone => Load
  }

  /** Guest actions left until then. */
  function Left<P, R>(s: State<P, R>): nat {
    if Settled(s) then 0
    else
      match s.guest
      case GBootStore => 1
      case GWritten => 1
      case GWriting(_) => 2
      case GExec(_) => 3
      case GEvict => 3
      case GReading => 4
      case GSaw(st) => if st == s.status then 5 else 7
      case GPoll => 6
      case _ => 7
  }

  lemma GuestAdvances<P, R>(s: State<P, R>, r: R)
    requires Inv(s) && !Settled(s)
    ensures
      var a := GuestNext(s, r);
      Enabled(s, a) && IsGuest(a) && Apply(s, a).host == s.host && Apply(s, a).posted == s.posted && Left(Apply(s, a)) < Left(s)
  {
    hide Ledger, InFlight;
  }

  /** The worker alone does what the host waits for, in at most seven actions. */
  lemma {:induction false} WorkerSettles<P, R>(s: State<P, R>, r: R) returns (acts: seq<Action<P, R>>)
    requires Inv(s)
    ensures |acts| <= Left(s) <= 7 && (forall k :: 0 <= k < |acts| ==> IsGuest(acts[k])) && Possible(s, acts)
    ensures
      var e := After(s, acts);
      Inv(e) && Settled(e) && e.host == s.host && e.posted == s.posted
    decreases Left(s)
  {
    hide Enabled, Apply, Phases, Ledger, InFlight, IsGuest, Settled;
    if Settled(s) {
      acts := [];
    } else {
      var a := GuestNext(s, r);
      GuestAdvances(s, r);
      GuestKeeps(s, a);
      var rest := WorkerSettles(Apply(s, a), r);
      acts := [a] + rest;
      assert acts[1..] == rest;
    }
  }

  lemma FinishedOnce<P, R>(s: State<P, R>)
    requires Inv(s) && s.host.HPosted? && s.status == Done
    ensures |s.runs| == |s.posted| > 0 && Last(s.runs).p == Last(s.posted)
  {
  }

  /** The worker alone finishes a posted job, in at most seven actions, having run
      it exactly once. */
  lemma JobFinishes<P, R>(s: State<P, R>, r: R) returns (acts: seq<Action<P, R>>)
    requires Inv(s) && s.host.HPosted?
    ensures |acts| <= 7 && (forall k :: 0 <= k < |acts| ==> IsGuest(acts[k])) && Possible(s, acts)
    ensures
      var e := After(s, acts);
      e.status == Done && e.host.HPosted? && e.posted == s.posted && |e.runs| == |e.posted| && Last(e.runs).p == Last(e.posted)
  {
    hide Possible, After, Left, Phases, Ledger, InFlight, IsGuest;
    acts := WorkerSettles(s, r);
    FinishedOnce(After(s, acts));
  }

  /** The host then collects the outcome of that run and the slot is free again. */
  lemma HostCollects<P, R>(s: State<P, R>)
    requires Inv(s) && s.host.HPosted? && s.status == Done
    ensures
      var acts := [SeeDone, EndCopy, Release];
      && Possible(s, acts)
      && var e := After(s, acts);
         e.status == Empty && e.host.HIdle? && |s.runs| > 0 && e.delivered == s.delivered + [Last(s.runs).r] && |e.delivered| == |e.posted|
  {
    var acts: seq<Action<P, R>> := [SeeDone, EndCopy, Release];
    var s1 := Apply(s, SeeDone);
    var s2 := Apply(s1, EndCopy);
    assert acts[1..] == [EndCopy, Release] && acts[1..][1..] == [Release] && acts[1..][1..][1..] == [];
    assert Possible(Apply(s2, Release), []);
    assert Possible(s2, [Release]) && After(s2, [Release]) == Apply(s2, Release);
    assert Possible(s1, [EndCopy, Release]) && After(s1, [EndCopy, Release]) == Apply(s2, Release);
  }
}
