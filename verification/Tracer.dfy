/** Stopping every thread of a process while it keeps creating and losing threads: the ProcessTracer
    constructor and detachFromProcess (process.cpp). The tracer runs against a model of the kernel in
    which an arbitrary schedule of thread creations and exits is interleaved with its system calls. */
module Tracer {
  import opened Basics

  const PID_MAX: int := 4194304
  const EPERM: int := 1
  const ESRCH: int := 3
  const ECHILD: int := 10

  // ----- The process under the tracer's feet

  datatype Event = Spawn(parent: int, child: int) | Exit(tid: int)

  /** What happens in the process before one system call, and how the call fails if it is of the kind
      that can: the error of an attach, whether a listing fails, the error of a wait (0 for none). */
  datatype Slot = Slot(events: seq<Event>, refusal: nat, listingFails: bool, waitError: nat)

  /** `stopped` are the threads held; `schedule` is consumed one slot per system call. The rest is a log that
      only the system calls write: the attaches tried, those refused with their errors, and those among
      them that found no such thread; what the last listing showed after how many attaches, and how many
      listings failed; how many waits failed fatally; and the threads that got loose: attached to, but
      gone before they stopped, or not held after a fatal wait, or detached from. */
  datatype Kernel = Kernel(
    live: set<int>,
    stopped: set<int>,
    schedule: seq<Slot>,
    attempts: seq<int>,
    refused: map<int, nat>,
    missing: set<int>,
    listing: set<int>,
    attemptsBeforeListing: nat,
    failedListings: nat,
    fatalWaits: nat,
    loose: set<int>)

  predicate IsTid(tid: int) {
    0 < tid <= PID_MAX
  }

  /** A stopped thread neither creates threads nor exits; an event that cannot happen does not. */
  function Happens(live: set<int>, stopped: set<int>, e: Event): set<int> {
    match e
    case Spawn(parent, child) =>
      if parent in live && parent !in stopped && child !in live && IsTid(child) then live + {child} else live
    case Exit(tid) =>
      if tid in live && tid !in stopped then live - {tid} else live
  }

  function AfterEvents(live: set<int>, stopped: set<int>, events: seq<Event>): set<int>
    decreases |events|
  {
    if events == [] then live else AfterEvents(Happens(live, stopped, events[0]), stopped, events[1..])
  }

  function Now(k: Kernel): Slot {
    if k.schedule == [] then Slot([], 0, false, 0) else k.schedule[0]
  }

  function Interleave(k: Kernel): Kernel {
    k.(live := AfterEvents(k.live, k.stopped, Now(k).events),
       schedule := if k.schedule == [] then [] else k.schedule[1..])
  }

  /** The kernel state after a listing, and what it shows: all live threads, or nothing if it fails. */
  function ListTasks(k: Kernel): (Kernel, Option<set<int>>) {
    var k' := Interleave(k);
    if Now(k).listingFails then (k'.(failedListings := k'.failedListings + 1), None)
    else (k'.(listing := k'.live, attemptsBeforeListing := |k'.attempts|), Some(k'.live))
  }

  /** The kernel state after an attach to `tid`, and 0 or the error. The thread still runs. */
  function PtraceAttach(k: Kernel, tid: int): (Kernel, nat) {
    var refusal := Now(k).refusal;
    var k' := Interleave(k).(attempts := k.attempts + [tid]);
    if tid !in k'.live then (k'.(refused := k.refused[tid := ESRCH], missing := k.missing + {tid}), ESRCH)
    else if refusal != 0 then (k'.(refused := k.refused[tid := refusal]), refusal)
    else if tid in k'.stopped then (k'.(refused := k.refused[tid := EPERM]), EPERM)
    else (k', 0)
  }

  /** A failing wait that the source does not put down to old kernels. */
  predicate Fatal(error: nat, tid: int, pid: int) {
    error != 0 && (tid == pid || error != ECHILD)
  }

  /** The kernel state after waiting for an attached thread, and 0 or the error. The thread is held from
      then on, unless it has exited before it stopped, or the wait failed fatally. */
  function WaitPid(k: Kernel, tid: int, pid: int): (Kernel, nat) {
    var error := Now(k).waitError;
    var k' := Interleave(k);
    if Fatal(error, tid, pid) then (k'.(loose := k'.loose + {tid}, fatalWaits := k'.fatalWaits + 1), error)
    else if tid !in k'.live then (k'.(loose := k'.loose + {tid}), error)
    else (k'.(stopped := k'.stopped + {tid}), error)
  }

  function PtraceDetach(k: Kernel, tid: int): Kernel {
    Interleave(k.(stopped := k.stopped - {tid}, loose := k.loose + {tid}))
  }

  ghost predicate KernelInv(k: Kernel) {
    && k.stopped <= k.live
    && (forall tid :: tid in k.live ==> IsTid(tid))
    && k.attemptsBeforeListing <= |k.attempts|
  }

  lemma {:induction false} InterleaveKeepsInv(k: Kernel)
    requires KernelInv(k)
    ensures KernelInv(Interleave(k)) && SameLog(Interleave(k), k) && Interleave(k).stopped == k.stopped
  {
    EventsKeepStopped(k.live, k.stopped, Now(k).events);
  }

  lemma {:induction false} EventsKeepStopped(live: set<int>, stopped: set<int>, events: seq<Event>)
    requires stopped <= live && forall tid :: tid in live ==> IsTid(tid)
    ensures stopped <= AfterEvents(live, stopped, events)
    ensures forall tid :: tid in AfterEvents(live, stopped, events) ==> IsTid(tid)
    decreases |events|
  {
    if events != [] {
      EventsKeepStopped(Happens(live, stopped, events[0]), stopped, events[1..]);
    }
  }

  /** Once every live thread is stopped, nothing that can happen changes the set of threads: the
      process stays quiescent for as long as the tracer holds it. */
  lemma {:induction false} QuiescentForever(live: set<int>, stopped: set<int>, events: seq<Event>)
    requires live <= stopped
    ensures AfterEvents(live, stopped, events) == live
  {
    if events != [] {
      QuiescentForever(live, stopped, events[1..]);
    }
  }

  // ----- Ids that do not come back

  function Events(schedule: seq<Slot>): seq<Event> {
    if schedule == [] then [] else schedule[0].events + Events(schedule[1..])
  }

  /** No thread is created with the id of one that exited before. */
  ghost predicate NoIdReused(events: seq<Event>) {
    forall i, j :: 0 <= i < j < |events| && events[i].Exit? && events[j].Spawn? ==> events[j].child != events[i].tid
  }

  ghost predicate Orderly(k: Kernel) {
    NoIdReused(Events(k.schedule))
  }

  ghost predicate NeverSpawned(events: seq<Event>, tid: int) {
    forall e :: e in events && e.Spawn? ==> e.child != tid
  }

  /** The thread is gone for good. */
  ghost predicate Departed(k: Kernel, tid: int) {
    tid !in k.live && NeverSpawned(Events(k.schedule), tid)
  }

  ghost predicate HereOrGone(k: Kernel, tid: int) {
    tid in k.live || Departed(k, tid)
  }

  lemma {:induction false} OnlyExitsLeave(live: set<int>, stopped: set<int>, events: seq<Event>, tid: int)
    requires tid in live && tid !in AfterEvents(live, stopped, events)
    ensures Exit(tid) in events
    decreases |events|
  {
    if events[0] != Exit(tid) {
      OnlyExitsLeave(Happens(live, stopped, events[0]), stopped, events[1..], tid);
    }
  }

  lemma {:induction false} OnlySpawnsArrive(live: set<int>, stopped: set<int>, events: seq<Event>, tid: int)
    requires tid !in live && NeverSpawned(events, tid)
    ensures tid !in AfterEvents(live, stopped, events)
    decreases |events|
  {
    if events != [] {
      assert events[0] in events && forall e :: e in events[1..] ==> e in events;
      OnlySpawnsArrive(Happens(live, stopped, events[0]), stopped, events[1..], tid);
    }
  }

  lemma {:induction false} OrderlyParts(now: seq<Event>, rest: seq<Event>)
    requires NoIdReused(now + rest)
    ensures NoIdReused(rest)
    ensures forall tid :: Exit(tid) in now ==> NeverSpawned(rest, tid)
  {
    var all := now + rest;
    assert forall i :: 0 <= i < |rest| ==> rest[i] == all[|now| + i];
    forall tid, e | Exit(tid) in now && e in rest && e.Spawn? ensures e.child != tid {
      var i :| 0 <= i < |now| && now[i] == Exit(tid);
      var j :| 0 <= j < |rest| && rest[j] == e;
      assert all[i] == Exit(tid) && all[|now| + j] == e;
    }
  }

  lemma {:induction false} NeverSpawnedParts(now: seq<Event>, rest: seq<Event>, tid: int)
    requires NeverSpawned(now + rest, tid)
    ensures NeverSpawned(now, tid) && NeverSpawned(rest, tid)
  {
    assert forall e :: e in now || e in rest ==> e in now + rest;
  }

  /** In an orderly kernel a thread that leaves is gone for good, whatever is stopped meanwhile. */
  lemma {:induction false} StepDeparts(k: Kernel, stopped: set<int>, k': Kernel, tid: int)
    requires Orderly(k) && k'.live == AfterEvents(k.live, stopped, Now(k).events)
    requires k'.schedule == if k.schedule == [] then [] else k.schedule[1..]
    ensures Orderly(k')
    ensures HereOrGone(k, tid) ==> HereOrGone(k', tid)
    ensures Departed(k, tid) ==> Departed(k', tid)
  {
    hide AfterEvents, NoIdReused, NeverSpawned;
    var now, rest := Now(k).events, Events(k'.schedule);
    assert Events(k.schedule) == now + rest;
    OrderlyParts(now, rest);
    if tid in k.live && tid !in k'.live {
      OnlyExitsLeave(k.live, stopped, now, tid);
    }
    if Departed(k, tid) {
      NeverSpawnedParts(now, rest, tid);
      OnlySpawnsArrive(k.live, stopped, now, tid);
    }
  }

  // ----- What one system call does to the rest of the run

  /** Why an attach was refused: there was no such thread, or the kernel refused in one of these slots. */
  ghost predicate Reason(schedule: seq<Slot>, k: Kernel, tid: int)
    requires tid in k.refused
  {
    || (tid in k.missing && k.refused[tid] == ESRCH)
    || (k.refused[tid] != 0 && exists s :: s in schedule && s.refusal == k.refused[tid])
  }

  /** `k'` is a later state: it goes on with slots of `k`, and everything logged in between has its reason in
      them; and in an orderly kernel nobody returns. */
  ghost predicate Follows(k: Kernel, k': Kernel) {
    && (forall s :: s in k'.schedule ==> s in k.schedule)
    && k.missing <= k'.missing && k.failedListings <= k'.failedListings && k.fatalWaits <= k'.fatalWaits
    && (k.failedListings < k'.failedListings ==> exists s :: s in k.schedule && s.listingFails)
    && (k.fatalWaits < k'.fatalWaits ==> exists s :: s in k.schedule && s.waitError != 0)
    && (forall tid :: tid in k'.refused ==>
          (tid in k.refused && k'.refused[tid] == k.refused[tid]) || Reason(k.schedule, k', tid))
    && (Orderly(k) ==> Orderly(k') && NobodyReturns(k, k'))
  }

  ghost predicate NobodyReturns(k: Kernel, k': Kernel) {
    && (forall tid :: HereOrGone(k, tid) ==> HereOrGone(k', tid))
    && (forall tid :: Departed(k, tid) ==> Departed(k', tid))
  }

  lemma {:induction false} FollowsItself(k: Kernel)
    ensures Follows(k, k)
  {
    hide Orderly, HereOrGone, Departed, Reason;
  }

  lemma {:induction false} FollowsOn(k: Kernel, k': Kernel, k'': Kernel)
    requires Follows(k, k') && Follows(k', k'')
    ensures Follows(k, k'')
  {
    hide Orderly, HereOrGone, Departed;
  }

  lemma {:induction false} StepFollows(k: Kernel, stopped: set<int>, k': Kernel)
    requires k'.live == AfterEvents(k.live, stopped, Now(k).events)
    requires k'.schedule == if k.schedule == [] then [] else k.schedule[1..]
    ensures forall s :: s in k'.schedule ==> s in k.schedule
    ensures Orderly(k) ==> Orderly(k') && NobodyReturns(k, k')
  {
    hide AfterEvents, Orderly, HereOrGone, Departed;
    if Orderly(k) {
      StepDeparts(k, stopped, k', 0);
      forall tid
        ensures HereOrGone(k, tid) ==> HereOrGone(k', tid)
        ensures Departed(k, tid) ==> Departed(k', tid)
      {
        StepDeparts(k, stopped, k', tid);
      }
    }
  }

  lemma {:induction false} NowIsScheduled(k: Kernel)
    ensures k.schedule != [] ==> Now(k) in k.schedule
    ensures k.schedule == [] ==> Now(k).refusal == 0 && !Now(k).listingFails && Now(k).waitError == 0
  {
  }

  lemma {:induction false} ListFollows(k: Kernel)
    ensures Follows(k, ListTasks(k).0)
  {
    hide AfterEvents, Orderly, NobodyReturns, Now;
    NowIsScheduled(k);
    StepFollows(k, k.stopped, ListTasks(k).0);
  }

  lemma {:induction false} AttachFollows(k: Kernel, tid: int)
    requires tid !in k.stopped
    ensures Follows(k, PtraceAttach(k, tid).0)
  {
    hide AfterEvents, Orderly, NobodyReturns, Now;
    NowIsScheduled(k);
    StepFollows(k, k.stopped, PtraceAttach(k, tid).0);
  }

  lemma {:induction false} WaitFollows(k: Kernel, tid: int, pid: int)
    ensures Follows(k, WaitPid(k, tid, pid).0)
  {
    hide AfterEvents, Orderly, NobodyReturns, Now;
    NowIsScheduled(k);
    StepFollows(k, k.stopped, WaitPid(k, tid, pid).0);
  }

  lemma {:induction false} DetachFollows(k: Kernel, tid: int)
    ensures Follows(k, PtraceDetach(k, tid))
  {
    hide AfterEvents, Orderly, NobodyReturns;
    StepFollows(k, k.stopped - {tid}, PtraceDetach(k, tid));
  }

  // ----- The tracer

  datatype Outcome = AllStopped | ListingFailed | PermissionDenied | SystemError(errno: nat)

  ghost predicate Distinct(s: seq<int>) {
    forall i, j :: 0 <= i < j < |s| ==> s[i] != s[j]
  }

  /** The thread ids not tried yet; every round that goes on uses some up. */
  ghost function Untried(tried: set<int>): set<int> {
    (set tid {:trigger IsTid(tid)} | 0 < tid <= PID_MAX && IsTid(tid)) - tried
  }

  lemma {:induction false} LiveAreTids(k: Kernel)
    requires KernelInv(k)
    ensures forall tid :: tid in k.live ==> IsTid(tid)
  {
  }

  lemma {:induction false} NotBefore(s: seq<int>, i: nat)
    requires Distinct(s) && i < |s|
    ensures s[i] !in s[..i]
  {
  }

  lemma {:induction false} NothingTried(attempts: seq<int>)
    requires attempts == []
    ensures Distinct(attempts)
  {
  }

  lemma {:induction false} SomeTid(tids: set<int>)
    ensures tids == {} || exists tid :: tid in tids
  {
    if !exists tid :: tid in tids { assert tids == {}; }
  }

  lemma {:induction false} OnlyOne(s: seq<int>, tid: int)
    requires Distinct(s) && forall t :: t in s <==> t == tid
    ensures s == [tid]
  {
    assert tid in s;
    assert forall i :: 0 <= i < |s| ==> s[i] in s;
    FirstTwoDiffer(s);
  }

  lemma {:induction false} FirstTwoDiffer(s: seq<int>)
    requires Distinct(s)
    ensures |s| <= 1 || s[0] != s[1]
  {
  }

  lemma {:induction false} UntriedShrinks(before: set<int>, after: set<int>, tid: int)
    requires before <= after && tid in after && tid !in before && IsTid(tid)
    ensures Untried(after) < Untried(before)
  {
    assert tid in Untried(before) && tid !in Untried(after);
  }

  function AfterTry(errors: map<int, nat>, tid: int, error: nat): map<int, nat> {
    if error == 0 then errors else errors[tid := error]
  }

  function OutcomeFor(errno: nat): Outcome {
    if errno == EPERM then PermissionDenied else SystemError(errno)
  }

  /** The same attaches, listings and fatal waits. */
  predicate SameTries(k: Kernel, k': Kernel) {
    && k.attempts == k'.attempts && k.refused == k'.refused && k.missing == k'.missing
    && SameListing(k, k') && k.fatalWaits == k'.fatalWaits
  }

  predicate SameLog(k: Kernel, k': Kernel) {
    SameTries(k, k') && k.loose == k'.loose
  }

  /** What an attach and a wait write into the log. */
  lemma {:induction false} AttachLog(k: Kernel, tid: int)
    requires KernelInv(k)
    ensures var (k', error) := PtraceAttach(k, tid);
      && KernelInv(k') && (error == 0 ==> tid in k'.live && IsTid(tid))
      && k'.attempts == k.attempts + [tid]
      && k'.refused == (if error == 0 then k.refused else k.refused[tid := error])
      && SameListing(k, k') && k'.fatalWaits == k.fatalWaits
      && k'.loose == k.loose && k'.stopped == k.stopped
  {
    hide AfterEvents;
    EventsKeepStopped(k.live, k.stopped, Now(k).events);
  }

  lemma {:induction false} WaitLog(k: Kernel, tid: int, pid: int)
    requires KernelInv(k)
    ensures var (k', error) := WaitPid(k, tid, pid);
      && KernelInv(k')
      && k'.attempts == k.attempts && k'.refused == k.refused && k'.missing == k.missing && SameListing(k, k')
      && k'.fatalWaits == k.fatalWaits + (if Fatal(error, tid, pid) then 1 else 0)
      && if k'.stopped == k.stopped then k'.loose == k.loose + {tid} || tid in k.stopped
         else k'.loose == k.loose && k'.stopped == k.stopped + {tid} && tid !in k.stopped
  {
    hide AfterEvents;
    EventsKeepStopped(k.live, k.stopped, Now(k).events);
  }

  predicate SameListing(k: Kernel, k': Kernel) {
    && k.listing == k'.listing && k.attemptsBeforeListing == k'.attemptsBeforeListing
    && k.failedListings == k'.failedListings
  }

  /** A process and its schedule before anything is logged. */
  function Started(live: set<int>, schedule: seq<Slot>): (k: Kernel)
    ensures CleanLog(k) && k.live == live && k.schedule == schedule
  {
    Kernel(live, {}, schedule, [], map[], {}, {}, 0, 0, 0, {})
  }

  ghost predicate CleanLog(k: Kernel) {
    && k.stopped == {} && k.attempts == [] && k.refused == map[] && k.missing == {} && k.loose == {}
    && k.failedListings == 0 && k.fatalWaits == 0
  }

  /** The last listing, made after an attach to the thread had been tried, shows it. */
  predicate SeenAgain(k: Kernel, tid: int) {
    && k.attemptsBeforeListing <= |k.attempts|
    && tid in k.attempts[..k.attemptsBeforeListing]
    && tid in k.listing
  }

  ghost predicate SomeoneSeenAgain(k: Kernel) {
    exists tid :: tid in k.refused && SeenAgain(k, tid)
  }

  /** In an orderly kernel the threads that were not found are gone for good, and so are those that got loose
      as long as no wait failed. */
  ghost predicate Explained(k: Kernel) {
    && Orderly(k)
    && (forall tid :: tid in k.missing ==> Departed(k, tid))
    && (k.fatalWaits == 0 ==> forall tid :: tid in k.loose ==> Departed(k, tid))
  }

  lemma {:induction false} ExplainedStays(k: Kernel, k': Kernel)
    requires Explained(k) && Follows(k, k') && k'.missing == k.missing
    requires k'.loose == k.loose || k'.fatalWaits > 0
    ensures Explained(k')
  {
    hide Orderly, HereOrGone, Departed, Reason;
  }

  lemma {:induction false} ExplainedAttach(k: Kernel, tid: int)
    requires Explained(k) && HereOrGone(k, tid) && tid !in k.stopped
    ensures Explained(PtraceAttach(k, tid).0)
  {
    hide Orderly, AfterEvents, NeverSpawned, Reason, Events;
    AttachFollows(k, tid);
  }

  lemma {:induction false} ExplainedWait(k: Kernel, tid: int, pid: int)
    requires Explained(k) && tid in k.live
    ensures Explained(WaitPid(k, tid, pid).0)
  {
    hide Orderly, AfterEvents, NeverSpawned, Reason, Events;
    WaitFollows(k, tid, pid);
    assert HereOrGone(k, tid);
  }

  lemma {:induction false} AllHere(k: Kernel)
    ensures forall tid :: tid in k.live ==> HereOrGone(k, tid)
  {
  }

  lemma {:induction false} OrderlyWhenExplained(k: Kernel)
    requires Explained(k)
    ensures Orderly(k)
  {
  }

  lemma {:induction false} NewAttempt(attempts: seq<int>, tid: int)
    ensures Distinct(attempts) && tid !in attempts ==> Distinct(attempts + [tid])
  {
  }

  /** What was in reach stays in reach or is gone. */
  lemma {:induction false} ReachStays(k: Kernel, k': Kernel)
    requires Orderly(k) && Follows(k, k')
    ensures forall tid :: HereOrGone(k, tid) ==> HereOrGone(k', tid)
  {
  }

  /** Nothing fails and nothing is refused. */
  ghost predicate Willing(k: Kernel) {
    forall s :: s in k.schedule ==> s.refusal == 0 && !s.listingFails && s.waitError == 0
  }

  lemma {:induction false} WillingLog(k: Kernel, k': Kernel)
    requires Willing(k) && CleanLog(k) && Follows(k, k')
    ensures k'.failedListings == 0 && k'.fatalWaits == 0 && k'.refused.Keys <= k'.missing
  {
    hide Orderly;
    forall tid | tid in k'.refused ensures tid in k'.missing {
      assert Reason(k.schedule, k', tid);
    }
  }

  lemma {:induction false} MissingStaysAway(k: Kernel)
    requires Explained(k) && k.refused.Keys <= k.missing
    ensures forall tid :: tid in k.refused ==> tid !in k.live
  {
  }

  lemma {:induction false} LooseStaysAway(k: Kernel)
    requires Explained(k) && k.fatalWaits == 0
    ensures k.loose !! k.live
  {
    forall tid | tid in k.loose ensures tid !in k.live {
      assert Departed(k, tid);
    }
  }

  /** A process of one thread in which nothing happens and nothing is refused; waits may fail. */
  ghost predicate Alone(k: Kernel, tid: int) {
    k.live == {tid} && forall s | s in k.schedule :: s.events == [] && s.refusal == 0 && !s.listingFails
  }

  /** A listing of such a process shows its thread and leaves the rest to the next call. */
  lemma {:induction false} ListingIsInterleaving(k: Kernel, tid: int, pid: int)
    requires Alone(k, tid)
    ensures Alone(ListTasks(k).0, tid) && ListTasks(k).1 == Some({tid})
    ensures HeldAlone(Interleave(ListTasks(k).0), tid, pid) == HeldAlone(Interleave(Interleave(k)), tid, pid)
  {
  }

  /** What is held of such a process after a wait that is the next call. */
  ghost function HeldAlone(k: Kernel, tid: int, pid: int): set<int> {
    if Fatal(Now(k).waitError, tid, pid) then {} else {tid}
  }

  /** Attaching to such a process and waiting for it. */
  lemma {:induction false} StopAlone(k: Kernel, tid: int, pid: int)
    requires Alone(k, tid) && k.stopped == {}
    ensures var (k1, e1) := PtraceAttach(k, tid);
      var (k2, e2) := WaitPid(k1, tid, pid);
      && e1 == 0 && Alone(k2, tid)
      && k2.stopped == HeldAlone(Interleave(k), tid, pid)
      && (Fatal(e2, tid, pid) ==> k2.stopped == {})
  {
    AloneStays(k, tid);
    AloneStays(Interleave(k), tid);
  }

  lemma {:induction false} AloneIsLive(k: Kernel, pid: int)
    requires Alone(k, pid)
    ensures k.live == {pid}
    ensures forall k': Kernel :: k'.live == k.live && k'.schedule == k.schedule ==> Alone(k', pid)
  {
  }

  lemma {:induction false} AloneStays(k: Kernel, pid: int)
    requires Alone(k, pid)
    ensures Alone(Interleave(k), pid) && Now(k).refusal == 0 && !Now(k).listingFails
  {
  }

  /** What is left of trying to stop one thread: after a refusal nothing has changed but the log; otherwise the
      thread is remembered, and waited for, and after a fatal wait nothing is held any more. */
  ghost predicate Tried(k: Kernel, tids: set<int>, tid: int, pid: int, k': Kernel, tids': set<int>) {
    var (k1, attached) := PtraceAttach(k, tid);
    var (k2, waited) := WaitPid(k1, tid, pid);
    if attached != 0 then k' == k1 && tids' == tids
    else
      && tids' == tids + {tid}
      && if Fatal(waited, tid, pid) then k'.stopped == {} && SameTries(k', k2) && (Alone(k2, tid) ==> Alone(k', tid))
         else k' == k2
  }

  /** The one thread of a process to which nothing else happens is remembered, and held unless the wait is
      fatal. */
  lemma {:induction false} TriedAlone(k: Kernel, tid: int, pid: int, k': Kernel, tids': set<int>)
    requires Alone(k, tid) && k.stopped == {} && Tried(k, {}, tid, pid, k', tids')
    ensures PtraceAttach(k, tid).1 == 0 && tids' == {tid} && Alone(k', tid)
    ensures k'.stopped == HeldAlone(Interleave(k), tid, pid)
  {
    hide Interleave, Alone, HeldAlone, PtraceAttach;
    StopAlone(k, tid, pid);
  }

  /** What a listing writes into the log. */
  lemma {:induction false} ListLog(k: Kernel)
    requires KernelInv(k)
    ensures var (k', shown) := ListTasks(k);
      && KernelInv(k')
      && k'.attempts == k.attempts && k'.refused == k.refused && k'.missing == k.missing
      && k'.fatalWaits == k.fatalWaits && k'.loose == k.loose && k'.stopped == k.stopped
      && match shown
         case Some(tids) =>
           && tids == k'.live == k'.listing && k'.attemptsBeforeListing == |k'.attempts|
           && k'.failedListings == k.failedListings
         case None =>
           && k'.listing == k.listing && k'.attemptsBeforeListing == k.attemptsBeforeListing
           && k'.failedListings == k.failedListings + 1
           && forall tid :: SeenAgain(k', tid) <==> SeenAgain(k, tid)
  {
    hide AfterEvents;
    EventsKeepStopped(k.live, k.stopped, Now(k).events);
  }

  lemma {:induction false} CleanIsExplained(k: Kernel)
    requires CleanLog(k)
    ensures Orderly(k) ==> Explained(k)
    ensures k.failedListings == 0 && k.refused == map[]
  {
  }

  /** Whatever is in the log of a run has its reason in the schedule it started with. */
  lemma {:induction false} LogHasReasons(k: Kernel, k': Kernel)
    requires CleanLog(k) && Follows(k, k')
    ensures k'.failedListings > 0 ==> exists s :: s in k.schedule && s.listingFails
    ensures k'.fatalWaits > 0 ==> exists s :: s in k.schedule && s.waitError != 0
    ensures forall tid :: tid in k'.refused ==> Reason(k.schedule, k', tid)
  {
    hide Orderly, Reason;
  }

  ghost predicate AloneSoFar(k0: Kernel, tid: int, pid: int, k: Kernel, tids: set<int>, errors: map<int, nat>,
                             found: bool)
  {
    && Alone(k, tid) && errors == map[]
    && if tids == {} then found && k == k0
       else tids == {tid} && k.stopped == HeldAlone(Interleave(Interleave(k0)), tid, pid)
  }

  ghost predicate RefusedSoFar(k0: Kernel, tid: int, k: Kernel, tids: set<int>, errors: map<int, nat>) {
    var (k2, error) := PtraceAttach(ListTasks(k0).0, tid);
    tids == {} && if errors == map[] then k == k0 else k == k2 && errors == map[tid := error]
  }

  lemma {:induction false} RefusedFirst(k: Kernel, tid: int)
    requires RefusedAgain(k, tid)
    ensures var (k1, first) := ListTasks(k);
      var (k2, error) := PtraceAttach(k1, tid);
      && first == Some({tid}) && error != 0
      && ListTasks(k2).1.Some? && tid in ListTasks(k2).1.value
  {
  }

  /** The first listing shows one thread, the attach to it fails, and the next listing shows it again. */
  ghost predicate RefusedAgain(k: Kernel, tid: int) {
    var (k1, first) := ListTasks(k);
    var (k2, error) := PtraceAttach(k1, tid);
    var (_, second) := ListTasks(k2);
    first == Some({tid}) && error != 0 && second.Some? && tid in second.value
  }

  lemma {:induction false} LeavesAndReturns(k: Kernel, pid: int, other: int)
    requires k.live == {pid} && k.stopped == {} && IsTid(pid) && IsTid(other) && pid != other
    requires k.schedule == [Slot([], 0, false, 0), Slot([Spawn(pid, other), Exit(pid)], 0, false, 0),
                            Slot([Spawn(other, pid)], 0, false, 0)]
    ensures RefusedAgain(k, pid) && PtraceAttach(ListTasks(k).0, pid).1 == ESRCH
  {
    var k1 := ListTasks(k).0;
    assert k1.live == {pid} && k1.schedule == k.schedule[1..];
    TwoEvents({pid}, Spawn(pid, other), Exit(pid));
    var k2 := PtraceAttach(k1, pid).0;
    assert k2.live == {other} && k2.schedule == k.schedule[2..];
    OneEvent({other}, Spawn(other, pid));
  }

  lemma {:induction false} OneEvent(live: set<int>, e: Event)
    ensures AfterEvents(live, {}, [e]) == Happens(live, {}, e)
  {
    assert [e][1..] == [];
  }

  lemma {:induction false} TwoEvents(live: set<int>, e: Event, e': Event)
    ensures AfterEvents(live, {}, [e, e']) == Happens(Happens(live, {}, e), {}, e')
  {
    assert [e, e'][1..] == [e'];
    OneEvent(Happens(live, {}, e), e');
  }

  /** What the two kinds of runs whose end is known from their start have come to between two rounds. */
  ghost predicate Foretold(k0: Kernel, pid: int, k: Kernel, tids: set<int>, errors: map<int, nat>, found: bool) {
    && (forall tid :: Alone(k0, tid) ==> AloneSoFar(k0, tid, pid, k, tids, errors, found))
    && forall tid :: RefusedAgain(k0, tid) ==> found && RefusedSoFar(k0, tid, k, tids, errors)
  }

  /** What such runs need to know of a round after the listing in `k`: who is listed, who is seen again and, if
      it is only one thread, what trying to stop it has done. */
  ghost predicate RoundSays(k: Kernel, pid: int, listed: seq<int>, tids: set<int>, errors: map<int, nat>,
                            again: Option<int>, k': Kernel, tids': set<int>, errors': map<int, nat>, found: bool) {
    && Distinct(listed)
    && (again.Some? <==> exists tid :: tid in listed && tid in errors)
    && (again.Some? ==> again.value in errors && again.value in errors' && errors'[again.value] == errors[again.value])
    && (again.None? && !found ==> k' == k && tids' == tids && errors' == errors)
    && (again.None? && found ==> exists tid :: tid in listed && tid !in tids && tid !in errors)
    && (|listed| == 1 && listed[0] !in tids + errors.Keys ==>
          && found && errors' == AfterTry(errors, listed[0], PtraceAttach(k, listed[0]).1)
          && Tried(k, tids, listed[0], pid, k', tids'))
  }

  lemma {:induction false} ForetoldStart(k: Kernel, pid: int)
    ensures Foretold(k, pid, k, {}, map[], true)
  {
    hide Alone, RefusedAgain, ListTasks, PtraceAttach;
  }

  lemma {:induction false} ForetoldListing(k0: Kernel, pid: int, k: Kernel, tids: set<int>, errors: map<int, nat>)
    requires Foretold(k0, pid, k, tids, errors, true) && ListTasks(k).1.None?
    ensures forall tid :: !Alone(k0, tid) && !RefusedAgain(k0, tid)
  {
    hide ListTasks, Alone, Interleave, PtraceAttach, HeldAlone;
    forall tid | Alone(k0, tid) ensures false {
      ListingIsInterleaving(k, tid, pid);
    }
  }

  lemma {:induction false} AloneRound(k0: Kernel, tid: int, pid: int, k: Kernel, listed: seq<int>, tids: set<int>,
      errors: map<int, nat>, again: Option<int>, k': Kernel, tids': set<int>, errors': map<int, nat>, found: bool)
    requires Alone(k0, tid) && k0.stopped == {} && AloneSoFar(k0, tid, pid, k, tids, errors, true)
    requires ListTasks(k).1.Some? && forall t :: t in listed <==> t in ListTasks(k).1.value
    requires RoundSays(ListTasks(k).0, pid, listed, tids, errors, again, k', tids', errors', found)
    requires ListTasks(k).0.stopped == k.stopped
    ensures again.None? && AloneSoFar(k0, tid, pid, k', tids', errors', found)
  {
    hide ListTasks, Alone, Interleave, PtraceAttach, HeldAlone, Tried, Distinct;
    ListingIsInterleaving(k, tid, pid);
    OnlyOne(listed, tid);
    if tids == {} {
      TriedAlone(ListTasks(k).0, tid, pid, k', tids');
    }
  }

  lemma {:induction false} RefusedRound(k0: Kernel, tid: int, pid: int, k: Kernel, listed: seq<int>, tids: set<int>,
      errors: map<int, nat>, again: Option<int>, k': Kernel, tids': set<int>, errors': map<int, nat>, found: bool)
    requires RefusedAgain(k0, tid) && RefusedSoFar(k0, tid, k, tids, errors)
    requires ListTasks(k).1.Some? && forall t :: t in listed <==> t in ListTasks(k).1.value
    requires RoundSays(ListTasks(k).0, pid, listed, tids, errors, again, k', tids', errors', found)
    ensures if again.None? then found && RefusedSoFar(k0, tid, k', tids', errors')
            else errors'[again.value] == PtraceAttach(ListTasks(k0).0, tid).1
  {
    hide ListTasks, PtraceAttach, Distinct;
    RefusedFirst(k0, tid);
    if errors == map[] {
      OnlyOne(listed, tid);
    }
  }

  lemma {:induction false} ForetoldRound(k0: Kernel, pid: int, k: Kernel, listed: seq<int>, tids: set<int>,
      errors: map<int, nat>, again: Option<int>, k': Kernel, tids': set<int>, errors': map<int, nat>, found: bool)
    requires Foretold(k0, pid, k, tids, errors, true) && k0.stopped == {}
    requires ListTasks(k).1.Some? && forall t :: t in listed <==> t in ListTasks(k).1.value
    requires RoundSays(ListTasks(k).0, pid, listed, tids, errors, again, k', tids', errors', found)
    requires ListTasks(k).0.stopped == k.stopped
    ensures again.None? ==> Foretold(k0, pid, k', tids', errors', found)
    ensures again.Some? ==> forall tid :: !Alone(k0, tid)
    ensures again.Some? ==> forall tid :: RefusedAgain(k0, tid) ==>
      errors'[again.value] == PtraceAttach(ListTasks(k0).0, tid).1
  {
    hide ListTasks, Alone, RefusedAgain, PtraceAttach, AloneSoFar, RefusedSoFar, Tried, Distinct, AfterTry;
    forall tid | Alone(k0, tid) ensures again.None? && AloneSoFar(k0, tid, pid, k', tids', errors', found) {
      AloneRound(k0, tid, pid, k, listed, tids, errors, again, k', tids', errors', found);
    }
    forall tid | RefusedAgain(k0, tid)
      ensures if again.None? then found && RefusedSoFar(k0, tid, k', tids', errors')
              else errors'[again.value] == PtraceAttach(ListTasks(k0).0, tid).1
    {
      RefusedRound(k0, tid, pid, k, listed, tids, errors, again, k', tids', errors', found);
    }
  }

  /** Once a listing has shown nothing new. */
  lemma {:induction false} ForetoldEnd(k0: Kernel, pid: int, k: Kernel, tids: set<int>, errors: map<int, nat>)
    requires Foretold(k0, pid, k, tids, errors, false)
    ensures forall tid :: Alone(k0, tid) ==>
      k.live == {tid} == tids && k.stopped == HeldAlone(Interleave(Interleave(k0)), tid, pid)
    ensures forall tid :: !RefusedAgain(k0, tid)
  {
    hide Interleave, HeldAlone, RefusedAgain;
  }

  class ProcessTracer {
    const pid: int
    var tids: set<int>
    var kernel: Kernel

    constructor (pid: int, kernel: Kernel)
      ensures this.pid == pid && this.kernel == kernel && tids == {}
    {
      this.pid := pid;
      this.kernel := kernel;
      tids := {};
    }

    /** An atomic directory listing: all live threads, each once, in some order; or none if the directory
        cannot be opened. */
    method GetProcessTids() returns (listed: Option<seq<int>>)
      modifies this`kernel
      ensures var (k, shown) := ListTasks(old(kernel));
        && kernel == k && (listed.Some? <==> shown.Some?)
        && (shown.Some? ==> Distinct(listed.value) && forall tid :: tid in listed.value <==> tid in shown.value)
    {
      hide Interleave;
      var (k, shown) := ListTasks(kernel);
      kernel := k;
      if shown.None? {
        return None;
      }
      var files: seq<int> := [];
      var rest := shown.value;
      while rest != {}
        invariant kernel == k && rest <= shown.value && Distinct(files)
        invariant forall tid :: tid in files <==> tid in shown.value && tid !in rest
        decreases rest
      {
        SomeTid(rest);
        var tid: int :| tid in rest;
        files := files + [tid];
        rest := rest - {tid};
      }
      return Some(files);
    }

    /** The threads believed to be held are those held and those that got loose. */
    ghost predicate HoldInv()
      reads this
    {
      KernelInv(kernel) && kernel.stopped <= tids && kernel.loose == tids - kernel.stopped
    }

    lemma {:induction false} HeldAreTids()
      requires HoldInv()
      ensures KernelInv(kernel) && kernel.stopped <= tids
    {
    }

    /** `errors` are the attaches refused, and no listing so far has shown one of them again. */
    ghost predicate TracerInv(errors: map<int, nat>)
      reads this
    {
      && HoldInv()
      && errors == kernel.refused && tids !! errors.Keys
      && Distinct(kernel.attempts)
      && (forall tid :: tid in kernel.attempts <==> tid in tids || tid in errors)
    }

    /** One thread: attach, remember it, wait for it to stop. After a fatal wait everything is detached,
        and the tracer goes on as if nothing had happened. */
    method StopThread(tid: int, errors0: map<int, nat>) returns (errors: map<int, nat>)
      requires TracerInv(errors0) && tid !in tids && tid !in errors0
      modifies this
      ensures TracerInv(errors) && Follows(old(kernel), kernel)
      ensures errors == AfterTry(errors0, tid, PtraceAttach(old(kernel), tid).1)
      ensures tid in tids || tid in errors
      ensures old(tids) <= tids <= old(tids) + {tid} && errors0.Keys <= errors.Keys <= errors0.Keys + {tid}
      ensures forall t :: t in errors0 ==> errors[t] == errors0[t]
      ensures Tried(old(kernel), old(tids), tid, pid, kernel, tids)
      ensures kernel.attempts == old(kernel.attempts) + [tid] && SameListing(old(kernel), kernel)
      ensures Explained(old(kernel)) && HereOrGone(old(kernel), tid) ==> Explained(kernel)
    {
      hide Alone, HeldAlone, Follows, Explained, HereOrGone, PtraceAttach, WaitPid, KernelInv, IsTid, Distinct, Fatal;
      ghost var k := kernel;
      AttachLog(k, tid);
      AttachFollows(k, tid);
      if Explained(k) && HereOrGone(k, tid) {
        ExplainedAttach(k, tid);
      }
      var (k1, attached) := PtraceAttach(kernel, tid);
      kernel := k1;
      errors := AfterTry(errors0, tid, attached);
      NewAttempt(k.attempts, tid);
      if attached != 0 {
        return;
      }
      tids := tids + {tid};
      WaitLog(k1, tid, pid);
      WaitFollows(k1, tid, pid);
      FollowsOn(k, k1, WaitPid(k1, tid, pid).0);
      if Explained(k1) {
        ExplainedWait(k1, tid, pid);
      }
      var (k2, waited) := WaitPid(kernel, tid, pid);
      kernel := k2;
      if Fatal(waited, tid, pid) {
        DetachFromProcess();
        FollowsOn(k, k2, kernel);
        if Explained(k2) {
          ExplainedStays(k2, kernel);
        }
      }
    }

    /** One pass over a listing that was just made. `again` is a thread that was refused in an earlier pass
        and is still there, over which the tracer gives up, detaching from everything. Otherwise
        `found` says whether there was a thread to try, and `newTid` is one. */
    method Round(listed: seq<int>, errors0: map<int, nat>)
      returns (found: bool, again: Option<int>, errors: map<int, nat>, ghost newTid: int)
      requires TracerInv(errors0) && Distinct(listed)
      requires kernel.listing == kernel.live && forall tid :: tid in listed <==> tid in kernel.live
      requires kernel.attemptsBeforeListing == |kernel.attempts|
      modifies this
      ensures Follows(old(kernel), kernel)
      ensures kernel.failedListings == old(kernel.failedListings)
      ensures again.Some? <==> exists tid :: tid in listed && tid in errors0
      ensures again.None? ==> TracerInv(errors) && (Explained(old(kernel)) ==> Explained(kernel))
      ensures again.None? ==> forall tid :: tid in listed ==> tid in tids || tid in errors
      ensures again.None? ==> forall tid :: tid in errors ==> !SeenAgain(kernel, tid)
      ensures again.None? && found ==>
        && old(tids) + errors0.Keys <= tids + errors.Keys && IsTid(newTid)
        && newTid in tids + errors.Keys && newTid !in old(tids) + errors0.Keys && newTid in listed
      ensures again.None? && !found ==>
        kernel == old(kernel) && tids == old(tids) && errors == errors0 && kernel.live <= tids
      ensures |listed| == 1 && listed[0] !in old(tids) + errors0.Keys ==>
        && found && errors == AfterTry(errors0, listed[0], PtraceAttach(old(kernel), listed[0]).1)
        && Tried(old(kernel), old(tids), listed[0], pid, kernel, tids)
      ensures again.Some? ==>
        && again.value in errors0 && again.value in listed && errors == kernel.refused
        && KernelInv(kernel) && Distinct(kernel.attempts) && kernel.stopped == {}
        && (forall tid :: tid in kernel.attempts <==> tid in tids || tid in errors)
        && again.value in errors && errors[again.value] == errors0[again.value] && SeenAgain(kernel, again.value)
    {
      hide Interleave, AfterEvents, Distinct, KernelInv, Follows, Explained, HereOrGone, Orderly,
           PtraceAttach, Tried, IsTid, AfterTry, HoldInv;
      ghost var tried := tids + errors0.Keys;
      found, again, errors, newTid := false, None, errors0, 0;
      HeldAreTids();
      LiveAreTids(kernel);
      FollowsItself(kernel);
      AllHere(kernel);
      for i := 0 to |listed|
        invariant TracerInv(errors) && Follows(old(kernel), kernel)
        invariant Explained(old(kernel)) ==>
          Explained(kernel) && forall tid :: tid in listed ==> HereOrGone(kernel, tid)
        invariant kernel.listing == old(kernel.listing) && kernel.attemptsBeforeListing == |old(kernel.attempts)|
        invariant kernel.failedListings == old(kernel.failedListings)
        invariant old(kernel.attempts) <= kernel.attempts
        invariant forall tid :: tid in tids || tid in errors ==> tid in tried || tid in listed[..i]
        invariant old(tids) <= tids && errors0.Keys <= errors.Keys
        invariant forall tid :: tid in errors0 ==> errors[tid] == errors0[tid]
        invariant forall j :: 0 <= j < i ==> listed[j] !in errors0 && (listed[j] in tids || listed[j] in errors)
        invariant if found then newTid in tids + errors.Keys && newTid !in tried && IsTid(newTid) && newTid in listed
          else
            && kernel == old(kernel) && tids == old(tids) && errors == errors0
            && forall j :: 0 <= j < i ==> listed[j] in tids
        invariant |listed| == 1 && i == 1 && listed[0] !in tried ==>
          && found && errors == AfterTry(errors0, listed[0], PtraceAttach(old(kernel), listed[0]).1)
          && Tried(old(kernel), old(tids), listed[0], pid, kernel, tids)
      {
        var tid := listed[i];
        if tid in tids {
          continue;
        }
        NotBefore(listed, i);
        if tid in errors {
          assert tid in tried;
          ghost var before := kernel;
          HeldAreTids();
          DetachFromProcess();
          FollowsOn(old(kernel), before, kernel);
          again := Some(tid);
          return;
        }
        found := true;
        newTid := tid;
        ghost var before := kernel;
        errors := StopThread(tid, errors);
        FollowsOn(old(kernel), before, kernel);
        if Explained(before) {
          OrderlyWhenExplained(before);
          ReachStays(before, kernel);
        }
      }
      if !found {
        forall tid | tid in kernel.live ensures tid in tids { assert tid in listed; }
      }
    }
    /** Attaches in rounds until a listing shows nothing new. No thread is tried twice. The run ends in one of
        three ways, each exactly when the log says so: a listing has failed, and nothing is released; a
        thread that was refused is seen again, and nothing is left attached; or neither. Whatever the log
        holds has its reason in the schedule. On success every live thread is one the tracer has attached
        to and every refused thread is gone; the process is then quiescent if and only if no thread that got
        loose, by exiting before it stopped or after a fatal wait, is live. If no thread id is reused that
        takes a fatal wait; and if moreover nothing fails and nothing is refused, the run always ends in
        success over a stopped process. */
    method Attach() returns (outcome: Outcome)
      requires tids == {} && KernelInv(kernel) && CleanLog(kernel)
      modifies this
      ensures KernelInv(kernel) && Distinct(kernel.attempts) && Follows(old(kernel), kernel)
      ensures forall tid :: tid in kernel.attempts <==> tid in tids || tid in kernel.refused
      ensures outcome == ListingFailed <==> kernel.failedListings > 0
      ensures outcome.PermissionDenied? || outcome.SystemError? <==> SomeoneSeenAgain(kernel)
      ensures outcome == ListingFailed ==> exists s :: s in old(kernel.schedule) && s.listingFails
      ensures forall tid :: tid in kernel.refused ==> Reason(old(kernel.schedule), kernel, tid)
      ensures outcome == AllStopped ==>
        && kernel.live <= tids && kernel.refused.Keys !! kernel.live
        && (kernel.stopped == kernel.live <==> kernel.loose !! kernel.live)
      ensures outcome == AllStopped || outcome == ListingFailed ==>
        kernel.stopped <= tids && kernel.loose == tids - kernel.stopped
      ensures outcome.PermissionDenied? || outcome.SystemError? ==>
        && kernel.stopped == {}
        && exists tid :: tid in kernel.refused && outcome == OutcomeFor(kernel.refused[tid]) && SeenAgain(kernel, tid)
      ensures Orderly(old(kernel)) && outcome == AllStopped && kernel.stopped != kernel.live ==>
        kernel.fatalWaits > 0 && exists s :: s in old(kernel.schedule) && s.waitError != 0
      ensures Orderly(old(kernel)) && Willing(old(kernel)) ==>
        outcome == AllStopped && kernel.stopped == kernel.live && kernel.live <= tids
      ensures forall tid :: Alone(old(kernel), tid) ==>
        && outcome == AllStopped && kernel.live == {tid} == tids
        && kernel.stopped == HeldAlone(Interleave(Interleave(old(kernel))), tid, pid)
      ensures forall tid :: RefusedAgain(old(kernel), tid) ==>
        outcome == OutcomeFor(PtraceAttach(ListTasks(old(kernel)).0, tid).1)
    {
      hide Interleave, AfterEvents, Distinct, SeenAgain, Alone, HeldAlone, Follows, Explained, Orderly, HereOrGone,
           PtraceAttach, Willing, RefusedAgain, ListTasks, Fatal, WaitPid, Foretold, Tried;
      ghost var k0 := kernel;
      var errorByTid: map<int, nat> := map[];
      var foundNewTid := true;
      NothingTried(kernel.attempts);
      FollowsItself(kernel);
      CleanIsExplained(kernel);
      ForetoldStart(kernel, pid);
      while foundNewTid
        invariant TracerInv(errorByTid) && Follows(k0, kernel) && kernel.failedListings == 0
        invariant forall tid :: tid in errorByTid ==> !SeenAgain(kernel, tid)
        invariant Orderly(k0) ==> Explained(kernel)
        invariant !foundNewTid ==> kernel.live <= tids && kernel.listing == kernel.live
        invariant Foretold(k0, pid, kernel, tids, errorByTid, foundNewTid)
        decreases Untried(tids + errorByTid.Keys), foundNewTid
      {
        ghost var before := kernel;
        ListLog(before);
        ListFollows(before);
        FollowsOn(k0, before, ListTasks(before).0);
        if Explained(before) {
          ExplainedStays(before, ListTasks(before).0);
        }
        var listed := GetProcessTids();
        if listed.None? {
          LogHasReasons(k0, kernel);
          if Willing(k0) {
            WillingLog(k0, kernel);
          }
          ForetoldListing(k0, pid, before, tids, errorByTid);
          return ListingFailed;
        }
        ghost var tried, shown, tids0, errors0 := tids + errorByTid.Keys, kernel, tids, errorByTid;
        var again;
        ghost var newTid;
        foundNewTid, again, errorByTid, newTid := Round(listed.value, errorByTid);
        FollowsOn(k0, shown, kernel);
        ForetoldRound(k0, pid, before, listed.value, tids0, errors0, again, kernel, tids, errorByTid, foundNewTid);
        if again.Some? {
          LogHasReasons(k0, kernel);
          if Orderly(k0) && Willing(k0) {
            WillingLog(k0, shown);
            MissingStaysAway(shown);
          }
          return OutcomeFor(errorByTid[again.value]);
        }
        if foundNewTid {
          UntriedShrinks(tried, tids + errorByTid.Keys, newTid);
        }
      }
      LogHasReasons(k0, kernel);
      if Orderly(k0) && kernel.fatalWaits == 0 {
        LooseStaysAway(kernel);
      }
      if Willing(k0) {
        WillingLog(k0, kernel);
      }
      ForetoldEnd(k0, pid, kernel, tids, errorByTid);
      return AllStopped;
    }

    /** Runs of the tracer on a process of one thread, the main one or not. All of them end in success, and
        the thread is held unless its wait fails: fatally, that is, as any failure is for the main thread, and
        any but ECHILD for another. */
    static method FatalWaitReleases(pid: int, tid: int, error: nat) returns (tracer: ProcessTracer, outcome: Outcome)
      requires IsTid(tid)
      ensures fresh(tracer) && outcome == AllStopped && tracer.kernel.live == {tid}
      ensures if error == 0 || (error == 10 && tid != pid)
              then tracer.kernel.stopped == {tid} && tracer.kernel.loose == {}
              else tracer.kernel.stopped == {} && tracer.kernel.loose == {tid}
    {
      var quiet := Slot([], 0, false, 0);
      var kernel := Started({tid}, [quiet, quiet, Slot([], 0, false, error)]);
      assert Interleave(Interleave(kernel)).schedule == [Slot([], 0, false, error)];
      assert Alone(kernel, tid);
      tracer := new ProcessTracer(pid, kernel);
      outcome := tracer.Attach();
    }

    /** A run that gives up although nothing fails and nothing is refused: the main thread creates another and
        exits before it is attached to, and the other one creates a thread that gets its id. */
    static method ReusedIdGivesUp(pid: int, other: int) returns (tracer: ProcessTracer, outcome: Outcome)
      requires IsTid(pid) && IsTid(other) && pid != other
      ensures fresh(tracer) && outcome == SystemError(ESRCH)
    {
      var quiet := Slot([], 0, false, 0);
      var leaves := Slot([Spawn(pid, other), Exit(pid)], 0, false, 0);
      var returns' := Slot([Spawn(other, pid)], 0, false, 0);
      var kernel := Started({pid}, [quiet, leaves, returns']);
      tracer := new ProcessTracer(pid, kernel);
      LeavesAndReturns(kernel, pid, other);
      outcome := tracer.Attach();
    }

    method DetachFromProcess()
      requires KernelInv(kernel)
      modifies this`kernel
      ensures KernelInv(kernel) && SameTries(kernel, old(kernel)) && Follows(old(kernel), kernel)
      ensures kernel.stopped == old(kernel.stopped) - tids && kernel.loose == old(kernel.loose) + tids
      ensures forall tid :: Alone(old(kernel), tid) ==> Alone(kernel, tid)
    {
      hide Interleave, Alone, Follows;
      var rest := tids;
      FollowsItself(kernel);
      while rest != {}
        invariant rest <= tids && KernelInv(kernel) && SameTries(kernel, old(kernel))
        invariant kernel.stopped == old(kernel.stopped) - (tids - rest)
        invariant kernel.loose == old(kernel.loose) + (tids - rest)
        invariant forall tid :: Alone(old(kernel), tid) ==> Alone(kernel, tid)
        invariant Follows(old(kernel), kernel)
        decreases rest
      {
        SomeTid(rest);
        var tid: int :| tid in rest;
        ghost var released := kernel.(stopped := kernel.stopped - {tid}, loose := kernel.loose + {tid});
        InterleaveKeepsInv(released);
        forall t | Alone(kernel, t) ensures Alone(Interleave(released), t) {
          AloneIsLive(kernel, t);
          AloneStays(released, t);
        }
        DetachFollows(kernel, tid);
        FollowsOn(old(kernel), kernel, PtraceDetach(kernel, tid));
        kernel := PtraceDetach(kernel, tid);
        rest := rest - {tid};
      }
    }
  }
}
