/** The recursive mutex, lines 348 to 406 of src/base/thread.h, as the steps of any number of threads. */
module RecursiveMutex {
  /** A thread's id; the program takes zero for no thread. */
  type Tid = t: nat | t != 0 witness 1

  /** Where a thread is in lock() or unlock(). */
  datatype Place =
    | Outside
    | LockRead      // about to read the owner
    | LockDeeper    // about to increment the depth
    | LockWait      // about to lock the inner mutex
    | LockStore     // about to check that the depth is zero and to store itself as the owner
    | LockDepth     // about to set the depth to one
    | UnlockRead    // about to check that it is the owner
    | UnlockDepth   // about to decrement the depth
    | UnlockStore   // about to store no owner
    | UnlockInner   // about to unlock the inner mutex

  /** A thread: where it is, the latest write to the owner it knows of, and how many of its locks are not unlocked. */
  datatype Thread = Thread(place: Place, seen: nat, locks: nat)

  /**
   * All writes to the owner, oldest first; the holder of the inner mutex, zero for none; the depth; and the threads.
   *
   * The owner is read and written without ordering: a thread may read a value that is not the last one written, only
   * none that is older than what it has read or written itself.
   */
  datatype State = State(writes: seq<nat>, holder: nat, depth: int, threads: map<Tid, Thread>)
  {
    function Owner(): nat
      requires writes != []
    {
      writes[|writes| - 1]
    }

    function With(t: Tid, thread: Thread): State {
      this.(threads := threads[t := thread])
    }
  }

  predicate IsInitial(s: State) {
    && s.writes == [0] && s.holder == 0 && s.depth == 0
    && forall t | t in s.threads :: s.threads[t] == Thread(Outside, 0, 0)
  }

  /** The write may be what a thread reads. */
  predicate IsReadable(s: State, thread: Thread, k: nat) {
    thread.seen <= k < |s.writes|
  }

  /** A step of one thread. */
  ghost predicate Step(s: State, s': State, t: Tid) {
    t in s.threads &&
    var thread := s.threads[t];
    match thread.place
    case Outside =>
      || s' == s.With(t, thread.(place := LockRead))
      || (thread.locks > 0 && s' == s.With(t, thread.(place := UnlockRead, locks := thread.locks - 1)))
    case LockRead =>
      exists k: nat | IsReadable(s, thread, k) ::
        s' == s.With(t, thread.(place := if s.writes[k] == t then LockDeeper else LockWait, seen := k))
    case LockDeeper =>
      s' == s.With(t, thread.(place := Outside, locks := thread.locks + 1)).(depth := s.depth + 1)
    case LockWait =>
      s.holder == 0 && s' == s.With(t, thread.(place := LockStore)).(holder := t)
    case LockStore =>
      s' == s.With(t, thread.(place := LockDepth, seen := |s.writes|)).(writes := s.writes + [t])
    case LockDepth =>
      s' == s.With(t, thread.(place := Outside, locks := thread.locks + 1)).(depth := 1)
    case UnlockRead =>
      exists k: nat | IsReadable(s, thread, k) :: s' == s.With(t, thread.(place := UnlockDepth, seen := k))
    case UnlockDepth =>
      s' == s.With(t, thread.(place := if s.depth - 1 > 0 then Outside else UnlockStore)).(depth := s.depth - 1)
    case UnlockStore =>
      s' == s.With(t, thread.(place := UnlockInner, seen := |s.writes|)).(writes := s.writes + [0])
    case UnlockInner =>
      s' == s.With(t, thread.(place := Outside)).(holder := 0)
  }

  ghost predicate Follows(s: State, s': State) {
    exists t :: Step(s, s', t)
  }

  /** States that follow one another, every step by some thread. */
  ghost predicate IsRun(run: seq<State>) {
    && run != []
    && IsInitial(run[0])
    && forall i | 0 <= i < |run| - 1 :: Follows(run[i], run[i + 1])
  }

  // What every step keeps.

  /** The thread has the inner mutex. */
  predicate IsInside(thread: Thread) {
    thread.locks > 0 ||
    !(thread.place in {Outside, LockRead, LockWait})
  }

  /** The thread has stored itself as the owner and not yet taken that back. */
  predicate IsOwner(thread: Thread) {
    IsInside(thread) && thread.place != LockStore && thread.place != UnlockInner
  }

  /** The depth while the given thread has the inner mutex. */
  predicate IsDepth(depth: int, thread: Thread) {
    match thread.place
    case LockStore | LockDepth | UnlockStore | UnlockInner => depth == 0 && thread.locks == 0
    case UnlockRead | UnlockDepth => depth == thread.locks + 1
    case LockDeeper | LockRead | Outside => depth == thread.locks > 0
    case LockWait => false
  }

  /** Whatever the thread may read of the owner, it finds itself there exactly when it is the owner. */
  predicate SeesTruth(writes: seq<nat>, t: Tid, thread: Thread) {
    && thread.seen < |writes|
    && forall k | thread.seen <= k < |writes| :: writes[k] == t <==> IsOwner(thread)
  }

  ghost predicate Invariant(s: State) {
    && s.writes != []
    && (forall t | t in s.threads :: SeesTruth(s.writes, t, s.threads[t]))
    && (forall t | t in s.threads :: IsInside(s.threads[t]) <==> s.holder == t)
    && (if s.holder == 0 then
          s.depth == 0 && s.Owner() == 0
        else
          && s.holder in s.threads
          && IsDepth(s.depth, s.threads[s.holder])
          && s.Owner() == if IsOwner(s.threads[s.holder]) then s.holder else 0)
  }

  lemma InitialInvariant(s: State)
    requires IsInitial(s)
    ensures Invariant(s)
  {}

  /** More writes by another thread do not change what a thread finds of itself. */
  lemma OthersStillSeeTruth(writes: seq<nat>, t: Tid, thread: Thread, value: nat)
    requires SeesTruth(writes, t, thread) && !IsOwner(thread) && value != t
    ensures SeesTruth(writes + [value], t, thread)
  {}

  /** What a thread reads tells it whether it is the owner. */
  lemma ReadsTruth(s: State, t: Tid, k: nat)
    requires Invariant(s) && t in s.threads && IsReadable(s, s.threads[t], k)
    ensures s.writes[k] == t <==> IsOwner(s.threads[t])
  {}

  lemma StepKeepsTruthOfOthers(s: State, s': State, t: Tid, u: Tid)
    requires Invariant(s) && Step(s, s', t) && u in s.threads && u != t
    ensures u in s'.threads && s'.threads[u] == s.threads[u]
    ensures SeesTruth(s'.writes, u, s'.threads[u])
  {
    hide SeesTruth;
    if s'.writes != s.writes {
      OthersStillSeeTruth(s.writes, u, s.threads[u], s'.writes[|s.writes|]);
    }
  }

  lemma StepKeepsOwnTruth(s: State, s': State, t: Tid)
    requires Invariant(s) && Step(s, s', t)
    ensures t in s'.threads && SeesTruth(s'.writes, t, s'.threads[t])
  {
    hide IsDepth;
    forall k: nat | IsReadable(s, s.threads[t], k) {
      ReadsTruth(s, t, k);
    }
    if IsInside(s.threads[t]) {
      PlaceTellsDepth(s, t);
    }
  }

  /** What the place of a thread tells about its locks and the depth. */
  lemma PlaceTellsDepth(s: State, t: Tid)
    requires Invariant(s) && t in s.threads && IsInside(s.threads[t])
    ensures s.holder == t && IsDepth(s.depth, s.threads[t])
    ensures s.threads[t].place == LockDeeper ==> s.threads[t].locks > 0
    ensures s.threads[t].place == UnlockDepth ==> s.depth == s.threads[t].locks + 1
    ensures s.threads[t].place in {LockStore, LockDepth, UnlockStore, UnlockInner} ==> s.depth == s.threads[t].locks == 0
  {
    hide SeesTruth;
  }

  lemma StepKeepsInvariant(s: State, s': State, t: Tid)
    requires Invariant(s) && Step(s, s', t)
    ensures Invariant(s')
  {
    hide SeesTruth;
    forall u | u in s'.threads
      ensures SeesTruth(s'.writes, u, s'.threads[u])
    {
      if u == t {
        StepKeepsOwnTruth(s, s', t);
      } else {
        StepKeepsTruthOfOthers(s, s', t, u);
      }
    }
    forall k: nat | IsReadable(s, s.threads[t], k) {
      ReadsTruth(s, t, k);
    }
  }

  /** Every state of every run keeps the invariant. */
  lemma {:induction false} RunsKeepInvariant(run: seq<State>, i: nat)
    requires IsRun(run) && i < |run|
    ensures Invariant(run[i])
  {
    hide Step, Invariant;
    if i == 0 {
      InitialInvariant(run[0]);
    } else {
      RunsKeepInvariant(run, i - 1);
      assert Follows(run[i - 1], run[i - 1 + 1]);
      var t :| Step(run[i - 1], run[i], t);
      StepKeepsInvariant(run[i - 1], run[i], t);
    }
  }

  // What the invariant is for.

  /** A thread at this place reads or writes the depth next. */
  predicate TouchesDepth(place: Place) {
    place in {LockDeeper, LockStore, LockDepth, UnlockDepth}
  }

  /**
   * In every state of every run, at most one thread has the inner mutex; the owner is that thread or none; no two
   * threads can touch the depth; and the depth is the number of the holder's locks while the holder is in no call.
   */
  lemma RunsExclude(run: seq<State>, i: nat, t: Tid, u: Tid)
    requires IsRun(run) && i < |run| && t in run[i].threads && u in run[i].threads
    ensures
      var s := run[i];
      && (IsInside(s.threads[t]) && IsInside(s.threads[u]) ==> t == u)
      && s.writes != []
      && (s.Owner() == 0 || s.Owner() == s.holder)
      && (TouchesDepth(s.threads[t].place) && TouchesDepth(s.threads[u].place) ==> t == u)
      && (s.holder == t && s.threads[t].place == Outside ==> s.depth == s.threads[t].locks > 0)
      && (s.holder == 0 ==> s.depth == 0 && s.threads[t].locks == 0)
  {
    hide IsRun, SeesTruth;
    RunsKeepInvariant(run, i);
  }

  /**
   * No check fails in any run: a thread that has just locked the inner mutex finds the depth at zero, and a thread
   * that unlocks finds itself the owner, whichever write it reads.
   */
  lemma RunsPassChecks(run: seq<State>, i: nat, t: Tid, k: nat)
    requires IsRun(run) && i < |run| && t in run[i].threads
    ensures
      var s, thread := run[i], run[i].threads[t];
      && (thread.place == LockStore ==> s.depth == 0)
      && (thread.place == UnlockRead && IsReadable(s, thread, k) ==> s.writes[k] == t)
      && (thread.place == UnlockDepth ==> s.depth > 0)
  {
    hide IsRun;
    RunsKeepInvariant(run, i);
    if IsInside(run[i].threads[t]) {
      PlaceTellsDepth(run[i], t);
    }
    if IsReadable(run[i], run[i].threads[t], k) {
      ReadsTruth(run[i], t, k);
    }
  }

  /** A thread that has a lock never waits for the inner mutex, so it cannot wait for itself. */
  lemma HoldersDoNotWait(run: seq<State>, i: nat, t: Tid)
    requires IsRun(run) && i < |run| && t in run[i].threads
    ensures run[i].threads[t].place == LockWait ==> run[i].threads[t].locks == 0 && run[i].holder != t
  {
    hide IsRun, SeesTruth;
    RunsKeepInvariant(run, i);
    if IsInside(run[i].threads[t]) {
      PlaceTellsDepth(run[i], t);
    }
  }

  /**
   * In every run a thread can go on, unless it waits for the inner mutex while another thread has that one; and the
   * thread that has it never waits. So while it is taken its holder can go on, and else every thread can.
   */
  lemma OnlyTheHolderIsWaitedFor(run: seq<State>, i: nat)
    requires IsRun(run) && i < |run|
    ensures
      var s := run[i];
      && (forall t | t in s.threads ::
            (exists s' :: Step(s, s', t)) <==> (s.threads[t].place == LockWait ==> s.holder == 0))
      && (s.holder != 0 ==> s.holder in s.threads && s.threads[s.holder].place != LockWait)
  {
    hide IsRun, SeesTruth;
    RunsKeepInvariant(run, i);
    var s := run[i];
    forall t | t in s.threads
      ensures (exists s' :: Step(s, s', t)) <==> (s.threads[t].place == LockWait ==> s.holder == 0)
    {
      WhoCanMove(s, t);
    }
    if s.holder != 0 {
      PlaceTellsDepth(s, s.holder);
    }
  }

  lemma WhoCanMove(s: State, t: Tid)
    requires Invariant(s) && t in s.threads
    ensures (exists s' :: Step(s, s', t)) <==> (s.threads[t].place == LockWait ==> s.holder == 0)
  {
    hide SeesTruth;
    var thread := s.threads[t];
    if thread.place == LockWait {
      if s.holder == 0 {
        assert Step(s, s.With(t, thread.(place := LockStore)).(holder := t), t);
      }
    } else {
      SeesSomething(s, t);
      CanMoveUnlessWaiting(s, t);
    }
  }

  lemma SeesSomething(s: State, t: Tid)
    requires Invariant(s) && t in s.threads
    ensures IsReadable(s, s.threads[t], s.threads[t].seen)
  {}

  lemma CanMoveUnlessWaiting(s: State, t: Tid)
    requires t in s.threads && s.threads[t].place != LockWait
    requires IsReadable(s, s.threads[t], s.threads[t].seen)
    ensures exists s' :: Step(s, s', t)
  {
    var thread := s.threads[t];
    var k := thread.seen;
    var s' := match thread.place
      case Outside => s.With(t, thread.(place := LockRead))
      case LockRead => s.With(t, thread.(place := if s.writes[k] == t then LockDeeper else LockWait, seen := k))
      case LockDeeper => s.With(t, thread.(place := Outside, locks := thread.locks + 1)).(depth := s.depth + 1)
      case LockStore => s.With(t, thread.(place := LockDepth, seen := |s.writes|)).(writes := s.writes + [t])
      case LockDepth => s.With(t, thread.(place := Outside, locks := thread.locks + 1)).(depth := 1)
      case UnlockRead => s.With(t, thread.(place := UnlockDepth, seen := k))
      case UnlockDepth =>
        s.With(t, thread.(place := if s.depth - 1 > 0 then Outside else UnlockStore)).(depth := s.depth - 1)
      case UnlockStore => s.With(t, thread.(place := UnlockInner, seen := |s.writes|)).(writes := s.writes + [0])
      case UnlockInner => s.With(t, thread.(place := Outside)).(holder := 0);
    assert Step(s, s', t);
  }
}
