/**
 * The configuration lock among any number of writers: one step per file-system call, with clock ticks
 * and crashes between any two of them.
 */
module ConfigLock {
  import opened Options
  import opened ConfigFile

  type Writer = nat

  /** Where a writer is in an update. From `Holding` to `Releasing` it is between acquire and release. */
  datatype Phase =
    | Idle
    | Acquiring(patch: Document, deadline: int)
    | SawHeld(patch: Document, deadline: int)
    | SawStale(patch: Document, deadline: int)
    | Holding(patch: Document)
    | Merged(patch: Document, document: Document)
    | Writing(patch: Document, document: Document)
    | Written(patch: Document, document: Document)
    | Releasing
    | Crashed

  /** The lock directory; who made it is known to no writer, only to the statements below. */
  datatype Lock = Lock(madeAt: int, maker: Writer)

  /** `history` lists the patches of the writers that reached the rename, in rename order. */
  datatype World = World(now: int, lock: Option<Lock>, file: Content, temporary: map<Writer, Content>,
                         phases: map<Writer, Phase>, history: seq<Document>)

  datatype Call =
    | Begin(w: Writer, patch: Document)
    | MakeLock(w: Writer)
    | ExamineLock(w: Writer)
    | RemoveStaleLock(w: Writer)
    | ReadAndMerge(w: Writer)
    | OpenTemporary(w: Writer)
    | FinishTemporary(w: Writer)
    | Rename(w: Writer)
    | Release(w: Writer)
    | Crash(w: Writer)
    | Tick(ms: nat)

  function PhaseOf(s: World, w: Writer): Phase {
    if w in s.phases then s.phases[w] else Idle
  }

  function At(s: World, w: Writer, phase: Phase): World {
    s.(phases := s.phases[w := phase])
  }

  predicate Holds(phase: Phase) {
    phase.Holding? || phase.Merged? || phase.Writing? || phase.Written? || phase.Releasing?
  }

  function AgeOfLock(s: World): int
    requires s.lock.Some?
  {
    s.now - s.lock.value.madeAt
  }

  predicate LockIsStale(s: World) {
    s.lock.Some? && AgeOfLock(s) > LOCK_STALE_MS
  }

  // ---------------------------------------------------------------------------
  // Calls
  // ---------------------------------------------------------------------------

  function Made(s: World, w: Writer): World {
    var phase := PhaseOf(s, w);
    if !phase.Acquiring? then s
    else if s.lock.Some? then At(s, w, SawHeld(phase.patch, phase.deadline))
    else At(s, w, Holding(phase.patch)).(lock := Some(Lock(s.now, w)))
  }

  /** A lock that is gone is tried again, a stale one taken over, and a fresh one waited for until the deadline. */
  function Examined(s: World, w: Writer): World {
    var phase := PhaseOf(s, w);
    if !phase.SawHeld? then s
    else if s.lock.None? then At(s, w, Acquiring(phase.patch, phase.deadline))
    else if LockIsStale(s) then At(s, w, SawStale(phase.patch, phase.deadline))
    else if s.now >= phase.deadline then At(s, w, Idle)
    else At(s, w, Acquiring(phase.patch, phase.deadline))
  }

  /** Removes whatever lock is there by now. */
  function Removed(s: World, w: Writer): World {
    var phase := PhaseOf(s, w);
    if !phase.SawStale? then s else At(s, w, Acquiring(phase.patch, phase.deadline)).(lock := None)
  }

  function ReadMerged(s: World, w: Writer): World {
    var phase := PhaseOf(s, w);
    if !phase.Holding? then s
    else
      match Read(s.file)
      case Ok(config) => At(s, w, Merged(phase.patch, Merge(config, phase.patch)))
      case Err(_) => At(s, w, Releasing)
  }

  function Renamed(s: World, w: Writer): World {
    var phase := PhaseOf(s, w);
    if !phase.Written? || w !in s.temporary then s
    else
      At(s, w, Releasing).(file := s.temporary[w], temporary := s.temporary - {w},
                           history := s.history + [phase.patch])
  }

  function Apply(s: World, call: Call): World {
    match call
    case Begin(w, patch) =>
      if PhaseOf(s, w).Idle? then At(s, w, Acquiring(patch, s.now + LOCK_ACQUIRE_TIMEOUT_MS)) else s
    case MakeLock(w) => Made(s, w)
    case ExamineLock(w) => Examined(s, w)
    case RemoveStaleLock(w) => Removed(s, w)
    case ReadAndMerge(w) => ReadMerged(s, w)
    case OpenTemporary(w) =>
      var phase := PhaseOf(s, w);
      if !phase.Merged? then s
      else At(s, w, Writing(phase.patch, phase.document)).(temporary := s.temporary[w := Partial])
    case FinishTemporary(w) =>
      var phase := PhaseOf(s, w);
      if !phase.Writing? then s
      else At(s, w, Written(phase.patch, phase.document)).(temporary := s.temporary[w := Whole(phase.document)])
    case Rename(w) => Renamed(s, w)
    case Release(w) => if PhaseOf(s, w).Releasing? then At(s, w, Idle).(lock := None) else s
    case Crash(w) => At(s, w, Crashed)
    case Tick(ms) => s.(now := s.now + ms)
  }

  function ApplyAll(s: World, calls: seq<Call>): World {
    if calls == [] then s else Apply(ApplyAll(s, calls[..|calls| - 1]), calls[|calls| - 1])
  }

  // ---------------------------------------------------------------------------
  // The hypothesis
  // ---------------------------------------------------------------------------

  ghost predicate SomeoneHolds(s: World) {
    exists w :: w in s.phases && Holds(s.phases[w])
  }

  /** The clock does not outrun a live holder: it releases before its lock goes stale. */
  ghost predicate TickIsTimely(s: World, ms: nat) {
    SomeoneHolds(s) && s.lock.Some? ==> AgeOfLock(s) + ms <= LOCK_STALE_MS
  }

  /** The lock that is removed is still stale, as it was when it was examined, or gone. */
  predicate RemovalIsStillStale(s: World, w: Writer) {
    PhaseOf(s, w).SawStale? ==> s.lock == None || LockIsStale(s)
  }

  ghost predicate Permitted(s: World, call: Call) {
    && (call.Tick? ==> TickIsTimely(s, call.ms))
    && (call.RemoveStaleLock? ==> RemovalIsStillStale(s, call.w))
  }

  ghost predicate PermittedRun(s: World, calls: seq<Call>) {
    calls == [] || (PermittedRun(s, calls[..|calls| - 1])
                    && Permitted(ApplyAll(s, calls[..|calls| - 1]), calls[|calls| - 1]))
  }

  // ---------------------------------------------------------------------------
  // The invariant
  // ---------------------------------------------------------------------------

  function MergeAll(config: Document, patches: seq<Document>): Document {
    if patches == [] then config else Merge(MergeAll(config, patches[..|patches| - 1]), patches[|patches| - 1])
  }

  /** The file holds the first content merged with every patch renamed so far, in rename order. */
  ghost predicate FileIs(file: Content, initial: Content, history: seq<Document>) {
    if history == [] then file == initial
    else Read(initial).Ok? && file == Whole(MergeAll(Read(initial).value, history))
  }

  /** A holder made the lock, and has not held it too long. */
  ghost predicate OwnsLock(s: World, w: Writer) {
    s.lock.Some? && s.lock.value.maker == w && AgeOfLock(s) <= LOCK_STALE_MS
  }

  /** What a holder has merged is the present file with its patch. */
  ghost predicate WorkIsCurrent(s: World, w: Writer, phase: Phase) {
    && (phase.Merged? || phase.Writing? || phase.Written? ==>
          Read(s.file).Ok? && phase.document == Merge(Read(s.file).value, phase.patch))
    && (phase.Written? ==> w in s.temporary && s.temporary[w] == Whole(phase.document))
  }

  ghost predicate HoldersAreSound(s: World) {
    forall w :: w in s.phases && Holds(s.phases[w]) ==> OwnsLock(s, w) && WorkIsCurrent(s, w, s.phases[w])
  }

  ghost predicate Sound(s: World, initial: Content) {
    HoldersAreSound(s) && FileIs(s.file, initial, s.history)
  }

  /** Nobody is at work, and whatever lock there is was left behind. */
  ghost predicate Initial(s: World) {
    && (forall w :: w in s.phases ==> s.phases[w].Idle? || s.phases[w].Crashed?)
    && s.history == []
  }

  lemma RenameExtendsHistory(s: World, w: Writer, initial: Content)
    requires Sound(s, initial) && PhaseOf(s, w).Written?
    ensures FileIs(Renamed(s, w).file, initial, Renamed(s, w).history)
  {
    var phase := PhaseOf(s, w);
    assert Holds(s.phases[w]) && OwnsLock(s, w) && WorkIsCurrent(s, w, phase);
    assert (s.history + [phase.patch])[..|s.history|] == s.history;
  }

  lemma OthersHoldNothing(s: World, w: Writer, v: Writer)
    requires HoldersAreSound(s) && w in s.phases && v in s.phases && Holds(s.phases[w]) && v != w
    ensures !Holds(s.phases[v])
  {
    assert OwnsLock(s, w);
    assert Holds(s.phases[v]) ==> OwnsLock(s, v);
  }

  /** Every permitted call keeps the invariant. */
  lemma CallKeepsSound(s: World, call: Call, initial: Content)
    requires Sound(s, initial) && Permitted(s, call)
    ensures Sound(Apply(s, call), initial)
  {
    hide Merge, Read, FileIs;
    var next := Apply(s, call);
    if call.Rename? {
      if PhaseOf(s, call.w).Written? {
        RenameExtendsHistory(s, call.w, initial);
      }
    }
    forall w | w in next.phases && Holds(next.phases[w])
      ensures OwnsLock(next, w) && WorkIsCurrent(next, w, next.phases[w])
    {
      HolderStaysSound(s, call, w);
    }
  }

  lemma HolderStaysSound(s: World, call: Call, w: Writer)
    requires HoldersAreSound(s) && Permitted(s, call)
    requires w in Apply(s, call).phases && Holds(Apply(s, call).phases[w])
    ensures OwnsLock(Apply(s, call), w) && WorkIsCurrent(Apply(s, call), w, Apply(s, call).phases[w])
  {
    hide Merge, Read;
    if w in s.phases && Holds(s.phases[w]) {
      assert OwnsLock(s, w) && WorkIsCurrent(s, w, s.phases[w]);
      if !call.Tick? && call.w != w && call.w in s.phases {
        OthersHoldNothing(s, w, call.w);
      }
    }
  }

  /** Every permitted run keeps the invariant. */
  lemma {:induction false} RunsKeepSound(s: World, calls: seq<Call>)
    requires Initial(s) && PermittedRun(s, calls)
    ensures Sound(ApplyAll(s, calls), s.file)
  {
    if calls != [] {
      RunsKeepSound(s, calls[..|calls| - 1]);
      CallKeepsSound(ApplyAll(s, calls[..|calls| - 1]), calls[|calls| - 1], s.file);
    }
  }

  // ---------------------------------------------------------------------------
  // What the lock guarantees
  // ---------------------------------------------------------------------------

  ghost predicate AtMostOneHolder(s: World) {
    forall v, w :: v in s.phases && w in s.phases && Holds(s.phases[v]) && Holds(s.phases[w]) ==> v == w
  }

  /**
   * If live holders release in time and each removal hits a lock that is still stale, then, whoever
   * crashes wherever, there is at most one writer between acquire and release, and the file is the
   * first one merged with the patches renamed, in rename order.
   */
  lemma LockGuardsTheMerge(s: World, calls: seq<Call>)
    requires Initial(s) && PermittedRun(s, calls)
    ensures AtMostOneHolder(ApplyAll(s, calls))
    ensures FileIs(ApplyAll(s, calls).file, s.file, ApplyAll(s, calls).history)
  {
    hide ApplyAll, PermittedRun;
    RunsKeepSound(s, calls);
    var t := ApplyAll(s, calls);
    forall v, w | v in t.phases && w in t.phases && Holds(t.phases[v]) && Holds(t.phases[w]) ensures v == w {
      assert OwnsLock(t, v) && OwnsLock(t, w);
    }
  }

  /** The file is whole or as it was at first, and a writer that has written has a whole temporary file. */
  ghost predicate NothingHalfWritten(s: World, initial: Content) {
    && (s.file == initial || s.file.Whole?)
    && forall w :: w in s.phases && s.phases[w].Written? ==> w in s.temporary && s.temporary[w].Whole?
  }

  lemma CallLeavesNothingHalfWritten(s: World, call: Call, initial: Content)
    requires NothingHalfWritten(s, initial)
    ensures NothingHalfWritten(Apply(s, call), initial)
  {
    hide Merge, Read;
  }

  /**
   * In every run, permitted or not, with the lock broken, holders outliving it and crashes anywhere, a
   * reader finds the first content or one writer's whole document.
   */
  lemma {:induction false} ReadersNeverSeeAPart(s: World, calls: seq<Call>)
    requires Initial(s)
    ensures NothingHalfWritten(ApplyAll(s, calls), s.file)
    ensures s.file != Partial ==> ApplyAll(s, calls).file != Partial
  {
    if calls != [] {
      hide Apply;
      ReadersNeverSeeAPart(s, calls[..|calls| - 1]);
      CallLeavesNothingHalfWritten(ApplyAll(s, calls[..|calls| - 1]), calls[|calls| - 1], s.file);
    }
  }

  /** A member of the merged document has the value of the last patch that sets it. */
  lemma {:induction false} LastPatchWins(config: Document, patches: seq<Document>, key: string, i: nat)
    requires i < |patches| && key in patches[i] && forall j :: i < j < |patches| ==> key !in patches[j]
    ensures key in MergeAll(config, patches) && MergeAll(config, patches)[key] == patches[i][key]
  {
    if i < |patches| - 1 {
      LastPatchWins(config, patches[..|patches| - 1], key, i);
    }
  }

  /** No renamed patch is ever forgotten. */
  lemma {:induction false} HistoryOnlyGrows(s: World, calls: seq<Call>)
    ensures s.history <= ApplyAll(s, calls).history
  {
    if calls != [] {
      HistoryOnlyGrows(s, calls[..|calls| - 1]);
    }
  }

  /** A writer gives up only on a lock made since it began to wait. */
  lemma TimeoutMeansContention(s: World, w: Writer)
    requires PhaseOf(s, w).SawHeld? && PhaseOf(Examined(s, w), w).Idle?
    ensures s.lock.Some? && s.lock.value.madeAt >= PhaseOf(s, w).deadline - LOCK_ACQUIRE_TIMEOUT_MS
  {
  }

  /** A lock left behind by a crash yields to the next writer once it is stale. */
  lemma StaleLockIsTakenOver(s: World, w: Writer)
    requires PhaseOf(s, w).Acquiring? && LockIsStale(s)
    ensures var calls := [MakeLock(w), ExamineLock(w), RemoveStaleLock(w), MakeLock(w)];
            var after := ApplyAll(s, calls);
            PhaseOf(after, w) == Holding(PhaseOf(s, w).patch) && after.lock == Some(Lock(s.now, w))
  {
    var calls := [MakeLock(w), ExamineLock(w), RemoveStaleLock(w), MakeLock(w)];
    assert calls[..3][..2] == calls[..2] && calls[..2][..1] == calls[..1] && calls[..1][..0] == [];
    var one := Made(s, w);
    var two := Examined(one, w);
    var three := Removed(two, w);
    assert ApplyAll(s, calls[..1]) == one;
    assert ApplyAll(s, calls[..2]) == two;
    assert ApplyAll(s, calls[..3]) == three;
    assert ApplyAll(s, calls) == Made(three, w);
  }

  // ---------------------------------------------------------------------------
  // Examining and removing are two calls
  // ---------------------------------------------------------------------------

  /** A stale lock has no live holder, so a removal that hits it is safe. */
  lemma StaleLocksAreFree(s: World)
    requires HoldersAreSound(s) && (s.lock == None || LockIsStale(s))
    ensures !SomeoneHolds(s)
  {
    assert forall w :: w in s.phases && Holds(s.phases[w]) ==> OwnsLock(s, w);
  }

  /** Removing the lock and making its own, a writer joins whoever holds the lock by then. */
  lemma TakeoverJoinsHolders(s: World, w: Writer)
    requires PhaseOf(s, w).SawStale?
    ensures AtMostOneHolder(Made(Removed(s, w), w)) <==> !SomeoneHolds(s)
  {
    var t := Made(Removed(s, w), w);
    assert t.phases[w] == Holding(PhaseOf(s, w).patch) && Holds(t.phases[w]);
    if v :| v in s.phases && Holds(s.phases[v]) {
      assert v != w && t.phases[v] == s.phases[v];
    }
  }

  /** To a writer about to remove a lock, the two worlds look alike: the clock, and the lock's presence and age. */
  ghost predicate SameLockSeen(s: World, t: World, w: Writer) {
    && PhaseOf(t, w).SawStale? && t.now == s.now
    && (t.lock.Some? <==> s.lock.Some?)
    && (s.lock.Some? ==> AgeOfLock(t) == AgeOfLock(s))
  }

  /** Whatever sound world it is in, a writer that sees this lock ends up alone after taking over. */
  ghost predicate TakeoverIsAlwaysSafe(s: World, w: Writer) {
    forall t | HoldersAreSound(t) && SameLockSeen(s, t, w) :: AtMostOneHolder(Made(Removed(t, w), w))
  }

  /**
   * What a writer can see of the lock when it removes it tells that the takeover is safe exactly when
   * the lock is still stale, or gone; a check that the code makes one call too early.
   */
  lemma TakeoverIsSafeExactly(s: World, w: Writer)
    requires PhaseOf(s, w).SawStale?
    ensures RemovalIsStillStale(s, w) <==> TakeoverIsAlwaysSafe(s, w)
  {
    if RemovalIsStillStale(s, w) {
      forall t | HoldersAreSound(t) && SameLockSeen(s, t, w) ensures AtMostOneHolder(Made(Removed(t, w), w)) {
        StaleLocksAreFree(t);
        TakeoverJoinsHolders(t, w);
      }
    } else {
      var v := w + 1;
      var t := s.(lock := Some(Lock(s.lock.value.madeAt, v)), phases := map[w := PhaseOf(s, w), v := Holding(map[])]);
      assert HoldersAreSound(t) && SameLockSeen(s, t, w);
      assert Holds(t.phases[v]);
      TakeoverJoinsHolders(t, w);
    }
  }

  lemma OneMoreCall(s: World, calls: seq<Call>, call: Call)
    ensures ApplyAll(s, calls + [call]) == Apply(ApplyAll(s, calls), call)
  {
    assert (calls + [call])[..|calls|] == calls;
  }

  lemma {:induction false} CallsInTwoParts(s: World, a: seq<Call>, b: seq<Call>)
    ensures ApplyAll(s, a + b) == ApplyAll(ApplyAll(s, a), b)
  {
    hide Apply;
    if b == [] {
      assert a + b == a;
    } else {
      CallsInTwoParts(s, a, b[..|b| - 1]);
      assert (a + b)[..|a + b| - 1] == a + b[..|b| - 1];
    }
  }

  /** Two writers see the same stale lock; the second removes the lock the first has just made. */
  lemma TwoTakeovers(s: World, v: Writer, w: Writer) returns (calls: seq<Call>)
    requires v != w && LockIsStale(s) && PhaseOf(s, v).SawStale? && PhaseOf(s, w).SawStale?
    ensures var t := ApplyAll(s, calls);
            && PhaseOf(t, v) == Holding(PhaseOf(s, v).patch) && PhaseOf(t, w) == Holding(PhaseOf(s, w).patch)
            && t.file == s.file && t.history == s.history
  {
    calls := [];
    OneMoreCall(s, calls, RemoveStaleLock(v));
    calls := calls + [RemoveStaleLock(v)];
    OneMoreCall(s, calls, MakeLock(v));
    calls := calls + [MakeLock(v)];
    OneMoreCall(s, calls, RemoveStaleLock(w));
    calls := calls + [RemoveStaleLock(w)];
    OneMoreCall(s, calls, MakeLock(w));
    calls := calls + [MakeLock(w)];
    hide ApplyAll;
  }

  /** A holder that has merged writes its document over whatever the file holds by then. */
  lemma FinishWriting(s: World, w: Writer) returns (calls: seq<Call>)
    requires PhaseOf(s, w).Merged?
    ensures var t := ApplyAll(s, calls);
            && t.file == Whole(PhaseOf(s, w).document) && t.history == s.history + [PhaseOf(s, w).patch]
            && forall v :: v != w ==> PhaseOf(t, v) == PhaseOf(s, v)
  {
    calls := [];
    OneMoreCall(s, calls, OpenTemporary(w));
    calls := calls + [OpenTemporary(w)];
    OneMoreCall(s, calls, FinishTemporary(w));
    calls := calls + [FinishTemporary(w)];
    OneMoreCall(s, calls, Rename(w));
    calls := calls + [Rename(w)];
    hide ApplyAll;
  }

  /** Two holders at once lose an update: both renames succeed, and only the second patch is in the file. */
  lemma TwoHoldersLoseAnUpdate(s: World, v: Writer, w: Writer) returns (calls: seq<Call>)
    requires v != w && PhaseOf(s, v).Holding? && PhaseOf(s, w).Holding? && Read(s.file).Ok?
    ensures var t := ApplyAll(s, calls);
            && t.history == s.history + [PhaseOf(s, v).patch, PhaseOf(s, w).patch]
            && t.file == Whole(Merge(Read(s.file).value, PhaseOf(s, w).patch))
  {
    hide Merge;
    calls := [];
    OneMoreCall(s, calls, ReadAndMerge(v));
    calls := calls + [ReadAndMerge(v)];
    OneMoreCall(s, calls, ReadAndMerge(w));
    calls := calls + [ReadAndMerge(w)];
    var both := ApplyAll(s, calls);
    assert PhaseOf(both, v).Merged? && PhaseOf(both, w).Merged?;
    hide Apply;
    var first := FinishWriting(both, v);
    var second := FinishWriting(ApplyAll(both, first), w);
    CallsInTwoParts(s, calls, first);
    CallsInTwoParts(s, calls + first, second);
    calls := calls + first + second;
  }

  lemma BothSeeTheStaleLock(s: World, v: Writer, w: Writer, first: Document, second: Document)
    returns (calls: seq<Call>)
    requires v != w && LockIsStale(s) && PhaseOf(s, v).Idle? && PhaseOf(s, w).Idle?
    ensures var t := ApplyAll(s, calls);
            && PhaseOf(t, v).SawStale? && PhaseOf(t, v).patch == first
            && PhaseOf(t, w).SawStale? && PhaseOf(t, w).patch == second
            && LockIsStale(t) && t.file == s.file && t.history == s.history
  {
    calls := [];
    OneMoreCall(s, calls, Begin(v, first));
    calls := calls + [Begin(v, first)];
    OneMoreCall(s, calls, Begin(w, second));
    calls := calls + [Begin(w, second)];
    OneMoreCall(s, calls, MakeLock(v));
    calls := calls + [MakeLock(v)];
    OneMoreCall(s, calls, MakeLock(w));
    calls := calls + [MakeLock(w)];
    OneMoreCall(s, calls, ExamineLock(v));
    calls := calls + [ExamineLock(v)];
    OneMoreCall(s, calls, ExamineLock(w));
    calls := calls + [ExamineLock(w)];
    hide ApplyAll;
  }

  /**
   * Without the hypothesis on removals the guarantee fails: whenever two writers meet a lock left
   * behind, there is a run, without a crash or a tick, that renames both patches and keeps only one.
   */
  lemma TakeoverRaceLosesAnUpdate(s: World, v: Writer, w: Writer, first: Document, second: Document)
    returns (calls: seq<Call>)
    requires v != w && LockIsStale(s) && PhaseOf(s, v).Idle? && PhaseOf(s, w).Idle? && Read(s.file).Ok?
    ensures var t := ApplyAll(s, calls);
            && t.history == s.history + [first, second]
            && t.file == Whole(Merge(Read(s.file).value, second))
  {
    hide Merge, Apply, ApplyAll, LockIsStale, Read;
    var seen := BothSeeTheStaleLock(s, v, w, first, second);
    var t := ApplyAll(s, seen);
    var taken := TwoTakeovers(t, v, w);
    var written := TwoHoldersLoseAnUpdate(ApplyAll(t, taken), v, w);
    CallsInTwoParts(s, seen, taken);
    CallsInTwoParts(s, seen + taken, written);
    calls := seen + taken + written;
  }
}
