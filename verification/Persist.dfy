/** Single-flight persistence of the plugin's data: one writer, a trailing re-run, two
    debounce timers and the unload path, cut at the one await (the write). */
module Persist {

  /** In-memory changes are numbered. `mem` is the latest, `marked` the latest that set the
      dirty flag, `snap` the one the running write carries, `disk` the one on disk. */
  datatype State = State(
    mem: int, marked: int, snap: int, disk: int,
    dirty: bool, pending: bool, persisting: bool, timer: bool, lazyTimer: bool, unloading: bool)

  function Start(): State { State(0, 0, 0, 0, false, false, false, false, false, false) }

  // ----- the atomic pieces -----

  /** `persist()` up to its await: nothing to do, ask for a re-run, or snapshot and write. */
  function Enter(s: State): State {
    if !s.dirty then s
    else if s.persisting then s.(pending := true)
    else s.(persisting := true, pending := false, dirty := false, snap := s.mem)
  }

  /** A change that sets `persistDirty`. */
  function Marked(s: State): State { s.(mem := s.mem + 1, marked := s.mem + 1, dirty := true) }

  /** The write settled: loop for a re-run, or finish. A failed write is only logged. */
  function Settled(s: State, ok: bool): State {
    var s' := s.(disk := if ok then s.snap else s.disk);
    if s.pending then s'.(pending := false, dirty := false, snap := s.mem) else s'.(persisting := false)
  }

  datatype Event =
    | SaveSettings          // change, mark, persist()
    | Schedule              // change, mark, arm the short timer
    | ScheduleLazy          // change, mark, arm the long timer
    | TimerFires
    | LazyTimerFires
    | Flush                 // flushSettings()
    | HookPersist           // the mount hook: a change that does not mark, then persist()
    | WriteSettles(ok: bool)
    | Unload

  ghost predicate Enabled(s: State, e: Event) {
    match e
    case TimerFires => s.timer
    case LazyTimerFires => s.lazyTimer
    case WriteSettles(_) => s.persisting
    case Unload => !s.unloading
    case _ => true
  }

  function Next(s: State, e: Event): State {
    match e
    case SaveSettings => Enter(Marked(s))
    case Schedule => Marked(s).(timer := s.timer || !s.unloading)
    case ScheduleLazy => Marked(s).(lazyTimer := s.lazyTimer || !s.unloading)
    case TimerFires => Enter(s.(timer := false))
    case LazyTimerFires => Enter(s.(lazyTimer := false))
    case Flush => Enter(s.(timer := false, lazyTimer := false))
    case HookPersist => Enter(s.(mem := s.mem + 1))
    case WriteSettles(ok) => Settled(s, ok)
    case Unload =>
      var s' := s.(unloading := true, lazyTimer := false);
      if s.timer then Enter(s'.(timer := false)) else s'
  }

  /** The plugin's fields, updated by the same pieces. */
  class Plugin {
    ghost var mem: int
    ghost var marked: int
    ghost var snap: int
    ghost var disk: int
    var persistDirty: bool
    var persistPending: bool
    var persisting: bool
    var persistTimer: bool
    var lazyPersistTimer: bool
    var unloading: bool

    ghost function View(): State
      reads this
    {
      State(mem, marked, snap, disk, persistDirty, persistPending, persisting, persistTimer, lazyPersistTimer, unloading)
    }

    constructor ()
      ensures View() == Start()
    {
      mem, marked, snap, disk := 0, 0, 0, 0;
      persistDirty, persistPending, persisting, persistTimer, lazyPersistTimer, unloading := false, false, false, false, false, false;
    }

    method PersistEntry() returns (write: bool)
      modifies this
      ensures View() == Enter(old(View()))
      ensures write <==> old(persistDirty) && !old(persisting)
    {
      if !persistDirty { return false; }
      if persisting { persistPending := true; return false; }
      persisting := true;
      persistPending := false;
      persistDirty := false;
      snap := mem;
      write := true;
    }

    /** The rest of the do-while body after the awaited write, and the loop test. */
    method AfterWrite(ok: bool) returns (again: bool)
      requires persisting
      modifies this
      ensures View() == Settled(old(View()), ok)
      ensures again <==> old(persistPending)
    {
      if ok { disk := snap; }
      again := persistPending;
      if again {
        persistPending := false;
        persistDirty := false;
        snap := mem;
      } else {
        persisting := false;
      }
    }

    method SaveSettings() returns (write: bool)
      modifies this
      ensures View() == Next(old(View()), Event.SaveSettings)
    {
      mem := mem + 1;
      marked := mem;
      persistDirty := true;
      write := PersistEntry();
    }

    method SchedulePersist()
      modifies this
      ensures View() == Next(old(View()), Schedule)
    {
      mem := mem + 1;
      marked := mem;
      persistDirty := true;
      if unloading { return; }
      if persistTimer { return; }
      persistTimer := true;
    }

    method SchedulePersistLazy()
      modifies this
      ensures View() == Next(old(View()), ScheduleLazy)
    {
      mem := mem + 1;
      marked := mem;
      persistDirty := true;
      if unloading || lazyPersistTimer { return; }
      lazyPersistTimer := true;
    }

    method FlushSettings() returns (write: bool)
      modifies this
      ensures View() == Next(old(View()), Flush)
    {
      if persistTimer { persistTimer := false; }
      if lazyPersistTimer { lazyPersistTimer := false; }
      write := PersistEntry();
    }

    method OnUnload() returns (write: bool)
      modifies this
      ensures View() == Next(old(View()), Unload)
    {
      unloading := true;
      lazyPersistTimer := false;
      write := false;
      if persistTimer {
        persistTimer := false;
        write := PersistEntry();
      }
    }
  }

  // ----- whole runs -----

  ghost predicate Runs(s: State, es: seq<Event>, t: State)
    decreases |es|
  {
    if es == [] then s == t else Enabled(s, es[0]) && Runs(Next(s, es[0]), es[1..], t)
  }

  ghost predicate WritesSucceed(es: seq<Event>) { WriteSettles(false) !in es }

  /** Versions in order; a re-run is only owed to a running write and to a set dirty flag. */
  ghost predicate Ordered(s: State) {
    && s.disk <= s.mem && s.marked <= s.mem
    && (s.persisting ==> s.disk <= s.snap <= s.mem)
    && (s.pending ==> s.persisting && s.dirty)
  }

  /** The last marked change is on disk, in the running write, or under the dirty flag. */
  ghost predicate Covered(s: State) {
    s.marked <= s.disk || (s.persisting && s.marked <= s.snap) || s.dirty
  }

  /** A set dirty flag has something that will write it. */
  ghost predicate Driven(s: State) { s.dirty && !s.unloading ==> s.timer || s.lazyTimer || s.pending }

  ghost predicate Inv(s: State) { Ordered(s) && Covered(s) && Driven(s) }

  /** The state in which the event calls `persist`, if it does. */
  function Entered(s: State, e: Event): State {
    match e
    case SaveSettings => Marked(s)
    case TimerFires => s.(timer := false)
    case LazyTimerFires => s.(lazyTimer := false)
    case Flush => s.(timer := false, lazyTimer := false)
    case HookPersist => s.(mem := s.mem + 1)
    case Unload => s.(unloading := true, lazyTimer := false, timer := false)
    case _ => s
  }

  /** `persist` leaves a set flag only with a re-run that will clear it. */
  lemma EnterKeepsInv(s: State)
    requires Ordered(s) && Covered(s)
    ensures Inv(Enter(s)) && Enter(s).disk == s.disk
  {
  }

  /** Each step, write failures aside, keeps the invariant, and nothing older ever overwrites the disk. */
  lemma StepKeepsInv(s: State, e: Event)
    requires Inv(s) && Enabled(s, e) && e != WriteSettles(false)
    ensures Inv(Next(s, e)) && Next(s, e).disk >= s.disk
  {
    EnterKeepsInv(Entered(s, e));
    hide Enter;
  }

  lemma {:induction false} RunsKeepInv(s: State, es: seq<Event>, t: State)
    requires Inv(s) && Runs(s, es, t) && WritesSucceed(es)
    ensures Inv(t) && t.disk >= s.disk
    decreases |es|
  {
    if es != [] {
      assert es[0] in es && forall e :: e in es[1..] ==> e in es;
      StepKeepsInv(s, es[0]);
      RunsKeepInv(Next(s, es[0]), es[1..], t);
    }
  }

  /** Nothing marked is lost: along every run with successful writes the disk never goes back,
      the last marked change is on disk, being written or still flagged, and while the plugin is
      loaded a set flag has a timer or a re-run to write it. */
  lemma NoMarkedChangeIsLost(es: seq<Event>, s: State, es': seq<Event>, t: State)
    requires Runs(Start(), es, s) && Runs(s, es', t) && WritesSucceed(es) && WritesSucceed(es')
    ensures t.disk >= s.disk
    ensures t.marked <= t.disk || (t.persisting && t.marked <= t.snap) || t.dirty
    ensures t.dirty && !t.unloading ==> t.timer || t.lazyTimer || (t.persisting && t.pending)
  {
    RunsKeepInv(Start(), es, s);
    RunsKeepInv(s, es', t);
  }

  /** When everything has come to rest the last marked change is on disk. */
  lemma QuietMeansSaved(es: seq<Event>, t: State)
    requires Runs(Start(), es, t) && WritesSucceed(es)
    requires !t.unloading && !t.persisting && !t.timer && !t.lazyTimer
    ensures t.marked <= t.disk
  {
    RunsKeepInv(Start(), es, t);
  }

  // ----- runs in which writes may fail -----

  /** What every event keeps, failed writes included: an unsaved marked change is the reason for
      a dirty flag or a running write, and the running write carries it unless the flag was set
      again since. */
  ghost predicate Honest(s: State) {
    && Ordered(s)
    && (s.dirty || s.persisting ==> s.disk < s.marked)
    && (s.persisting ==> (s.dirty <==> s.snap < s.marked))
  }

  lemma EnterKeepsHonest(s: State)
    requires Honest(s)
    ensures Honest(Enter(s))
  {
  }

  lemma StepKeepsHonest(s: State, e: Event)
    requires Honest(s) && Enabled(s, e)
    ensures Honest(Next(s, e))
  {
    EnterKeepsHonest(Entered(s, e));
    hide Enter;
  }

  lemma {:induction false} RunsKeepHonest(s: State, es: seq<Event>, t: State)
    requires Honest(s) && Runs(s, es, t)
    ensures Honest(t)
    decreases |es|
  {
    hide Next, Honest, Enabled;
    if es != [] {
      StepKeepsHonest(s, es[0]);
      RunsKeepHonest(Next(s, es[0]), es[1..], t);
    }
  }

  // ----- what a failed write loses -----

  /** Along every run, earlier failures included: after a failed write the last marked change is
      covered exactly when the dirty flag was set again during the write. */
  lemma FailedWriteLosesIff(es: seq<Event>, s: State)
    requires Runs(Start(), es, s) && s.persisting
    ensures Covered(Next(s, WriteSettles(false))) <==> s.dirty
  {
    RunsKeepHonest(Start(), es, s);
  }

  /** One failed write, and the change is nowhere: not on disk, not flagged, no timer armed. */
  lemma FailedWriteCanLose()
    ensures exists es, t ::
              Runs(Start(), es, t) && t.marked > t.disk && !t.dirty && !t.persisting && !t.timer && !t.lazyTimer && !t.unloading
  {
    var es := [SaveSettings, WriteSettles(false)];
    var s1 := Next(Start(), SaveSettings);
    var t := Next(s1, WriteSettles(false));
    assert es[1..] == [WriteSettles(false)] && es[1..][1..] == [];
    assert Runs(t, [], t);
    assert Runs(s1, es[1..], t);
    assert Runs(Start(), es, t);
  }

  // ----- what unloading flushes -----

  /** Let the running write, and the re-run it owes, finish. */
  function Drained(s: State): State
    requires Ordered(s)
    decreases s.persisting, s.pending
  {
    if s.persisting then Drained(Settled(s, true)) else s
  }

  lemma DrainedDisk(s: State)
    requires Ordered(s)
    ensures Drained(s).disk == if s.pending then s.mem else if s.persisting then s.snap else s.disk
  {
    if s.persisting {
      var v := Settled(s, true);
      assert Drained(s) == Drained(v);
      if v.persisting { assert Drained(v) == Drained(Settled(v, true)); }
    }
  }

  /** Along every run: unloading saves a marked change that has not been lost before exactly when
      a set dirty flag comes with the short timer or an owed re-run. The long timer is cleared
      without a write, so a lazily scheduled change alone is dropped. */
  lemma UnloadSavesIff(es: seq<Event>, s: State)
    requires Runs(Start(), es, s) && !s.unloading
    ensures Ordered(Next(s, Unload))
    ensures Covered(s) ==> (Drained(Next(s, Unload)).disk >= s.marked <==> (s.dirty ==> s.timer || s.pending))
    ensures !Covered(s) ==> Drained(Next(s, Unload)).disk < s.marked
  {
    RunsKeepHonest(Start(), es, s);
    DrainedDisk(Next(s, Unload));
  }

  /** A lazily scheduled change is lost by unloading before its timer fires. */
  lemma UnloadCanLose()
    ensures exists es, t :: Runs(Start(), es, t) && WritesSucceed(es) && t.unloading && t.marked > t.disk && !t.persisting && !t.timer && !t.lazyTimer
  {
    var es := [ScheduleLazy, Unload];
    var s1 := Next(Start(), ScheduleLazy);
    var t := Next(s1, Unload);
    assert es[1..] == [Unload] && es[1..][1..] == [];
    assert Runs(t, [], t);
    assert Runs(s1, es[1..], t);
    assert Runs(Start(), es, t) && WritesSucceed(es);
  }

  // ----- what each way of saving guarantees -----

  /** Along every run: a change scheduled on the short timer is on disk once the plugin has been
      unloaded and its writes have drained. */
  lemma ScheduledSurvivesUnload(es: seq<Event>, s: State)
    requires Runs(Start(), es, s) && !s.unloading
    ensures var s' := Next(s, Schedule);
            Ordered(Next(s', Unload)) && Drained(Next(s', Unload)).disk >= s'.marked == s.mem + 1
  {
    RunsKeepHonest(Start(), es, s);
    DrainedDisk(Next(Next(s, Schedule), Unload));
  }

  /** Along every run: a lazily scheduled change, with the short timer idle and no re-run owed, is
      not. */
  lemma LazyDoesNotSurviveUnload(es: seq<Event>, s: State)
    requires Runs(Start(), es, s) && !s.unloading && !s.timer && !s.pending
    ensures var s' := Next(s, ScheduleLazy);
            s'.lazyTimer && Ordered(Next(s', Unload)) && Drained(Next(s', Unload)).disk < s'.marked == s.mem + 1
  {
    RunsKeepHonest(Start(), es, s);
    DrainedDisk(Next(Next(s, ScheduleLazy), Unload));
  }

  /** Along every run: saving at once, flushing a set flag and either timer firing on a set flag
      bring all there is in memory to disk. */
  lemma SavingReachesTheDisk(es: seq<Event>, s: State, e: Event)
    requires Runs(Start(), es, s) && Enabled(s, e)
    requires e == SaveSettings || ((e == Flush || e == TimerFires || e == LazyTimerFires) && s.dirty)
    ensures Ordered(Next(s, e)) && Drained(Next(s, e)).disk == Next(s, e).mem
    ensures e == Flush ==> !Next(s, e).timer && !Next(s, e).lazyTimer
  {
    RunsKeepHonest(Start(), es, s);
    DrainedDisk(Next(s, e));
  }

  // ----- the hook that does not mark -----

  /** Along every run: the mount hook's change is written, by the write it starts or the re-run it
      asks for, exactly when the dirty flag happened to be set. */
  lemma HookChangeIsWrittenIff(es: seq<Event>, s: State)
    requires Runs(Start(), es, s)
    ensures Ordered(Next(s, HookPersist)) && Next(s, HookPersist).mem == s.mem + 1
    ensures Drained(Next(s, HookPersist)).disk >= s.mem + 1 <==> s.dirty
  {
    RunsKeepHonest(Start(), es, s);
    DrainedDisk(Next(s, HookPersist));
  }

  predicate Marks(e: Event) { e == SaveSettings || e == Schedule || e == ScheduleLazy }

  /** Neither on disk nor on its way there: the flag is clear and the running write older. */
  predicate Unwritten(s: State, version: int) {
    !s.dirty && s.disk < version && (s.persisting ==> s.snap < version)
  }

  lemma UnmarkedStep(s: State, e: Event, version: int)
    requires Ordered(s) && Unwritten(s, version) && Enabled(s, e) && !Marks(e)
    ensures Ordered(Next(s, e)) && Unwritten(Next(s, e), version)
  {
  }

  /** A change that came with a clear flag stays off the disk, whatever fires, settles or flushes
      later, and however often the hook runs again, until something marks. */
  lemma {:induction false} UnmarkedStaysUnwritten(s: State, es: seq<Event>, t: State, version: int)
    requires Ordered(s) && Unwritten(s, version)
    requires Runs(s, es, t) && forall k :: 0 <= k < |es| ==> !Marks(es[k])
    ensures t.disk < version && !t.dirty
    decreases |es|
  {
    hide Next, Enabled, Ordered;
    if es != [] {
      assert forall k :: 0 <= k < |es[1..]| ==> es[1..][k] == es[k + 1];
      assert !Marks(es[0]);
      UnmarkedStep(s, es[0], version);
      UnmarkedStaysUnwritten(Next(s, es[0]), es[1..], t, version);
    }
  }

  /** Two mount events on a fresh plugin and nothing else: both changes stay off the disk. */
  lemma HookCanLose()
    ensures exists es, t :: Runs(Start(), es, t) && t.mem > t.disk && !t.dirty && !t.persisting && !t.timer && !t.lazyTimer && !t.unloading
  {
    var es := [HookPersist, HookPersist];
    var s1 := Next(Start(), HookPersist);
    var t := Next(s1, HookPersist);
    assert es[1..] == [HookPersist] && es[1..][1..] == [];
    assert Runs(t, [], t);
    assert Runs(s1, es[1..], t);
    assert Runs(Start(), es, t);
  }
}

/** `runMountExclusive`: a mutex made of a chain of promises. */
module Mutex {

  datatype Phase = Waiting | Running | Done

  /** `prev` is the promise a call found in `mountWork`: the call before it, -1 for the first. */
  datatype Call = Call(prev: int, phase: Phase)

  /** `tail` is the call whose promise `mountWork` holds. */
  datatype State = State(calls: seq<Call>, tail: int)

  datatype Event = Request | Begin(i: nat) | Finish(i: nat)

  /** The promise of call `i` is settled; a failed call settles it too. */
  ghost predicate Released(s: State, i: int) { i < 0 || (i < |s.calls| && s.calls[i].phase == Done) }

  ghost predicate Enabled(s: State, e: Event) {
    match e
    case Request => true
    case Begin(i) => i < |s.calls| && s.calls[i].phase == Waiting && Released(s, s.calls[i].prev)
    case Finish(i) => i < |s.calls| && s.calls[i].phase == Running
  }

  ghost function Next(s: State, e: Event): State
    requires Enabled(s, e)
  {
    match e
    case Request => State(s.calls + [Call(s.tail, Waiting)], |s.calls|)
    case Begin(i) => s.(calls := s.calls[i := s.calls[i].(phase := Running)])
    case Finish(i) => s.(calls := s.calls[i := s.calls[i].(phase := Done)])
  }

  ghost predicate Runs(s: State, es: seq<Event>, t: State)
    decreases |es|
  {
    if es == [] then s == t else Enabled(s, es[0]) && Runs(Next(s, es[0]), es[1..], t)
  }

  /** Each call waits for the one made before it, and nobody has begun past an unfinished one. */
  ghost predicate Inv(s: State) {
    && s.tail == |s.calls| - 1
    && (forall i :: 0 <= i < |s.calls| ==> s.calls[i].prev == i - 1)
    && (forall i, j :: 0 <= i < j < |s.calls| && s.calls[i].phase != Done ==> s.calls[j].phase == Waiting)
  }

  lemma StepKeepsInv(s: State, e: Event)
    requires Inv(s) && Enabled(s, e)
    ensures Inv(Next(s, e))
  {
    if e.Begin? && e.i > 0 {
      assert s.calls[e.i].prev == e.i - 1;
      assert s.calls[e.i - 1].phase == Done;
      assert forall k :: 0 <= k < e.i ==> s.calls[k].phase == Done;
    }
  }

  lemma {:induction false} RunsKeepInv(s: State, es: seq<Event>, t: State)
    requires Inv(s) && Runs(s, es, t)
    ensures Inv(t)
    decreases |es|
  {
    if es != [] {
      StepKeepsInv(s, es[0]);
      RunsKeepInv(Next(s, es[0]), es[1..], t);
    }
  }

  /** Under every interleaving at most one call runs, and calls run in the order they were made. */
  lemma ExclusiveInOrder(es: seq<Event>, t: State, i: nat, j: nat)
    requires Runs(State([], -1), es, t) && i < j < |t.calls|
    ensures t.calls[j].phase != Waiting ==> t.calls[i].phase == Done
    ensures !(t.calls[i].phase == Running && t.calls[j].phase == Running)
  {
    RunsKeepInv(State([], -1), es, t);
  }

  /** While a call is unfinished, one at or before it can begin or finish. */
  lemma {:induction false} NeverStuck(s: State, j: nat) returns (e: Event)
    requires Inv(s) && j < |s.calls| && s.calls[j].phase != Done
    ensures !e.Request? && e.i <= j && Enabled(s, e)
    decreases j
  {
    if s.calls[j].phase == Running { return Finish(j); }
    assert s.calls[j].prev == j - 1;
    if j == 0 || s.calls[j - 1].phase == Done { return Begin(j); }
    e := NeverStuck(s, j - 1);
  }
}
