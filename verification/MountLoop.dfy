/** The composed-vault mount loop as it runs for one mount scope: the request guard, the pass
    cut at its awaits, and whatever the user and the source do in between. */
module MountLoop {
  import opened Wrappers
  import opened MountFsm

  const MAX_MOUNT_FAILS := 3
  const BULK_DELETE_MIN := 6

  // ----- one poll's decision -----

  /** What the source reports since a cursor. */
  datatype Delta = Delta(upserts: int, deletes: int, version: int, floor: Option<int>)

  datatype Mode = Noop | Full | Incremental | IncrementalAndConfig

  function DecideReconcileMode(forceConfigScan: bool, forceFullScan: bool, reset: bool, noChange: bool): Mode {
    if !forceConfigScan && !forceFullScan && !reset && noChange then Noop
    else if forceFullScan || reset then Full
    else if forceConfigScan then IncrementalAndConfig
    else Incremental
  }

  predicate Rewound(d: Delta, before: int) { d.version < before }

  predicate FloorAdvanced(d: Delta, prior: Option<int>) {
    prior.Some? && d.floor.Some? && d.floor.value > prior.value
  }

  function PollMode(d: Delta, before: int, prior: Option<int>, forceFull: bool): Mode {
    var noChange := d.upserts == 0 && d.deletes == 0 && d.version == before;
    DecideReconcileMode(false, forceFull, Rewound(d, before) || FloorAdvanced(d, prior), noChange)
  }

  /** `noteHistoryFloor`: raise only, unless the observation is authoritative. */
  function NoteFloor(recorded: Option<int>, seen: Option<int>, authoritative: bool): Option<int> {
    if authoritative then seen
    else if seen.Some? && (recorded.None? || seen.value > recorded.value) then seen
    else recorded
  }

  class MountRuntime {
    var histFloor: Option<int>

    constructor (restored: Option<int>)
      ensures histFloor == restored
    {
      histFloor := restored;
    }

    method NoteHistoryFloor(floor: Option<int>, authoritative: bool := false)
      modifies this
      ensures histFloor == NoteFloor(old(histFloor), floor, authoritative)
    {
      if authoritative { histFloor := floor; return; }
      if floor.Some? && (histFloor.None? || floor.value > histFloor.value) { histFloor := floor; }
    }
  }

  // ----- the mass-deletion guard -----

  /** The adapter's answers during one guard run: whether it can probe at all, whether the
      mount folder exists, the listing, and what each later probe says. */
  datatype Local = Local(canProbe: bool, folderExists: bool, listing: set<string>, probe: string -> bool)

  function Absent(base: seq<string>, listing: set<string>): seq<string> {
    if base == [] then [] else (if base[0] in listing then [] else [base[0]]) + Absent(base[1..], listing)
  }

  /** The positions of base paths the listing does not have. */
  ghost function Unlisted(base: seq<string>, listing: set<string>): set<nat> {
    set k | 0 <= k < |base| && base[k] !in listing
  }

  lemma {:induction false} AbsentSnoc(base: seq<string>, p: string, listing: set<string>)
    ensures Absent(base + [p], listing) == Absent(base, listing) + if p in listing then [] else [p]
    decreases |base|
  {
    if base != [] {
      assert (base + [p])[1..] == base[1..] + [p];
      AbsentSnoc(base[1..], p, listing);
    }
  }

  lemma {:induction false} AbsentIsUnlisted(base: seq<string>, listing: set<string>)
    ensures |Absent(base, listing)| == |Unlisted(base, listing)|
    ensures forall p :: p in Absent(base, listing) <==> p in base && p !in listing
    decreases |base|
  {
    if base != [] {
      var n := |base| - 1;
      AbsentIsUnlisted(base[..n], listing);
      AbsentSnoc(base[..n], base[n], listing);
      assert base == base[..n] + [base[n]];
      hide Absent;
      if base[n] in listing {
        assert Unlisted(base, listing) == Unlisted(base[..n], listing);
      } else {
        assert Unlisted(base, listing) == Unlisted(base[..n], listing) + {n};
      }
    }
  }

  /** The guard holds a non-empty base exactly when the folder is gone or, with all of the base or
      at least six of it unlisted, some unlisted path is not found by the probe, if there is one. */
  lemma MustHoldIff(base: seq<string>, loc: Local)
    ensures MustHold(base, loc, BULK_DELETE_MIN) <==>
      && base != []
      && ((loc.canProbe && !loc.folderExists)
          || ((|Unlisted(base, loc.listing)| == |base| || |Unlisted(base, loc.listing)| >= 6)
              && (loc.canProbe ==> exists p :: p in base && p !in loc.listing && !loc.probe(p))))
  {
    AbsentIsUnlisted(base, loc.listing);
    var absent := Absent(base, loc.listing);
    hide Absent, Unlisted;
    assert (exists k :: 0 <= k < |absent| && !loc.probe(absent[k])) <==> (exists p :: p in absent && !loc.probe(p));
  }

  /** `massLocalDeletion`: hold, or clear the full pass? */
  method MassLocalDeletion(base: seq<string>, loc: Local, bulkDeleteMin: nat) returns (hold: bool)
    ensures hold <==> MustHold(base, loc, bulkDeleteMin)
  {
    if |base| == 0 { return false; }
    if loc.canProbe && !loc.folderExists { return true; }
    var absent := Absent(base, loc.listing);
    if !(|absent| == |base| || |absent| >= bulkDeleteMin) { return false; }
    if loc.canProbe {
      for k := 0 to |absent|
        invariant forall i :: 0 <= i < k ==> loc.probe(absent[i])
      {
        if !loc.probe(absent[k]) { return true; }
      }
      return false;
    }
    return true;
  }

  ghost predicate MustHold(base: seq<string>, loc: Local, bulkDeleteMin: nat) {
    var absent := Absent(base, loc.listing);
    && base != []
    && ((loc.canProbe && !loc.folderExists)
        || ((|absent| == |base| || |absent| >= bulkDeleteMin)
            && (loc.canProbe ==> exists k :: 0 <= k < |absent| && !loc.probe(absent[k]))))
  }

  /** Base paths both the listing and, where possible, the probe call gone. */
  ghost function Gone(base: seq<string>, loc: Local): seq<string> {
    if base == [] then []
    else (if base[0] !in loc.listing && (loc.canProbe ==> !loc.probe(base[0])) then [base[0]] else []) + Gone(base[1..], loc)
  }

  lemma {:induction false} GoneWithinAbsent(base: seq<string>, loc: Local)
    ensures |Gone(base, loc)| <= |Absent(base, loc.listing)| <= |base|
    decreases |base|
  {
    if base != [] { GoneWithinAbsent(base[1..], loc); }
  }

  lemma {:induction false} NothingGone(base: seq<string>, loc: Local)
    requires forall p :: p in Absent(base, loc.listing) ==> loc.canProbe && loc.probe(p)
    ensures Gone(base, loc) == []
    decreases |base|
  {
    if base != [] {
      var a, rest := Absent(base, loc.listing), Absent(base[1..], loc.listing);
      assert forall p :: p in rest ==> p in a;
      if base[0] !in loc.listing { assert a[0] == base[0] && base[0] in a; }
      NothingGone(base[1..], loc);
    }
  }

  /** A cleared full pass never faces a wipe: of a non-empty base some path is still there, and
      fewer than the bulk floor are gone by both accounts. */
  lemma ClearedPassFacesNoWipe(base: seq<string>, loc: Local, bulkDeleteMin: nat)
    requires !MustHold(base, loc, bulkDeleteMin) && base != [] && bulkDeleteMin > 0
    ensures |Gone(base, loc)| < bulkDeleteMin && |Gone(base, loc)| < |base|
    ensures loc.canProbe ==> loc.folderExists
  {
    GoneWithinAbsent(base, loc);
    var absent := Absent(base, loc.listing);
    if |absent| == |base| || |absent| >= bulkDeleteMin {
      forall p | p in absent ensures loc.canProbe && loc.probe(p) {
        var k :| 0 <= k < |absent| && absent[k] == p;
      }
      NothingGone(base, loc);
    }
  }

  // ----- the scope -----

  datatype Scope = Scope(state: MountState, fails: int, forceFull: bool)

  /** A pass over this scope in flight: whether it is full, and how many requests preceded it. */
  datatype Pass = Pass(full: bool, seen: int)

  predicate Skipped(s: MountState) { s in {Detached, Unmounting, Failed, LocalGone} }

  /** Does the next pass over a scope in this condition start out full? */
  predicate StartsFull(s: Scope) { s.state == Mounting || s.state == Offline || s.forceFull }

  /** The part of `reconcileMountScope` before its first await. */
  function Begun(s: Scope): Scope {
    Scope(if s.state == Live then Transition(s.state, SyncStart) else s.state, s.fails, false)
  }

  function Settled(s: Scope, conflict: bool): Scope {
    Scope(Transition(s.state, if conflict then Conflict else SyncSettled), 0, s.forceFull)
  }

  function Caught(s: Scope): Scope {
    Scope(Transition(s.state, if s.fails + 1 >= MAX_MOUNT_FAILS then Fail else Disconnect), s.fails + 1, s.forceFull)
  }

  /** The scope object, mutated between awaits. */
  class MountScope {
    var state: MountState
    var fails: int
    var forceFull: bool

    ghost function View(): Scope
      reads this
    {
      Scope(state, fails, forceFull)
    }

    constructor ()
      ensures View() == Scope(Detached, 0, false)
    {
      state, fails, forceFull := Detached, 0, false;
    }

    method Begin() returns (skip: bool, full: bool, first: bool)
      modifies this
      ensures skip == Skipped(old(state))
      ensures skip ==> View() == old(View())
      ensures !skip ==> View() == Begun(old(View())) && full == StartsFull(old(View()))
      ensures !skip ==> first == (old(state) == Mounting || old(state) == Offline)
    {
      skip, full, first := false, false, false;
      if state == Detached || state == Unmounting || state == Failed || state == LocalGone { return true, false, false; }
      first := state == Mounting || state == Offline;
      full := first || forceFull;
      forceFull := false;
      if state == Live { state := Transition(state, SyncStart); }
    }

    method Settle(conflict: bool)
      modifies this
      ensures View() == Settled(old(View()), conflict)
    {
      fails := 0;
      state := Transition(state, if conflict then Conflict else SyncSettled);
    }

    method Catch()
      modifies this
      ensures View() == Caught(old(View()))
    {
      fails := fails + 1;
      state := Transition(state, if fails >= MAX_MOUNT_FAILS then Fail else Disconnect);
    }
  }

  // ----- the whole system around one scope -----

  /** Where the running pass stands with respect to this scope. */
  datatype Pc =
    | NoPass                                         // none running
    | Ahead                                          // running, this scope not reached
    | AwaitReady(pass: Pass)                         // source.ready()
    | AwaitChanges(pass: Pass)                       // api.changes(cursor)
    | AwaitMass(pass: Pass, delta: Delta)            // massLocalDeletion()
    | AwaitFull(pass: Pass, delta: Delta, base: seq<string>, loc: Local) // reconcileAll(), behind this guard run
    | AwaitDelta(pass: Pass, delta: Delta)           // reconcileDelta()
    | Behind                                         // done with this scope

  /** `reqs` counts the forced-full requests, `served` those a completed full pass has seen;
      `asked` and `begun` count the pass requests and how many of them a pass has followed. */
  datatype Sys = Sys(
    scope: Scope, live: bool, version: int, floor: Option<int>,
    reconciling: bool, pending: bool, unloading: bool, pc: Pc,
    reqs: int, served: int, asked: int, begun: int)

  function Start(version: int, floor: Option<int>): Sys {
    Sys(Scope(Detached, 0, false), true, version, floor, false, false, false, NoPass, 0, 0, 0, 0)
  }

  datatype Event =
    | Ask                                  // reconcileMounts() from a poll, a poke, the settings
    | Force                                // a local edit's nudge or a Keep: forceFull, then reconcileMounts()
    | Backoff                              // the failed scope's retry delay has elapsed when the pass starts
    | Drive                                // the pass reaches the scope
    | Ready(ok: bool)                      // ready() resolved; false also stands for a rejection
    | Changes(delta: Delta, conflict: bool) // conflict: a conflict copy an earlier, failed pass left unreported
    | Mass(base: seq<string>, loc: Local)  // the guard ran over this base and got these answers
    | FullDone(version': int, conflict: bool)
    | DeltaDone(version': int, conflict: bool)
    | Throw(version': int)                 // the awaited call rejected, the cursor wherever it left it
    | EndPass                              // also a pass that failed before reaching the scope
    | UnmountScope                         // removeMount
    | Drop                                 // the scope object is replaced (token, direction, reinstate)
    | Unload

  /** `reconcileMounts()`'s guard. */
  function Asked(s: Sys): Sys {
    if s.reconciling then s.(pending := true, asked := s.asked + 1)
    else s.(reconciling := true, pc := Ahead, asked := s.asked + 1, begun := s.asked + 1)
  }

  ghost predicate Enabled(s: Sys, e: Event) {
    match e
    case Ask => true
    case Force => s.live
    case Backoff => s.pc == Ahead && s.live && s.scope.state == Failed
    case Drive => s.pc == Ahead
    case Ready(_) => s.pc.AwaitReady?
    case Changes(_, _) => s.pc.AwaitChanges?
    case Mass(_, _) => s.pc.AwaitMass?
    case FullDone(_, _) => s.pc.AwaitFull?
    case DeltaDone(_, _) => s.pc.AwaitDelta?
    case Throw(_) => s.pc.AwaitChanges? || s.pc.AwaitMass? || s.pc.AwaitFull? || s.pc.AwaitDelta?
    case EndPass => s.pc == Behind || s.pc == Ahead
    case UnmountScope => s.live
    case Drop => s.live
    case Unload => !s.unloading
  }

  /** The pass completes on the scope. */
  function Complete(s: Sys, conflict: bool): Sys
    requires s.pc.AwaitFull? || s.pc.AwaitDelta? || s.pc.AwaitChanges?
  {
    s.(scope := Settled(s.scope, conflict), pc := Behind,
       served := if s.pc.pass.full && s.pc.pass.seen > s.served then s.pc.pass.seen else s.served)
  }

  ghost function Next(s: Sys, e: Event): Sys
    requires Enabled(s, e)
  {
    match e
    case Ask => Asked(s)
    case Force => Asked(s.(scope := s.scope.(forceFull := true), reqs := s.reqs + 1))
    case Backoff => s.(scope := Scope(Transition(s.scope.state, Reset), 0, s.scope.forceFull))
    case Drive =>
      if s.unloading || !s.live then s.(pc := Behind)
      else
        var c := if s.scope.state == Detached then s.scope.(state := Transition(s.scope.state, Mount)) else s.scope;
        if Skipped(c.state) then s.(scope := c, pc := Behind)
        else
          var pass := Pass(StartsFull(c), s.reqs);
          s.(scope := Begun(c),
             pc := if c.state == Mounting || c.state == Offline then AwaitReady(pass) else AwaitChanges(pass))
    case Ready(ok) => if ok then s.(pc := AwaitChanges(s.pc.pass)) else s.(scope := Caught(s.scope), pc := Behind)
    case Changes(delta, conflict) =>
      (match PollMode(delta, s.version, s.floor, s.pc.pass.full)
       case Noop => Complete(s, conflict).(floor := NoteFloor(s.floor, delta.floor, false))
       case Full => s.(pc := AwaitMass(s.pc.pass, delta))
       case _ => s.(pc := AwaitDelta(s.pc.pass, delta)))
    case Mass(base, loc) =>
      if MustHold(base, loc, BULK_DELETE_MIN)
      then s.(scope := s.scope.(state := Transition(s.scope.state, LocalGoneSeen)), pc := Behind)
      else s.(pc := AwaitFull(s.pc.pass, s.pc.delta, base, loc))
    case FullDone(v, conflict) =>
      Complete(s, conflict).(floor := NoteFloor(s.floor, s.pc.delta.floor, Rewound(s.pc.delta, s.version)), version := v)
    case DeltaDone(v, conflict) =>
      Complete(s, conflict).(floor := NoteFloor(s.floor, s.pc.delta.floor, Rewound(s.pc.delta, s.version)), version := v)
    case Throw(v) => s.(scope := Caught(s.scope), pc := Behind, version := v)
    case EndPass =>
      var s' := s.(reconciling := false, pc := NoPass);
      if s.pending && !s.unloading then s'.(pending := false, reconciling := true, pc := Ahead, begun := s.asked) else s'
    case UnmountScope => s.(scope := s.scope.(state := Transition(s.scope.state, Unmount)), live := false)
    case Drop => s.(live := false)
    case Unload => s.(unloading := true)
  }

  ghost predicate Runs(s: Sys, es: seq<Event>, s': Sys)
    decreases |es|
  {
    if es == [] then s == s' else Enabled(s, es[0]) && Runs(Next(s, es[0]), es[1..], s')
  }

  // ----- what every step keeps -----

  predicate InFlight(pc: Pc) {
    pc.AwaitReady? || pc.AwaitChanges? || pc.AwaitMass? || pc.AwaitFull? || pc.AwaitDelta?
  }

  /** However the scope is driven next, that pass will be full. */
  predicate WillStartFull(s: Scope) { StartsFull(s) || Skipped(s.state) }

  ghost predicate RequestsKept(s: Sys) {
    && s.served <= s.reqs
    && (InFlight(s.pc) ==> s.pc.pass.seen <= s.reqs)
    // an unserved request is remembered by the scope or being served right now
    && (s.served < s.reqs ==> WillStartFull(s.scope) || (InFlight(s.pc) && s.pc.pass.full && s.pc.pass.seen == s.reqs))
    // a request made during a pass waits on the scope for the next one
    && (InFlight(s.pc) && s.pc.pass.seen < s.reqs ==> s.scope.forceFull)
    // an incremental pass left no request behind when it began
    && (InFlight(s.pc) && !s.pc.pass.full ==> s.pc.pass.seen <= s.served)
  }

  ghost predicate LifecycleKept(s: Sys) {
    && 0 <= s.scope.fails
    && (Active(s.scope.state) || s.scope.state in {LocalGone, Detached} ==> s.scope.fails < MAX_MOUNT_FAILS)
    && (InFlight(s.pc) ==> s.scope.state in {Mounting, Syncing, Diverged, Offline, Unmounting})
  }

  ghost predicate GuardKept(s: Sys) {
    && (s.reconciling <==> s.pc != NoPass)
    && (s.pending ==> s.reconciling || s.unloading)
    && s.begun <= s.asked
    && (s.begun < s.asked ==> s.pending)
  }

  /** A pass is full when it was forced or the poll showed a reset; otherwise it saw none. */
  ghost predicate ModeKept(s: Sys) {
    && (s.pc.AwaitDelta? ==> !s.pc.pass.full && !Rewound(s.pc.delta, s.version) && !FloorAdvanced(s.pc.delta, s.floor))
    && (s.pc.AwaitMass? || s.pc.AwaitFull? ==>
          s.pc.pass.full || Rewound(s.pc.delta, s.version) || FloorAdvanced(s.pc.delta, s.floor))
  }

  /** A full reconcile runs behind a guard run that cleared it. */
  ghost predicate WipeKeptOut(s: Sys) {
    s.pc.AwaitFull? ==> !MustHold(s.pc.base, s.pc.loc, BULK_DELETE_MIN)
  }

  ghost predicate Inv(s: Sys) { RequestsKept(s) && LifecycleKept(s) && GuardKept(s) && ModeKept(s) && WipeKeptOut(s) }

  lemma StartInv(version: int, floor: Option<int>)
    ensures Inv(Start(version, floor))
  {
  }

  predicate Completing(e: Event) { e.FullDone? || e.DeltaDone? || e.Changes? }

  /** Steps of the pass itself that complete nothing. */
  predicate Driving(e: Event) { e.Drive? || e.Ready? || e.Mass? || e.Throw? || e.EndPass? }

  lemma CompletingKeepsRequests(s: Sys, e: Event)
    requires Inv(s) && Enabled(s, e) && Completing(e)
    ensures RequestsKept(Next(s, e))
  {
    hide MustHold;
  }

  lemma DriveKeepsRequests(s: Sys)
    requires RequestsKept(s) && Enabled(s, Drive)
    ensures RequestsKept(Next(s, Drive))
  {
    hide MustHold, PollMode, NoteFloor;
  }

  lemma EndKeepsRequests(s: Sys)
    requires RequestsKept(s) && Enabled(s, EndPass)
    ensures RequestsKept(Next(s, EndPass))
  {
    hide MustHold, PollMode, NoteFloor, Transition;
  }

  lemma GuardRunKeepsRequests(s: Sys, e: Event)
    requires RequestsKept(s) && LifecycleKept(s) && Enabled(s, e) && e.Mass?
    ensures RequestsKept(Next(s, e))
  {
    hide MustHold, PollMode, NoteFloor;
  }

  lemma HaltKeepsRequests(s: Sys, e: Event)
    requires RequestsKept(s) && LifecycleKept(s) && Enabled(s, e) && (e.Ready? || e.Throw?)
    ensures RequestsKept(Next(s, e))
  {
    hide MustHold, PollMode, NoteFloor;
  }

  lemma DrivingKeepsRequests(s: Sys, e: Event)
    requires Inv(s) && Enabled(s, e) && Driving(e)
    ensures RequestsKept(Next(s, e))
  {
    hide Next, Enabled, RequestsKept, LifecycleKept, GuardKept, ModeKept, WipeKeptOut;
    if e.Drive? { DriveKeepsRequests(s); }
    if e.EndPass? { EndKeepsRequests(s); }
    if e.Mass? { GuardRunKeepsRequests(s, e); }
    if e.Ready? || e.Throw? { HaltKeepsRequests(s, e); }
  }

  lemma OthersKeepRequests(s: Sys, e: Event)
    requires Inv(s) && Enabled(s, e) && !Completing(e) && !Driving(e)
    ensures RequestsKept(Next(s, e))
  {
    hide MustHold, PollMode;
  }

  lemma CompletingKeepsLifecycle(s: Sys, e: Event)
    requires Inv(s) && Enabled(s, e) && Completing(e)
    ensures LifecycleKept(Next(s, e))
  {
    hide MustHold, PollMode, NoteFloor;
  }

  lemma DrivingKeepsLifecycle(s: Sys, e: Event)
    requires Inv(s) && Enabled(s, e) && Driving(e)
    ensures LifecycleKept(Next(s, e))
  {
    hide MustHold, PollMode;
  }

  lemma OthersKeepLifecycle(s: Sys, e: Event)
    requires Inv(s) && Enabled(s, e) && !Completing(e) && !Driving(e)
    ensures LifecycleKept(Next(s, e))
  {
    hide MustHold, PollMode;
  }

  lemma StepKeepsGuard(s: Sys, e: Event)
    requires GuardKept(s) && Enabled(s, e)
    ensures GuardKept(Next(s, e))
  {
    hide MustHold, PollMode, NoteFloor, Transition, Begun, Settled, Caught;
  }

  lemma StepKeepsMode(s: Sys, e: Event)
    requires ModeKept(s) && Enabled(s, e)
    ensures ModeKept(Next(s, e))
  {
    hide MustHold, NoteFloor, Transition, Begun, Settled, Caught;
  }

  lemma StepKeepsWipeOut(s: Sys, e: Event)
    requires WipeKeptOut(s) && Enabled(s, e)
    ensures WipeKeptOut(Next(s, e))
  {
    hide MustHold, PollMode, NoteFloor, Transition, Begun, Settled, Caught;
  }

  /** Every event keeps the invariant. */
  lemma StepKeepsInv(s: Sys, e: Event)
    requires Inv(s) && Enabled(s, e)
    ensures Inv(Next(s, e))
  {
    hide Next, RequestsKept, LifecycleKept, GuardKept, ModeKept, WipeKeptOut;
    if Completing(e) {
      CompletingKeepsRequests(s, e);
      CompletingKeepsLifecycle(s, e);
    } else if Driving(e) {
      DrivingKeepsRequests(s, e);
      DrivingKeepsLifecycle(s, e);
    } else {
      OthersKeepRequests(s, e);
      OthersKeepLifecycle(s, e);
    }
    StepKeepsGuard(s, e);
    StepKeepsMode(s, e);
    StepKeepsWipeOut(s, e);
  }

  lemma {:induction false} RunsKeepInv(s: Sys, es: seq<Event>, s': Sys)
    requires Inv(s) && Runs(s, es, s')
    ensures Inv(s')
    decreases |es|
  {
    if es != [] {
      StepKeepsInv(s, es[0]);
      RunsKeepInv(Next(s, es[0]), es[1..], s');
    }
  }

  // ----- results about whole runs -----

  /** Does `e` complete the pass on the scope? */
  ghost predicate Completes(s: Sys, e: Event) {
    Enabled(s, e) &&
    (e.FullDone? || e.DeltaDone? || (e.Changes? && PollMode(e.delta, s.version, s.floor, s.pc.pass.full) == Noop))
  }

  /** After a forced request, a pass that starts later and is the first such to complete as a
      full one or otherwise is full: across throws, offline, failed, local-gone and requests
      that arrive in the middle of a pass. */
  lemma ForcedPassNeverLost(version: int, floor: Option<int>, es: seq<Event>, s: Sys, es': seq<Event>, t: Sys, e: Event)
    requires Runs(Start(version, floor), es, s) && Enabled(s, Force)
    requires Runs(Next(s, Force), es', t) && Completes(t, e)
    requires t.pc.pass.seen > s.reqs  // the pass began after the request
    requires t.served <= s.reqs       // no full pass begun after the request has completed yet
    ensures t.pc.pass.full && e.FullDone?
    ensures Next(t, e).served > s.reqs
  {
    StartInv(version, floor);
    RunsKeepInv(Start(version, floor), es, s);
    StepKeepsInv(s, Force);
    RunsKeepInv(Next(s, Force), es', t);
  }

  /** While a forced request is unserved, the scope's next start is a full pass, or a full pass
      that began after it is running. */
  lemma ForcedPassIsDue(version: int, floor: Option<int>, es: seq<Event>, s: Sys)
    requires Runs(Start(version, floor), es, s) && s.served < s.reqs
    ensures s.pc == Ahead && Enabled(s, Drive) && InFlight(Next(s, Drive).pc) ==> Next(s, Drive).pc.pass == Pass(true, s.reqs)
    ensures WillStartFull(s.scope) || (InFlight(s.pc) && s.pc.pass == Pass(true, s.reqs))
  {
    StartInv(version, floor);
    RunsKeepInv(Start(version, floor), es, s);
  }

  /** A pass request is never dropped: until a pass begins after it, one is running and its end
      starts the next, unless the plugin is unloading. */
  lemma RequestNeverDropped(version: int, floor: Option<int>, es: seq<Event>, s: Sys)
    requires Runs(Start(version, floor), es, s) && s.begun < s.asked
    ensures !s.unloading ==> s.reconciling && s.pc != NoPass
    ensures Enabled(s, EndPass) && !s.unloading ==> Next(s, EndPass).begun == s.asked && Next(s, EndPass).pc == Ahead
  {
    StartInv(version, floor);
    RunsKeepInv(Start(version, floor), es, s);
  }

  /** In every reachable state an active scope is below the failure limit, and at most one pass
      drives it. */
  lemma ActiveScopeBelowLimit(version: int, floor: Option<int>, es: seq<Event>, s: Sys)
    requires Runs(Start(version, floor), es, s)
    ensures Active(s.scope.state) ==> 0 <= s.scope.fails < MAX_MOUNT_FAILS
    ensures InFlight(s.pc) ==> s.reconciling && s.scope.state != Detached && s.scope.state != Failed && s.scope.state != LocalGone
  {
    StartInv(version, floor);
    RunsKeepInv(Start(version, floor), es, s);
  }

  /** A removed scope that no pass is working on is never touched again, whichever state it was
      removed in: `unmount` has no rule in `detached`, which stays what it was. */
  lemma {:induction false} RemovedIsNeverDriven(s: Sys, es: seq<Event>, t: Sys)
    requires !s.live && !InFlight(s.pc) && Runs(s, es, t)
    ensures !t.live && !InFlight(t.pc) && t.scope == s.scope
    decreases |es|
  {
    hide MustHold, PollMode, NoteFloor, Transition, Begun, Settled, Caught;
    if es != [] { RemovedIsNeverDriven(Next(s, es[0]), es[1..], t); }
  }

  lemma UnmountingStays(s: Sys, e: Event)
    requires s.scope.state == Unmounting && !s.live && Enabled(s, e)
    ensures Next(s, e).scope.state == Unmounting && !Next(s, e).live
  {
    hide MustHold, PollMode, NoteFloor;
    assert forall x: MountEvent :: x != Unmounted ==> Transition(Unmounting, x) == Unmounting;
    hide Transition;
  }

  /** No event, an in-flight pass included, takes a scope out of `unmounting`, and it is never
      driven again. */
  lemma {:induction false} UnmountingIsFinal(s: Sys, es: seq<Event>, t: Sys)
    requires s.scope.state == Unmounting && !s.live && Runs(s, es, t)
    ensures t.scope.state == Unmounting && !t.live
    ensures !InFlight(s.pc) ==> !InFlight(t.pc)
    decreases |es|
  {
    if es != [] {
      UnmountingStays(s, es[0]);
      hide Next, Enabled;
      UnmountingIsFinal(Next(s, es[0]), es[1..], t);
    }
    if !InFlight(s.pc) { RemovedIsNeverDriven(s, es, t); }
  }

  /** A recorded floor changes only when a full reconcile completes. */
  lemma FloorMovesOnlyByFullPass(version: int, floor: Option<int>, es: seq<Event>, s: Sys, e: Event)
    requires Runs(Start(version, floor), es, s) && Enabled(s, e)
    requires s.floor.Some? && Next(s, e).floor != s.floor
    ensures e.FullDone?
    ensures Rewound(s.pc.delta, s.version) || (Next(s, e).floor == s.pc.delta.floor && FloorAdvanced(s.pc.delta, s.floor))
  {
    StartInv(version, floor);
    RunsKeepInv(Start(version, floor), es, s);
  }

  /** From here on the source reports a floor above `f`. */
  ghost predicate Truncated(es: seq<Event>, f: int) {
    forall k :: 0 <= k < |es| && es[k].Changes? ==> es[k].delta.floor.Some? && es[k].delta.floor.value > f
  }

  lemma TruncationStep(s: Sys, f: int, e: Event)
    requires Inv(s) && s.floor == Some(f) && !s.pc.AwaitDelta? && Enabled(s, e)
    requires !e.FullDone? && (e.Changes? ==> e.delta.floor.Some? && e.delta.floor.value > f)
    ensures !Completes(s, e)
    ensures Next(s, e).floor == Some(f) && !Next(s, e).pc.AwaitDelta?
  {
    if e.Changes? {
      assert FloorAdvanced(e.delta, s.floor);
      assert PollMode(e.delta, s.version, s.floor, s.pc.pass.full) == Full;
    }
  }

  /** How many passes complete on the scope along a run. */
  ghost function Completions(s: Sys, es: seq<Event>): nat
    decreases |es|
  {
    if es == [] || !Enabled(s, es[0]) then 0
    else (if Completes(s, es[0]) then 1 else 0) + Completions(Next(s, es[0]), es[1..])
  }

  lemma {:induction false} TruncationHolds(s: Sys, f: int, es: seq<Event>, t: Sys)
    requires Inv(s) && s.floor == Some(f) && !s.pc.AwaitDelta?
    requires Runs(s, es, t) && Truncated(es, f)
    requires forall k :: 0 <= k < |es| ==> !es[k].FullDone?
    ensures t.floor == Some(f) && Completions(s, es) == 0
    decreases |es|
  {
    hide Inv, Next, Enabled, Completes;
    if es != [] {
      var rest := es[1..];
      assert forall k :: 0 <= k < |rest| ==> rest[k] == es[k + 1];
      TruncationStep(s, f, es[0]);
      StepKeepsInv(s, es[0]);
      TruncationHolds(Next(s, es[0]), f, rest, t);
    }
  }

  /** A truncation of the source's history is never skipped: once the source's floor has passed
      the recorded one, then until a full reconcile has completed, whatever throws, holds or
      goes offline, no pass completes at all and the recorded floor stays put, so that the
      reset fires again. */
  lemma TruncationNeverSkipped(version: int, floor: Option<int>, es: seq<Event>, s: Sys, f: int, es': seq<Event>, t: Sys)
    requires Runs(Start(version, floor), es, s) && s.floor == Some(f)
    requires !s.pc.AwaitDelta?  // no incremental pass on an older answer is under way
    requires Runs(s, es', t) && Truncated(es', f)
    requires forall k :: 0 <= k < |es'| ==> !es'[k].FullDone?
    ensures t.floor == Some(f) && Completions(s, es') == 0
  {
    StartInv(version, floor);
    RunsKeepInv(Start(version, floor), es, s);
    TruncationHolds(s, f, es', t);
  }

  /** In every reachable state the guard decides: the next event starts a full reconcile exactly
      when it is a guard run that clears it, and a guard run that does not puts the scope on hold. */
  lemma FullOnlyAfterGuard(version: int, floor: Option<int>, es: seq<Event>, s: Sys, e: Event)
    requires Runs(Start(version, floor), es, s) && Enabled(s, e) && !s.pc.AwaitFull?
    ensures Next(s, e).pc.AwaitFull? <==> e.Mass? && !MustHold(e.base, e.loc, BULK_DELETE_MIN)
    ensures e.Mass? && MustHold(e.base, e.loc, BULK_DELETE_MIN) ==>
              Next(s, e).pc == Behind && (Next(s, e).scope.state == LocalGone || s.scope.state == Unmounting)
  {
    hide MustHold, Runs, RequestsKept, GuardKept, ModeKept;
    StartInv(version, floor);
    RunsKeepInv(Start(version, floor), es, s);
    hide PollMode, NoteFloor, Begun, Settled, Caught;
  }

  /** However the run got there, a full reconcile never runs into a wipe: of a non-empty base some
      path was still there, fewer than the bulk minimum were gone by listing and probe, and the
      mount folder existed as far as that could be probed. */
  lemma FullPassFacesNoWipe(version: int, floor: Option<int>, es: seq<Event>, s: Sys)
    requires Runs(Start(version, floor), es, s) && s.pc.AwaitFull? && s.pc.base != []
    ensures |Gone(s.pc.base, s.pc.loc)| < BULK_DELETE_MIN && |Gone(s.pc.base, s.pc.loc)| < |s.pc.base|
    ensures s.pc.loc.canProbe ==> s.pc.loc.folderExists
  {
    hide Runs, MustHold, Gone, RequestsKept, LifecycleKept, GuardKept, ModeKept;
    StartInv(version, floor);
    RunsKeepInv(Start(version, floor), es, s);
    ClearedPassFacesNoWipe(s.pc.base, s.pc.loc, BULK_DELETE_MIN);
  }

  // ----- what a poll does with the source's answer -----

  /** A poll is idle only when the source reports no upsert, no deletion and the very version the
      cursor has; any change without a reset goes to an incremental pass; a version below the
      cursor, a floor above the recorded one or a forced pass goes through the guard to a full one. */
  lemma PollFollowsTheAnswer(s: Sys, e: Event)
    requires Enabled(s, e) && e.Changes?
    ensures var d := e.delta;
      var reset := d.version < s.version || (s.floor.Some? && d.floor.Some? && d.floor.value > s.floor.value);
      var full := s.pc.pass.full || reset;
      && (Next(s, e).pc == Behind <==> !full && d.upserts == 0 && d.deletes == 0 && d.version == s.version)
      && (Next(s, e).pc == AwaitDelta(s.pc.pass, d) <==> !full && !(d.upserts == 0 && d.deletes == 0 && d.version == s.version))
      && (Next(s, e).pc == AwaitMass(s.pc.pass, d) <==> full)
  {
  }

  /** The first pass over a mounting or offline scope reads the source only once it is ready; a
      source that is not counts as a failure. */
  lemma NotReadyIsAFailure(s: Sys, ok: bool)
    requires Enabled(s, Ready(ok))
    ensures Next(s, Ready(ok)).pc == if ok then AwaitChanges(s.pc.pass) else Behind
    ensures Next(s, Ready(ok)).scope.fails == s.scope.fails + if ok then 0 else 1
  {
  }

  /** Where a pass leaves a scope it was driving, in every reachable state: completed, with a
      conflict diverged and else live, the failures forgotten; thrown, offline, or failed at the
      third throw in a row; unmounting whatever happens. */
  lemma PassLeavesTheScope(version: int, floor: Option<int>, es: seq<Event>, s: Sys, e: Event)
    requires Runs(Start(version, floor), es, s) && Enabled(s, e) && s.scope.state != Unmounting
    ensures e.FullDone? || e.DeltaDone? ==>
              Next(s, e).scope.state == (if e.conflict then Diverged else Live) && Next(s, e).scope.fails == 0
    ensures e.Throw? ==>
              Next(s, e).scope.state == (if s.scope.fails >= 2 then Failed else Offline)
  {
    hide Runs, MustHold, PollMode, NoteFloor, Next, Enabled, RequestsKept, LifecycleKept, GuardKept, ModeKept, WipeKeptOut;
    StartInv(version, floor);
    RunsKeepInv(Start(version, floor), es, s);
    if e.FullDone? || e.DeltaDone? { CompletionLands(s, e); }
    if e.Throw? { ThrowLands(s, e); }
  }

  lemma CompletionLands(s: Sys, e: Event)
    requires LifecycleKept(s) && Enabled(s, e) && (e.FullDone? || e.DeltaDone?) && s.scope.state != Unmounting
    ensures Next(s, e).scope.state == (if e.conflict then Diverged else Live) && Next(s, e).scope.fails == 0
  {
    hide MustHold, PollMode, NoteFloor;
  }

  lemma ThrowLands(s: Sys, e: Event)
    requires LifecycleKept(s) && Enabled(s, e) && e.Throw? && s.scope.state != Unmounting
    ensures Next(s, e).scope.state == (if s.scope.fails >= 2 then Failed else Offline)
  {
    hide MustHold, PollMode, NoteFloor;
  }

  /** Throws and unready sources since the last completed pass or backoff. */
  ghost function InARow(s: Sys, es: seq<Event>, n: int): int
    decreases |es|
  {
    if es == [] || !Enabled(s, es[0]) then n
    else
      var e := es[0];
      InARow(Next(s, e), es[1..],
             if e.Throw? || e == Ready(false) then n + 1
             else if Completes(s, e) || e.Backoff? then 0
             else n)
  }

  lemma FailsStep(s: Sys, e: Event)
    requires Enabled(s, e)
    ensures Next(s, e).scope.fails ==
      if e.Throw? || e == Ready(false) then s.scope.fails + 1
      else if Completes(s, e) || e.Backoff? then 0
      else s.scope.fails
  {
    hide MustHold, PollMode, NoteFloor, Transition;
  }

  /** The failure counter is the number of failures in a row, along every run. */
  lemma {:induction false} FailsAreInARow(s: Sys, es: seq<Event>, t: Sys)
    requires Runs(s, es, t)
    ensures t.scope.fails == InARow(s, es, s.scope.fails)
    decreases |es|
  {
    hide Next, Enabled, Completes;
    if es != [] {
      FailsStep(s, es[0]);
      FailsAreInARow(Next(s, es[0]), es[1..], t);
    }
  }

  /** A completed full pass records the floor the source reported: exactly it after a rewind, and
      otherwise the higher of it and the recorded one. */
  lemma FullPassRecordsTheFloor(s: Sys, e: Event)
    requires Enabled(s, e) && e.FullDone?
    ensures s.pc.delta.version < s.version ==> Next(s, e).floor == s.pc.delta.floor
    ensures s.pc.delta.version >= s.version && s.pc.delta.floor.Some? ==>
              Next(s, e).floor.Some? && Next(s, e).floor.value >= s.pc.delta.floor.value
              && (Next(s, e).floor == s.pc.delta.floor || Next(s, e).floor == s.floor)
    ensures s.pc.delta.version >= s.version && s.pc.delta.floor.None? ==> Next(s, e).floor == s.floor
  {
    hide MustHold, PollMode, Transition;
  }

  /** A request either starts a pass at once or is kept for the end of the running one; a forced
      one marks the scope in either case. */
  lemma RequestIsTaken(s: Sys, e: Event)
    requires Enabled(s, e) && (e.Ask? || e.Force?)
    ensures var s' := Next(s, e);
      && s'.asked == s.asked + 1
      && (!s.reconciling ==> s'.reconciling && s'.pc == Ahead && s'.begun == s'.asked)
      && (s.reconciling ==> s'.pending && s'.pc == s.pc && s'.begun == s.begun)
      && s'.scope == (if e.Force? then Scope(s.scope.state, s.scope.fails, true) else s.scope)
  {
    hide MustHold, PollMode;
  }

  /** Once the plugin unloads, no pass begins work on the scope any more, whatever is requested. */
  lemma {:induction false} UnloadingDrivesNothing(s: Sys, es: seq<Event>, t: Sys)
    requires s.unloading && !InFlight(s.pc) && Runs(s, es, t)
    ensures t.unloading && !InFlight(t.pc)
    decreases |es|
  {
    hide MustHold, PollMode, NoteFloor, Transition, Begun, Settled, Caught;
    if es != [] { UnloadingDrivesNothing(Next(s, es[0]), es[1..], t); }
  }

  /** From the unload on, unless a pass is at work on the scope at that moment. */
  lemma UnloadStopsThePasses(s: Sys, es: seq<Event>, t: Sys)
    requires Enabled(s, Unload) && !InFlight(s.pc) && Runs(Next(s, Unload), es, t)
    ensures !InFlight(t.pc)
  {
    UnloadingDrivesNothing(Next(s, Unload), es, t);
  }

  /** From the removal or replacement of the scope on, likewise: it keeps for good the state that
      left it in. */
  lemma RemovalIsFinal(s: Sys, e: Event, es: seq<Event>, t: Sys)
    requires Enabled(s, e) && (e == UnmountScope || e == Drop) && !InFlight(s.pc) && Runs(Next(s, e), es, t)
    ensures !InFlight(t.pc)
    ensures t.scope.state == if e == UnmountScope && s.scope.state != Detached then Unmounting else s.scope.state
  {
    RemovedIsNeverDriven(Next(s, e), es, t);
  }

  /** A failed scope whose delay has passed is taken up again by the pass, in full, its failures
      forgotten. */
  lemma FailedIsRetried(s: Sys)
    requires Enabled(s, Backoff) && !s.unloading
    ensures var s' := Next(s, Backoff);
      && s'.scope.state == Detached && s'.scope.fails == 0
      && Enabled(s', Drive) && Next(s', Drive).pc == AwaitReady(Pass(true, s.reqs)) && Next(s', Drive).scope.state == Mounting
  {
    hide MustHold, PollMode, NoteFloor;
  }

  /** How a pass starts on a live scope: first contact and reconnect in full, once the source is
      ready; a scope that is in step in full only if a request forced it, reading the source at
      once; any other not at all. */
  lemma DriveRule(s: Sys)
    requires Enabled(s, Drive) && s.live && !s.unloading
    ensures s.scope.state in {Detached, Mounting, Offline} ==> Next(s, Drive).pc == AwaitReady(Pass(true, s.reqs))
    ensures s.scope.state in {Live, Syncing, Diverged} ==> Next(s, Drive).pc == AwaitChanges(Pass(s.scope.forceFull, s.reqs))
    ensures s.scope.state in {Unmounting, LocalGone, Failed} ==> Next(s, Drive).pc == Behind && Next(s, Drive).scope == s.scope
    ensures InFlight(Next(s, Drive).pc) ==> !Next(s, Drive).scope.forceFull
  {
    hide MustHold, PollMode, NoteFloor;
  }
}
