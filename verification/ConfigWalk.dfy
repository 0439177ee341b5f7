/** The bounded parallel walk of the config tree: a counting semaphore that hands its slot
    straight to the next waiter, and concurrent list/stat tasks under an arbitrary scheduler. */
module ConfigWalk {
  import opened Wrappers

  // ----- the adapter's answers -----

  /** What listing a directory gives, all the way down. */
  datatype Tree = Unlistable(dir: string) | Folder(dir: string, files: seq<string>, subs: seq<Tree>)

  datatype Raw = Raw(mtime: Option<int>, size: Option<int>, ctime: Option<int>)
  datatype StatResult = Throws | Null | Got(raw: Raw)
  datatype Entry = Entry(mtime: int, size: int, ctime: Option<int>)

  datatype Env = Env(passes: string -> bool, stat: string -> StatResult)

  function OrZero(x: Option<int>): int { if x.Some? then x.value else 0 }

  function ToEntry(r: StatResult): Entry
    requires !r.Throws?
  {
    match r
    case Null => Entry(0, 0, None)
    case Got(raw) => Entry(OrZero(raw.mtime), OrZero(raw.size), raw.ctime)
  }

  function Filter(files: seq<string>, passes: string -> bool): seq<string> {
    if files == [] then [] else (if passes(files[0]) then [files[0]] else []) + Filter(files[1..], passes)
  }

  // ----- the sequential walk -----

  datatype Outcome = Outcome(entries: map<string, Entry>, dirs: int, files: int, errors: multiset<string>)

  function Nothing(): Outcome { Outcome(map[], 0, 0, multiset{}) }

  function SeqStat(env: Env, file: string, acc: Outcome): Outcome {
    var r := env.stat(file);
    acc.(files := acc.files + 1, entries := if r.Throws? then acc.entries else acc.entries[file := ToEntry(r)])
  }

  function SeqFiles(env: Env, files: seq<string>, acc: Outcome): Outcome {
    if files == [] then acc else SeqFiles(env, files[1..], SeqStat(env, files[0], acc))
  }

  /** Depth first, one call at a time. */
  function SeqWalk(env: Env, t: Tree, acc: Outcome): Outcome
    decreases t, 1
  {
    var acc' := acc.(dirs := acc.dirs + 1);
    match t
    case Unlistable(d) => acc'.(errors := acc'.errors + multiset{d})
    case Folder(_, files, subs) => SeqForest(env, subs, SeqFiles(env, Filter(files, env.passes), acc'))
  }

  function SeqForest(env: Env, ts: seq<Tree>, acc: Outcome): Outcome
    decreases ts, 0
  {
    if ts == [] then acc else SeqForest(env, ts[1..], SeqWalk(env, ts[0], acc))
  }

  // ----- the semaphore -----

  datatype Sem = Sem(avail: nat, queue: seq<nat>)

  /** `run`'s entry: take a slot now, or join the queue. */
  function Enter(s: Sem, id: nat): Sem {
    if s.avail == 0 then s.(queue := s.queue + [id]) else s.(avail := s.avail - 1)
  }

  /** `run`'s exit: pass the slot to the first waiter, or return it. */
  function Leave(s: Sem): Sem {
    if s.queue != [] then s.(queue := s.queue[1..]) else s.(avail := s.avail + 1)
  }

  class Semaphore {
    var avail: nat
    var q: seq<nat>

    ghost function View(): Sem
      reads this
    {
      Sem(avail, q)
    }

    constructor (n: int)
      ensures View() == Sem(if n > 1 then n else 1, [])
    {
      avail, q := if n > 1 then n else 1, [];
    }

    /** Returns whether the caller runs at once. */
    method Acquire(id: nat) returns (now: bool)
      modifies this
      ensures View() == Enter(old(View()), id)
      ensures now <==> old(avail) > 0
    {
      now := avail > 0;
      if avail <= 0 { q := q + [id]; } else { avail := avail - 1; }
    }

    /** Returns the waiter the slot went to. */
    method Release() returns (next: Option<nat>)
      modifies this
      ensures View() == Leave(old(View()))
      ensures next == if old(q) == [] then None else Some(old(q)[0])
    {
      if |q| > 0 {
        next := Some(q[0]);
        q := q[1..];
      } else {
        next := None;
        avail := avail + 1;
      }
    }
  }

  // ----- the concurrent walk -----

  datatype Job = ListJob(t: Tree) | StatJob(file: string)

  /** Waiting in the queue; handed a slot but not yet resumed; adapter call running; call
      settled, the walk's continuation still to run; done. */
  datatype Phase = Waiting | Granted | InFlight | Returned | Finished

  datatype Task = Task(job: Job, phase: Phase)

  /** `waited` and `handed` log every queueing and every hand-over, in order; `read` logs the
      files whose stat succeeded. */
  datatype State = State(sem: Sem, tasks: seq<Task>, out: Outcome, waited: seq<nat>, handed: seq<nat>, read: multiset<string>)

  /** Count the call (`stats.dirs++`, `stats.files++`) and enter the semaphore, in one turn. */
  ghost function Spawn(s: State, job: Job): State {
    var id := |s.tasks|;
    var out := if job.ListJob? then s.out.(dirs := s.out.dirs + 1) else s.out.(files := s.out.files + 1);
    State(Enter(s.sem, id), s.tasks + [Task(job, if s.sem.avail == 0 then Waiting else InFlight)], out,
          if s.sem.avail == 0 then s.waited + [id] else s.waited, s.handed, s.read)
  }

  ghost function SpawnAll(s: State, jobs: seq<Job>): State
    decreases |jobs|
  {
    if jobs == [] then s else SpawnAll(Spawn(s, jobs[0]), jobs[1..])
  }

  ghost function Slots(limit: int): nat { if limit > 1 then limit else 1 }

  ghost function Init(limit: int, root: Tree): State {
    Spawn(State(Sem(Slots(limit), []), [], Nothing(), [], [], multiset{}), ListJob(root))
  }

  datatype Step = Resume(id: nat) | Settle(id: nat) | Continue(id: nat)

  ghost predicate Enabled(s: State, step: Step) {
    step.id < |s.tasks| &&
    match step
    case Resume(id) => s.tasks[id].phase == Granted
    case Settle(id) => s.tasks[id].phase == InFlight
    case Continue(id) => s.tasks[id].phase == Returned
  }

  ghost function SetPhase(tasks: seq<Task>, id: nat, phase: Phase): (r: seq<Task>)
    ensures |r| == |tasks|
  {
    if id < |tasks| then tasks[id := tasks[id].(phase := phase)] else tasks
  }

  /** What a listed directory spawns: its passing files, then its subfolders. */
  ghost function Children(env: Env, t: Tree): seq<Job> {
    match t
    case Unlistable(_) => []
    case Folder(_, files, subs) => StatJobs(Filter(files, env.passes)) + ListJobs(subs)
  }

  ghost function StatJobs(files: seq<string>): seq<Job> {
    if files == [] then [] else [StatJob(files[0])] + StatJobs(files[1..])
  }

  ghost function ListJobs(ts: seq<Tree>): seq<Job> {
    if ts == [] then [] else [ListJob(ts[0])] + ListJobs(ts[1..])
  }

  /** The output a continuation adds before it spawns anything. */
  ghost function Report(env: Env, job: Job, out: Outcome): Outcome {
    match job
    case ListJob(Unlistable(d)) => out.(errors := out.errors + multiset{d})
    case ListJob(Folder(_, _, _)) => out
    case StatJob(f) => if env.stat(f).Throws? then out else out.(entries := out.entries[f := ToEntry(env.stat(f))])
  }

  ghost predicate ReadsFile(env: Env, job: Job) { job.StatJob? && !env.stat(job.file).Throws? }

  ghost function Next(env: Env, s: State, step: Step): State
    requires Enabled(s, step)
  {
    match step
    case Resume(id) => s.(tasks := SetPhase(s.tasks, id, InFlight))
    case Settle(id) =>
      var tasks := SetPhase(s.tasks, id, Returned);
      if s.sem.queue == [] then s.(sem := Leave(s.sem), tasks := tasks)
      else
        var h := s.sem.queue[0];
        s.(sem := Leave(s.sem), tasks := SetPhase(tasks, h, Granted), handed := s.handed + [h])
    case Continue(id) =>
      var job := s.tasks[id].job;
      SpawnAll(Concluded(env, s, id), if job.ListJob? then Children(env, job.t) else [])
  }

  /** The continuation has run up to the spawning of children. */
  ghost function Concluded(env: Env, s: State, id: nat): State
    requires id < |s.tasks|
  {
    s.(tasks := SetPhase(s.tasks, id, Finished), out := Report(env, s.tasks[id].job, s.out),
       read := s.read + if ReadsFile(env, s.tasks[id].job) then multiset{s.tasks[id].job.file} else multiset{})
  }

  /** The scheduler may take `steps` from `s` and end in `s'`. */
  ghost predicate Runs(env: Env, s: State, steps: seq<Step>, s': State)
    decreases |steps|
  {
    if steps == [] then s == s' else Enabled(s, steps[0]) && Runs(env, Next(env, s, steps[0]), steps[1..], s')
  }

  // ----- the semaphore's invariant -----

  ghost function Holds(t: Task): nat { if t.phase == Granted || t.phase == InFlight then 1 else 0 }

  /** Tasks that own a slot. */
  ghost function Holding(tasks: seq<Task>): nat
    decreases |tasks|
  {
    if tasks == [] then 0 else Holding(tasks[..|tasks| - 1]) + Holds(tasks[|tasks| - 1])
  }

  /** Adapter calls running. */
  ghost function Running(tasks: seq<Task>): nat
    decreases |tasks|
  {
    if tasks == [] then 0 else Running(tasks[..|tasks| - 1]) + if tasks[|tasks| - 1].phase == InFlight then 1 else 0
  }

  /** The queue holds exactly the waiting tasks, once each. */
  ghost predicate QueueOk(queue: seq<nat>, tasks: seq<Task>) {
    && (forall k :: 0 <= k < |queue| ==> queue[k] < |tasks| && tasks[queue[k]].phase == Waiting)
    && (forall i :: 0 <= i < |tasks| && tasks[i].phase == Waiting ==> i in queue)
    && (forall k, l :: 0 <= k < l < |queue| ==> queue[k] != queue[l])
  }

  /** Every slot is free or owned, none is free while someone waits, and slots went to waiters
      in the order they queued. */
  ghost predicate Inv(s: State, limit: int) {
    && QueueOk(s.sem.queue, s.tasks)
    && (s.sem.queue != [] ==> s.sem.avail == 0)
    && s.sem.avail + Holding(s.tasks) == Slots(limit)
    && s.waited == s.handed + s.sem.queue
  }

  lemma {:induction false} HoldingUpdate(tasks: seq<Task>, i: nat, t: Task)
    requires i < |tasks|
    ensures Holding(tasks[i := t]) + Holds(tasks[i]) == Holding(tasks) + Holds(t)
    decreases |tasks|
  {
    var n := |tasks| - 1;
    var u := tasks[i := t];
    if i == n {
      assert u[..n] == tasks[..n];
    } else {
      assert u[..n] == tasks[..n][i := t];
      HoldingUpdate(tasks[..n], i, t);
    }
  }

  lemma HoldingSnoc(tasks: seq<Task>, t: Task)
    ensures Holding(tasks + [t]) == Holding(tasks) + Holds(t)
  {
    assert (tasks + [t])[..|tasks|] == tasks;
  }

  lemma {:induction false} RunningAtMostHolding(tasks: seq<Task>)
    ensures Running(tasks) <= Holding(tasks)
    decreases |tasks|
  {
    if tasks != [] { RunningAtMostHolding(tasks[..|tasks| - 1]); }
  }

  lemma {:induction false} SomeoneHolds(tasks: seq<Task>) returns (i: nat)
    requires Holding(tasks) > 0
    ensures i < |tasks| && (tasks[i].phase == Granted || tasks[i].phase == InFlight)
    decreases |tasks|
  {
    var n := |tasks| - 1;
    if Holds(tasks[n]) > 0 { i := n; } else { i := SomeoneHolds(tasks[..n]); }
  }

  lemma SpawnKeepsInv(s: State, limit: int, job: Job)
    requires Inv(s, limit)
    ensures Inv(Spawn(s, job), limit)
  {
    HoldingSnoc(s.tasks, Task(job, if s.sem.avail == 0 then Waiting else InFlight));
    SpawnQueueOk(s, job);
    hide QueueOk, Holding;
    assert s.handed + (s.sem.queue + [|s.tasks|]) == s.handed + s.sem.queue + [|s.tasks|];
  }

  lemma SpawnQueueOk(s: State, job: Job)
    requires QueueOk(s.sem.queue, s.tasks)
    ensures QueueOk(Spawn(s, job).sem.queue, Spawn(s, job).tasks)
  {
    if s.sem.avail == 0 {
      QueueOneMore(s.sem.queue, s.tasks, Task(job, Waiting));
    } else {
      OneMoreTask(s.sem.queue, s.tasks, Task(job, InFlight));
    }
  }

  lemma QueueOneMore(queue: seq<nat>, tasks: seq<Task>, t: Task)
    requires QueueOk(queue, tasks) && t.phase == Waiting
    ensures QueueOk(queue + [|tasks|], tasks + [t])
  {
    var queue', tasks' := queue + [|tasks|], tasks + [t];
    assert queue'[|queue|] == |tasks|;
    assert forall i :: i in queue ==> i in queue';
  }

  lemma OneMoreTask(queue: seq<nat>, tasks: seq<Task>, t: Task)
    requires QueueOk(queue, tasks) && t.phase != Waiting
    ensures QueueOk(queue, tasks + [t])
  {
  }

  lemma {:induction false} SpawnAllKeepsInv(s: State, limit: int, jobs: seq<Job>)
    requires Inv(s, limit)
    ensures Inv(SpawnAll(s, jobs), limit)
    decreases |jobs|
  {
    if jobs != [] {
      SpawnKeepsInv(s, limit, jobs[0]);
      SpawnAllKeepsInv(Spawn(s, jobs[0]), limit, jobs[1..]);
    }
  }

  /** A task that is not waiting may change phase without touching the queue. */
  lemma SetPhaseQueueOk(queue: seq<nat>, tasks: seq<Task>, id: nat, phase: Phase)
    requires QueueOk(queue, tasks) && id < |tasks|
    requires tasks[id].phase != Waiting && phase != Waiting
    ensures QueueOk(queue, SetPhase(tasks, id, phase))
  {
  }

  lemma GrantQueueOk(queue: seq<nat>, tasks: seq<Task>)
    requires QueueOk(queue, tasks) && queue != []
    ensures queue[0] < |tasks| && tasks[queue[0]].phase == Waiting
    ensures QueueOk(queue[1..], SetPhase(tasks, queue[0], Granted))
  {
    var q, tasks' := queue[1..], SetPhase(tasks, queue[0], Granted);
    assert forall k :: 0 <= k < |q| ==> q[k] == queue[k + 1];
    forall i | 0 <= i < |tasks'| && tasks'[i].phase == Waiting ensures i in q {
      assert i in queue;
      var k :| 0 <= k < |queue| && queue[k] == i;
      assert q[k - 1] == i;
    }
  }

  lemma SettleKeepsInv(env: Env, s: State, limit: int, id: nat)
    requires Inv(s, limit) && Enabled(s, Settle(id))
    ensures Inv(Next(env, s, Settle(id)), limit)
  {
    var tasks := SetPhase(s.tasks, id, Returned);
    SetPhaseQueueOk(s.sem.queue, s.tasks, id, Returned);
    HoldingUpdate(s.tasks, id, tasks[id]);
    hide Holding;
    if s.sem.queue != [] {
      GrantQueueOk(s.sem.queue, tasks);
      hide QueueOk;
      var h := s.sem.queue[0];
      HoldingUpdate(tasks, h, tasks[h].(phase := Granted));
      assert s.handed + s.sem.queue == s.handed + [h] + s.sem.queue[1..];
    }
  }

  /** Every scheduler step keeps the invariant. */
  lemma StepKeepsInv(env: Env, s: State, limit: int, step: Step)
    requires Inv(s, limit) && Enabled(s, step)
    ensures Inv(Next(env, s, step), limit)
  {
    match step
    case Resume(id) =>
      SetPhaseQueueOk(s.sem.queue, s.tasks, id, InFlight);
      HoldingUpdate(s.tasks, id, s.tasks[id].(phase := InFlight));
    case Settle(id) =>
      SettleKeepsInv(env, s, limit, id);
    case Continue(id) =>
      SetPhaseQueueOk(s.sem.queue, s.tasks, id, Finished);
      HoldingUpdate(s.tasks, id, s.tasks[id].(phase := Finished));
      var job := s.tasks[id].job;
      SpawnAllKeepsInv(Concluded(env, s, id), limit, if job.ListJob? then Children(env, job.t) else []);
  }

  lemma InitInv(limit: int, root: Tree)
    ensures Inv(Init(limit, root), limit)
  {
    SpawnKeepsInv(State(Sem(Slots(limit), []), [], Nothing(), [], [], multiset{}), limit, ListJob(root));
  }

  // ----- the work still owed -----

  /** What is counted: folders listed, files statted, reports of folder `x`, entries of file `x`. */
  datatype What = Dirs | Files | Errors | Entries

  ghost function FileWork(env: Env, w: What, x: string, f: string): int {
    match w
    case Files => 1
    case Entries => if f == x && !env.stat(f).Throws? then 1 else 0
    case _ => 0
  }

  ghost function FilesWork(env: Env, w: What, x: string, files: seq<string>): int
    decreases |files|
  {
    if files == [] then 0 else FileWork(env, w, x, files[0]) + FilesWork(env, w, x, files[1..])
  }

  /** What a walk of `t` does after counting `t` itself. */
  ghost function BelowWork(env: Env, w: What, x: string, t: Tree): int
    decreases t, 1
  {
    match t
    case Unlistable(d) => if w == Errors && d == x then 1 else 0
    case Folder(_, files, subs) => FilesWork(env, w, x, Filter(files, env.passes)) + ForestWork(env, w, x, subs)
  }

  ghost function ForestWork(env: Env, w: What, x: string, ts: seq<Tree>): int
    decreases ts, 0
  {
    if ts == [] then 0 else (if w == Dirs then 1 else 0) + BelowWork(env, w, x, ts[0]) + ForestWork(env, w, x, ts[1..])
  }

  ghost function TreeWork(env: Env, w: What, x: string, t: Tree): int {
    (if w == Dirs then 1 else 0) + BelowWork(env, w, x, t)
  }

  ghost function Owed(env: Env, w: What, x: string, t: Task): int {
    if t.phase == Finished then 0
    else match t.job
      case ListJob(tree) => BelowWork(env, w, x, tree)
      case StatJob(f) => if w == Entries then FileWork(env, w, x, f) else 0
  }

  ghost function Counted(w: What, job: Job): int {
    match w
    case Dirs => if job.ListJob? then 1 else 0
    case Files => if job.StatJob? then 1 else 0
    case _ => 0
  }

  ghost function JobsWork(env: Env, w: What, x: string, jobs: seq<Job>): int
    decreases |jobs|
  {
    if jobs == [] then 0
    else Counted(w, jobs[0]) + Owed(env, w, x, Task(jobs[0], Waiting)) + JobsWork(env, w, x, jobs[1..])
  }

  ghost function SumOwed(env: Env, w: What, x: string, tasks: seq<Task>): int
    decreases |tasks|
  {
    if tasks == [] then 0 else SumOwed(env, w, x, tasks[..|tasks| - 1]) + Owed(env, w, x, tasks[|tasks| - 1])
  }

  ghost function Done(w: What, x: string, s: State): int {
    match w
    case Dirs => s.out.dirs
    case Files => s.out.files
    case Errors => s.out.errors[x]
    case Entries => s.read[x]
  }

  /** Done and owed together. */
  ghost function Total(env: Env, w: What, x: string, s: State): int { Done(w, x, s) + SumOwed(env, w, x, s.tasks) }

  /** The entries are the files read, each with what its stat gave. */
  ghost predicate EntriesOk(env: Env, s: State) {
    && (forall f :: f in s.out.entries <==> f in s.read)
    && (forall f :: f in s.out.entries ==> !env.stat(f).Throws? && s.out.entries[f] == ToEntry(env.stat(f)))
  }

  lemma {:induction false} SumOwedUpdate(env: Env, w: What, x: string, tasks: seq<Task>, i: nat, t: Task)
    requires i < |tasks|
    ensures SumOwed(env, w, x, tasks[i := t]) + Owed(env, w, x, tasks[i]) == SumOwed(env, w, x, tasks) + Owed(env, w, x, t)
    decreases |tasks|
  {
    var n := |tasks| - 1;
    var u := tasks[i := t];
    if i == n {
      assert u[..n] == tasks[..n];
    } else {
      assert u[..n] == tasks[..n][i := t];
      SumOwedUpdate(env, w, x, tasks[..n], i, t);
    }
  }

  /** Spawning a job adds exactly its work: the count now, the rest as owed. */
  lemma SpawnAddsWork(env: Env, w: What, x: string, s: State, job: Job)
    ensures Total(env, w, x, Spawn(s, job)) == Total(env, w, x, s) + Counted(w, job) + Owed(env, w, x, Task(job, Waiting))
  {
    var s' := Spawn(s, job);
    assert s'.tasks[..|s.tasks|] == s.tasks;
  }

  lemma {:induction false} SpawnAllAddsWork(env: Env, w: What, x: string, s: State, jobs: seq<Job>)
    ensures Total(env, w, x, SpawnAll(s, jobs)) == Total(env, w, x, s) + JobsWork(env, w, x, jobs)
    ensures SpawnAll(s, jobs).out.entries == s.out.entries && SpawnAll(s, jobs).read == s.read
    decreases |jobs|
  {
    hide Total, Owed, Counted;
    if jobs != [] {
      SpawnAddsWork(env, w, x, s, jobs[0]);
      SpawnAllAddsWork(env, w, x, Spawn(s, jobs[0]), jobs[1..]);
    }
  }

  lemma {:induction false} JobsWorkCat(env: Env, w: What, x: string, a: seq<Job>, b: seq<Job>)
    ensures JobsWork(env, w, x, a + b) == JobsWork(env, w, x, a) + JobsWork(env, w, x, b)
    decreases |a|
  {
    if a == [] { assert a + b == b; } else {
      assert (a + b)[0] == a[0] && (a + b)[1..] == a[1..] + b;
      JobsWorkCat(env, w, x, a[1..], b);
    }
  }

  lemma {:induction false} StatJobsWork(env: Env, w: What, x: string, files: seq<string>)
    ensures JobsWork(env, w, x, StatJobs(files)) == FilesWork(env, w, x, files)
    decreases |files|
  {
    if files != [] {
      StatJobsWork(env, w, x, files[1..]);
      assert StatJobs(files)[1..] == StatJobs(files[1..]);
    }
  }

  lemma {:induction false} ListJobsWork(env: Env, w: What, x: string, ts: seq<Tree>)
    ensures JobsWork(env, w, x, ListJobs(ts)) == ForestWork(env, w, x, ts)
    decreases |ts|
  {
    if ts != [] {
      ListJobsWork(env, w, x, ts[1..]);
      assert ListJobs(ts)[1..] == ListJobs(ts[1..]);
    }
  }

  lemma ChildrenWork(env: Env, w: What, x: string, t: Tree)
    ensures JobsWork(env, w, x, Children(env, t)) == if t.Folder? then BelowWork(env, w, x, t) else 0
  {
    if t.Folder? {
      JobsWorkCat(env, w, x, StatJobs(Filter(t.files, env.passes)), ListJobs(t.subs));
      StatJobsWork(env, w, x, Filter(t.files, env.passes));
      ListJobsWork(env, w, x, t.subs);
    }
  }

  /** A continuation reports or hands on exactly what its task still owed. */
  lemma ContinueConserves(env: Env, w: What, x: string, s: State, id: nat)
    requires Enabled(s, Continue(id))
    ensures Total(env, w, x, Next(env, s, Continue(id))) == Total(env, w, x, s)
  {
    var task, c := s.tasks[id], Concluded(env, s, id);
    var kids := if task.job.ListJob? then Children(env, task.job.t) else [];
    SpawnAllAddsWork(env, w, x, c, kids);
    SumOwedUpdate(env, w, x, s.tasks, id, task.(phase := Finished));
    if task.job.ListJob? { ChildrenWork(env, w, x, task.job.t); }
    hide SpawnAll, Children, SumOwed, BelowWork;
    assert Done(w, x, c) + JobsWork(env, w, x, kids) == Done(w, x, s) + Owed(env, w, x, task);
  }

  lemma ContinueEntries(env: Env, s: State, id: nat)
    requires Enabled(s, Continue(id)) && EntriesOk(env, s)
    ensures EntriesOk(env, Next(env, s, Continue(id)))
  {
    var task, c := s.tasks[id], Concluded(env, s, id);
    var kids := if task.job.ListJob? then Children(env, task.job.t) else [];
    SpawnAllAddsWork(env, Dirs, "", c, kids);
    assert EntriesOk(env, c);
  }

  /** Every scheduler step conserves the work done and owed. */
  lemma StepConserves(env: Env, w: What, x: string, s: State, limit: int, step: Step)
    requires Inv(s, limit) && Enabled(s, step)
    ensures Total(env, w, x, Next(env, s, step)) == Total(env, w, x, s)
  {
    hide Enter, Leave;
    match step
    case Resume(id) =>
      SumOwedUpdate(env, w, x, s.tasks, id, s.tasks[id].(phase := InFlight));
    case Settle(id) =>
      var tasks := SetPhase(s.tasks, id, Returned);
      SumOwedUpdate(env, w, x, s.tasks, id, tasks[id]);
      if s.sem.queue != [] {
        var h := s.sem.queue[0];
        SumOwedUpdate(env, w, x, tasks, h, tasks[h].(phase := Granted));
      }
    case Continue(id) =>
      ContinueConserves(env, w, x, s, id);
  }

  lemma StepEntries(env: Env, s: State, limit: int, step: Step)
    requires Inv(s, limit) && Enabled(s, step) && EntriesOk(env, s)
    ensures EntriesOk(env, Next(env, s, step))
  {
    if step.Continue? { ContinueEntries(env, s, step.id); }
  }

  // ----- the sequential walk does the same work -----

  /** The same counts on an outcome; of its entries only whether `x` is among them. */
  ghost function Reported(w: What, x: string, o: Outcome): int {
    match w
    case Dirs => o.dirs
    case Files => o.files
    case Errors => o.errors[x]
    case Entries => if x in o.entries then 1 else 0
  }

  ghost predicate EntriesTrue(env: Env, o: Outcome) {
    forall f :: f in o.entries ==> !env.stat(f).Throws? && o.entries[f] == ToEntry(env.stat(f))
  }

  /** From `o` to `o'` the work `n` was done. */
  ghost predicate Did(w: What, x: string, o: Outcome, o': Outcome, n: int) {
    if w == Entries then n >= 0 && (Reported(w, x, o') > 0 <==> Reported(w, x, o) > 0 || n > 0)
    else Reported(w, x, o') == Reported(w, x, o) + n
  }

  lemma {:induction false} SeqFilesWork(env: Env, w: What, x: string, files: seq<string>, acc: Outcome)
    requires EntriesTrue(env, acc)
    ensures Did(w, x, acc, SeqFiles(env, files, acc), FilesWork(env, w, x, files))
    ensures EntriesTrue(env, SeqFiles(env, files, acc))
    decreases |files|
  {
    if files != [] {
      SeqFilesWork(env, w, x, files[1..], SeqStat(env, files[0], acc));
      assert Did(w, x, acc, SeqStat(env, files[0], acc), FileWork(env, w, x, files[0]));
    }
  }

  lemma {:induction false} SeqWalkWork(env: Env, w: What, x: string, t: Tree, acc: Outcome)
    requires EntriesTrue(env, acc)
    ensures Did(w, x, acc, SeqWalk(env, t, acc), TreeWork(env, w, x, t))
    ensures EntriesTrue(env, SeqWalk(env, t, acc))
    decreases t, 1
  {
    var acc' := acc.(dirs := acc.dirs + 1);
    if t.Folder? {
      var files := Filter(t.files, env.passes);
      SeqFilesWork(env, w, x, files, acc');
      SeqForestWork(env, w, x, t.subs, SeqFiles(env, files, acc'));
    }
  }

  lemma {:induction false} SeqForestWork(env: Env, w: What, x: string, ts: seq<Tree>, acc: Outcome)
    requires EntriesTrue(env, acc)
    ensures Did(w, x, acc, SeqForest(env, ts, acc), ForestWork(env, w, x, ts))
    ensures EntriesTrue(env, SeqForest(env, ts, acc))
    decreases ts, 0
  {
    if ts != [] {
      SeqWalkWork(env, w, x, ts[0], acc);
      SeqForestWork(env, w, x, ts[1..], SeqWalk(env, ts[0], acc));
    }
  }

  // ----- every schedule ends -----

  ghost function Below(env: Env, t: Tree): nat
    decreases t, 1
  {
    match t
    case Unlistable(_) => 0
    case Folder(_, files, subs) => |Filter(files, env.passes)| + BelowAll(env, subs)
  }

  /** Calls made for a forest: one per folder, one per passing file. */
  ghost function BelowAll(env: Env, ts: seq<Tree>): nat
    decreases ts, 0
  {
    if ts == [] then 0 else 1 + Below(env, ts[0]) + BelowAll(env, ts[1..])
  }

  /** Steps this task and its descendants can still take. */
  ghost function StepsLeft(env: Env, t: Task): nat {
    var kids := if t.job.ListJob? then 3 * Below(env, t.job.t) else 0;
    match t.phase
    case Waiting => 3 + kids
    case Granted => 3 + kids
    case InFlight => 2 + kids
    case Returned => 1 + kids
    case Finished => 0
  }

  ghost function SumLeft(env: Env, tasks: seq<Task>): nat
    decreases |tasks|
  {
    if tasks == [] then 0 else SumLeft(env, tasks[..|tasks| - 1]) + StepsLeft(env, tasks[|tasks| - 1])
  }

  lemma {:induction false} SumLeftUpdate(env: Env, tasks: seq<Task>, i: nat, t: Task)
    requires i < |tasks|
    ensures SumLeft(env, tasks[i := t]) + StepsLeft(env, tasks[i]) == SumLeft(env, tasks) + StepsLeft(env, t)
    decreases |tasks|
  {
    var n := |tasks| - 1;
    var u := tasks[i := t];
    if i == n {
      assert u[..n] == tasks[..n];
    } else {
      assert u[..n] == tasks[..n][i := t];
      SumLeftUpdate(env, tasks[..n], i, t);
    }
  }

  ghost function JobSteps(env: Env, jobs: seq<Job>): nat
    decreases |jobs|
  {
    if jobs == [] then 0
    else 3 + (if jobs[0].ListJob? then 3 * Below(env, jobs[0].t) else 0) + JobSteps(env, jobs[1..])
  }

  lemma {:induction false} SpawnAllLeft(env: Env, s: State, jobs: seq<Job>)
    ensures SumLeft(env, SpawnAll(s, jobs).tasks) <= SumLeft(env, s.tasks) + JobSteps(env, jobs)
    decreases |jobs|
  {
    if jobs != [] {
      var s' := Spawn(s, jobs[0]);
      assert s'.tasks[..|s.tasks|] == s.tasks;
      SpawnAllLeft(env, s', jobs[1..]);
    }
  }

  lemma {:induction false} JobStepsCat(env: Env, a: seq<Job>, b: seq<Job>)
    ensures JobSteps(env, a + b) == JobSteps(env, a) + JobSteps(env, b)
    decreases |a|
  {
    if a == [] { assert a + b == b; } else {
      assert (a + b)[0] == a[0] && (a + b)[1..] == a[1..] + b;
      JobStepsCat(env, a[1..], b);
    }
  }

  lemma {:induction false} StatJobSteps(env: Env, files: seq<string>)
    ensures JobSteps(env, StatJobs(files)) == 3 * |files|
    decreases |files|
  {
    if files != [] {
      StatJobSteps(env, files[1..]);
      assert StatJobs(files)[1..] == StatJobs(files[1..]);
    }
  }

  lemma {:induction false} ListJobSteps(env: Env, ts: seq<Tree>)
    ensures JobSteps(env, ListJobs(ts)) == 3 * BelowAll(env, ts)
    decreases |ts|
  {
    if ts != [] {
      ListJobSteps(env, ts[1..]);
      assert ListJobs(ts)[1..] == ListJobs(ts[1..]);
    }
  }

  lemma ChildrenSteps(env: Env, t: Tree)
    ensures JobSteps(env, Children(env, t)) == 3 * Below(env, t)
  {
    if t.Folder? {
      JobStepsCat(env, StatJobs(Filter(t.files, env.passes)), ListJobs(t.subs));
      StatJobSteps(env, Filter(t.files, env.passes));
      ListJobSteps(env, t.subs);
    }
  }

  lemma SettleUsesUp(env: Env, s: State, limit: int, id: nat)
    requires Inv(s, limit) && Enabled(s, Settle(id))
    ensures SumLeft(env, Next(env, s, Settle(id)).tasks) < SumLeft(env, s.tasks)
  {
    hide SumLeft, Holding;
    var tasks := SetPhase(s.tasks, id, Returned);
    SumLeftUpdate(env, s.tasks, id, tasks[id]);
    if s.sem.queue != [] {
      var h := s.sem.queue[0];
      SumLeftUpdate(env, tasks, h, tasks[h].(phase := Granted));
    }
  }

  /** Every scheduler step uses up some of the steps left. */
  lemma StepUsesUp(env: Env, s: State, limit: int, step: Step)
    requires Inv(s, limit) && Enabled(s, step)
    ensures SumLeft(env, Next(env, s, step).tasks) < SumLeft(env, s.tasks)
  {
    hide SumLeft, Inv, Below;
    match step
    case Resume(id) =>
      SumLeftUpdate(env, s.tasks, id, s.tasks[id].(phase := InFlight));
    case Settle(id) =>
      SettleUsesUp(env, s, limit, id);
    case Continue(id) =>
      var job := s.tasks[id].job;
      SumLeftUpdate(env, s.tasks, id, s.tasks[id].(phase := Finished));
      SpawnAllLeft(env, Concluded(env, s, id), if job.ListJob? then Children(env, job.t) else []);
      if job.ListJob? { ChildrenSteps(env, job.t); }
  }

  /** While a task is unfinished some step can be taken: no schedule gets stuck. */
  lemma NeverStuck(s: State, limit: int, i: nat)
    requires Inv(s, limit) && i < |s.tasks| && s.tasks[i].phase != Finished
    ensures exists step :: Enabled(s, step)
  {
    match s.tasks[i].phase
    case Granted => assert Enabled(s, Resume(i));
    case InFlight => assert Enabled(s, Settle(i));
    case Returned => assert Enabled(s, Continue(i));
    case Waiting =>
      assert i in s.sem.queue;
      var j := SomeoneHolds(s.tasks);
      assert Enabled(s, Resume(j)) || Enabled(s, Settle(j));
  }

  // ----- whole runs -----

  ghost predicate Accounted(env: Env, w: What, x: string, s: State, root: Tree) {
    Total(env, w, x, s) == TreeWork(env, w, x, root)
  }

  lemma InitGood(env: Env, w: What, x: string, limit: int, root: Tree)
    ensures Inv(Init(limit, root), limit) && EntriesOk(env, Init(limit, root))
    ensures Accounted(env, w, x, Init(limit, root), root)
    ensures SumLeft(env, Init(limit, root).tasks) < 3 * (1 + Below(env, root))
  {
    var s0 := State(Sem(Slots(limit), []), [], Nothing(), [], [], multiset{});
    InitInv(limit, root);
    InitLeft(env, limit, root);
    SpawnAddsWork(env, w, x, s0, ListJob(root));
    assert Total(env, w, x, s0) == 0;
  }

  lemma InitLeft(env: Env, limit: int, root: Tree)
    ensures SumLeft(env, Init(limit, root).tasks) < 3 * (1 + Below(env, root))
  {
    var tasks := Init(limit, root).tasks;
    assert tasks == [Task(ListJob(root), InFlight)];
    assert tasks[..0] == [];
    hide Below;
  }

  lemma {:induction false} RunsGood(env: Env, w: What, x: string, s: State, steps: seq<Step>, s': State, limit: int, root: Tree)
    requires Inv(s, limit) && EntriesOk(env, s) && Accounted(env, w, x, s, root)
    requires Runs(env, s, steps, s')
    ensures Inv(s', limit) && EntriesOk(env, s') && Accounted(env, w, x, s', root)
    ensures |steps| + SumLeft(env, s'.tasks) <= SumLeft(env, s.tasks)
    decreases |steps|
  {
    hide Inv, EntriesOk, Total, TreeWork, Next, Enabled, SumLeft;
    if steps != [] {
      StepKeepsInv(env, s, limit, steps[0]);
      StepConserves(env, w, x, s, limit, steps[0]);
      StepEntries(env, s, limit, steps[0]);
      StepUsesUp(env, s, limit, steps[0]);
      RunsGood(env, w, x, Next(env, s, steps[0]), steps[1..], s', limit, root);
    }
  }

  /** The tasks in a phase, by position. */
  ghost function In(tasks: seq<Task>, phase: Phase): set<nat> {
    set i | 0 <= i < |tasks| && tasks[i].phase == phase
  }

  lemma {:induction false} CountIn(tasks: seq<Task>)
    ensures Running(tasks) == |In(tasks, InFlight)|
    ensures Holding(tasks) == |In(tasks, Granted)| + |In(tasks, InFlight)|
    decreases |tasks|
  {
    if tasks != [] {
      CountIn(tasks[..|tasks| - 1]);
      InSnoc(tasks, InFlight);
      InSnoc(tasks, Granted);
    }
  }

  lemma InSnoc(tasks: seq<Task>, phase: Phase)
    requires tasks != []
    ensures var n := |tasks| - 1;
            |In(tasks, phase)| == |In(tasks[..n], phase)| + if tasks[n].phase == phase then 1 else 0
  {
    var n := |tasks| - 1;
    if tasks[n].phase == phase {
      assert In(tasks, phase) == In(tasks[..n], phase) + {n};
    } else {
      assert In(tasks, phase) == In(tasks[..n], phase);
    }
  }

  /** Under every schedule: at most `limit` calls in flight (one, for a limit below one), no
      slot lost, none free while someone waits, slots handed over first come first served,
      and fewer than three steps per call, the calls being one per folder reached and one per
      passing listing. */
  lemma WalkIsBounded(env: Env, limit: int, root: Tree, steps: seq<Step>, s: State)
    requires Runs(env, Init(limit, root), steps, s)
    ensures |In(s.tasks, InFlight)| <= if limit > 1 then limit else 1
    ensures s.sem.avail + |In(s.tasks, Granted)| + |In(s.tasks, InFlight)| == if limit > 1 then limit else 1
    ensures s.sem.queue != [] ==> s.sem.avail == 0
    ensures s.waited == s.handed + s.sem.queue
    ensures |steps| < 3 * (|Folders(root)| + Passing(env.passes, Listings(root)))
  {
    hide Next, Enabled, EntriesOk, In;
    InitGood(env, Dirs, "", limit, root);
    hide Init;
    RunsGood(env, Dirs, "", Init(limit, root), steps, s, limit, root);
    RunningAtMostHolding(s.tasks);
    CountIn(s.tasks);
    CallsBelow(env, root);
  }

  lemma {:induction false} AllFinished(env: Env, w: What, x: string, tasks: seq<Task>)
    requires forall i :: 0 <= i < |tasks| ==> tasks[i].phase == Finished
    ensures SumOwed(env, w, x, tasks) == 0 && Holding(tasks) == 0
    decreases |tasks|
  {
    if tasks != [] { AllFinished(env, w, x, tasks[..|tasks| - 1]); }
  }

  lemma StuckIsFinished(s: State, limit: int)
    requires Inv(s, limit) && forall step :: !Enabled(s, step)
    ensures forall i :: 0 <= i < |s.tasks| ==> s.tasks[i].phase == Finished
    ensures s.sem.queue == []
  {
    forall i | 0 <= i < |s.tasks| ensures s.tasks[i].phase == Finished {
      if s.tasks[i].phase != Finished { NeverStuck(s, limit, i); }
    }
    QueueIsOfWaiting(s, limit);
  }

  lemma QueueIsOfWaiting(s: State, limit: int)
    requires Inv(s, limit)
    ensures s.sem.queue != [] ==> s.sem.queue[0] < |s.tasks| && s.tasks[s.sem.queue[0]].phase == Waiting
  {
  }

  /** At the end every count is the sequential walk's. */
  lemma WorkAtTheEnd(env: Env, w: What, x: string, limit: int, root: Tree, steps: seq<Step>, s: State)
    requires Runs(env, Init(limit, root), steps, s)
    requires forall step :: !Enabled(s, step)
    ensures Reported(w, x, s.out) == Reported(w, x, SeqWalk(env, root, Nothing()))
    ensures EntriesTrue(env, s.out) && EntriesTrue(env, SeqWalk(env, root, Nothing()))
    ensures s.sem == Sem(Slots(limit), []) && s.waited == s.handed
  {
    InitGood(env, w, x, limit, root);
    hide Runs, Init, SumLeft, Below, Enabled;
    RunsGood(env, w, x, Init(limit, root), steps, s, limit, root);
    StuckIsFinished(s, limit);
    AllFinished(env, w, x, s.tasks);
    SeqWalkWork(env, w, x, root, Nothing());
    hide SeqWalk, BelowWork, SumOwed;
  }

  lemma SameReportsSameOutcome(env: Env, a: Outcome, b: Outcome)
    requires EntriesTrue(env, a) && EntriesTrue(env, b)
    requires forall w, x :: Reported(w, x, a) == Reported(w, x, b)
    ensures a == b
  {
    assert Reported(Dirs, "", a) == Reported(Dirs, "", b) && Reported(Files, "", a) == Reported(Files, "", b);
    forall x: string ensures a.errors[x] == b.errors[x] && (x in a.entries <==> x in b.entries) {
      assert Reported(Errors, x, a) == Reported(Errors, x, b) && Reported(Entries, x, a) == Reported(Entries, x, b);
    }
    assert a.errors == b.errors;
    assert a.entries.Keys == b.entries.Keys;
    assert forall f :: f in a.entries ==> a.entries[f] == b.entries[f];
    assert a.entries == b.entries;
  }

  /** Under every schedule: when nothing more can happen the entries, the counts and the
      reported errors are those of the sequential walk, and all slots are back. */
  lemma WalkIsSequential(env: Env, limit: int, root: Tree, steps: seq<Step>, s: State)
    requires Runs(env, Init(limit, root), steps, s)
    requires forall step :: !Enabled(s, step)
    ensures s.out == SeqWalk(env, root, Nothing())
    ensures s.sem == Sem(if limit > 1 then limit else 1, []) && s.waited == s.handed
  {
    hide Runs, Init, SeqWalk, EntriesTrue, Reported;
    forall w, x ensures Reported(w, x, s.out) == Reported(w, x, SeqWalk(env, root, Nothing())) {
      WorkAtTheEnd(env, w, x, limit, root, steps, s);
    }
    WorkAtTheEnd(env, Dirs, "", limit, root, steps, s);
    SameReportsSameOutcome(env, s.out, SeqWalk(env, root, Nothing()));
  }

  // ----- the outcome, read off the tree -----

  /** Every folder reached, listable or not. */
  ghost function Folders(t: Tree): seq<string>
    decreases t, 1
  {
    [t.dir] + if t.Folder? then FoldersOf(t.subs) else []
  }

  ghost function FoldersOf(ts: seq<Tree>): seq<string>
    decreases ts, 0
  {
    if ts == [] then [] else Folders(ts[0]) + FoldersOf(ts[1..])
  }

  /** Every file as listed, whether or not it passes. */
  ghost function Listings(t: Tree): seq<string>
    decreases t, 1
  {
    if t.Folder? then t.files + ListingsOf(t.subs) else []
  }

  ghost function ListingsOf(ts: seq<Tree>): seq<string>
    decreases ts, 0
  {
    if ts == [] then [] else Listings(ts[0]) + ListingsOf(ts[1..])
  }

  ghost function UnlistableIn(t: Tree): seq<string>
    decreases t, 1
  {
    if t.Folder? then UnlistableOf(t.subs) else [t.dir]
  }

  ghost function UnlistableOf(ts: seq<Tree>): seq<string>
    decreases ts, 0
  {
    if ts == [] then [] else UnlistableIn(ts[0]) + UnlistableOf(ts[1..])
  }

  /** How many of the files pass. */
  ghost function Passing(passes: string -> bool, files: seq<string>): nat
    decreases |files|
  {
    if files == [] then 0
    else Passing(passes, files[..|files| - 1]) + if passes(files[|files| - 1]) then 1 else 0
  }

  lemma {:induction false} PassingCat(passes: string -> bool, a: seq<string>, b: seq<string>)
    ensures Passing(passes, a + b) == Passing(passes, a) + Passing(passes, b)
    decreases |b|
  {
    if b == [] {
      assert a + b == a;
    } else {
      PassingCat(passes, a, b[..|b| - 1]);
      assert (a + b)[..|a + b| - 1] == a + b[..|b| - 1];
    }
  }

  lemma {:induction false} FilterPasses(passes: string -> bool, files: seq<string>)
    ensures forall f :: f in Filter(files, passes) <==> f in files && passes(f)
    ensures |Filter(files, passes)| == Passing(passes, files)
    decreases |files|
  {
    if files != [] {
      FilterPasses(passes, files[1..]);
      assert files == [files[0]] + files[1..];
      PassingCat(passes, [files[0]], files[1..]);
      assert [files[0]][..0] == [];
      assert Passing(passes, [files[0]]) == if passes(files[0]) then 1 else 0;
    }
  }

  lemma {:induction false} CallsBelow(env: Env, t: Tree)
    ensures 1 + Below(env, t) == |Folders(t)| + Passing(env.passes, Listings(t))
    decreases t, 1
  {
    if t.Folder? {
      CallsBelowAll(env, t.subs);
      FilterPasses(env.passes, t.files);
      PassingCat(env.passes, t.files, ListingsOf(t.subs));
    }
  }

  lemma {:induction false} CallsBelowAll(env: Env, ts: seq<Tree>)
    ensures BelowAll(env, ts) == |FoldersOf(ts)| + Passing(env.passes, ListingsOf(ts))
    decreases ts, 0
  {
    if ts != [] {
      CallsBelow(env, ts[0]);
      CallsBelowAll(env, ts[1..]);
      PassingCat(env.passes, Listings(ts[0]), ListingsOf(ts[1..]));
    }
  }

  /** What the outcome `o'` adds to `o`: these folders, listings and unlistable folders. */
  ghost predicate Adds(env: Env, o: Outcome, o': Outcome, folders: seq<string>, listings: seq<string>, unlistable: seq<string>) {
    && o'.dirs == o.dirs + |folders|
    && o'.files == o.files + Passing(env.passes, listings)
    && o'.errors == o.errors + multiset(unlistable)
    && forall f :: f in o'.entries <==> f in o.entries || (f in listings && env.passes(f) && !env.stat(f).Throws?)
  }

  lemma AddsNothing(env: Env, o: Outcome)
    ensures Adds(env, o, o, [], [], [])
  {
  }

  lemma AddsBoth(env: Env, o: Outcome, o': Outcome, o'': Outcome, d: seq<string>, l: seq<string>, u: seq<string>, d': seq<string>, l': seq<string>, u': seq<string>)
    requires Adds(env, o, o', d, l, u) && Adds(env, o', o'', d', l', u')
    ensures Adds(env, o, o'', d + d', l + l', u + u')
  {
    PassingCat(env.passes, l, l');
    assert multiset(u + u') == multiset(u) + multiset(u');
  }

  lemma {:induction false} SeqFilesAdds(env: Env, files: seq<string>, acc: Outcome)
    ensures var o := SeqFiles(env, files, acc);
            && o.dirs == acc.dirs && o.errors == acc.errors && o.files == acc.files + |files|
            && forall f :: f in o.entries <==> f in acc.entries || (f in files && !env.stat(f).Throws?)
    decreases |files|
  {
    if files != [] { SeqFilesAdds(env, files[1..], SeqStat(env, files[0], acc)); }
  }

  lemma {:induction false} SeqWalkAdds(env: Env, t: Tree, acc: Outcome)
    ensures Adds(env, acc, SeqWalk(env, t, acc), Folders(t), Listings(t), UnlistableIn(t))
    decreases t, 1
  {
    var o1 := acc.(dirs := acc.dirs + 1);
    match t
    case Unlistable(d) =>
    case Folder(d, files, subs) =>
      var o2 := SeqFiles(env, Filter(files, env.passes), o1);
      SeqFilesAdds(env, Filter(files, env.passes), o1);
      FilterPasses(env.passes, files);
      SeqForestAdds(env, subs, o2);
      hide SeqFiles, Filter;
      assert Adds(env, acc, o2, [d], files, []);
      hide Adds;
      AddsBoth(env, acc, o2, SeqForest(env, subs, o2), [d], files, [], FoldersOf(subs), ListingsOf(subs), UnlistableOf(subs));
      assert [] + UnlistableOf(subs) == UnlistableOf(subs);
  }

  lemma {:induction false} SeqForestAdds(env: Env, ts: seq<Tree>, acc: Outcome)
    ensures Adds(env, acc, SeqForest(env, ts, acc), FoldersOf(ts), ListingsOf(ts), UnlistableOf(ts))
    decreases ts, 0
  {
    if ts == [] {
      AddsNothing(env, acc);
    } else {
      SeqWalkAdds(env, ts[0], acc);
      var o := SeqWalk(env, ts[0], acc);
      SeqForestAdds(env, ts[1..], o);
      hide Adds;
      AddsBoth(env, acc, o, SeqForest(env, ts[1..], o), Folders(ts[0]), Listings(ts[0]), UnlistableIn(ts[0]),
               FoldersOf(ts[1..]), ListingsOf(ts[1..]), UnlistableOf(ts[1..]));
    }
  }

  /** Under every schedule, when nothing more can happen: a file has an entry if and only if it is
      listed in some listable folder of the tree, passes, and its stat does not throw; the counts
      are those of the folders reached and of the passing listings; each unlistable folder is
      reported as often as it occurs. */
  lemma OutcomeOfTree(env: Env, limit: int, root: Tree, steps: seq<Step>, s: State, f: string)
    requires Runs(env, Init(limit, root), steps, s)
    requires forall step :: !Enabled(s, step)
    ensures f in s.out.entries <==> f in Listings(root) && env.passes(f) && !env.stat(f).Throws?
    ensures s.out.dirs == |Folders(root)|
    ensures s.out.files == Passing(env.passes, Listings(root))
    ensures s.out.errors == multiset(UnlistableIn(root))
  {
    hide Runs, Init, SeqWalk;
    WalkIsSequential(env, limit, root, steps, s);
    SeqWalkAdds(env, root, Nothing());
  }

  /** And each entry holds what the file's stat gave, absent times and sizes read as zero. */
  lemma EntryOfStat(env: Env, limit: int, root: Tree, steps: seq<Step>, s: State, f: string)
    requires Runs(env, Init(limit, root), steps, s)
    requires forall step :: !Enabled(s, step)
    requires f in s.out.entries
    ensures env.stat(f) == Null ==> s.out.entries[f] == Entry(0, 0, None)
    ensures forall m, z, c :: env.stat(f) == Got(Raw(m, z, c)) ==>
              s.out.entries[f] == Entry(if m.Some? then m.value else 0, if z.Some? then z.value else 0, c)
  {
    hide Runs, Init, Reported, SeqWalk;
    WorkAtTheEnd(env, Dirs, "", limit, root, steps, s);
  }
}
