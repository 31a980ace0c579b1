/**
 The asynchronous configuration cache under any interleaving of reloads, single-row updates
 and writes to the backing store.

 Tasks queue for the update lock. A reload reads the store and publishes in two separate
 steps under the lock, and may be cancelled or fail between them; the store changes at any
 time. Positions in the log serve as time.
 */
module ConfigReload {
  import opened Wrappers
  import opened RuntimeConfig

  datatype Op = Reload | ApplyRow(row: Record) | RemoveKey(key: string)

  datatype Phase =
    | Waiting(op: Op)
    | Holding(op: Op)
    | Loaded(rows: seq<Record>, at: nat)   // `at`: where the log records the read

  datatype State = State(store: seq<Record>, snapshot: Snapshot, holder: Option<nat>, tasks: map<nat, Phase>)

  datatype Event =
    | Stored(rows: seq<Record>)
    | Read(task: nat)
    | Reloaded(task: nat, rows: seq<Record>)
    | Updated(op: Op)

  datatype Step =
    | Call(task: nat, op: Op)
    | Lock(task: nat)
    | Load(task: nat)
    | Publish(task: nat)
    | Leave(task: nat)          // a failed load or a dropped future gives the lock back
    | Store(rows: seq<Record>)

  datatype Run = Run(state: State, log: seq<Event>)

  predicate Enabled(s: State, step: Step) {
    match step
    case Call(task, _) => task !in s.tasks
    case Lock(task) => task in s.tasks && s.tasks[task].Waiting? && s.holder.None?
    case Load(task) => task in s.tasks && s.tasks[task] == Holding(Reload)
    case Publish(task) =>
      task in s.tasks && (s.tasks[task].Loaded? || (s.tasks[task].Holding? && !s.tasks[task].op.Reload?))
    case Leave(task) => task in s.tasks
    case Store(_) => true
  }

  function Mutated(m: Snapshot, op: Op): Snapshot
    requires !op.Reload?
  {
    if op.ApplyRow? then Applied(m, op.row) else m - {op.key}
  }

  function Without(s: State, task: nat): State {
    s.(tasks := s.tasks - {task}, holder := if s.holder == Some(task) then None else s.holder)
  }

  function AfterPublish(r: Run, task: nat): Run
    requires Enabled(r.state, Publish(task))
  {
    var s := r.state;
    var phase := s.tasks[task];
    if phase.Loaded? then
      Run(Without(s, task).(snapshot := Replaced(s.snapshot, phase.rows)), r.log + [Reloaded(task, phase.rows)])
    else
      Run(Without(s, task).(snapshot := Mutated(s.snapshot, phase.op)), r.log + [Updated(phase.op)])
  }

  function Next(r: Run, step: Step): Run {
    var s := r.state;
    if !Enabled(s, step) then r
    else
      match step
      case Call(task, op) => Run(s.(tasks := s.tasks[task := Waiting(op)]), r.log)
      case Lock(task) => Run(s.(tasks := s.tasks[task := Holding(s.tasks[task].op)], holder := Some(task)), r.log)
      case Load(task) => Run(s.(tasks := s.tasks[task := Loaded(s.store, |r.log|)]), r.log + [Read(task)])
      case Publish(task) => AfterPublish(r, task)
      case Leave(task) => Run(Without(s, task), r.log)
      case Store(rows) => Run(s.(store := rows), r.log + [Stored(rows)])
  }

  function Exec(r: Run, steps: seq<Step>): Run
    decreases |steps|
  {
    if steps == [] then r else Exec(Next(r, steps[0]), steps[1..])
  }

  function FromStart(rows: seq<Record>, steps: seq<Step>): Run { Exec(Run(State(rows, map[], None, map[]), []), steps) }

  // --- What a log means ---

  predicate Publication(e: Event) { e.Reloaded? || e.Updated? }

  // What the store held when the log was this long
  function StoreAfter(initial: seq<Record>, log: seq<Event>): seq<Record> {
    if log == [] then initial
    else if log[|log| - 1].Stored? then log[|log| - 1].rows
    else StoreAfter(initial, log[..|log| - 1])
  }

  // The snapshot, had the publications happened one after the other with nothing in between
  function SnapshotAfter(log: seq<Event>): Snapshot {
    if log == [] then map[]
    else
      var before := SnapshotAfter(log[..|log| - 1]);
      var e := log[|log| - 1];
      if e.Reloaded? then Replaced(before, e.rows)
      else if e.Updated? && !e.op.Reload? then Mutated(before, e.op)
      else before
  }

  // The task read these rows at `i`, and nothing has been read or published since.
  predicate ReadSince(initial: seq<Record>, log: seq<Event>, i: nat, task: nat, rows: seq<Record>) {
    && i < |log| && log[i] == Read(task) && rows == StoreAfter(initial, log[..i])
    && forall k :: i < k < |log| ==> !Publication(log[k]) && !log[k].Read?
  }

  ghost predicate FreshAt(initial: seq<Record>, log: seq<Event>, j: nat)
    requires j < |log|
  {
    log[j].Reloaded? ==> exists i :: ReadSince(initial, log[..j], i, log[j].task, log[j].rows)
  }

  // --- The invariant ---

  ghost predicate Exclusive(s: State) {
    forall task :: task in s.tasks && !s.tasks[task].Waiting? ==> s.holder == Some(task)
  }

  ghost predicate LoadsAreFresh(initial: seq<Record>, r: Run) {
    forall task :: task in r.state.tasks && r.state.tasks[task].Loaded? ==>
      ReadSince(initial, r.log, r.state.tasks[task].at, task, r.state.tasks[task].rows)
  }

  ghost predicate PublicationsAreFresh(initial: seq<Record>, log: seq<Event>) {
    forall j :: 0 <= j < |log| ==> FreshAt(initial, log, j)
  }

  ghost predicate Inv(initial: seq<Record>, r: Run) {
    && Exclusive(r.state)
    && r.state.store == StoreAfter(initial, r.log)
    && r.state.snapshot == SnapshotAfter(r.log)
    && LoadsAreFresh(initial, r)
    && PublicationsAreFresh(initial, r.log)
  }

  lemma StoreFollowsLog(initial: seq<Record>, r: Run, step: Step)
    requires r.state.store == StoreAfter(initial, r.log)
    ensures Next(r, step).state.store == StoreAfter(initial, Next(r, step).log)
  {
    var after := Next(r, step).log;
    if after != r.log {
      assert after == r.log + [after[|r.log|]];
      assert after[..|after| - 1] == r.log;
    }
  }

  lemma SnapshotFollowsLog(r: Run, step: Step)
    requires r.state.snapshot == SnapshotAfter(r.log)
    ensures Next(r, step).state.snapshot == SnapshotAfter(Next(r, step).log)
  {
    var next := Next(r, step);
    if step.Publish? && Enabled(r.state, step) {
      PublicationFollowsLog(r, step.task);
    } else if next.log != r.log {
      var e := next.log[|r.log|];
      SnapshotAppended(r.log, e);
      assert next.log == r.log + [e] && !Publication(e);
    }
  }

  lemma PublicationFollowsLog(r: Run, task: nat)
    requires Enabled(r.state, Publish(task)) && r.state.snapshot == SnapshotAfter(r.log)
    ensures AfterPublish(r, task).state.snapshot == SnapshotAfter(AfterPublish(r, task).log)
  {
    var phase := r.state.tasks[task];
    SnapshotAppended(r.log, if phase.Loaded? then Reloaded(task, phase.rows) else Updated(phase.op));
  }

  lemma SnapshotAppended(log: seq<Event>, e: Event)
    ensures SnapshotAfter(log + [e]) ==
      if e.Reloaded? then Replaced(SnapshotAfter(log), e.rows)
      else if e.Updated? && !e.op.Reload? then Mutated(SnapshotAfter(log), e.op)
      else SnapshotAfter(log)
  {
    assert (log + [e])[..|log|] == log;
  }

  lemma LoadsStayFresh(initial: seq<Record>, r: Run, step: Step)
    requires Exclusive(r.state) && LoadsAreFresh(initial, r) && r.state.store == StoreAfter(initial, r.log)
    ensures LoadsAreFresh(initial, Next(r, step))
  {
    var next := Next(r, step);
    forall task | task in next.state.tasks && next.state.tasks[task].Loaded?
      ensures ReadSince(initial, next.log, next.state.tasks[task].at, task, next.state.tasks[task].rows)
    {
      var at := next.state.tasks[task].at;
      if step == Load(task) && Enabled(r.state, step) {
        assert next.log[..at] == r.log;
      } else {
        assert ReadSince(initial, r.log, at, task, next.state.tasks[task].rows);
        assert next.log[..at] == r.log[..at];
      }
    }
  }

  lemma PublicationsStayFresh(initial: seq<Record>, r: Run, step: Step)
    requires LoadsAreFresh(initial, r) && PublicationsAreFresh(initial, r.log)
    ensures PublicationsAreFresh(initial, Next(r, step).log)
  {
    var next := Next(r, step);
    forall j | 0 <= j < |next.log| ensures FreshAt(initial, next.log, j) {
      if j < |r.log| {
        assert FreshAt(initial, r.log, j);
        assert next.log[..j] == r.log[..j];
      } else if next.log[j].Reloaded? {
        assert next.log[..j] == r.log;
        assert ReadSince(initial, r.log, r.state.tasks[step.task].at, step.task, next.log[j].rows);
      }
    }
  }

  lemma {:induction false} RunKeepsInv(initial: seq<Record>, r: Run, steps: seq<Step>)
    requires Inv(initial, r)
    ensures Inv(initial, Exec(r, steps))
    decreases |steps|
  {
    if steps != [] {
      StoreFollowsLog(initial, r, steps[0]);
      SnapshotFollowsLog(r, steps[0]);
      LoadsStayFresh(initial, r, steps[0]);
      PublicationsStayFresh(initial, r, steps[0]);
      RunKeepsInv(initial, Next(r, steps[0]), steps[1..]);
    }
  }

  lemma Reachable(initial: seq<Record>, steps: seq<Step>)
    ensures Inv(initial, FromStart(initial, steps))
  {
    RunKeepsInv(initial, Run(State(initial, map[], None, map[]), []), steps);
  }

  // --- Tasks that run alone ---

  // With the lock free a reload publishes what the store holds, an update its one row, and both
  // give the lock back; so does a task that leaves.
  lemma {:induction false} TasksAlone(r: Run, task: nat, op: Op)
    requires task !in r.state.tasks && r.state.holder.None?
    ensures
      var started := Next(Next(r, Call(task, op)), Lock(task));
      var done := Next(if op.Reload? then Next(started, Load(task)) else started, Publish(task)).state;
      && started.state.holder == Some(task) && done.holder.None? && done.tasks == r.state.tasks
      && done.store == r.state.store
      && done.snapshot ==
           (if op.Reload? then Replaced(r.state.snapshot, r.state.store)
            else if op.RemoveKey? then r.state.snapshot - {op.key}
            else if op.row.requiresRestart && op.row.key in r.state.snapshot then r.state.snapshot
            else r.state.snapshot[op.row.key := op.row])
      && Next(started, Leave(task)).state == r.state
  {
    var started := Next(Next(r, Call(task, op)), Lock(task));
    assert started.state.tasks == r.state.tasks[task := Holding(op)];
    assert started.state.tasks - {task} == r.state.tasks;
    if op.Reload? {
      var loaded := Next(started, Load(task));
      assert loaded.state.tasks - {task} == r.state.tasks;
    }
  }

  // --- Main results ---

  // Whatever the interleaving, the snapshot is the one the publications give one after the
  // other, and each reload published rows it read from the store after every earlier publication.
  lemma ReloadsAreSerial(initial: seq<Record>, steps: seq<Step>)
    ensures var r := FromStart(initial, steps);
      && r.state.snapshot == SnapshotAfter(r.log)
      && forall j :: 0 <= j < |r.log| && r.log[j].Reloaded? ==>
           exists i :: ReadSince(initial, r.log[..j], i, r.log[j].task, r.log[j].rows)
  {
    Reachable(initial, steps);
    var r := FromStart(initial, steps);
    forall j | 0 <= j < |r.log| && r.log[j].Reloaded?
      ensures exists i :: ReadSince(initial, r.log[..j], i, r.log[j].task, r.log[j].rows)
    {
      assert FreshAt(initial, r.log, j);
    }
  }

  // A slow load never overwrites a newer one: of two reloads, the later to publish read the
  // store after the earlier had published.
  lemma {:induction false} LaterReloadReadLater(initial: seq<Record>, steps: seq<Step>, j: nat, k: nat)
    requires var log := FromStart(initial, steps).log; j < k < |log| && Publication(log[j]) && log[k].Reloaded?
    ensures var log := FromStart(initial, steps).log;
      exists i :: j < i < k && log[i] == Read(log[k].task) && log[k].rows == StoreAfter(initial, log[..i])
  {
    Reachable(initial, steps);
    var log := FromStart(initial, steps).log;
    assert FreshAt(initial, log, k);
    var i: nat :| ReadSince(initial, log[..k], i, log[k].task, log[k].rows);
    assert log[..k][..i] == log[..i] && log[..k][i] == log[i];
    assert log[..k][j] == log[j];
  }

  // Once the store is quiet, a reload that read it afterwards leaves its rows in the snapshot,
  // whatever the other tasks were doing meanwhile.
  lemma {:induction false} ReloadPublishesTheStore(initial: seq<Record>, steps: seq<Step>, i: nat, j: nat)
    requires
      var log := FromStart(initial, steps).log;
      && i < j < |log| && log[i].Read? && log[j].Reloaded?
      && (forall k :: i < k < j ==> !log[k].Read?)
      && (forall k :: i <= k < |log| ==> !log[k].Stored?)
      && (forall k :: j < k < |log| ==> !Publication(log[k]))
    ensures var r := FromStart(initial, steps);
      r.state.snapshot == Replaced(SnapshotAfter(r.log[..j]), r.state.store)
  {
    Reachable(initial, steps);
    var log := FromStart(initial, steps).log;
    assert FreshAt(initial, log, j);
    var read: nat :| ReadSince(initial, log[..j], read, log[j].task, log[j].rows);
    assert log[..j][read] == log[read] && log[..j][i] == log[i];
    assert read == i && log[..j][..i] == log[..i];
    StoreIsQuiet(initial, log, i);
    SnapshotIsQuiet(log, j + 1);
    assert log[..j + 1][..j] == log[..j];
  }

  lemma {:induction false} StoreIsQuiet(initial: seq<Record>, log: seq<Event>, i: nat)
    requires i <= |log| && forall k :: i <= k < |log| ==> !log[k].Stored?
    ensures StoreAfter(initial, log) == StoreAfter(initial, log[..i])
    decreases |log|
  {
    if i == |log| {
      assert log[..i] == log;
    } else {
      StoreIsQuiet(initial, log[..|log| - 1], i);
      assert log[..|log| - 1][..i] == log[..i];
    }
  }

  lemma {:induction false} SnapshotIsQuiet(log: seq<Event>, i: nat)
    requires i <= |log| && forall k :: i <= k < |log| ==> !Publication(log[k])
    ensures SnapshotAfter(log) == SnapshotAfter(log[..i])
    decreases |log|
  {
    if i == |log| {
      assert log[..i] == log;
    } else {
      SnapshotIsQuiet(log[..|log| - 1], i);
      assert log[..|log| - 1][..i] == log[..i];
    }
  }

  lemma OneHolder(initial: seq<Record>, steps: seq<Step>, a: nat, b: nat)
    requires var tasks := FromStart(initial, steps).state.tasks;
      a in tasks && b in tasks && !tasks[a].Waiting? && !tasks[b].Waiting?
    ensures a == b
  {
    Reachable(initial, steps);
  }
}
