/**
 A Bloom filter shared by readers, writers and at most one rebuild session, which replaces
 the filter atomically while inserts keep arriving.

 The run model interleaves single lock-protected actions of any number of callers. The log
 says in terms of keys alone what the filter must answer.
 */
module Bloom {
  import opened Wrappers

  // The bit positions a key hashes to; every filter is built with its own.
  type Hash = string -> set<nat>

  datatype Filter = Filter(hash: Hash, bits: set<nat>)

  // usize::MAX
  const MAX_COUNT: nat := 0xFFFF_FFFF_FFFF_FFFF

  function Empty(hash: Hash): Filter { Filter(hash, {}) }

  function Set(f: Filter, key: string): Filter { f.(bits := f.bits + f.hash(key)) }

  predicate Check(f: Filter, key: string) { f.hash(key) <= f.bits }

  function SetAll(f: Filter, keys: seq<string>): Filter {
    if keys == [] then f else Set(SetAll(f, keys[..|keys| - 1]), keys[|keys| - 1])
  }

  // Exact up to the largest 64-bit number, and that number beyond
  function SaturatingAdd(a: nat, b: nat): (sum: nat)
    ensures sum == a + b || (sum == 0xFFFF_FFFF_FFFF_FFFF && a + b > sum)
    ensures sum <= 0xFFFF_FFFF_FFFF_FFFF
  {
    if a + b <= MAX_COUNT then a + b else MAX_COUNT
  }

  // --- The shared filter and its sessions ---

  // A session feeds its replacement, then takes it out of itself, then publishes it.
  datatype Session =
    | Feeding(replacement: Filter, loaded: nat)
    | Committing(replacement: Filter, loaded: nat)
    | Committed(count: nat)

  datatype State = State(inner: Filter, buffer: Option<seq<string>>, sessions: map<nat, Session>, next: nat)

  // `built` is None when the configuration is rejected.
  datatype Step =
    | Insert(keys: seq<string>)
    | Clear(built: Option<Hash>)
    | Start(built: Option<Hash>)
    | Feed(id: nat, key: string)
    | Take(id: nat)
    | Publish(id: nat)
    | DropSession(id: nat)

  function Initial(hash: Hash): State { State(Empty(hash), None, map[], 0) }

  function AfterInsert(s: State, keys: seq<string>): State {
    s.(inner := SetAll(s.inner, keys), buffer := Buffered(s.buffer, keys))
  }

  function Buffered(buffer: Option<seq<string>>, keys: seq<string>): Option<seq<string>> {
    if buffer.Some? then Some(buffer.value + keys) else None
  }

  function Pending(buffer: Option<seq<string>>): seq<string> { if buffer.Some? then buffer.value else [] }

  function AfterPublish(s: State, id: nat): State
    requires id in s.sessions && s.sessions[id].Committing?
  {
    var session := s.sessions[id];
    var buffered := Pending(s.buffer);
    s.(inner := SetAll(session.replacement, buffered), buffer := None,
       sessions := s.sessions[id := Committed(SaturatingAdd(session.loaded, |buffered|))])
  }

  predicate Enabled(s: State, step: Step) {
    match step
    case Insert(_) => true
    case Clear(_) => true
    case Start(_) => true
    case Feed(id, _) => id in s.sessions && s.sessions[id].Feeding?
    case Take(id) => id in s.sessions && s.sessions[id].Feeding?
    case Publish(id) => id in s.sessions && s.sessions[id].Committing?
    case DropSession(id) => id in s.sessions && !s.sessions[id].Committing?
  }

  function Apply(s: State, step: Step): State
    requires Enabled(s, step)
  {
    match step
    case Insert(keys) => AfterInsert(s, keys)
    case Clear(built) => if built.None? || s.buffer.Some? then s else s.(inner := Empty(built.value))
    case Start(built) =>
      if built.None? || s.buffer.Some? then s
      else s.(buffer := Some([]), sessions := s.sessions[s.next := Feeding(Empty(built.value), 0)], next := s.next + 1)
    case Feed(id, key) =>
      var session := s.sessions[id];
      s.(sessions := s.sessions[id := Feeding(Set(session.replacement, key), SaturatingAdd(session.loaded, 1))])
    case Take(id) =>
      s.(sessions := s.sessions[id := Committing(s.sessions[id].replacement, s.sessions[id].loaded)])
    case Publish(id) => AfterPublish(s, id)
    case DropSession(id) =>
      s.(buffer := if s.sessions[id].Feeding? then None else s.buffer, sessions := s.sessions - {id})
  }

  // --- What the filter owes its callers ---

  datatype Event =
    | Inserted(keys: seq<string>) | Cleared | Started(id: nat) | Fed(id: nat, key: string) | Published(id: nat)

  // What a step adds to the log; a rejected one adds nothing.
  function EventOf(s: State, step: Step): Option<Event> {
    match step
    case Insert(keys) => Some(Inserted(keys))
    case Clear(built) => if built.None? || s.buffer.Some? then None else Some(Cleared)
    case Start(built) => if built.None? || s.buffer.Some? then None else Some(Started(s.next))
    case Feed(id, key) => Some(Fed(id, key))
    case Take(_) => None
    case Publish(id) => Some(Published(id))
    case DropSession(_) => None
  }

  // The keys fed to a session
  function FedTo(log: seq<Event>, id: nat): seq<string> {
    if log == [] then [] else
      var e := log[|log| - 1];
      var before := FedTo(log[..|log| - 1], id);
      if e.Fed? && e.id == id then before + [e.key] else before
  }

  // The keys inserted since a session started
  function Since(log: seq<Event>, id: nat): seq<string> {
    if log == [] then [] else
      var e := log[|log| - 1];
      var before := Since(log[..|log| - 1], id);
      if e == Started(id) then [] else if e.Inserted? then before + e.keys else before
  }

  // The keys the filter holds: all that were inserted since the last clear; or, from a commit
  // on, what the session was fed and what was inserted since it started.
  function Held(log: seq<Event>): seq<string>
    decreases |log|, 0
  {
    if log == [] then [] else HeldAfter(log[..|log| - 1], log[|log| - 1])
  }

  function HeldAfter(before: seq<Event>, e: Event): seq<string>
    decreases |before|, 1
  {
    match e
    case Inserted(keys) => Held(before) + keys
    case Cleared => []
    case Started(_) => Held(before)
    case Fed(_, _) => Held(before)
    case Published(id) => FedTo(before, id) + Since(before, id)
  }

  lemma Appended(log: seq<Event>, e: Event, id: nat)
    ensures FedTo(log + [e], id) == if e.Fed? && e.id == id then FedTo(log, id) + [e.key] else FedTo(log, id)
    ensures Since(log + [e], id) ==
      if e == Started(id) then [] else if e.Inserted? then Since(log, id) + e.keys else Since(log, id)
  {
    assert (log + [e])[..|log|] == log;
  }

  lemma HeldAppended(log: seq<Event>, e: Event)
    ensures Held(log + [e]) == HeldAfter(log, e)
  {
    assert (log + [e])[..|log|] == log;
  }

  // --- Filters and the keys they hold ---

  // The bits are those of the keys, no more and no fewer.
  ghost predicate Holds(f: Filter, keys: seq<string>) {
    f == SetAll(Empty(f.hash), keys)
  }

  lemma {:induction false} SetAllTogether(f: Filter, a: seq<string>, b: seq<string>)
    ensures SetAll(f, a + b) == SetAll(SetAll(f, a), b)
    decreases |b|
  {
    if b == [] {
      assert a + b == a;
    } else {
      var n := |b| - 1;
      assert a + b == (a + b[..n]) + [b[n]];
      assert (a + b)[..|a + b| - 1] == a + b[..n];
      SetAllTogether(f, a, b[..n]);
    }
  }

  lemma SetOne(f: Filter, key: string)
    ensures SetAll(f, [key]) == Set(f, key)
  {
    assert [key][..0] == [];
  }

  lemma {:induction false} HashStays(f: Filter, keys: seq<string>)
    ensures SetAll(f, keys).hash == f.hash
    decreases |keys|
  {
    if keys != [] { HashStays(f, keys[..|keys| - 1]); }
  }

  lemma HoldsMore(f: Filter, keys: seq<string>, more: seq<string>)
    requires Holds(f, keys)
    ensures Holds(SetAll(f, more), keys + more)
  {
    SetAllTogether(Empty(f.hash), keys, more);
    HashStays(f, more);
  }

  // Every position of the key is a position of one of the keys.
  ghost predicate Covered(hash: Hash, keys: seq<string>, key: string) {
    forall p :: p in hash(key) ==> exists i :: 0 <= i < |keys| && p in hash(keys[i])
  }

  // A filter that holds the keys answers yes exactly to keys whose positions they cover.
  lemma {:induction false} HeldBits(hash: Hash, keys: seq<string>, p: nat)
    ensures p in SetAll(Empty(hash), keys).bits <==> exists i :: 0 <= i < |keys| && p in hash(keys[i])
    decreases |keys|
  {
    if keys != [] {
      var n := |keys| - 1;
      HeldBits(hash, keys[..n], p);
      HashStays(Empty(hash), keys[..n]);
      if i :| 0 <= i < |keys| && p in hash(keys[i]) {
        if i < n { assert keys[..n][i] == keys[i]; }
      }
    }
  }

  lemma CheckMeansCovered(f: Filter, keys: seq<string>, key: string)
    requires Holds(f, keys)
    ensures Check(f, key) <==> Covered(f.hash, keys, key)
    ensures key in keys ==> Check(f, key)
  {
    forall p ensures p in f.bits <==> exists i :: 0 <= i < |keys| && p in f.hash(keys[i]) {
      HeldBits(f.hash, keys, p);
    }
  }

  // --- Runs ---

  datatype Run = Run(state: State, log: seq<Event>)

  function Next(r: Run, step: Step): Run {
    if !Enabled(r.state, step) then r
    else
      var e := EventOf(r.state, step);
      Run(Apply(r.state, step), if e.Some? then r.log + [e.value] else r.log)
  }

  function Exec(r: Run, steps: seq<Step>): Run
    decreases |steps|
  {
    if steps == [] then r else Exec(Next(r, steps[0]), steps[1..])
  }

  predicate Open(s: State, id: nat) { id in s.sessions && !s.sessions[id].Committed? }

  // The buffer is active exactly while one session is uncommitted.
  ghost predicate OneSession(s: State) {
    && (forall id :: id in s.sessions ==> id < s.next)
    && (s.buffer.Some? <==> exists id :: Open(s, id))
    && (forall a, b :: Open(s, a) && Open(s, b) ==> a == b)
  }

  ghost predicate Accounted(r: Run) { Holds(r.state.inner, Held(r.log)) }

  predicate FutureIdsUnused(r: Run) {
    forall i :: 0 <= i < |r.log| && r.log[i].Fed? ==> r.log[i].id < r.state.next
  }

  // An open session holds what it was fed, counted, and the buffer what was inserted since.
  ghost predicate SessionAccounted(r: Run, id: nat)
    requires Open(r.state, id)
  {
    var session := r.state.sessions[id];
    && Holds(session.replacement, FedTo(r.log, id))
    && session.loaded == SaturatingAdd(|FedTo(r.log, id)|, 0)
    && (r.state.buffer.Some? ==> r.state.buffer.value == Since(r.log, id))
  }

  ghost predicate SessionsAccounted(r: Run) {
    forall id :: Open(r.state, id) ==> SessionAccounted(r, id)
  }

  ghost predicate Inv(r: Run) {
    OneSession(r.state) && Accounted(r) && FutureIdsUnused(r) && SessionsAccounted(r)
  }

  lemma OneSessionKept(s: State, step: Step)
    requires OneSession(s) && Enabled(s, step)
    ensures OneSession(Apply(s, step))
  {
    var after := Apply(s, step);
    var begins := step.Start? && step.built.Some? && s.buffer.None?;
    forall id ensures Open(after, id) <==> (Open(s, id) && after.buffer.Some?) || (begins && id == s.next) {
      assert Open(s, id) ==> s.buffer.Some?;
      if step.Feed? || step.Take? || step.Publish? || (step.DropSession? && s.sessions[step.id].Feeding?) {
        assert Open(s, step.id);
      }
    }
    if after.buffer.Some? {
      if begins {
        assert Open(after, s.next);
      } else {
        assert s.buffer.Some?;
        var id :| Open(s, id);
        assert Open(after, id);
      }
    }
  }

  lemma AccountedKept(r: Run, step: Step)
    requires Accounted(r) && OneSession(r.state) && SessionsAccounted(r) && Enabled(r.state, step)
    ensures Accounted(Next(r, step))
  {
    var e := EventOf(r.state, step);
    if e.Some? { HeldAppended(r.log, e.value); }
    if step.Insert? {
      HoldsMore(r.state.inner, Held(r.log), step.keys);
    } else if step.Publish? {
      assert Open(r.state, step.id);
      HoldsMore(r.state.sessions[step.id].replacement, FedTo(r.log, step.id), Since(r.log, step.id));
    }
  }

  lemma {:induction false} UnusedIdWasNotFed(log: seq<Event>, id: nat)
    requires forall i :: 0 <= i < |log| && log[i].Fed? ==> log[i].id != id
    ensures FedTo(log, id) == []
    decreases |log|
  {
    if log != [] { UnusedIdWasNotFed(log[..|log| - 1], id); }
  }

  lemma SessionKept(r: Run, step: Step, id: nat)
    requires SessionsAccounted(r) && OneSession(r.state) && FutureIdsUnused(r) && Enabled(r.state, step)
    requires Open(Next(r, step).state, id)
    ensures SessionAccounted(Next(r, step), id)
  {
    var e := EventOf(r.state, step);
    if e.Some? { Appended(r.log, e.value, id); }
    if !Open(r.state, id) {
      UnusedIdWasNotFed(r.log, id);
    } else {
      assert SessionAccounted(r, id);
      if step.Feed? && step.id == id {
        HoldsMore(r.state.sessions[id].replacement, FedTo(r.log, id), [step.key]);
        SetOne(r.state.sessions[id].replacement, step.key);
      }
    }
  }

  lemma StepKeepsInv(r: Run, step: Step)
    requires Inv(r)
    ensures Inv(Next(r, step))
  {
    if Enabled(r.state, step) {
      OneSessionKept(r.state, step);
      AccountedKept(r, step);
      forall id | Open(Next(r, step).state, id) ensures SessionAccounted(Next(r, step), id) {
        SessionKept(r, step, id);
      }
    }
  }

  lemma {:induction false} RunKeepsInv(r: Run, steps: seq<Step>)
    requires Inv(r)
    ensures Inv(Exec(r, steps))
    decreases |steps|
  {
    if steps != [] {
      StepKeepsInv(r, steps[0]);
      RunKeepsInv(Next(r, steps[0]), steps[1..]);
    }
  }

  function FromStart(hash: Hash, steps: seq<Step>): Run { Exec(Run(Initial(hash), []), steps) }

  lemma Reachable(hash: Hash, steps: seq<Step>)
    ensures Inv(FromStart(hash, steps))
  {
    RunKeepsInv(Run(Initial(hash), []), steps);
  }

  // Every key inserted since the last reset, or carried over by the committed rebuild, answers
  // yes; and any key that answers yes has all its positions covered by such keys.
  lemma NoFalseNegatives(hash: Hash, steps: seq<Step>, key: string)
    ensures var r := FromStart(hash, steps);
      && (key in Held(r.log) ==> Check(r.state.inner, key))
      && (Check(r.state.inner, key) <==> Covered(r.state.inner.hash, Held(r.log), key))
  {
    Reachable(hash, steps);
    var r := FromStart(hash, steps);
    CheckMeansCovered(r.state.inner, Held(r.log), key);
  }

  lemma BufferIffOneSession(hash: Hash, steps: seq<Step>)
    ensures var s := FromStart(hash, steps).state;
      && (s.buffer.Some? <==> exists id :: Open(s, id))
      && forall a, b :: Open(s, a) && Open(s, b) ==> a == b
  {
    Reachable(hash, steps);
  }

  // A commit reports the keys fed plus the keys inserted meanwhile, saturating.
  lemma CommitCounts(hash: Hash, steps: seq<Step>, id: nat)
    requires Enabled(FromStart(hash, steps).state, Publish(id))
    ensures var r := FromStart(hash, steps);
      Apply(r.state, Publish(id)).sessions[id] == Committed(SaturatingAdd(|FedTo(r.log, id)|, |Since(r.log, id)|))
  {
    Reachable(hash, steps);
    assert Open(FromStart(hash, steps).state, id);
  }

  // Dropping a session that has not begun to commit gives the filter back to everyone: the
  // same answers, and the next rebuild may start. Dropping a committed one changes neither,
  // even when another session has started since.
  lemma DropIsClean(hash: Hash, steps: seq<Step>, id: nat)
    requires Enabled(FromStart(hash, steps).state, DropSession(id))
    ensures var r := FromStart(hash, steps);
      var after := Apply(r.state, DropSession(id));
      && after.inner == r.state.inner
      && (r.state.sessions[id].Feeding? ==> after.buffer.None?)
      && (r.state.sessions[id].Committed? ==>
            after.buffer == r.state.buffer && forall other :: Open(r.state, other) ==> Open(after, other))
  {
    Reachable(hash, steps);
  }

  lemma BufferedNone(buffer: Option<seq<string>>)
    ensures Buffered(buffer, []) == buffer
  {
    if buffer.Some? { assert buffer.value + [] == buffer.value; }
  }

  // --- What the steps do ---

  // A clear or a start is refused exactly when the sizing is rejected or a session is open; a
  // cleared filter is empty, and a session starts with an empty replacement and buffer.
  lemma ControlMeaning(s: State, built: Option<Hash>)
    ensures Apply(s, Clear(built)) ==
      if built.Some? && s.buffer.None? then s.(inner := Filter(built.value, {})) else s
    ensures Apply(s, Start(built)) ==
      if built.Some? && s.buffer.None? then
        s.(buffer := Some([]), next := s.next + 1,
           sessions := s.sessions[s.next := Feeding(Filter(built.value, {}), 0)])
      else s
  {
  }

  // Inserted keys reach the current filter and an active buffer.
  lemma InsertMeaning(s: State, keys: seq<string>)
    ensures var t := Apply(s, Insert(keys));
      && t.inner == SetAll(s.inner, keys) && t.sessions == s.sessions
      && t.buffer == if s.buffer.Some? then Some(s.buffer.value + keys) else None
  {
  }

  // A session that runs to its end publishes its replacement with the buffered keys added, and
  // stops buffering; one dropped before leaves the filter and stops buffering.
  lemma SessionMeaning(s: State, id: nat, key: string)
    requires id in s.sessions && s.sessions[id].Feeding?
    ensures
      var session := s.sessions[id];
      var pending := if s.buffer.Some? then s.buffer.value else [];
      var fed := Apply(s, Feed(id, key));
      var done := Apply(Apply(s, Take(id)), Publish(id));
      var dropped := Apply(s, DropSession(id));
      && fed.sessions[id].replacement == Set(session.replacement, key) && fed.inner == s.inner && fed.buffer == s.buffer
      && done.inner == SetAll(session.replacement, pending) && done.buffer.None? && done.sessions[id].Committed?
      && dropped.inner == s.inner && dropped.buffer.None? && id !in dropped.sessions
  {
  }

  // Setting keys sets exactly their positions.
  lemma {:induction false} SetAllMeaning(f: Filter, keys: seq<string>, p: nat)
    ensures SetAll(f, keys).hash == f.hash
    ensures p in SetAll(f, keys).bits <==> p in f.bits || exists i :: 0 <= i < |keys| && p in f.hash(keys[i])
    decreases |keys|
  {
    if keys != [] {
      var n := |keys| - 1;
      SetAllMeaning(f, keys[..n], p);
      if i :| 0 <= i < |keys| && p in f.hash(keys[i]) {
        if i < n { assert keys[..n][i] == keys[i]; }
      }
    }
  }

  // --- The objects ---

  class BloomFilter {
    var inner: Filter
    var rebuildBuffer: Option<seq<string>>

    constructor (hash: Hash)
      ensures inner == Empty(hash) && rebuildBuffer == None
    {
      inner, rebuildBuffer := Empty(hash), None;
    }

    // Whatever keys the filter holds, each of them answers yes, and a yes means that every
    // position of the key is a position of one of them.
    method Contains(key: string) returns (maybe: bool)
      ensures forall keys :: Holds(inner, keys) ==>
        (maybe <==> Covered(inner.hash, keys, key)) && (key in keys ==> maybe)
    {
      maybe := Check(inner, key);
      forall keys | Holds(inner, keys)
        ensures (maybe <==> Covered(inner.hash, keys, key)) && (key in keys ==> maybe)
      {
        CheckMeansCovered(inner, keys, key);
      }
    }

    method InsertOne(key: string)
      modifies this
      ensures inner == SetAll(old(inner), [key])
      ensures rebuildBuffer == if old(rebuildBuffer).Some? then Some(old(rebuildBuffer).value + [key]) else None
    {
      SetOne(inner, key);
      inner := Set(inner, key);
      if rebuildBuffer.Some? { rebuildBuffer := Some(rebuildBuffer.value + [key]); }
    }

    method InsertMany(keys: seq<string>)
      modifies this
      ensures inner == SetAll(old(inner), keys)
      ensures rebuildBuffer == if old(rebuildBuffer).Some? then Some(old(rebuildBuffer).value + keys) else None
    {
      BufferedNone(rebuildBuffer);
      for i := 0 to |keys|
        invariant inner == SetAll(old(inner), keys[..i])
        invariant rebuildBuffer == Buffered(old(rebuildBuffer), keys[..i])
      {
        assert keys[..i + 1][..i] == keys[..i];
        assert Pending(old(rebuildBuffer)) + keys[..i] + [keys[i]] == Pending(old(rebuildBuffer)) + keys[..i + 1];
        inner := Set(inner, keys[i]);
        if rebuildBuffer.Some? { rebuildBuffer := Some(rebuildBuffer.value + [keys[i]]); }
      }
      assert keys[..|keys|] == keys;
    }

    method ClearAll(built: Option<Hash>) returns (ok: bool)
      modifies this
      ensures ok <==> built.Some? && old(rebuildBuffer).None?
      ensures rebuildBuffer == old(rebuildBuffer) && inner == if ok then Filter(built.value, {}) else old(inner)
    {
      if built.None? || rebuildBuffer.Some? { return false; }
      inner := Empty(built.value);
      return true;
    }

    method StartRebuild(built: Option<Hash>) returns (session: Option<BloomRebuild>)
      modifies this
      ensures inner == old(inner)
      ensures session.Some? <==> built.Some? && old(rebuildBuffer).None?
      ensures session.None? ==> rebuildBuffer == old(rebuildBuffer)
      ensures session.Some? ==>
        && rebuildBuffer == Some([]) && fresh(session.value) && session.value.owner == this
        && session.value.replacement == Some(Filter(built.value, {})) && session.value.loaded == 0
    {
      if built.None? || rebuildBuffer.Some? { return None; }
      rebuildBuffer := Some([]);
      var made := new BloomRebuild(this, built.value);
      return Some(made);
    }
  }

  class BloomRebuild {
    const owner: BloomFilter
    var replacement: Option<Filter>
    var loaded: nat

    constructor (owner: BloomFilter, hash: Hash)
      ensures this.owner == owner && replacement == Some(Empty(hash)) && loaded == 0
    {
      this.owner, replacement, loaded := owner, Some(Empty(hash)), 0;
    }

    method InsertMany(keys: seq<string>)
      requires loaded <= MAX_COUNT
      modifies this
      ensures old(replacement).None? ==> replacement.None? && loaded == old(loaded)
      ensures old(replacement).Some? ==>
        replacement == Some(SetAll(old(replacement).value, keys)) && loaded == SaturatingAdd(old(loaded), |keys|)
    {
      if replacement.None? { return; }
      for i := 0 to |keys|
        invariant replacement == Some(SetAll(old(replacement).value, keys[..i]))
        invariant loaded == SaturatingAdd(old(loaded), i)
      {
        assert keys[..i + 1][..i] == keys[..i];
        replacement := Some(Set(replacement.value, keys[i]));
        loaded := SaturatingAdd(loaded, 1);
      }
      assert keys[..|keys|] == keys;
    }

    // Installs the replacement with the buffered keys added, and stops buffering.
    method Commit() returns (count: nat)
      modifies this, owner
      ensures replacement.None? && loaded == old(loaded)
      ensures old(replacement).None? ==>
        count == loaded && owner.inner == old(owner.inner) && owner.rebuildBuffer == old(owner.rebuildBuffer)
      ensures old(replacement).Some? ==>
        && owner.inner == SetAll(old(replacement).value, Pending(old(owner.rebuildBuffer)))
        && owner.rebuildBuffer == None && count == SaturatingAdd(loaded, |Pending(old(owner.rebuildBuffer))|)
    {
      if replacement.None? { return loaded; }
      var filter := replacement.value;
      replacement := None;
      var buffered := Pending(owner.rebuildBuffer);
      owner.rebuildBuffer := None;
      for i := 0 to |buffered|
        invariant filter == SetAll(old(replacement).value, buffered[..i])
        invariant replacement.None? && loaded == old(loaded) && owner.rebuildBuffer.None?
      {
        assert buffered[..i + 1][..i] == buffered[..i];
        filter := Set(filter, buffered[i]);
      }
      assert buffered[..|buffered|] == buffered;
      owner.inner := filter;
      return SaturatingAdd(loaded, |buffered|);
    }

    method Drop()
      modifies owner
      ensures owner.inner == old(owner.inner)
      ensures owner.rebuildBuffer == if replacement.Some? then None else old(owner.rebuildBuffer)
    {
      if replacement.Some? { owner.rebuildBuffer := None; }
    }
  }
}
