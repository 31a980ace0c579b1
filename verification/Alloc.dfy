/**
 The allocator's two counters under any interleaving of threads. Each action of an allocator
 call is one atomic step: the system call, the addition, the raising of the peak, the
 subtraction. Callers keep the allocator's contract: they pass a block's true size and do
 not use one block in two calls at once.
 */
module Alloc {
  import opened Wrappers

  // usize arithmetic: atomic additions and subtractions wrap.
  const WORD: nat := 0x1_0000_0000_0000_0000

  function Plus(a: nat, b: nat): nat { (a + b) % WORD }

  function Minus(a: nat, b: nat): nat { (a - b) % WORD }

  function Max(a: nat, b: nat): nat { if a >= b then a else b }

  // What a thread still has to do for its call
  datatype Call =
    | Adding(block: nat, size: nat)        // obtained or grown, to be counted
    | Raising(block: nat, seen: nat)       // counted; the peak is to be raised to the sum seen
    | Subtracting(block: nat, size: nat)   // shrunk, still counted
    | Freeing(block: nat)                  // no longer counted, to be given back to the system

  // `sizes` are the live blocks; `counted` is how much of each the counter includes.
  datatype State = State(
    inUse: nat, peak: nat, sizes: map<nat, nat>, counted: map<nat, nat>, calls: map<nat, Call>)

  // A system call that returns null names no block.
  datatype Step =
    | Obtain(thread: nat, got: Option<nat>, size: nat)
    | Resize(thread: nat, block: nat, got: Option<nat>, size: nat)
    | Release(thread: nat, block: nat)
    | Count(thread: nat)
    | RaisePeak(thread: nat)
    | Free(thread: nat)

  const INITIAL := State(0, 0, map[], map[], map[])

  predicate Idle(s: State, block: nat) { forall t :: t in s.calls ==> s.calls[t].block != block }

  predicate Enabled(s: State, step: Step) {
    match step
    case Obtain(t, got, _) => t !in s.calls && (got.Some? ==> got.value !in s.sizes && got.value !in s.counted)
    case Resize(t, block, got, _) =>
      t !in s.calls && block in s.sizes && block in s.counted && Idle(s, block) &&
      (got.Some? ==> got.value == block || (got.value !in s.sizes && got.value !in s.counted))
    case Release(t, block) => t !in s.calls && block in s.sizes && block in s.counted && Idle(s, block)
    case Count(t) =>
      t in s.calls && (s.calls[t].Adding? || s.calls[t].Subtracting?) && s.calls[t].block in s.counted
    case RaisePeak(t) => t in s.calls && s.calls[t].Raising?
    case Free(t) => t in s.calls && s.calls[t].Freeing?
  }

  function AfterObtain(s: State, t: nat, got: nat, size: nat): State {
    s.(sizes := s.sizes[got := size], counted := s.counted[got := 0], calls := s.calls[t := Adding(got, size)])
  }

  // The block is moved, then its new size leaves a difference to be recorded.
  function AfterResize(s: State, t: nat, block: nat, got: nat, size: nat): State
    requires block in s.sizes && block in s.counted
  {
    Sized(Moved(s, block, got), t, got, size)
  }

  function Moved(s: State, block: nat, got: nat): State
    requires block in s.sizes && block in s.counted
  {
    s.(sizes := (s.sizes - {block})[got := s.sizes[block]], counted := (s.counted - {block})[got := s.counted[block]])
  }

  function Sized(s: State, t: nat, block: nat, size: nat): State
    requires block in s.sizes
  {
    var was := s.sizes[block];
    s.(sizes := s.sizes[block := size],
       calls := if size > was then s.calls[t := Adding(block, size - was)]
                else if size < was then s.calls[t := Subtracting(block, was - size)]
                else s.calls)
  }

  function AfterRelease(s: State, t: nat, block: nat): State
    requires block in s.sizes
  {
    s.(inUse := Minus(s.inUse, s.sizes[block]), counted := s.counted[block := 0], calls := s.calls[t := Freeing(block)])
  }

  function AfterCount(s: State, t: nat): State
    requires Enabled(s, Count(t))
  {
    var call := s.calls[t];
    var was := s.counted[call.block];
    if call.Adding? then
      var current := Plus(s.inUse, call.size);
      s.(inUse := current, counted := s.counted[call.block := was + call.size],
         calls := s.calls[t := Raising(call.block, current)])
    else
      s.(inUse := Minus(s.inUse, call.size),
         counted := s.counted[call.block := if was < call.size then 0 else was - call.size], calls := s.calls - {t})
  }

  function AfterFree(s: State, t: nat): State
    requires t in s.calls
  {
    var block := s.calls[t].block;
    s.(sizes := s.sizes - {block}, counted := s.counted - {block}, calls := s.calls - {t})
  }

  function Next(s: State, step: Step): State {
    if !Enabled(s, step) then s
    else
      match step
      case Obtain(t, got, size) => if got.None? then s else AfterObtain(s, t, got.value, size)
      case Resize(t, block, got, size) => if got.None? then s else AfterResize(s, t, block, got.value, size)
      case Release(t, block) => AfterRelease(s, t, block)
      case Count(t) => AfterCount(s, t)
      case RaisePeak(t) => s.(peak := Max(s.peak, s.calls[t].seen), calls := s.calls - {t})
      case Free(t) => AfterFree(s, t)
  }

  function Exec(s: State, steps: seq<Step>): State
    decreases |steps|
  {
    if steps == [] then s else Exec(Next(s, steps[0]), steps[1..])
  }

  // The greatest value the counter takes in a run
  function Highest(s: State, steps: seq<Step>): nat
    decreases |steps|
  {
    if steps == [] then s.inUse else Max(s.inUse, Highest(Next(s, steps[0]), steps[1..]))
  }

  // The counted bytes never exceed what a word can hold.
  ghost predicate Fits(s: State, steps: seq<Step>)
    decreases |steps|
  {
    Sum(s.counted) < WORD && (steps != [] ==> Fits(Next(s, steps[0]), steps[1..]))
  }

  // --- Sums over blocks ---

  ghost function Sum(m: map<nat, nat>): nat {
    if m == map[] then 0 else var k :| k in m; m[k] + Sum(m - {k})
  }

  lemma {:induction false} SumWithout(m: map<nat, nat>, k: nat)
    requires k in m
    ensures Sum(m) == m[k] + Sum(m - {k})
    decreases |m|
  {
    var x :| x in m && Sum(m) == m[x] + Sum(m - {x});
    if x != k {
      SumWithout(m - {x}, k);
      SumWithout(m - {k}, x);
      assert m - {x} - {k} == m - {k} - {x};
    }
  }

  lemma SumUpdate(m: map<nat, nat>, k: nat, v: nat)
    ensures Sum(m[k := v]) == Sum(m - {k}) + v
    ensures Sum(m) == Sum(m - {k}) + if k in m then m[k] else 0
  {
    SumWithout(m[k := v], k);
    assert m[k := v] - {k} == m - {k};
    if k in m { SumWithout(m, k); } else { assert m - {k} == m; }
  }

  // --- The invariant ---

  // What of each block is counted, by the call at work on it
  predicate Counted(s: State, call: Call) {
    && call.block in s.sizes && call.block in s.counted
    && match call
       case Adding(b, n) => s.counted[b] + n == s.sizes[b]
       case Raising(b, _) => s.counted[b] == s.sizes[b]
       case Subtracting(b, n) => s.counted[b] == s.sizes[b] + n
       case Freeing(b) => s.counted[b] == 0
  }

  ghost predicate Blocks(s: State) {
    && s.counted.Keys == s.sizes.Keys
    && (forall t :: t in s.calls ==> Counted(s, s.calls[t]))
    && (forall t, u :: t in s.calls && u in s.calls && s.calls[t].block == s.calls[u].block ==> t == u)
    && (forall b :: b in s.sizes && Idle(s, b) ==> s.counted[b] == s.sizes[b])
  }

  ghost predicate Balanced(s: State) { s.inUse == Sum(s.counted) % WORD }

  // A call may begin on a new block or on one that no other call is at work on.
  lemma BeginKeepsBlocks(s: State, next: State, t: nat, call: Call)
    requires Blocks(s) && t !in s.calls && Idle(s, call.block)
    requires next.calls == s.calls[t := call] && Counted(next, call)
    requires next.sizes.Keys == next.counted.Keys == s.sizes.Keys + {call.block}
    requires forall b :: b in s.sizes && b != call.block ==>
      next.sizes[b] == s.sizes[b] && next.counted[b] == s.counted[b]
    ensures Blocks(next)
  {
    forall u | u in s.calls ensures Counted(next, s.calls[u]) && s.calls[u].block != call.block {
      assert Counted(s, s.calls[u]);
    }
    forall b | b in next.sizes && Idle(next, b) ensures next.counted[b] == next.sizes[b] {
      assert t in next.calls && next.calls[t].block == call.block;
      StillIdle(s, next, t, b);
    }
  }

  lemma ObtainKeepsBlocks(s: State, t: nat, got: nat, size: nat)
    requires Blocks(s) && t !in s.calls && got !in s.sizes
    ensures Blocks(AfterObtain(s, t, got, size))
  {
    forall u | u in s.calls ensures s.calls[u].block != got {
      assert Counted(s, s.calls[u]);
    }
    BeginKeepsBlocks(s, AfterObtain(s, t, got, size), t, Adding(got, size));
  }

  lemma MoveKeepsBlocks(s: State, block: nat, got: nat)
    requires Blocks(s) && block in s.sizes && Idle(s, block) && (got == block || got !in s.sizes)
    ensures Blocks(Moved(s, block, got)) && Idle(Moved(s, block, got), got)
  {
    var next := Moved(s, block, got);
    forall u | u in s.calls ensures Counted(next, s.calls[u]) && s.calls[u].block != got {
      assert Counted(s, s.calls[u]);
    }
    forall b | b in next.sizes && Idle(next, b) ensures next.counted[b] == next.sizes[b] {
      assert Idle(s, b);
    }
  }

  lemma SizeKeepsBlocks(s: State, t: nat, block: nat, size: nat)
    requires Blocks(s) && t !in s.calls && block in s.sizes && Idle(s, block)
    ensures Blocks(Sized(s, t, block, size))
  {
    var next := Sized(s, t, block, size);
    if size == s.sizes[block] {
      assert next.sizes == s.sizes && next == s;
    } else {
      BeginKeepsBlocks(s, next, t, next.calls[t]);
    }
  }

  lemma ReleaseKeepsBlocks(s: State, t: nat, block: nat)
    requires Blocks(s) && t !in s.calls && block in s.sizes && Idle(s, block)
    ensures Blocks(AfterRelease(s, t, block))
  {
    BeginKeepsBlocks(s, AfterRelease(s, t, block), t, Freeing(block));
  }

  lemma AddKeepsBlocks(s: State, t: nat)
    requires Blocks(s) && Enabled(s, Count(t)) && s.calls[t].Adding?
    ensures Blocks(AfterCount(s, t))
  {
    var next := AfterCount(s, t);
    var block := s.calls[t].block;
    assert Counted(s, s.calls[t]);
    forall u | u in s.calls ensures Counted(next, next.calls[u]) && (u != t ==> s.calls[u].block != block) {
      assert Counted(s, s.calls[u]);
    }
    forall b | b in next.sizes && Idle(next, b) ensures next.counted[b] == next.sizes[b] {
      assert t in next.calls && next.calls[t].block == block;
      StillIdle(s, next, t, b);
    }
  }

  lemma SubtractKeepsBlocks(s: State, t: nat)
    requires Blocks(s) && Enabled(s, Count(t)) && s.calls[t].Subtracting?
    ensures Blocks(AfterCount(s, t))
  {
    var next := AfterCount(s, t);
    var block := s.calls[t].block;
    assert Counted(s, s.calls[t]);
    forall u | u in next.calls ensures Counted(next, next.calls[u]) && s.calls[u].block != block {
      assert Counted(s, s.calls[u]);
    }
    forall b | b in next.sizes && Idle(next, b) ensures next.counted[b] == next.sizes[b] {
      if b != block { StillIdle(s, next, t, b); }
    }
  }

  lemma CountKeepsBlocks(s: State, t: nat)
    requires Blocks(s) && Enabled(s, Count(t))
    ensures Blocks(AfterCount(s, t))
  {
    if s.calls[t].Adding? { AddKeepsBlocks(s, t); } else { SubtractKeepsBlocks(s, t); }
  }

  // A block that no call is at work on afterwards, and that was not this thread's, had none before.
  lemma StillIdle(s: State, next: State, t: nat, b: nat)
    requires (t in s.calls ==> s.calls[t].block != b) && Idle(next, b)
    requires next.calls - {t} == s.calls - {t}
    ensures Idle(s, b)
  {
    forall u | u in s.calls ensures s.calls[u].block != b {
      if u != t {
        assert u in s.calls - {t} && (s.calls - {t})[u] == s.calls[u];
        assert u in next.calls - {t} && (next.calls - {t})[u] == next.calls[u];
      }
    }
  }

  lemma LeaveKeepsBlocks(s: State, t: nat, next: State)
    requires Blocks(s) && t in s.calls && (s.calls[t].Raising? || s.calls[t].Freeing?)
    requires next == if s.calls[t].Freeing? then AfterFree(s, t) else s.(peak := next.peak, calls := s.calls - {t})
    ensures Blocks(next)
  {
    assert Counted(s, s.calls[t]);
    forall u | u in next.calls ensures Counted(next, next.calls[u]) {
      assert Counted(s, s.calls[u]);
    }
    forall b | b in next.sizes && Idle(next, b) ensures next.counted[b] == next.sizes[b] {
      if b != s.calls[t].block { StillIdle(s, next, t, b); }
    }
  }

  lemma BlocksKept(s: State, step: Step)
    requires Blocks(s)
    ensures Blocks(Next(s, step))
  {
    if Enabled(s, step) {
      match step {
        case Obtain(t, got, size) => if got.Some? { ObtainKeepsBlocks(s, t, got.value, size); }
        case Resize(t, block, got, size) =>
          if got.Some? {
            MoveKeepsBlocks(s, block, got.value);
            SizeKeepsBlocks(Moved(s, block, got.value), t, got.value, size);
          }
        case Release(t, block) => ReleaseKeepsBlocks(s, t, block);
        case Count(t) => CountKeepsBlocks(s, t);
        case RaisePeak(t) => LeaveKeepsBlocks(s, t, Next(s, step));
        case Free(t) => LeaveKeepsBlocks(s, t, Next(s, step));
      }
    }
  }

  lemma ResizeKeepsBalance(s: State, t: nat, block: nat, got: nat, size: nat)
    requires Blocks(s) && block in s.sizes && (got == block || got !in s.sizes)
    ensures Sum(AfterResize(s, t, block, got, size).counted) == Sum(s.counted)
  {
    SumWithout(s.counted, block);
    SumUpdate(s.counted - {block}, got, s.counted[block]);
    assert s.counted - {block} - {got} == s.counted - {block};
  }

  lemma CountKeepsBalance(s: State, t: nat)
    requires Blocks(s) && Balanced(s) && Enabled(s, Count(t))
    ensures Balanced(AfterCount(s, t))
    ensures Sum(AfterCount(s, t).counted) ==
      if s.calls[t].Adding? then Sum(s.counted) + s.calls[t].size else Sum(s.counted) - s.calls[t].size
  {
    var call := s.calls[t];
    var next := AfterCount(s, t);
    assert Counted(s, call);
    SumUpdate(s.counted, call.block, next.counted[call.block]);
    assert next.counted == s.counted[call.block := next.counted[call.block]];
    if call.Adding? { WrapsOnce(Sum(s.counted), call.size); } else { WrapsBack(Sum(s.counted), call.size); }
  }

  lemma WrapsOnce(a: nat, b: nat)
    ensures Plus(a % WORD, b) == (a + b) % WORD
  {
  }

  lemma WrapsBack(a: nat, b: nat)
    requires b <= a
    ensures Minus(a % WORD, b) == (a - b) % WORD
  {
  }

  lemma ReleaseKeepsBalance(s: State, t: nat, block: nat)
    requires Blocks(s) && Balanced(s) && block in s.sizes && Idle(s, block)
    ensures Balanced(AfterRelease(s, t, block))
    ensures Sum(AfterRelease(s, t, block).counted) == Sum(s.counted) - s.sizes[block]
  {
    SumUpdate(s.counted, block, 0);
    WrapsBack(Sum(s.counted), s.sizes[block]);
  }

  lemma BalancedKept(s: State, step: Step)
    requires Blocks(s) && Balanced(s)
    ensures Balanced(Next(s, step))
  {
    if Enabled(s, step) {
      match step {
        case Obtain(t, got, size) => if got.Some? { NewKeepsSum(s.counted, got.value); }
        case Resize(t, block, got, size) => if got.Some? { ResizeKeepsBalance(s, t, block, got.value, size); }
        case Release(t, block) => ReleaseKeepsBalance(s, t, block);
        case Count(t) => CountKeepsBalance(s, t);
        case RaisePeak(t) =>
        case Free(t) =>
          assert Counted(s, s.calls[t]);
          SumWithout(s.counted, s.calls[t].block);
      }
    }
  }

  lemma NewKeepsSum(m: map<nat, nat>, k: nat)
    requires k !in m
    ensures Sum(m[k := 0]) == Sum(m)
  {
    SumUpdate(m, k, 0);
  }

  // --- The peak ---

  // Every value the counter took is below the peak or below a sum some thread still holds, and
  // neither exceeds what the counter took.
  ghost predicate PeakCovers(s: State, highest: nat) {
    && s.inUse <= highest && s.peak <= highest
    && (forall t :: t in s.calls && s.calls[t].Raising? ==> s.calls[t].seen <= highest)
    && (s.peak == highest || exists t :: t in s.calls && s.calls[t].Raising? && s.calls[t].seen == highest)
  }

  lemma CountKeepsPeak(s: State, t: nat, highest: nat)
    requires Blocks(s) && Balanced(s) && PeakCovers(s, highest) && Enabled(s, Count(t)) && s.calls[t].Adding?
    ensures PeakCovers(AfterCount(s, t), Max(highest, AfterCount(s, t).inUse))
  {
    var next := AfterCount(s, t);
    assert next.calls[t] == Raising(s.calls[t].block, next.inUse);
    if next.inUse <= highest && s.peak != highest {
      var u :| u in s.calls && s.calls[u].Raising? && s.calls[u].seen == highest;
      assert u in next.calls && next.calls[u] == s.calls[u];
    }
  }

  // The other steps leave every pending sum in place, or move it into the peak.
  lemma OthersKeepPeak(s: State, step: Step, highest: nat)
    requires PeakCovers(s, highest) && Enabled(s, step) && !Grows(s, step) && Next(s, step).inUse <= s.inUse
    ensures PeakCovers(Next(s, step), highest)
  {
    var next := Next(s, step);
    forall u | u in next.calls && next.calls[u].Raising? ensures u in s.calls && next.calls[u] == s.calls[u] {}
    if s.peak != highest {
      var u :| u in s.calls && s.calls[u].Raising? && s.calls[u].seen == highest;
      assert step == RaisePeak(u) || (u in next.calls && next.calls[u] == s.calls[u]);
    }
  }

  predicate Grows(s: State, step: Step) {
    step.Count? && step.thread in s.calls && s.calls[step.thread].Adding?
  }

  lemma MinusExact(a: nat, b: nat)
    requires b <= a < WORD
    ensures Minus(a, b) == a - b
  {
  }

  // Only counting a growth raises the counter; the subtractions do not pass zero.
  lemma CounterFalls(s: State, step: Step)
    requires Blocks(s) && Balanced(s) && Sum(s.counted) < WORD && Enabled(s, step) && !Grows(s, step)
    ensures Next(s, step).inUse <= s.inUse
    ensures step.Release? ==> s.sizes[step.block] <= s.inUse
    ensures step.Count? ==> s.calls[step.thread].size <= s.inUse
  {
    assert s.inUse == Sum(s.counted);
    if step.Release? {
      SumWithout(s.counted, step.block);
      MinusExact(s.inUse, s.sizes[step.block]);
    } else if step.Count? {
      assert Counted(s, s.calls[step.thread]);
      SumWithout(s.counted, s.calls[step.thread].block);
      MinusExact(s.inUse, s.calls[step.thread].size);
    }
  }

  lemma PeakCoversKept(s: State, step: Step, highest: nat)
    requires Blocks(s) && Balanced(s) && Sum(s.counted) < WORD && PeakCovers(s, highest)
    ensures PeakCovers(Next(s, step), Max(highest, Next(s, step).inUse))
  {
    if Enabled(s, step) {
      if Grows(s, step) {
        CountKeepsPeak(s, step.thread, highest);
      } else {
        CounterFalls(s, step);
        OthersKeepPeak(s, step, highest);
      }
    }
  }

  // --- Main results ---

  lemma {:induction false} RunKeepsBalance(s: State, steps: seq<Step>)
    requires Blocks(s) && Balanced(s)
    ensures Blocks(Exec(s, steps)) && Balanced(Exec(s, steps))
    decreases |steps|
  {
    if steps != [] {
      BlocksKept(s, steps[0]);
      BalancedKept(s, steps[0]);
      RunKeepsBalance(Next(s, steps[0]), steps[1..]);
    }
  }

  // At every moment the counter is the sum of what is counted, up to the word size; with no
  // call in flight that is the sum of the live blocks.
  lemma CounterIsSum(steps: seq<Step>)
    ensures var s := Exec(INITIAL, steps);
      s.inUse == Sum(s.counted) % WORD && (s.calls == map[] ==> s.counted == s.sizes)
  {
    RunKeepsBalance(INITIAL, steps);
  }

  // A subtraction never takes more than the counter holds.
  lemma NoUnderflow(steps: seq<Step>, step: Step)
    requires var s := Exec(INITIAL, steps); Enabled(s, step) && !Grows(s, step) && Sum(s.counted) < WORD
    ensures var s := Exec(INITIAL, steps);
      && (step.Release? ==> s.sizes[step.block] <= s.inUse)
      && (step.Count? ==> s.calls[step.thread].size <= s.inUse)
  {
    RunKeepsBalance(INITIAL, steps);
    CounterFalls(Exec(INITIAL, steps), step);
  }

  lemma {:induction false} RunKeepsPeak(s: State, steps: seq<Step>, highest: nat)
    requires Blocks(s) && Balanced(s) && PeakCovers(s, highest) && Fits(s, steps)
    ensures PeakCovers(Exec(s, steps), Max(highest, Highest(s, steps)))
    decreases |steps|
  {
    if steps != [] {
      var next := Next(s, steps[0]);
      BlocksKept(s, steps[0]);
      BalancedKept(s, steps[0]);
      PeakCoversKept(s, steps[0], highest);
      RunKeepsPeak(next, steps[1..], Max(highest, next.inUse));
      HighestIsAtLeastFirst(next, steps[1..]);
    }
  }

  lemma HighestIsAtLeastFirst(s: State, steps: seq<Step>)
    ensures Highest(s, steps) >= s.inUse
  {
  }

  // The peak never exceeds the greatest value the counter took, and once no call is in flight
  // it is that value.
  lemma PeakIsHighest(steps: seq<Step>)
    requires Fits(INITIAL, steps)
    ensures var s := Exec(INITIAL, steps);
      s.peak <= Highest(INITIAL, steps) && (s.calls == map[] ==> s.peak == Highest(INITIAL, steps))
  {
    RunKeepsPeak(INITIAL, steps, 0);
  }

  // --- Calls that run alone ---

  lemma Steps(s: State, a: Step, b: Step, c: Step)
    ensures Exec(s, [a, b, c]) == Next(Next(Next(s, a), b), c)
  {
    assert [a, b, c][1..] == [b, c] && [b, c][1..] == [c] && [c][1..] == [];
    assert Exec(Next(Next(s, a), b), [c]) == Next(Next(Next(s, a), b), c);
  }

  // Nobody interfering, each call leaves the counters the allocator object's method leaves, and
  // the steps a call does not need do nothing.
  lemma CallsAlone(s: State, t: nat, block: nat, got: Option<nat>, moved: Option<nat>, size: nat)
    requires Blocks(s) && s.calls == map[]
    requires got.Some? ==> got.value !in s.sizes
    requires moved.Some? ==> moved.value == block || moved.value !in s.sizes
    ensures
      var obtained := Exec(s, [Obtain(t, got, size), Count(t), RaisePeak(t)]);
      && obtained.calls == map[]
      && obtained.inUse == (if got.Some? then Plus(s.inUse, size) else s.inUse)
      && obtained.peak == (if got.Some? then Max(s.peak, obtained.inUse) else s.peak)
    ensures block in s.sizes ==>
      var resized := Exec(s, [Resize(t, block, moved, size), Count(t), RaisePeak(t)]);
      var was := s.sizes[block];
      && resized.calls == map[]
      && resized.inUse == (if moved.None? || size == was then s.inUse
                           else if size > was then Plus(s.inUse, size - was) else Minus(s.inUse, was - size))
      && resized.peak == (if moved.Some? && size > was then Max(s.peak, resized.inUse) else s.peak)
    ensures block in s.sizes ==>
      var freed := Exec(s, [Release(t, block), Free(t), RaisePeak(t)]);
      && freed.calls == map[] && freed.inUse == Minus(s.inUse, s.sizes[block])
      && freed.peak == s.peak && block !in freed.sizes
  {
    Steps(s, Obtain(t, got, size), Count(t), RaisePeak(t));
    ObtainAlone(s, t, got, size);
    if block in s.sizes {
      Steps(s, Resize(t, block, moved, size), Count(t), RaisePeak(t));
      ResizeAlone(s, t, block, moved, size);
      Steps(s, Release(t, block), Free(t), RaisePeak(t));
      ReleaseAlone(s, t, block);
    }
  }

  lemma ObtainAlone(s: State, t: nat, got: Option<nat>, size: nat)
    requires Blocks(s) && s.calls == map[] && (got.Some? ==> got.value !in s.sizes)
    ensures var after := Next(Next(Next(s, Obtain(t, got, size)), Count(t)), RaisePeak(t));
      && after.calls == map[]
      && after.inUse == (if got.Some? then Plus(s.inUse, size) else s.inUse)
      && after.peak == (if got.Some? then Max(s.peak, after.inUse) else s.peak)
  {
    if got.Some? {
      var s1 := Next(s, Obtain(t, got, size));
      assert s1.calls == map[t := Adding(got.value, size)] && Enabled(s1, Count(t));
      assert Next(s1, Count(t)).calls == map[t := Raising(got.value, Plus(s.inUse, size))];
    }
  }

  lemma ResizeAlone(s: State, t: nat, block: nat, got: Option<nat>, size: nat)
    requires Blocks(s) && s.calls == map[] && block in s.sizes
    requires got.Some? ==> got.value == block || got.value !in s.sizes
    ensures
      var after := Next(Next(Next(s, Resize(t, block, got, size)), Count(t)), RaisePeak(t));
      var was := s.sizes[block];
      && after.calls == map[]
      && after.inUse == (if got.None? || size == was then s.inUse
                         else if size > was then Plus(s.inUse, size - was) else Minus(s.inUse, was - size))
      && after.peak == (if got.Some? && size > was then Max(s.peak, after.inUse) else s.peak)
  {
    assert Idle(s, block);
    var was := s.sizes[block];
    var s1 := Next(s, Resize(t, block, got, size));
    if got.Some? && size > was {
      assert s1.calls == map[t := Adding(got.value, size - was)] && Enabled(s1, Count(t));
      assert Next(s1, Count(t)).calls == map[t := Raising(got.value, Plus(s.inUse, size - was))];
    } else if got.Some? && size < was {
      assert s1.calls == map[t := Subtracting(got.value, was - size)] && Enabled(s1, Count(t));
    }
  }

  lemma ReleaseAlone(s: State, t: nat, block: nat)
    requires Blocks(s) && s.calls == map[] && block in s.sizes
    ensures var after := Next(Next(Next(s, Release(t, block)), Free(t)), RaisePeak(t));
      && after.calls == map[] && after.inUse == Minus(s.inUse, s.sizes[block])
      && after.peak == s.peak && block !in after.sizes
  {
    assert Idle(s, block);
    assert Next(s, Release(t, block)).calls == map[t := Freeing(block)];
  }

  // --- The allocator object ---

  class TrackingAlloc {
    var inUse: nat
    var peak: nat

    constructor ()
      ensures inUse == 0 && peak == 0
    {
      inUse, peak := 0, 0;
    }

    method RecordAlloc(size: nat)
      modifies this
      ensures inUse == Plus(old(inUse), size) && peak == Max(old(peak), inUse)
    {
      inUse := Plus(inUse, size);
      var current := inUse;
      if peak < current { peak := current; }
    }

    method RecordDealloc(size: nat)
      modifies this
      ensures inUse == Minus(old(inUse), size) && peak == old(peak)
    {
      inUse := Minus(inUse, size);
    }

    // `got` is what the system allocator returned.
    method Allocate(got: Option<nat>, size: nat)
      modifies this
      ensures inUse == (if got.Some? then Plus(old(inUse), size) else old(inUse))
      ensures peak == if got.Some? then Max(old(peak), inUse) else old(peak)
    {
      if got.Some? { RecordAlloc(size); }
    }

    method Deallocate(size: nat)
      modifies this
      ensures inUse == Minus(old(inUse), size) && peak == old(peak)
    {
      RecordDealloc(size);
    }

    // Of the two sizes only the difference is recorded, and only growth can raise the peak.
    method Reallocate(got: Option<nat>, size: nat, newSize: nat)
      modifies this
      ensures inUse == (if got.None? || newSize == size then old(inUse)
                        else if newSize > size then Plus(old(inUse), newSize - size)
                        else Minus(old(inUse), size - newSize))
      ensures got.Some? && size <= old(inUse) < WORD ==> inUse == Plus(old(inUse) - size, newSize)
      ensures peak == if got.Some? && newSize > size then Max(old(peak), inUse) else old(peak)
    {
      if got.Some? {
        if newSize > size {
          RecordAlloc(newSize - size);
        } else if newSize < size {
          RecordDealloc(size - newSize);
        }
      }
    }
  }
}
