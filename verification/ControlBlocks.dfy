/** The reference-counted control block as a protocol of atomic steps. Handles to
    one object are copied, released and destroyed by any number of threads; every
    access to `count` and `owned` is one atomic step. */
module ControlBlocks {

  type HandleID = nat

  /** `count` is an unsigned 32-bit integer. */
  const WRAP: nat := 0x1_0000_0000

  /** How far a handle has got. A destructor whose decrement reaches zero reads
      `owned`, deletes the object if it is owned, and then frees the block. */
  datatype Phase =
    | Copying(src: HandleID)
    | Live
    | Last
    | Deleting
    | Freeing
    | Gone

  datatype State = State(count: nat, owned: bool, deletions: nat, frees: nat, handles: map<HandleID, Phase>)

  datatype Step =
    | BeginCopy(h: HandleID, src: HandleID)
    | Increment(h: HandleID)
    | Release(h: HandleID)
    | Decrement(h: HandleID)
    | ReadOwned(h: HandleID)
    | DeleteObject(h: HandleID)
    | FreeBlock(h: HandleID)

  predicate At(s: State, h: HandleID, p: Phase) { h in s.handles && s.handles[h] == p }

  predicate CopiedFrom(s: State, h: HandleID) {
    exists k :: k in s.handles && s.handles[k] == Copying(h)
  }

  /** A handle may be copied or released while it is alive; it is not destroyed
      while it is being copied. */
  predicate Enabled(s: State, step: Step) {
    match step
    case BeginCopy(h, src) => h !in s.handles && At(s, src, Live)
    case Increment(h) => h in s.handles && s.handles[h].Copying?
    case Release(h) => At(s, h, Live)
    case Decrement(h) => At(s, h, Live) && !CopiedFrom(s, h)
    case ReadOwned(h) => At(s, h, Last)
    case DeleteObject(h) => At(s, h, Deleting)
    case FreeBlock(h) => At(s, h, Freeing)
  }

  function Next(s: State, step: Step): State
    requires Enabled(s, step)
  {
    match step
    case BeginCopy(h, src) => s.(handles := s.handles[h := Copying(src)])
    case Increment(h) => s.(count := (s.count + 1) % WRAP, handles := s.handles[h := Live])
    case Release(h) => s.(owned := false)
    case Decrement(h) =>
      var left := (s.count + WRAP - 1) % WRAP;
      s.(count := left, handles := s.handles[h := if left == 0 then Last else Gone])
    case ReadOwned(h) => s.(handles := s.handles[h := if s.owned then Deleting else Freeing])
    case DeleteObject(h) => s.(deletions := s.deletions + 1, handles := s.handles[h := Freeing])
    case FreeBlock(h) => s.(frees := s.frees + 1, handles := s.handles[h := Gone])
  }

  /** The state after the constructor that takes ownership. */
  const START: State := State(1, true, 0, 0, map[0 := Live])

  // ---------------------------------------------------------------------
  // The invariant

  /** The handles that have been counted and not yet been decremented. */
  function LiveHandles(s: State): set<HandleID> {
    set h | h in s.handles && s.handles[h] == Live
  }

  predicate Finishing(p: Phase) { p.Last? || p.Deleting? || p.Freeing? }

  /** Somebody still needs the control block. */
  predicate InUse(s: State) { LiveHandles(s) != {} || exists h :: h in s.handles && Finishing(s.handles[h]) }

  ghost predicate Inv(s: State) {
    && s.count == |LiveHandles(s)| % WRAP
    && (forall h :: h in s.handles && s.handles[h].Copying? ==> At(s, s.handles[h].src, Live))
    && (forall h :: h in s.handles && Finishing(s.handles[h]) ==>
          LiveHandles(s) == {} && s.frees == 0 && s.deletions == DeletedIn(s.handles[h], s.owned))
    && (forall h, k :: h in s.handles && k in s.handles && Finishing(s.handles[h]) && Finishing(s.handles[k]) ==>
          h == k)
    && (forall h :: h in s.handles && s.handles[h].Deleting? ==> s.owned)
    && (LiveHandles(s) != {} ==> s.frees == 0 && s.deletions == 0)
    && (!InUse(s) ==> s.frees == 1 && s.deletions == if s.owned then 1 else 0)
  }

  function DeletedIn(p: Phase, owned: bool): nat { if p.Freeing? && owned then 1 else 0 }

  lemma Alive(s: State, h: HandleID)
    requires At(s, h, Live)
    ensures h in LiveHandles(s)
  {
  }

  lemma CopyKeepsInv(s: State, h: HandleID, src: HandleID)
    requires Inv(s) && Enabled(s, BeginCopy(h, src))
    ensures Inv(Next(s, BeginCopy(h, src)))
  {
    assert LiveHandles(Next(s, BeginCopy(h, src))) == LiveHandles(s);
    Alive(s, src);
  }

  lemma OneMoreLive(live: set<HandleID>, h: HandleID, count: nat)
    requires h !in live && count == |live| % WRAP
    ensures (count + 1) % WRAP == |live + {h}| % WRAP
  {
  }

  /** As long as a handle is alive, most of the invariant is about that only. */
  lemma WhileLive(t: State)
    requires t.count == |LiveHandles(t)| % WRAP && LiveHandles(t) != {} && t.frees == 0 && t.deletions == 0
    requires forall h :: h in t.handles ==>
      !Finishing(t.handles[h]) && (t.handles[h].Copying? ==> At(t, t.handles[h].src, Live))
    ensures Inv(t)
  {
    hide LiveHandles;
  }

  lemma IncrementKeepsInv(s: State, h: HandleID)
    requires Inv(s) && Enabled(s, Increment(h))
    ensures Inv(Next(s, Increment(h)))
  {
    var t := Next(s, Increment(h));
    Alive(s, s.handles[h].src);
    assert LiveHandles(t) == LiveHandles(s) + {h};
    OneMoreLive(LiveHandles(s), h, s.count);
    hide LiveHandles;
    WhileLive(t);
  }

  lemma ReleaseKeepsInv(s: State, h: HandleID)
    requires Inv(s) && Enabled(s, Release(h))
    ensures Inv(Next(s, Release(h)))
  {
    assert LiveHandles(Next(s, Release(h))) == LiveHandles(s);
    Alive(s, h);
  }

  lemma DecrementKeepsInv(s: State, h: HandleID)
    requires Inv(s) && Enabled(s, Decrement(h)) && |LiveHandles(s)| <= WRAP
    ensures Inv(Next(s, Decrement(h)))
  {
    var t := Next(s, Decrement(h));
    Alive(s, h);
    assert LiveHandles(t) == LiveHandles(s) - {h};
    assert |LiveHandles(t)| == |LiveHandles(s)| - 1;
    assert t.count == |LiveHandles(t)|;
    if t.count == 0 {
      assert Finishing(t.handles[h]);
      forall k | k in t.handles ensures !t.handles[k].Copying? {
        if k in s.handles && s.handles[k].Copying? {
          Alive(s, s.handles[k].src);
        }
      }
    }
  }

  lemma FinishKeepsInv(s: State, step: Step)
    requires Inv(s) && Enabled(s, step) && (step.ReadOwned? || step.DeleteObject?)
    ensures Inv(Next(s, step))
  {
    assert LiveHandles(Next(s, step)) == LiveHandles(s);
    assert Finishing(Next(s, step).handles[step.h]);
  }

  lemma FreeKeepsInv(s: State, h: HandleID)
    requires Inv(s) && Enabled(s, FreeBlock(h))
    ensures Inv(Next(s, FreeBlock(h)))
  {
    assert LiveHandles(Next(s, FreeBlock(h))) == LiveHandles(s);
    assert !InUse(Next(s, FreeBlock(h)));
  }

  lemma StepKeepsInv(s: State, step: Step)
    requires Inv(s) && Enabled(s, step) && |LiveHandles(s)| <= WRAP
    ensures Inv(Next(s, step))
  {
    match step
    case BeginCopy(h, src) => CopyKeepsInv(s, h, src);
    case Increment(h) => IncrementKeepsInv(s, h);
    case Release(h) => ReleaseKeepsInv(s, h);
    case Decrement(h) => DecrementKeepsInv(s, h);
    case ReadOwned(h) => FinishKeepsInv(s, step);
    case DeleteObject(h) => FinishKeepsInv(s, step);
    case FreeBlock(h) => FreeKeepsInv(s, h);
  }

  // ---------------------------------------------------------------------
  // Whole runs, under every interleaving

  /** A sequence of atomic steps from the start. */
  ghost predicate AreSteps(states: seq<State>, steps: seq<Step>) {
    && |states| == |steps| + 1 && states[0] == START
    && forall i :: 0 <= i < |steps| ==> Enabled(states[i], steps[i]) && states[i + 1] == Next(states[i], steps[i])
  }

  /** At most `n` handles are alive at any time. */
  ghost predicate AtMost(states: seq<State>, n: nat) {
    forall i :: 0 <= i < |states| ==> |LiveHandles(states[i])| <= n
  }

  /** A run for which the count is wide enough (see WideEnoughIff). */
  ghost predicate IsRun(states: seq<State>, steps: seq<Step>) { AreSteps(states, steps) && AtMost(states, WRAP) }

  function Frees(steps: seq<Step>): nat {
    if steps == [] then 0 else Frees(steps[..|steps| - 1]) + if steps[|steps| - 1].FreeBlock? then 1 else 0
  }

  function Deletions(steps: seq<Step>): nat {
    if steps == [] then 0 else Deletions(steps[..|steps| - 1]) + if steps[|steps| - 1].DeleteObject? then 1 else 0
  }

  predicate Released(steps: seq<Step>) { exists i :: 0 <= i < |steps| && steps[i].Release? }

  lemma StepEffects(s: State, step: Step)
    requires Enabled(s, step)
    ensures var t := Next(s, step);
            && t.frees == s.frees + (if step.FreeBlock? then 1 else 0)
            && t.deletions == s.deletions + (if step.DeleteObject? then 1 else 0)
            && (t.owned <==> s.owned && !step.Release?)
  {
  }

  lemma OneMoreStep(steps: seq<Step>, i: nat)
    requires 0 < i <= |steps|
    ensures Frees(steps[..i]) == Frees(steps[..i - 1]) + if steps[i - 1].FreeBlock? then 1 else 0
    ensures Deletions(steps[..i]) == Deletions(steps[..i - 1]) + if steps[i - 1].DeleteObject? then 1 else 0
    ensures Released(steps[..i]) <==> Released(steps[..i - 1]) || steps[i - 1].Release?
  {
    var a, b := steps[..i - 1], steps[..i];
    assert b[..i - 1] == a && b[i - 1] == steps[i - 1];
    if Released(a) {
      var k :| 0 <= k < |a| && a[k].Release?;
      assert b[k].Release?;
    }
  }

  lemma CountIsExact(s: State)
    requires Inv(s)
    ensures s.count == |LiveHandles(s)| % WRAP && (|LiveHandles(s)| < WRAP ==> s.count == |LiveHandles(s)|)
  {
  }

  /** In every state of a run the count is the number of handles not yet
      decremented, and `owned` says that nobody has called release. */
  lemma {:induction false} RunInvariant(states: seq<State>, steps: seq<Step>, i: nat)
    requires IsRun(states, steps) && i <= |steps|
    ensures Inv(states[i]) && states[i].count == |LiveHandles(states[i])| % WRAP
    ensures |LiveHandles(states[i])| < WRAP ==> states[i].count == |LiveHandles(states[i])|
    ensures states[i].owned <==> !Released(steps[..i])
    ensures states[i].frees == Frees(steps[..i]) && states[i].deletions == Deletions(steps[..i])
  {
    if i == 0 {
      assert LiveHandles(START) == {0};
      CountIsExact(START);
    } else {
      RunInvariant(states, steps, i - 1);
      StepKeepsInv(states[i - 1], steps[i - 1]);
      CountIsExact(states[i]);
      StepEffects(states[i - 1], steps[i - 1]);
      OneMoreStep(steps, i);
      hide Inv, Enabled, Next, LiveHandles, Released, Frees, Deletions;
    }
  }

  /** The control block is never touched after it has been freed, the object is
      never deleted twice, and it is not deleted once somebody has released it. */
  lemma NoUseAfterFree(states: seq<State>, steps: seq<Step>, i: nat)
    requires IsRun(states, steps) && i < |steps|
    ensures Frees(steps[..i]) == 0
    ensures steps[i].DeleteObject? ==> Deletions(steps[..i]) == 0 && !Released(steps[..i])
  {
    RunInvariant(states, steps, i);
    var s := states[i];
    match steps[i]
    case BeginCopy(h, src) => Alive(s, src);
    case Increment(h) => Alive(s, s.handles[h].src);
    case Release(h) => Alive(s, h);
    case Decrement(h) => Alive(s, h);
    case ReadOwned(h) => assert Finishing(s.handles[h]);
    case DeleteObject(h) => assert Finishing(s.handles[h]);
    case FreeBlock(h) => assert Finishing(s.handles[h]);
  }

  predicate AllGone(s: State) { forall h :: h in s.handles ==> s.handles[h].Gone? }

  /** Once all handles are gone, exactly one step has freed the control block, and
      one has deleted the object if and only if no handle ever called release. */
  lemma CompletedRun(states: seq<State>, steps: seq<Step>)
    requires IsRun(states, steps) && AllGone(states[|steps|])
    ensures exists i :: OnlyFree(steps, i)
    ensures Deletions(steps) == if Released(steps) then 0 else 1
  {
    RunInvariant(states, steps, |steps|);
    assert steps[..|steps|] == steps;
    assert !InUse(states[|steps|]);
    var i := OneFree(steps);
  }

  lemma {:induction false} NoFree(steps: seq<Step>)
    requires Frees(steps) == 0
    ensures forall k :: 0 <= k < |steps| ==> !steps[k].FreeBlock?
  {
    if steps != [] {
      NoFree(steps[..|steps| - 1]);
    }
  }

  predicate OnlyFree(steps: seq<Step>, i: nat) {
    && i < |steps| && steps[i].FreeBlock?
    && forall k :: 0 <= k < |steps| && steps[k].FreeBlock? ==> k == i
  }

  lemma {:induction false} OneFree(steps: seq<Step>) returns (i: nat)
    requires Frees(steps) == 1
    ensures OnlyFree(steps, i)
  {
    var earlier := steps[..|steps| - 1];
    if steps[|steps| - 1].FreeBlock? {
      NoFree(earlier);
      i := |steps| - 1;
    } else {
      i := OneFree(earlier);
    }
    assert forall k :: 0 <= k < |earlier| ==> steps[k] == earlier[k];
  }

  /** No deadlock: as long as a handle is left, a destructor or a copy can proceed. */
  lemma SomebodyCanProceed(s: State, h: HandleID)
    requires Inv(s) && h in s.handles && !s.handles[h].Gone?
    ensures exists step :: Enabled(s, step) && !step.BeginCopy? && !step.Release?
  {
    match s.handles[h]
    case Copying(src) => assert Enabled(s, Increment(h));
    case Live =>
      if CopiedFrom(s, h) {
        var k :| k in s.handles && s.handles[k] == Copying(h);
        assert Enabled(s, Increment(k));
      } else {
        assert Enabled(s, Decrement(h));
      }
    case Last => assert Enabled(s, ReadOwned(h));
    case Deleting => assert Enabled(s, DeleteObject(h));
    case Freeing => assert Enabled(s, FreeBlock(h));
  }

  // ---------------------------------------------------------------------
  // The width of the count

  /** `n` handles are alive, and nothing else has happened. */
  function Crowd(n: nat): State { State(n % WRAP, true, 0, 0, LiveUpTo(n)) }

  function LiveUpTo(n: nat): (r: map<HandleID, Phase>)
    ensures forall h :: h in r ==> h < n && r[h] == Live
    ensures n > 0 ==> 0 in r
  {
    if n == 0 then map[] else LiveUpTo(n - 1)[n - 1 := Live]
  }

  lemma {:induction false} CrowdSize(n: nat)
    ensures |LiveHandles(Crowd(n))| == n
  {
    if n > 0 {
      CrowdSize(n - 1);
      assert LiveHandles(Crowd(n)) == LiveHandles(Crowd(n - 1)) + {n - 1};
    } else {
      assert LiveHandles(Crowd(0)) == {};
    }
  }

  lemma OneMoreCopy(n: nat)
    requires n > 0
    ensures var copying := Crowd(n).(handles := Crowd(n).handles[n := Copying(0)]);
      && Enabled(Crowd(n), BeginCopy(n, 0)) && Next(Crowd(n), BeginCopy(n, 0)) == copying
      && Enabled(copying, Increment(n)) && Next(copying, Increment(n)) == Crowd(n + 1)
      && |LiveHandles(copying)| == n
  {
    var copying := Next(Crowd(n), BeginCopy(n, 0));
    assert copying.handles[n := Live] == Crowd(n + 1).handles;
    assert LiveHandles(copying) == LiveHandles(Crowd(n));
    CrowdSize(n);
  }

  lemma AppendStep(states: seq<State>, steps: seq<Step>, step: Step, n: nat) returns (more: seq<State>)
    requires AreSteps(states, steps) && AtMost(states, n) && Enabled(states[|steps|], step)
    requires |LiveHandles(Next(states[|steps|], step))| <= n
    ensures more == states + [Next(states[|steps|], step)] && AreSteps(more, steps + [step]) && AtMost(more, n)
  {
    hide Enabled, Next, LiveHandles;
    more := states + [Next(states[|steps|], step)];
  }

  /** Any number of handles can be alive at a time. */
  lemma {:induction false} CrowdIsReached(n: nat) returns (states: seq<State>, steps: seq<Step>)
    requires n > 0
    ensures AreSteps(states, steps) && AtMost(states, n) && states[|steps|] == Crowd(n)
  {
    hide Enabled, Next, LiveHandles;
    CrowdSize(n);
    if n == 1 {
      states, steps := [START], [];
      assert Crowd(1) == START;
    } else {
      states, steps := CrowdIsReached(n - 1);
      OneMoreCopy(n - 1);
      states := AppendStep(states, steps, BeginCopy(n - 1, 0), n);
      steps := steps + [BeginCopy(n - 1, 0)];
      states := AppendStep(states, steps, Increment(n - 1), n);
      steps := steps + [Increment(n - 1)];
    }
  }

  /** Destroying one of 2^32 + 1 handles deletes the object and frees the block. */
  lemma FreedByOne() returns (states: seq<State>, steps: seq<Step>)
    ensures AreSteps(states, steps) && AtMost(states, WRAP + 1)
    ensures var s := states[|steps|]; s.frees == 1 && s.deletions == 1 && |LiveHandles(s)| == WRAP
  {
    hide Enabled, Next, LiveHandles;
    states, steps := CrowdIsReached(WRAP + 1);
    var s, more := LastOfCrowd();
    for i := 0 to 4
      invariant AreSteps(states, steps) && AtMost(states, WRAP + 1) && states[|steps|] == s[i]
    {
      assert s[i + 1] == Next(s[i], more[i]) && |LiveHandles(s[i + 1])| == WRAP;
      states := AppendStep(states, steps, more[i], WRAP + 1);
      steps := steps + [more[i]];
    }
  }

  lemma LastOfCrowd() returns (s: seq<State>, steps: seq<Step>)
    ensures |steps| == 4 && |s| == 5 && s[0] == Crowd(WRAP + 1) && s[4].frees == 1 && s[4].deletions == 1
    ensures forall i :: 0 <= i < 4 ==> Enabled(s[i], steps[i]) && s[i + 1] == Next(s[i], steps[i])
    ensures forall i :: 1 <= i <= 4 ==> |LiveHandles(s[i])| == WRAP
  {
    var c := Crowd(WRAP + 1);
    var a := Next(c, Decrement(0));
    var b := Next(a, ReadOwned(0));
    var d := Next(b, DeleteObject(0));
    s, steps := [c, a, b, d, Next(d, FreeBlock(0))], [Decrement(0), ReadOwned(0), DeleteObject(0), FreeBlock(0)];
    CrowdSize(WRAP + 1);
    forall i | 1 <= i <= 4 ensures LiveHandles(s[i]) == LiveHandles(c) - {0} {
      assert forall h :: h in s[i].handles <==> h in c.handles;
    }
  }

  /** The block is there as long as a handle is alive. */
  ghost predicate IsKept(states: seq<State>) {
    forall i :: 0 <= i < |states| && LiveHandles(states[i]) != {} ==> states[i].frees == 0 && states[i].deletions == 0
  }

  /** The count is wide enough exactly for runs with at most 2^32 handles alive at a time:
      even at 2^32, where it is zero, but not for one more. */
  lemma WideEnoughIff(n: nat)
    ensures (forall states, steps :: AreSteps(states, steps) && AtMost(states, n) ==> IsKept(states))
       <==> n <= 0x1_0000_0000
  {
    hide LiveHandles, Enabled, Next;
    if n <= WRAP {
      forall states, steps | AreSteps(states, steps) && AtMost(states, n) ensures IsKept(states) {
        forall i | 0 <= i < |states| ensures Inv(states[i]) { RunInvariant(states, steps, i); }
      }
    } else {
      var states, steps := FreedByOne();
      assert LiveHandles(states[|steps|]) != {};
      assert AtMost(states, n) && !IsKept(states);
    }
  }
}
