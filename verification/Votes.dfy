/** Vote persistence with crashes at any point: `save_vote` updates memory, then the sink, then returns;
    a restart reloads whatever the sink holds. */
module Votes {
  import opened Text

  datatype Vote = Vote(term: nat, nodeId: nat, committed: bool)

  /** Where the save in progress is: after updating memory, or after the sink answered. */
  datatype Saving = Idle | InMemory(vote: Vote) | Answered

  /** `disk` is what the sink holds. */
  datatype Node = Node(up: bool, saving: Saving, mem: Option<Vote>, disk: Option<Vote>)

  datatype Step = Begin(vote: Vote) | Write(ok: bool) | Return | Crash | Restart(loadOk: bool)

  const Fresh := Node(true, Idle, None, None)

  predicate Enabled(s: Node, step: Step) {
    match step
    case Begin(_) => s.up && s.saving.Idle?
    case Write(_) => s.up && s.saving.InMemory?
    case Return => s.up && s.saving.Answered?
    case Crash => s.up
    case Restart(_) => !s.up
  }

  /** A failed sink write is only logged: the save goes on and returns all the same. */
  function Next(s: Node, step: Step): Node
    requires Enabled(s, step)
  {
    match step
    case Begin(v) => s.(saving := InMemory(v), mem := Some(v))
    case Write(ok) => s.(saving := Answered, disk := if ok then Some(s.saving.vote) else s.disk)
    case Return => s.(saving := Idle)
    case Crash => s.(up := false, saving := Idle, mem := None)
    case Restart(ok) => s.(up := true, mem := if ok then s.disk else None)
  }

  /** Runs grow at the end, so that a run's history is what came before its last step. */
  predicate ValidRun(steps: seq<Step>)
    decreases |steps|, 0
  {
    steps == [] || (ValidRun(Before(steps)) && Enabled(Final(Before(steps)), Last(steps)))
  }

  function Final(steps: seq<Step>): Node
    requires ValidRun(steps)
    decreases |steps|, 1
  {
    if steps == [] then Fresh else Next(Final(Before(steps)), Last(steps))
  }

  function Before(steps: seq<Step>): seq<Step>
    requires steps != []
  {
    steps[..|steps| - 1]
  }

  function Last(steps: seq<Step>): Step
    requires steps != []
  {
    steps[|steps| - 1]
  }

  // ----- What a history says, without looking at the node -----

  /** The votes given to the saves of a history, in order. */
  function Saves(steps: seq<Step>): seq<Vote> {
    if steps == [] then []
    else Saves(Before(steps)) + if Last(steps).Begin? then [Last(steps).vote] else []
  }

  /** The number of the last save whose write succeeded, or -1. */
  function LastWritten(steps: seq<Step>): (k: int)
    ensures -1 <= k < |Saves(steps)|
  {
    if steps == [] then -1
    else if Last(steps) == Write(true) then |Saves(steps)| - 1
    else LastWritten(Before(steps))
  }

  /** The number of the last save that returned, or -1. */
  function LastReturned(steps: seq<Step>): (k: int)
    ensures -1 <= k < |Saves(steps)|
  {
    if steps == [] then -1
    else if Last(steps).Return? then |Saves(steps)| - 1
    else LastReturned(Before(steps))
  }

  predicate Returns(steps: seq<Step>) { exists k :: 0 <= k < |steps| && steps[k].Return? }

  /** After position `i` no save is both written to the sink, well or not, and returned. */
  predicate NoneReturnedAfter(steps: seq<Step>, i: int) {
    forall j, k :: i < j < k < |steps| && 0 <= j && steps[j].Write? ==> !steps[k].Return?
  }

  /** No save returned, or some write succeeded and no save written later returned: the write of the last save
      that returned succeeded, or a later one did. */
  predicate Kept(steps: seq<Step>) {
    !Returns(steps) || exists i :: 0 <= i < |steps| && steps[i] == Write(true) && NoneReturnedAfter(steps, i)
  }

  // ----- Runs -----

  /** The node is what the history says: the sink holds the vote of the last save whose write succeeded, and the
      save in progress, if any, is the last one. */
  predicate Reflects(s: Node, steps: seq<Step>) {
    && s.disk == VoteOf(steps, LastWritten(steps))
    && (s.saving.InMemory? ==> Saves(steps) != [] && s.saving.vote == Saves(steps)[|Saves(steps)| - 1])
    && (s.saving.InMemory? ==> LastWritten(steps) < |Saves(steps)| - 1)
    && (s.saving.Answered? ==> steps != [] && Last(steps).Write?)
  }

  function VoteOf(steps: seq<Step>, k: int): Option<Vote> {
    if 0 <= k < |Saves(steps)| then Some(Saves(steps)[k]) else None
  }

  lemma {:induction false} RunReflects(steps: seq<Step>)
    requires ValidRun(steps)
    ensures Reflects(Final(steps), steps)
  {
    if steps != [] {
      RunReflects(Before(steps));
      assert Saves(Before(steps)) <= Saves(steps);
    }
  }

  /** What a restart recovers, after any run with any failures: the vote of the last save whose write succeeded. */
  lemma {:induction false} RecoversLastWritten(steps: seq<Step>, loadOk: bool)
    requires ValidRun(steps) && !Final(steps).up
    ensures Next(Final(steps), Restart(loadOk)).mem == if loadOk then VoteOf(steps, LastWritten(steps)) else None
  {
    RunReflects(steps);
  }

  /** The vote a node that is up answers with: that of the last save begun since it came up, else what the restart
      recovered. */
  function Remembered(steps: seq<Step>): Option<Vote> {
    if steps == [] then None
    else
      match Last(steps)
      case Begin(v) => Some(v)
      case Crash => None
      case Restart(ok) => if ok then VoteOf(Before(steps), LastWritten(Before(steps))) else None
      case _ => Remembered(Before(steps))
  }

  lemma {:induction false} MemoryExact(steps: seq<Step>)
    requires ValidRun(steps)
    ensures Final(steps).mem == Remembered(steps)
  {
    if steps != [] {
      MemoryExact(Before(steps));
      RunReflects(Before(steps));
    }
  }

  lemma {:induction false} KeptByOther(steps: seq<Step>)
    requires steps != [] && !Last(steps).Return? && Last(steps) != Write(true)
    ensures Kept(steps) <==> Kept(Before(steps))
  {
    var h := Before(steps);
    assert forall k :: 0 <= k < |h| ==> h[k] == steps[k];
    forall i | 0 <= i < |h| ensures NoneReturnedAfter(steps, i) <==> NoneReturnedAfter(h, i) {
    }
  }

  lemma {:induction false} KeptByReturn(steps: seq<Step>)
    requires |steps| >= 2 && Last(steps).Return? && Last(Before(steps)).Write?
    ensures Kept(steps) <==> Last(Before(steps)) == Write(true)
  {
    var n := |steps| - 1;
    assert steps[n].Return? && steps[n - 1] == Last(Before(steps));
    if steps[n - 1] == Write(true) { assert NoneReturnedAfter(steps, n - 1); }
  }

  /** Whatever the sink does, a crash keeps the last vote that was reported saved, or a later one, exactly when
      the sink accepted the write of the last save that returned, or a later write, or no save returned. */
  lemma {:induction false} DurableExactly(steps: seq<Step>)
    requires ValidRun(steps)
    ensures LastReturned(steps) <= LastWritten(steps) <==> Kept(steps)
  {
    if steps != [] {
      var h := Before(steps);
      DurableExactly(h);
      RunReflects(h);
      if Last(steps).Return? {
        RunReflects(Before(h));
        KeptByReturn(steps);
      } else if Last(steps) == Write(true) {
        assert NoneReturnedAfter(steps, |steps| - 1);
      } else {
        KeptByOther(steps);
      }
    }
  }

  /** Crash recovery, exactly: a restart that can read the sink recovers the vote of save k, the last whose write
      succeeded, and k is no earlier than the last save that returned exactly when the history is `Kept`. */
  lemma {:induction false} CrashRecoveryExact(steps: seq<Step>)
    requires ValidRun(steps) && !Final(steps).up
    ensures
      var k := LastWritten(steps);
      && Next(Final(steps), Restart(true)).mem == VoteOf(steps, k)
      && (LastReturned(steps) <= k <==> Kept(steps))
  {
    RecoversLastWritten(steps, true);
    DurableExactly(steps);
  }

  /** While every write succeeds, the vote recovered is that of the last save that returned, or of a later one
      that a crash cut short. */
  lemma {:induction false} CrashRecovery(steps: seq<Step>)
    requires ValidRun(steps) && !Final(steps).up && Write(false) !in steps
    ensures
      var m := Next(Final(steps), Restart(true)).mem;
      if m.None? then LastReturned(steps) == -1
      else exists k :: LastReturned(steps) <= k < |Saves(steps)| && 0 <= k && m.value == Saves(steps)[k]
  {
    CrashRecoveryExact(steps);
    AllWrittenKept(steps);
    assert 0 <= LastWritten(steps) ==> VoteOf(steps, LastWritten(steps)) == Some(Saves(steps)[LastWritten(steps)]);
  }

  lemma {:induction false} AllWrittenKept(steps: seq<Step>)
    requires ValidRun(steps) && Write(false) !in steps
    ensures Kept(steps)
  {
    if steps != [] {
      var h := Before(steps);
      AllWrittenKept(h);
      RunReflects(h);
      if Last(steps).Return? {
        assert Last(h) in steps;
        KeptByReturn(steps);
      } else if Last(steps) == Write(true) {
        assert NoneReturnedAfter(steps, |steps| - 1);
      } else {
        KeptByOther(steps);
      }
    }
  }

  /** One more step, for the run and for what its history says. */
  lemma {:induction false} Snoc(steps: seq<Step>, step: Step)
    requires ValidRun(steps) && Enabled(Final(steps), step)
    ensures ValidRun(steps + [step]) && Final(steps + [step]) == Next(Final(steps), step)
    ensures step != Write(true) ==> LastWritten(steps + [step]) == LastWritten(steps)
    ensures !step.Return? ==> LastReturned(steps + [step]) == LastReturned(steps)
    ensures step.Return? ==> LastReturned(steps + [step]) == |Saves(steps)| - 1
    ensures |Saves(steps + [step])| == |Saves(steps)| + if step.Begin? then 1 else 0
  {
    assert Before(steps + [step]) == steps;
  }

  /** A save whose write fails returns as usual, and its vote is gone after a crash. */
  lemma {:induction false} FailedWriteLosesVote(v: Vote)
    ensures
      var steps := [Begin(v), Write(false), Return, Crash];
      && ValidRun(steps) && LastReturned(steps) == 0 && !Kept(steps)
      && Next(Final(steps), Restart(true)).mem == None
  {
    var r1 := [] + [Begin(v)];
    Snoc([], Begin(v));
    var r2 := r1 + [Write(false)];
    Snoc(r1, Write(false));
    var r3 := r2 + [Return];
    Snoc(r2, Return);
    Snoc(r3, Crash);
    assert r3 + [Crash] == [Begin(v), Write(false), Return, Crash];
    DurableExactly(r3 + [Crash]);
  }
}
