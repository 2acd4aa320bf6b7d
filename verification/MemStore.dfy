/** The in-memory Raft storage object. Its methods are the locked sections of the source; each is tied
    to the value-level operation whose properties are proved elsewhere. */
module MemStorage {
  import opened Text
  import opened Ordering
  import opened Machine
  import opened Snapshots
  import opened LogStore
  import opened Votes

  /** The container view handed to callers: source label and summary, in key order. */
  ghost function ViewOf(m: map<Key, Summary>): seq<(string, Summary)> {
    Entries(m, KeyOrder(m.Keys))
  }

  function Entries(m: map<Key, Summary>, ks: seq<Key>): (r: seq<(string, Summary)>)
    requires forall k :: k in ks ==> k in m
    ensures |r| == |ks| && forall i :: 0 <= i < |r| ==> r[i] == (ks[i].0, m[ks[i]])
  {
    seq(|ks|, i requires 0 <= i < |ks| => (ks[i].0, m[ks[i]]))
  }

  /** With keys that match their summaries the view is sorted and says exactly what the map says. */
  lemma {:induction false} ViewLossless(m: map<Key, Summary>)
    requires KeysMatch(m)
    ensures forall i, j :: 0 <= i < j < |ViewOf(m)| ==>
              PairLess((ViewOf(m)[i].0, ViewOf(m)[i].1.id), (ViewOf(m)[j].0, ViewOf(m)[j].1.id))
    ensures forall n: string, s: Summary :: (n, s) in ViewOf(m) <==> (n, s.id) in m && m[(n, s.id)] == s
  {
  }

  class MemStore {
    var log: map<nat, Entry>
    var lastPurged: Option<LogId>
    var vote: Option<Vote>
    var lastApplied: Option<LogId>
    var lastMembership: StoredMembership
    var snapshotIdx: nat
    var current: Option<Snapshot>
    var containers: map<Key, Summary>
    /** The vote sink, when configured, and the vote it holds. */
    var hasVoteSink: bool
    var savedVote: Option<Vote>
    /** Whether a revocation sink is installed, and the calls made to it. */
    var hasRevocationSink: bool
    var fired: seq<Revocation>

    function LogView(): MapLog
      reads this
    {
      MapLog(log, lastPurged)
    }

    function MachineView(): State
      reads this
    {
      State(lastApplied, lastMembership, containers)
    }

    constructor (withVoteSink: bool, persisted: Option<Vote>)
      ensures LogView() == MapLog(map[], None) && MachineView() == Initial
      ensures snapshotIdx == 0 && current == None && vote == None
      ensures hasVoteSink == withVoteSink && savedVote == persisted && !hasRevocationSink && fired == []
    {
      log, lastPurged, vote := map[], None, None;
      lastApplied, lastMembership, containers := None, Initial.membership, map[];
      snapshotIdx, current := 0, None;
      hasVoteSink, savedVote := withVoteSink, persisted;
      hasRevocationSink, fired := false, [];
    }

    // ----- Log -----

    method AppendToLog(entries: seq<Entry>)
      modifies this`log
      ensures LogView() == Append(old(LogView()), entries)
    {
      for i := 0 to |entries|
        invariant log == InsertAll(old(log), entries[..i])
      {
        assert entries[..i + 1][..i] == entries[..i];
        log := log[entries[i].logId.index := entries[i]];
      }
      assert entries[..|entries|] == entries;
    }

    method RemoveKeys(keys: seq<nat>)
      modifies this`log
      ensures log == map k | k in old(log) && k !in keys :: old(log)[k]
    {
      for i := 0 to |keys|
        invariant log == map k | k in old(log) && k !in keys[..i] :: old(log)[k]
      {
        assert forall k :: k in keys[..i + 1] <==> k in keys[..i] || k == keys[i];
        log := log - {keys[i]};
      }
      assert keys[..|keys|] == keys;
    }

    method DeleteConflictLogsSince(id: LogId)
      modifies this`log
      ensures LogView() == TruncateFrom(old(LogView()), id)
    {
      var keys := IndicesInOrder(KeysIn(log, id.index, None));
      RemoveKeys(keys);
    }

    method PurgeLogsUpTo(id: LogId)
      modifies this`log, this`lastPurged
      ensures LogView() == PurgeUpTo(old(LogView()), id)
    {
      var keys := IndicesInOrder(KeysIn(log, 0, Some(id.index + 1)));
      RemoveKeys(keys);
      if lastPurged.None? || lastPurged.value.index < id.index {
        lastPurged := Some(id);
      }
    }

    method GetLogState() returns (purged: Option<LogId>, last: Option<LogId>)
      ensures purged == lastPurged && last == LastLogId(LogView())
    {
      var keys := IndicesInOrder(log.Keys);
      purged := lastPurged;
      last := if keys == [] then lastPurged else Some(log[keys[|keys| - 1]].logId);
    }

    /** No result stands for the panic on a range whose ends are the wrong way round. */
    method TryGetLogEntries(lo: nat, hi: Option<nat>) returns (r: Option<seq<Entry>>)
      ensures r == ReadRange(LogView(), lo, hi)
    {
      if Inverted(lo, hi) { return None; }
      var keys := IndicesInOrder(KeysIn(log, lo, hi));
      var entries: seq<Entry> := [];
      for i := 0 to |keys|
        invariant forall j :: 0 <= j < |keys| ==> keys[j] in log
        invariant |entries| == i && forall j :: 0 <= j < i ==> entries[j] == log[keys[j]]
      {
        entries := entries + [log[keys[i]]];
      }
      assert entries == ValuesAt(log, keys);
      r := Some(entries);
    }

    // ----- State machine -----

    /** The body of the apply loop: one entry's effect on the state, and the revocation it defers. */
    method ApplyEntry(entry: Entry) returns (deferred: seq<Revocation>)
      modifies this`lastApplied, this`lastMembership, this`containers
      ensures MachineView() == ApplyOne(old(MachineView()), entry)
      ensures deferred == Revocations([entry])
    {
      deferred := [];
      lastApplied := Some(entry.logId);
      match entry.payload {
        case Blank =>
        case Normal(data) =>
          match data {
            case ProposeContainer(n, c) => containers := containers[(n, c.id) := c];
            case RemoveContainer(n, cid) => containers := containers - {(n, cid)};
            case RevokePluginKey(r) => deferred := [r];
            case Noop =>
          }
        case Reconfigure(m) => lastMembership := StoredMembership(Some(entry.logId), m);
      }
    }

    /** Revocations are collected under the lock and fired after it is dropped. */
    method ApplyToStateMachine(entries: seq<Entry>) returns (out: seq<AppResponse>)
      modifies this`lastApplied, this`lastMembership, this`containers, this`fired
      ensures MachineView() == ApplyAll(old(MachineView()), entries)
      ensures out == Responses(old(MachineView()), entries)
      ensures if hasRevocationSink then old(fired) <= fired && FiresInOrder(entries, fired[|old(fired)|..])
              else fired == old(fired)
    {
      out := [];
      var deferred: seq<Revocation> := [];
      for i := 0 to |entries|
        invariant MachineView() == ApplyAll(old(MachineView()), entries[..i])
        invariant out == Responses(old(MachineView()), entries[..i])
        invariant deferred == Revocations(entries[..i])
        invariant fired == old(fired)
      {
        assert entries[..i + 1][..i] == entries[..i];
        var more := ApplyEntry(entries[i]);
        deferred := deferred + more;
        out := out + [AppResponse(true, entries[i].logId.index, |containers|)];
      }
      assert entries[..|entries|] == entries;
      FireRevocations(deferred);
      RevocationsFire(entries);
      assert hasRevocationSink ==> fired[|old(fired)|..] == Revocations(entries);
    }

    method FireRevocations(deferred: seq<Revocation>)
      modifies this`fired
      ensures fired == old(fired) + if hasRevocationSink then deferred else []
    {
      for i := 0 to |deferred|
        invariant fired == old(fired) + if hasRevocationSink then deferred[..i] else []
      {
        if hasRevocationSink { fired := fired + [deferred[i]]; }
      }
    }

    method StateSnapshot() returns (applied: nat, view: seq<(string, Summary)>)
      ensures applied == if lastApplied.Some? then lastApplied.value.index else 0
      ensures view == ViewOf(containers)
    {
      var keys := KeysInOrder(containers.Keys);
      applied := if lastApplied.Some? then lastApplied.value.index else 0;
      view := [];
      for i := 0 to |keys|
        invariant forall j :: 0 <= j < |keys| ==> keys[j] in containers
        invariant |view| == i && forall j :: 0 <= j < i ==> view[j] == (keys[j].0, containers[keys[j]])
      {
        view := view + [(keys[i].0, containers[keys[i]])];
      }
    }

    // ----- Snapshots -----

    method SnapshotReadPhase() returns (capture: Capture)
      ensures capture == CaptureOf(MachineView())
    {
      var keys := KeysInOrder(containers.Keys);
      var encoded: map<string, Summary> := map[];
      for i := 0 to |keys|
        invariant encoded == EncodeFrom(containers, keys[..i])
      {
        assert keys[..i + 1][..i] == keys[..i];
        encoded := encoded[KeyToStr(keys[i]) := containers[keys[i]]];
      }
      assert keys[..|keys|] == keys;
      capture := Capture(Payload(lastMembership, encoded), lastApplied, lastMembership);
    }

    method SnapshotWritePhase(capture: Capture) returns (snapshot: Snapshot)
      modifies this`snapshotIdx, this`current
      ensures snapshotIdx == old(snapshotIdx) + 1
      ensures snapshot == FinishBuild(capture, snapshotIdx) && current == Some(snapshot)
    {
      snapshotIdx := snapshotIdx + 1;
      var id := SnapshotId(capture.lastApplied, snapshotIdx);
      snapshot := Snapshot(Meta(capture.lastApplied, capture.membership, id), capture.data);
      current := Some(snapshot);
    }

    method InstallSnapshot(snapshot: Snapshot)
      modifies this`lastApplied, this`lastMembership, this`containers, this`current
      ensures MachineView() == Install(old(MachineView()), snapshot)
      ensures current == Some(snapshot)
    {
      lastApplied := snapshot.meta.lastLogId;
      lastMembership := snapshot.meta.membership;
      if snapshot.data.Payload? {
        containers := DecodeContainers(snapshot.data.containers);
      }
      current := Some(snapshot);
    }

    // ----- Vote -----

    /** `sinkOk` is the outcome of the sink's write, which is only logged. */
    method SaveVote(v: Vote, sinkOk: bool)
      modifies this`vote, this`savedVote
      ensures vote == Some(v)
      ensures savedVote == if hasVoteSink && sinkOk then Some(v) else old(savedVote)
    {
      vote := Some(v);
      if hasVoteSink && sinkOk { savedVote := Some(v); }
    }

    method LoadPersistedVote(loadOk: bool)
      modifies this`vote
      ensures vote == if hasVoteSink && loadOk && savedVote.Some? then savedVote else old(vote)
    {
      if hasVoteSink && loadOk && savedVote.Some? { vote := savedVote; }
    }
  }
}
