/** Snapshot contents: the encoded map key, the two halves of `build_snapshot`, and `install_snapshot`. */
module Snapshots {
  import opened Text
  import opened Machine
  import opened Ordering

  const Nul: char := '\0'

  function KeyToStr(k: Key): string { k.0 + [Nul] + k.1 }

  /** `splitn(2, NUL)`: the text before the first NUL and all the text after it. */
  function KeyFromStr(s: string): Option<Key> { SplitOnce(s, Nul) }

  /** The key codec is lossless exactly for labels without U+0000. */
  lemma {:induction false} KeyRoundTrip(k: Key)
    ensures KeyFromStr(KeyToStr(k)) == Some(k) <==> Nul !in k.0
  {
    assert KeyToStr(k)[|k.0|] == Nul;
    if Nul !in k.0 { SplitOnceAt(k.0, Nul, k.1); }
  }

  predicate CleanLabel(k: Key) { Nul !in k.0 }

  predicate CleanKeys(m: map<Key, Summary>) { forall k :: k in m ==> CleanLabel(k) }

  lemma {:induction false} CleanKeysInjective(a: Key, b: Key)
    requires CleanLabel(a) && CleanLabel(b) && KeyToStr(a) == KeyToStr(b)
    ensures a == b
  {
    KeyRoundTrip(a);
    KeyRoundTrip(b);
  }

  /** Collecting the encoded pairs of `ks` in order; a later pair overwrites an earlier one with the same string. */
  function EncodeFrom(m: map<Key, Summary>, ks: seq<Key>): map<string, Summary>
    requires forall k :: k in ks ==> k in m
  {
    if ks == [] then map[]
    else EncodeFrom(m, ks[..|ks| - 1])[KeyToStr(ks[|ks| - 1]) := m[ks[|ks| - 1]]]
  }

  /** Keys in the order the container map iterates them. */
  ghost function KeyOrder(keys: set<Key>): (ks: seq<Key>)
    ensures forall k :: k in ks <==> k in keys
    ensures StrictlySorted(PairLess, ks)
  {
    PairOrder();
    Listing(PairLess, keys)
  }

  method KeysInOrder(keys: set<Key>) returns (ks: seq<Key>)
    ensures ks == KeyOrder(keys)
    ensures forall i :: 0 <= i < |ks| ==> ks[i] in keys
  {
    PairOrder();
    ks := SortedKeys(PairLess, keys);
    ListingIs(PairLess, keys, ks);
  }

  ghost function Encode(m: map<Key, Summary>): map<string, Summary> {
    EncodeFrom(m, KeyOrder(m.Keys))
  }

  lemma {:induction false} EncodeFromDomain(m: map<Key, Summary>, ks: seq<Key>, s: string)
    requires forall k :: k in ks ==> k in m
    ensures s in EncodeFrom(m, ks) <==> exists k :: k in ks && KeyToStr(k) == s
  {
    if ks != [] {
      var n := |ks| - 1;
      EncodeFromDomain(m, ks[..n], s);
      assert forall k :: k in ks <==> k in ks[..n] || k == ks[n];
    }
  }

  lemma {:induction false} EncodeFromValue(m: map<Key, Summary>, ks: seq<Key>, k: Key)
    requires forall k :: k in ks ==> k in m && CleanLabel(k)
    requires k in ks
    ensures KeyToStr(k) in EncodeFrom(m, ks) && EncodeFrom(m, ks)[KeyToStr(k)] == m[k]
  {
    var n := |ks| - 1;
    if KeyToStr(ks[n]) == KeyToStr(k) {
      CleanKeysInjective(ks[n], k);
    } else {
      assert ks == ks[..n] + [ks[n]];
      EncodeFromValue(m, ks[..n], k);
    }
  }

  /** What the rebuilt map holds: the payload strings that contain a NUL, read back as keys. */
  function Decode(payload: map<string, Summary>): (r: map<Key, Summary>)
    ensures forall k :: k in r <==> CleanLabel(k) && KeyToStr(k) in payload
    ensures forall k :: k in r ==> r[k] == payload[KeyToStr(k)]
  {
    var keys := set s | s in payload && Nul in s :: KeyFromStr(s).value;
    assert forall k :: k in keys <==> CleanLabel(k) && KeyToStr(k) in payload by {
      forall k: Key | CleanLabel(k) && KeyToStr(k) in payload ensures k in keys {
        KeyRoundTrip(k);
        assert KeyToStr(k)[|k.0|] == Nul;
      }
    }
    map k | k in keys :: payload[KeyToStr(k)]
  }

  /** Reading one payload string back adds exactly its key, if it is one. */
  lemma {:induction false} DecodeOne(payload: map<string, Summary>, s: string, k: Key)
    requires s in payload && CleanLabel(k)
    ensures KeyToStr(k) == s <==> KeyFromStr(s) == Some(k)
  {
    KeyRoundTrip(k);
  }

  /** The rebuild loop of `install_snapshot`; strings that are not keys are skipped. */
  method DecodeContainers(payload: map<string, Summary>) returns (rebuilt: map<Key, Summary>)
    ensures rebuilt == Decode(payload)
  {
    rebuilt := map[];
    var rest := payload.Keys;
    while rest != {}
      invariant rest <= payload.Keys
      invariant forall k :: k in rebuilt <==> CleanLabel(k) && KeyToStr(k) in payload.Keys - rest
      invariant forall k :: k in rebuilt ==> rebuilt[k] == payload[KeyToStr(k)]
      decreases rest
    {
      var s :| s in rest;
      forall k | CleanLabel(k) ensures KeyToStr(k) == s <==> KeyFromStr(s) == Some(k) { DecodeOne(payload, s, k); }
      if KeyFromStr(s).Some? {
        rebuilt := rebuilt[KeyFromStr(s).value := payload[s]];
      }
      rest := rest - {s};
    }
  }

  /** The container map survives encoding and decoding exactly when no label in it contains U+0000. */
  lemma {:induction false} ContainersRoundTrip(m: map<Key, Summary>)
    ensures Decode(Encode(m)) == m <==> CleanKeys(m)
  {
    var ks := KeyOrder(m.Keys);
    if CleanKeys(m) {
      forall k ensures k in Decode(Encode(m)) <==> k in m {
        EncodeFromDomain(m, ks, KeyToStr(k));
        if k in Decode(Encode(m)) {
          var j :| j in ks && KeyToStr(j) == KeyToStr(k);
          CleanKeysInjective(j, k);
        }
      }
      forall k | k in m ensures Decode(Encode(m))[k] == m[k] {
        EncodeFromValue(m, ks, k);
      }
    }
  }

  // ----- Building and installing -----

  datatype Meta = Meta(lastLogId: Option<LogId>, membership: StoredMembership, snapshotId: string)

  /** Snapshot bytes: none, bytes that are not a payload, or a serialised payload. */
  datatype Data = Empty | Foreign | Payload(membership: StoredMembership, containers: map<string, Summary>)

  datatype Snapshot = Snapshot(meta: Meta, data: Data)

  /** What the read phase of a build carries across the unlocked gap. */
  datatype Capture = Capture(data: Data, lastApplied: Option<LogId>, membership: StoredMembership)

  ghost function CaptureOf(s: State): Capture {
    Capture(Payload(s.membership, Encode(s.containers)), s.lastApplied, s.membership)
  }

  function SnapshotId(lastApplied: Option<LogId>, idx: nat): string {
    match lastApplied
    case Some(id) => id.leader + "-" + Decimal(id.index) + "-" + Decimal(idx)
    case None => "--" + Decimal(idx)
  }

  /** The write phase, with the counter it has just incremented. */
  function FinishBuild(c: Capture, idx: nat): Snapshot {
    Snapshot(Meta(c.lastApplied, c.membership, SnapshotId(c.lastApplied, idx)), c.data)
  }

  function Install(s: State, snap: Snapshot): State {
    State(snap.meta.lastLogId, snap.meta.membership,
          if snap.data.Payload? then Decode(snap.data.containers) else s.containers)
  }

  /** Ids made with different counters differ, whatever was applied when they were made. */
  lemma {:induction false} SnapshotIdsDistinct(a: Option<LogId>, i: nat, b: Option<LogId>, j: nat)
    requires i != j
    ensures SnapshotId(a, i) != SnapshotId(b, j)
  {
    var p := if a.Some? then a.value.leader + "-" + Decimal(a.value.index) else "-";
    var q := if b.Some? then b.value.leader + "-" + Decimal(b.value.index) else "-";
    assert SnapshotId(a, i) == p + ['-'] + Decimal(i);
    assert SnapshotId(b, j) == q + ['-'] + Decimal(j);
    DigitsExclude(Decimal(i), '-');
    DigitsExclude(Decimal(j), '-');
    if SnapshotId(a, i) == SnapshotId(b, j) {
      LastCutUnique(p, Decimal(i), q, Decimal(j), '-');
      DecimalInjective(i, j);
    }
  }

  /** An id reads back, from the right, as its counter, the last applied index and the leader. */
  lemma {:induction false} SnapshotIdReads(id: LogId, idx: nat)
    ensures RSplitOnce(SnapshotId(Some(id), idx), '-') == Some((id.leader + "-" + Decimal(id.index), Decimal(idx)))
    ensures RSplitOnce(id.leader + "-" + Decimal(id.index), '-') == Some((id.leader, Decimal(id.index)))
    ensures RSplitOnce(SnapshotId(None, idx), '-') == Some(("-", Decimal(idx)))
  {
    DigitsExclude(Decimal(idx), '-');
    DigitsExclude(Decimal(id.index), '-');
    RSplitOnceAt(id.leader + "-" + Decimal(id.index), '-', Decimal(idx));
    RSplitOnceAt(id.leader, '-', Decimal(id.index));
    RSplitOnceAt("-", '-', Decimal(idx));
    assert "--" + Decimal(idx) == "-" + ['-'] + Decimal(idx);
  }

  /** Installing takes id and membership from the metadata. A payload replaces the containers by those whose
      encoded key it holds under a label without U+0000; without one they stay. */
  lemma {:induction false} InstallMeaning(s: State, snap: Snapshot)
    ensures
      var t := Install(s, snap);
      && t.lastApplied == snap.meta.lastLogId && t.membership == snap.meta.membership
      && if snap.data.Payload? then
           forall k: Key ::
             && (k in t.containers <==> Nul !in k.0 && k.0 + [Nul] + k.1 in snap.data.containers)
             && (k in t.containers ==> t.containers[k] == snap.data.containers[k.0 + [Nul] + k.1])
         else t.containers == s.containers
  {
  }

  /** A snapshot taken of `s` and installed anywhere gives `s` back exactly when its labels are free of U+0000. */
  lemma {:induction false} SnapshotRoundTrip(s: State, target: State, idx: nat)
    ensures Install(target, FinishBuild(CaptureOf(s), idx)) == s <==> CleanKeys(s.containers)
  {
    ContainersRoundTrip(s.containers);
  }
}
