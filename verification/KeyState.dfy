/** Producer keys in force at an index: the lookup by snapshot, and the sequential machine it must agree with. */
module KeyState {
  import opened Basics
  import opened Envelopes
  import opened Statements

  datatype KeyEvent = KeyEvent(entryIndex: nat, keyId: string, pubkey: string, added: bool)

  /** A manifest in force from its entry index, with its version id and the envelope that carried it. */
  datatype ManifestAt = ManifestAt(entryIndex: nat, manifest: Manifest, versionId: string, envelope: Envelope)

  datatype BoundKey = BoundKey(pubkey: string, boundAt: nat)

  type Keys = map<string, BoundKey>

  // ---------------------------------------------------------------------------
  // The lookup
  // ---------------------------------------------------------------------------

  /** The keys a manifest declares, each bound to the manifest; of two entries for one key the later counts. */
  function Snapshot(declared: seq<(string, string)>, at: nat): Keys
  {
    if declared == [] then map[]
    else
      var last := declared[|declared| - 1];
      Snapshot(declared[..|declared| - 1], at)[last.0 := BoundKey(last.1, at)]
  }

  /** The last of the manifests before `index`, and the first one where there is none. */
  function SnapshotManifest(manifests: seq<ManifestAt>, index: nat): Option<ManifestAt>
  {
    if manifests == [] then None
    else
      var last := manifests[|manifests| - 1];
      if last.entryIndex < index || |manifests| == 1 then Some(last)
      else SnapshotManifest(manifests[..|manifests| - 1], index)
  }

  function Apply(keys: Keys, e: KeyEvent): Keys {
    if e.added then keys[e.keyId := BoundKey(e.pubkey, e.entryIndex)] else keys - {e.keyId}
  }

  /** `keys` after the transitions anchored after `after` and no later than `index`. */
  function ApplyBetween(keys: Keys, events: seq<KeyEvent>, after: nat, index: nat): Keys
  {
    if events == [] then keys
    else
      var last := events[|events| - 1];
      var earlier := ApplyBetween(keys, events[..|events| - 1], after, index);
      if after < last.entryIndex <= index then Apply(earlier, last) else earlier
  }

  /** The producer keys in force at `index`. */
  function KeysAt(manifests: seq<ManifestAt>, events: seq<KeyEvent>, index: nat): Keys {
    var snapshot := SnapshotManifest(manifests, index);
    if snapshot.None? then map[]
    else
      var m := snapshot.value;
      ApplyBetween(Snapshot(m.manifest.producerKeys, m.entryIndex), events, m.entryIndex, index)
  }

  method ProducerKeysAt(manifests: seq<ManifestAt>, events: seq<KeyEvent>, index: nat) returns (keys: Keys)
    ensures keys == KeysAt(manifests, events, index)
  {
    keys := map[];
    var snapshot := SnapshotManifest(manifests, index);
    if snapshot.None? {
      return;
    }
    var (at, declared) := (snapshot.value.entryIndex, snapshot.value.manifest.producerKeys);
    for i := 0 to |declared|
      invariant keys == Snapshot(declared[..i], at)
    {
      assert declared[..i + 1][..i] == declared[..i];
      keys := keys[declared[i].0 := BoundKey(declared[i].1, at)];
    }
    assert declared[..|declared|] == declared;
    ghost var start := keys;
    for i := 0 to |events|
      invariant keys == ApplyBetween(start, events[..i], at, index)
    {
      assert events[..i + 1][..i] == events[..i];
      var e := events[i];
      if e.entryIndex > at && e.entryIndex <= index {
        if e.added {
          keys := keys[e.keyId := BoundKey(e.pubkey, e.entryIndex)];
        } else {
          keys := keys - {e.keyId};
        }
      }
    }
    assert events[..|events|] == events;
  }

  function PublicKeysOf(keys: Keys): PublicKeys {
    map k | k in keys :: keys[k].pubkey
  }

  // ---------------------------------------------------------------------------
  // The sequential machine
  // ---------------------------------------------------------------------------

  /** A governance statement taken into the key state, in entry order. */
  datatype Inducted = InductedManifest(at: ManifestAt) | InductedKey(event: KeyEvent, signedBy: Envelope)

  function IndexOf(s: Inducted): nat {
    match s
    case InductedManifest(at) => at.entryIndex
    case InductedKey(event, _) => event.entryIndex
  }

  function EnvelopeOf(s: Inducted): Envelope {
    match s
    case InductedManifest(at) => at.envelope
    case InductedKey(_, envelope) => envelope
  }

  function ManifestsOf(trail: seq<Inducted>): seq<ManifestAt>
  {
    if trail == [] then []
    else
      var (earlier, last) := (ManifestsOf(trail[..|trail| - 1]), trail[|trail| - 1]);
      if last.InductedManifest? then earlier + [last.at] else earlier
  }

  function EventsOf(trail: seq<Inducted>): seq<KeyEvent>
  {
    if trail == [] then []
    else
      var (earlier, last) := (EventsOf(trail[..|trail| - 1]), trail[|trail| - 1]);
      if last.InductedKey? then earlier + [last.event] else earlier
  }

  /** Entry indexes strictly ascend across both kinds of statement, and the first statement is a manifest. */
  ghost predicate Trail(trail: seq<Inducted>) {
    && trail != [] && trail[0].InductedManifest?
    && forall i, j :: 0 <= i < j < |trail| ==> IndexOf(trail[i]) < IndexOf(trail[j])
  }

  /** Whether a statement other than the first has taken effect by `index`. */
  predicate InForce(s: Inducted, index: nat) {
    match s
    case InductedManifest(at) => at.entryIndex < index
    case InductedKey(event, _) => event.entryIndex <= index
  }

  function Effect(keys: Keys, s: Inducted): Keys {
    match s
    case InductedManifest(at) => Snapshot(at.manifest.producerKeys, at.entryIndex)
    case InductedKey(event, _) => Apply(keys, event)
  }

  /** The state at `index`: the first manifest's keys, then every statement in force, in entry order. */
  function Machine(trail: seq<Inducted>, index: nat): Keys
    requires trail != []
  {
    var last := trail[|trail| - 1];
    if |trail| == 1 then Effect(map[], last)
    else
      var earlier := Machine(trail[..|trail| - 1], index);
      if InForce(last, index) then Effect(earlier, last) else earlier
  }

  lemma TrailPrefix(trail: seq<Inducted>)
    requires Trail(trail) && |trail| > 1
    ensures Trail(trail[..|trail| - 1])
    ensures trail == trail[..|trail| - 1] + [trail[|trail| - 1]]
  {
  }

  lemma {:induction false} ProjectionsAreBefore(trail: seq<Inducted>)
    requires Trail(trail)
    ensures ManifestsOf(trail) != []
    ensures forall m :: m in ManifestsOf(trail) ==> m.entryIndex <= IndexOf(trail[|trail| - 1])
    ensures forall e :: e in EventsOf(trail) ==> e.entryIndex <= IndexOf(trail[|trail| - 1])
  {
    if |trail| > 1 {
      TrailPrefix(trail);
      ProjectionsAreBefore(trail[..|trail| - 1]);
    } else {
      assert trail[..0] == [];
    }
  }

  lemma {:induction false} SnapshotIsOneOf(manifests: seq<ManifestAt>, index: nat)
    requires manifests != []
    ensures SnapshotManifest(manifests, index).Some? && SnapshotManifest(manifests, index).value in manifests
  {
    if |manifests| > 1 {
      SnapshotIsOneOf(manifests[..|manifests| - 1], index);
    }
  }

  lemma {:induction false} NothingBetween(keys: Keys, events: seq<KeyEvent>, after: nat, index: nat)
    requires forall e :: e in events ==> e.entryIndex <= after
    ensures ApplyBetween(keys, events, after, index) == keys
  {
    if events != [] {
      assert events[|events| - 1] in events;
      NothingBetween(keys, events[..|events| - 1], after, index);
    }
  }

  lemma LoneManifest(trail: seq<Inducted>)
    requires |trail| == 1 && trail[0].InductedManifest?
    ensures ManifestsOf(trail) == [trail[0].at] && EventsOf(trail) == [] && trail[..0] == []
  {
    assert trail[..0] == [];
    assert ManifestsOf(trail[..0]) == [] && EventsOf(trail[..0]) == [];
  }

  /** The lookup by snapshot is the sequential machine, at every index. */
  lemma {:induction false} LookupIsMachine(trail: seq<Inducted>, index: nat)
    requires Trail(trail)
    ensures KeysAt(ManifestsOf(trail), EventsOf(trail), index) == Machine(trail, index)
  {
    var last := trail[|trail| - 1];
    if |trail| == 1 {
      LoneManifest(trail);
    } else {
      var before := trail[..|trail| - 1];
      TrailPrefix(trail);
      LookupIsMachine(before, index);
      ProjectionsAreBefore(before);
      var ms, es := ManifestsOf(before), EventsOf(before);
      match last {
        case InductedManifest(at) =>
          assert ManifestsOf(trail) == ms + [at] && (ms + [at])[..|ms|] == ms;
          NothingBetween(Snapshot(at.manifest.producerKeys, at.entryIndex), es, at.entryIndex, index);
        case InductedKey(event, _) =>
          assert EventsOf(trail) == es + [event] && (es + [event])[..|es|] == es;
          SnapshotIsOneOf(ms, index);
      }
    }
  }

  /** A statement that gives a key its value. */
  predicate Installs(s: Inducted, keyId: string, pubkey: string) {
    match s
    case InductedManifest(at) => (keyId, pubkey) in at.manifest.producerKeys
    case InductedKey(event, _) => event.added && event.keyId == keyId && event.pubkey == pubkey
  }

  /** A statement that decides whether and how a key is in force. */
  predicate Touches(s: Inducted, keyId: string) {
    s.InductedManifest? || s.event.keyId == keyId
  }

  lemma {:induction false} SnapshotInstalls(declared: seq<(string, string)>, at: nat, keyId: string)
    requires keyId in Snapshot(declared, at)
    ensures Snapshot(declared, at)[keyId].boundAt == at && (keyId, Snapshot(declared, at)[keyId].pubkey) in declared
  {
    var last := |declared| - 1;
    assert declared == declared[..last] + [declared[last]];
    if declared[last].0 != keyId {
      SnapshotInstalls(declared[..last], at, keyId);
    }
  }

  /** A key in force is bound to the last statement in force that touched it, and that statement installed it. */
  lemma {:induction false} BoundToLastInstaller(trail: seq<Inducted>, index: nat, keyId: string) returns (k: nat)
    requires Trail(trail) && keyId in Machine(trail, index)
    ensures k < |trail| && (k == 0 || InForce(trail[k], index))
    ensures Machine(trail, index)[keyId].boundAt == IndexOf(trail[k])
    ensures Installs(trail[k], keyId, Machine(trail, index)[keyId].pubkey)
    ensures forall j :: k < j < |trail| && InForce(trail[j], index) ==> !Touches(trail[j], keyId)
  {
    k := |trail| - 1;
    var last := trail[k];
    if k == 0 || (InForce(last, index) && Touches(last, keyId)) {
      if last.InductedManifest? {
        SnapshotInstalls(last.at.manifest.producerKeys, last.at.entryIndex, keyId);
      }
    } else {
      TrailPrefix(trail);
      k := BoundToLastInstaller(trail[..|trail| - 1], index, keyId);
    }
  }

  /** The last entry a manifest declares for a key. */
  ghost predicate LastDeclared(declared: seq<(string, string)>, j: nat, keyId: string) {
    && j < |declared| && declared[j].0 == keyId
    && forall i :: j < i < |declared| ==> declared[i].0 != keyId
  }

  lemma {:induction false} SnapshotHas(declared: seq<(string, string)>, at: nat, keyId: string)
    ensures keyId in Snapshot(declared, at) <==> exists j :: 0 <= j < |declared| && declared[j].0 == keyId
  {
    if declared != [] {
      SnapshotHas(declared[..|declared| - 1], at, keyId);
    }
  }

  lemma {:induction false} SnapshotGives(declared: seq<(string, string)>, at: nat, keyId: string, j: nat)
    requires LastDeclared(declared, j, keyId)
    ensures keyId in Snapshot(declared, at) && Snapshot(declared, at)[keyId] == BoundKey(declared[j].1, at)
  {
    var before := declared[..|declared| - 1];
    if j < |before| {
      assert LastDeclared(before, j, keyId);
      SnapshotGives(before, at, keyId, j);
      assert declared[|declared| - 1].0 != keyId;
    }
  }

  /**
   * The statement that decides about a key at an index: the last one in force there that is a manifest or an event for
   * the key. The first manifest is in force everywhere, a later one after its own index, an event from its index on.
   */
  ghost predicate Decides(trail: seq<Inducted>, index: nat, keyId: string, k: nat) {
    && k < |trail|
    && match trail[k] {
      case InductedManifest(at) => k == 0 || at.entryIndex < index
      case InductedKey(event, _) => event.keyId == keyId && event.entryIndex <= index
    }
    && forall j :: k < j < |trail| ==>
      match trail[j]
      case InductedManifest(at) => at.entryIndex >= index
      case InductedKey(event, _) => event.keyId == keyId ==> event.entryIndex > index
  }

  /** What it decides: an added key and a declared one are in force with their value and binding, any other is not. */
  ghost predicate DecidedAs(keys: Keys, s: Inducted, keyId: string) {
    match s
    case InductedKey(event, _) =>
      if event.added then keyId in keys && keys[keyId] == BoundKey(event.pubkey, event.entryIndex)
      else keyId !in keys
    case InductedManifest(at) =>
      && (keyId in keys <==> exists j :: 0 <= j < |at.manifest.producerKeys| && at.manifest.producerKeys[j].0 == keyId)
      && forall j: nat :: LastDeclared(at.manifest.producerKeys, j, keyId) ==>
        keyId in keys && keys[keyId] == BoundKey(at.manifest.producerKeys[j].1, at.entryIndex)
  }

  lemma {:induction false} MachineDecides(trail: seq<Inducted>, index: nat, keyId: string, k: nat)
    requires Trail(trail) && Decides(trail, index, keyId, k)
    ensures DecidedAs(Machine(trail, index), trail[k], keyId)
    decreases |trail|
  {
    var last := trail[|trail| - 1];
    if k == |trail| - 1 {
      if last.InductedManifest? {
        var (declared, at) := (last.at.manifest.producerKeys, last.at.entryIndex);
        SnapshotHas(declared, at, keyId);
        forall j: nat | LastDeclared(declared, j, keyId)
          ensures keyId in Snapshot(declared, at) && Snapshot(declared, at)[keyId] == BoundKey(declared[j].1, at)
        {
          SnapshotGives(declared, at, keyId, j);
        }
      }
    } else {
      TrailPrefix(trail);
      var before := trail[..|trail| - 1];
      assert Decides(before, index, keyId, k);
      MachineDecides(before, index, keyId, k);
    }
  }

  lemma {:induction false} SomethingDecides(trail: seq<Inducted>, index: nat, keyId: string) returns (k: nat)
    requires Trail(trail)
    ensures Decides(trail, index, keyId, k)
    decreases |trail|
  {
    k := |trail| - 1;
    if !Decides(trail, index, keyId, k) {
      TrailPrefix(trail);
      k := SomethingDecides(trail[..|trail| - 1], index, keyId);
    }
  }

  /** Which keys the lookup finds in force, with which value and binding: what the deciding statement says. */
  lemma KeysInForceIff(trail: seq<Inducted>, index: nat, keyId: string) returns (k: nat)
    requires Trail(trail)
    ensures Decides(trail, index, keyId, k)
    ensures DecidedAs(KeysAt(ManifestsOf(trail), EventsOf(trail), index), trail[k], keyId)
  {
    k := SomethingDecides(trail, index, keyId);
    MachineDecides(trail, index, keyId, k);
    LookupIsMachine(trail, index);
  }

  // ---------------------------------------------------------------------------
  // Which manifest counts
  // ---------------------------------------------------------------------------

  /** The snapshot at an index is the manifest with the greatest index below it, or the first where there is none. */
  lemma {:induction false} SnapshotManifestIs(manifests: seq<ManifestAt>, index: nat) returns (k: nat)
    requires manifests != []
    ensures k < |manifests| && SnapshotManifest(manifests, index) == Some(manifests[k])
    ensures k == 0 || manifests[k].entryIndex < index
    ensures forall j :: k < j < |manifests| ==> manifests[j].entryIndex >= index
    decreases |manifests|
  {
    k := |manifests| - 1;
    if manifests[k].entryIndex >= index && k > 0 {
      k := SnapshotManifestIs(manifests[..|manifests| - 1], index);
    }
  }

  // ---------------------------------------------------------------------------
  // Later statements
  // ---------------------------------------------------------------------------

  lemma {:induction false} LaterManifests(manifests: seq<ManifestAt>, later: seq<ManifestAt>, index: nat)
    requires manifests != [] && forall m :: m in later ==> index <= m.entryIndex
    ensures SnapshotManifest(manifests + later, index) == SnapshotManifest(manifests, index)
    decreases |later|
  {
    if later == [] {
      assert manifests + later == manifests;
    } else {
      var all, rest := manifests + later, later[..|later| - 1];
      assert all[..|all| - 1] == manifests + rest && all[|all| - 1] == later[|later| - 1];
      assert later[|later| - 1] in later;
      LaterManifests(manifests, rest, index);
    }
  }

  lemma {:induction false} LaterEvents(keys: Keys, events: seq<KeyEvent>, later: seq<KeyEvent>, after: nat, index: nat)
    requires forall e :: e in later ==> index < e.entryIndex
    ensures ApplyBetween(keys, events + later, after, index) == ApplyBetween(keys, events, after, index)
    decreases |later|
  {
    if later == [] {
      assert events + later == events;
    } else {
      var all, rest := events + later, later[..|later| - 1];
      assert all[..|all| - 1] == events + rest && all[|all| - 1] == later[|later| - 1];
      assert later[|later| - 1] in later;
      LaterEvents(keys, events, rest, after, index);
    }
  }

  /** Statements anchored later than an index change nothing at it. */
  lemma LaterChangesNothing(
      manifests: seq<ManifestAt>, laterManifests: seq<ManifestAt>, events: seq<KeyEvent>, laterEvents: seq<KeyEvent>,
      index: nat)
    requires manifests != []
    requires forall m :: m in laterManifests ==> index <= m.entryIndex
    requires forall e :: e in laterEvents ==> index < e.entryIndex
    ensures KeysAt(manifests + laterManifests, events + laterEvents, index) == KeysAt(manifests, events, index)
    ensures SnapshotManifest(manifests + laterManifests, index) == SnapshotManifest(manifests, index)
  {
    LaterManifests(manifests, laterManifests, index);
    SnapshotIsOneOf(manifests, index);
    var m := SnapshotManifest(manifests, index).value;
    LaterEvents(Snapshot(m.manifest.producerKeys, m.entryIndex), events, laterEvents, m.entryIndex, index);
  }
}
