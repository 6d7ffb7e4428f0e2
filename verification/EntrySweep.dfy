/** The sweep over enumerated entries: which of them are void or set aside under the governance state. */
module EntrySweep {
  import opened Basics
  import opened Envelopes
  import opened Statements
  import opened KeyState
  import opened Governance
  import opened GovernanceWalk
  import opened GovernanceLaws
  import opened GovernanceAgreement

  // ---------------------------------------------------------------------------
  // One entry
  // ---------------------------------------------------------------------------

  /** What becomes of an enumerated entry: exempt, void, set aside for its revision, or read. */
  datatype Standing = Exempt | Void(reason: VoidReason) | SetAside | Read

  /** An envelope against the completed key state, at its own index. */
  function CheckAt(verify: Verifier, g: Governance, env: Envelope, index: nat): Result<EnvelopeCheck, EnvelopeError> {
    CheckResult(verify, env, PublicKeysOf(KeysAt(g.manifests, g.events, index)))
  }

  /** The standing of the entry at an index: `direct` holds the indexes verified before the sweep. */
  function StandingOf(verify: Verifier, g: Governance, direct: set<nat>, env: Envelope, index: nat)
    : Result<Standing, Error>
  {
    if index in g.walkedIndexes || index in direct then Ok(Exempt)
    else match CheckAt(verify, g, env, index)
      case Err(error) => Err(EnvelopeUnreadable(error))
      case Ok(SignatureInvalid) => Ok(Void(VoidSignature))
      case Ok(KeyNotResolved(_)) => Ok(Void(VoidKey))
      case Ok(Verified) =>
        if env.payload.value.version.Foreign? then Ok(SetAside)
        else if !env.payload.value.commonFieldsOk then Err(Malformed)
        else Ok(Read)
  }

  /**
   * No later step may read the entry: the walk did not take it in, and it fails its check or is of a foreign revision.
   */
  predicate Excluded(verify: Verifier, g: Governance, direct: set<nat>, env: Envelope, index: nat) {
    && index !in g.walkedIndexes && index !in direct
    && var check := CheckResult(verify, env, PublicKeysOf(KeysAt(g.manifests, g.events, index)));
       check.Ok? && (check.value == Verified ==> env.payload.value.version.Foreign?)
  }

  /** The sweep can go on past the entry: it is exempt, or can be checked and, if it is to be read, has its fields. */
  predicate CanSettle(verify: Verifier, g: Governance, direct: set<nat>, env: Envelope, index: nat) {
    || index in g.walkedIndexes
    || index in direct
    || var check := CheckResult(verify, env, PublicKeysOf(KeysAt(g.manifests, g.events, index)));
       && check.Ok?
       && (check.value == Verified && !env.payload.value.version.Foreign? ==> env.payload.value.commonFieldsOk)
  }

  // ---------------------------------------------------------------------------
  // The sweep
  // ---------------------------------------------------------------------------

  /** The indexes a sweep recorded as void, and those it set aside. */
  datatype Swept = Swept(voids: set<nat>, setAside: set<nat>)

  function Noted(swept: Swept, standing: Standing, index: nat): Swept {
    match standing
    case Void(_) => swept.(voids := swept.voids + {index})
    case SetAside => swept.(setAside := swept.setAside + {index})
    case _ => swept
  }

  /** The sweep over the first `n` entries of a range that starts at `from`. */
  function SweepOf(verify: Verifier, g: Governance, direct: set<nat>, from: nat, entries: seq<Envelope>, n: nat)
    : Result<Swept, Error>
    requires n <= |entries|
  {
    if n == 0 then Ok(Swept({}, {}))
    else
      var earlier := SweepOf(verify, g, direct, from, entries, n - 1);
      if earlier.Err? then earlier else
      var standing := StandingOf(verify, g, direct, entries[n - 1], from + n - 1);
      if standing.Err? then Err(standing.error) else Ok(Noted(earlier.value, standing.value, from + n - 1))
  }

  /** The standing of an entry the sweep reaches, read off the envelope check. */
  method EvaluateEnvelopeAt(verify: Verifier, g: Governance, env: Envelope, index: nat)
    returns (r: Result<Option<VoidReason>, Error>)
    ensures r == match CheckAt(verify, g, env, index)
      case Err(error) => Err(EnvelopeUnreadable(error))
      case Ok(SignatureInvalid) => Ok(Some(VoidSignature))
      case Ok(KeyNotResolved(_)) => Ok(Some(VoidKey))
      case Ok(Verified) => Ok(None)
  {
    var keys := ProducerKeysAt(g.manifests, g.events, index);
    var check := CheckEnvelope(verify, env, PublicKeysOf(keys));
    match check {
      case Err(error) => r := Err(EnvelopeUnreadable(error));
      case Ok(SignatureInvalid) => r := Ok(Some(VoidSignature));
      case Ok(KeyNotResolved(_)) => r := Ok(Some(VoidKey));
      case Ok(Verified) => r := Ok(None);
    }
  }

  method VerifyEnumeratedEnvelopes(
      verify: Verifier, g: Governance, direct: set<nat>, from: u64, entries: seq<Envelope>)
    returns (r: Result<Swept, Error>)
    requires from + |entries| <= TWO_64
    ensures r == SweepOf(verify, g, direct, from, entries, |entries|)
  {
    var voids: set<nat>, setAside: set<nat> := {}, {};
    for offset := 0 to |entries|
      invariant SweepOf(verify, g, direct, from, entries, offset) == Ok(Swept(voids, setAside))
    {
      var index := SaturatingAdd(from, offset);
      if index in g.walkedIndexes || index in direct {
        continue;
      }
      var evaluated := EvaluateEnvelopeAt(verify, g, entries[offset], index);
      if evaluated.Err? {
        SweepErrorSticks(verify, g, direct, from, entries, offset + 1, |entries|);
        return Err(evaluated.error);
      }
      if evaluated.value.Some? {
        voids := voids + {index};
        continue;
      }
      var payload := entries[offset].payload.value;
      if payload.version.Foreign? {
        setAside := setAside + {index};
        continue;
      }
      if !payload.commonFieldsOk {
        SweepErrorSticks(verify, g, direct, from, entries, offset + 1, |entries|);
        return Err(Malformed);
      }
    }
    return Ok(Swept(voids, setAside));
  }

  lemma {:induction false} SweepErrorSticks(
      verify: Verifier, g: Governance, direct: set<nat>, from: nat, entries: seq<Envelope>, m: nat, n: nat)
    requires m <= n <= |entries| && SweepOf(verify, g, direct, from, entries, m).Err?
    ensures SweepOf(verify, g, direct, from, entries, n) == SweepOf(verify, g, direct, from, entries, m)
    decreases n
  {
    if m < n {
      SweepErrorSticks(verify, g, direct, from, entries, m, n - 1);
    }
  }

  /** A sweep comes to its end exactly where no entry it reaches fails outright. */
  lemma {:induction false} SweepEndsIff(
      verify: Verifier, g: Governance, direct: set<nat>, from: nat, entries: seq<Envelope>, n: nat)
    requires n <= |entries|
    ensures SweepOf(verify, g, direct, from, entries, n).Ok? <==>
      forall k :: 0 <= k < n ==> CanSettle(verify, g, direct, entries[k], from + k)
  {
    if n > 0 {
      SweepEndsIff(verify, g, direct, from, entries, n - 1);
    }
  }

  /** What it then holds, as void or set aside, is exactly the entries no later step may read. */
  lemma {:induction false} SweepMeaning(
      verify: Verifier, g: Governance, direct: set<nat>, from: nat, entries: seq<Envelope>, n: nat, i: nat)
    requires n <= |entries| && SweepOf(verify, g, direct, from, entries, n).Ok?
    ensures var swept := SweepOf(verify, g, direct, from, entries, n).value;
      i in swept.voids || i in swept.setAside <==>
        from <= i < from + n && Excluded(verify, g, direct, entries[i - from], i)
  {
    if n > 0 {
      SweepMeaning(verify, g, direct, from, entries, n - 1, i);
      StandingIsExclusion(verify, g, direct, entries[n - 1], from + n - 1);
    }
  }

  lemma StandingIsExclusion(verify: Verifier, g: Governance, direct: set<nat>, env: Envelope, index: nat)
    requires StandingOf(verify, g, direct, env, index).Ok?
    ensures var standing := StandingOf(verify, g, direct, env, index).value;
      standing.Void? || standing.SetAside? <==> Excluded(verify, g, direct, env, index)
  {
  }

  // ---------------------------------------------------------------------------
  // The walk and the sweep
  // ---------------------------------------------------------------------------

  predicate IsKeyStatement(env: Envelope) {
    env.payload.Some? && env.payload.value.kind.KeyStatement?
  }

  /** The `key` statements among the first `n` entries of the log: the second stream of the walk. */
  function EnumeratedKeys(entries: seq<Envelope>, n: nat): seq<Hop>
    requires n <= |entries|
  {
    if n == 0 then []
    else
      var earlier := EnumeratedKeys(entries, n - 1);
      if IsKeyStatement(entries[n - 1]) then earlier + [Hop(n - 1, entries[n - 1])] else earlier
  }

  lemma {:induction false} EnumeratedKeysAre(entries: seq<Envelope>, n: nat, hop: Hop)
    requires n <= |entries|
    ensures hop in EnumeratedKeys(entries, n) <==>
      hop.entryIndex < n && IsKeyStatement(hop.envelope) && entries[hop.entryIndex] == hop.envelope
  {
    if n > 0 {
      EnumeratedKeysAre(entries, n - 1, hop);
    }
  }

  predicate FailsUnder(c: Checks, trail: seq<Inducted>, hop: Hop) {
    PhaseOne(c, trail, hop).Ok? && PhaseOne(c, trail, hop).value != Verified
  }

  /** A statement of the second stream that the walk did not take in, and that fails its check under the final keys. */
  ghost predicate Passed(c: Checks, keyStatements: seq<Hop>, w: Walk, index: nat) {
    && index !in w.walkedIndexes
    && exists hop :: hop in keyStatements && hop.entryIndex == index && FailsUnder(c, w.trail, hop)
  }

  ghost predicate WalkedUpTo(c: Checks, w: Walk) {
    && Sound(c, w)
    && forall i :: i in w.walkedIndexes ==> i <= w.walkedIndex
  }

  /** What one iteration records as void is the statement it met, which left the trail and the indexes as they were. */
  lemma VoidedByStep(c: Checks, m: Material, w: Walk, v: (nat, VoidReason))
    requires More(m, w) && Step(c, m, w).Continue? && v in Step(c, m, w).walk.voids && v !in w.voids
    ensures TakesKey(m, w) && v.0 == m.keyStatements[w.keyCursor].entryIndex == NextIndex(m, w)
    ensures Step(c, m, w).walk.trail == w.trail && Step(c, m, w).walk.walkedIndexes == w.walkedIndexes
    ensures FailsUnder(c, w.trail, m.keyStatements[w.keyCursor])
  {
  }

  lemma LaterLeavesKeys(trail: seq<Inducted>, longer: seq<Inducted>, index: nat)
    requires ManifestsOf(trail) != [] && AppendsAfter(trail, longer, index)
    ensures KeysAt(ManifestsOf(longer), EventsOf(longer), index) == KeysAt(ManifestsOf(trail), EventsOf(trail), index)
  {
    ProjectionsExtend(trail, longer, index + 1);
    var (m0, m1, e0, e1) := (ManifestsOf(trail), ManifestsOf(longer), EventsOf(trail), EventsOf(longer));
    assert m0 + m1[|m0|..] == m1 && e0 + e1[|e0|..] == e1;
    LaterChangesNothing(m0, m1[|m0|..], e0, e1[|e0|..], index);
  }

  /** The keys at the index a walk stands at are settled: the rest of the walk does not change them. */
  lemma KeysSettled(c: Checks, m: Material, w: Walk, hop: Hop)
    requires InRange(m, w) && RunFrom(c, m, w).Ok? && ManifestsOf(w.trail) != [] && hop.entryIndex == w.walkedIndex
    ensures PhaseOne(c, RunFrom(c, m, w).value.walk.trail, hop) == PhaseOne(c, w.trail, hop)
  {
    RunExtends(c, m, w);
    LaterLeavesKeys(w.trail, RunFrom(c, m, w).value.walk.trail, hop.entryIndex);
  }

  /** Whatever the walk recorded as void on the way stays so under the keys it ends with. */
  lemma {:induction false} VoidsStayVoid(c: Checks, m: Material, w: Walk, v: (nat, VoidReason))
    requires InRange(m, w) && WalkedUpTo(c, w) && RunFrom(c, m, w).Ok?
    requires v in RunFrom(c, m, w).value.walk.voids
    ensures v in w.voids || Passed(c, m.keyStatements, RunFrom(c, m, w).value.walk, v.0)
    decreases Left(m, w)
  {
    if More(m, w) {
      if Step(c, m, w).Continue? {
        var next := Step(c, m, w).walk;
        StepKeepsUpTo(c, m, w);
        VoidsStayVoid(c, m, next, v);
        if v in next.voids && v !in w.voids {
          NewVoidIsPassed(c, m, w, v);
        }
      } else {
        StopKeepsVoids(c, m, w);
      }
    }
  }

  lemma StopKeepsVoids(c: Checks, m: Material, w: Walk)
    requires More(m, w) && Step(c, m, w).Stop?
    ensures Step(c, m, w).walk.voids == w.voids
  {
  }

  lemma StepKeepsUpTo(c: Checks, m: Material, w: Walk)
    requires More(m, w) && WalkedUpTo(c, w) && Step(c, m, w).Continue?
    ensures WalkedUpTo(c, Step(c, m, w).walk)
  {
    StepMoves(c, m, w);
    StepKeepsSound(c, m, w);
  }

  lemma NewVoidIsPassed(c: Checks, m: Material, w: Walk, v: (nat, VoidReason))
    requires InRange(m, w) && More(m, w) && WalkedUpTo(c, w) && Step(c, m, w).Continue?
    requires v in Step(c, m, w).walk.voids && v !in w.voids && RunFrom(c, m, Step(c, m, w).walk).Ok?
    ensures Passed(c, m.keyStatements, RunFrom(c, m, Step(c, m, w).walk).value.walk, v.0)
  {
    var next := Step(c, m, w).walk;
    StepMoves(c, m, w);
    VoidedByStep(c, m, w, v);
    RunWalksOn(c, m, next);
    KeysSettled(c, m, next, m.keyStatements[w.keyCursor]);
  }

  /**
   * The walk and the sweep agree: an entry the walk recorded as void is one that the sweep over the same entries,
   * under the completed keys, excludes.
   */
  lemma WalkVoidsAreExcluded(
      c: Checks, receipt: Carried, policy: Policy, log: seq<Envelope>, n: nat, declared: bool, profileHeld: bool,
      v: (nat, VoidReason))
    requires n <= |log|
    requires Established(c, receipt, policy, EnumeratedKeys(log, n), declared, profileHeld).Ok?
    requires v in Established(c, receipt, policy, EnumeratedKeys(log, n), declared, profileHeld).value.voids
    ensures v.0 < n
    ensures Excluded(
      c.verify, Established(c, receipt, policy, EnumeratedKeys(log, n), declared, profileHeld).value, {}, log[v.0], v.0)
  {
    var keys := EnumeratedKeys(log, n);
    var (m, start) := (MaterialOf(receipt, keys, declared, profileHeld), Start(GenesisOf(receipt)));
    StartIsSound(c, GenesisOf(receipt));
    VoidsStayVoid(c, m, start, v);
    var end := RunFrom(c, m, start).value.walk;
    var hop :| hop in keys && hop.entryIndex == v.0 && FailsUnder(c, end.trail, hop);
    EnumeratedKeysAre(log, n, hop);
  }

  // ---------------------------------------------------------------------------
  // With and without an adaptor profile
  // ---------------------------------------------------------------------------

  /** Wherever the lesser verifier calls its state established, the greater one gives the entry the same standing. */
  lemma StandingAgrees(
      verify: Verifier, less: Governance, more: Governance, direct: set<nat>, env: Envelope, index: nat)
    requires less.manifests != [] && EstablishedAt(less, index)
    requires PartOf(less, more)
    ensures StandingOf(verify, more, direct, env, index) == StandingOf(verify, less, direct, env, index)
  {
    EstablishedStateAgrees(less, more, index);
  }

  /** So their sweeps over entries committed by a checkpoint of an established size agree. */
  lemma {:induction false} SweepsAgree(
      verify: Verifier, less: Governance, more: Governance, direct: set<nat>, from: nat, entries: seq<Envelope>, n: nat)
    requires less.manifests != [] && n <= |entries|
    requires n > 0 ==> EstablishedAt(less, from + n - 1)
    requires PartOf(less, more)
    ensures SweepOf(verify, more, direct, from, entries, n) == SweepOf(verify, less, direct, from, entries, n)
  {
    if n > 0 {
      SweepsAgree(verify, less, more, direct, from, entries, n - 1);
      StandingAgrees(verify, less, more, direct, entries[n - 1], from + n - 1);
    }
  }
}
