/** The sweep that checks an envelope's signatures. */
module Statements {
  import opened Basics
  import opened Envelopes

  // ---------------------------------------------------------------------------
  // The envelope check
  // ---------------------------------------------------------------------------

  datatype EnvelopeCheck = Verified | SignatureInvalid | KeyNotResolved(keyId: string)

  datatype EnvelopeError = MissingField | Undecodable

  /** Whether a signature verifies over a payload under a key; `None` where the key or the signature does not decode. */
  type Verifier = (string, Payload, string) -> Option<bool>

  type PublicKeys = map<string, string>

  /** One entry against the key state: unresolved, verifying, not verifying, or unreadable. */
  datatype EntryOutcome = Unresolved(keyId: string) | Verifies | DoesNotVerify | Unreadable(error: EnvelopeError)

  function Outcome(verify: Verifier, payload: Payload, keys: PublicKeys, entry: SignatureEntry): EntryOutcome {
    if entry.keyId.None? || entry.sig.None? then Unreadable(MissingField)
    else if entry.keyId.value !in keys then Unresolved(entry.keyId.value)
    else
      var verified := verify(keys[entry.keyId.value], payload, entry.sig.value);
      if verified.None? then Unreadable(Undecodable)
      else if verified.value then Verifies
      else DoesNotVerify
  }

  /** The sweep over the first `n` entries: still going with the first unresolved key, or ended early. */
  datatype Sweep = Going(unresolved: Option<string>) | Ended(result: Result<EnvelopeCheck, EnvelopeError>)

  function SweepOver(verify: Verifier, payload: Payload, keys: PublicKeys, entries: seq<SignatureEntry>, n: nat): Sweep
    requires n <= |entries|
    decreases n
  {
    if n == 0 then Going(None)
    else
      var earlier := SweepOver(verify, payload, keys, entries, n - 1);
      if earlier.Ended? then earlier
      else match Outcome(verify, payload, keys, entries[n - 1])
        case Unreadable(error) => Ended(Err(error))
        case DoesNotVerify => Ended(Ok(SignatureInvalid))
        case Unresolved(keyId) => if earlier.unresolved.None? then Going(Some(keyId)) else earlier
        case Verifies => earlier
  }

  function CheckResult(verify: Verifier, env: Envelope, keys: PublicKeys): Result<EnvelopeCheck, EnvelopeError> {
    if env.payload.None? || env.signatures.None? then Err(MissingField)
    else if env.signatures.value == [] then Ok(SignatureInvalid)
    else match SweepOver(verify, env.payload.value, keys, env.signatures.value, |env.signatures.value|)
      case Ended(result) => result
      case Going(unresolved) => Ok(if unresolved.None? then Verified else KeyNotResolved(unresolved.value))
  }

  method CheckEnvelope(verify: Verifier, env: Envelope, keys: PublicKeys)
    returns (r: Result<EnvelopeCheck, EnvelopeError>)
    ensures r == CheckResult(verify, env, keys)
  {
    if env.payload.None? || env.signatures.None? {
      return Err(MissingField);
    }
    var payload, entries := env.payload.value, env.signatures.value;
    if entries == [] {
      return Ok(SignatureInvalid);
    }
    var unresolved: Option<string> := None;
    for i := 0 to |entries|
      invariant SweepOver(verify, payload, keys, entries, i) == Going(unresolved)
    {
      var entry := entries[i];
      if entry.keyId.None? || entry.sig.None? {
        SweepEnds(verify, payload, keys, entries, i + 1, |entries|);
        return Err(MissingField);
      }
      if entry.keyId.value !in keys {
        if unresolved.None? {
          unresolved := Some(entry.keyId.value);
        }
        continue;
      }
      var verified := verify(keys[entry.keyId.value], payload, entry.sig.value);
      if verified.None? {
        SweepEnds(verify, payload, keys, entries, i + 1, |entries|);
        return Err(Undecodable);
      }
      if !verified.value {
        SweepEnds(verify, payload, keys, entries, i + 1, |entries|);
        return Ok(SignatureInvalid);
      }
    }
    return Ok(if unresolved.None? then Verified else KeyNotResolved(unresolved.value));
  }

  lemma {:induction false} SweepEnds(
      verify: Verifier, payload: Payload, keys: PublicKeys, entries: seq<SignatureEntry>, m: nat, n: nat)
    requires m <= n <= |entries| && SweepOver(verify, payload, keys, entries, m).Ended?
    ensures SweepOver(verify, payload, keys, entries, n) == SweepOver(verify, payload, keys, entries, m)
    decreases n
  {
    if m < n {
      SweepEnds(verify, payload, keys, entries, m, n - 1);
    }
  }

  ghost predicate Readable(verify: Verifier, payload: Payload, keys: PublicKeys, entries: seq<SignatureEntry>) {
    forall e :: e in entries ==> !Outcome(verify, payload, keys, e).Unreadable?
  }

  /** The sweep over readable entries, said without it: a bad signature anywhere, else a missing key anywhere. */
  lemma {:induction false} SweepMeaning(
      verify: Verifier, payload: Payload, keys: PublicKeys, entries: seq<SignatureEntry>, n: nat)
    requires n <= |entries| && Readable(verify, payload, keys, entries)
    ensures var s := SweepOver(verify, payload, keys, entries, n);
      if exists e :: e in entries[..n] && Outcome(verify, payload, keys, e) == DoesNotVerify
      then s == Ended(Ok(SignatureInvalid))
      else s.Going? && (s.unresolved.Some? <==>
        exists e :: e in entries[..n] && Outcome(verify, payload, keys, e).Unresolved?)
    decreases n
  {
    if n > 0 {
      SweepMeaning(verify, payload, keys, entries, n - 1);
      assert entries[..n] == entries[..n - 1] + [entries[n - 1]];
      assert entries[n - 1] in entries;
      assert entries[n - 1] in entries[..n];
    }
  }

  /**
   * An envelope verifies exactly when it has signatures and every one resolves and verifies; a bad one outranks a
   * missing key.
   */
  lemma CheckMeaning(verify: Verifier, env: Envelope, keys: PublicKeys)
    requires env.payload.Some? && env.signatures.Some?
    requires Readable(verify, env.payload.value, keys, env.signatures.value)
    ensures var (p, entries, r) := (env.payload.value, env.signatures.value, CheckResult(verify, env, keys));
      && (r == Ok(Verified) <==> entries != [] && forall e :: e in entries ==> Outcome(verify, p, keys, e) == Verifies)
      && (r == Ok(SignatureInvalid) <==>
            entries == [] || exists e :: e in entries && Outcome(verify, p, keys, e) == DoesNotVerify)
      && (r.Ok? && r.value.KeyNotResolved? <==>
            && (forall e :: e in entries ==> Outcome(verify, p, keys, e) != DoesNotVerify)
            && (exists e :: e in entries && Outcome(verify, p, keys, e).Unresolved?))
  {
    var entries := env.signatures.value;
    SweepMeaning(verify, env.payload.value, keys, entries, |entries|);
    assert entries[..|entries|] == entries;
  }

  /** Verified, entry by entry: there is one, and each names a key of the map that the signature verifies under. */
  lemma VerifiedIff(verify: Verifier, env: Envelope, keys: PublicKeys)
    requires env.payload.Some? && env.signatures.Some?
    ensures CheckResult(verify, env, keys) == Ok(Verified) <==>
      && env.signatures.value != []
      && forall e :: e in env.signatures.value ==>
        && e.keyId.Some? && e.sig.Some? && e.keyId.value in keys
        && verify(keys[e.keyId.value], env.payload.value, e.sig.value) == Some(true)
  {
    var (payload, entries) := (env.payload.value, env.signatures.value);
    SweepVerifies(verify, payload, keys, entries, |entries|);
    assert entries[..|entries|] == entries;
  }

  /** The sweep goes on with nothing unresolved exactly where every entry so far verifies. */
  lemma {:induction false} SweepVerifies(
      verify: Verifier, payload: Payload, keys: PublicKeys, entries: seq<SignatureEntry>, n: nat)
    requires n <= |entries|
    ensures SweepOver(verify, payload, keys, entries, n) == Going(None) <==>
      forall e :: e in entries[..n] ==>
        && e.keyId.Some? && e.sig.Some? && e.keyId.value in keys
        && verify(keys[e.keyId.value], payload, e.sig.value) == Some(true)
    ensures SweepOver(verify, payload, keys, entries, n) != Ended(Ok(Verified))
    decreases n
  {
    if n > 0 {
      SweepVerifies(verify, payload, keys, entries, n - 1);
      assert entries[..n] == entries[..n - 1] + [entries[n - 1]];
    }
  }

  // ---------------------------------------------------------------------------
  // The order of the signatures
  // ---------------------------------------------------------------------------

  /** What a check comes to, whichever key or field it names. */
  datatype Verdict = Refused | Invalid | ShortOfKey | Valid

  function VerdictOf(r: Result<EnvelopeCheck, EnvelopeError>): Verdict {
    match r
    case Err(_) => Refused
    case Ok(SignatureInvalid) => Invalid
    case Ok(KeyNotResolved(_)) => ShortOfKey
    case Ok(Verified) => Valid
  }

  function Check(verify: Verifier, payload: Payload, keys: PublicKeys, entries: seq<SignatureEntry>): Verdict {
    VerdictOf(CheckResult(verify, Envelope(Some(payload), Some(entries), "", "", ""), keys))
  }

  ghost predicate HasBad(verify: Verifier, payload: Payload, keys: PublicKeys, entries: seq<SignatureEntry>) {
    exists e :: e in entries && Outcome(verify, payload, keys, e) == DoesNotVerify
  }

  lemma {:induction false} UnreadableRefuses(
      verify: Verifier, payload: Payload, keys: PublicKeys, entries: seq<SignatureEntry>, n: nat)
    requires n <= |entries| && !HasBad(verify, payload, keys, entries)
    ensures var s := SweepOver(verify, payload, keys, entries, n);
      if exists e :: e in entries[..n] && Outcome(verify, payload, keys, e).Unreadable?
      then s.Ended? && s.result.Err?
      else s.Going?
    decreases n
  {
    if n > 0 {
      UnreadableRefuses(verify, payload, keys, entries, n - 1);
      assert entries[..n] == entries[..n - 1] + [entries[n - 1]];
      assert entries[n - 1] in entries;
    }
  }

  /** The first entry decides alone where it is bad or unreadable. */
  lemma FirstDecides(
      verify: Verifier, payload: Payload, keys: PublicKeys, first: SignatureEntry, rest: seq<SignatureEntry>)
    ensures Outcome(verify, payload, keys, first).Unreadable? ==>
      Check(verify, payload, keys, [first] + rest) == Refused
    ensures Outcome(verify, payload, keys, first) == DoesNotVerify ==>
      Check(verify, payload, keys, [first] + rest) == Invalid
  {
    var entries := [first] + rest;
    assert SweepOver(verify, payload, keys, entries, 0) == Going(None);
    if SweepOver(verify, payload, keys, entries, 1).Ended? {
      SweepEnds(verify, payload, keys, entries, 1, |entries|);
    }
  }

  lemma SameMembersSameVerdict(
      verify: Verifier, payload: Payload, keys: PublicKeys, a: seq<SignatureEntry>, b: seq<SignatureEntry>)
    requires (forall e :: e in a <==> e in b) && (a == [] <==> b == [])
    requires !HasBad(verify, payload, keys, a) || Readable(verify, payload, keys, a)
    ensures Check(verify, payload, keys, a) == Check(verify, payload, keys, b)
  {
    if Readable(verify, payload, keys, a) {
      CheckMeaning(verify, Envelope(Some(payload), Some(a), "", "", ""), keys);
      CheckMeaning(verify, Envelope(Some(payload), Some(b), "", "", ""), keys);
    } else {
      var e :| e in a && Outcome(verify, payload, keys, e).Unreadable?;
      UnreadableRefuses(verify, payload, keys, a, |a|);
      UnreadableRefuses(verify, payload, keys, b, |b|);
      assert a[..|a|] == a && b[..|b|] == b;
    }
  }

  lemma Rearranged(entries: seq<SignatureEntry>, e: SignatureEntry) returns (rest: seq<SignatureEntry>)
    requires e in entries
    ensures multiset([e] + rest) == multiset(entries)
  {
    var i :| 0 <= i < |entries| && entries[i] == e;
    rest := entries[..i] + entries[i + 1..];
    assert entries == entries[..i] + [e] + entries[i + 1..];
  }

  lemma SameMembers(a: seq<SignatureEntry>, b: seq<SignatureEntry>)
    requires multiset(a) == multiset(b)
    ensures (forall e :: e in a <==> e in b) && (a == [] <==> b == [])
  {
    assert |a| == |multiset(a)| == |multiset(b)| == |b|;
    forall e ensures e in a <==> e in b {
      assert e in a <==> e in multiset(a);
      assert e in b <==> e in multiset(b);
    }
  }

  /** A bad signature beside an entry without one: which of the two stands first decides what the check comes to. */
  lemma OrderCanMatter(verify: Verifier, payload: Payload, pubkey: string, sig: string)
    requires verify(pubkey, payload, sig) == Some(false)
    ensures var (bad, unreadable) := (SignatureEntry(Some("k"), Some(sig)), SignatureEntry(Some("k"), None));
      && Check(verify, payload, map["k" := pubkey], [bad, unreadable]) == Invalid
      && Check(verify, payload, map["k" := pubkey], [unreadable, bad]) == Refused
  {
    var (bad, unreadable) := (SignatureEntry(Some("k"), Some(sig)), SignatureEntry(Some("k"), None));
    assert [bad] + [unreadable] == [bad, unreadable] && [unreadable] + [bad] == [unreadable, bad];
    FirstDecides(verify, payload, map["k" := pubkey], bad, [unreadable]);
    FirstDecides(verify, payload, map["k" := pubkey], unreadable, [bad]);
  }

  /** The order the producer wrote the signatures in never matters, unless one is bad and another unreadable. */
  lemma OrderIrrelevantIff(verify: Verifier, payload: Payload, keys: PublicKeys, entries: seq<SignatureEntry>)
    ensures (forall other :: multiset(other) == multiset(entries) ==>
        Check(verify, payload, keys, other) == Check(verify, payload, keys, entries))
      <==> !HasBad(verify, payload, keys, entries) || Readable(verify, payload, keys, entries)
  {
    if !HasBad(verify, payload, keys, entries) || Readable(verify, payload, keys, entries) {
      forall other | multiset(other) == multiset(entries)
        ensures Check(verify, payload, keys, other) == Check(verify, payload, keys, entries)
      {
        SameMembers(entries, other);
        SameMembersSameVerdict(verify, payload, keys, entries, other);
      }
    } else {
      var bad :| bad in entries && Outcome(verify, payload, keys, bad) == DoesNotVerify;
      var unreadable :| unreadable in entries && Outcome(verify, payload, keys, unreadable).Unreadable?;
      var a := Rearranged(entries, bad);
      var b := Rearranged(entries, unreadable);
      FirstDecides(verify, payload, keys, bad, a);
      FirstDecides(verify, payload, keys, unreadable, b);
    }
  }
}
