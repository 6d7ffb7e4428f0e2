/** Log entries: signed envelopes, with the members of their payloads that any check reads. */
module Envelopes {
  import opened Basics
  import opened CommittedTree

  /** Instants are integers: only their order matters to scoping. */
  datatype ValidTime = Point(at: int) | Interval(from: int, to: Option<int>)

  datatype Scope = Scope(effectiveFrom: int, retroactive: bool)

  /** A log or witness key object; `owner` is the witness identity, empty for a log key. */
  datatype KeyObject = KeyObject(owner: string, keyId: string, pubkey: string, validFrom: u64)

  /** A manifest payload. `wellFormed` stands for the schema checks over its members. */
  datatype Manifest = Manifest(
    predecessor: Option<string>,
    wellFormed: bool,
    producerKeys: seq<(string, string)>,
    logKeys: set<KeyObject>,
    witnessKeys: set<KeyObject>)

  /** A `key` payload. `wellFormed` stands for the shape checks over its members. */
  datatype KeyChange = KeyChange(wellFormed: bool, added: bool, keyId: string, pubkey: string, manifest: string)

  datatype Kind =
    | ManifestStatement(manifest: Manifest)
    | KeyStatement(change: KeyChange)
    | Derivation
    | Retraction
    | Correction
    | OtherStatement(name: string)

  /** The `ahl_version` member: missing, this revision's, or another's. */
  datatype Version = Absent | Supported | Foreign

  /**
   * A statement payload. `commonFieldsOk` stands for the checks over the fields every type shares. Of the members
   * that closure reads, an absent or ill-typed one is `None`, or the error that reading it raises.
   */
  datatype Payload = Payload(
    version: Version,
    commonFieldsOk: bool,
    kind: Kind,
    validTime: Result<ValidTime, AhlError>,
    outputsRoot: Option<string>,
    outputsCount: Option<u64>,
    outputs: Option<seq<Leaf>>,
    inputs: Option<Inputs>,
    dataset: Option<string>,
    record: Option<string>,
    replacement: Option<string>,
    scope: Result<Scope, AhlError>)

  /** A payload without the members that closure reads. */
  function BarePayload(version: Version, kind: Kind): Payload {
    Payload(version, true, kind, Ok(Point(0)), None, None, None, None, None, None, None, Err(Field("scope")))
  }

  datatype SignatureEntry = SignatureEntry(keyId: Option<string>, sig: Option<string>)

  /** An envelope with the two ids its bytes digest to; `rest` is the rest of its bytes. */
  datatype Envelope = Envelope(
    payload: Option<Payload>, signatures: Option<seq<SignatureEntry>>, statementId: string, entryId: string,
      rest: string)

  /** An entry that nothing is read from. */
  const NULL_ENTRY := Envelope(None, None, "", "", "")
}
