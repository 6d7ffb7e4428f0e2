/** The findings machine: what one run records, carries past and rests on what, and the report it reduces to. */
module Findings {
  import opened Basics
  import opened Sorting
  import opened CommittedTree

  datatype Outcome = Verified | Unverifiable | Invalid

  /** The order of the reduction: an invalid finding dominates an unverifiable one. */
  function Rank(o: Outcome): nat {
    match o
    case Verified => 0
    case Unverifiable => 1
    case Invalid => 2
  }

  datatype Assertion =
    | Versions
    | ResourceLimits
    | Structure
    | AdaptorProfile
    | Anchoring
    | Governance
    | CheckpointAuthentication
    | Witnesses
    | EnvelopeValidity
    | CrossField
    | ClaimMaterial
    | ContentBinding

  const ORDER: seq<Assertion> := [
    Versions, ResourceLimits, Structure, AdaptorProfile, Anchoring, Governance,
    CheckpointAuthentication, Witnesses, EnvelopeValidity, CrossField, ClaimMaterial, ContentBinding]

  /** A rejection by its class; `named` is the assertion its variant names outside any phase. */
  datatype Rejection =
    | Defect(named: Assertion)
    | CapabilityGap(named: Assertion)
    | UnsupportedVersion
    | BudgetExhausted
    | RotationUnverifiable

  function Class(e: Rejection): Outcome {
    if e.Defect? then Invalid else Unverifiable
  }

  function AssertionOf(e: Rejection): Assertion {
    match e
    case Defect(named) => named
    case CapabilityGap(named) => named
    case UnsupportedVersion => Versions
    case BudgetExhausted => ResourceLimits
    case RotationUnverifiable => Governance
  }

  type Path = seq<string>

  datatype Finding = Finding(assertion: Assertion, path: Path, outcome: Outcome, restsOn: Option<Assertion>)

  /** An embedded receipt's content binding is no required assertion of the receipt that embeds it. */
  predicate Counts(assertion: Assertion, path: Path) {
    assertion != ContentBinding || path == []
  }

  datatype Tolerated = Tolerated(assertion: Assertion, path: Path, error: Rejection)

  datatype State = State(
    findings: seq<Finding>,
    path: Path,
    scope: Option<Assertion>,
    blocked: seq<Assertion>,
    deferred: seq<Tolerated>,
    verified: map<string, seq<Finding>>)

  const FRESH := State([], [], None, [], [], map[])

  // ---------------------------------------------------------------------------
  // The operations
  // ---------------------------------------------------------------------------

  predicate At(f: Finding, assertion: Assertion, path: Path) {
    f.assertion == assertion && f.path == path
  }

  /** The place of the finding for an assertion at a path, or the length where there is none. */
  function Position(findings: seq<Finding>, assertion: Assertion, path: Path): (i: nat)
    ensures i <= |findings|
    ensures i < |findings| ==> At(findings[i], assertion, path)
    ensures forall k :: 0 <= k < i ==> !At(findings[k], assertion, path)
  {
    if findings == [] || At(findings[0], assertion, path) then 0
    else 1 + Position(findings[1..], assertion, path)
  }

  /** One finding per assertion and path: of two outcomes the dominating one stays. */
  function Record(s: State, assertion: Assertion, outcome: Outcome, restsOn: Option<Assertion>): State {
    var i := Position(s.findings, assertion, s.path);
    if i == |s.findings| then s.(findings := s.findings + [Finding(assertion, s.path, outcome, restsOn)])
    else if Rank(outcome) > Rank(s.findings[i].outcome) then
      s.(findings := s.findings[i := s.findings[i].(outcome := outcome, restsOn := restsOn)])
    else s
  }

  function Phase(s: State, assertion: Assertion): State {
    s.(scope := Some(assertion))
  }

  /** The assertion a rejection belongs to: the running phase, save that a budget names itself. */
  function Attribute(s: State, e: Rejection): Assertion {
    if e.BudgetExhausted? then ResourceLimits
    else if s.scope.Some? then s.scope.value
    else AssertionOf(e)
  }

  function Block(s: State, assertion: Assertion): State {
    if assertion in s.blocked then s else s.(blocked := s.blocked + [assertion])
  }

  function Prerequisites(assertion: Assertion): seq<Assertion> {
    match assertion
    case CheckpointAuthentication => [AdaptorProfile, Governance]
    case Witnesses => [AdaptorProfile, Governance, CheckpointAuthentication]
    case EnvelopeValidity => [Governance]
    case _ => []
  }

  /** The first of `needs` that is blocked. */
  function Unmet(needs: seq<Assertion>, blocked: seq<Assertion>): (r: Option<Assertion>)
    ensures r.Some? ==> r.value in needs && r.value in blocked
    ensures r.None? ==> forall a :: a in needs ==> a !in blocked
  {
    if needs == [] then None
    else if needs[0] in blocked then Some(needs[0])
    else Unmet(needs[1..], blocked)
  }

  function PassRestingOn(s: State, assertion: Assertion, also: seq<Assertion>): State {
    var unmet := Unmet(Prerequisites(assertion) + also, s.blocked);
    if unmet.Some? then Block(Record(s, assertion, Unverifiable, unmet), assertion)
    else Record(s, assertion, Verified, None)
  }

  /** A rejection recorded as a cause and carried past. */
  function Defer(s: State, e: Rejection): State {
    var settled := Attribute(s, e);
    var recorded := Record(s, settled, Class(e), None);
    Block(recorded.(deferred := recorded.deferred + [Tolerated(settled, s.path, e)]), settled)
  }

  /** Whether `tolerate` hands a rejection back instead of carrying on past it. */
  predicate EndsRun(s: State, e: Rejection) {
    || (Class(e) != Unverifiable && Counts(Attribute(s, e), s.path))
    || e.UnsupportedVersion? || e.BudgetExhausted?
  }

  /** Where an operation leaves the run, and the rejection that ended it, if one did. */
  datatype After = After(state: State, error: Option<Rejection>)

  function Tolerate(s: State, e: Rejection): After {
    if EndsRun(s, e) then After(s, Some(e)) else After(Defer(s, e), None)
  }

  /** `settle_content_binding`; a rotation that stopped the induction is reported as resting on governance. */
  function SettleContentBinding(s: State, outcome: Option<Rejection>): After {
    if outcome.None? then After(s, None)
    else if outcome.value.RotationUnverifiable? then
      var carried := Tolerate(PassRestingOn(Phase(s, ContentBinding), ContentBinding, [Governance]), outcome.value);
      if carried.error.Some? then carried else After(Phase(carried.state, ClaimMaterial), None)
    else Tolerate(s, outcome.value)
  }

  // ---------------------------------------------------------------------------
  // The run over one receipt, every check's outcome given
  // ---------------------------------------------------------------------------

  /** One operation of the straight part of the algorithm. `Refuse` is a rejection handed on by `?`. */
  datatype Step =
    | Enter(phase: Assertion)
    | Pass(assertion: Assertion, also: seq<Assertion>)
    | Carry(error: Rejection)
    | RecordGap
    | Refuse(error: Rejection)

  function Perform(s: State, step: Step): After {
    match step
    case Enter(phase) => After(Phase(s, phase), None)
    case Pass(assertion, also) => After(PassRestingOn(s, assertion, also), None)
    case Carry(error) => Tolerate(s, error)
    case RecordGap => After(Defer(s, UnsupportedVersion), None)
    case Refuse(error) => After(s, Some(error))
  }

  /** Steps in order, up to the first that ends the run. */
  function PerformAll(s: State, steps: seq<Step>): After
    decreases |steps|
  {
    if steps == [] then After(s, None)
    else
      var first := Perform(s, steps[0]);
      if first.error.Some? then first else PerformAll(first.state, steps[1..])
  }

  /** What the claim's own material does: steps, receipts embedded in it, and a content binding as its last act. */
  datatype Material =
    | Done
    | Bind(phase: Assertion, outcome: Option<Rejection>)
    | Do(step: Step, next: Material)
    | Embed(slot: string, digest: string, inner: Receipt, after: Material)

  /** A receipt by what each check over it found. */
  datatype Receipt = Receipt(
    receiptVersion: Option<Rejection>,
    fixedLimits: Option<Rejection>,
    carriedMembers: Option<Rejection>,
    payloadVersion: Option<Rejection>,
    identifiers: Option<Rejection>,
    adaptorMembers: Option<Rejection>,
    adaptorResolution: Option<Rejection>,
    container: Option<Rejection>,
    paths: Option<Rejection>,
    induction: seq<Step>,
    checkpoint: seq<Step>,
    envelopes: seq<Step>,
    payloadFields: Option<Rejection>,
    producerKeys: Option<Rejection>,
    crossField: seq<Step>,
    unevaluated: seq<Assertion>,
    material: Material,
    authorityDependent: bool,
    bindsContent: bool,
    verdict: string)

  function Refusal(e: Option<Rejection>): seq<Step> {
    if e.Some? then [Refuse(e.value)] else []
  }

  /** Versions, fixed limits and identifiers. */
  function Opening(r: Receipt): seq<Step> {
    [Enter(Versions)] + Refusal(r.receiptVersion)
    + [Enter(Structure)] + Refusal(r.fixedLimits) + [Pass(ResourceLimits, [])] + Refusal(r.carriedMembers)
    + [Enter(Versions)] + Refusal(r.payloadVersion) + [Pass(Versions, []), Enter(Structure)] + Refusal(r.identifiers)
  }

  function Profile(r: Receipt): seq<Step> {
    [Enter(AdaptorProfile)] + Refusal(r.adaptorMembers)
    + [if r.adaptorResolution.Some? then Carry(r.adaptorResolution.value) else Pass(AdaptorProfile, [])]
  }

  /** The container and the key-independent paths. */
  function Paths(r: Receipt): seq<Step> {
    [Enter(Structure)] + Refusal(r.container) + [Pass(Structure, []), Enter(Anchoring)] + Refusal(r.paths)
    + [Pass(Anchoring, [])]
  }

  function Induction(r: Receipt): seq<Step> {
    [Enter(Governance)] + r.induction + [Pass(Governance, [])]
  }

  function Authentication(r: Receipt): seq<Step> {
    [Enter(CheckpointAuthentication)] + r.checkpoint
    + [Pass(CheckpointAuthentication, []), Enter(Witnesses), Pass(Witnesses, [])]
  }

  function Envelopes(r: Receipt): seq<Step> {
    [Enter(EnvelopeValidity)] + r.envelopes
  }

  /** What is checked only once the subject's own signature is settled. */
  function Fields(r: Receipt): seq<Step> {
    [Enter(Structure)] + Refusal(r.payloadFields) + [Enter(Governance)] + Refusal(r.producerKeys)
    + [Enter(EnvelopeValidity), Pass(EnvelopeValidity, [])]
  }

  function Consistency(r: Receipt): seq<Step> {
    [Enter(CrossField)] + r.crossField + [Pass(CrossField, r.unevaluated), Enter(ClaimMaterial)]
  }

  function Closing(r: Receipt): seq<Step> {
    [Enter(ClaimMaterial), Pass(ClaimMaterial, if r.authorityDependent then [Governance, EnvelopeValidity] else [])]
    + (if r.bindsContent then [Pass(ContentBinding, [])] else [])
  }

  /** The steps ahead of the claim's material, piece by piece. */
  function Pieces(r: Receipt): seq<seq<Step>> {
    [Opening(r), Profile(r), Paths(r), Induction(r), Authentication(r), Envelopes(r), Fields(r), Consistency(r)]
  }

  function PerformPieces(s: State, pieces: seq<seq<Step>>): After
    decreases |pieces|
  {
    if pieces == [] then After(s, None)
    else
      var first := PerformAll(s, pieces[0]);
      if first.error.Some? then first else PerformPieces(first.state, pieces[1..])
  }

  function Preliminaries(s: State, r: Receipt): After {
    PerformPieces(s, Pieces(r))
  }

  /** Each finding of a cached receipt, recorded again at the current path. */
  function Replay(s: State, findings: seq<Finding>): State
    decreases |findings|
  {
    if findings == [] then s
    else Replay(Record(s, findings[0].assertion, findings[0].outcome, findings[0].restsOn), findings[1..])
  }

  /** `verify_nested`: a receipt starts with nothing blocked, and gives the enclosing state back when it succeeds. */
  function VerifyNested(s: State, r: Receipt): After
    decreases r, 0
  {
    var before := Preliminaries(s.(blocked := [], scope := None), r);
    if before.error.Some? then before
    else
      var claimed := VerifyMaterial(before.state, r.material);
      if claimed.error.Some? then claimed
      else
        var closed := PerformAll(claimed.state, Closing(r));
        if closed.error.Some? then closed
        else After(closed.state.(blocked := s.blocked, scope := s.scope), None)
  }

  function VerifyMaterial(s: State, m: Material): After
    decreases m, 0
  {
    match m
    case Done => After(s, None)
    case Bind(phase, outcome) => SettleContentBinding(Phase(s, phase), outcome)
    case Do(step, next) =>
      var first := Perform(s, step);
      if first.error.Some? then first else VerifyMaterial(first.state, next)
    case Embed(slot, digest, inner, after) =>
      var embedded := Embedded(s, slot, digest, inner);
      if embedded.error.Some? then embedded else VerifyMaterial(embedded.state, after)
  }

  /** A receipt met before is served from the cache; the path is popped only where the receipt succeeds. */
  function Embedded(s: State, slot: string, digest: string, inner: Receipt): After
    decreases inner, 1
  {
    var descended := s.(path := s.path + [slot]);
    if digest in s.verified then After(Replay(descended, s.verified[digest]).(path := s.path), None)
    else
      var nested := VerifyNested(descended, inner);
      if nested.error.Some? then nested else After(Cached(s, nested.state, digest), None)
  }

  /** After an embedded receipt succeeded: its findings are kept under its digest, and the path is popped. */
  function Cached(before: State, nested: State, digest: string): State {
    var added := if |before.findings| <= |nested.findings| then nested.findings[|before.findings|..] else [];
    nested.(verified := nested.verified[digest := added], path := before.path)
  }

  /** `verify_root`: the version read and the decoded size come first, outside any phase. */
  function VerifyRoot(rootVersion: Option<Rejection>, decodedTooLarge: bool, r: Receipt): After {
    if rootVersion.Some? then After(FRESH, rootVersion)
    else if decodedTooLarge then After(FRESH, Some(BudgetExhausted))
    else VerifyNested(FRESH, r)
  }

  // ---------------------------------------------------------------------------
  // The two entry points
  // ---------------------------------------------------------------------------

  function OrderOf(a: Assertion): nat {
    match a
    case Versions => 0
    case ResourceLimits => 1
    case Structure => 2
    case AdaptorProfile => 3
    case Anchoring => 4
    case Governance => 5
    case CheckpointAuthentication => 6
    case Witnesses => 7
    case EnvelopeValidity => 8
    case CrossField => 9
    case ClaimMaterial => 10
    case ContentBinding => 11
  }

  /** Paths in lexicographic order of their members. */
  predicate PathBefore(a: Path, b: Path)
    decreases |a|
  {
    b != [] && (a == [] || Before(a[0], b[0]) || (a[0] == b[0] && PathBefore(a[1..], b[1..])))
  }

  predicate KeyBefore(a: Assertion, p: Path, b: Assertion, q: Path) {
    PathBefore(p, q) || (p == q && OrderOf(a) < OrderOf(b))
  }

  function ReportOrder(): (Finding, Finding) -> bool {
    (f: Finding, g: Finding) => KeyBefore(f.assertion, f.path, g.assertion, g.path)
  }

  function DeferredOrder(): (Tolerated, Tolerated) -> bool {
    (f: Tolerated, g: Tolerated) => KeyBefore(f.assertion, f.path, g.assertion, g.path)
  }

  /** The dominating outcome among the findings that enter the reduction. */
  function Reduce(findings: seq<Finding>): Outcome
    decreases |findings|
  {
    if findings == [] then Verified
    else
      var rest := Reduce(findings[1..]);
      if Counts(findings[0].assertion, findings[0].path) && Rank(findings[0].outcome) > Rank(rest)
      then findings[0].outcome else rest
  }

  datatype Report = Report(result: Outcome, findings: seq<Finding>, verdict: Option<string>)

  /** Every required assertion among `rest` that has no finding yet rests on the one the run stopped at. */
  function FillFrom(s: State, rest: seq<Assertion>, bindsContent: bool, stoppedAt: Assertion): State
    decreases |rest|
  {
    if rest == [] then s
    else if (rest[0] == ContentBinding && !bindsContent) || Position(s.findings, rest[0], []) < |s.findings| then
      FillFrom(s, rest[1..], bindsContent, stoppedAt)
    else FillFrom(Record(s, rest[0], Unverifiable, Some(stoppedAt)), rest[1..], bindsContent, stoppedAt)
  }

  function FillUnreached(s: State, bindsContent: bool, stoppedAt: Assertion): State {
    FillFrom(s.(path := []), ORDER, bindsContent, stoppedAt)
  }

  /** The findings a finished run is reported with, before they are sorted. */
  function FinalState(end: After, bindsContent: bool): State {
    if end.error.None? then end.state
    else
      var stoppedAt := Attribute(end.state, end.error.value);
      var recorded := Record(end.state, stoppedAt, Class(end.error.value), None);
      if Class(end.error.value) == Unverifiable then FillUnreached(recorded, bindsContent, stoppedAt) else recorded
  }

  function IntoReport(end: After, r: Receipt): Report {
    var findings := StableSort(FinalState(end, r.bindsContent).findings, ReportOrder());
    var result := Reduce(findings);
    Report(result, findings, if end.error.None? && result == Verified then Some(r.verdict) else None)
  }

  /** The first element that satisfies a test. */
  function First<T>(s: seq<T>, test: T -> bool): (r: Option<T>)
    ensures r.Some? ==> r.value in s && test(r.value)
    ensures r.None? ==> forall x :: x in s ==> !test(x)
  {
    if s == [] then None else if test(s[0]) then Some(s[0]) else First(s[1..], test)
  }

  predicate CountsInvalid(f: Finding) {
    Counts(f.assertion, f.path) && f.outcome == Invalid
  }

  predicate CountsUnverifiable(f: Finding) {
    Counts(f.assertion, f.path) && f.outcome == Unverifiable
  }

  predicate CountsCause(f: Finding) {
    CountsUnverifiable(f) && f.restsOn.None?
  }

  function Dominating(report: Report): Option<Finding> {
    var invalid := First(report.findings, CountsInvalid);
    if invalid.Some? then invalid
    else
      var cause := First(report.findings, CountsCause);
      if cause.Some? then cause else First(report.findings, CountsUnverifiable)
  }

  function Filter<T(!new)>(s: seq<T>, keep: T -> bool): (r: seq<T>)
    ensures forall x :: x in r <==> x in s && keep(x)
  {
    if s == [] then [] else (if keep(s[0]) then [s[0]] else []) + Filter(s[1..], keep)
  }

  predicate CountsTolerated(d: Tolerated) {
    Counts(d.assertion, d.path)
  }

  /** The tolerated rejection that decided the result. */
  function DominatingDeferred(s: State): Option<Rejection> {
    var candidates := StableSort(Filter(s.deferred, CountsTolerated), DeferredOrder());
    var invalid := First(candidates, (d: Tolerated) => Class(d.error) == Invalid);
    if invalid.Some? then Some(invalid.value.error)
    else if candidates == [] then None
    else Some(candidates[0].error)
  }

  /** `verify_receipt`: the verdict, or the one rejection that decided against it. */
  function VerifyReceipt(rootVersion: Option<Rejection>, decodedTooLarge: bool, r: Receipt): Result<string, Rejection> {
    var end := VerifyRoot(rootVersion, decodedTooLarge, r);
    if end.error.Some? then Err(end.error.value)
    else
      var deferred := DominatingDeferred(end.state);
      if deferred.Some? then Err(deferred.value) else Ok(r.verdict)
  }

  /** `verify_receipt_report`. */
  function VerifyReceiptReport(rootVersion: Option<Rejection>, decodedTooLarge: bool, r: Receipt): Report {
    IntoReport(VerifyRoot(rootVersion, decodedTooLarge, r), r)
  }
}
