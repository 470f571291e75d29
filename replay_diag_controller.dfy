/**
 * The replay-diagnostic-data controller: from an uploaded diagnostic-data
 * document and the form's flags it decides which validation process to run,
 * at which date, under which policy and, for a certificate validation, about
 * which certificate. The unmarshalling facades are inputs; running the
 * executor and rendering its reports are not modelled.
 */
module ReplayDiagController {
  import opened Wrappers
  import opened DiagnosticData
  import opened CertificateSelection

  /** An uploaded file; it is empty when no file was chosen or it has no content. */
  datatype MultipartFile = MultipartFile(content: seq<bv8>)

  predicate IsEmpty(f: MultipartFile) {
    |f.content| == 0
  }

  /** The bound form: the two uploads (either may be missing) and the two flags. */
  datatype ReplayDiagForm = ReplayDiagForm(
    diagnosticFile: Option<MultipartFile>,
    policyFile: Option<MultipartFile>,
    resetDate: bool,
    defaultPolicy: bool)

  /** The constraints read from a policy document; their contents are never inspected here. */
  datatype ConstraintsParameters = ConstraintsParameters(rules: seq<string>)

  /** The policy handed to the executor. */
  datatype ValidationPolicy = EtsiValidationPolicy(constraints: ConstraintsParameters)

  /**
   * The external XML facades: how diagnostic-data and policy bytes unmarshal,
   * and what loading the default policy gives.
   */
  datatype Facades = Facades(
    unmarshallDiagnosticData: seq<bv8> -> Parsed<XmlDiagnosticData>,
    unmarshallPolicy: seq<bv8> -> Parsed<ConstraintsParameters>,
    defaultValidationPolicy: Parsed<ValidationPolicy>)

  /** The two executors the controller can instantiate. */
  datatype ProcessKind = CertificateProcess | SignatureProcess

  /** Everything the controller sets on the executor before running it. */
  datatype ExecutorSetup = ExecutorSetup(
    kind: ProcessKind,
    diagnosticData: XmlDiagnosticData,
    currentTime: Instant,
    validationPolicy: ValidationPolicy,
    certificateId: Option<string>)

  /** The three internal-server errors the controller raises. */
  datatype ReplayError =
    | DiagnosticDataUnparsable   // "Error while creating diagnostic data from given file"
    | ProvidedPolicyUnparsable   // "Error while loading the provided validation policy"
    | DefaultPolicyUnavailable   // "Error while loading the default validation policy"

  /** What a submission leads to. */
  datatype Outcome =
    | ReplayFormShown
    | Executed(setup: ExecutorSetup)
    | InternalServerError(error: ReplayError)

  /** The form offered on a first visit: nothing uploaded, the default policy selected. */
  function ShowReplayDiagForm(): (form: ReplayDiagForm)
    ensures form.defaultPolicy && !UsesProvidedPolicy(form)
  {
    ReplayDiagForm(None, None, false, true)
  }

  /** The uploaded policy is used only when the default is not asked for and a non-empty file came with the form. */
  predicate UsesProvidedPolicy(form: ReplayDiagForm) {
    !form.defaultPolicy && form.policyFile.Some? && !IsEmpty(form.policyFile.value)
  }

  /** Reading the diagnostic file; a missing file fails like an unreadable one. */
  function ParseDiagnosticData(form: ReplayDiagForm, facades: Facades): Parsed<XmlDiagnosticData> {
    match form.diagnosticFile
    case None => Unparsable("no diagnostic file")
    case Some(file) => facades.unmarshallDiagnosticData(file.content)
  }

  /** A certificate validation when the document carries no signature, a signature validation otherwise. */
  function ExecutorKind(dd: XmlDiagnosticData): ProcessKind {
    if IsCollectionEmpty(dd.signatures) then CertificateProcess else SignatureProcess
  }

  /** The date to validate at: `now` on a reset, the document's own date otherwise. */
  function ValidationDate(form: ReplayDiagForm, dd: XmlDiagnosticData, now: Instant): Instant {
    if form.resetDate then now else dd.validationDate
  }

  /** The policy to validate under, or the error raised while obtaining it. */
  function ResolvePolicy(form: ReplayDiagForm, facades: Facades): Result<ValidationPolicy, ReplayError> {
    if UsesProvidedPolicy(form) then
      match facades.unmarshallPolicy(form.policyFile.value.content)
      case Parsed(constraints) => Success(EtsiValidationPolicy(constraints))
      case Unparsable(_) => Failure(ProvidedPolicyUnparsable)
    else
      match facades.defaultValidationPolicy
      case Parsed(policy) => Success(policy)
      case Unparsable(_) => Failure(DefaultPolicyUnavailable)
  }

  /** The certificate a certificate validation is about; a signature validation is given none. */
  function TargetCertificate(kind: ProcessKind, dd: XmlDiagnosticData): Option<string> {
    if kind == CertificateProcess then SelectedCertificateId(dd.usedCertificates) else None
  }

  /**
   * `validate`: a form with binding errors is shown again; otherwise the
   * diagnostic data is read, the executor kind, date and policy chosen and,
   * for a certificate validation, the target certificate set.
   */
  function Validate(form: ReplayDiagForm, hasBindingErrors: bool, facades: Facades, now: Instant): (o: Outcome)
    ensures o.ReplayFormShown? <==> hasBindingErrors
    ensures o == InternalServerError(DiagnosticDataUnparsable) <==>
              !hasBindingErrors && ParseDiagnosticData(form, facades).Unparsable?
    ensures o == InternalServerError(ProvidedPolicyUnparsable) <==>
              !hasBindingErrors && ParseDiagnosticData(form, facades).Parsed? && UsesProvidedPolicy(form) &&
              facades.unmarshallPolicy(form.policyFile.value.content).Unparsable?
    ensures o == InternalServerError(DefaultPolicyUnavailable) <==>
              !hasBindingErrors && ParseDiagnosticData(form, facades).Parsed? && !UsesProvidedPolicy(form) &&
              facades.defaultValidationPolicy.Unparsable?
    ensures o.Executed? ==> ParseDiagnosticData(form, facades) == Parsed(o.setup.diagnosticData)
    ensures o.Executed? ==> (o.setup.kind == CertificateProcess <==> IsCollectionEmpty(o.setup.diagnosticData.signatures))
    ensures o.Executed? && form.resetDate ==> o.setup.currentTime == now
    ensures o.Executed? && !form.resetDate ==> o.setup.currentTime == o.setup.diagnosticData.validationDate
    ensures o.Executed? && UsesProvidedPolicy(form) ==>
              facades.unmarshallPolicy(form.policyFile.value.content) == Parsed(o.setup.validationPolicy.constraints)
    ensures o.Executed? && !UsesProvidedPolicy(form) ==> facades.defaultValidationPolicy == Parsed(o.setup.validationPolicy)
    ensures o.Executed? && o.setup.certificateId.Some? ==> o.setup.kind == CertificateProcess
    ensures o.Executed? && o.setup.kind == CertificateProcess ==>
              o.setup.certificateId == SelectedCertificateId(o.setup.diagnosticData.usedCertificates)
  {
    if hasBindingErrors then ReplayFormShown
    else
      match ParseDiagnosticData(form, facades)
      case Unparsable(_) => InternalServerError(DiagnosticDataUnparsable)
      case Parsed(dd) =>
        var kind := ExecutorKind(dd);
        var validationDate := ValidationDate(form, dd, now);
        match ResolvePolicy(form, facades)
        case Failure(e) => InternalServerError(e)
        case Success(policy) => Executed(ExecutorSetup(kind, dd, validationDate, policy, TargetCertificate(kind, dd)))
  }

  /** Once the uploaded policy is chosen, the default policy is never consulted, whether it loads or not. */
  lemma ProvidedPolicyIgnoresDefault(
    form: ReplayDiagForm, hasBindingErrors: bool, facades: Facades, now: Instant, other: Parsed<ValidationPolicy>)
    requires UsesProvidedPolicy(form)
    ensures Validate(form, hasBindingErrors, facades.(defaultValidationPolicy := other), now) ==
            Validate(form, hasBindingErrors, facades, now)
  {
  }

  /** With the default policy chosen, the uploaded policy file is never read, whatever it holds. */
  lemma DefaultPolicyIgnoresUpload(
    form: ReplayDiagForm, hasBindingErrors: bool, facades: Facades, now: Instant,
    other: seq<bv8> -> Parsed<ConstraintsParameters>)
    requires !UsesProvidedPolicy(form)
    ensures Validate(form, hasBindingErrors, facades.(unmarshallPolicy := other), now) ==
            Validate(form, hasBindingErrors, facades, now)
  {
  }

  /** Without a reset the outcome does not depend on the clock. */
  lemma RecordedDateIgnoresClock(form: ReplayDiagForm, hasBindingErrors: bool, facades: Facades, now: Instant, later: Instant)
    requires !form.resetDate
    ensures Validate(form, hasBindingErrors, facades, later) == Validate(form, hasBindingErrors, facades, now)
  {
  }

  /** A document with neither signatures nor used certificates is replayed as a certificate validation about no certificate. */
  lemma EmptyDocumentReplay(form: ReplayDiagForm, facades: Facades, now: Instant, date: Instant)
    requires form.diagnosticFile.Some?
    requires facades.unmarshallDiagnosticData(form.diagnosticFile.value.content) == Parsed(XmlDiagnosticData(Some([]), [], date))
    requires facades.defaultValidationPolicy.Parsed? && !UsesProvidedPolicy(form)
    ensures Validate(form, false, facades, now).Executed?
    ensures Validate(form, false, facades, now).setup.kind == CertificateProcess
    ensures Validate(form, false, facades, now).setup.certificateId == None
  {
  }
}
