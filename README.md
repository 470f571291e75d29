# Replay of diagnostic data: executor configuration

This project models the decision logic of the DSS demonstration web
application's `ReplayDiagController`. A user uploads a diagnostic-data
document (a snapshot of an earlier signature or certificate validation) and,
optionally, a validation policy. The controller then configures a validation
process executor:

- the **process kind**: a certificate validation when the document carries no
  signature (none, or an absent list), a signature validation otherwise;
- the **validation date**: the current time when the form asks for a reset,
  the date recorded in the document otherwise;
- the **policy**: the uploaded one only when the form does not ask for the
  default and a non-empty policy file came with it, the default policy
  otherwise; failing to read the chosen one is an error and never falls back
  to the other;
- the **target certificate** (certificate validations only): the used
  certificate with the longest chain, chosen by `getCertificateId`.

`getCertificateId` has a tie rule worth stating exactly. The loop keeps
`longestChain`, starting at 0, and replaces its choice when
`longestChain == 0 || longestChain < chainSize`. Once a non-empty chain has
been seen, only a strictly longer one replaces the choice, so the first
certificate with the longest chain wins. While every chain seen is empty,
every certificate replaces the choice, so when all chains are empty the
**last** certificate is returned, and an empty chain met before any non-empty
one never keeps the choice. A description of this code that says "the first
longest chain always wins" is wrong for the all-empty case; the model follows
the code. Likewise, a certificate validation over a document with no used
certificate gets no target certificate, so "a target certificate is present
exactly for certificate validations" does not hold; the model proves only that
a target certificate is never set for a signature validation.

Modules:

- `Wrappers` (`wrappers.dfy`): `Option` (a Java `null` is `None`), `Result`,
  and `Parsed`, the outcome of an external unmarshalling call.
- `DiagnosticData` (`diagnostic_data.dfy`): the parts of the unmarshalled
  document the controller reads, and `Utils.isCollectionEmpty` /
  `Utils.collectionSize`, which treat an absent collection as empty.
- `CertificateSelection` (`certificate_selection.dfy`): `getCertificateId`
  as a method with its loop (`GetCertificateId`), proved equal to the
  declarative `SelectedCertificateId`, whose properties are proved as lemmas.
- `ReplayDiagController` (`replay_diag_controller.dfy`): the form, the
  facades as inputs, and `validate` as the pure function `Validate` that
  returns the executor's configuration or the error raised.

## Model

| member | source | states |
|---|---|---|
| `DiagnosticData.CollectionSize` | dss-demo-webapp/src/main/java/eu/europa/esig/dss/web/controller/ReplayDiagController.java:111 | a chain's size is zero exactly when the chain is absent or has no entry |
| `CertificateSelection.LongestChain` | dss-demo-webapp/src/main/java/eu/europa/esig/dss/web/controller/ReplayDiagController.java:108-116 | the value `longestChain` reaches: at least every certificate's chain size and equal to one of them (0 for no certificate) |
| `CertificateSelection.FirstWithChainSize` | dss-demo-webapp/src/main/java/eu/europa/esig/dss/web/controller/ReplayDiagController.java:112 | the first position whose chain has a given size: it has that size and no earlier position does |
| `CertificateSelection.SelectedIndex` | dss-demo-webapp/src/main/java/eu/europa/esig/dss/web/controller/ReplayDiagController.java:110-116 | the selected position has a chain at least as long as every other; if that chain is non-empty every earlier chain is strictly shorter; if it is empty the position is the last one |
| `CertificateSelection.SelectedCertificateId` | dss-demo-webapp/src/main/java/eu/europa/esig/dss/web/controller/ReplayDiagController.java:106-118 | the result is null (`None`) exactly when there is no used certificate |
| `CertificateSelection.SelectedCertificateIsLongest` | dss-demo-webapp/src/main/java/eu/europa/esig/dss/web/controller/ReplayDiagController.java:110-115 | a returned identifier is the id of a used certificate whose chain is at least as long as every other's |
| `CertificateSelection.SelectedIndexUnique` | dss-demo-webapp/src/main/java/eu/europa/esig/dss/web/controller/ReplayDiagController.java:112-114 | the three properties of the selected position determine it: any position with all three is the selected one |
| `CertificateSelection.LongestChainAppend` | dss-demo-webapp/src/main/java/eu/europa/esig/dss/web/controller/ReplayDiagController.java:111-113 | one loop pass: the longest chain grows to the new certificate's chain size exactly when that size is larger |
| `CertificateSelection.SelectionStepReplaces` | dss-demo-webapp/src/main/java/eu/europa/esig/dss/web/controller/ReplayDiagController.java:112-114 | when the longest chain so far is 0 or shorter than the new chain, the new certificate becomes the selection |
| `CertificateSelection.SelectionStepKeeps` | dss-demo-webapp/src/main/java/eu/europa/esig/dss/web/controller/ReplayDiagController.java:112 | when the longest chain so far is non-empty and not shorter than the new chain, the selection stays where it was |
| `CertificateSelection.SelectionStep` | dss-demo-webapp/src/main/java/eu/europa/esig/dss/web/controller/ReplayDiagController.java:110-115 | one loop pass over position i: the test `longestChain == 0 || longestChain < chainSize` decides whether the prefix's longest chain becomes the new chain size and its selection becomes the new certificate, or both stay |
| `CertificateSelection.AllChainsEmptySelectsLast` | dss-demo-webapp/src/main/java/eu/europa/esig/dss/web/controller/ReplayDiagController.java:112-114 | when every chain is absent or empty, the last certificate's id is returned |
| `CertificateSelection.TieGoesToEarliest` | dss-demo-webapp/src/main/java/eu/europa/esig/dss/web/controller/ReplayDiagController.java:112 | chain sizes 2, 0, 2 select the first certificate |
| `CertificateSelection.LeadingEmptyChainIsReplaced` | dss-demo-webapp/src/main/java/eu/europa/esig/dss/web/controller/ReplayDiagController.java:112-114 | chain sizes 0, 3, 0 select the second certificate: the empty chain seen first does not keep the choice |
| `CertificateSelection.AllEmptyGoesToLast` | dss-demo-webapp/src/main/java/eu/europa/esig/dss/web/controller/ReplayDiagController.java:112-114 | an absent chain followed by an empty one selects the second certificate |
| `CertificateSelection.GetCertificateId` | dss-demo-webapp/src/main/java/eu/europa/esig/dss/web/controller/ReplayDiagController.java:106-118 | the loop returns exactly `SelectedCertificateId` of the used certificates; its invariant is that `longestChain` is the longest chain of the prefix scanned and the choice is the prefix's selection |
| `ReplayDiagController.ShowReplayDiagForm` | dss-demo-webapp/src/main/java/eu/europa/esig/dss/web/controller/ReplayDiagController.java:45-51 | the form first shown has the default policy selected, so it does not use an uploaded policy |
| `ReplayDiagController.Validate` | dss-demo-webapp/src/main/java/eu/europa/esig/dss/web/controller/ReplayDiagController.java:53-104 | binding errors and only they show the form again; each of the three errors is raised exactly in its case (unreadable diagnostic data; uploaded policy chosen and unreadable; default chosen and unavailable); on execution the document is the parsed one, the kind is certificate exactly when there is no signature, the date is `now` on reset and the recorded date otherwise, the policy comes from the uploaded bytes when chosen and is the default otherwise, a target certificate is set only for certificate validations and then is the one `getCertificateId` selects |
| `ReplayDiagController.ProvidedPolicyIgnoresDefault` | dss-demo-webapp/src/main/java/eu/europa/esig/dss/web/controller/ReplayDiagController.java:78-84 | when the uploaded policy is chosen, changing what the default policy load gives changes nothing, including when the upload is unreadable |
| `ReplayDiagController.DefaultPolicyIgnoresUpload` | dss-demo-webapp/src/main/java/eu/europa/esig/dss/web/controller/ReplayDiagController.java:85-92 | when the default policy is chosen, how the uploaded bytes would parse changes nothing |
| `ReplayDiagController.RecordedDateIgnoresClock` | dss-demo-webapp/src/main/java/eu/europa/esig/dss/web/controller/ReplayDiagController.java:74 | without a reset, the outcome is the same whatever the current time |
| `ReplayDiagController.EmptyDocumentReplay` | dss-demo-webapp/src/main/java/eu/europa/esig/dss/web/controller/ReplayDiagController.java:67-97 | a document with no signature and no used certificate is executed as a certificate validation with no target certificate |

## Left out

- Spring MVC plumbing (annotations, `Model`, view names, session attributes): a submission's result is the `Outcome` datatype; showing the form again stands for returning the form view.
- `DiagnosticDataFacade`, `ValidationPolicyFacade` and `EtsiValidationPolicy`: external XML libraries, modelled as the functions and value of the `Facades` record, each giving a parsed value or a failure.
- Opening and closing the uploaded files' input streams: only "parsed or failed" is modelled; a missing diagnostic file fails like an unreadable one, as the caught exception makes it do.
- `new Date()`: the current time is the parameter `now`.
- `executor.execute()` and `setAttributesModels`: they run the external validation engine and a superclass not part of this model; `Validate` stops at the executor's configuration.
- Logging (`LOG.warn`): no observable behaviour.
- `ReplayDiagForm` is not part of this model beyond its four fields; the first-shown form's other fields are taken as unset.
- A `null` validation date in the document, a `null` certificate id and a `null` used-certificates list (which the JAXB accessor never returns) are not modelled.
- `CollectionSize`: a Java `int` counter cannot overflow for any list that fits in memory, so sizes are unbounded naturals.
