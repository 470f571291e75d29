/** The parts of an unmarshalled diagnostic-data document that the replay controller reads. */
module DiagnosticData {
  import opened Wrappers

  /** Milliseconds since the epoch, as carried by a `java.util.Date`. */
  type Instant = int

  /** An entry of a certificate chain; its contents are never inspected here. */
  datatype ChainItem = ChainItem(certificateId: string)

  /** A signature record; its contents are never inspected here. */
  datatype SignatureRecord = SignatureRecord(id: string)

  /** A used certificate: its identifier and its chain, which the document may leave out. */
  datatype XmlCertificate = XmlCertificate(id: string, certificateChain: Option<seq<ChainItem>>)

  /** The document: its signatures (possibly absent), its used certificates and the recorded validation date. */
  datatype XmlDiagnosticData = XmlDiagnosticData(
    signatures: Option<seq<SignatureRecord>>,
    usedCertificates: seq<XmlCertificate>,
    validationDate: Instant)

  /** A collection is empty when it is absent or has no elements. */
  predicate IsCollectionEmpty<T>(c: Option<seq<T>>) {
    c.None? || |c.value| == 0
  }

  /** The number of elements of a collection, an absent one counting as zero. */
  function CollectionSize<T>(c: Option<seq<T>>): (n: nat)
    ensures n == 0 <==> IsCollectionEmpty(c)
  {
    if c.None? then 0 else |c.value|
  }

  /** The length of a certificate's chain. */
  function ChainSize(c: XmlCertificate): nat {
    CollectionSize(c.certificateChain)
  }
}
