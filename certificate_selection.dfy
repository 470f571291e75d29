/**
 * The choice of the certificate that a certificate-validation replay is about
 * (`getCertificateId` of the replay controller): the used certificate with the
 * longest chain, under the controller's own tie rule.
 */
module CertificateSelection {
  import opened Wrappers
  import opened DiagnosticData

  /** The length of the longest chain among `certs`; zero when there is no certificate. */
  function LongestChain(certs: seq<XmlCertificate>): (m: nat)
    ensures forall i :: 0 <= i < |certs| ==> ChainSize(certs[i]) <= m
    ensures |certs| > 0 ==> exists i :: 0 <= i < |certs| && ChainSize(certs[i]) == m
    ensures |certs| == 0 ==> m == 0
  {
    if |certs| == 0 then 0
    else
      var front := LongestChain(certs[..|certs| - 1]);
      var last := ChainSize(certs[|certs| - 1]);
      if front < last then last else front
  }

  /** The first position whose chain has exactly `n` entries. */
  function FirstWithChainSize(certs: seq<XmlCertificate>, n: nat): (k: nat)
    requires exists i :: 0 <= i < |certs| && ChainSize(certs[i]) == n
    ensures k < |certs| && ChainSize(certs[k]) == n
    ensures forall j :: 0 <= j < k ==> ChainSize(certs[j]) != n
  {
    if ChainSize(certs[0]) == n then 0
    else
      var i :| 0 <= i < |certs| && ChainSize(certs[i]) == n;
      assert certs[1..][i - 1] == certs[i];
      1 + FirstWithChainSize(certs[1..], n)
  }

  /**
   * The position the controller selects: while the longest chain seen is
   * empty every certificate replaces the choice, and afterwards only a
   * strictly longer chain does. So the first certificate with the longest
   * chain when that chain is non-empty, and the last certificate when every
   * chain is empty.
   */
  function SelectedIndex(certs: seq<XmlCertificate>): (k: nat)
    requires |certs| > 0
    ensures IsSelection(certs, k)
  {
    var longest := LongestChain(certs);
    if longest == 0 then |certs| - 1 else FirstWithChainSize(certs, longest)
  }

  /** The identifier the controller returns: absent exactly when no certificate is used. */
  function SelectedCertificateId(certs: seq<XmlCertificate>): (r: Option<string>)
    ensures r.None? <==> |certs| == 0
  {
    if |certs| == 0 then None else Some(certs[SelectedIndex(certs)].id)
  }

  /** A returned identifier belongs to a used certificate whose chain is at least as long as any other. */
  lemma SelectedCertificateIsLongest(certs: seq<XmlCertificate>)
    requires SelectedCertificateId(certs).Some?
    ensures exists k :: 0 <= k < |certs| && certs[k].id == SelectedCertificateId(certs).value &&
                        forall i :: 0 <= i < |certs| ==> ChainSize(certs[i]) <= ChainSize(certs[k])
  {
    var k := SelectedIndex(certs);
    assert certs[k].id == SelectedCertificateId(certs).value;
  }

  /** The three properties of `SelectedIndex`, which pin the position down. */
  predicate IsSelection(certs: seq<XmlCertificate>, k: nat) {
    && k < |certs|
    && (forall i :: 0 <= i < |certs| ==> ChainSize(certs[i]) <= ChainSize(certs[k]))
    && (ChainSize(certs[k]) > 0 ==> forall j :: 0 <= j < k ==> ChainSize(certs[j]) < ChainSize(certs[k]))
    && (ChainSize(certs[k]) == 0 ==> k == |certs| - 1)
  }

  /** No position other than `SelectedIndex` has the three properties. */
  lemma SelectedIndexUnique(certs: seq<XmlCertificate>, k: nat)
    requires IsSelection(certs, k)
    ensures k == SelectedIndex(certs)
  {
    var s := SelectedIndex(certs);
    assert ChainSize(certs[s]) == ChainSize(certs[k]);
    if ChainSize(certs[k]) > 0 {
      assert !(s < k);
      assert !(k < s);
    }
  }

  /** Appending a certificate extends the longest chain only when its own chain is longer. */
  lemma LongestChainAppend(s: seq<XmlCertificate>, c: XmlCertificate)
    ensures LongestChain(s + [c]) == if LongestChain(s) < ChainSize(c) then ChainSize(c) else LongestChain(s)
  {
    var t := s + [c];
    assert t[..|t| - 1] == s;
  }

  /** A pass of the selection loop that replaces the choice selects the appended certificate. */
  lemma SelectionStepReplaces(s: seq<XmlCertificate>, c: XmlCertificate)
    requires LongestChain(s) == 0 || LongestChain(s) < ChainSize(c)
    ensures SelectedIndex(s + [c]) == |s|
  {
    var t := s + [c];
    assert t[|s|] == c;
    forall i | 0 <= i < |s|
      ensures ChainSize(t[i]) <= LongestChain(s)
    {
      assert t[i] == s[i];
    }
    assert IsSelection(t, |s|);
    SelectedIndexUnique(t, |s|);
  }

  /** A pass of the selection loop that keeps the choice leaves the selected position unchanged. */
  lemma SelectionStepKeeps(s: seq<XmlCertificate>, c: XmlCertificate)
    requires 0 < LongestChain(s) && ChainSize(c) <= LongestChain(s)
    ensures |s| > 0 && SelectedIndex(s + [c]) == SelectedIndex(s)
  {
    var t := s + [c];
    var k := SelectedIndex(s);
    LongestChainAppend(s, c);
    assert IsSelection(t, k) by {
      assert forall i :: 0 <= i < |s| ==> t[i] == s[i];
    }
    SelectedIndexUnique(t, k);
  }

  /** When every chain is empty, each certificate in turn replaces the choice, so the last one is returned. */
  lemma AllChainsEmptySelectsLast(certs: seq<XmlCertificate>)
    requires |certs| > 0
    requires forall i :: 0 <= i < |certs| ==> IsCollectionEmpty(certs[i].certificateChain)
    ensures SelectedCertificateId(certs) == Some(certs[|certs| - 1].id)
  {
    var k := SelectedIndex(certs);
    assert IsCollectionEmpty(certs[k].certificateChain);
  }

  /** Chains of lengths 2, 0, 2: the tie between the two longest goes to the earlier one. */
  lemma TieGoesToEarliest()
    ensures SelectedCertificateId([
      XmlCertificate("A", Some([ChainItem("A"), ChainItem("R")])),
      XmlCertificate("R", Some([])),
      XmlCertificate("B", Some([ChainItem("B"), ChainItem("R")]))]) == Some("A")
  {
    var certs := [
      XmlCertificate("A", Some([ChainItem("A"), ChainItem("R")])),
      XmlCertificate("R", Some([])),
      XmlCertificate("B", Some([ChainItem("B"), ChainItem("R")]))];
    assert ChainSize(certs[0]) == 2;
    SelectedIndexUnique(certs, 0);
  }

  /** Chains of lengths 0, 3, 0: an empty chain met before any non-empty one does not keep the choice. */
  lemma LeadingEmptyChainIsReplaced()
    ensures SelectedCertificateId([
      XmlCertificate("R", None),
      XmlCertificate("E", Some([ChainItem("E"), ChainItem("I"), ChainItem("R")])),
      XmlCertificate("I", Some([]))]) == Some("E")
  {
    var certs := [
      XmlCertificate("R", None),
      XmlCertificate("E", Some([ChainItem("E"), ChainItem("I"), ChainItem("R")])),
      XmlCertificate("I", Some([]))];
    assert ChainSize(certs[1]) == 3;
    SelectedIndexUnique(certs, 1);
  }

  /** No chain at all: the last of the certificates is returned, not the first. */
  lemma AllEmptyGoesToLast()
    ensures SelectedCertificateId([XmlCertificate("A", None), XmlCertificate("B", Some([]))]) == Some("B")
  {
    AllChainsEmptySelectsLast([XmlCertificate("A", None), XmlCertificate("B", Some([]))]);
  }

  /** One pass of the selection loop over position `i`, stated on the prefixes before and after it. */
  lemma SelectionStep(certs: seq<XmlCertificate>, i: nat)
    requires i < |certs|
    ensures var longest := LongestChain(certs[..i]);
            var replacing := longest == 0 || longest < ChainSize(certs[i]);
            && LongestChain(certs[..i + 1]) == (if replacing then ChainSize(certs[i]) else longest)
            && SelectedCertificateId(certs[..i + 1]) == (if replacing then Some(certs[i].id) else SelectedCertificateId(certs[..i]))
  {
    var seen, c := certs[..i], certs[i];
    assert certs[..i + 1] == seen + [c];
    LongestChainAppend(seen, c);
    if LongestChain(seen) == 0 || LongestChain(seen) < ChainSize(c) {
      SelectionStepReplaces(seen, c);
    } else {
      SelectionStepKeeps(seen, c);
    }
  }

  /**
   * `getCertificateId`: scans the used certificates keeping the longest chain
   * seen so far and the identifier that goes with it.
   */
  method GetCertificateId(dd: XmlDiagnosticData) returns (certificateId: Option<string>)
    ensures certificateId == SelectedCertificateId(dd.usedCertificates)
  {
    certificateId := None;
    var longestChain := 0;
    var usedCertificates := dd.usedCertificates;
    for i := 0 to |usedCertificates|
      invariant longestChain == LongestChain(usedCertificates[..i])
      invariant certificateId == SelectedCertificateId(usedCertificates[..i])
    {
      var xmlCertificate := usedCertificates[i];
      var chainSize := CollectionSize(xmlCertificate.certificateChain);
      SelectionStep(usedCertificates, i);
      if longestChain == 0 || longestChain < chainSize {
        longestChain := chainSize;
        certificateId := Some(xmlCertificate.id);
      }
    }
    assert usedCertificates[..|usedCertificates|] == usedCertificates;
  }
}
