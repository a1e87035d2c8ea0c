/** The document side of the extraction pipeline: which documents of a company are kept,
    how they are put into the CG (general terms, "cadre"), CP (subscription, "souscription")
    and AV (amendment, "avenant") buckets, the sanity check on those buckets, and the chat
    messages built from them. */
module GptModule {
  import opened Wrappers
  import opened Seqs
  import opened Text

  const CpIdentifiers: seq<string> :=
    ["SOUSCRIPTION", "CP", "CONTRAT-SAAS", "CONTRAT-PRESTATIONS", "BDC-LICENCE", "CONTRAT-P"]
  const CgIdentifiers: seq<string> := ["CADRE", "CG"]
  const AvIdentifiers: seq<string> := ["AVENANT-", "APPLICATION"]

  /** Id fragments that exclude a document from the company's set. */
  const ExclusionFlags: seq<string> := ["-ASP-", "PLAN-PROJET-GENERIX", "ANNEXE-DONNEES-PERSONNELLES"]

  const AvenantHeader: string := "=== DOC: AVENANT — type=avenant ===\n"
  const CadreHeader: string := "=== DOC: CADRE — type=cadre ===\n"
  const SouscriptionHeader: string := "=== DOC: SOUSCRIPTION — type=souscription ===\n"

  /** A stored document: its id and, when the record has the field, its text. */
  datatype Doc = Doc(id: string, content: Option<string>)

  /** `doc.get("content", "")` */
  function ContentOf(d: Doc): string
  {
    if d.content.Some? then d.content.value else ""
  }

  // ----- Exclusion of ids -----

  /** The exclusion test on one id: no flag occurs in it, both sides lower-cased. */
  predicate KeepId(id: string)
  {
    forall f :: f in ExclusionFlags ==> !Contains(Lower(id), Lower(f))
  }

  /** The ids kept when exclusion is on, in their original order. */
  function ExcludeIds(ids: seq<string>): (r: seq<string>)
    ensures forall id :: id in r <==> id in ids && KeepId(id)
  {
    Filter(ids, KeepId)
  }

  /** Exclusion removes only ids that carry a flag and never reorders the rest. */
  lemma ExcludeIdsOrder(ids: seq<string>)
    ensures IsSubsequence(ExcludeIds(ids), ids)
    ensures |ExcludeIds(ids)| == Count(ids, KeepId)
  {
    FilterIsSubsequence(ids, KeepId);
    FilterCount(ids, KeepId);
  }

  /** The flags match in any letter case: an id with "-asp-" in lower case is excluded. */
  lemma ExcludeIdsIgnoresCase()
    ensures "acme-asp-contrat.pdf" !in ExcludeIds(["acme-asp-contrat.pdf"])
  {
    var id := "acme-asp-contrat.pdf";
    LowerIdentity(id);
    assert Lower("-ASP-") == "-asp-";
    ContainsAt(Lower(id), "-asp-", 4);
  }

  // ----- Buckets -----

  /** Some marker occurs in the id, both sides case-folded. */
  predicate HasMarker(id: string, markers: seq<string>)
  {
    exists f :: f in markers && Contains(Lower(id), Lower(f))
  }

  predicate IsCadre(d: Doc, cgIds: seq<string>)
  {
    HasMarker(d.id, cgIds) && !Contains(Lower(d.id), "-avenant-")
  }

  predicate IsSous(d: Doc, cpIds: seq<string>)
  {
    HasMarker(d.id, cpIds)
  }

  predicate IsAvenant(d: Doc, avIds: seq<string>)
  {
    HasMarker(d.id, avIds)
  }

  datatype Buckets = Buckets(cadre: seq<string>, sous: seq<string>, avenant: seq<string>)

  function AvenantBlock(d: Doc): string
  {
    AvenantHeader + ContentOf(d)
  }

  /** `get_cpcgav`: each bucket lists, in document order, the content of every document
      whose id carries one of its markers. The three tests are independent. */
  function GetCpCgAv(docs: seq<Doc>, cpIds: seq<string>, cgIds: seq<string>, avIds: seq<string>): (r: Buckets)
    ensures |r.cadre| <= |docs| && |r.sous| <= |docs| && |r.avenant| <= |docs|
    ensures forall d :: d in docs && IsCadre(d, cgIds) ==> ContentOf(d) in r.cadre
    ensures forall d :: d in docs && IsSous(d, cpIds) ==> ContentOf(d) in r.sous
    ensures forall d :: d in docs && IsAvenant(d, avIds) ==> AvenantBlock(d) in r.avenant
  {
    Buckets(Map(Filter(docs, (d: Doc) => IsCadre(d, cgIds)), ContentOf),
            Map(Filter(docs, (d: Doc) => IsSous(d, cpIds)), ContentOf),
            Map(Filter(docs, (d: Doc) => IsAvenant(d, avIds)), AvenantBlock))
  }

  /** One document goes to CG iff its id has a CG marker and no "-avenant-", to CP iff it
      has a CP marker, to AV (behind the amendment header) iff it has an AV marker. */
  lemma GetCpCgAvOne(d: Doc, cpIds: seq<string>, cgIds: seq<string>, avIds: seq<string>)
    ensures GetCpCgAv([d], cpIds, cgIds, avIds) == Buckets(
      if HasMarker(d.id, cgIds) && !Contains(Lower(d.id), "-avenant-") then [ContentOf(d)] else [],
      if HasMarker(d.id, cpIds) then [ContentOf(d)] else [],
      if HasMarker(d.id, avIds) then [AvenantHeader + ContentOf(d)] else [])
  {
    assert [d][1..] == [];
  }

  /** The buckets of a concatenation are the buckets of each part, in order: with the
      one-document case this fixes every bucket's content and order. */
  lemma GetCpCgAvAppend(a: seq<Doc>, b: seq<Doc>, cpIds: seq<string>, cgIds: seq<string>, avIds: seq<string>)
    ensures var x, y, z := GetCpCgAv(a, cpIds, cgIds, avIds), GetCpCgAv(b, cpIds, cgIds, avIds), GetCpCgAv(a + b, cpIds, cgIds, avIds);
      z == Buckets(x.cadre + y.cadre, x.sous + y.sous, x.avenant + y.avenant)
  {
    FilterAppend(a, b, (d: Doc) => IsCadre(d, cgIds));
    FilterAppend(a, b, (d: Doc) => IsSous(d, cpIds));
    FilterAppend(a, b, (d: Doc) => IsAvenant(d, avIds));
    MapAppend(Filter(a, (d: Doc) => IsCadre(d, cgIds)), Filter(b, (d: Doc) => IsCadre(d, cgIds)), ContentOf);
    MapAppend(Filter(a, (d: Doc) => IsSous(d, cpIds)), Filter(b, (d: Doc) => IsSous(d, cpIds)), ContentOf);
    MapAppend(Filter(a, (d: Doc) => IsAvenant(d, avIds)), Filter(b, (d: Doc) => IsAvenant(d, avIds)), AvenantBlock);
  }

  /** How many of the three buckets a document lands in: 0, 1, 2 or 3. */
  function Placements(d: Doc, cpIds: seq<string>, cgIds: seq<string>, avIds: seq<string>): nat
  {
    (if IsCadre(d, cgIds) then 1 else 0) + (if IsSous(d, cpIds) then 1 else 0) + (if IsAvenant(d, avIds) then 1 else 0)
  }

  function TotalPlacements(docs: seq<Doc>, cpIds: seq<string>, cgIds: seq<string>, avIds: seq<string>): nat
    decreases |docs|
  {
    if docs == [] then 0
    else Placements(docs[0], cpIds, cgIds, avIds) + TotalPlacements(docs[1..], cpIds, cgIds, avIds)
  }

  function BucketSizes(b: Buckets): nat
  {
    |b.cadre| + |b.sous| + |b.avenant|
  }

  /** The three bucket sizes add up to the number of placements over all documents. */
  lemma {:induction false} BucketSizesArePlacements(docs: seq<Doc>, cpIds: seq<string>, cgIds: seq<string>, avIds: seq<string>)
    ensures BucketSizes(GetCpCgAv(docs, cpIds, cgIds, avIds)) == TotalPlacements(docs, cpIds, cgIds, avIds)
    decreases |docs|
  {
    if docs != [] {
      BucketSizesArePlacements(docs[1..], cpIds, cgIds, avIds);
      GetCpCgAvAppend([docs[0]], docs[1..], cpIds, cgIds, avIds);
      GetCpCgAvOne(docs[0], cpIds, cgIds, avIds);
      assert [docs[0]] + docs[1..] == docs;
    }
  }

  // ----- The separation check -----

  /** `verify_cpcgav_separation`: the bucket sizes must add up to the number of documents,
      and the CP bucket must not be empty; the size check comes first. */
  function VerifySeparation(docs: seq<Doc>, cadre: seq<string>, sous: seq<string>, avenant: seq<string>): (r: Outcome)
    ensures r == Pass <==> |cadre| + |sous| + |avenant| == |docs| && sous != []
    ensures |cadre| + |sous| + |avenant| != |docs| ==> r == Fail(ValueError("CG/CP/AV mismatch lenght with original documents"))
    ensures |cadre| + |sous| + |avenant| == |docs| && sous == [] ==> r == Fail(ValueError("no CP in affair"))
  {
    if |docs| != |cadre| + |sous| + |avenant| then Fail(ValueError("CG/CP/AV mismatch lenght with original documents"))
    else if |sous| == 0 then Fail(ValueError("no CP in affair"))
    else Pass
  }

  function Separation(docs: seq<Doc>, cpIds: seq<string>, cgIds: seq<string>, avIds: seq<string>): Outcome
  {
    var b := GetCpCgAv(docs, cpIds, cgIds, avIds);
    VerifySeparation(docs, b.cadre, b.sous, b.avenant)
  }

  lemma {:induction false} TotalPlacementsOnes(docs: seq<Doc>, cpIds: seq<string>, cgIds: seq<string>, avIds: seq<string>)
    requires forall i :: 0 <= i < |docs| ==> Placements(docs[i], cpIds, cgIds, avIds) <= 1
    ensures TotalPlacements(docs, cpIds, cgIds, avIds) <= |docs|
    ensures TotalPlacements(docs, cpIds, cgIds, avIds) == |docs|
      <==> forall i :: 0 <= i < |docs| ==> Placements(docs[i], cpIds, cgIds, avIds) == 1
    decreases |docs|
  {
    if docs != [] {
      TotalPlacementsOnes(docs[1..], cpIds, cgIds, avIds);
      assert forall i :: 1 <= i < |docs| ==> docs[i] == docs[1..][i - 1];
    }
  }

  /** For documents that never land in two buckets, the check passes iff every document is
      classified and some document is a CP. */
  lemma SeparationOfDisjointBuckets(docs: seq<Doc>, cpIds: seq<string>, cgIds: seq<string>, avIds: seq<string>)
    requires forall i :: 0 <= i < |docs| ==> Placements(docs[i], cpIds, cgIds, avIds) <= 1
    ensures Separation(docs, cpIds, cgIds, avIds) == Pass
      <==> ((forall i :: 0 <= i < |docs| ==> Placements(docs[i], cpIds, cgIds, avIds) == 1)
        && (exists i :: 0 <= i < |docs| && IsSous(docs[i], cpIds)))
  {
    BucketSizesArePlacements(docs, cpIds, cgIds, avIds);
    TotalPlacementsOnes(docs, cpIds, cgIds, avIds);
    var sous := GetCpCgAv(docs, cpIds, cgIds, avIds).sous;
    if exists i :: 0 <= i < |docs| && IsSous(docs[i], cpIds) {
      var i :| 0 <= i < |docs| && IsSous(docs[i], cpIds);
      assert docs[i] in Filter(docs, (d: Doc) => IsSous(d, cpIds));
    }
    if sous != [] {
      var d := Filter(docs, (d: Doc) => IsSous(d, cpIds))[0];
      assert d in docs;
    }
  }

  /** An id that contains neither 'c' nor 'a' carries none of the module's markers, as every
      one of them has a 'C' or an 'A'. */
  lemma NoMarkerWithout(id: string, f: string)
    requires f in CpIdentifiers + CgIdentifiers + AvIdentifiers
    requires 'c' !in Lower(id) && 'a' !in Lower(id)
    ensures !Contains(Lower(id), Lower(f))
  {
    var ch := if 'C' in f then 'C' else 'A';
    assert ch in f;
    var k :| 0 <= k < |f| && f[k] == ch;
    assert Lower(f)[k] == LowerChar(ch);
    if Contains(Lower(id), Lower(f)) {
      ContainsChars(Lower(id), Lower(f), LowerChar(ch));
    }
  }

  lemma WitnessSlices()
    ensures "x-cp-avenant-1.pdf"[2..4] == "cp"
    ensures "x-cp-avenant-1.pdf"[5..13] == "avenant-"
    ensures "x-cp-avenant-1.pdf"[4..13] == "-avenant-"
  {
  }

  /** The id "x-cp-avenant-1.pdf" carries the CP marker "CP". */
  lemma WitnessIsSous()
    ensures IsSous(Doc("x-cp-avenant-1.pdf", None), CpIdentifiers)
  {
    var id := "x-cp-avenant-1.pdf";
    LowerIdentity(id);
    assert Lower("CP") == "cp";
    WitnessSlices();
    ContainsAt(id, "cp", 2);
    assert "CP" in CpIdentifiers;
  }

  /** The id "x-cp-avenant-1.pdf" carries the AV marker "AVENANT-". */
  lemma WitnessIsAvenant()
    ensures IsAvenant(Doc("x-cp-avenant-1.pdf", None), AvIdentifiers)
  {
    var id := "x-cp-avenant-1.pdf";
    LowerIdentity(id);
    assert Lower("AVENANT-") == "avenant-";
    WitnessSlices();
    ContainsAt(id, "avenant-", 5);
    assert "AVENANT-" in AvIdentifiers;
  }

  /** The id "x-cp-avenant-1.pdf" holds "-avenant-", so it is not a CG. */
  lemma WitnessNotCadre()
    ensures !IsCadre(Doc("x-cp-avenant-1.pdf", None), CgIdentifiers)
  {
    var id := "x-cp-avenant-1.pdf";
    LowerIdentity(id);
    WitnessSlices();
    ContainsAt(id, "-avenant-", 4);
  }

  /** "x-cp-avenant-1.pdf" is both a CP and an amendment, and not a CG. */
  lemma DoubleClassified()
    ensures Placements(Doc("x-cp-avenant-1.pdf", None), CpIdentifiers, CgIdentifiers, AvIdentifiers) == 2
    ensures IsSous(Doc("x-cp-avenant-1.pdf", None), CpIdentifiers)
    ensures IsAvenant(Doc("x-cp-avenant-1.pdf", None), AvIdentifiers)
    ensures !IsCadre(Doc("x-cp-avenant-1.pdf", None), CgIdentifiers)
  {
    WitnessIsSous();
    WitnessIsAvenant();
    WitnessNotCadre();
  }

  /** "notes.txt" lands in no bucket. */
  lemma Unclassified()
    ensures Placements(Doc("notes.txt", None), CpIdentifiers, CgIdentifiers, AvIdentifiers) == 0
  {
    var id := "notes.txt";
    LowerIdentity(id);
    forall f | f in CpIdentifiers + CgIdentifiers + AvIdentifiers
      ensures !Contains(Lower(id), Lower(f))
    {
      NoMarkerWithout(id, f);
    }
  }

  /** The check counts only: one document that is both a CP and an amendment and one
      document that is neither pass it together. */
  lemma SeparationCountsOnly()
    ensures var docs := [Doc("x-cp-avenant-1.pdf", None), Doc("notes.txt", None)];
      && Placements(docs[0], CpIdentifiers, CgIdentifiers, AvIdentifiers) == 2
      && Placements(docs[1], CpIdentifiers, CgIdentifiers, AvIdentifiers) == 0
      && Separation(docs, CpIdentifiers, CgIdentifiers, AvIdentifiers) == Pass
  {
    var d0, d1 := Doc("x-cp-avenant-1.pdf", None), Doc("notes.txt", None);
    DoubleClassified();
    Unclassified();
    var docs := [d0, d1];
    BucketSizesArePlacements(docs, CpIdentifiers, CgIdentifiers, AvIdentifiers);
    assert docs[1..] == [d1] && docs[1..][1..] == [];
    assert d0 in Filter(docs, (d: Doc) => IsSous(d, CpIdentifiers));
  }

  // ----- Prompts -----

  /** `process_cgcp`: the CG texts and the CP texts, each joined with newlines. Every text
      occurs in its joined string, which is exactly as long as its parts and the newlines
      between them; no texts give "", and one text is its own string. */
  function ProcessCgCp(cadre: seq<string>, sous: seq<string>): (r: (string, string))
    ensures forall i :: 0 <= i < |cadre| ==> Contains(r.0, cadre[i])
    ensures forall i :: 0 <= i < |sous| ==> Contains(r.1, sous[i])
    ensures cadre != [] ==> |r.0| == TotalLength(cadre) + |cadre| - 1
    ensures sous != [] ==> |r.1| == TotalLength(sous) + |sous| - 1
    ensures cadre == [] ==> r.0 == ""
    ensures sous == [] ==> r.1 == ""
    ensures |cadre| == 1 ==> r.0 == cadre[0]
    ensures |sous| == 1 ==> r.1 == sous[0]
  {
    JoinKeepsParts("\n", cadre);
    JoinKeepsParts("\n", sous);
    (Join("\n", cadre), Join("\n", sous))
  }

  /** The texts keep their order: the joined string of two non-empty lists of texts is the
      first list's string, one newline, then the second list's string. With the one-text case
      of `ProcessCgCp` this fixes both strings for every input. */
  lemma ProcessCgCpAppend(cadre1: seq<string>, cadre2: seq<string>, sous1: seq<string>, sous2: seq<string>)
    ensures cadre1 != [] && cadre2 != [] ==>
      ProcessCgCp(cadre1 + cadre2, sous1).0 == ProcessCgCp(cadre1, sous1).0 + "\n" + ProcessCgCp(cadre2, sous1).0
    ensures sous1 != [] && sous2 != [] ==>
      ProcessCgCp(cadre1, sous1 + sous2).1 == ProcessCgCp(cadre1, sous1).1 + "\n" + ProcessCgCp(cadre1, sous2).1
  {
    if cadre1 != [] && cadre2 != [] {
      JoinAppend("\n", cadre1, cadre2);
    }
    if sous1 != [] && sous2 != [] {
      JoinAppend("\n", sous1, sous2);
    }
  }

  datatype Message = Message(role: string, content: string)

  const ContentLead: string := "DOCUMENT CONTENT:\n\n"
  const TaskLead: string := "\n\nTASK:\n"

  function UserContent(block: string, question: string): string
  {
    ContentLead + block + TaskLead + question
  }

  /** The CG section then the CP section, each stripped, behind its header. */
  function CgCpBlock(cadreStr: string, sousStr: string): string
  {
    CadreHeader + Strip(cadreStr) + "\n\n" + SouscriptionHeader + Strip(sousStr)
  }

  /** `build_message_cgcp`: the system prompt, then one user message that carries the
      stripped CG text behind its header, the stripped CP text behind its header, and ends
      with the question. */
  function BuildMessageCgCp(cadreStr: string, sousStr: string, question: string, prompt: string): (r: seq<Message>)
    ensures |r| == 2 && r[0] == Message("system", prompt) && r[1].role == "user"
    ensures Contains(r[1].content, CadreHeader + Strip(cadreStr))
    ensures Contains(r[1].content, SouscriptionHeader + Strip(sousStr))
    ensures |question| <= |r[1].content| && r[1].content[|r[1].content| - |question|..] == question
  {
    BlockParts(ContentLead, CadreHeader, Strip(cadreStr), "\n\n", SouscriptionHeader, Strip(sousStr), TaskLead, question);
    [Message("system", prompt), Message("user", UserContent(CgCpBlock(cadreStr, sousStr), question))]
  }

  /** Both sections of a two-section block can be found in a message built around it. */
  lemma BlockParts(lead: string, h1: string, c: string, sep: string, h2: string, p: string, task: string, q: string)
    ensures var u := lead + (h1 + c + sep + h2 + p) + task + q;
      && Contains(u, h1 + c) && Contains(u, h2 + p)
      && |q| <= |u| && u[|u| - |q|..] == q
  {
    var u := lead + (h1 + c + sep + h2 + p) + task + q;
    assert u[|lead|..|lead| + |h1 + c|] == h1 + c;
    ContainsAt(u, h1 + c, |lead|);
    var k := |lead| + |h1| + |c| + |sep|;
    assert u[k..k + |h2 + p|] == h2 + p;
    ContainsAt(u, h2 + p, k);
  }

  /** `build_message_avenant`: the system prompt, then one user message in which the
      amendment text, passed as it is and unstripped, and the question sit at fixed places
      behind their leads, so both can be read back from it. */
  function BuildMessageAvenant(avenantStr: string, question: string, prompt: string): (r: seq<Message>)
    ensures |r| == 2 && r[0] == Message("system", prompt) && r[1].role == "user"
    ensures var u, n := r[1].content, |ContentLead| + |avenantStr|;
      && |u| == n + |TaskLead| + |question|
      && u[..|ContentLead|] == ContentLead
      && u[|ContentLead|..n] == avenantStr
      && u[n..n + |TaskLead|] == TaskLead
      && u[|u| - |question|..] == question
  {
    [Message("system", prompt), Message("user", UserContent(avenantStr, question))]
  }

  /** The CG+CP message is the amendment message built on the combined block, with the same
      system prompt. */
  lemma CgCpIsAvenantOfBlock(cadreStr: string, sousStr: string, question: string, prompt: string)
    ensures BuildMessageCgCp(cadreStr, sousStr, question, prompt)
      == BuildMessageAvenant(CgCpBlock(cadreStr, sousStr), question, prompt)
    ensures BuildMessageCgCp(cadreStr, sousStr, question, prompt)[0] == Message("system", prompt)
  {
  }

  /** Whitespace around the CG or CP text does not reach the message. */
  lemma BuildMessageCgCpIgnoresEdgeSpace(cadreStr: string, sousStr: string, question: string, prompt: string)
    ensures BuildMessageCgCp(Strip(cadreStr), Strip(sousStr), question, prompt)
      == BuildMessageCgCp(cadreStr, sousStr, question, prompt)
  {
    StripByIdempotent(cadreStr, IsSpace);
    StripByIdempotent(sousStr, IsSpace);
  }

  /** Each amendment message carries the amendment header and the document's text. */
  lemma AvenantMessageCarriesDocument(d: Doc, question: string, prompt: string)
    ensures Contains(BuildMessageAvenant(AvenantBlock(d), question, prompt)[1].content, AvenantHeader + ContentOf(d))
  {
    ContainsAt(UserContent(AvenantBlock(d), question), AvenantBlock(d), |ContentLead|);
  }
}
