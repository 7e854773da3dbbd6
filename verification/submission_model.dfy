/**
 * The Submission document (server/models/Submission.js): its fields, the
 * `proofType` and `status` enumerations, the defaults and the validators.
 */
module SubmissionModel {
  import opened Api
  import opened JsText

  const DescriptionRequired := "Solution description is required"
  const ProofUrlRequired := "Proof URL is required"

  /** The `proofType` enumeration: 'image', 'video', 'file', 'url'. */
  datatype ProofType = Image | Video | File | Url

  function ProofTypeName(t: ProofType): (name: string)
    ensures ParseProofType(name) == Some(t)
  {
    match t
    case Image => "image"
    case Video => "video"
    case File => "file"
    case Url => "url"
  }

  /** The enum validator: only the four names are accepted. */
  function ParseProofType(s: string): (r: Option<ProofType>)
    ensures r.None? <==> s !in {"image", "video", "file", "url"}
  {
    if s == "image" then Some(Image)
    else if s == "video" then Some(Video)
    else if s == "file" then Some(File)
    else if s == "url" then Some(Url)
    else None
  }

  /** The enum names and the parser are inverse to each other. */
  lemma ParseInvertsName(s: string, t: ProofType)
    ensures ParseProofType(s) == Some(t) <==> s == ProofTypeName(t)
  {
  }

  /** Mongoose's default enum message. */
  function EnumMessage(value: string, path: string): string
  {
    "`" + value + "` is not a valid enum value for path `" + path + "`."
  }

  /** The `status` enumeration: 'Pending', 'Approved', 'Rejected'. */
  datatype SubmissionStatus = Pending | Approved | Rejected

  /** A stored submission. `proofFileName` is null-able. */
  datatype Submission = Submission(
    id: Id,
    bugId: Id,
    submittedBy: Id,
    solutionDescription: string,
    proofType: ProofType,
    proofUrl: string,
    proofFileName: Option<string>,
    status: SubmissionStatus,
    createdAt: int)

  /** The validators of the schema, in path order, applied after the `trim`
      setters. `bugId` and `submittedBy` are always supplied by the
      controller, and `status` is never supplied, so they cannot fail. */
  function SubmissionViolations(solutionDescription: string, proofType: string, proofUrl: string): (vs: seq<Violation>)
    ensures vs == [] <==> solutionDescription != "" && ParseProofType(proofType).Some? && proofUrl != ""
    ensures Violation("solutionDescription", DescriptionRequired) in vs <==> solutionDescription == ""
    ensures (Violation("proofType", EnumMessage(proofType, "proofType")) in vs) <==> ParseProofType(proofType).None?
    ensures Violation("proofUrl", ProofUrlRequired) in vs <==> proofUrl == ""
    // no other message, and at most one per path
    ensures forall v :: v in vs ==> v in {Violation("solutionDescription", DescriptionRequired),
                                          Violation("proofType", EnumMessage(proofType, "proofType")),
                                          Violation("proofUrl", ProofUrlRequired)}
    ensures forall i, j :: 0 <= i < j < |vs| ==> vs[i].path != vs[j].path
    ensures |vs| <= 3
  {
    (if solutionDescription == "" then [Violation("solutionDescription", DescriptionRequired)] else [])
    + (if ParseProofType(proofType).None? then [Violation("proofType", EnumMessage(proofType, "proofType"))] else [])
    + (if proofUrl == "" then [Violation("proofUrl", ProofUrlRequired)] else [])
  }

  /** What the schema guarantees of every stored submission. */
  ghost predicate SchemaValid(s: Submission)
  {
    && IsTrimmed(s.solutionDescription) && s.solutionDescription != ""
    && IsTrimmed(s.proofUrl) && s.proofUrl != ""
  }

  /** `Submission.create({...})`: run the setters, then the validators; on
      success the document is Pending and created now. */
  function CreateSubmissionDocument(id: Id, bugId: Id, submittedBy: Id, solutionDescription: string,
                                    proofType: string, proofUrl: string, proofFileName: Option<string>,
                                    now: int): (r: Validated<Submission>)
    ensures r.Valid? <==> (Trim(solutionDescription) != "" && ParseProofType(proofType).Some?
                           && Trim(proofUrl) != "")
    ensures r.Valid? ==> SchemaValid(r.doc)
    ensures r.Valid? ==> r.doc.id == id && r.doc.bugId == bugId && r.doc.submittedBy == submittedBy
                         && r.doc.solutionDescription == Trim(solutionDescription)
                         && ProofTypeName(r.doc.proofType) == proofType
                         && r.doc.proofUrl == Trim(proofUrl) && r.doc.proofFileName == proofFileName
                         && r.doc.createdAt == now
    ensures r.Valid? ==> r.doc.status == Pending
    ensures r.Invalid? ==> r.violations == SubmissionViolations(Trim(solutionDescription), proofType, Trim(proofUrl)) != []
  {
    var d, u := Trim(solutionDescription), Trim(proofUrl);
    var vs := SubmissionViolations(d, proofType, u);
    if vs != [] then Invalid(vs)
    else
      var t := ParseProofType(proofType).value;
      ParseInvertsName(proofType, t);
      Valid(Submission(id, bugId, submittedBy, d, t, u, proofFileName, Pending, now))
  }
}
