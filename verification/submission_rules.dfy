/**
 * The decisions of server/controllers/submissionController.js as pure
 * functions: the ordered checks of `createSubmission`, the ordered guards
 * of `approveSubmission`, and the three parts of the approval's effect on
 * the bug, on the submissions and on the users' earnings.
 */
module SubmissionRules {
  import opened Api
  import opened JsText
  import opened BugModel
  import opened SubmissionModel

  const MissingDescription := "Please provide solution description"
  const MissingProof := "Please provide proof (image link, video link, file, or URL)"
  const BugIsClosed := "Cannot submit solution to a closed bug"
  const OwnBug := "Bug creator cannot submit solution to their own bug"
  const SubmissionNotFound := "Submission not found"
  const NotBugCreator := "Only bug creator can approve submissions"
  const AlreadyClosed := "Bug is already closed"
  const AlreadyApproved := "Submission is already approved"
  /** The TypeError that dereferencing a null document raises. */
  const NullIdRead := "Cannot read properties of null (reading '_id')"

  /** The JSON body of `POST /api/bugs/:id/submissions`. */
  datatype NewSubmissionRequest = NewSubmissionRequest(
    solutionDescription: Option<string>,
    proofUrl: Option<string>,
    proofType: Option<string>,
    proofFileName: Option<string>)

  /** `proofType || 'url'`. */
  function ProofTypeOrDefault(t: Option<string>): (name: string)
    ensures Truthy(t) ==> name == t.value
    ensures !Truthy(t) ==> name == "url"
    // a missing or empty proof type is stored as a URL proof ...
    ensures !Truthy(t) ==> ParseProofType(name) == Some(Url)
    // ... so only an explicit name outside the enumeration can fail the enum validator
    ensures ParseProofType(name).None? <==> Truthy(t) && t.value !in {"image", "video", "file", "url"}
  {
    if Truthy(t) then t.value else "url"
  }

  /** `proofFileName || null`. */
  function FileNameOrNull(n: Option<string>): (r: Option<string>)
    ensures r == None <==> !Truthy(n)
    ensures r.Some? ==> r == n
    // a stored file name is never the empty string
    ensures r.Some? ==> r.value != ""
  {
    if Truthy(n) then n else None
  }

  /** The response of `createSubmission` by `caller` on bug `bugId`, where
      `id` is the id the store allocates and `now` the clock. Five checks,
      in order, the first failure deciding the error; then the schema
      (500 on a ValidationError, e.g. a blank description or an unknown
      proof type). */
  function SubmitOutcome(bugs: map<Id, Bug>, caller: Id, bugId: Id, req: NewSubmissionRequest,
                         id: Id, now: int): (r: Result<Submission, Error>)
    ensures !Truthy(req.solutionDescription) ==> r == Err(BadRequest(MissingDescription))
    ensures Truthy(req.solutionDescription) && !Truthy(req.proofUrl) ==> r == Err(BadRequest(MissingProof))
    ensures (Truthy(req.solutionDescription) && Truthy(req.proofUrl) && bugId !in bugs)
              ==> r == Err(NotFound(BugNotFound))
    ensures (Truthy(req.solutionDescription) && Truthy(req.proofUrl) && bugId in bugs
             && bugs[bugId].status == Closed)
              ==> r == Err(BadRequest(BugIsClosed))
    ensures (Truthy(req.solutionDescription) && Truthy(req.proofUrl) && bugId in bugs
             && bugs[bugId].status != Closed && bugs[bugId].createdBy == caller)
              ==> r == Err(Forbidden(OwnBug))
    ensures r.Ok? ==> Truthy(req.solutionDescription) && Truthy(req.proofUrl) && bugId in bugs
                      && bugs[bugId].status != Closed && bugs[bugId].createdBy != caller
    ensures r.Ok? ==> var s := r.value;
              && s.id == id && s.bugId == bugId && s.submittedBy == caller && s.createdAt == now
              && s.status == Pending
              && ProofTypeName(s.proofType) == ProofTypeOrDefault(req.proofType)
              && s.proofFileName == FileNameOrNull(req.proofFileName)
              && s.solutionDescription == Trim(req.solutionDescription.value)
              && s.proofUrl == Trim(req.proofUrl.value)
              && SubmissionModel.SchemaValid(s)
    ensures r.Err? && r.error.ServerError? ==>
              Trim(req.solutionDescription.value) == "" || Trim(req.proofUrl.value) == ""
              || ParseProofType(ProofTypeOrDefault(req.proofType)).None?
    // success exactly when the five checks and the schema's validators all pass
    ensures r.Ok? <==> Truthy(req.solutionDescription) && Truthy(req.proofUrl) && bugId in bugs
                       && bugs[bugId].status != Closed && bugs[bugId].createdBy != caller
                       && Trim(req.solutionDescription.value) != "" && Trim(req.proofUrl.value) != ""
                       && ParseProofType(ProofTypeOrDefault(req.proofType)).Some?
    // past the five checks, a failure is the schema's ValidationError, listing every failed path
    ensures (Truthy(req.solutionDescription) && Truthy(req.proofUrl) && bugId in bugs
             && bugs[bugId].status != Closed && bugs[bugId].createdBy != caller && !r.Ok?)
              ==> r == Err(ValidationFailure("Submission",
                             SubmissionViolations(Trim(req.solutionDescription.value),
                                                  ProofTypeOrDefault(req.proofType),
                                                  Trim(req.proofUrl.value))))
  {
    if !Truthy(req.solutionDescription) then Err(BadRequest(MissingDescription))
    else if !Truthy(req.proofUrl) then Err(BadRequest(MissingProof))
    else if bugId !in bugs then Err(NotFound(BugNotFound))
    else if bugs[bugId].status == Closed then Err(BadRequest(BugIsClosed))
    else if bugs[bugId].createdBy == caller then Err(Forbidden(OwnBug))
    else
      match CreateSubmissionDocument(id, bugId, caller, req.solutionDescription.value,
                                     ProofTypeOrDefault(req.proofType), req.proofUrl.value,
                                     FileNameOrNull(req.proofFileName), now)
      case Valid(s) => Ok(s)
      case Invalid(vs) => Err(ValidationFailure("Submission", vs))
  }

  /** The guards of `approveSubmission`, in order; `None` when all pass.
      A submission whose bug is gone comes back from `populate` with a null
      `bugId`, so reading its `_id` throws and the catch block answers 500:
      the 404 'Bug not found' branch that follows cannot be reached. */
  function ApproveGuard(bugs: map<Id, Bug>, subs: map<Id, Submission>, actor: Id, sid: Id): (r: Option<Error>)
    ensures sid !in subs ==> r == Some(NotFound(SubmissionNotFound))
    ensures sid in subs && subs[sid].bugId !in bugs ==> r == Some(ServerError(NullIdRead))
    // a non-owner is refused whatever the state of the bug and the submission
    ensures (sid in subs && subs[sid].bugId in bugs && bugs[subs[sid].bugId].createdBy != actor)
              ==> r == Some(Forbidden(NotBugCreator))
    ensures (sid in subs && subs[sid].bugId in bugs && bugs[subs[sid].bugId].createdBy == actor
             && bugs[subs[sid].bugId].status == Closed)
              ==> r == Some(BadRequest(AlreadyClosed))
    ensures (sid in subs && subs[sid].bugId in bugs && bugs[subs[sid].bugId].createdBy == actor
             && bugs[subs[sid].bugId].status != Closed && subs[sid].status == Approved)
              ==> r == Some(BadRequest(AlreadyApproved))
    // Pending and Rejected submissions on a bug that is not Closed both pass
    ensures r == None <==> sid in subs && subs[sid].bugId in bugs
                           && bugs[subs[sid].bugId].createdBy == actor
                           && bugs[subs[sid].bugId].status != Closed
                           && subs[sid].status != Approved
  {
    if sid !in subs then Some(NotFound(SubmissionNotFound))
    else
      var s := subs[sid];
      if s.bugId !in bugs then Some(ServerError(NullIdRead))
      else
        var b := bugs[s.bugId];
        if b.createdBy != actor then Some(Forbidden(NotBugCreator))
        else if b.status == Closed then Some(BadRequest(AlreadyClosed))
        else if s.status == Approved then Some(BadRequest(AlreadyApproved))
        else None
  }

  /** `bug.status = 'Closed'; bug.winner = ...; bug.rewarded = true`. */
  function CloseBug(b: Bug, winner: Id): (c: Bug)
    ensures c.status == Closed && c.winner == Some(winner) && c.rewarded
    ensures c.(status := b.status, winner := b.winner, rewarded := b.rewarded) == b
  {
    b.(status := Closed, winner := Some(winner), rewarded := true)
  }

  /** The filter of the `updateMany`: another Pending submission of the
      same bug. */
  predicate IsPendingSibling(s: Submission, bugId: Id, sid: Id)
  {
    s.bugId == bugId && s.id != sid && s.status == Pending
  }

  /** `Submission.updateMany({ bugId, _id: { $ne: sid }, status: 'Pending' },
      { status: 'Rejected' })`. */
  function RejectSiblings(subs: map<Id, Submission>, bugId: Id, sid: Id): (r: map<Id, Submission>)
    ensures r.Keys == subs.Keys
    // only the status of a document can change
    ensures forall k :: k in subs ==> r[k] == subs[k].(status := r[k].status)
    // exactly the Pending siblings become Rejected ...
    ensures forall k :: k in subs && IsPendingSibling(subs[k], bugId, sid) ==> r[k].status == Rejected
    // ... and every other document is left as it was
    ensures forall k :: k in subs && !IsPendingSibling(subs[k], bugId, sid) ==> r[k] == subs[k]
    // afterwards no submission of the bug but `sid` is Pending
    ensures forall k :: k in r && r[k].bugId == bugId && r[k].id != sid ==> r[k].status != Pending
  {
    map k | k in subs :: if IsPendingSibling(subs[k], bugId, sid) then subs[k].(status := Rejected) else subs[k]
  }

  /** `winner.totalEarnings += bountyAmount`, skipped when the winner's
      account does not exist. */
  function Credit(earnings: map<Id, int>, user: Id, amount: int): (r: map<Id, int>)
    ensures r.Keys == earnings.Keys
    ensures user in earnings ==> r[user] == earnings[user] + amount
    ensures forall u :: u in earnings && u != user ==> r[u] == earnings[u]
    ensures user !in earnings ==> r == earnings
  {
    if user in earnings then earnings[user := earnings[user] + amount] else earnings
  }
}
