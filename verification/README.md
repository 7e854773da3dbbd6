# Bug bounty workflow — a Dafny model

This project models the core of a small bug-bounty platform. Users post bugs with a bounty. Other users submit solutions with a proof: a link or an uploaded file. The bug's creator approves one submission. Approval closes the bug, names the winner, credits the bounty to the winner's earnings and rejects the remaining pending submissions.

The model covers:

- the server's Express controllers (`createBug`, `getBugs`, `getBugById`, `createSubmission`, `getSubmissions`, `approveSubmission`);
- the two Mongoose schemas (`Bug`, `Submission`);
- the client's submission form (`CreateSubmission.jsx`).

Layout:

| file | module | what |
|---|---|---|
| api.dfy | `Api` | ids, `Option`, `Result`, the HTTP error kinds, Mongoose validation errors |
| js_text.dfy | `JsText` | JavaScript truthiness of a request field and `String.prototype.trim` |
| listing.dfy | `Listing` | `.sort({ createdAt: -1 })`: newest-first order and insertion |
| bug_model.dfy | `BugModel` | the Bug document: fields, enum, defaults, `trim` setters, validators |
| submission_model.dfy | `SubmissionModel` | the Submission document, likewise |
| bug_rules.dfy | `BugRules` | the ordered checks of `createBug` |
| submission_rules.dfy | `SubmissionRules` | the ordered checks of `createSubmission` and `approveSubmission`, and the parts of the approval's effect |
| workflow.dfy | `Workflow` | the whole datastore as a state machine, its invariants and the lemmas about runs |
| store.dfy | `Server` | class `Store`: the handlers as methods that update the collections in place |
| create_submission_form.dfy | `CreateSubmissionForm` | the form's decision and class `SubmissionForm` for its state |

Modelling choices:

- **Document ids** are natural numbers that the store hands out from a counter. A malformed id, which Mongoose reports as a CastError and the controllers answer with 404, behaves like an id that is not in the store.
- **The clock** (`Date.now`) is a parameter `now`. **Money** is an integer.
- **A request field** the body omits is `None`. JavaScript truthiness is modelled exactly: an empty string and the amount 0 are falsy.
- **Validation inside `Model.create`** runs the `trim` setters first, then the validators. A failed validator throws a ValidationError, which the controllers' catch blocks answer with 500 and the message "`<Model> validation failed: path: message, ...`". The model keeps that path: for example, a whitespace-only title passes the controller's truthiness check and ends in a 500.
- **Concurrency.** Each request is one atomic step.

### Error paths of `approveSubmission` that end in a 500

- **A missing bug.** The branch at server/controllers/submissionController.js:147-152 reads as a 404 "Bug not found", but it cannot be reached. `findById(...).populate('bugId')` turns a reference to a deleted bug into `null`, so `submission.bugId._id` on line 146 throws a TypeError first. The catch block answers 500 "Cannot read properties of null (reading '_id')" (`SubmissionRules.ApproveGuard`).
- **A missing winner account.** The response reads `winner._id` only after all four writes have been saved, so a missing account yields a 500 with the same TypeError message. By then the submission is Approved, the bug is Closed and the siblings are Rejected (`Workflow.ApprovalResponse`).

## Model

| member | source | states |
|---|---|---|
| JsText.TrimStart | server/models/Bug.js:7 | the result is no longer than the input and does not start with white space |
| JsText.TrimStartDropsWhitespace | server/models/Bug.js:7 | the leading part is removed: the result is a suffix of the input and everything dropped is white space |
| JsText.TrimEnd | server/models/Bug.js:7 | the result is a prefix of the input and does not end with white space |
| JsText.TrimEndDropsWhitespace | server/models/Bug.js:7 | everything the end-trim drops is white space |
| JsText.Trim | server/models/Bug.js:7 | the result is no longer than the input and has white space at neither end |
| JsText.TrimIsSlice | server/models/Submission.js:17 | trimming only removes white space from the two ends: the result is a contiguous piece of the input |
| JsText.TrimBlank | client/src/components/CreateSubmission.jsx:77 | a string trims to nothing exactly when it is all white space, so the blank tests and the `required` validator after `trim` reject exactly the whitespace-only strings |
| JsText.TrimmedIsFixed | server/models/Submission.js:27 | the setter leaves an already trimmed value unchanged |
| JsText.TrimFixes | server/models/Bug.js:13 | `trim` fixes exactly the trimmed strings and is idempotent |
| Listing.InsertNewestFirst | server/controllers/bugController.js:58 | inserting into a newest-first list keeps it newest first and adds exactly the one element |
| Listing.DocumentsPerKey | server/controllers/bugController.js:58 | a collection whose documents are stored under their own ids holds one document per id, so a listing of its documents has one entry per id |
| BugModel.BugStatusName | server/models/Bug.js:20-24 | a status is one of 'Open', 'In Review', 'Closed' |
| BugModel.BugStatusNamesDiffer | server/models/Bug.js:20-24 | two statuses have the same name only if they are the same status, so the stored string determines the status |
| BugModel.BugViolations | server/models/Bug.js:4-19 | no validator fails iff the title is non-empty and at most 200 characters, the description is non-empty and the amount is at least 0; each message is reported iff its validator fails: "Title is required" iff the title is empty, "Title cannot exceed 200 characters" iff it is non-empty and longer, "Description is required" iff the description is empty, "Bounty amount must be positive" iff the amount is negative; no other message, and at most one per path |
| BugModel.CreateBugDocument | server/models/Bug.js:3-43 | creation succeeds iff the trimmed title and description and the amount pass the validators; the stored bug holds the trimmed texts, its creator and the defaults status Open, no winner, not rewarded, created now; a failure reports the validators' violations of the trimmed values |
| SubmissionModel.ProofTypeName | server/models/Submission.js:19-23 | every proof type's name is accepted by the enum validator and parses back to that type |
| SubmissionModel.ParseProofType | server/models/Submission.js:19-23 | exactly the names image, video, file and url are accepted |
| SubmissionModel.ParseInvertsName | server/models/Submission.js:19-23 | a name parses to a type exactly when it is that type's name |
| SubmissionModel.SubmissionViolations | server/models/Submission.js:14-28 | no validator fails iff the description and URL are non-empty and the proof type is in the enum; "Solution description is required" iff the description is empty, the enum message naming the value iff the type is not in the enum, "Proof URL is required" iff the URL is empty; no other message, and at most one per path |
| SubmissionModel.CreateSubmissionDocument | server/models/Submission.js:3-42 | creation succeeds iff the trimmed description and URL are non-empty and the type is valid; the stored document holds the trimmed texts, the references, the file name, status Pending and the creation time; a failure reports the validators' violations of the trimmed values |
| BugRules.CreateBugOutcome | server/controllers/bugController.js:9-46 | missing (falsy) fields give 400 before anything else, and an amount of 0 is among them; then a non-positive amount gives 400, which only a negative amount can reach; a schema failure gives 500 only for a blank or over-long title or a blank description, and its message is "Bug validation failed: " followed by every failed path of the trimmed values; success iff all checks pass, with the creator as `createdBy` and the schema defaults |
| SubmissionRules.ProofTypeOrDefault | server/controllers/submissionController.js:61 | a missing or empty proof type is stored as a URL proof, so the enum validator fails exactly for an explicit name other than image, video, file and url |
| SubmissionRules.FileNameOrNull | server/controllers/submissionController.js:62 | a given non-empty file name is kept, and a stored file name is never the empty string |
| SubmissionRules.SubmitOutcome | server/controllers/submissionController.js:10-85 | five checks in order, the first failure deciding: no description (400), no proof (400), unknown bug (404), closed bug (400), own bug (403); success iff the five checks pass and the trimmed description and URL are non-empty and the proof type (or 'url') is in the enum, storing the caller as author, the type or 'url', the file name or null, status Pending; past the five checks any failure is a 500 "Submission validation failed: " followed by every failed path |
| SubmissionRules.ApproveGuard | server/controllers/submissionController.js:137-176 | the guards in order: unknown submission 404; a vanished bug 500 (the null dereference); non-owner 403 whatever the state; closed bug 400; an Approved submission 400; Pending and Rejected submissions of an open bug pass |
| SubmissionRules.CloseBug | server/controllers/submissionController.js:184-187 | the bug becomes Closed with the winner set and rewarded, and nothing else in it changes |
| SubmissionRules.RejectSiblings | server/controllers/submissionController.js:197-204 | the same documents; only statuses change; exactly the other Pending submissions of the bug become Rejected, all others are unchanged; afterwards no other submission of the bug is Pending |
| SubmissionRules.Credit | server/controllers/submissionController.js:190-194 | the winner gains exactly the amount, every other account is unchanged, and a missing account changes nothing |
| Workflow.EmptyConsistent | server/controllers/submissionController.js:133-236 | the empty store satisfies the invariants |
| Workflow.InsertBugKeepsConsistent | server/controllers/bugController.js:27-32 | inserting a fresh Open bug that satisfies the bug invariant under the next id keeps the invariants |
| Workflow.CreateBugKeepsConsistent | server/controllers/bugController.js:27-32 | inserting a created bug keeps the invariants |
| Workflow.InsertSubmissionKeepsConsistent | server/controllers/submissionController.js:56-63 | inserting a fresh Pending submission of an existing, open bug of another user under the next id keeps the invariants |
| Workflow.SubmitKeepsConsistent | server/controllers/submissionController.js:56-63 | inserting a created submission keeps the invariants |
| Workflow.ApprovedSubs | server/controllers/submissionController.js:180-204 | after approval each submission is, document by document, Approved (the approved one), Rejected (a pending sibling) or unchanged |
| Workflow.ApproveKeepsBugs | server/controllers/submissionController.js:184-187 | after approval every bug still satisfies its invariant (Closed iff it has a winner iff it was rewarded) |
| Workflow.ApproveKeepsSubs | server/controllers/submissionController.js:180-204 | after approval every submission still satisfies its invariant, and no submission but the approved one became Approved |
| Workflow.ApproveKeepsConsistent | server/controllers/submissionController.js:133-236 | an approval request keeps the invariants: at most one Approved submission per bug, a Closed bug has one and no Pending submission |
| Workflow.StepKeepsConsistent | server/controllers/submissionController.js:133-236 | every request keeps the invariants |
| Workflow.RunKeepsConsistent | server/controllers/submissionController.js:133-236 | after any sequence of requests the invariants hold: one winner and one Approved submission per bug, no Pending submission left on a Closed bug, and a Rejected submission only on a Closed bug |
| Workflow.ApprovalOutcome | server/controllers/submissionController.js:178-204 | a successful approval makes the submission Approved, the bug Closed with the author as winner and rewarded, changes no other bug, credits exactly the bounty to the winner and nobody else, and leaves no other Pending submission on the bug |
| Workflow.ApprovalResponse | server/controllers/submissionController.js:206-223 | once the guards pass, the writes happen; the response is 500 exactly when the winner has no account, otherwise it reports the new balance |
| Workflow.NonOwnerCannotApprove | server/controllers/submissionController.js:155-160 | approval by anybody but the creator answers 403 and changes nothing |
| Workflow.ClosedBugRefusesApproval | server/controllers/submissionController.js:163-168 | approval of a submission of a Closed bug fails and changes nothing: no second payout |
| Workflow.SecondApprovalRefused | server/controllers/submissionController.js:163-168 | after a successful approval, approving the same or any sibling submission again fails and changes nothing |
| Workflow.ClosedBugIsFinal | server/controllers/submissionController.js:40-45 | no request changes a Closed bug's record or adds a submission to it, and approvals on it pay nobody |
| Workflow.ApprovalLeavesClosedBug | server/controllers/submissionController.js:162-168 | an approval adds no submission, never changes a Closed bug, and changes nothing at all when it targets a submission of a Closed bug |
| Workflow.ClosedBugStaysClosed | server/controllers/submissionController.js:162-168 | over any run a Closed bug keeps its record |
| Workflow.DecidedSubmissionIsFinal | server/controllers/submissionController.js:162-204 | no request changes an Approved or Rejected submission: the approval guards refuse its Closed bug, and the bulk update only touches Pending ones |
| Workflow.DecidedSubmissionStaysDecided | server/controllers/submissionController.js:162-204 | over any run an Approved or Rejected submission keeps its record, so a rejected solution is never approved later |
| Workflow.StepNeverLowersEarnings | server/controllers/submissionController.js:189-194 | no request removes an account or lowers anybody's earnings |
| Workflow.RunNeverLowersEarnings | server/controllers/submissionController.js:189-194 | over any run no account disappears and no earnings go down |
| Server.Store.constructor | server/config/database.js:6-19 | the initial state of the datastore the server connects to: no bugs, no submissions, the given accounts at 0 earnings, and the invariants hold |
| Server.Store.CreateBug | server/controllers/bugController.js:9-46 | the store after the handler and its response are exactly the `createBug` step, and the invariants are kept |
| Server.Store.CreateSubmission | server/controllers/submissionController.js:10-85 | the store after the handler and its response are exactly the `createSubmission` step, and the invariants are kept |
| Server.Store.Approve | server/controllers/submissionController.js:133-236 | the guards, then the writes, leave the store and the response exactly as the approval step says, and the invariants are kept |
| Server.Store.ApplyApproval | server/controllers/submissionController.js:178-204 | the writes, in the source's order, leave the store exactly as the approval effect says |
| Server.Store.RejectPendingSiblings | server/controllers/submissionController.js:197-204 | the bulk update, one document at a time, leaves exactly the sibling-rejected collection and nothing else changed |
| Server.Store.BugsPerId | server/controllers/bugController.js:58 | a store that keeps every bug under its own id holds as many distinct bugs as ids |
| Server.Store.SubmissionsPerId | server/controllers/submissionController.js:105-107 | a store that keeps every submission under its own id holds as many distinct submissions of a bug as ids of them |
| Server.Store.Bugs | server/controllers/bugController.js:53-71 | every bug exactly once, newest first: as many entries as stored bugs |
| Server.Store.SubmissionsOf | server/controllers/submissionController.js:105-107 | exactly the submissions of the bug, each once, newest first: as many entries as the bug has submissions |
| Server.Store.GetSubmissions | server/controllers/submissionController.js:92-126 | 404 "Bug not found" iff the bug is unknown; otherwise exactly its submissions, one entry each, newest first |
| Server.Store.GetBugById | server/controllers/bugController.js:78-114 | 404 "Bug not found" iff the bug is unknown; otherwise the bug and exactly its submissions, one entry each, newest first |
| CreateSubmissionForm.MessagesAreTypeSpecific | client/src/components/CreateSubmission.jsx:63-87 | each proof type that can reach a missing-file or missing-link message gets a different one |
| CreateSubmissionForm.FailureMessage | client/src/components/CreateSubmission.jsx:97-98 | the server's message when there is one, otherwise "Failed to submit solution"; never empty |
| CreateSubmissionForm.PrepareSubmission | client/src/components/CreateSubmission.jsx:55-95 | upload is used iff the type is file, or image/video in upload mode; upload without a file gives the type's message and no call; a blank link gives the type's message and no call; an upload sends the file's data and name; a link is sent untrimmed with a null file name |
| CreateSubmissionForm.ToRequest | client/src/components/CreateSubmission.jsx:89-95 | the server reads back what the form sent: the description and URL count as given exactly when non-empty, a non-empty proof type is taken as sent rather than defaulted, and a non-empty file name is kept |
| CreateSubmissionForm.PreparedCallPassesProofChecks | client/src/components/CreateSubmission.jsx:55-95 | whatever the form sends never draws the server's "missing proof" 400, and can draw a 500 only for a blank description |
| CreateSubmissionForm.SubmissionForm.constructor | client/src/components/CreateSubmission.jsx:6-15 | the initial state: type image, link mode, empty form, no error, not loading, no preview |
| CreateSubmissionForm.SubmissionForm.HandleTextChange | client/src/components/CreateSubmission.jsx:27-32 | writes the named text field and nothing else |
| CreateSubmissionForm.SubmissionForm.HandleFileChange | client/src/components/CreateSubmission.jsx:18-26 | a chosen file is stored and previewed by name; a cancelled pick changes nothing |
| CreateSubmissionForm.SubmissionForm.ResetProofInput | client/src/components/CreateSubmission.jsx:35-38 | clears the link, the file and the preview, nothing else |
| CreateSubmissionForm.SubmissionForm.ChooseProofType | client/src/components/CreateSubmission.jsx:154-207 | sets the type; image and video return to link mode, file and url keep the mode; the proof input is reset |
| CreateSubmissionForm.SubmissionForm.ChooseInputMode | client/src/components/CreateSubmission.jsx:229-248 | sets the mode and resets the proof input |
| CreateSubmissionForm.SubmissionForm.HandleSubmit | client/src/components/CreateSubmission.jsx:49-102 | makes exactly the call the decision allows, shows its message otherwise or the failure message of a refused call, reports success iff the call was accepted, and every way out leaves `loading` false |

## Left out

- HTTP, Express routing, authentication middleware and MongoDB access are not modelled. Each handler works on the in-memory collections, and the caller's id is a parameter.
- `populate` and the shape of the JSON responses are not modelled: a handler returns the documents themselves. `getBugs`, `getBugById` and `getSubmissions` therefore return plain documents rather than documents with user names.
- Concurrent requests are not modelled. The source issues independent writes with no transaction, so two simultaneous approvals could interleave; the model treats every request as one atomic step.
- `bountyAmount` and `totalEarnings` are JavaScript numbers (floating point) in the source and integers here. Amounts with fractions and NaN are not modelled.
- Mongoose ObjectId casting is not modelled: a CastError is the same as an unknown id.
- `maxlength` counts UTF-16 code units; the model counts characters, which differ only outside the Basic Multilingual Plane.
- The FileReader (client/src/components/CreateSubmission.jsx:40-47) is a parameter of `HandleSubmit`: the data URL it produced, or its failure.
- The server's reply is a parameter of `HandleSubmit`; `onSuccess` is the `succeeded` result.
- The request the client makes is linked to the server only through `CreateSubmissionForm.ToRequest`; the service layer (client/src/services/) is not part of this model.
- The rendering, animations and styling of the React components, and the other pages, are not modelled.
- `userController.getMe` and the User model beyond `totalEarnings` are not modelled; a user account is its earnings entry.
- Nothing in the handlers sets the Bug status 'In Review', so the workflow invariant states that it never occurs.
- Server.Store.Bugs and Server.Store.SubmissionsOf: documents with equal `createdAt` may come in any order. MongoDB's tie order is not modelled.
