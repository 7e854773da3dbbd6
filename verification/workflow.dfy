/**
 * The bounty workflow as a state machine over the whole datastore: the
 * collections of bugs and submissions, every user's `totalEarnings`, and the
 * next free document id. Each request is one atomic step; the invariants of
 * the workflow hold in the initial state and are kept by every step, so they
 * hold after any sequence of requests.
 */
module Workflow {
  import opened Api
  import opened BugModel
  import opened SubmissionModel
  import opened BugRules
  import opened SubmissionRules

  /** The datastore: the bug and submission collections by id, the
      earnings of every existing user, and the next unused id. */
  datatype Db = Db(
    bugs: map<Id, Bug>,
    subs: map<Id, Submission>,
    earnings: map<Id, int>,
    nextId: nat)

  /** The data of a successful approval response: the approved
      submission, the closed bug, and the winner with the new balance. */
  datatype Approval = Approval(submission: Submission, bug: Bug, winner: Id, totalEarnings: int)

  /** A store with the given user accounts (each at 0) and no documents. */
  function Empty(users: set<Id>): Db
  {
    Db(map[], map[], map u | u in users :: 0, 0)
  }

  // ---------------------------------------------------------------------
  // The steps

  /** `createBug`: on success the bug is inserted under the next id. */
  function CreateBugStep(db: Db, caller: Id, req: NewBugRequest, now: int): (Db, Result<Bug, Error>)
  {
    var r := CreateBugOutcome(req, caller, db.nextId, now);
    if r.Ok? then (db.(bugs := db.bugs[db.nextId := r.value], nextId := db.nextId + 1), r)
    else (db, r)
  }

  /** `createSubmission`: on success the submission is inserted under the
      next id. */
  function SubmitStep(db: Db, caller: Id, bugId: Id, req: NewSubmissionRequest, now: int): (Db, Result<Submission, Error>)
  {
    var r := SubmitOutcome(db.bugs, caller, bugId, req, db.nextId, now);
    if r.Ok? then (db.(subs := db.subs[db.nextId := r.value], nextId := db.nextId + 1), r)
    else (db, r)
  }

  /** The four writes of a successful approval of `sid`: the submission
      becomes Approved, its bug Closed with its author as winner, the winner
      is credited with the bounty, and the other Pending submissions of the
      bug are Rejected. */
  function ApproveEffect(db: Db, sid: Id): Db
    requires sid in db.subs && db.subs[sid].bugId in db.bugs
  {
    var s := db.subs[sid];
    var b := db.bugs[s.bugId];
    Db(db.bugs[s.bugId := CloseBug(b, s.submittedBy)],
       RejectSiblings(db.subs[sid := s.(status := Approved)], s.bugId, sid),
       Credit(db.earnings, s.submittedBy, b.bountyAmount),
       db.nextId)
  }

  /** `approveSubmission` by `actor`. When every guard passes, the writes
      happen; if the winner has no account the response then fails with
      500, after the writes. */
  function ApproveStep(db: Db, actor: Id, sid: Id): (Db, Result<Approval, Error>)
  {
    match ApproveGuard(db.bugs, db.subs, actor, sid)
    case Some(e) => (db, Err(e))
    case None =>
      var db' := ApproveEffect(db, sid);
      var s := db.subs[sid];
      var w := s.submittedBy;
      if w in db'.earnings then
        (db', Ok(Approval(db'.subs[sid], db'.bugs[s.bugId], w, db'.earnings[w])))
      else (db', Err(ServerError(NullIdRead)))
  }

  /** The requests that change the store. */
  datatype Request =
    | PostBug(caller: Id, bug: NewBugRequest, now: int)
    | PostSubmission(caller: Id, bugId: Id, submission: NewSubmissionRequest, now: int)
    | PostApproval(caller: Id, submissionId: Id)

  function Step(db: Db, rq: Request): Db
  {
    match rq
    case PostBug(caller, req, now) => CreateBugStep(db, caller, req, now).0
    case PostSubmission(caller, bugId, req, now) => SubmitStep(db, caller, bugId, req, now).0
    case PostApproval(caller, sid) => ApproveStep(db, caller, sid).0
  }

  /** The store after the requests are handled one after the other. */
  function Run(db: Db, rqs: seq<Request>): Db
    decreases |rqs|
  {
    if rqs == [] then db else Run(Step(db, rqs[0]), rqs[1..])
  }

  // ---------------------------------------------------------------------
  // The invariants

  /** A bug as the workflow leaves it: a positive bounty, never 'In Review'
      (no request sets it), and Closed exactly when it has a winner and
      exactly when it has been rewarded. */
  ghost predicate BugInvariant(b: Bug)
  {
    && BugModel.SchemaValid(b)
    && b.bountyAmount > 0
    && b.status != InReview
    && (b.status == Closed <==> b.winner.Some?)
    && (b.status == Closed <==> b.rewarded)
  }

  /** A submission as the workflow leaves it: its bug exists and is not
      its author's; if it is Approved its bug is Closed and its author is
      the winner; only the approval that closes its bug rejects a
      submission, so a Rejected submission's bug is Closed; a Closed bug has
      no Pending submission. */
  ghost predicate SubmissionInvariant(bugs: map<Id, Bug>, s: Submission)
  {
    && SubmissionModel.SchemaValid(s)
    && s.bugId in bugs
    && s.submittedBy != bugs[s.bugId].createdBy
    && (s.status == Approved ==> bugs[s.bugId].status == Closed && bugs[s.bugId].winner == Some(s.submittedBy))
    && (s.status == Rejected ==> bugs[s.bugId].status == Closed)
    && (bugs[s.bugId].status == Closed ==> s.status != Pending)
  }

  /** `k` is an Approved submission of bug `b`. */
  ghost predicate ApprovedFor(subs: map<Id, Submission>, k: Id, b: Id)
  {
    k in subs && subs[k].bugId == b && subs[k].status == Approved
  }

  ghost predicate BugsConsistent(db: Db)
  {
    forall k :: k in db.bugs ==> db.bugs[k].id == k && k < db.nextId && BugInvariant(db.bugs[k])
  }

  ghost predicate SubsConsistent(db: Db)
  {
    forall k :: k in db.subs ==> db.subs[k].id == k && k < db.nextId && SubmissionInvariant(db.bugs, db.subs[k])
  }

  /** At most one Approved submission per bug. */
  ghost predicate SingleApproval(subs: map<Id, Submission>)
  {
    forall k1, k2, b :: ApprovedFor(subs, k1, b) && ApprovedFor(subs, k2, b) ==> k1 == k2
  }

  /** A Closed bug has an Approved submission. */
  ghost predicate ClosedHasApproval(db: Db)
  {
    forall b :: b in db.bugs && db.bugs[b].status == Closed ==> exists k :: ApprovedFor(db.subs, k, b)
  }

  ghost predicate Consistent(db: Db)
  {
    BugsConsistent(db) && SubsConsistent(db) && SingleApproval(db.subs) && ClosedHasApproval(db)
  }

  lemma EmptyConsistent(users: set<Id>)
    ensures Consistent(Empty(users))
  {
  }

  /** Inserting a fresh Open bug under the next id keeps the invariants. */
  lemma InsertBugKeepsConsistent(db: Db, nb: Bug)
    requires Consistent(db)
    requires nb.id == db.nextId && nb.status == Open && BugInvariant(nb)
    ensures Consistent(db.(bugs := db.bugs[db.nextId := nb], nextId := db.nextId + 1))
  {
    var db' := db.(bugs := db.bugs[db.nextId := nb], nextId := db.nextId + 1);
    forall k | k in db'.subs
      ensures db'.subs[k].id == k && k < db'.nextId && SubmissionInvariant(db'.bugs, db'.subs[k])
    {
      assert SubmissionInvariant(db.bugs, db.subs[k]);
    }
    forall b | b in db'.bugs && db'.bugs[b].status == Closed
      ensures exists k :: ApprovedFor(db'.subs, k, b)
    {
      var k :| ApprovedFor(db.subs, k, b);
    }
  }

  lemma CreateBugKeepsConsistent(db: Db, caller: Id, req: NewBugRequest, now: int)
    requires Consistent(db)
    ensures Consistent(CreateBugStep(db, caller, req, now).0)
  {
    var r := CreateBugOutcome(req, caller, db.nextId, now);
    if r.Ok? {
      InsertBugKeepsConsistent(db, r.value);
    }
  }

  /** Inserting a fresh Pending submission under the next id keeps the
      invariants. */
  lemma InsertSubmissionKeepsConsistent(db: Db, ns: Submission)
    requires Consistent(db)
    requires ns.id == db.nextId && ns.status == Pending && SubmissionInvariant(db.bugs, ns)
    ensures Consistent(db.(subs := db.subs[db.nextId := ns], nextId := db.nextId + 1))
  {
    var db' := db.(subs := db.subs[db.nextId := ns], nextId := db.nextId + 1);
    assert SubsConsistent(db');
    forall k1, k2, b | ApprovedFor(db'.subs, k1, b) && ApprovedFor(db'.subs, k2, b)
      ensures k1 == k2
    {
      assert ApprovedFor(db.subs, k1, b) && ApprovedFor(db.subs, k2, b);
    }
    forall b | b in db'.bugs && db'.bugs[b].status == Closed
      ensures exists k :: ApprovedFor(db'.subs, k, b)
    {
      var k :| ApprovedFor(db.subs, k, b);
      assert ApprovedFor(db'.subs, k, b);
    }
  }

  lemma SubmitKeepsConsistent(db: Db, caller: Id, bugId: Id, req: NewSubmissionRequest, now: int)
    requires Consistent(db)
    ensures Consistent(SubmitStep(db, caller, bugId, req, now).0)
  {
    var r := SubmitOutcome(db.bugs, caller, bugId, req, db.nextId, now);
    if r.Ok? {
      assert SubmissionInvariant(db.bugs, r.value);
      InsertSubmissionKeepsConsistent(db, r.value);
    }
  }

  /** The submissions after an approval of `sid`, document by document. */
  lemma ApprovedSubs(db: Db, sid: Id, k: Id)
    requires sid in db.subs && db.subs[sid].bugId in db.bugs
    requires k in db.subs
    ensures k in ApproveEffect(db, sid).subs
    ensures ApproveEffect(db, sid).subs[k] ==
              if k == sid then db.subs[sid].(status := Approved)
              else if IsPendingSibling(db.subs[k], db.subs[sid].bugId, sid) then db.subs[k].(status := Rejected)
              else db.subs[k]
  {
    var s := db.subs[sid];
    var mid := db.subs[sid := s.(status := Approved)];
    assert k == sid ==> !IsPendingSibling(mid[k], s.bugId, sid);
  }

  /** The guards passed, so the bug was not Closed and none of its
      submissions was Approved. */
  ghost predicate ApprovalAllowed(db: Db, sid: Id)
  {
    && sid in db.subs && db.subs[sid].bugId in db.bugs
    && db.bugs[db.subs[sid].bugId].status != Closed
    && db.subs[sid].status != Approved
  }

  lemma ApproveKeepsBugs(db: Db, sid: Id)
    requires Consistent(db) && ApprovalAllowed(db, sid)
    ensures BugsConsistent(ApproveEffect(db, sid))
  {
    var db' := ApproveEffect(db, sid);
    var bid := db.subs[sid].bugId;
    assert BugInvariant(db.bugs[bid]);
    assert BugInvariant(db'.bugs[bid]);
  }

  lemma ApproveKeepsSubs(db: Db, sid: Id)
    requires Consistent(db) && ApprovalAllowed(db, sid)
    ensures SubsConsistent(ApproveEffect(db, sid))
    ensures forall k :: k in ApproveEffect(db, sid).subs && ApproveEffect(db, sid).subs[k].status == Approved
              ==> k == sid || (k in db.subs && db.subs[k] == ApproveEffect(db, sid).subs[k])
  {
    var db' := ApproveEffect(db, sid);
    var bid := db.subs[sid].bugId;
    forall k | k in db'.subs
      ensures db'.subs[k].id == k && k < db'.nextId && SubmissionInvariant(db'.bugs, db'.subs[k])
      ensures db'.subs[k].status == Approved ==> k == sid || (k in db.subs && db.subs[k] == db'.subs[k])
    {
      ApprovedSubs(db, sid, k);
      assert SubmissionInvariant(db.bugs, db.subs[k]);
      if db.subs[k].bugId == bid && k != sid {
        assert db.subs[k].status != Approved;
      }
    }
  }

  lemma ApproveKeepsConsistent(db: Db, actor: Id, sid: Id)
    requires Consistent(db)
    ensures Consistent(ApproveStep(db, actor, sid).0)
  {
    if ApproveGuard(db.bugs, db.subs, actor, sid).None? {
      var s := db.subs[sid];
      var bid := s.bugId;
      var db' := ApproveEffect(db, sid);
      assert ApproveStep(db, actor, sid).0 == db';
      ApproveKeepsBugs(db, sid);
      ApproveKeepsSubs(db, sid);
      assert SingleApproval(db'.subs) by {
        forall k1, k2, b | ApprovedFor(db'.subs, k1, b) && ApprovedFor(db'.subs, k2, b)
          ensures k1 == k2
        {
          if k1 != sid && k2 != sid {
            assert ApprovedFor(db.subs, k1, b) && ApprovedFor(db.subs, k2, b);
          }
        }
      }
      assert ClosedHasApproval(db') by {
        forall b | b in db'.bugs && db'.bugs[b].status == Closed
          ensures exists k :: ApprovedFor(db'.subs, k, b)
        {
          if b == bid {
            ApprovedSubs(db, sid, sid);
            assert ApprovedFor(db'.subs, sid, b);
          } else {
            var k :| ApprovedFor(db.subs, k, b);
            ApprovedSubs(db, sid, k);
            assert ApprovedFor(db'.subs, k, b);
          }
        }
      }
    }
  }

  lemma StepKeepsConsistent(db: Db, rq: Request)
    requires Consistent(db)
    ensures Consistent(Step(db, rq))
  {
    match rq
    case PostBug(caller, req, now) => CreateBugKeepsConsistent(db, caller, req, now);
    case PostSubmission(caller, bugId, req, now) => SubmitKeepsConsistent(db, caller, bugId, req, now);
    case PostApproval(caller, sid) => ApproveKeepsConsistent(db, caller, sid);
  }

  /** Whatever requests arrive, one after the other, the invariants hold:
      at most one Approved submission and one winner per bug, and no
      Pending submission on a Closed bug. */
  lemma {:induction false} RunKeepsConsistent(db: Db, rqs: seq<Request>)
    requires Consistent(db)
    ensures Consistent(Run(db, rqs))
    decreases |rqs|
  {
    if rqs != [] {
      StepKeepsConsistent(db, rqs[0]);
      RunKeepsConsistent(Step(db, rqs[0]), rqs[1..]);
    }
  }

  // ---------------------------------------------------------------------
  // Properties of single steps

  /** After a successful approval the bug is Closed with the submission's
      author as winner and rewarded, the submission is Approved, the winner
      (if the account exists) gains exactly the bounty, nobody else's
      earnings change, and no other Pending submission of the bug is left. */
  lemma ApprovalOutcome(db: Db, actor: Id, sid: Id)
    requires ApproveGuard(db.bugs, db.subs, actor, sid).None?
    requires forall k :: k in db.subs ==> db.subs[k].id == k
    ensures var s := db.subs[sid];
            var b := db.bugs[s.bugId];
            var db' := ApproveStep(db, actor, sid).0;
            && db'.subs[sid] == s.(status := Approved)
            && db'.bugs[s.bugId] == b.(status := Closed, winner := Some(s.submittedBy), rewarded := true)
            && (forall x :: x in db.bugs && x != s.bugId ==> db'.bugs[x] == db.bugs[x])
            && db'.earnings.Keys == db.earnings.Keys
            && (s.submittedBy in db.earnings ==> db'.earnings[s.submittedBy] == db.earnings[s.submittedBy] + b.bountyAmount)
            && (forall u :: u in db.earnings && u != s.submittedBy ==> db'.earnings[u] == db.earnings[u])
            && (forall k :: k in db'.subs && db'.subs[k].bugId == s.bugId && k != sid ==> db'.subs[k].status == Rejected || db'.subs[k] == db.subs[k])
            && (forall k :: k in db'.subs && db'.subs[k].bugId == s.bugId && k != sid ==> db'.subs[k].status != Pending)
  {
    var s := db.subs[sid];
    var mid := db.subs[sid := s.(status := Approved)];
    assert mid[sid] == s.(status := Approved) && !IsPendingSibling(mid[sid], s.bugId, sid);
  }

  /** The approval response fails (500) exactly when the winner has no
      account; the writes have happened either way. */
  lemma ApprovalResponse(db: Db, actor: Id, sid: Id)
    requires ApproveGuard(db.bugs, db.subs, actor, sid).None?
    ensures var (db', r) := ApproveStep(db, actor, sid);
            && db' == ApproveEffect(db, sid)
            && (r.Ok? <==> db.subs[sid].submittedBy in db.earnings)
            && (r.Err? ==> r.error == ServerError(NullIdRead))
            && (r.Ok? ==> r.value.winner == db.subs[sid].submittedBy
                          && r.value.totalEarnings == db.earnings[r.value.winner] + db.bugs[db.subs[sid].bugId].bountyAmount)
  {
  }

  /** Approval by anybody but the bug's creator is refused with 403 and
      changes nothing, whatever the state of the submission. */
  lemma NonOwnerCannotApprove(db: Db, actor: Id, sid: Id)
    requires sid in db.subs && db.subs[sid].bugId in db.bugs
    requires db.bugs[db.subs[sid].bugId].createdBy != actor
    ensures ApproveStep(db, actor, sid) == (db, Err(Forbidden(NotBugCreator)))
  {
  }

  /** Once a bug is Closed, any approval of any of its submissions fails
      and changes nothing: no second winner, no second payout. */
  lemma ClosedBugRefusesApproval(db: Db, actor: Id, sid: Id)
    requires sid in db.subs && db.subs[sid].bugId in db.bugs
    requires db.bugs[db.subs[sid].bugId].status == Closed
    ensures ApproveStep(db, actor, sid).0 == db
    ensures ApproveStep(db, actor, sid).1.Err?
    ensures ApproveStep(db, actor, sid).1.error.Status() in {400, 403}
  {
  }

  /** Retrying an approval, or approving a sibling, after a successful
      approval is refused: the second call finds the bug Closed. */
  lemma SecondApprovalRefused(db: Db, actor: Id, sid: Id, actor2: Id, sid2: Id)
    requires ApproveGuard(db.bugs, db.subs, actor, sid).None?
    requires sid2 in db.subs && db.subs[sid2].bugId == db.subs[sid].bugId
    ensures var db1 := ApproveStep(db, actor, sid).0;
            && ApproveStep(db1, actor2, sid2).0 == db1
            && ApproveStep(db1, actor2, sid2).1.Err?
            && (actor2 == actor ==> ApproveStep(db1, actor2, sid2).1 == Err(BadRequest(AlreadyClosed)))
  {
    var db1 := ApproveStep(db, actor, sid).0;
    var bid := db.subs[sid].bugId;
    assert sid2 in db1.subs && db1.subs[sid2].bugId == bid;
    ClosedBugRefusesApproval(db1, actor2, sid2);
  }

  /** A Closed bug is final: no request changes its record, no request
      adds a submission to it, and no approval of one of its submissions
      pays anybody. */
  lemma ClosedBugIsFinal(db: Db, rq: Request, b: Id)
    requires b in db.bugs && b < db.nextId && db.bugs[b].status == Closed
    ensures b in Step(db, rq).bugs && Step(db, rq).bugs[b] == db.bugs[b]
    ensures forall k :: k in Step(db, rq).subs && Step(db, rq).subs[k].bugId == b ==> k in db.subs
    ensures rq.PostApproval? && rq.submissionId in db.subs && db.subs[rq.submissionId].bugId == b
            ==> Step(db, rq).earnings == db.earnings
  {
    match rq
    case PostBug(caller, req, now) =>
      assert Step(db, rq) == CreateBugStep(db, caller, req, now).0;
    case PostSubmission(caller, bugId, req, now) =>
      assert Step(db, rq) == SubmitStep(db, caller, bugId, req, now).0;
      assert bugId == b ==> SubmitOutcome(db.bugs, caller, bugId, req, db.nextId, now).Err?;
    case PostApproval(caller, sid) =>
      ApprovalLeavesClosedBug(db, caller, sid, b);
  }

  /** An approval never touches a Closed bug, never adds submissions, and
      pays nobody when it targets a submission of a Closed bug. */
  lemma ApprovalLeavesClosedBug(db: Db, actor: Id, sid: Id, b: Id)
    requires b in db.bugs && db.bugs[b].status == Closed
    ensures var db' := ApproveStep(db, actor, sid).0;
            && db'.subs.Keys == db.subs.Keys
            && b in db'.bugs && db'.bugs[b] == db.bugs[b]
            && (sid in db.subs && db.subs[sid].bugId == b ==> db' == db)
  {
    if ApproveGuard(db.bugs, db.subs, actor, sid).None? {
      assert db.subs[sid].bugId != b;
    }
  }

  /** Over any run, a Closed bug keeps its record (its status, winner and
      reward flag) unchanged. */
  lemma {:induction false} ClosedBugStaysClosed(db: Db, rqs: seq<Request>, b: Id)
    requires Consistent(db)
    requires b in db.bugs && db.bugs[b].status == Closed
    ensures b in Run(db, rqs).bugs && Run(db, rqs).bugs[b] == db.bugs[b]
    decreases |rqs|
  {
    if rqs != [] {
      ClosedBugIsFinal(db, rqs[0], b);
      StepKeepsConsistent(db, rqs[0]);
      ClosedBugStaysClosed(Step(db, rqs[0]), rqs[1..], b);
    }
  }

  /** A decided submission (Approved or Rejected) is final: no request
      changes its record, so a Rejected submission is never approved later
      and an Approved one is never rejected. */
  lemma DecidedSubmissionIsFinal(db: Db, rq: Request, k: Id)
    requires k in db.subs && k < db.nextId && db.subs[k].status != Pending
    requires SubmissionInvariant(db.bugs, db.subs[k])
    ensures k in Step(db, rq).subs && Step(db, rq).subs[k] == db.subs[k]
  {
    match rq
    case PostBug(caller, req, now) =>
      assert Step(db, rq) == CreateBugStep(db, caller, req, now).0;
    case PostSubmission(caller, bugId, req, now) =>
      assert Step(db, rq) == SubmitStep(db, caller, bugId, req, now).0;
    case PostApproval(caller, sid) =>
      if ApproveGuard(db.bugs, db.subs, caller, sid).None? {
        // the approved submission's bug is not Closed, but k's is
        assert db.subs[sid].bugId != db.subs[k].bugId;
        ApprovedSubs(db, sid, k);
      }
  }

  /** Over any run, an Approved or Rejected submission keeps its record. */
  lemma {:induction false} DecidedSubmissionStaysDecided(db: Db, rqs: seq<Request>, k: Id)
    requires Consistent(db)
    requires k in db.subs && db.subs[k].status != Pending
    ensures k in Run(db, rqs).subs && Run(db, rqs).subs[k] == db.subs[k]
    decreases |rqs|
  {
    if rqs != [] {
      DecidedSubmissionIsFinal(db, rqs[0], k);
      StepKeepsConsistent(db, rqs[0]);
      DecidedSubmissionStaysDecided(Step(db, rqs[0]), rqs[1..], k);
    }
  }

  /** No request lowers anybody's earnings, and accounts neither appear
      nor disappear. */
  lemma StepNeverLowersEarnings(db: Db, rq: Request)
    requires forall k :: k in db.bugs ==> db.bugs[k].bountyAmount >= 0
    ensures Step(db, rq).earnings.Keys == db.earnings.Keys
    ensures forall u :: u in db.earnings ==> Step(db, rq).earnings[u] >= db.earnings[u]
  {
  }

  lemma {:induction false} RunNeverLowersEarnings(db: Db, rqs: seq<Request>)
    requires Consistent(db)
    ensures Run(db, rqs).earnings.Keys == db.earnings.Keys
    ensures forall u :: u in db.earnings ==> Run(db, rqs).earnings[u] >= db.earnings[u]
    decreases |rqs|
  {
    if rqs != [] {
      assert forall k :: k in db.bugs ==> BugInvariant(db.bugs[k]);
      StepNeverLowersEarnings(db, rqs[0]);
      StepKeepsConsistent(db, rqs[0]);
      RunNeverLowersEarnings(Step(db, rqs[0]), rqs[1..]);
    }
  }
}
