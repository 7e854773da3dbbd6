/**
 * The server's handlers over the datastore. `Store` holds the two document
 * collections and the users' earnings and is updated in place, write by
 * write, as the controllers in server/controllers/ update documents; each
 * handler is proved to perform exactly the step of the workflow model.
 */
module Server {
  import opened Api
  import opened BugModel
  import opened SubmissionModel
  import opened BugRules
  import opened SubmissionRules
  import opened Workflow
  import opened Listing

  function BugTime(b: Bug): int { b.createdAt }

  function SubmissionTime(s: Submission): int { s.createdAt }

  /** The data of a `getBugById` response. */
  datatype BugDetails = BugDetails(bug: Bug, submissions: seq<Submission>)

  class Store {
    var bugs: map<Id, Bug>
    var subs: map<Id, Submission>
    var earnings: map<Id, int>
    var nextId: nat

    ghost function Snapshot(): Db
      reads this
    {
      Db(bugs, subs, earnings, nextId)
    }

    /** The invariant every handler keeps: see `Workflow.Consistent`. */
    ghost predicate Valid()
      reads this
    {
      Consistent(Snapshot())
    }

    /** Every document is stored under its own id (part of `Valid`). */
    ghost predicate KeyedById()
      reads this
    {
      && (forall k :: k in bugs ==> bugs[k].id == k)
      && (forall k :: k in subs ==> subs[k].id == k)
    }

    /** A store with the given user accounts, each with no earnings yet. */
    constructor (users: set<Id>)
      ensures Snapshot() == Empty(users)
      ensures Valid()
    {
      bugs := map[];
      subs := map[];
      earnings := map u | u in users :: 0;
      nextId := 0;
    }

    /** `POST /api/bugs` (createBug). */
    method CreateBug(caller: Id, req: NewBugRequest, now: int) returns (r: Result<Bug, Error>)
      requires Valid()
      modifies this
      ensures (Snapshot(), r) == CreateBugStep(old(Snapshot()), caller, req, now)
      ensures Valid()
    {
      CreateBugKeepsConsistent(Snapshot(), caller, req, now);
      r := CreateBugOutcome(req, caller, nextId, now);
      if r.Ok? {
        bugs := bugs[nextId := r.value];
        nextId := nextId + 1;
      }
    }

    /** `POST /api/bugs/:id/submissions` (createSubmission). */
    method CreateSubmission(caller: Id, bugId: Id, req: NewSubmissionRequest, now: int)
      returns (r: Result<Submission, Error>)
      requires Valid()
      modifies this
      ensures (Snapshot(), r) == SubmitStep(old(Snapshot()), caller, bugId, req, now)
      ensures Valid()
    {
      SubmitKeepsConsistent(Snapshot(), caller, bugId, req, now);
      r := SubmitOutcome(bugs, caller, bugId, req, nextId, now);
      if r.Ok? {
        subs := subs[nextId := r.value];
        nextId := nextId + 1;
      }
    }

    /** `POST /api/submissions/:id/approve` (approveSubmission): the guards,
        then the writes, then the response, which reads the winner's
        account. */
    method Approve(actor: Id, sid: Id) returns (r: Result<Approval, Error>)
      requires Valid()
      modifies this
      ensures (Snapshot(), r) == ApproveStep(old(Snapshot()), actor, sid)
      ensures Valid()
    {
      ApproveKeepsConsistent(Snapshot(), actor, sid);
      var refusal := ApproveGuard(bugs, subs, actor, sid);
      if refusal.Some? {
        return Err(refusal.value);
      }
      var bugId := subs[sid].bugId;
      var winner := subs[sid].submittedBy;
      ApplyApproval(sid);
      if winner in earnings {
        r := Ok(Approval(subs[sid], bugs[bugId], winner, earnings[winner]));
      } else {
        r := Err(ServerError(NullIdRead));
      }
    }

    /** The writes of an approval, one after the other: the submission is
        saved as Approved, the bug as Closed with its winner, the winner's
        account is credited when it exists, and the bulk update rejects
        the remaining Pending submissions of the bug. */
    method ApplyApproval(sid: Id)
      requires sid in subs && subs[sid].bugId in bugs
      modifies this
      ensures Snapshot() == ApproveEffect(old(Snapshot()), sid)
    {
      var submission := subs[sid];
      var bugId := submission.bugId;
      var winner := submission.submittedBy;
      submission := submission.(status := Approved);
      subs := subs[sid := submission];
      var bug := CloseBug(bugs[bugId], winner);
      bugs := bugs[bugId := bug];
      if winner in earnings {
        earnings := earnings[winner := earnings[winner] + bug.bountyAmount];
      }
      RejectPendingSiblings(bugId, sid);
    }

    /** The bulk update that rejects the other Pending submissions of a
        bug, one matching document at a time. */
    method RejectPendingSiblings(bugId: Id, sid: Id)
      modifies this
      ensures subs == RejectSiblings(old(subs), bugId, sid)
      ensures bugs == old(bugs) && earnings == old(earnings) && nextId == old(nextId)
    {
      ghost var before := subs;
      var todo := subs.Keys;
      while todo != {}
        invariant todo <= before.Keys && subs.Keys == before.Keys
        invariant forall k :: k in before ==>
                    subs[k] == if k in todo then before[k] else RejectSiblings(before, bugId, sid)[k]
        invariant bugs == old(bugs) && earnings == old(earnings) && nextId == old(nextId)
        decreases todo
      {
        var k :| k in todo;
        if IsPendingSibling(subs[k], bugId, sid) {
          subs := subs[k := subs[k].(status := Rejected)];
        }
        todo := todo - {k};
      }
    }

    /** The ids of the submissions of bug `bugId`. */
    ghost function KeysOfBug(bugId: Id): set<Id>
      reads this
    {
      set k | k in subs && subs[k].bugId == bugId
    }

    /** One stored bug per id. */
    lemma BugsPerId()
      requires KeyedById()
      ensures |bugs.Values| == |bugs|
    {
      assert bugs.Values == Documents(bugs, bugs.Keys);
      DocumentsPerKey(bugs, bugs.Keys, (b: Bug) => b.id);
    }

    /** One stored submission of a bug per id. */
    lemma SubmissionsPerId(bugId: Id)
      requires KeyedById()
      ensures |set s | s in subs.Values && s.bugId == bugId| == |KeysOfBug(bugId)|
    {
      var keys := KeysOfBug(bugId);
      assert (set s | s in subs.Values && s.bugId == bugId) == Documents(subs, keys);
      DocumentsPerKey(subs, keys, (s: Submission) => s.id);
    }

    /** `GET /api/bugs` (getBugs): every bug, newest first, one entry per
        stored bug. */
    method Bugs() returns (r: seq<Bug>)
      requires KeyedById()
      ensures NewestFirst(r, BugTime)
      ensures ListsExactly(r, bugs.Values)
      ensures |r| == |bugs|
    {
      r := [];
      var todo := bugs.Values;
      while todo != {}
        invariant todo <= bugs.Values
        invariant NewestFirst(r, BugTime)
        invariant multiset(r) == multiset(bugs.Values - todo)
        decreases todo
      {
        var b :| b in todo;
        assert bugs.Values - (todo - {b}) == (bugs.Values - todo) + {b};
        r := InsertNewestFirst(b, r, BugTime);
        todo := todo - {b};
      }
      assert bugs.Values - todo == bugs.Values;
      BugsPerId();
      assert |r| == |multiset(r)| == |multiset(bugs.Values)|;
    }

    /** `Submission.find({ bugId }).sort({ createdAt: -1 })`: the
        submissions of one bug, newest first. */
    method SubmissionsOf(bugId: Id) returns (r: seq<Submission>)
      requires KeyedById()
      ensures NewestFirst(r, SubmissionTime)
      ensures ListsExactly(r, set s | s in subs.Values && s.bugId == bugId)
      ensures |r| == |KeysOfBug(bugId)|
    {
      r := [];
      var todo := subs.Values;
      while todo != {}
        invariant todo <= subs.Values
        invariant NewestFirst(r, SubmissionTime)
        invariant multiset(r) == multiset(set s | s in subs.Values - todo && s.bugId == bugId)
        decreases todo
      {
        var s :| s in todo;
        ghost var done := set x | x in subs.Values - todo && x.bugId == bugId;
        if s.bugId == bugId {
          assert (set x | x in subs.Values - (todo - {s}) && x.bugId == bugId) == done + {s};
          r := InsertNewestFirst(s, r, SubmissionTime);
        } else {
          assert (set x | x in subs.Values - (todo - {s}) && x.bugId == bugId) == done;
        }
        todo := todo - {s};
      }
      assert subs.Values - todo == subs.Values;
      SubmissionsPerId(bugId);
      assert |r| == |multiset(r)| == |multiset(set s | s in subs.Values && s.bugId == bugId)|;
    }

    /** `GET /api/bugs/:id/submissions` (getSubmissions). */
    method GetSubmissions(bugId: Id) returns (r: Result<seq<Submission>, Error>)
      requires Valid()
      ensures r.Err? <==> bugId !in bugs
      ensures r.Err? ==> r.error == NotFound(BugNotFound)
      ensures r.Ok? ==> NewestFirst(r.value, SubmissionTime)
                        && ListsExactly(r.value, set s | s in subs.Values && s.bugId == bugId)
                        && |r.value| == |KeysOfBug(bugId)|
    {
      if bugId !in bugs {
        return Err(NotFound(BugNotFound));
      }
      assert KeyedById();
      var found := SubmissionsOf(bugId);
      r := Ok(found);
    }

    /** `GET /api/bugs/:id` (getBugById): the bug and its submissions. */
    method GetBugById(id: Id) returns (r: Result<BugDetails, Error>)
      requires Valid()
      ensures r.Err? <==> id !in bugs
      ensures r.Err? ==> r.error == NotFound(BugNotFound)
      ensures r.Ok? ==> r.value.bug == bugs[id]
                        && NewestFirst(r.value.submissions, SubmissionTime)
                        && ListsExactly(r.value.submissions, set s | s in subs.Values && s.bugId == id)
                        && |r.value.submissions| == |KeysOfBug(id)|
    {
      if id !in bugs {
        return Err(NotFound(BugNotFound));
      }
      assert KeyedById();
      var found := SubmissionsOf(id);
      r := Ok(BugDetails(bugs[id], found));
    }
  }
}
