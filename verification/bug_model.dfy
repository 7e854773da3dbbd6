/**
 * The Bug document (server/models/Bug.js): its fields, the `status`
 * enumeration, the defaults Mongoose fills in, and the validators that run
 * when a document is created or saved.
 */
module BugModel {
  import opened Api
  import opened JsText

  const MaxTitleLength: nat := 200

  const TitleRequired := "Title is required"
  const TitleTooLong := "Title cannot exceed 200 characters"
  const DescriptionRequired := "Description is required"
  const BountyNotPositive := "Bounty amount must be positive"

  /** The `status` enumeration: 'Open', 'In Review', 'Closed'. */
  datatype BugStatus = Open | InReview | Closed

  function BugStatusName(s: BugStatus): (name: string)
    ensures name in {"Open", "In Review", "Closed"}
  {
    match s
    case Open => "Open"
    case InReview => "In Review"
    case Closed => "Closed"
  }

  /** The stored string determines the status: the three names differ. */
  lemma BugStatusNamesDiffer(s1: BugStatus, s2: BugStatus)
    ensures BugStatusName(s1) == BugStatusName(s2) <==> s1 == s2
  {
  }

  /** A stored bug. `bountyAmount` is a whole amount of money; `winner` is
      the null-able user reference; `createdAt` is the creation time. */
  datatype Bug = Bug(
    id: Id,
    title: string,
    description: string,
    bountyAmount: int,
    status: BugStatus,
    createdBy: Id,
    winner: Option<Id>,
    rewarded: bool,
    createdAt: int)

  /** The validators of the schema, in path order, applied to values that
      have already gone through the `trim` setters. Each path reports only
      its first failing validator (`required` before `maxlength`). */
  function BugViolations(title: string, description: string, bountyAmount: int): (vs: seq<Violation>)
    ensures vs == [] <==> title != "" && |title| <= MaxTitleLength && description != "" && bountyAmount >= 0
    ensures Violation("title", TitleRequired) in vs <==> title == ""
    ensures Violation("title", TitleTooLong) in vs <==> title != "" && |title| > MaxTitleLength
    ensures Violation("description", DescriptionRequired) in vs <==> description == ""
    ensures Violation("bountyAmount", BountyNotPositive) in vs <==> bountyAmount < 0
    // no other message, and at most one per path
    ensures forall v :: v in vs ==> v in {Violation("title", TitleRequired), Violation("title", TitleTooLong),
                                          Violation("description", DescriptionRequired),
                                          Violation("bountyAmount", BountyNotPositive)}
    ensures forall i, j :: 0 <= i < j < |vs| ==> vs[i].path != vs[j].path
    ensures |vs| <= 3
  {
    (if title == "" then [Violation("title", TitleRequired)]
     else if |title| > MaxTitleLength then [Violation("title", TitleTooLong)]
     else [])
    + (if description == "" then [Violation("description", DescriptionRequired)] else [])
    + (if bountyAmount < 0 then [Violation("bountyAmount", BountyNotPositive)] else [])
  }

  /** What the schema guarantees of every stored bug. */
  ghost predicate SchemaValid(b: Bug)
  {
    && IsTrimmed(b.title) && b.title != "" && |b.title| <= MaxTitleLength
    && IsTrimmed(b.description) && b.description != ""
    && b.bountyAmount >= 0
  }

  /** `Bug.create({ title, description, bountyAmount, createdBy })`: run the
      setters, then the validators; on success the document carries the
      schema defaults (status Open, no winner, not rewarded, created now). */
  function CreateBugDocument(id: Id, title: string, description: string, bountyAmount: int,
                             createdBy: Id, now: int): (r: Validated<Bug>)
    ensures r.Valid? <==> (Trim(title) != "" && |Trim(title)| <= MaxTitleLength
                           && Trim(description) != "" && bountyAmount >= 0)
    ensures r.Valid? ==> SchemaValid(r.doc)
    ensures r.Valid? ==> r.doc.id == id && r.doc.createdBy == createdBy && r.doc.createdAt == now
                         && r.doc.title == Trim(title) && r.doc.description == Trim(description)
                         && r.doc.bountyAmount == bountyAmount
    ensures r.Valid? ==> r.doc.status == Open && r.doc.winner == None && !r.doc.rewarded
    ensures r.Invalid? ==> r.violations == BugViolations(Trim(title), Trim(description), bountyAmount) != []
  {
    var t, d := Trim(title), Trim(description);
    var vs := BugViolations(t, d, bountyAmount);
    if vs != [] then Invalid(vs)
    else
      Valid(Bug(id, t, d, bountyAmount, Open, createdBy, None, false, now))
  }
}
