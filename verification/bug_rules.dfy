/**
 * The decision `createBug` takes (server/controllers/bugController.js):
 * the controller's own checks of the request body, in order, followed by
 * the schema's validation inside `Bug.create`.
 */
module BugRules {
  import opened Api
  import opened JsText
  import opened BugModel

  const MissingFields := "Please provide title, description, and bounty amount"
  const BountyNotGreaterThanZero := "Bounty amount must be greater than 0"

  /** The JSON body of `POST /api/bugs`; every field may be missing. */
  datatype NewBugRequest = NewBugRequest(
    title: Option<string>,
    description: Option<string>,
    bountyAmount: Option<int>)

  /** JavaScript truthiness of the amount: missing and 0 are falsy. */
  predicate TruthyAmount(a: Option<int>)
  {
    a.Some? && a.value != 0
  }

  predicate AllFieldsGiven(req: NewBugRequest)
  {
    Truthy(req.title) && Truthy(req.description) && TruthyAmount(req.bountyAmount)
  }

  /** The response of `createBug` for `caller`, where `id` is the id the
      store allocates and `now` the clock. The first failing check decides
      the error: missing fields (400), then a non-positive amount (400),
      then the schema (whose ValidationError the catch block answers with
      500). */
  function CreateBugOutcome(req: NewBugRequest, caller: Id, id: Id, now: int): (r: Result<Bug, Error>)
    ensures !AllFieldsGiven(req) ==> r == Err(BadRequest(MissingFields))
    ensures AllFieldsGiven(req) && req.bountyAmount.value < 0 ==> r == Err(BadRequest(BountyNotGreaterThanZero))
    // an amount of 0 is already caught as missing, so only negative amounts get here
    ensures r == Err(BadRequest(BountyNotGreaterThanZero)) ==> req.bountyAmount.Some? && req.bountyAmount.value < 0
    ensures r.Err? && r.error.ServerError? ==>
              AllFieldsGiven(req) && req.bountyAmount.value > 0
              && (Trim(req.title.value) == "" || |Trim(req.title.value)| > MaxTitleLength
                  || Trim(req.description.value) == "")
    ensures r.Err? ==> r.error.Status() == 400 || r.error.Status() == 500
    ensures r.Ok? <==> AllFieldsGiven(req) && req.bountyAmount.value > 0
                       && Trim(req.title.value) != "" && |Trim(req.title.value)| <= MaxTitleLength
                       && Trim(req.description.value) != ""
    ensures r.Ok? ==> var b := r.value;
              && b.id == id && b.createdBy == caller && b.createdAt == now
              && b.title == Trim(req.title.value) && b.description == Trim(req.description.value)
              && b.bountyAmount == req.bountyAmount.value > 0
              && b.status == Open && b.winner == None && !b.rewarded
              && SchemaValid(b)
    // past the two checks, a failure is the schema's ValidationError, listing every failed path
    ensures (AllFieldsGiven(req) && req.bountyAmount.value > 0 && !r.Ok?)
              ==> r == Err(ValidationFailure("Bug", BugViolations(Trim(req.title.value),
                                                                  Trim(req.description.value),
                                                                  req.bountyAmount.value)))
  {
    if !AllFieldsGiven(req) then Err(BadRequest(MissingFields))
    else if req.bountyAmount.value <= 0 then Err(BadRequest(BountyNotGreaterThanZero))
    else
      match CreateBugDocument(id, req.title.value, req.description.value, req.bountyAmount.value, caller, now)
      case Valid(b) => Ok(b)
      case Invalid(vs) => Err(ValidationFailure("Bug", vs))
  }
}
