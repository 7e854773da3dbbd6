/**
 * The submission form of the client (client/src/components/CreateSubmission.jsx):
 * the component's state, the handlers that set it, and the decision
 * `handleSubmit` takes between uploading a file and sending a typed link.
 * The browser's FileReader and the HTTP call are parameters: the data URL
 * the reader produced (or its failure), and the server's reply.
 */
module CreateSubmissionForm {
  import opened Api
  import opened JsText
  import opened SubmissionModel
  import opened SubmissionRules

  const FailedToSubmit := "Failed to submit solution"

  /** `proofInputMode`: 'link' or 'upload'. */
  datatype InputMode = Link | Upload

  /** A file picked in the browser; only its name is read by the form. */
  datatype ChosenFile = ChosenFile(name: string)

  /** `formData`. */
  datatype FormData = FormData(solutionDescription: string, proofUrl: string, proofFile: Option<ChosenFile>)

  /** The two text inputs `handleChange` writes by name. */
  datatype TextField = SolutionDescription | ProofUrl

  /** The arguments of `submissionService.createSubmission`. */
  datatype SubmitCall = SubmitCall(
    bugId: Id,
    solutionDescription: string,
    proofUrl: string,
    proofType: string,
    proofFileName: Option<string>)

  /** How the request ended: accepted, or refused with the `message` of the
      response body when there is one. */
  datatype Reply = Accepted | Refused(message: Option<string>)

  /** `useUpload`: a file proof is always uploaded; an image or a video is
      uploaded when the input mode says so. */
  predicate UseUpload(t: ProofType, mode: InputMode)
  {
    t == File || (t == Image && mode == Upload) || (t == Video && mode == Upload)
  }

  function MissingFileMessage(t: ProofType): string
  {
    if t == File then "Please select a file to upload"
    else if t == Image then "Please select an image to upload"
    else "Please select a video to upload"
  }

  function MissingLinkMessage(t: ProofType): string
  {
    if t == Image then "Please provide an image URL or upload an image"
    else if t == Video then "Please provide a video URL or upload a video"
    else "Please provide proof URL"
  }

  /** Each proof type that can reach a message gets its own. */
  lemma MessagesAreTypeSpecific(t1: ProofType, t2: ProofType)
    ensures (UseUpload(t1, Upload) && UseUpload(t2, Upload) && t1 != t2)
              ==> MissingFileMessage(t1) != MissingFileMessage(t2)
    ensures (!UseUpload(t1, Link) && !UseUpload(t2, Link) && t1 != t2)
              ==> MissingLinkMessage(t1) != MissingLinkMessage(t2)
  {
  }

  /** `err.response?.data?.message || "Failed to submit solution"`. */
  function FailureMessage(message: Option<string>): (m: string)
    ensures Truthy(message) ==> m == message.value
    ensures !Truthy(message) ==> m == FailedToSubmit
    ensures m != ""
  {
    if Truthy(message) then message.value else FailedToSubmit
  }

  /** The checks of `handleSubmit` and the call it makes, or the message it
      shows instead. `encoded` is what the FileReader made of the chosen
      file, `None` when reading failed (the rejected promise is caught and
      shown as the generic failure). */
  function PrepareSubmission(bugId: Id, t: ProofType, mode: InputMode, form: FormData,
                             encoded: Option<string>): (r: Result<SubmitCall, string>)
    // upload mode without a file: a message naming the kind of file, no call
    ensures UseUpload(t, mode) && form.proofFile.None? ==> r == Err(MissingFileMessage(t))
    // a 'file' proof takes the upload path whatever the input mode is
    ensures t == File && form.proofFile.None? ==> r == Err("Please select a file to upload")
    ensures UseUpload(t, mode) && form.proofFile.Some? && encoded.None? ==> r == Err(FailedToSubmit)
    // link mode with an empty or blank URL: a message naming the kind of link, no call
    ensures !UseUpload(t, mode) && Trim(form.proofUrl) == "" ==> r == Err(MissingLinkMessage(t))
    ensures r.Ok? <==> if UseUpload(t, mode) then form.proofFile.Some? && encoded.Some?
                       else Trim(form.proofUrl) != ""
    ensures r.Ok? ==> r.value.bugId == bugId && r.value.proofType == ProofTypeName(t)
                      && r.value.solutionDescription == form.solutionDescription
    // an upload sends the file's contents and name
    ensures r.Ok? && UseUpload(t, mode) ==>
              r.value.proofUrl == encoded.value && r.value.proofFileName == Some(form.proofFile.value.name)
    // a link is sent as typed, untrimmed, with no file name
    ensures r.Ok? && !UseUpload(t, mode) ==>
              r.value.proofUrl == form.proofUrl && r.value.proofFileName == None
              && Trim(r.value.proofUrl) != ""
  {
    if UseUpload(t, mode) then
      if form.proofFile.None? then Err(MissingFileMessage(t))
      else if encoded.None? then Err(FailedToSubmit)
      else Ok(SubmitCall(bugId, form.solutionDescription, encoded.value, ProofTypeName(t),
                         Some(form.proofFile.value.name)))
    else if Trim(form.proofUrl) == "" then Err(MissingLinkMessage(t))
    else Ok(SubmitCall(bugId, form.solutionDescription, form.proofUrl, ProofTypeName(t), None))
  }

  /** The JSON body the service posts for a call. The server reads back
      what the client sent: a text field counts as given exactly when it is
      non-empty, a non-empty proof type is taken as sent rather than
      defaulted, and a file name is kept unless it is empty. */
  function ToRequest(c: SubmitCall): (req: NewSubmissionRequest)
    ensures req.solutionDescription == Some(c.solutionDescription)
    ensures req.proofUrl == Some(c.proofUrl) && req.proofType == Some(c.proofType)
    ensures req.proofFileName == c.proofFileName
    ensures Truthy(req.solutionDescription) <==> c.solutionDescription != ""
    ensures Truthy(req.proofUrl) <==> c.proofUrl != ""
    ensures c.proofType != "" ==> ProofTypeOrDefault(req.proofType) == c.proofType
    ensures (c.proofFileName.None? || c.proofFileName.value != "")
              ==> FileNameOrNull(req.proofFileName) == c.proofFileName
  {
    NewSubmissionRequest(Some(c.solutionDescription), Some(c.proofUrl), Some(c.proofType), c.proofFileName)
  }

  /** What the form sends always gets past the server's proof checks: never
      a 400 for a missing proof, and a schema failure (500) only when the
      description is blank. */
  lemma PreparedCallPassesProofChecks(bugId: Id, t: ProofType, mode: InputMode, form: FormData,
                                      encoded: Option<string>, bugs: map<Id, BugModel.Bug>,
                                      caller: Id, id: Id, now: int)
    requires PrepareSubmission(bugId, t, mode, form, encoded).Ok?
    requires encoded.Some? ==> Trim(encoded.value) != ""
    ensures var req := ToRequest(PrepareSubmission(bugId, t, mode, form, encoded).value);
            var r := SubmitOutcome(bugs, caller, bugId, req, id, now);
            && r != Err(BadRequest(MissingProof))
            && (r.Err? && r.error.ServerError? ==> Trim(form.solutionDescription) == "")
  {
    var call := PrepareSubmission(bugId, t, mode, form, encoded).value;
    var req := ToRequest(call);
    var name := ProofTypeName(t);
    assert ParseProofType(name) == Some(t);
    assert name != "";
    assert ProofTypeOrDefault(req.proofType) == name;
    assert Trim(call.proofUrl) != "";
    assert call.proofUrl != "";
  }

  /** The component's state. */
  class SubmissionForm {
    const bugId: Id
    var proofType: ProofType
    var inputMode: InputMode
    var form: FormData
    var error: string
    var loading: bool
    var filePreview: Option<string>

    /** The initial state of every `useState`. */
    constructor (bugId: Id)
      ensures this.bugId == bugId
      ensures proofType == Image && inputMode == Link
      ensures form == FormData("", "", None)
      ensures error == "" && !loading && filePreview == None
    {
      this.bugId := bugId;
      proofType := Image;
      inputMode := Link;
      form := FormData("", "", None);
      error := "";
      loading := false;
      filePreview := None;
    }

    /** `handleChange` on one of the text inputs. */
    method HandleTextChange(field: TextField, value: string)
      modifies this
      ensures field == SolutionDescription ==> form == old(form).(solutionDescription := value)
      ensures field == ProofUrl ==> form == old(form).(proofUrl := value)
      ensures proofType == old(proofType) && inputMode == old(inputMode)
      ensures error == old(error) && loading == old(loading) && filePreview == old(filePreview)
    {
      match field
      case SolutionDescription => form := form.(solutionDescription := value);
      case ProofUrl => form := form.(proofUrl := value);
    }

    /** `handleChange` on the file input: `files[0]`, which is absent when
        the picker was cancelled, and then nothing changes. */
    method HandleFileChange(file: Option<ChosenFile>)
      modifies this
      ensures file.Some? ==> form == old(form).(proofFile := file) && filePreview == Some(file.value.name)
      ensures file.None? ==> form == old(form) && filePreview == old(filePreview)
      ensures proofType == old(proofType) && inputMode == old(inputMode)
      ensures error == old(error) && loading == old(loading)
    {
      if file.Some? {
        form := form.(proofFile := file);
        filePreview := Some(file.value.name);
      }
    }

    /** `resetProofInput`: forget the typed link and the chosen file. */
    method ResetProofInput()
      modifies this
      ensures form == old(form).(proofUrl := "", proofFile := None) && filePreview == None
      ensures proofType == old(proofType) && inputMode == old(inputMode)
      ensures error == old(error) && loading == old(loading)
    {
      form := form.(proofUrl := "", proofFile := None);
      filePreview := None;
    }

    /** The proof-type buttons: image and video also go back to link mode,
        file and url keep the mode; every button resets the proof input. */
    method ChooseProofType(t: ProofType)
      modifies this
      ensures proofType == t
      ensures t == Image || t == Video ==> inputMode == Link
      ensures t == File || t == Url ==> inputMode == old(inputMode)
      ensures form == old(form).(proofUrl := "", proofFile := None) && filePreview == None
      ensures error == old(error) && loading == old(loading)
    {
      proofType := t;
      if t == Image || t == Video {
        inputMode := Link;
      }
      ResetProofInput();
    }

    /** The 'Paste Link' and 'Upload File' buttons. */
    method ChooseInputMode(mode: InputMode)
      modifies this
      ensures inputMode == mode && proofType == old(proofType)
      ensures form == old(form).(proofUrl := "", proofFile := None) && filePreview == None
      ensures error == old(error) && loading == old(loading)
    {
      inputMode := mode;
      ResetProofInput();
    }

    /** `handleSubmit`: clear the error and show the spinner, run the checks,
        make the call, then report. `call` is the request made, if any, and
        `succeeded` whether `onSuccess` ran. Every way out clears `loading`. */
    method HandleSubmit(encoded: Option<string>, reply: Reply) returns (call: Option<SubmitCall>, succeeded: bool)
      modifies this
      ensures !loading
      ensures var p := PrepareSubmission(bugId, old(proofType), old(inputMode), old(form), encoded);
              && (call.Some? <==> p.Ok?)
              && (p.Ok? ==> call == Some(p.value))
              && (p.Err? ==> error == p.error && !succeeded)
              && (p.Ok? ==> (succeeded <==> reply.Accepted?))
              && (p.Ok? && reply.Accepted? ==> error == "")
              && (p.Ok? && reply.Refused? ==> error == FailureMessage(reply.message))
      ensures proofType == old(proofType) && inputMode == old(inputMode)
      ensures form == old(form) && filePreview == old(filePreview)
    {
      ghost var p := PrepareSubmission(bugId, proofType, inputMode, form, encoded);
      error := "";
      loading := true;
      call, succeeded := None, false;
      var useUpload := proofType == File || (proofType == Image && inputMode == Upload)
                       || (proofType == Video && inputMode == Upload);
      var proofUrl := form.proofUrl;
      var proofFileName: Option<string> := None;
      if useUpload {
        if form.proofFile.None? {
          assert p == Err(MissingFileMessage(proofType));
          error := MissingFileMessage(proofType);
          loading := false;
          return;
        }
        if encoded.None? {
          // the FileReader's rejection lands in the catch block
          assert p == Err(FailedToSubmit);
          error := FailureMessage(None);
          loading := false;
          return;
        }
        proofUrl := encoded.value;
        proofFileName := Some(form.proofFile.value.name);
      } else if proofUrl == "" || Trim(proofUrl) == "" {
        assert Trim(proofUrl) == "";
        assert p == Err(MissingLinkMessage(proofType));
        error := MissingLinkMessage(proofType);
        loading := false;
        return;
      }
      call := Some(SubmitCall(bugId, form.solutionDescription, proofUrl, ProofTypeName(proofType), proofFileName));
      assert p == Ok(call.value);
      match reply {
        case Accepted => succeeded := true;
        case Refused(message) => error := FailureMessage(message);
      }
      // finally
      loading := false;
    }
  }
}
