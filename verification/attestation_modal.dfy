/** The "Create Attestation" dialog: the validity of its form, the submit
    transitions, what it renders, and the call it makes to
    `createAttestation`. */
module AttestationModal {
  import opened Optional
  import opened AttestationTypes
  import opened AttestationHelpers
  import opened AttestationsApi
  import JsText
  import Seqs

  /** The form fields; the stage is the selected option's index. */
  datatype Form = Form(batchId: string, stage: int, location: string, certifications: string, details: string)

  const EmptyForm := Form("", 0, "", "", "")

  /** `isFormValid`: four text fields non-empty once trimmed. */
  predicate IsFormValid(f: Form)
  {
    JsText.Trim(f.batchId) != "" && JsText.Trim(f.location) != ""
    && JsText.Trim(f.certifications) != "" && JsText.Trim(f.details) != ""
  }

  /** The form is valid exactly when each of the four text fields has a
      character that is not white space; the stage plays no part. */
  lemma FormValidIff(f: Form, stage: int)
    ensures IsFormValid(f) <==>
      !JsText.AllWhiteSpace(f.batchId) && !JsText.AllWhiteSpace(f.location)
      && !JsText.AllWhiteSpace(f.certifications) && !JsText.AllWhiteSpace(f.details)
    ensures IsFormValid(f.(stage := stage)) == IsFormValid(f)
  {
    JsText.TrimIsEmptyIff(f.batchId);
    JsText.TrimIsEmptyIff(f.location);
    JsText.TrimIsEmptyIff(f.certifications);
    JsText.TrimIsEmptyIff(f.details);
  }

  lemma EmptyFormInvalid()
    ensures !IsFormValid(EmptyForm)
  {
    JsText.TrimIsEmptyIff("");
  }

  datatype ModalState = ModalState(form: Form, isSubmitting: bool)

  /** A `createAttestation` call the dialog has started. */
  datatype Submission = Submission(form: Form, address: string)

  /** The submit handler up to the awaited call: without a connected
      address (undefined or empty) or with an invalid form nothing happens;
      otherwise the dialog is marked submitting and the call starts. */
  function HandleSubmit(s: ModalState, address: Option<string>): (r: (ModalState, Option<Submission>))
    ensures r.1.None? <==> address.None? || address.value == "" || !IsFormValid(s.form)
    ensures r.1.None? ==> r.0 == s
    ensures r.1.Some? ==> r.0 == ModalState(s.form, true) && r.1.value == Submission(s.form, address.value)
  {
    if address.None? || address.value == "" || !IsFormValid(s.form) then (s, None)
    else (s.(isSubmitting := true), Some(Submission(s.form, address.value)))
  }

  datatype Callback = OnSuccess | OnClose

  /** The rest of the handler once the call settles: the callbacks run, in
      order, and the submitting flag is cleared either way. */
  function FinishSubmit(s: ModalState, succeeded: bool, hasOnSuccess: bool): (r: (ModalState, seq<Callback>))
    ensures r.0 == s.(isSubmitting := false)
    ensures !succeeded ==> r.1 == []
    ensures succeeded ==> |r.1| > 0 && r.1[|r.1| - 1] == OnClose && OnClose !in r.1[..|r.1| - 1]
    ensures succeeded ==> (OnSuccess in r.1 <==> hasOnSuccess)
    ensures succeeded && hasOnSuccess ==> r.1[0] == OnSuccess
  {
    var calls := if !succeeded then [] else if hasOnSuccess then [OnSuccess, OnClose] else [OnClose];
    (s.(isSubmitting := false), calls)
  }

  /** A whole submit: pending while the call runs, not submitting after it
      whatever its outcome, and the form kept as it was. */
  lemma SubmitCycle(s: ModalState, address: string, succeeded: bool, hasOnSuccess: bool)
    requires address != "" && IsFormValid(s.form)
    ensures HandleSubmit(s, Some(address)).0.isSubmitting
    ensures var after := FinishSubmit(HandleSubmit(s, Some(address)).0, succeeded, hasOnSuccess).0;
      !after.isSubmitting && after.form == s.form
    ensures FinishSubmit(HandleSubmit(s, Some(address)).0, succeeded, hasOnSuccess).1 != [] <==> succeeded
  {
  }

  /** The stage picker: option `i` has value `i` and the `i`-th name. */
  datatype StageOption = StageOption(value: int, name: string)

  const StageOptionNames: seq<string> := ["Farm", "Processing", "Export", "Import", "Roasting", "Retail"]

  function StageOptions(): (r: seq<StageOption>)
    ensures |r| == |StageOptionNames|
    ensures forall i :: 0 <= i < |r| ==> r[i] == StageOption(i, StageOptionNames[i])
  {
    seq(|StageOptionNames|, i requires 0 <= i < |StageOptionNames| => StageOption(i, StageOptionNames[i]))
  }

  /** The options are the indices 0 to 5 labelled with the decoder's stage
      names, so the chosen index decodes to the name it was picked by. */
  lemma StageOptionsMatchVocabulary()
    ensures |StageOptions()| == 6
    ensures forall i :: 0 <= i < |StageOptions()| ==>
      StageOptions()[i].value == i && StageOptions()[i].name == StageNames[i]
      && StageValue(Num(i)) == Num(i)
  {
  }

  /** What the open dialog shows. */
  datatype ModalView = ModalView(
    stageOptions: seq<StageOption>,
    inputsDisabled: bool,
    submitDisabled: bool,
    submitLabel: string,
    showsOverlay: bool)

  /** The dialog renders nothing while closed. */
  function Render(isOpen: bool, s: ModalState): (r: Option<ModalView>)
    ensures r.None? <==> !isOpen
    ensures r.Some? ==> r.value.submitDisabled == (s.isSubmitting || !IsFormValid(s.form))
    ensures r.Some? ==> r.value.inputsDisabled == s.isSubmitting == r.value.showsOverlay
  {
    if !isOpen then None
    else Some(ModalView(StageOptions(), s.isSubmitting, s.isSubmitting || !IsFormValid(s.form),
      if s.isSubmitting then "Submitting..." else "Create Attestation", s.isSubmitting))
  }

  /** While a submit is pending the submit button is disabled and reads
      "Submitting...". */
  lemma PendingDisablesSubmit(s: ModalState, address: string)
    requires address != "" && IsFormValid(s.form)
    ensures var v := Render(true, HandleSubmit(s, Some(address)).0).value;
      v.submitDisabled && v.submitLabel == "Submitting..."
  {
  }

  /** The call as written: six arguments, the certifications as the typed
      string, and neither a previous attestation id nor a timestamp. */
  function ModalCallArgs(sub: Submission): (r: CreateArgs)
    ensures r.previousAttestationId.None? && r.timestamp.None?
    ensures r.certifications == Some(Str(sub.form.certifications))
  {
    CreateArgs(Some(Str(sub.form.batchId)), Some(Num(sub.form.stage)), Some(Str(sub.form.location)),
      Some(Str(sub.form.certifications)), Some(Str(sub.form.details)), Some(Str(sub.address)), None, None)
  }

  /** No submission from the dialog can be encoded: the timestamp and the
      previous attestation id are missing and the certifications are not a
      list. */
  lemma ModalCallNeverEncodes(sub: Submission)
    ensures !Encodable(EncodeList(ModalCallArgs(sub)))
  {
    var items := EncodeList(ModalCallArgs(sub));
    assert !Conforms(items[1].value, items[1].abiType);
  }

  /** The call the dialog evidently means to make: the comma-separated
      certifications as a trimmed list, the zero hash for "no previous
      attestation", and the submit time in seconds. */
  function IntendedCallArgs(sub: Submission, now: nat): (r: CreateArgs)
    ensures r.certifications.Some? && r.certifications.value.Strs?
    ensures forall k :: 0 <= k < |r.certifications.value.items| ==>
      ',' !in r.certifications.value.items[k]
  {
    var pieces := JsText.Split(sub.form.certifications, ',');
    var trimmed := Seqs.Map(pieces, JsText.Trim);
    assert forall k :: 0 <= k < |trimmed| ==> ',' !in trimmed[k] by {
      forall k | 0 <= k < |trimmed| ensures ',' !in trimmed[k] {
        TrimKeepsOut(pieces[k], ',');
      }
    }
    CreateArgs(Some(Str(sub.form.batchId)), Some(Num(sub.form.stage)), Some(Str(sub.form.location)),
      Some(Strs(trimmed)), Some(Str(sub.form.details)), Some(Str(sub.address)),
      Some(Str(ZeroHash)), Some(Num(now)))
  }

  /** Trimming only removes characters. */
  lemma TrimKeepsOut(s: string, c: char)
    requires c !in s
    ensures c !in JsText.Trim(s)
  {
  }

  /** With a wallet address, a stage picked from the options and a time
      that fits `uint256`, the intended call encodes, and the indexer's
      decoding of it gives every argument back. */
  lemma IntendedCallEncodes(sub: Submission, now: nat)
    requires IsHexOfLength(sub.address, 40)
    requires 0 <= sub.form.stage < |StageOptionNames|
    requires now < TwoTo256
    ensures Encodable(EncodeList(IntendedCallArgs(sub, now)))
    ensures ParseDecodedData(IndexedEntries(EncodeList(IntendedCallArgs(sub, now))))
         == ArgsRecord(IntendedCallArgs(sub, now))
  {
    var items := EncodeList(IntendedCallArgs(sub, now));
    ZeroHashIsBytes32();
    forall k | 0 <= k < |items|
      ensures Conforms(items[k].value, items[k].abiType)
    {
    }
    EncodeDecodeRoundTrip(IntendedCallArgs(sub, now));
  }
}
