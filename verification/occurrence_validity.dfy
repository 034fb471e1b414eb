/**
 * The occurrence validity assessment panel: a form over the assessment's
 * eight editable fields, plus the "unsaved changes" and "saving" flags
 * that drive the Save button. Loading, editing, submitting and the end of
 * a save are transitions of a `Panel` value; the PATCH body a submit sends
 * is a `Payload`.
 */
module OccurrenceValidity {
  import opened Options
  import opened Request

  datatype AssessmentStatus = PendingAssessment | Invalid | Valid

  function StatusId(s: AssessmentStatus): string {
    match s
    case PendingAssessment => "pending_assessment"
    case Invalid => "invalid"
    case Valid => "valid"
  }

  /** Reads a status identifier; `None` for anything outside the three. */
  function ParseStatus(id: string): (r: Option<AssessmentStatus>)
    ensures r.Some? ==> StatusId(r.value) == id
  {
    if id == "pending_assessment" then Some(PendingAssessment)
    else if id == "invalid" then Some(Invalid)
    else if id == "valid" then Some(Valid)
    else None
  }

  /** Status identifiers read back as the status they name, and only those read as a status. */
  lemma StatusIdRoundTrip(s: AssessmentStatus, id: string)
    ensures ParseStatus(StatusId(s)) == Some(s)
    ensures ParseStatus(id).None? <==> forall t: AssessmentStatus :: StatusId(t) != id
  {
    if ParseStatus(id).None? {
      forall t: AssessmentStatus
        ensures StatusId(t) != id
      {
        assert ParseStatus(StatusId(t)) == Some(t);
      }
    }
  }

  datatype IncidentClassification =
    | Operational | Technical | Environmental | HumanFactors | Organizational | OtherCause

  function ClassificationId(c: IncidentClassification): string {
    match c
    case Operational => "operational"
    case Technical => "technical"
    case Environmental => "environmental"
    case HumanFactors => "human_factors"
    case Organizational => "organizational"
    case OtherCause => "other"
  }

  /** Reads a classification identifier; `None` for anything outside the six. */
  function ParseClassification(id: string): (r: Option<IncidentClassification>)
    ensures r.Some? ==> ClassificationId(r.value) == id
  {
    if id == "operational" then Some(Operational)
    else if id == "technical" then Some(Technical)
    else if id == "environmental" then Some(Environmental)
    else if id == "human_factors" then Some(HumanFactors)
    else if id == "organizational" then Some(Organizational)
    else if id == "other" then Some(OtherCause)
    else None
  }

  /** Classification identifiers read back as the classification they name. */
  lemma ClassificationIdRoundTrip(c: IncidentClassification)
    ensures ParseClassification(ClassificationId(c)) == Some(c)
    ensures ClassificationId(c) != ""
  {
  }

  /** The eight editable fields of an assessment. */
  datatype Form = Form(
    status: AssessmentStatus,
    classification: Option<IncidentClassification>,
    reasoning: string,
    investigator: Option<string>,
    dateAssigned: Option<Date>,
    completionDueDate: Option<Date>,
    cfiApproved: bool,
    cfiApprovalDate: Option<Date>)

  /** The stored assessment, as fetched: here `reasoning` may be null. */
  datatype Assessment = Assessment(
    status: AssessmentStatus,
    classification: Option<IncidentClassification>,
    reasoning: Option<string>,
    investigator: Option<string>,
    dateAssigned: Option<Date>,
    completionDueDate: Option<Date>,
    cfiApproved: bool,
    cfiApprovalDate: Option<Date>)

  datatype Panel = Panel(form: Form, hasUnsavedChanges: bool, isSaving: bool)

  /** The form before any assessment is loaded. */
  function InitialPanel(): (p: Panel)
    ensures p.form.status == PendingAssessment
    ensures p.form.classification.None? && p.form.investigator.None?
    ensures p.form.dateAssigned.None? && p.form.completionDueDate.None? && p.form.cfiApprovalDate.None?
    ensures p.form.reasoning == "" && !p.form.cfiApproved
    ensures !p.hasUnsavedChanges && !p.isSaving
  {
    Panel(Form(PendingAssessment, None, "", None, None, None, false, None), false, false)
  }

  /**
   * The fetched assessment replaces the form; the flags are untouched.
   * A null reasoning becomes the empty string.
   */
  function Load(p: Panel, a: Assessment): (p': Panel)
    ensures p'.hasUnsavedChanges == p.hasUnsavedChanges && p'.isSaving == p.isSaving
    ensures p'.form.reasoning == a.reasoning.GetOr("")
    ensures p'.form.status == a.status && p'.form.classification == a.classification
    ensures p'.form.investigator == a.investigator && p'.form.cfiApproved == a.cfiApproved
    ensures p'.form.dateAssigned == a.dateAssigned && p'.form.completionDueDate == a.completionDueDate
    ensures p'.form.cfiApprovalDate == a.cfiApprovalDate
  {
    var f := Form(a.status, a.classification, a.reasoning.GetOr(""), a.investigator,
                  a.dateAssigned, a.completionDueDate, a.cfiApproved, a.cfiApprovalDate);
    p.(form := f)
  }

  /**
   * One input event. The two selects deliver their raw option value, where
   * the empty option has value ""; the date inputs deliver the instant
   * they denote, or nothing when cleared.
   */
  datatype Edit =
    | SetStatus(status: AssessmentStatus)
    | SetReasoning(text: string)
    | SelectClassification(option: string)
    | SelectInvestigator(option: string)
    | SetDateAssigned(date: Option<Date>)
    | SetCompletionDueDate(date: Option<Date>)
    | SetCfiApproved(checked: bool)
    | SetCfiApprovalDate(date: Option<Date>)

  datatype Field =
    | StatusField | ClassificationField | ReasoningField | InvestigatorField
    | DateAssignedField | CompletionDueDateField | CfiApprovedField | CfiApprovalDateField

  function FieldOf(e: Edit): Field {
    match e
    case SetStatus(_) => StatusField
    case SetReasoning(_) => ReasoningField
    case SelectClassification(_) => ClassificationField
    case SelectInvestigator(_) => InvestigatorField
    case SetDateAssigned(_) => DateAssignedField
    case SetCompletionDueDate(_) => CompletionDueDateField
    case SetCfiApproved(_) => CfiApprovedField
    case SetCfiApprovalDate(_) => CfiApprovalDateField
  }

  /** `f` and `g` agree on every field except possibly `except`. */
  predicate AgreeExcept(f: Form, g: Form, except: Field) {
    (except != StatusField ==> f.status == g.status)
    && (except != ClassificationField ==> f.classification == g.classification)
    && (except != ReasoningField ==> f.reasoning == g.reasoning)
    && (except != InvestigatorField ==> f.investigator == g.investigator)
    && (except != DateAssignedField ==> f.dateAssigned == g.dateAssigned)
    && (except != CompletionDueDateField ==> f.completionDueDate == g.completionDueDate)
    && (except != CfiApprovedField ==> f.cfiApproved == g.cfiApproved)
    && (except != CfiApprovalDateField ==> f.cfiApprovalDate == g.cfiApprovalDate)
  }

  /** `value || null` for a select: the empty option is null. */
  function OrNull(option: string): (r: Option<string>)
    ensures r.None? <==> option == ""
  {
    if option == "" then None else Some(option)
  }

  /** `handleChange(field, value)`: sets the one field the event names. */
  function ApplyEdit(f: Form, e: Edit): (g: Form)
    ensures AgreeExcept(f, g, FieldOf(e))
  {
    match e
    case SetStatus(s) => f.(status := s)
    case SetReasoning(t) => f.(reasoning := t)
    case SelectClassification(o) => f.(classification := if o == "" then None else ParseClassification(o))
    case SelectInvestigator(o) => f.(investigator := OrNull(o))
    case SetDateAssigned(d) => f.(dateAssigned := d)
    case SetCompletionDueDate(d) => f.(completionDueDate := d)
    case SetCfiApproved(c) => f.(cfiApproved := c)
    case SetCfiApprovalDate(d) => f.(cfiApprovalDate := d)
  }

  /** An edit updates the form and marks it unsaved; a save in progress stays in progress. */
  function Change(p: Panel, e: Edit): (p': Panel)
    ensures p'.hasUnsavedChanges
    ensures p'.isSaving == p.isSaving
    ensures AgreeExcept(p.form, p'.form, FieldOf(e))
  {
    Panel(ApplyEdit(p.form, e), true, p.isSaving)
  }

  /** The edited field takes the value the event carries. */
  lemma EditSetsField(f: Form, e: Edit)
    ensures e.SetStatus? ==> ApplyEdit(f, e).status == e.status
    ensures e.SetReasoning? ==> ApplyEdit(f, e).reasoning == e.text
    ensures e.SelectInvestigator? ==> ApplyEdit(f, e).investigator == OrNull(e.option)
    ensures e.SetCfiApproved? ==> ApplyEdit(f, e).cfiApproved == e.checked
    ensures e.SetCfiApprovalDate? ==> ApplyEdit(f, e).cfiApprovalDate == e.date
    ensures e.SetDateAssigned? ==> ApplyEdit(f, e).dateAssigned == e.date
    ensures e.SetCompletionDueDate? ==> ApplyEdit(f, e).completionDueDate == e.date
  {
  }

  /** Choosing the empty option stores null, for the classification and for the investigator. */
  lemma EmptyOptionStoresNull(f: Form)
    ensures ApplyEdit(f, SelectClassification("")).classification.None?
    ensures ApplyEdit(f, SelectInvestigator("")).investigator.None?
  {
  }

  /** Each classification option stores its classification. */
  lemma ClassificationOptionStored(f: Form, c: IncidentClassification)
    ensures ApplyEdit(f, SelectClassification(ClassificationId(c))).classification == Some(c)
  {
    ClassificationIdRoundTrip(c);
  }

  /** Unticking the approval box keeps the approval date that was entered. */
  lemma UntickKeepsApprovalDate(p: Panel)
    ensures Change(p, SetCfiApproved(false)).form.cfiApprovalDate == p.form.cfiApprovalDate
    ensures !Change(p, SetCfiApproved(false)).form.cfiApproved
  {
  }

  /** Loading replaces edits made before the fetch completed, yet the form still counts as unsaved. */
  lemma LoadAfterEditKeepsFlag(p: Panel, e: Edit, a: Assessment)
    ensures Load(Change(p, e), a).hasUnsavedChanges
    ensures Load(Change(p, e), a).form == Load(p, a).form
  {
  }

  /** The Save button is enabled iff there are unsaved changes and no save is running. */
  predicate SaveEnabled(p: Panel) {
    p.hasUnsavedChanges && !p.isSaving
  }

  /** The PATCH body: the form's fields plus `assessment_date`. */
  datatype Payload = Payload(form: Form, assessmentDate: Option<Date>)

  /**
   * `handleSubmit` up to the request: the panel starts saving, and the body
   * carries the submission time as `assessment_date` exactly when the
   * status is no longer pending.
   */
  function Submit(p: Panel, now: Date): (res: (Panel, Payload))
    ensures res.0 == p.(isSaving := true)
    ensures res.1.form == p.form
    ensures res.1.assessmentDate.Some? <==> p.form.status != PendingAssessment
    ensures res.1.assessmentDate.Some? ==> res.1.assessmentDate.value == now
  {
    (p.(isSaving := true), Payload(p.form, if p.form.status != PendingAssessment then Some(now) else None))
  }

  /** A click on Save: submits when the button is enabled, does nothing when it is disabled. */
  function ClickSave(p: Panel, now: Date): (res: (Panel, Option<Payload>))
    ensures res.1.Some? <==> SaveEnabled(p)
    ensures res.1.None? ==> res.0 == p
    ensures res.1.Some? ==> res.0.isSaving && !SaveEnabled(res.0)
  {
    if SaveEnabled(p) then var (q, body) := Submit(p, now); (q, Some(body)) else (p, None)
  }

  /**
   * The end of a save, after the response arrives: success clears the
   * unsaved flag, failure leaves it; either way saving stops.
   */
  function FinishSave(p: Panel, ok: bool): (p': Panel)
    ensures !p'.isSaving
    ensures p'.form == p.form
    ensures ok ==> !p'.hasUnsavedChanges
    ensures !ok ==> p'.hasUnsavedChanges == p.hasUnsavedChanges
  {
    if ok then Panel(p.form, false, false) else p.(isSaving := false)
  }

  /**
   * A full save cycle from an enabled button: a success leaves Save
   * disabled until the next edit, a failure re-enables it.
   */
  lemma SaveCycle(p: Panel, now: Date, ok: bool)
    requires SaveEnabled(p)
    ensures var (q, body) := ClickSave(p, now);
      body.Some? && q.isSaving
      && (ok ==> !SaveEnabled(FinishSave(q, ok)))
      && (!ok ==> SaveEnabled(FinishSave(q, ok)))
      && FinishSave(q, ok).form == p.form
  {
  }

  /** A fresh panel cannot save; any edit enables Save. */
  lemma EditEnablesSave(e: Edit)
    ensures !SaveEnabled(InitialPanel())
    ensures SaveEnabled(Change(InitialPanel(), e))
  {
  }

  /** The badge class for a status value: yellow, red or green for the three statuses, gray otherwise. */
  function StatusColor(status: string): (c: string)
    ensures ParseStatus(status) == Some(PendingAssessment) ==> c == "bg-yellow-100 text-yellow-800"
    ensures ParseStatus(status) == Some(Invalid) ==> c == "bg-red-100 text-red-800"
    ensures ParseStatus(status) == Some(Valid) ==> c == "bg-green-100 text-green-800"
    ensures ParseStatus(status).None? <==> c == "bg-gray-100 text-gray-800"
  {
    match status
    case "pending_assessment" => "bg-yellow-100 text-yellow-800"
    case "invalid" => "bg-red-100 text-red-800"
    case "valid" => "bg-green-100 text-green-800"
    case _ => "bg-gray-100 text-gray-800"
  }
}
