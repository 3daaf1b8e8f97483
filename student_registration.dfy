/**
 * The student registration form: its field updates, the submit handler
 * and the mapping of a database error to the message the student sees.
 */
module StudentRegistration {
  import opened Wrappers
  import opened Text

  /** The names of the form's seven fields. */
  const FieldNames: seq<string> := ["name", "department", "div", "rollNumber", "email", "selectedVisit", "reason"]

  /** `formData`: field name to value. An input with another name adds a key, as the spread update does. */
  type Form = map<string, string>

  /** The form as first shown and as reset after a successful submit: every field empty. */
  function EmptyForm(): (f: Form)
    ensures f.Keys == set k | k in FieldNames
    ensures forall k :: k in f ==> f[k] == ""
  {
    map k | k in FieldNames :: ""
  }

  /** A field's value; a missing one reads as empty, and is as falsy as an empty one. */
  function Field(form: Form, name: string): string
  {
    if name in form then form[name] else ""
  }

  /** The row inserted into `student_registrations`. */
  datatype RegistrationRow = RegistrationRow(
    studentName: string,
    department: string,
    division: string,
    rollNumber: string,
    email: string,
    visitId: string,
    motivationReason: string)

  function RowOf(form: Form): RegistrationRow
  {
    RegistrationRow(Field(form, "name"), Field(form, "department"), Field(form, "div"),
      Field(form, "rollNumber"), Field(form, "email"), Field(form, "selectedVisit"), Field(form, "reason"))
  }

  /** An error from the insert; its message may be absent. */
  datatype DbError = DbError(message: Option<string>)

  const SelectVisitText := "Please select an industrial visit"
  const DuplicateKeyText := "duplicate key"
  const UniqueViolationText := DuplicateKeyText + " value violates unique constraint \"unique_student_per_visit\""
  const AlreadyRegisteredText := "You have already registered for this industrial visit."
  const AlreadyExistsText := "A registration with these details already exists. Please check your information and try again."
  const DefaultFailureText := "Failed to submit registration. Please try again."
  const SuccessText := "Registration submitted successfully! You will receive a confirmation email shortly."

  /**
   * The message shown for a failed submit: the per-visit uniqueness
   * violation first, then any other duplicate key, then the error's own
   * text, and the default text when the error has no message.
   */
  function UserMessage(message: Option<string>): (r: string)
    ensures r != ""
    ensures message.Some? && message.value != "" && !Contains(message.value, DuplicateKeyText) ==> r == message.value
    ensures (message.None? || message == Some("")) ==> r == DefaultFailureText
  {
    match message
    case None => DefaultFailureText
    case Some(m) =>
      UniqueIsDuplicate(m);
      if m == "" then DefaultFailureText
      else if Contains(m, UniqueViolationText) then AlreadyRegisteredText
      else if Contains(m, DuplicateKeyText) then AlreadyExistsText
      else m
  }

  /**
   * Any message naming the per-visit constraint gets the "already
   * registered" text, although it also contains `duplicate key`: the
   * specific check must come first. Any other duplicate key gets the
   * generic text.
   */
  lemma DuplicateMessages(m: string)
    ensures Contains(m, UniqueViolationText) ==> Contains(m, DuplicateKeyText) && UserMessage(Some(m)) == AlreadyRegisteredText
    ensures !Contains(m, UniqueViolationText) && Contains(m, DuplicateKeyText) ==> UserMessage(Some(m)) == AlreadyExistsText
  {
    UniqueIsDuplicate(m);
  }

  /** The uniqueness violation is itself a duplicate-key message. */
  lemma UniqueIsDuplicate(m: string)
    ensures Contains(m, UniqueViolationText) ==> Contains(m, DuplicateKeyText)
  {
    if Contains(m, UniqueViolationText) {
      ContainsPrefix(DuplicateKeyText, " value violates unique constraint \"unique_student_per_visit\"");
      ContainsTransitive(m, UniqueViolationText, DuplicateKeyText);
    }
  }

  /** If `a` includes `b` and `b` includes `c`, then `a` includes `c`. */
  lemma ContainsTransitive(a: string, b: string, c: string)
    requires Contains(a, b) && Contains(b, c)
    ensures Contains(a, c)
  {
    ContainsAt(a, b);
    ContainsAt(b, c);
    var i :| 0 <= i <= |a| - |b| && a[i..][..|b|] == b;
    var j :| 0 <= j <= |b| - |c| && b[j..][..|c|] == c;
    assert a[i + j..][..|c|] == c by {
      forall k | 0 <= k < |c|
        ensures a[i + j..][..|c|][k] == c[k]
      {
        assert a[i + j..][..|c|][k] == a[i..][..|b|][j + k];
        assert b[j..][..|c|][k] == b[j + k];
      }
    }
    ContainsAt(a, c);
  }

  datatype MessageKind = SuccessMessage | ErrorMessage
  datatype SubmitMessage = SubmitMessage(kind: MessageKind, text: string)

  /** The message after a submit of `form` whose insert, if attempted, returns `insertError`. */
  function SubmitOutcome(form: Form, insertError: Option<DbError>): SubmitMessage
  {
    if Field(form, "selectedVisit") == "" then SubmitMessage(ErrorMessage, UserMessage(Some(SelectVisitText)))
    else match insertError
      case None => SubmitMessage(SuccessMessage, SuccessText)
      case Some(e) => SubmitMessage(ErrorMessage, UserMessage(e.message))
  }

  /** Without a selected visit the submit fails with "Please select an industrial visit", whatever the store would say. */
  lemma NoVisitSelected(form: Form, insertError: Option<DbError>)
    requires Field(form, "selectedVisit") == ""
    ensures SubmitOutcome(form, insertError) == SubmitMessage(ErrorMessage, SelectVisitText)
  {
    NotContainsMissingChar(SelectVisitText, DuplicateKeyText, 'k');
  }

  /** The `student_registrations` table, as far as the form writes it. */
  class RegistrationStore {
    var rows: seq<RegistrationRow>

    constructor (rows0: seq<RegistrationRow>)
      ensures rows == rows0
    {
      rows := rows0;
    }

    /** `.insert([row]).select()`: `insertError` is what the store answers. */
    method Insert(row: RegistrationRow, insertError: Option<DbError>) returns (ok: bool)
      modifies this
      ensures ok == insertError.None?
      ensures rows == if ok then old(rows) + [row] else old(rows)
    {
      ok := insertError.None?;
      if ok {
        rows := rows + [row];
      }
    }
  }

  class RegistrationPage {
    var formData: Form
    var isSubmitting: bool
    var submitMessage: Option<SubmitMessage>

    constructor ()
      ensures formData == EmptyForm() && !isSubmitting && submitMessage == None
    {
      formData := EmptyForm();
      isSubmitting := false;
      submitMessage := None;
    }

    /** `handleInputChange`: set the named field and clear any message. */
    method HandleInputChange(name: string, value: string)
      modifies this
      ensures formData == old(formData)[name := value]
      ensures forall k :: k in old(formData) && k != name ==> k in formData && formData[k] == old(formData)[k]
      ensures submitMessage == None && isSubmitting == old(isSubmitting)
    {
      formData := formData[name := value];
      if submitMessage.Some? {
        submitMessage := None;
      }
    }

    /**
     * `handleSubmit`: no insert without a selected visit; a successful
     * insert resets every field; a failed one keeps them and shows the
     * mapped message. `isSubmitting` is set for the duration and cleared on
     * every path.
     */
    method HandleSubmit(store: RegistrationStore, insertError: Option<DbError>) returns (inserted: bool)
      modifies this, store
      ensures inserted <==> Field(old(formData), "selectedVisit") != "" && insertError.None?
      ensures store.rows == if inserted then old(store.rows) + [RowOf(old(formData))] else old(store.rows)
      ensures submitMessage == Some(SubmitOutcome(old(formData), insertError))
      ensures formData == if inserted then EmptyForm() else old(formData)
      ensures !isSubmitting
    {
      isSubmitting := true;
      submitMessage := None;
      if Field(formData, "selectedVisit") == "" {
        submitMessage := Some(SubmitMessage(ErrorMessage, UserMessage(Some(SelectVisitText))));
        isSubmitting := false;
        return false;
      }
      inserted := store.Insert(RowOf(formData), insertError);
      if inserted {
        submitMessage := Some(SubmitMessage(SuccessMessage, SuccessText));
        formData := EmptyForm();
      } else {
        submitMessage := Some(SubmitMessage(ErrorMessage, UserMessage(insertError.value.message)));
      }
      isSubmitting := false;
    }
  }
}
