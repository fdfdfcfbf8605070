/**
 * The form field components: whether a field shows its error, which
 * message it shows, the element ids it derives, and what the error slot
 * renders.
 */
module Form {
  import opened Wrappers
  import opened Text

  /** A validation error as the form library stores it. */
  datatype ErrorValue =
    | StrError(s: string)                   // a string
    | ObjError(message: Option<string>)      // an object; `message` when it has a string `message`
    | NullError                              // null
    | UndefinedError                         // undefined
    | OtherError(text: string)               // any other value, with `String(value)`

  const OutsideFieldMessage := "Form components should be used within <Field>"

  /** The field store and form store values the components read. */
  datatype FieldState = FieldState(errors: seq<ErrorValue>, isTouched: bool, submissionAttempts: int)

  predicate ShowError(st: FieldState) {
    st.isTouched || st.submissionAttempts > 0
  }

  /** The message of one error value. */
  function MessageOf(e: ErrorValue): (m: Option<string>)
    ensures m.None? <==> e.NullError? || e.UndefinedError? || (e.ObjError? && e.message.None?)
    ensures e.StrError? ==> m == Some(e.s)
    ensures e.ObjError? ==> m == e.message
    ensures e.OtherError? ==> m == Some(e.text)
  {
    match e
    case StrError(s) => Some(s)
    case ObjError(message) => message
    case NullError => None
    case UndefinedError => None
    case OtherError(text) => Some(text)
  }

  /** What `useFieldComponentContext` returns. */
  datatype FieldComponent = FieldComponent(
    formControlId: string, formDescriptionId: string, formMessageId: string,
    error: Option<string>, hasError: bool)

  function ControlId(id: string): string { id + "-form-item" }
  function DescriptionId(id: string): string { id + "-form-item-description" }
  function MessageId(id: string): string { id + "-form-item-message" }

  /**
   * `useFieldComponentContext`: outside a `Field` (no id in context) it
   * throws; inside, the message is that of the first error, consulted only
   * while the error is shown.
   */
  function FieldComponentOf(idContext: Option<string>, st: FieldState): (r: Result<FieldComponent>)
    ensures r.Err? <==> idContext.None?
    ensures r.Err? ==> r.message == OutsideFieldMessage
    ensures r.Ok? ==> r.value.error.Some? ==> ShowError(st) && |st.errors| > 0
    ensures r.Ok? && ShowError(st) && |st.errors| > 0 ==> r.value.error == MessageOf(st.errors[0])
    ensures r.Ok? ==> (r.value.hasError <==> r.value.error.Some?)
    ensures r.Ok? ==> r.value.formControlId == ControlId(idContext.value) &&
                      r.value.formDescriptionId == DescriptionId(idContext.value) &&
                      r.value.formMessageId == MessageId(idContext.value)
  {
    match idContext
    case None => Err(OutsideFieldMessage)
    case Some(id) =>
      var show := ShowError(st);
      var message := if show && |st.errors| > 0 then MessageOf(st.errors[0]) else None;
      Ok(FieldComponent(ControlId(id), DescriptionId(id), MessageId(id), message, show && message.Some?))
  }

  /** `Field`'s `data-invalid`: the error is shown and there is at least one error. */
  predicate FieldInvalid(st: FieldState) {
    ShowError(st) && |st.errors| > 0
  }

  /**
   * The label's error flag and the field's invalid flag disagree exactly
   * when the first error is shown but yields no message (an object without
   * a string `message`, or null or undefined); the label never flags an
   * error the field does not.
   */
  lemma LabelAndFieldFlags(id: string, st: FieldState)
    ensures FieldComponentOf(Some(id), st).value.hasError ==> FieldInvalid(st)
    ensures FieldComponentOf(Some(id), st).value.hasError != FieldInvalid(st) <==>
              FieldInvalid(st) && MessageOf(st.errors[0]).None?
  {
  }

  /** Every pair of derived ids differs, for the same field and across fields, and each kind determines its field. */
  lemma IdsDistinct(a: string, b: string)
    ensures ControlId(a) != DescriptionId(b) && ControlId(a) != MessageId(b) && DescriptionId(a) != MessageId(b)
    ensures ControlId(a) == ControlId(b) ==> a == b
    ensures DescriptionId(a) == DescriptionId(b) ==> a == b
    ensures MessageId(a) == MessageId(b) ==> a == b
  {
    assert ControlId(a)[|ControlId(a)| - 1] == 'm';
    assert DescriptionId(b)[|DescriptionId(b)| - 1] == 'n';
    assert MessageId(b)[|MessageId(b)| - 1] == 'e';
    if ControlId(a) == ControlId(b) {
      assert a == ControlId(a)[..|a|];
      assert b == ControlId(b)[..|b|];
    }
    if DescriptionId(a) == DescriptionId(b) {
      assert a == DescriptionId(a)[..|a|];
      assert b == DescriptionId(b)[..|b|];
    }
    if MessageId(a) == MessageId(b) {
      assert a == MessageId(a)[..|a|];
      assert b == MessageId(b)[..|b|];
    }
  }

  // ---------------------------------------------------------------------
  // FieldError

  /** The children given to the error slot. */
  datatype Children = NoChildren | TextChildren(text: string) | ElementChildren

  /** JavaScript truthiness of the children. */
  predicate Truthy(c: Children) {
    c.ElementChildren? || (c.TextChildren? && c.text != "")
  }

  datatype Body = MessageBody(message: string) | ChildrenBody(children: Children)

  /**
   * `FieldError`: the body is the message when there is one (`??` keeps an
   * empty message), otherwise the children; a falsy body renders nothing.
   */
  function FieldErrorBody(error: Option<string>, children: Children): (r: Option<Body>)
    ensures r.None? <==> error == Some("") || (error.None? && !Truthy(children))
    ensures error.Some? && r.Some? ==> r.value == MessageBody(error.value)
    ensures error.None? && r.Some? ==> r.value == ChildrenBody(children)
  {
    match error
    case Some(m) => if m == "" then None else Some(MessageBody(m))
    case None => if Truthy(children) then Some(ChildrenBody(children)) else None
  }
}
