/**
 * Form controls (lib/FormControl.tsx): the field context a FormControl
 * provides (ids, state flags) and the props useFormControl derives for an
 * input from its own props and that context. The generated id (useId) and
 * the help-text and focus state hooks are parameters; `ariaAttr` is taken
 * to give true for a truthy condition and undefined otherwise.
 */
module FormControl {
  import opened Js
  import opened Objects
  import opened Functions

  /** The id the provider derived, as written: the conditional covers
      `idProp || uuid`, so any truthy input gives `field-${uuid}`. */
  function FieldIdAsWritten(idProp: Value, uuid: Value): (r: Value)
    ensures Truthy(idProp) || Truthy(uuid) ==> r == Str("field-" + ToStr(uuid))
    ensures !Truthy(idProp) && !Truthy(uuid) ==> r == Undefined
  {
    if Truthy(Or(idProp, uuid)) then Str("field-" + ToStr(uuid)) else Undefined
  }

  /** A given id is ignored: id 'email' with generated id 7 gives 'field-7'. */
  lemma FieldIdIgnoresIdProp()
    ensures FieldIdAsWritten(Str("email"), Num(7)) == Str("field-7")
    ensures FieldId(Str("email"), Num(7)) == Str("email")
  {
    assert ToStr(Num(7)) == "7" by {
      assert NatToString(7) == "7";
    }
  }

  /** The id the interface documents: the given id, else one derived from
      the generated id. */
  function FieldId(idProp: Value, uuid: Value): (r: Value)
    ensures Truthy(idProp) ==> r == idProp
    ensures !Truthy(idProp) && Truthy(uuid) ==> r == Str("field-" + ToStr(uuid))
    ensures !Truthy(idProp) && !Truthy(uuid) ==> r == Undefined
  {
    if Truthy(idProp) then idProp
    else if Truthy(uuid) then Str("field-" + ToStr(uuid))
    else Undefined
  }

  /** The two agree exactly when no id of its own is given. */
  lemma FieldIdAgreement(idProp: Value, uuid: Value)
    requires !Truthy(idProp)
    ensures FieldIdAsWritten(idProp, uuid) == FieldId(idProp, uuid)
  {
  }

  /** The field context, without htmlProps. */
  datatype FieldContext = FieldContext(
    isRequired: bool, isInvalid: bool, isLoading: bool, isReadOnly: bool, isDisabled: bool,
    isFocused: bool, hasHelpText: bool, id: Value,
    labelId: string, feedbackId: string, helpTextId: string,
    onFocus: Handler, onBlur: Handler)

  const ProviderKeys: set<string> := {"id", "isRequired", "isInvalid", "isDisabled", "isLoading", "isReadOnly"}

  /** What the provider makes of its props around a field id: the state
      flags are the truthiness of their props, the label, feedback and
      help-text ids are built from the field id, and htmlProps are the props
      without the provider's own keys, with their values. */
  ghost predicate ProvidedFrom(props: Dict<Value>, id: Value, hasHelpText: bool, isFocused: bool,
                               focusOn: Handler, focusOff: Handler, r: (FieldContext, Dict<Value>))
  {
    r.0.id == id &&
    r.0.isRequired == Truthy(Lookup(props, "isRequired")) &&
    r.0.isInvalid == Truthy(Lookup(props, "isInvalid")) &&
    r.0.isLoading == Truthy(Lookup(props, "isLoading")) &&
    r.0.isReadOnly == Truthy(Lookup(props, "isReadOnly")) &&
    r.0.isDisabled == Truthy(Lookup(props, "isDisabled")) &&
    r.0.isFocused == isFocused && r.0.hasHelpText == hasHelpText &&
    r.0.onFocus == focusOn && r.0.onBlur == focusOff &&
    r.0.labelId == ToStr(id) + "-label" &&
    r.0.feedbackId == ToStr(id) + "-feedback" &&
    r.0.helpTextId == ToStr(id) + "-helptext" &&
    KeySet(r.1) == KeySet(props) - ProviderKeys &&
    forall k :: Get(r.1, k) == if k in ProviderKeys then None else Get(props, k)
  }

  /** The context and htmlProps for a given field id. */
  function ContextFor(props: Dict<Value>, id: Value, hasHelpText: bool, isFocused: bool,
                      focusOn: Handler, focusOff: Handler): (r: (FieldContext, Dict<Value>))
    ensures ProvidedFrom(props, id, hasHelpText, isFocused, focusOn, focusOff, r)
  {
    OmitGetAll(props, ProviderKeys);
    (FieldContext(
      Truthy(Lookup(props, "isRequired")), Truthy(Lookup(props, "isInvalid")), Truthy(Lookup(props, "isLoading")),
      Truthy(Lookup(props, "isReadOnly")), Truthy(Lookup(props, "isDisabled")), isFocused, hasHelpText, id,
      ToStr(id) + "-label", ToStr(id) + "-feedback", ToStr(id) + "-helptext", focusOn, focusOff),
     Omit(props, ProviderKeys))
  }

  /** useFormControlProvider(props) as written: `uuid` is what useId gave,
      `hasHelpText` and `isFocused` the current state, `focusOn`/`focusOff`
      the handlers that set it. The field id is the as-written one, so a
      given id prop never reaches the context. */
  function UseFormControlProvider(props: Dict<Value>, uuid: Value, hasHelpText: bool, isFocused: bool,
                                  focusOn: Handler, focusOff: Handler): (r: (FieldContext, Dict<Value>))
    ensures ProvidedFrom(props, FieldIdAsWritten(Lookup(props, "id"), uuid), hasHelpText, isFocused, focusOn, focusOff, r)
    ensures Truthy(Lookup(props, "id")) || Truthy(uuid) ==> r.0.id == Str("field-" + ToStr(uuid))
    ensures !Truthy(Lookup(props, "id")) && !Truthy(uuid) ==> r.0.id == Undefined
  {
    ContextFor(props, FieldIdAsWritten(Lookup(props, "id"), uuid), hasHelpText, isFocused, focusOn, focusOff)
  }

  /** The provider as intended: a given id prop is the field id. */
  function UseFormControlProviderIntended(props: Dict<Value>, uuid: Value, hasHelpText: bool, isFocused: bool,
                                          focusOn: Handler, focusOff: Handler): (r: (FieldContext, Dict<Value>))
    ensures ProvidedFrom(props, FieldId(Lookup(props, "id"), uuid), hasHelpText, isFocused, focusOn, focusOff, r)
    ensures Truthy(Lookup(props, "id")) ==> r.0.id == Lookup(props, "id") && r.0.labelId == ToStr(Lookup(props, "id")) + "-label"
  {
    ContextFor(props, FieldId(Lookup(props, "id"), uuid), hasHelpText, isFocused, focusOn, focusOff)
  }

  /** With id 'email' and generated id 7 the context is field-7 as written
      and email as intended. */
  lemma ProviderIgnoresIdProp(uuid: Value, hasHelpText: bool, isFocused: bool, focusOn: Handler, focusOff: Handler)
    requires uuid == Num(7)
    ensures UseFormControlProvider([("id", Str("email"))], uuid, hasHelpText, isFocused, focusOn, focusOff).0.labelId == "field-7-label"
    ensures UseFormControlProviderIntended([("id", Str("email"))], uuid, hasHelpText, isFocused, focusOn, focusOff).0.labelId == "email-label"
  {
    FieldIdIgnoresIdProp();
    assert Lookup([("id", Str("email"))], "id") == Str("email");
  }

  /** The three derived ids differ from each other and from the id. */
  lemma DerivedIdsDistinct(props: Dict<Value>, uuid: Value, hasHelpText: bool, isFocused: bool,
                           focusOn: Handler, focusOff: Handler)
    ensures var c := UseFormControlProvider(props, uuid, hasHelpText, isFocused, focusOn, focusOff).0;
      c.labelId != c.feedbackId && c.feedbackId != c.helpTextId && c.labelId != c.helpTextId
  {
    var c := UseFormControlProvider(props, uuid, hasHelpText, isFocused, focusOn, focusOff).0;
    var n := |ToStr(c.id)|;
    assert c.labelId[n + 1] == 'l' && c.feedbackId[n + 1] == 'f' && c.helpTextId[n + 1] == 'h';
  }

  // ---------------------------------------------------------------------
  // useFormControl

  /** The ids that describe the field, as the source builds them. */
  method DescribedBy(field: Option<FieldContext>) returns (describedBy: seq<string>)
    ensures describedBy == DescribedByIds(field)
  {
    describedBy := [];
    if field.Some? && field.value.isInvalid {
      var fc := field.value;
      if |describedBy| > 0 {
        describedBy := [fc.feedbackId] + describedBy;
      } else {
        describedBy := describedBy + [fc.feedbackId];
      }
    }
    if field.Some? && field.value.hasHelpText {
      describedBy := describedBy + [field.value.helpTextId];
    }
  }

  function DescribedByIds(field: Option<FieldContext>): (r: seq<string>)
    ensures |r| <= 2
    ensures field.None? ==> r == []
    ensures field.Some? ==> (field.value.feedbackId in r <==> field.value.isInvalid || (field.value.hasHelpText && field.value.helpTextId == field.value.feedbackId))
    ensures field.Some? ==> |r| == (if field.value.isInvalid then 1 else 0) + (if field.value.hasHelpText then 1 else 0)
    ensures field.Some? && field.value.isInvalid ==> r[0] == field.value.feedbackId
    ensures field.Some? && field.value.hasHelpText ==> r[|r| - 1] == field.value.helpTextId
  {
    if field.None? then []
    else
      (if field.value.isInvalid then [field.value.feedbackId] else []) +
      (if field.value.hasHelpText then [field.value.helpTextId] else [])
  }

  /** `describedBy.join(' ') || undefined` */
  function AriaDescribedBy(ids: seq<string>): (r: Value)
    ensures ids == [] ==> r == Undefined
  {
    Or(Str(Join(ids, " ")), Undefined)
  }

  /** Ids that are all non-empty are described by their join. */
  lemma AriaDescribedByJoin(ids: seq<string>)
    requires ids != [] && ids[0] != ""
    ensures AriaDescribedBy(ids) == Str(Join(ids, " "))
  {
    if |ids| > 1 {
      assert Join(ids, " ")[0] == ids[0][0];
    }
  }

  /** ariaAttr(condition) */
  function AriaAttr(condition: Value): (r: Value)
    ensures Truthy(condition) ==> r == Bool(true)
    ensures !Truthy(condition) ==> r == Undefined
  {
    if Truthy(condition) then Bool(true) else Undefined
  }

  const ControlOmitted: set<string> := {"isInvalid", "isDisabled", "isReadOnly", "isRequired", "inputSize"}

  /** The props useFormControl returns: the remaining props, then the
      computed keys, which override a prop of the same name. The focus and
      blur handlers are the lists callAllHandlers runs. */
  datatype ControlProps = ControlProps(
    rest: Dict<Value>, id: Value, disabled: Value, readOnly: Value, required: Value,
    ariaInvalid: Value, ariaRequired: Value, ariaReadonly: Value, ariaDescribedBy: Value,
    onFocus: seq<Option<Handler>>, onBlur: seq<Option<Handler>>)

  function FieldFlag(field: Option<FieldContext>, flag: FieldContext -> bool): Value {
    if field.Some? then Bool(flag(field.value)) else Undefined
  }

  /** A prop that holds handler h: the function reference h names, or a
      falsy value (which `fn && fn(event)` skips) when there is none. */
  predicate HandlerProp(v: Value, h: Option<Handler>) {
    if h.Some? then v == Func(h.value.id) else !Truthy(v)
  }

  /** The handlers of props.onFocus and props.onBlur. */
  predicate PropHandlers(props: Dict<Value>, onFocus: Option<Handler>, onBlur: Option<Handler>) {
    HandlerProp(Lookup(props, "onFocus"), onFocus) && HandlerProp(Lookup(props, "onBlur"), onBlur)
  }

  /** useFormControl(props) under the field context (None outside any
      FormControl); `onFocus`/`onBlur` are the handlers props.onFocus and
      props.onBlur hold, with whether each prevents the default. */
  function UseFormControl(props: Dict<Value>, onFocus: Option<Handler>, onBlur: Option<Handler>,
                          field: Option<FieldContext>): ControlProps
    requires PropHandlers(props, onFocus, onBlur)
  {
    var ids := DescribedByIds(field);
    ControlProps(
      Omit(props, ControlOmitted),
      Coalesce(Lookup(props, "id"), if field.Some? then field.value.id else Undefined),
      Or(Or(Lookup(props, "disabled"), Lookup(props, "isDisabled")), FieldFlag(field, (f: FieldContext) => f.isDisabled)),
      Or(Or(Lookup(props, "readOnly"), Lookup(props, "isReadOnly")), FieldFlag(field, (f: FieldContext) => f.isReadOnly)),
      Or(Or(Lookup(props, "required"), Lookup(props, "isRequired")), FieldFlag(field, (f: FieldContext) => f.isRequired)),
      AriaAttr(Or(Lookup(props, "isInvalid"), FieldFlag(field, (f: FieldContext) => f.isInvalid))),
      AriaAttr(Or(Lookup(props, "isRequired"), FieldFlag(field, (f: FieldContext) => f.isRequired))),
      AriaAttr(Or(Lookup(props, "isReadOnly"), FieldFlag(field, (f: FieldContext) => f.isReadOnly))),
      AriaDescribedBy(ids),
      [if field.Some? then Some(field.value.onFocus) else None, onFocus],
      [if field.Some? then Some(field.value.onBlur) else None, onBlur])
  }

  /** Each state is on when the native prop, the is-prop or the field says so. */
  lemma ControlFlags(props: Dict<Value>, onFocus: Option<Handler>, onBlur: Option<Handler>, field: Option<FieldContext>)
    requires PropHandlers(props, onFocus, onBlur)
    ensures Truthy(UseFormControl(props, onFocus, onBlur, field).disabled) <==>
      Truthy(Lookup(props, "disabled")) || Truthy(Lookup(props, "isDisabled")) || (field.Some? && field.value.isDisabled)
    ensures Truthy(UseFormControl(props, onFocus, onBlur, field).readOnly) <==>
      Truthy(Lookup(props, "readOnly")) || Truthy(Lookup(props, "isReadOnly")) || (field.Some? && field.value.isReadOnly)
    ensures Truthy(UseFormControl(props, onFocus, onBlur, field).required) <==>
      Truthy(Lookup(props, "required")) || Truthy(Lookup(props, "isRequired")) || (field.Some? && field.value.isRequired)
    ensures UseFormControl(props, onFocus, onBlur, field).ariaInvalid ==
      (if Truthy(Lookup(props, "isInvalid")) || (field.Some? && field.value.isInvalid) then Bool(true) else Undefined)
  {
  }

  /** The id is the prop's own unless it is null or undefined, then the field's. */
  lemma ControlId(props: Dict<Value>, onFocus: Option<Handler>, onBlur: Option<Handler>, field: Option<FieldContext>)
    requires PropHandlers(props, onFocus, onBlur)
    ensures !Nullish(Lookup(props, "id")) ==> UseFormControl(props, onFocus, onBlur, field).id == Lookup(props, "id")
    ensures Nullish(Lookup(props, "id")) && field.Some? ==> UseFormControl(props, onFocus, onBlur, field).id == field.value.id
  {
  }

  /** The five state keys are dropped; every other prop is passed on. */
  lemma ControlRest(props: Dict<Value>, onFocus: Option<Handler>, onBlur: Option<Handler>, field: Option<FieldContext>, k: string)
    requires PropHandlers(props, onFocus, onBlur)
    ensures Get(UseFormControl(props, onFocus, onBlur, field).rest, k) == if k in ControlOmitted then None else Get(props, k)
  {
    GetOmit(props, ControlOmitted, k);
  }

  /** Describing an invalid field with help text gives 'feedback helptext'. */
  lemma DescribedInvalidWithHelp(field: FieldContext, onFocus: Option<Handler>, onBlur: Option<Handler>, props: Dict<Value>)
    requires PropHandlers(props, onFocus, onBlur)
    requires field.isInvalid && field.hasHelpText && field.feedbackId != ""
    ensures UseFormControl(props, onFocus, onBlur, Some(field)).ariaDescribedBy == Str(field.feedbackId + " " + field.helpTextId)
  {
    var ids := DescribedByIds(Some(field));
    assert ids == [field.feedbackId, field.helpTextId];
    AriaDescribedByJoin(ids);
  }

  /** Focus runs the field's handler, then the prop's, unless the field's
      handler (which only records the focus) prevented the default. */
  lemma FocusHandlerOrder(props: Dict<Value>, onFocus: Handler, onBlur: Option<Handler>, field: FieldContext, event: Event)
    requires PropHandlers(props, Some(onFocus), onBlur)
    requires !field.onFocus.preventsDefault && !Prevented(event)
    ensures Calls(UseFormControl(props, Some(onFocus), onBlur, Some(field)).onFocus, event).0 == [field.onFocus.id, onFocus.id]
  {
    var fns := [Some(field.onFocus), Some(onFocus)];
    var after := AfterHandler(event, field.onFocus);
    assert UseFormControl(props, Some(onFocus), onBlur, Some(field)).onFocus == fns;
    assert fns[1..] == [Some(onFocus)];
    assert fns[1..][1..] == [];
    assert !Prevented(after);
    assert Calls(fns[1..], after).0 == [onFocus.id];
  }
}
