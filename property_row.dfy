/** One row of the symbol property list: a form control that holds a property,
    mirrors its id, name and type into three form fields, validates itself for
    the parent form, and edits the whole property through a popover.

    The row's state is given twice: as the value `RowState`, with one transition
    function per operation, and as the class `PropertyRowComponent`, whose
    methods update its fields in place and are proved to follow those functions. */
module PropertyRow {
  import opened SymbolProperty

  /** The errors the id validator puts on the id control. */
  datatype IdError = Required | NotUnique

  /** What `validate` reports to the parent form: no error, a clashing id, or
      an incomplete property. */
  datatype Validation = Passed | PropertyIdNotUnique | PropertyInvalid

  /** The id control's validator. `unique` is the parent list's check
      `propertyIdUnique(id, index)`, which this row does not own. */
  function IdValidator(id: Option<string>, unique: (string, int) -> bool, index: int): (r: Option<IdError>)
    ensures r == Some(Required) <==> !Truthy(id)
    ensures r == Some(NotUnique) <==> Truthy(id) && !unique(id.value, index)
    ensures r == None <==> Truthy(id) && unique(id.value, index)
  {
    if !Truthy(id) then Some(Required)
    else if !unique(id.value, index) then Some(NotUnique)
    else None
  }

  /** What an edit popover is opened with: a copy of the held value, the add
      flag, the boolean property ids hint, and whether the caller passed a
      cancel callback (otherwise the callback is the no-op default). */
  datatype Session = Session(property: Option<Property>, isAdd: bool,
                             booleanPropertyIds: seq<string>, notifiesCancel: bool)

  /** The row's edit popover: none, shown, or hidden and not yet destroyed. */
  datatype Popover = Closed | Shown(session: Session) | Hiding(session: Session)

  /** The whole state of a row, as a value: the functions below give one
      transition per operation, and the class at the end of this module
      implements the same operations in place. `emitted` lists, in order, every value passed
      to the registered change callback; `cancelCalls` counts the calls of
      caller-supplied cancel callbacks. */
  datatype RowState = RowState(
    modelValue: Option<Property>,
    form: FormValue,
    disabled: bool,
    idError: Option<IdError>,
    idTouched: bool,
    popover: Popover,
    index: int,
    booleanPropertyIds: seq<string>,
    emitted: seq<Property>,
    cancelCalls: nat)

  /** The form fields show the held value's id, name and type. */
  predicate Mirrored(s: RowState) {
    s.form == Mirror(s.modelValue)
  }

  /** The row after `ngOnInit`: nothing held, empty fields, and the id control
      already flagged `required` by its validator. */
  function Initial(index: int, booleanPropertyIds: seq<string>): (r: RowState)
    ensures Mirrored(r) && r.modelValue.None? && !r.disabled && r.popover.Closed?
    ensures r.idError == Some(Required)
    ensures r.emitted == [] && r.cancelCalls == 0
  {
    RowState(None, FormValue(None, None, None), false, Some(Required), false,
             Closed, index, booleanPropertyIds, [], 0)
  }

  /** The id control's errors after a write to it: the validator runs only
      while the form is enabled. */
  function IdErrorAfterWrite(s: RowState, unique: (string, int) -> bool): Option<IdError> {
    if s.disabled then s.idError else IdValidator(s.form.id, unique, s.index)
  }

  /** `writeValue`: hold `v` as given, mirror it without an event. */
  function AfterWriteValue(s: RowState, v: Option<Property>, unique: (string, int) -> bool): (r: RowState)
    ensures r.modelValue == v && Mirrored(r)
    ensures r.emitted == s.emitted && r.cancelCalls == s.cancelCalls
    ensures r.disabled == s.disabled && r.popover == s.popover
    ensures !s.disabled ==> r.idError == IdValidator(Mirror(v).id, unique, s.index)
  {
    var t := s.(modelValue := v, form := Mirror(v));
    t.(idError := IdErrorAfterWrite(t, unique))
  }

  /** Disabling clears the controls' errors; enabling re-runs their validators. */
  function AfterSetDisabledState(s: RowState, isDisabled: bool, unique: (string, int) -> bool): (r: RowState)
    ensures r.disabled == isDisabled
    ensures r.modelValue == s.modelValue && r.form == s.form && r.emitted == s.emitted
    ensures isDisabled ==> r.idError == None
    ensures !isDisabled ==> r.idError == IdValidator(s.form.id, unique, s.index)
    ensures r == s.(disabled := isDisabled, idError := r.idError)
  {
    if isDisabled then s.(disabled := true, idError := None)
    else s.(disabled := false, idError := IdValidator(s.form.id, unique, s.index))
  }

  /** `onTypeChanged`. */
  function TypeChanged(s: RowState, t: Option<PropertyType>): (r: RowState)
    ensures r.modelValue.Some? && r.modelValue.value.valueType == t
    ensures r.modelValue.value.defaultValue == DefaultFor(t) && DefaultMatchesType(r.modelValue.value)
    ensures r.form == s.form && r.emitted == s.emitted
  {
    s.(modelValue := Some(WithType(s.modelValue, t)))
  }

  /** `updateModel`: overlay the form on the held value and emit the result. */
  function ModelUpdated(s: RowState): (r: RowState)
    ensures r.modelValue.Some? && Mirrored(r) && r.form == s.form
    ensures r.emitted == s.emitted + [r.modelValue.value]
  {
    var p := Overlay(s.modelValue, s.form);
    s.(modelValue := Some(p), emitted := s.emitted + [p])
  }

  /** Typing into the id field. A disabled field takes no input. */
  function AfterIdEdit(s: RowState, id: Option<string>, unique: (string, int) -> bool): (r: RowState)
    ensures s.disabled ==> r == s
    ensures !s.disabled ==> r.form == s.form.(id := id) && Mirrored(r)
                            && r.idError == IdValidator(id, unique, s.index)
                            && |r.emitted| == |s.emitted| + 1
  {
    if s.disabled then s
    else ModelUpdated(s.(form := s.form.(id := id), idError := IdValidator(id, unique, s.index)))
  }

  /** Typing into the name field. */
  function AfterNameEdit(s: RowState, name: Option<string>): (r: RowState)
    ensures s.disabled ==> r == s
    ensures !s.disabled ==> r.form == s.form.(name := name) && Mirrored(r)
                            && r.idError == s.idError && |r.emitted| == |s.emitted| + 1
  {
    if s.disabled then s
    else ModelUpdated(s.(form := s.form.(name := name)))
  }

  /** Selecting a type: the type control's own subscription (`onTypeChanged`)
      runs before the group's (`updateModel`). */
  function AfterTypeEdit(s: RowState, t: Option<PropertyType>): (r: RowState)
    ensures s.disabled ==> r == s
    ensures !s.disabled ==> r.form == s.form.(valueType := t) && Mirrored(r)
                            && r.modelValue.Some? && r.modelValue.value.defaultValue == DefaultFor(t)
                            && DefaultMatchesType(r.modelValue.value)
                            && |r.emitted| == |s.emitted| + 1
  {
    if s.disabled then s
    else ModelUpdated(TypeChanged(s.(form := s.form.(valueType := t)), t))
  }

  /** The id control's errors once `validate` has re-run the validator, which
      it does only when the control already says `propertyIdNotUnique`. */
  function RecheckedIdError(s: RowState, unique: (string, int) -> bool): (r: Option<IdError>)
    ensures r == Some(NotUnique) <==>
              s.idError == Some(NotUnique) && Truthy(s.form.id) && !unique(s.form.id.value, s.index)
    ensures s.idError != Some(NotUnique) ==> r == s.idError
    ensures s.idError == Some(NotUnique) ==> r == IdValidator(s.form.id, unique, s.index)
  {
    if s.idError == Some(NotUnique) then IdValidator(s.form.id, unique, s.index) else s.idError
  }

  /** The value `validate` returns. */
  function ValidateResult(s: RowState, unique: (string, int) -> bool): (r: Validation)
    ensures r == PropertyIdNotUnique <==> RecheckedIdError(s, unique) == Some(NotUnique)
    ensures r == Passed ==> PropertyValid(Overlay(s.modelValue, s.form)) && Truthy(s.form.id)
    ensures r == PropertyInvalid ==> !PropertyValid(Overlay(s.modelValue, s.form))
  {
    if RecheckedIdError(s, unique) == Some(NotUnique) then PropertyIdNotUnique
    else if !PropertyValid(Overlay(s.modelValue, s.form)) then PropertyInvalid
    else Passed
  }

  /** The state `validate` leaves behind. */
  function AfterValidate(s: RowState, unique: (string, int) -> bool): (r: RowState)
    ensures r.idTouched <==> s.idTouched || ValidateResult(s, unique) == PropertyIdNotUnique
    ensures r.modelValue == s.modelValue && r.form == s.form && r.emitted == s.emitted
    ensures s.idError != Some(NotUnique) ==> r.idError == s.idError
    ensures r == s.(idError := RecheckedIdError(s, unique), idTouched := r.idTouched)
  {
    var e := RecheckedIdError(s, unique);
    s.(idError := e, idTouched := s.idTouched || e == Some(NotUnique))
  }

  /** The edit button: hides a popover that is there, otherwise opens one
      seeded with a copy of the held value. */
  function AfterEditProperty(s: RowState, isAdd: bool, notifiesCancel: bool): (r: RowState)
    ensures !s.popover.Closed? ==> r == s.(popover := Hiding(s.popover.session))
    ensures s.popover.Closed? ==> r.popover.Shown? && r.popover.session.property == s.modelValue
                                  && r.popover.session.isAdd == isAdd
                                  && r.popover.session.notifiesCancel == notifiesCancel
                                  && r == s.(popover := r.popover)
  {
    if !s.popover.Closed? then s.(popover := Hiding(s.popover.session))
    else s.(popover := Shown(Session(s.modelValue, isAdd, s.booleanPropertyIds, notifiesCancel)))
  }

  /** The popover's apply: hide it, patch the fields without an event, hold
      the applied property and emit it. The handler stays subscribed until the
      popover is destroyed, so a popover already hiding applies the same way. */
  function AfterApply(s: RowState, p: Property, unique: (string, int) -> bool): (r: RowState)
    ensures s.popover.Closed? ==> r == s
    ensures !s.popover.Closed? ==> r.modelValue == Some(p) && Mirrored(r) && r.emitted == s.emitted + [p]
                                   && r.popover == Hiding(s.popover.session)
                                   && r.cancelCalls == s.cancelCalls
    ensures !s.popover.Closed? && !s.disabled ==> r.idError == IdValidator(p.id, unique, s.index)
    ensures !s.popover.Closed? && s.disabled ==> r.idError == s.idError
    ensures !s.popover.Closed? ==> r == s.(popover := Hiding(s.popover.session), form := FormOf(p),
                                           modelValue := Some(p), emitted := s.emitted + [p],
                                           idError := r.idError)
  {
    if s.popover.Closed? then s
    else
      var t := s.(popover := Hiding(s.popover.session), form := FormOf(p));
      t.(idError := IdErrorAfterWrite(t, unique), modelValue := Some(p), emitted := s.emitted + [p])
  }

  /** Whether the popover's destroy handler calls the cancel callback it was
      given. An absent held value makes `propertyValid` throw before that. */
  predicate CancelsOnDestroy(s: RowState)
    requires !s.popover.Closed?
  {
    s.popover.session.notifiesCancel && s.modelValue.Some? && !PropertyValid(s.modelValue.value)
  }

  /** The popover's destroy handler. */
  function AfterDestroy(s: RowState): (r: RowState)
    ensures r.popover.Closed?
    ensures r.modelValue == s.modelValue && r.form == s.form && r.emitted == s.emitted
    ensures !s.popover.Closed? ==> r.cancelCalls == s.cancelCalls + (if CancelsOnDestroy(s) then 1 else 0)
    ensures r == s.(popover := Closed, cancelCalls := r.cancelCalls)
  {
    if s.popover.Closed? then s
    else s.(popover := Closed,
            cancelCalls := if CancelsOnDestroy(s) then s.cancelCalls + 1 else s.cancelCalls)
  }

  /** The events a row receives, from its parent form, its user and its popover. */
  datatype Event =
    | ValueWritten(written: Option<Property>)
    | DisabledStateSet(isDisabled: bool)
    | IdTyped(typedId: Option<string>)
    | NameTyped(typedName: Option<string>)
    | TypeSelected(selected: Option<PropertyType>)
    | ValidateCalled
    | EditClicked(isAdd: bool, notifiesCancel: bool)
    | SettingsApplied(applied: Property)
    | PopoverDestroyed

  /** One event. A row never changes its own index or hint list, its change
      log only grows, and at most one cancel call happens per event. */
  function Step(s: RowState, e: Event, unique: (string, int) -> bool): (r: RowState)
    ensures r.index == s.index && r.booleanPropertyIds == s.booleanPropertyIds
    ensures s.emitted <= r.emitted
    ensures s.cancelCalls <= r.cancelCalls <= s.cancelCalls + 1
  {
    match e
    case ValueWritten(v) => AfterWriteValue(s, v, unique)
    case DisabledStateSet(b) => AfterSetDisabledState(s, b, unique)
    case IdTyped(id) => AfterIdEdit(s, id, unique)
    case NameTyped(name) => AfterNameEdit(s, name)
    case TypeSelected(t) => AfterTypeEdit(s, t)
    case ValidateCalled => AfterValidate(s, unique)
    case EditClicked(isAdd, notifiesCancel) => AfterEditProperty(s, isAdd, notifiesCancel)
    case SettingsApplied(p) => AfterApply(s, p, unique)
    case PopoverDestroyed => AfterDestroy(s)
  }

  /** The events run in order; `checks[i]` is the parent's uniqueness check as
      it stands when event `i` arrives, since siblings come and go. */
  function Run(s: RowState, es: seq<Event>, checks: seq<(string, int) -> bool>): (r: RowState)
    requires |checks| == |es|
    ensures r.index == s.index && r.booleanPropertyIds == s.booleanPropertyIds
    ensures s.emitted <= r.emitted
    ensures s.cancelCalls <= r.cancelCalls <= s.cancelCalls + |es|
    decreases |es|
  {
    if es == [] then s else Run(Step(s, es[0], checks[0]), es[1..], checks[1..])
  }

  /** Whether `e` makes the row call its change callback. */
  predicate Emits(s: RowState, e: Event) {
    match e
    case IdTyped(_) => !s.disabled
    case NameTyped(_) => !s.disabled
    case TypeSelected(_) => !s.disabled
    case SettingsApplied(_) => !s.popover.Closed?
    case _ => false
  }

  /** The component. The three form controls are the fields `formId`,
      `formName` and `formType`; the change callback and the cancel callback
      are the ghost log `emitted` and the ghost counter `cancelCalls`. Each
      method updates the fields in place and is proved to move `State()` as
      the transition function of the same operation above does; the lemmas
      across calls are stated once, about those functions. */
  class PropertyRowComponent {
    var modelValue: Option<Property>
    var formId: Option<string>
    var formName: Option<string>
    var formType: Option<PropertyType>
    var disabled: bool
    var idError: Option<IdError>
    var idTouched: bool
    var popover: Popover
    var index: int
    var booleanPropertyIds: seq<string>
    ghost var emitted: seq<Property>
    ghost var cancelCalls: nat

    ghost function State(): RowState
      reads this
    {
      RowState(modelValue, FormValue(formId, formName, formType), disabled, idError, idTouched,
               popover, index, booleanPropertyIds, emitted, cancelCalls)
    }

    /** The form fields mirror the held value. */
    ghost predicate Valid()
      reads this
    {
      Mirrored(State())
    }

    /** Construction together with `ngOnInit`. */
    constructor (index: int, booleanPropertyIds: seq<string>)
      ensures Valid()
      ensures State() == Initial(index, booleanPropertyIds)
    {
      modelValue := None;
      formId, formName, formType := None, None, None;
      disabled := false;
      idError := Some(Required);  // the id validator on the initial null value
      idTouched := false;
      popover := Closed;
      this.index := index;
      this.booleanPropertyIds := booleanPropertyIds;
      emitted := [];
      cancelCalls := 0;
    }

    method SetDisabledState(isDisabled: bool, unique: (string, int) -> bool)
      requires Valid()
      modifies this
      ensures Valid()
      ensures State() == AfterSetDisabledState(old(State()), isDisabled, unique)
      ensures disabled == isDisabled
      ensures modelValue == old(modelValue) && emitted == old(emitted)
      ensures isDisabled ==> idError == None
    {
      disabled := isDisabled;
      if isDisabled {
        idError := None;
      } else {
        idError := IdValidator(formId, unique, index);
      }
    }

    /** Holds `value` as it is and mirrors it into the fields, without any
        event: nothing is emitted and the default is not reset. */
    method WriteValue(value: Option<Property>, unique: (string, int) -> bool)
      requires Valid()
      modifies this
      ensures Valid()
      ensures State() == AfterWriteValue(old(State()), value, unique)
      ensures modelValue == value
      ensures value.Some? ==> formId == value.value.id && formName == value.value.name
                              && formType == value.value.valueType
      ensures value.None? ==> formId == None && formName == None && formType == None
      ensures emitted == old(emitted) && cancelCalls == old(cancelCalls)
    {
      modelValue := value;
      if value.Some? {
        formId, formName, formType := value.value.id, value.value.name, value.value.valueType;
      } else {
        formId, formName, formType := None, None, None;
      }
      if !disabled {
        idError := IdValidator(formId, unique, index);
      }
    }

    method OnTypeChanged(newType: Option<PropertyType>)
      modifies this`modelValue
      ensures modelValue == Some(WithType(old(modelValue), newType))
    {
      var base := if modelValue.Some? then modelValue.value
                  else Property(None, None, None, None, map[]);
      modelValue := Some(base.(valueType := newType, defaultValue := DefaultFor(newType)));
    }

    method UpdateModel()
      modifies this`modelValue, this`emitted
      ensures modelValue == Some(Overlay(old(modelValue), FormValue(formId, formName, formType)))
      ensures emitted == old(emitted) + [modelValue.value]
    {
      var value := FormValue(formId, formName, formType);
      modelValue := Some(Overlay(modelValue, value));
      emitted := emitted + [modelValue.value];
    }

    /** The user types `id` into the id field. */
    method EditId(id: Option<string>, unique: (string, int) -> bool)
      requires Valid()
      modifies this
      ensures Valid()
      ensures State() == AfterIdEdit(old(State()), id, unique)
      ensures !old(disabled) ==>
                (modelValue == Some(Overlay(old(modelValue), FormValue(id, formName, formType)))
                 && emitted == old(emitted) + [modelValue.value])
      ensures old(disabled) ==> modelValue == old(modelValue) && emitted == old(emitted)
    {
      if !disabled {
        formId := id;
        idError := IdValidator(id, unique, index);
        UpdateModel();
      }
    }

    /** The user types `name` into the name field. */
    method EditName(name: Option<string>)
      requires Valid()
      modifies this
      ensures Valid()
      ensures State() == AfterNameEdit(old(State()), name)
      ensures !old(disabled) ==>
                (modelValue == Some(Overlay(old(modelValue), FormValue(formId, name, formType)))
                 && emitted == old(emitted) + [modelValue.value])
      ensures old(disabled) ==> modelValue == old(modelValue) && emitted == old(emitted)
    {
      if !disabled {
        formName := name;
        UpdateModel();
      }
    }

    /** The user selects `newType`: the default is replaced by the new type's
        default, whatever it was, and every other attribute is kept. */
    method EditType(newType: Option<PropertyType>)
      requires Valid()
      modifies this
      ensures Valid()
      ensures State() == AfterTypeEdit(old(State()), newType)
      ensures !old(disabled) ==>
                (modelValue.Some?
                 && modelValue.value.valueType == newType
                 && modelValue.value.defaultValue == DefaultFor(newType)
                 && modelValue.value.id == old(formId) && modelValue.value.name == old(formName)
                 && (old(modelValue).Some? ==> modelValue.value.extras == old(modelValue).value.extras)
                 && emitted == old(emitted) + [modelValue.value])
      ensures old(disabled) ==> modelValue == old(modelValue) && emitted == old(emitted)
    {
      if !disabled {
        formType := newType;
        OnTypeChanged(newType);
        UpdateModel();
      }
    }

    method Validate(unique: (string, int) -> bool) returns (r: Validation)
      requires Valid()
      modifies this`idError, this`idTouched
      ensures Valid()
      ensures r == ValidateResult(old(State()), unique)
      ensures State() == AfterValidate(old(State()), unique)
    {
      if idError == Some(NotUnique) {
        idError := IdValidator(formId, unique, index);
      }
      if idError == Some(NotUnique) {
        idTouched := true;
        return PropertyIdNotUnique;
      }
      var property := Overlay(modelValue, FormValue(formId, formName, formType));
      if !PropertyValid(property) {
        return PropertyInvalid;
      }
      return Passed;
    }

    /** The edit button. A popover that is there is only hidden. */
    method EditProperty(isAdd: bool, notifiesCancel: bool)
      requires Valid()
      modifies this`popover
      ensures Valid()
      ensures State() == AfterEditProperty(old(State()), isAdd, notifiesCancel)
      ensures !old(popover).Closed? ==> popover == Hiding(old(popover).session)
      ensures old(popover).Closed? ==> popover == Shown(Session(modelValue, isAdd, booleanPropertyIds, notifiesCancel))
    {
      if !popover.Closed? {
        popover := Hiding(popover.session);
      } else {
        popover := Shown(Session(modelValue, isAdd, booleanPropertyIds, notifiesCancel));
      }
    }

    /** `onAdd`: open the popover as an add, with the caller's cancel callback. */
    method OnAdd()
      requires Valid()
      modifies this`popover
      ensures Valid()
      ensures State() == AfterEditProperty(old(State()), true, true)
    {
      EditProperty(true, true);
    }

    /** The popover, shown or already hiding, applies `property`: the row holds
        exactly it, the fields mirror it, and it is emitted once. */
    method ApplySettings(property: Property, unique: (string, int) -> bool)
      requires Valid()
      requires !popover.Closed?
      modifies this
      ensures Valid()
      ensures State() == AfterApply(old(State()), property, unique)
      ensures modelValue == Some(property)
      ensures formId == property.id && formName == property.name && formType == property.valueType
      ensures emitted == old(emitted) + [property]
      ensures popover == Hiding(old(popover).session)
    {
      popover := Hiding(popover.session);
      formId, formName, formType := property.id, property.name, property.valueType;
      if !disabled {
        idError := IdValidator(formId, unique, index);
      }
      modelValue := Some(property);
      emitted := emitted + [modelValue.value];
    }

    /** The popover is destroyed. The cancel callback runs iff the held value
        is not valid; `typeError` says the handler threw on an absent value. */
    method Destroy() returns (typeError: bool)
      requires Valid()
      requires !popover.Closed?
      modifies this`popover, this`cancelCalls
      ensures Valid()
      ensures State() == AfterDestroy(old(State()))
      ensures typeError <==> modelValue.None?
      ensures cancelCalls == old(cancelCalls) + (if CancelsOnDestroy(old(State())) then 1 else 0)
      ensures popover == Closed
    {
      typeError := modelValue.None?;
      if !typeError && !PropertyValid(modelValue.value) && popover.session.notifiesCancel {
        cancelCalls := cancelCalls + 1;
      }
      popover := Closed;
    }
  }
}
