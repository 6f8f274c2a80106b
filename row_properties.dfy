/** What the property row promises across calls: the fields keep mirroring the
    held value, each edit or apply emits exactly once and nothing else emits,
    defaults keep the shape of their type, how `validate` uses (and does not
    re-use) the uniqueness check, and the outcomes of the edit popover. */
module PropertyRowProperties {
  import opened SymbolProperty
  import opened PropertyRow

  // ---------------------------------------------------------------------------
  // Short runs, one step at a time

  lemma RunTwo(s: RowState, e1: Event, e2: Event, u1: (string, int) -> bool, u2: (string, int) -> bool)
    ensures Run(s, [e1, e2], [u1, u2]) == Step(Step(s, e1, u1), e2, u2)
  {
    var es, us := [e1, e2], [u1, u2];
    var s1 := Step(s, e1, u1);
    assert es[1..] == [e2] && us[1..] == [u2];
    assert Run(s, es, us) == Run(s1, [e2], [u2]);
    assert [e2][1..] == [] && [u2][1..] == [];
    assert Run(s1, [e2], [u2]) == Run(Step(s1, e2, u2), [], []);
  }

  lemma RunThree(s: RowState, e1: Event, e2: Event, e3: Event,
                 u1: (string, int) -> bool, u2: (string, int) -> bool, u3: (string, int) -> bool)
    ensures Run(s, [e1, e2, e3], [u1, u2, u3]) == Step(Step(Step(s, e1, u1), e2, u2), e3, u3)
  {
    var es, us := [e1, e2, e3], [u1, u2, u3];
    assert es[1..] == [e2, e3] && us[1..] == [u2, u3];
    RunTwo(Step(s, e1, u1), e2, e3, u2, u3);
  }

  // ---------------------------------------------------------------------------
  // The form fields mirror the held value

  lemma StepKeepsMirrored(s: RowState, e: Event, unique: (string, int) -> bool)
    requires Mirrored(s)
    ensures Mirrored(Step(s, e, unique))
  {}

  lemma {:induction false} RunKeepsMirrored(s: RowState, es: seq<Event>, checks: seq<(string, int) -> bool>)
    requires |checks| == |es| && Mirrored(s)
    ensures Mirrored(Run(s, es, checks))
    decreases |es|
  {
    if es != [] {
      StepKeepsMirrored(s, es[0], checks[0]);
      RunKeepsMirrored(Step(s, es[0], checks[0]), es[1..], checks[1..]);
    }
  }

  /** Every row starts mirrored, so every row reachable by events is. */
  lemma {:induction false} ReachableRowsAreMirrored(index: int, ids: seq<string>, es: seq<Event>,
                                                    checks: seq<(string, int) -> bool>)
    requires |checks| == |es|
    ensures Mirrored(Run(Initial(index, ids), es, checks))
  {
    RunKeepsMirrored(Initial(index, ids), es, checks);
  }

  // ---------------------------------------------------------------------------
  // Emission

  /** An event emits at most once, and what it emits is the new held value. */
  lemma StepEmitsOnce(s: RowState, e: Event, unique: (string, int) -> bool)
    ensures Emits(s, e) ==> Step(s, e, unique).modelValue.Some? &&
                            Step(s, e, unique).emitted == s.emitted + [Step(s, e, unique).modelValue.value]
    ensures !Emits(s, e) ==> Step(s, e, unique).emitted == s.emitted
  {}

  /** The change log grows by at most one value per event. */
  lemma {:induction false} EmittedOnlyGrows(s: RowState, es: seq<Event>, checks: seq<(string, int) -> bool>)
    requires |checks| == |es|
    ensures |Run(s, es, checks).emitted| <= |s.emitted| + |es|
    decreases |es|
  {
    if es != [] {
      StepEmitsOnce(s, es[0], checks[0]);
      EmittedOnlyGrows(Step(s, es[0], checks[0]), es[1..], checks[1..]);
    }
  }

  /** Events that are neither a field edit nor a popover apply. */
  predicate Silent(e: Event) {
    !e.IdTyped? && !e.NameTyped? && !e.TypeSelected? && !e.SettingsApplied?
  }

  /** Writes, enabling and disabling, validation and the popover's open, hide
      and destroy never call the change callback. */
  lemma {:induction false} SilentEventsEmitNothing(s: RowState, es: seq<Event>, checks: seq<(string, int) -> bool>)
    requires |checks| == |es|
    requires forall i | 0 <= i < |es| :: Silent(es[i])
    ensures Run(s, es, checks).emitted == s.emitted
    decreases |es|
  {
    if es != [] {
      assert Silent(es[0]);
      StepEmitsOnce(s, es[0], checks[0]);
      SilentEventsEmitNothing(Step(s, es[0], checks[0]), es[1..], checks[1..]);
    }
  }

  /** `writeValue` followed by `validate` emits nothing and holds the written
      value as it was given. */
  lemma WriteValueThenValidateIsSilent(s: RowState, v: Option<Property>,
                                       u1: (string, int) -> bool, u2: (string, int) -> bool)
    ensures var t := Run(s, [ValueWritten(v), ValidateCalled], [u1, u2]);
            t.emitted == s.emitted && t.modelValue == v && t.form == Mirror(v)
  {
    RunTwo(s, ValueWritten(v), ValidateCalled, u1, u2);
  }

  /** Field edits: the new held value is the old one overlaid by the form, and
      it is emitted once; default and every other attribute are kept. */
  lemma FieldEditOverlays(s: RowState, e: Event, unique: (string, int) -> bool)
    requires Mirrored(s) && !s.disabled
    requires e.IdTyped? || e.NameTyped?
    ensures var t := Step(s, e, unique);
            && t.modelValue == Some(Overlay(s.modelValue, t.form))
            && t.emitted == s.emitted + [t.modelValue.value]
            && (e.IdTyped? ==> t.form == s.form.(id := e.typedId))
            && (e.NameTyped? ==> t.form == s.form.(name := e.typedName))
            && (s.modelValue.Some? ==> t.modelValue.value.defaultValue == s.modelValue.value.defaultValue
                                       && t.modelValue.value.extras == s.modelValue.value.extras
                                       && t.modelValue.value.valueType == s.modelValue.value.valueType)
  {}

  /** A type edit replaces the default by the new type's default, whatever it
      was, keeps id, name and every other attribute, and emits once. */
  lemma TypeEditResetsDefault(s: RowState, t: Option<PropertyType>)
    requires Mirrored(s) && !s.disabled
    ensures var u := AfterTypeEdit(s, t);
            && u.modelValue.Some?
            && u.modelValue.value.valueType == t
            && u.modelValue.value.defaultValue == DefaultFor(t)
            && u.modelValue.value.id == s.form.id && u.modelValue.value.name == s.form.name
            && (s.modelValue.Some? ==> u.modelValue.value.extras == s.modelValue.value.extras
                                       && u.modelValue.value.id == s.modelValue.value.id
                                       && u.modelValue.value.name == s.modelValue.value.name)
            && u.emitted == s.emitted + [u.modelValue.value]
  {}

  /** A disabled row takes no field edits at all. */
  lemma {:induction false} DisabledRowIgnoresEdits(s: RowState, es: seq<Event>, checks: seq<(string, int) -> bool>)
    requires |checks| == |es| && s.disabled
    requires forall i | 0 <= i < |es| :: es[i].IdTyped? || es[i].NameTyped? || es[i].TypeSelected?
    ensures Run(s, es, checks) == s
    decreases |es|
  {
    if es != [] {
      assert Step(s, es[0], checks[0]) == s;
      DisabledRowIgnoresEdits(s, es[1..], checks[1..]);
    }
  }

  // ---------------------------------------------------------------------------
  // Defaults keep the shape of their type

  /** The held value's default fits its type. */
  predicate HeldDefaultMatches(s: RowState) {
    s.modelValue.Some? ==> DefaultMatchesType(s.modelValue.value)
  }

  /** Every emitted value's default fits its type. */
  predicate EmittedDefaultsMatch(s: RowState) {
    forall k | 0 <= k < |s.emitted| :: DefaultMatchesType(s.emitted[k])
  }

  /** The properties an event brings in from outside have defaults that fit. */
  predicate BringsMatchingDefault(e: Event) {
    && (e.ValueWritten? && e.written.Some? ==> DefaultMatchesType(e.written.value))
    && (e.SettingsApplied? ==> DefaultMatchesType(e.applied))
  }

  lemma StepKeepsDefaultsMatching(s: RowState, e: Event, unique: (string, int) -> bool)
    requires Mirrored(s) && HeldDefaultMatches(s) && EmittedDefaultsMatch(s)
    requires BringsMatchingDefault(e)
    ensures HeldDefaultMatches(Step(s, e, unique)) && EmittedDefaultsMatch(Step(s, e, unique))
  {
    var t := Step(s, e, unique);
    StepEmitsOnce(s, e, unique);
    if Emits(s, e) {
      assert t.emitted[|s.emitted|] == t.modelValue.value;
    }
  }

  /** As long as what the owner writes and the popover applies has a default
      of its type, so does everything the row holds and emits. */
  lemma {:induction false} RunKeepsDefaultsMatching(s: RowState, es: seq<Event>, checks: seq<(string, int) -> bool>)
    requires |checks| == |es|
    requires Mirrored(s) && HeldDefaultMatches(s) && EmittedDefaultsMatch(s)
    requires forall i | 0 <= i < |es| :: BringsMatchingDefault(es[i])
    ensures HeldDefaultMatches(Run(s, es, checks)) && EmittedDefaultsMatch(Run(s, es, checks))
    decreases |es|
  {
    if es != [] {
      assert BringsMatchingDefault(es[0]);
      StepKeepsDefaultsMatching(s, es[0], checks[0]);
      StepKeepsMirrored(s, es[0], checks[0]);
      RunKeepsDefaultsMatching(Step(s, es[0], checks[0]), es[1..], checks[1..]);
    }
  }

  // ---------------------------------------------------------------------------
  // Validation

  /** Unless the id control already says `propertyIdNotUnique`, `validate`
      does not consult the uniqueness check: a `unique` verdict recorded
      earlier is never rechecked. */
  lemma ValidateIgnoresCheckUnlessFlagged(s: RowState, unique1: (string, int) -> bool,
                                          unique2: (string, int) -> bool)
    requires s.idError != Some(NotUnique)
    ensures ValidateResult(s, unique1) == ValidateResult(s, unique2)
    ensures AfterValidate(s, unique1) == AfterValidate(s, unique2)
  {}

  /** So a row whose id was unique when last checked passes `validate` even
      when its id now collides. */
  lemma StaleUniquenessPasses(s: RowState, unique: (string, int) -> bool)
    requires Mirrored(s) && s.idError == None
    requires s.modelValue.Some? && PropertyValid(s.modelValue.value)
    ensures ValidateResult(s, unique) == Passed
  {
    OverlayMirror(s.modelValue);
  }

  /** The same, reached by events: the owner writes a complete property, the
      user types an id the parent accepts at that moment, a sibling then takes
      that id, and `validate` still passes without touching the id field. */
  lemma {:induction false} StaleUniquenessReachable(index: int, ids: seq<string>, p: Property, id: string,
                                                    before: (string, int) -> bool, after: (string, int) -> bool)
    requires PropertyValid(p) && id != ""
    requires before(id, index) && !after(id, index)
    ensures var t := Run(Initial(index, ids), [ValueWritten(Some(p)), IdTyped(Some(id))], [before, before]);
            && t.modelValue == Some(p.(id := Some(id)))
            && ValidateResult(t, after) == Passed
            && !AfterValidate(t, after).idTouched
  {
    var s := Initial(index, ids);
    RunTwo(s, ValueWritten(Some(p)), IdTyped(Some(id)), before, before);
    var t := Step(Step(s, ValueWritten(Some(p)), before), IdTyped(Some(id)), before);
    assert t.idError == None;
    StaleUniquenessPasses(t, after);
  }

  /** A flagged id that still collides is reported, and the id is marked
      touched, even when the property is otherwise complete. */
  lemma ValidateReportsCollision(s: RowState, unique: (string, int) -> bool)
    requires s.idError == Some(NotUnique)
    requires Truthy(s.form.id) && !unique(s.form.id.value, s.index)
    ensures ValidateResult(s, unique) == PropertyIdNotUnique
    ensures AfterValidate(s, unique).idTouched
  {}

  /** Right after an id edit, `validate` reports a collision exactly when the
      uniqueness check rejects the new id. */
  lemma ValidateAfterIdEdit(s: RowState, id: Option<string>, unique: (string, int) -> bool)
    requires !s.disabled
    ensures ValidateResult(AfterIdEdit(s, id, unique), unique) == PropertyIdNotUnique
            <==> Truthy(id) && !unique(id.value, s.index)
  {
    var t := AfterIdEdit(s, id, unique);
    assert t.form.id == id && t.index == s.index;
  }

  /** Applying from the popover validates the applied id on an enabled row, so
      `validate` right after the apply reports a collision exactly when the
      uniqueness check rejects that id. */
  lemma ValidateAfterApply(s: RowState, p: Property, unique: (string, int) -> bool)
    requires !s.disabled && !s.popover.Closed?
    ensures ValidateResult(AfterApply(s, p, unique), unique) == PropertyIdNotUnique
            <==> Truthy(p.id) && !unique(p.id.value, s.index)
  {
    var t := AfterApply(s, p, unique);
    assert t.form.id == p.id && t.index == s.index;
  }

  /** While the fields mirror the held value, the overlay `validate` checks is
      the held value itself. */
  lemma ValidateChecksHeldValue(s: RowState, unique: (string, int) -> bool)
    requires Mirrored(s)
    requires RecheckedIdError(s, unique) != Some(NotUnique)
    ensures ValidateResult(s, unique) == Passed <==> s.modelValue.Some? && PropertyValid(s.modelValue.value)
    ensures ValidateResult(s, unique) == PropertyInvalid <==> s.modelValue.None? || !PropertyValid(s.modelValue.value)
  {
    if s.modelValue.Some? {
      OverlayMirror(s.modelValue);
    }
  }

  // ---------------------------------------------------------------------------
  // The edit popover

  /** A second click while the popover is there only hides it. */
  lemma SecondClickOnlyHides(s: RowState, add1: bool, cb1: bool, add2: bool, cb2: bool,
                             u1: (string, int) -> bool, u2: (string, int) -> bool)
    requires s.popover.Closed?
    ensures Run(s, [EditClicked(add1, cb1), EditClicked(add2, cb2)], [u1, u2])
            == s.(popover := Hiding(Session(s.modelValue, add1, s.booleanPropertyIds, cb1)))
  {
    RunTwo(s, EditClicked(add1, cb1), EditClicked(add2, cb2), u1, u2);
  }

  /** Opening and dismissing the popover leaves the held value, the fields and
      the change log as they were; the cancel callback runs iff one was given
      and the held value is present and invalid. */
  lemma DismissKeepsValue(s: RowState, isAdd: bool, notifiesCancel: bool,
                          u1: (string, int) -> bool, u2: (string, int) -> bool)
    requires s.popover.Closed?
    ensures var t := Run(s, [EditClicked(isAdd, notifiesCancel), PopoverDestroyed], [u1, u2]);
            && t.modelValue == s.modelValue && t.form == s.form && t.emitted == s.emitted
            && t.popover.Closed?
            && t.cancelCalls == s.cancelCalls +
                 (if notifiesCancel && s.modelValue.Some? && !PropertyValid(s.modelValue.value) then 1 else 0)
  {
    RunTwo(s, EditClicked(isAdd, notifiesCancel), PopoverDestroyed, u1, u2);
  }

  /** Opening, applying `p` and the popover's destruction: the row holds
      exactly `p`, the fields show it, it is emitted once, and the cancel
      callback runs only if `p` itself is invalid. */
  lemma ApplyReplacesValue(s: RowState, isAdd: bool, notifiesCancel: bool, p: Property,
                           u1: (string, int) -> bool, u2: (string, int) -> bool, u3: (string, int) -> bool)
    requires s.popover.Closed?
    ensures var t := Run(s, [EditClicked(isAdd, notifiesCancel), SettingsApplied(p), PopoverDestroyed], [u1, u2, u3]);
            && t.modelValue == Some(p) && t.form == FormOf(p) && t.emitted == s.emitted + [p]
            && t.popover.Closed?
            && t.cancelCalls == s.cancelCalls + (if notifiesCancel && !PropertyValid(p) then 1 else 0)
  {
    RunThree(s, EditClicked(isAdd, notifiesCancel), SettingsApplied(p), PopoverDestroyed, u1, u2, u3);
  }

  /** The apply handler stays subscribed while the popover hides: a second
      apply before the destroy replaces the held value again and emits again. */
  lemma ApplyWhileHidingEmitsAgain(s: RowState, p: Property, q: Property,
                                   u1: (string, int) -> bool, u2: (string, int) -> bool)
    requires s.popover.Shown?
    ensures var t := Run(s, [SettingsApplied(p), SettingsApplied(q)], [u1, u2]);
            && t.modelValue == Some(q) && t.form == FormOf(q)
            && t.emitted == s.emitted + [p, q]
            && t.popover == Hiding(s.popover.session)
  {
    RunTwo(s, SettingsApplied(p), SettingsApplied(q), u1, u2);
  }

  // ---------------------------------------------------------------------------
  // Scenarios

  /** The owner writes `{b, Humidity, switch}` over `{a, Temp, number, 0}`:
      the fields show b, Humidity and switch and nothing is emitted. */
  lemma WriteValueScenario(index: int, ids: seq<string>, unique: (string, int) -> bool)
    ensures var a := Property(Some("a"), Some("Temp"), Some(Number), Some(Num(0.0)), map[]);
            var b := Property(Some("b"), Some("Humidity"), Some(Switch), None, map[]);
            var t := Run(Initial(index, ids), [ValueWritten(Some(a)), ValueWritten(Some(b))], [unique, unique]);
            && t.form == FormValue(Some("b"), Some("Humidity"), Some(Switch))
            && t.modelValue == Some(b)
            && t.emitted == []
  {
    var a := Property(Some("a"), Some("Temp"), Some(Number), Some(Num(0.0)), map[]);
    var b := Property(Some("b"), Some("Humidity"), Some(Switch), None, map[]);
    RunTwo(Initial(index, ids), ValueWritten(Some(a)), ValueWritten(Some(b)), unique, unique);
  }

  /** The add flow on a row holding a property without an id: dismissing the
      popover calls the cancel callback exactly once. */
  lemma AddFlowDismissScenario(index: int, ids: seq<string>, unique: (string, int) -> bool)
    ensures var blank := Property(None, None, None, None, map[]);
            var t := Run(Initial(index, ids), [ValueWritten(Some(blank)), EditClicked(true, true), PopoverDestroyed],
                         [unique, unique, unique]);
            t.cancelCalls == 1 && t.emitted == [] && t.modelValue == Some(blank)
  {
    var blank := Property(None, None, None, None, map[]);
    var s := Initial(index, ids);
    RunThree(s, ValueWritten(Some(blank)), EditClicked(true, true), PopoverDestroyed, unique, unique, unique);
  }

  /** The popover applies `{x, Pressure, color, "#000"}`: the row holds it, the
      fields show x, Pressure and color, and it is emitted once. */
  lemma ApplyScenario(s: RowState, unique: (string, int) -> bool)
    requires s.popover.Closed?
    ensures var p := Property(Some("x"), Some("Pressure"), Some(Color), Some(Str("#000")), map[]);
            var t := Run(s, [EditClicked(false, false), SettingsApplied(p), PopoverDestroyed], [unique, unique, unique]);
            && t.modelValue == Some(p)
            && t.form == FormValue(Some("x"), Some("Pressure"), Some(Color))
            && t.emitted == s.emitted + [p]
            && t.cancelCalls == s.cancelCalls
  {
    var p := Property(Some("x"), Some("Pressure"), Some(Color), Some(Str("#000")), map[]);
    ApplyReplacesValue(s, false, false, p, unique, unique, unique);
  }
}
