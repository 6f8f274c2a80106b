# Symbol property row

A model of one row of the symbol property list in the SCADA symbol metadata
editor (`ui-ngx/src/app/modules/home/pages/scada-symbol/metadata-components/scada-symbol-property-row.component.ts`). A row holds one symbol property `{id, name, type, default}`,
mirrors its id, name and type into three form fields, takes part in the
parent form as a value accessor and a validator, and edits the whole property
through a popover.

- `symbol_property.dfy` (module `SymbolProperty`): the property record, its
  values, `propertyValid`, the default-value table `defaultPropertyValue`, and
  the two object spreads the row performs (`{...model, ...form}` and
  `{...model, type}` with the default reset).
- `property_row.dfy` (module `PropertyRow`): the id validator, the row's whole
  state as a value with one transition function per operation, `Step`/`Run`
  over a sequence of events, and the class `PropertyRowComponent` whose methods
  update its fields in place and are proved to follow those functions. The
  change callback is the ghost log `emitted`; a caller-supplied cancel callback
  is the ghost counter `cancelCalls`.
- `row_properties.dfy` (module `PropertyRowProperties`): lemmas across calls.

Modelling decisions, following the code:

- An attribute that is undefined or null is `None`; truthiness of a string is
  "present and non-empty". The uniqueness check of the parent list is a
  function parameter `unique(id, index)`, passed to every operation that runs
  the id validator. `Run` takes one check per event, because siblings take and
  release ids between events, so a verdict recorded earlier can differ from
  the one the parent would give now.
- The id validator runs whenever the id control is written while the form is
  enabled: on an id edit, on `writeValue` and on apply (`patchValue` with
  `emitEvent: false` still validates), and on enabling. Disabling clears the
  control's errors. `validate` re-runs it only when the control already
  carries `propertyIdNotUnique`.
- A type edit runs `onTypeChanged` before `updateModel`, because a control's
  own value-change subscription fires before its group's.
- Hiding the popover is asynchronous: apply or a second click moves it to
  `Hiding`, and its destroy handler runs later against the value held then.
  The apply handler stays subscribed until that destroy, so an apply that
  arrives while the popover is hiding runs in full as well.
- The destroy handler calls `propertyValid` on the held value; when no value is
  held that call throws a TypeError, and the model records this as
  `typeError` with no cancel call.
- `validate` re-runs the id validator only when the id control already
  carries `propertyIdNotUnique` (lines 235-237 of the component). A "unique"
  verdict recorded at the last write of the id is never rechecked, so a row
  whose id a sibling takes afterwards still passes
  (`PropertyRowProperties.ValidateIgnoresCheckUnlessFlagged`,
  `PropertyRowProperties.StaleUniquenessPasses`,
  `PropertyRowProperties.StaleUniquenessReachable`).

## Model

| member | source | states |
|---|---|---|
| `SymbolProperty.PropertyValid` | ui-ngx/src/app/modules/home/pages/scada-symbol/metadata-components/scada-symbol-property-row.component.ts:59 | a property is valid iff its id and name are present and non-empty and its type is present |
| `SymbolProperty.DefaultPropertyValue` | ui-ngx/src/app/modules/home/pages/scada-symbol/metadata-components/scada-symbol-property-row.component.ts:61-85 | the default for each of the seven tags has the shape of that tag |
| `SymbolProperty.DefaultPropertyValueTable` | ui-ngx/src/app/modules/home/pages/scada-symbol/metadata-components/scada-symbol-property-row.component.ts:61-85 | text and units give "", number 0, switch false, color "#000", color_settings the constant colour "#000", font {12, px, Roboto, normal, normal, 1}; only text and units share a default |
| `SymbolProperty.DefaultFor` | ui-ngx/src/app/modules/home/pages/scada-symbol/metadata-components/scada-symbol-property-row.component.ts:61-85 | an absent type falls through the switch to undefined; a present one gets a default of its shape |
| `SymbolProperty.Overlay` | ui-ngx/src/app/modules/home/pages/scada-symbol/metadata-components/scada-symbol-property-row.component.ts:274-278 | the spread of the form over the held value: the form's three fields win, default and every other attribute come from the held value, an absent held value spreads as the empty record |
| `SymbolProperty.OverlayMirror` | ui-ngx/src/app/modules/home/pages/scada-symbol/metadata-components/scada-symbol-property-row.component.ts:244 | overlaying a value with its own fields gives it back |
| `SymbolProperty.WithType` | ui-ngx/src/app/modules/home/pages/scada-symbol/metadata-components/scada-symbol-property-row.component.ts:269-272 | onTypeChanged's record: the new type, its default whatever the old one was, id, name and other attributes kept, default fitting the type |
| `PropertyRow.IdValidator` | ui-ngx/src/app/modules/home/pages/scada-symbol/metadata-components/scada-symbol-property-row.component.ts:253-267 | an empty id is required (checked first); a non-empty id the parent rejects is not unique; otherwise no error |
| `PropertyRow.Initial` | ui-ngx/src/app/modules/home/pages/scada-symbol/metadata-components/scada-symbol-property-row.component.ts:142-147 | the row as initialised: mirrored, nothing held, enabled, popover closed, id control flagged required, nothing emitted, no cancel call |
| `PropertyRow.AfterWriteValue` | ui-ngx/src/app/modules/home/pages/scada-symbol/metadata-components/scada-symbol-property-row.component.ts:172-182 | holds the written value exactly, mirrors it, emits nothing, leaves popover and disabled state alone; on an enabled row the id error is the validator's verdict on the written id |
| `PropertyRow.AfterSetDisabledState` | ui-ngx/src/app/modules/home/pages/scada-symbol/metadata-components/scada-symbol-property-row.component.ts:163-170 | only the disabled flag and the id error change; disabling clears the id error, enabling re-validates the current id |
| `PropertyRow.TypeChanged` | ui-ngx/src/app/modules/home/pages/scada-symbol/metadata-components/scada-symbol-property-row.component.ts:269-272 | the held value gets the new type and that type's default, so its default fits its type; fields and log unchanged |
| `PropertyRow.ModelUpdated` | ui-ngx/src/app/modules/home/pages/scada-symbol/metadata-components/scada-symbol-property-row.component.ts:274-278 | the held value is mirrored by the unchanged fields and appended to the log |
| `PropertyRow.AfterIdEdit` | ui-ngx/src/app/modules/home/pages/scada-symbol/metadata-components/scada-symbol-property-row.component.ts:148-150 | on a disabled row nothing changes; otherwise the id field takes the new id, the row stays mirrored, the id error is the validator's verdict on it and one value is emitted |
| `PropertyRow.AfterNameEdit` | ui-ngx/src/app/modules/home/pages/scada-symbol/metadata-components/scada-symbol-property-row.component.ts:148-150 | on a disabled row nothing changes; otherwise the name field changes, the row stays mirrored, the id error is kept and one value is emitted |
| `PropertyRow.AfterTypeEdit` | ui-ngx/src/app/modules/home/pages/scada-symbol/metadata-components/scada-symbol-property-row.component.ts:148-153 | on a disabled row nothing changes; otherwise the type field changes, the held default is the new type's and fits it, and one value is emitted |
| `PropertyRow.RecheckedIdError` | ui-ngx/src/app/modules/home/pages/scada-symbol/metadata-components/scada-symbol-property-row.component.ts:235-237 | a stored error other than propertyIdNotUnique is kept as it is; a flagged id gets the validator's fresh verdict; so the flag survives iff the id is non-empty and the check still rejects it |
| `PropertyRow.ValidateResult` | ui-ngx/src/app/modules/home/pages/scada-symbol/metadata-components/scada-symbol-property-row.component.ts:233-251 | propertyIdNotUnique iff the recheck keeps the flag; passing means the overlay is complete and the id non-empty; a property error means the overlay is incomplete |
| `PropertyRow.AfterValidate` | ui-ngx/src/app/modules/home/pages/scada-symbol/metadata-components/scada-symbol-property-row.component.ts:238-243 | only the id error and the touched flag change: the id error becomes the recheck's (an unflagged one is kept), and the id becomes touched iff it was or validate reports a collision |
| `PropertyRow.AfterEditProperty` | ui-ngx/src/app/modules/home/pages/scada-symbol/metadata-components/scada-symbol-property-row.component.ts:184-202 | a popover that is there moves to hiding and nothing else changes; otherwise one opens with the held value, the add flag and the cancel callback, and nothing else changes |
| `PropertyRow.AfterApply` | ui-ngx/src/app/modules/home/pages/scada-symbol/metadata-components/scada-symbol-property-row.component.ts:203-214 | once the popover is destroyed nothing changes; while shown or hiding the popover hides, the fields mirror the applied value, the row holds exactly it and emits it once, an enabled row re-validates the applied id (a disabled one keeps its id error), and nothing else changes |
| `PropertyRow.AfterDestroy` | ui-ngx/src/app/modules/home/pages/scada-symbol/metadata-components/scada-symbol-property-row.component.ts:215-219 | only the popover (now gone) and the cancel count change; the cancel callback runs once iff it was given and the held value is present and invalid |
| `PropertyRow.Step` | ui-ngx/src/app/modules/home/pages/scada-symbol/metadata-components/scada-symbol-property-row.component.ts:142-153 | one event never changes the row's index or hint list, only appends to the log, and calls cancel at most once |
| `PropertyRow.Run` | ui-ngx/src/app/modules/home/pages/scada-symbol/metadata-components/scada-symbol-property-row.component.ts:142-153 | the same over any sequence of events, each against the uniqueness check current when it arrives; at most one cancel call per event |
| `PropertyRow.PropertyRowComponent.constructor` | ui-ngx/src/app/modules/home/pages/scada-symbol/metadata-components/scada-symbol-property-row.component.ts:142-147 | empty fields, nothing held, nothing emitted, id control flagged required |
| `PropertyRow.PropertyRowComponent.SetDisabledState` | ui-ngx/src/app/modules/home/pages/scada-symbol/metadata-components/scada-symbol-property-row.component.ts:163-170 | sets disabled, clears the id error when disabling and re-validates when enabling; held value and log unchanged |
| `PropertyRow.PropertyRowComponent.WriteValue` | ui-ngx/src/app/modules/home/pages/scada-symbol/metadata-components/scada-symbol-property-row.component.ts:172-182 | holds the given value exactly and mirrors its id, name and type; emits nothing, default not reset |
| `PropertyRow.PropertyRowComponent.OnTypeChanged` | ui-ngx/src/app/modules/home/pages/scada-symbol/metadata-components/scada-symbol-property-row.component.ts:269-272 | held value becomes the old one with the new type and that type's default |
| `PropertyRow.PropertyRowComponent.UpdateModel` | ui-ngx/src/app/modules/home/pages/scada-symbol/metadata-components/scada-symbol-property-row.component.ts:274-278 | held value becomes the old one overlaid by the form, and is emitted once |
| `PropertyRow.PropertyRowComponent.EditId` | ui-ngx/src/app/modules/home/pages/scada-symbol/metadata-components/scada-symbol-property-row.component.ts:148-150 | an id edit on an enabled row overlays and emits once; on a disabled row nothing changes |
| `PropertyRow.PropertyRowComponent.EditName` | ui-ngx/src/app/modules/home/pages/scada-symbol/metadata-components/scada-symbol-property-row.component.ts:148-150 | a name edit on an enabled row overlays and emits once; on a disabled row nothing changes |
| `PropertyRow.PropertyRowComponent.EditType` | ui-ngx/src/app/modules/home/pages/scada-symbol/metadata-components/scada-symbol-property-row.component.ts:148-153 | a type edit sets type and its default, keeps id, name and other attributes, emits once |
| `PropertyRow.PropertyRowComponent.Validate` | ui-ngx/src/app/modules/home/pages/scada-symbol/metadata-components/scada-symbol-property-row.component.ts:233-251 | re-checks a flagged id; still flagged gives propertyIdNotUnique and marks touched; else property iff the overlay is invalid; else no error |
| `PropertyRow.PropertyRowComponent.EditProperty` | ui-ngx/src/app/modules/home/pages/scada-symbol/metadata-components/scada-symbol-property-row.component.ts:184-221 | a popover that is there is only hidden; otherwise one opens seeded with a copy of the held value |
| `PropertyRow.PropertyRowComponent.OnAdd` | ui-ngx/src/app/modules/home/pages/scada-symbol/metadata-components/scada-symbol-property-row.component.ts:228-231 | opens the popover as an add with the caller's cancel callback |
| `PropertyRow.PropertyRowComponent.ApplySettings` | ui-ngx/src/app/modules/home/pages/scada-symbol/metadata-components/scada-symbol-property-row.component.ts:203-214 | the popover hides, fields mirror p, the held value is exactly p, p is emitted once |
| `PropertyRow.PropertyRowComponent.Destroy` | ui-ngx/src/app/modules/home/pages/scada-symbol/metadata-components/scada-symbol-property-row.component.ts:215-219 | the cancel callback runs iff the held value is present and invalid; an absent one throws |
| `PropertyRowProperties.StepKeepsMirrored` | ui-ngx/src/app/modules/home/pages/scada-symbol/metadata-components/scada-symbol-property-row.component.ts:172-182 | every operation leaves the fields mirroring the held value |
| `PropertyRowProperties.RunKeepsMirrored` | ui-ngx/src/app/modules/home/pages/scada-symbol/metadata-components/scada-symbol-property-row.component.ts:172-182 | fields mirror the held value after any sequence of events |
| `PropertyRowProperties.ReachableRowsAreMirrored` | ui-ngx/src/app/modules/home/pages/scada-symbol/metadata-components/scada-symbol-property-row.component.ts:142-147 | every row reachable from initialisation is mirrored |
| `PropertyRowProperties.StepEmitsOnce` | ui-ngx/src/app/modules/home/pages/scada-symbol/metadata-components/scada-symbol-property-row.component.ts:274-278 | an edit or apply emits exactly the new held value once; every other event emits nothing |
| `PropertyRowProperties.EmittedOnlyGrows` | ui-ngx/src/app/modules/home/pages/scada-symbol/metadata-components/scada-symbol-property-row.component.ts:132 | the change log grows by at most one value per event |
| `PropertyRowProperties.SilentEventsEmitNothing` | ui-ngx/src/app/modules/home/pages/scada-symbol/metadata-components/scada-symbol-property-row.component.ts:163-182 | writes, enabling, validation and popover open, hide and destroy never call the change callback |
| `PropertyRowProperties.WriteValueThenValidateIsSilent` | ui-ngx/src/app/modules/home/pages/scada-symbol/metadata-components/scada-symbol-property-row.component.ts:172-182 | writeValue then validate emits nothing and holds the written value as given |
| `PropertyRowProperties.FieldEditOverlays` | ui-ngx/src/app/modules/home/pages/scada-symbol/metadata-components/scada-symbol-property-row.component.ts:148-150 | an id or name edit holds the old value overlaid by the form, emitted once, default and other attributes kept |
| `PropertyRowProperties.TypeEditResetsDefault` | ui-ngx/src/app/modules/home/pages/scada-symbol/metadata-components/scada-symbol-property-row.component.ts:148-153 | a type edit replaces the default with the new type's default and keeps everything else |
| `PropertyRowProperties.DisabledRowIgnoresEdits` | ui-ngx/src/app/modules/home/pages/scada-symbol/metadata-components/scada-symbol-property-row.component.ts:163-170 | a disabled row is unchanged by any sequence of field edits |
| `PropertyRowProperties.StepKeepsDefaultsMatching` | ui-ngx/src/app/modules/home/pages/scada-symbol/metadata-components/scada-symbol-property-row.component.ts:269-272 | one event keeps held and emitted defaults fitting their types |
| `PropertyRowProperties.RunKeepsDefaultsMatching` | ui-ngx/src/app/modules/home/pages/scada-symbol/metadata-components/scada-symbol-property-row.component.ts:269-278 | if what is written and applied fits, every held and emitted default fits its type after any run |
| `PropertyRowProperties.ValidateIgnoresCheckUnlessFlagged` | ui-ngx/src/app/modules/home/pages/scada-symbol/metadata-components/scada-symbol-property-row.component.ts:235-237 | unless the id is flagged, validate does not consult the uniqueness check |
| `PropertyRowProperties.StaleUniquenessPasses` | ui-ngx/src/app/modules/home/pages/scada-symbol/metadata-components/scada-symbol-property-row.component.ts:233-251 | a complete row whose id was unique when last checked passes validate whatever the check says now |
| `PropertyRowProperties.StaleUniquenessReachable` | ui-ngx/src/app/modules/home/pages/scada-symbol/metadata-components/scada-symbol-property-row.component.ts:233-267 | from initialisation: write a complete property, type an id the parent accepts, a sibling then takes it, and validate still passes without marking the id touched |
| `PropertyRowProperties.ValidateReportsCollision` | ui-ngx/src/app/modules/home/pages/scada-symbol/metadata-components/scada-symbol-property-row.component.ts:238-243 | a flagged id that still collides is reported and marked touched even if the property is complete |
| `PropertyRowProperties.ValidateAfterIdEdit` | ui-ngx/src/app/modules/home/pages/scada-symbol/metadata-components/scada-symbol-property-row.component.ts:253-267 | right after an id edit, validate reports a collision iff the check rejects the new non-empty id |
| `PropertyRowProperties.ValidateAfterApply` | ui-ngx/src/app/modules/home/pages/scada-symbol/metadata-components/scada-symbol-property-row.component.ts:203-211 | right after an apply on an enabled row, validate reports a collision iff the check rejects the applied non-empty id |
| `PropertyRowProperties.ValidateChecksHeldValue` | ui-ngx/src/app/modules/home/pages/scada-symbol/metadata-components/scada-symbol-property-row.component.ts:244-250 | with mirrored fields, validate's overlay is the held value: property error iff it is absent or invalid |
| `PropertyRowProperties.SecondClickOnlyHides` | ui-ngx/src/app/modules/home/pages/scada-symbol/metadata-components/scada-symbol-property-row.component.ts:189-190 | a click while the popover is there only hides it |
| `PropertyRowProperties.DismissKeepsValue` | ui-ngx/src/app/modules/home/pages/scada-symbol/metadata-components/scada-symbol-property-row.component.ts:215-219 | open then dismiss keeps held value, fields and log; cancel runs iff given and the held value is invalid |
| `PropertyRowProperties.ApplyReplacesValue` | ui-ngx/src/app/modules/home/pages/scada-symbol/metadata-components/scada-symbol-property-row.component.ts:203-219 | open, apply p, destroy: held value exactly p, fields show p, p emitted once, cancel only if p is invalid |
| `PropertyRowProperties.ApplyWhileHidingEmitsAgain` | ui-ngx/src/app/modules/home/pages/scada-symbol/metadata-components/scada-symbol-property-row.component.ts:203-214 | a second apply while the popover hides holds and emits the second value too; both are logged in order |
| `PropertyRowProperties.WriteValueScenario` | ui-ngx/src/app/modules/home/pages/scada-symbol/metadata-components/scada-symbol-property-row.component.ts:172-182 | writing {b, Humidity, switch} over {a, Temp, number, 0} mirrors b, Humidity, switch and emits nothing |
| `PropertyRowProperties.AddFlowDismissScenario` | ui-ngx/src/app/modules/home/pages/scada-symbol/metadata-components/scada-symbol-property-row.component.ts:228-231 | the add flow on a row without an id calls cancel exactly once when dismissed |
| `PropertyRowProperties.ApplyScenario` | ui-ngx/src/app/modules/home/pages/scada-symbol/metadata-components/scada-symbol-property-row.component.ts:203-214 | applying {x, Pressure, color, "#000"} holds it, shows x, Pressure, color and emits it once |

## Left out

- `focus` and the DOM side of `onAdd` and `editProperty` (scrollIntoView, focus, stopPropagation): no state of the row changes.
- The popover service: placement, `displayPopover` arguments and how `hide` leads to destruction; the model keeps only shown, hiding and destroyed.
- The type list and translations, the `propertyRemoved` event, and the no-op `registerOnTouched`: display or notification only.
- `registerOnChange`: every call of the change callback is logged, whichever callback is registered at the time.
- The `index` and `booleanPropertyIds` inputs are fixed at construction; the parent rebinding them is not modelled.
- The `required` validators of the name and type controls: they only set the group's status, which `validate` does not read.
- `constantColor` and the `Font` type come from a file that is not part of this model: the colour-settings default is the opaque constant `ConstantColor("#000")`, and numbers are reals, not IEEE doubles.
- Object identity: the held value is a value, so the aliasing between the applied object, the emitted object and the owner's object is not captured, and `deepClone` is a plain copy.
- `idTouched` records only the `markAsTouched` call in `validate`; the id input losing focus also marks the control touched, through the input's own touched callback bound in the template, which is not part of this model.
- Angular change detection (`markForCheck`) and the RxJS subscriptions themselves; only the order they impose is kept.
