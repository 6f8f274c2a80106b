/** Symbol properties: the record one property row holds, when it counts as
    complete, and the default value each property type starts with. */
module SymbolProperty {

  datatype Option<+T> = None | Some(value: T)

  /** The closed set of property type tags. */
  datatype PropertyType = Text | Number | Switch | Color | ColorSettings | Font | Units

  /** A font description, as the font default carries it. */
  datatype FontSpec = FontSpec(size: real, sizeUnit: string, family: string,
                               weight: string, style: string, lineHeight: string)

  /** The values a property attribute can hold. `ConstantColor` stands for a
      colour-settings structure that holds one constant colour. */
  datatype Value =
    | Str(str: string)
    | Num(num: real)
    | Bool(flag: bool)
    | ConstantColor(color: string)
    | FontValue(font: FontSpec)

  /** A symbol property. An attribute that is undefined or null is `None`;
      `extras` holds every other attribute of the record, by name. */
  datatype Property = Property(id: Option<string>, name: Option<string>,
                               valueType: Option<PropertyType>,
                               defaultValue: Option<Value>,
                               extras: map<string, Value>)

  /** The value of the row's form group: its id, name and type controls. */
  datatype FormValue = FormValue(id: Option<string>, name: Option<string>,
                                 valueType: Option<PropertyType>)

  /** The three form fields of a property. */
  function FormOf(p: Property): FormValue {
    FormValue(p.id, p.name, p.valueType)
  }

  /** What `patchValue({id: v?.id, name: v?.name, type: v?.type})` writes into
      the form for a possibly absent value. */
  function Mirror(v: Option<Property>): FormValue {
    if v.Some? then FormOf(v.value) else FormValue(None, None, None)
  }

  /** JavaScript truthiness of an optional string: present and not empty. */
  predicate Truthy(s: Option<string>) {
    s.Some? && s.value != ""
  }

  /** `propertyValid`: id, name and type are all truthy. A type tag is a
      non-empty string, so it is truthy exactly when present. */
  function PropertyValid(p: Property): (r: bool)
    ensures r <==> p.id.Some? && p.id.value != "" && p.name.Some? && p.name.value != "" && p.valueType.Some?
  {
    !(!Truthy(p.id) || !Truthy(p.name) || p.valueType.None?)
  }

  /** The shape a value of type `t` has. */
  predicate Fits(t: PropertyType, v: Value) {
    match t
    case Text | Color | Units => v.Str?
    case Number => v.Num?
    case Switch => v.Bool?
    case ColorSettings => v.ConstantColor?
    case Font => v.FontValue?
  }

  /** A property whose type is set has a default of that type. */
  predicate DefaultMatchesType(p: Property) {
    p.valueType.Some? ==> p.defaultValue.Some? && Fits(p.valueType.value, p.defaultValue.value)
  }

  /** `defaultPropertyValue`, total over the seven tags. */
  function DefaultPropertyValue(t: PropertyType): (v: Value)
    ensures Fits(t, v)
  {
    match t
    case Text => Str("")
    case Number => Num(0.0)
    case Switch => Bool(false)
    case Color => Str("#000")
    case ColorSettings => ConstantColor("#000")
    case Font => FontValue(FontSpec(12.0, "px", "Roboto", "normal", "normal", "1"))
    case Units => Str("")
  }

  /** The table of defaults; text and units are the only two tags that share one. */
  lemma DefaultPropertyValueTable()
    ensures DefaultPropertyValue(Text) == DefaultPropertyValue(Units) == Str("")
    ensures DefaultPropertyValue(Number) == Num(0.0)
    ensures DefaultPropertyValue(Switch) == Bool(false)
    ensures DefaultPropertyValue(Color) == Str("#000")
    ensures DefaultPropertyValue(ColorSettings) == ConstantColor("#000")
    ensures DefaultPropertyValue(Font) == FontValue(FontSpec(12.0, "px", "Roboto", "normal", "normal", "1"))
    ensures forall t1, t2 :: DefaultPropertyValue(t1) == DefaultPropertyValue(t2) ==>
              t1 == t2 || (t1 in {Text, Units} && t2 in {Text, Units})
  {}

  /** The switch falls through for an absent type and yields undefined. */
  function DefaultFor(t: Option<PropertyType>): (r: Option<Value>)
    ensures r.Some? <==> t.Some?
    ensures t.Some? ==> Fits(t.value, r.value)
  {
    if t.Some? then Some(DefaultPropertyValue(t.value)) else None
  }

  /** `{...base, ...form}`: the form's three fields win, everything else comes
      from the base; an absent base spreads as the empty record. */
  function Overlay(base: Option<Property>, form: FormValue): (r: Property)
    ensures FormOf(r) == form
    ensures base.Some? ==> r.defaultValue == base.value.defaultValue && r.extras == base.value.extras
    ensures base.None? ==> r.defaultValue == None && r.extras == map[]
  {
    match base
    case None => Property(form.id, form.name, form.valueType, None, map[])
    case Some(b) => b.(id := form.id, name := form.name, valueType := form.valueType)
  }

  /** Overlaying a property with its own fields gives it back unchanged. */
  lemma OverlayMirror(v: Option<Property>)
    requires v.Some?
    ensures Overlay(v, Mirror(v)) == v.value
  {}

  /** `{...base, type: t}` followed by `default = defaultPropertyValue(t)`. */
  function WithType(base: Option<Property>, t: Option<PropertyType>): (r: Property)
    ensures r.valueType == t && r.defaultValue == DefaultFor(t)
    ensures base.Some? ==> r.id == base.value.id && r.name == base.value.name && r.extras == base.value.extras
    ensures base.None? ==> r.id == None && r.name == None && r.extras == map[]
    ensures DefaultMatchesType(r)
  {
    match base
    case None => Property(None, None, t, DefaultFor(t), map[])
    case Some(b) => b.(valueType := t, defaultValue := DefaultFor(t))
  }
}
