/**
 The checkout form as a value: the fields of `orderForm` in their order, each
 with its configuration, current value, rules, validity and touched flag, and
 the effect that a change of one field's value has on the whole form.
 */
module OrderForm {
  import opened EmailPattern
  import opened Validation

  type FieldId = string

  /** `elementType` */
  datatype ElementType = Input | Select

  datatype SelectOption = SelectOption(value: string, displayValue: string)

  /** `elementConfig`, handed to the renderer unchanged. */
  datatype ElementConfig =
    | InputConfig(inputType: string, placeholder: string)
    | SelectConfig(options: seq<SelectOption>)

  /** One entry of `orderForm`. */
  datatype FormElement = FormElement(
    elementType: ElementType,
    elementConfig: ElementConfig,
    value: string,
    validation: Option<Rules>,
    valid: bool,
    touched: bool)

  /** `orderForm`, a JavaScript object: its keys in enumeration order and the
      entry under each key. */
  datatype Form = Form(ids: seq<FieldId>, fields: map<FieldId, FormElement>)

  /** The keys are listed once each and are exactly the keys of the entries. */
  ghost predicate WellFormed(f: Form) {
    (forall i, j :: 0 <= i < j < |f.ids| ==> f.ids[i] != f.ids[j]) &&
    (forall id :: id in f.fields <==> id in f.ids)
  }

  /** Every field's `valid` flag is the verdict of its rules on its value. */
  ghost predicate Consistent(f: Form) {
    forall id :: id in f.fields ==> f.fields[id].valid == Satisfies(f.fields[id].value, f.fields[id].validation)
  }

  /** What `formIsValid` must be: every field is valid. */
  ghost predicate AllValid(f: Form) {
    forall id :: id in f.fields ==> f.fields[id].valid
  }

  /** The form after the user typed `value` into field `id`
      (`inputChangedHandler` without the recomputation of `formIsValid`). */
  function UpdateField(f: Form, id: FieldId, value: string): Form
    requires id in f.fields
  {
    var e := f.fields[id];
    f.(fields := f.fields[id := e.(value := value, valid := Satisfies(value, e.validation), touched := true)])
  }

  // ---------------------------------------------------------------------------
  // What an update does and keeps.
  // ---------------------------------------------------------------------------

  /** The changed field holds the new value, its verdict and `touched`; every
      other field and the order of the keys are as before. */
  lemma UpdateFieldEffect(f: Form, id: FieldId, value: string)
    requires id in f.fields
    ensures UpdateField(f, id, value).ids == f.ids
    ensures UpdateField(f, id, value).fields.Keys == f.fields.Keys
    ensures UpdateField(f, id, value).fields[id].value == value
    ensures UpdateField(f, id, value).fields[id].valid == Satisfies(value, f.fields[id].validation)
    ensures UpdateField(f, id, value).fields[id].touched
    ensures UpdateField(f, id, value).fields[id].elementType == f.fields[id].elementType
    ensures UpdateField(f, id, value).fields[id].elementConfig == f.fields[id].elementConfig
    ensures UpdateField(f, id, value).fields[id].validation == f.fields[id].validation
    ensures forall other :: other in f.fields && other != id ==>
      UpdateField(f, id, value).fields[other] == f.fields[other]
  {
  }

  /** An update keeps the form well formed and every flag up to date. */
  lemma UpdateKeepsInvariant(f: Form, id: FieldId, value: string)
    requires id in f.fields && WellFormed(f) && Consistent(f)
    ensures WellFormed(UpdateField(f, id, value)) && Consistent(UpdateField(f, id, value))
  {
  }

  /** Only the last of two updates of the same field is visible; in
      particular repeating an update changes nothing. */
  lemma UpdateLastWins(f: Form, id: FieldId, v1: string, v2: string)
    requires id in f.fields
    ensures UpdateField(UpdateField(f, id, v1), id, v2) == UpdateField(f, id, v2)
    ensures UpdateField(UpdateField(f, id, v1), id, v1) == UpdateField(f, id, v1)
  {
  }

  /** Updates of two different fields do not interfere. */
  lemma UpdatesCommute(f: Form, a: FieldId, va: string, b: FieldId, vb: string)
    requires a in f.fields && b in f.fields && a != b
    ensures UpdateField(UpdateField(f, a, va), b, vb) == UpdateField(UpdateField(f, b, vb), a, va)
  {
    var g := UpdateField(UpdateField(f, a, va), b, vb);
    var h := UpdateField(UpdateField(f, b, vb), a, va);
    assert g.fields == h.fields;
  }

  /** `touched` never goes back to false. */
  lemma UpdateTouchedMonotone(f: Form, id: FieldId, value: string, other: FieldId)
    requires id in f.fields && other in f.fields && f.fields[other].touched
    ensures UpdateField(f, id, value).fields[other].touched
  {
  }

  /** After an update the form is valid exactly when the new value passes its
      field's rules and every other field was already valid. */
  lemma AllValidAfterUpdate(f: Form, id: FieldId, value: string)
    requires id in f.fields
    ensures AllValid(UpdateField(f, id, value)) <==>
      Satisfies(value, f.fields[id].validation) &&
      forall other :: other in f.fields && other != id ==> f.fields[other].valid
  {
    var g := UpdateField(f, id, value);
    assert g.fields[id].valid == Satisfies(value, f.fields[id].validation);
    if AllValid(g) {
      forall other | other in f.fields && other != id
        ensures f.fields[other].valid
      {
        assert g.fields[other] == f.fields[other];
      }
    }
  }

  /** In a consistent form, "every flag is set" means "every value passes its
      rules". */
  lemma AllValidMeansAllSatisfied(f: Form)
    requires Consistent(f)
    ensures AllValid(f) <==> forall id :: id in f.fields ==> Satisfies(f.fields[id].value, f.fields[id].validation)
  {
  }

  // ---------------------------------------------------------------------------
  // The initial state.
  // ---------------------------------------------------------------------------

  function TextField(inputType: string, placeholder: string, rules: Rules): FormElement {
    FormElement(Input, InputConfig(inputType, placeholder), "", Some(rules), false, false)
  }

  const RequiredRules := NoRules.(required := true)
  const EmailRules := NoRules.(required := true, isEmail := true)

  /** The `orderForm` the component starts with. */
  function InitialForm(): Form {
    Form(
      ["name", "street", "zipCode", "country", "email", "deliveryMethod"],
      map[
        "name" := TextField("text", "Your Name", RequiredRules),
        "street" := TextField("text", "Street", RequiredRules),
        "zipCode" := TextField("text", "ZIP CODE", ZipRules),
        "country" := TextField("text", "Country", RequiredRules),
        "email" := TextField("email", "Your E-Mail", EmailRules),
        "deliveryMethod" := FormElement(
          Select,
          SelectConfig([SelectOption("fastest", "Fastest"), SelectOption("cheapest", "Cheapest")]),
          "fastest", Some(NoRules), true, false)])
  }

  /** The initial form is well formed: six keys, none twice. */
  lemma InitialFormWellFormed()
    ensures WellFormed(InitialForm())
    ensures InitialForm().fields.Keys == {"name", "street", "zipCode", "country", "email", "deliveryMethod"}
  {
  }

  /** An empty value fails every rule set that has `required`. */
  lemma EmptyFailsRequired(r: Rules)
    requires r.required
    ensures !Satisfies("", Some(r))
  {
  }

  /** The six keys of the initial form. */
  lemma InitialKeys(id: FieldId)
    requires id in InitialForm().fields
    ensures id == "name" || id == "street" || id == "zipCode" || id == "country" ||
      id == "email" || id == "deliveryMethod"
  {
  }

  /** The hand-set initial flags agree with the rules: the five empty text
      fields are required and so invalid, the delivery method has no rules and
      so is valid. */
  lemma InitialFormConsistent()
    ensures Consistent(InitialForm())
  {
    var f := InitialForm();
    forall id | id in f.fields
      ensures f.fields[id].valid == Satisfies(f.fields[id].value, f.fields[id].validation)
    {
      InitialKeys(id);
      if id == "zipCode" {
        EmptyFailsRequired(ZipRules);
      } else if id == "email" {
        EmptyFailsRequired(EmailRules);
      } else if id == "deliveryMethod" {
        NoRulesAlwaysValid("fastest");
      } else {
        EmptyFailsRequired(RequiredRules);
      }
    }
  }

  /** The initial form is not valid, which is what the initial
      `formIsValid: false` says; nothing is touched yet; and the delivery
      method accepts any value. */
  lemma InitialFormFacts()
    ensures !AllValid(InitialForm())
    ensures forall id :: id in InitialForm().fields ==> !InitialForm().fields[id].touched
    ensures forall v :: Satisfies(v, InitialForm().fields["deliveryMethod"].validation)
  {
    InitialFormWellFormed();
    assert !InitialForm().fields["name"].valid;
  }

  /** What the rules of each text field ask of its value. */
  lemma FieldRulesMeaning(s: string)
    ensures Satisfies(s, Some(RequiredRules)) <==> Trim(s) != []
    ensures Satisfies(s, Some(EmailRules)) <==> Trim(s) != [] && ContainsEmail(s)
    ensures Satisfies(s, Some(ZipRules)) <==> Trim(s) != [] && |s| == 6 && IsNumeric(s)
  {
  }

  /** A value with no white space at either end passes `required`. */
  lemma UnpaddedPassesRequired(s: string)
    requires s != [] && !IsWhitespace(s[0]) && !IsWhitespace(s[|s| - 1])
    ensures Satisfies(s, Some(RequiredRules))
  {
    FieldRulesMeaning(s);
    TrimKeepsUnpadded(s);
  }

  /** A matching address with no white space at either end passes the rules
      of the e-mail field. */
  lemma UnpaddedAddressPasses(s: string)
    requires s != [] && !IsWhitespace(s[0]) && !IsWhitespace(s[|s| - 1])
    requires ContainsEmail(s)
    ensures Satisfies(s, Some(EmailRules))
  {
    FieldRulesMeaning(s);
    TrimKeepsUnpadded(s);
  }

  /** The initial form with the five text fields filled in. */
  function Filled(name: string, street: string, zipCode: string, country: string, email: string): Form {
    UpdateField(UpdateField(UpdateField(UpdateField(UpdateField(InitialForm(),
      "name", name), "street", street), "zipCode", zipCode), "country", country), "email", email)
  }

  /** After filling in, each text field's flag is its rules' verdict on the
      value typed into it, the delivery method is still valid, and the keys are
      those of the initial form. */
  lemma FilledFlags(name: string, street: string, zipCode: string, country: string, email: string)
    ensures Filled(name, street, zipCode, country, email).fields.Keys == InitialForm().fields.Keys
    ensures Filled(name, street, zipCode, country, email).fields["name"].valid == Satisfies(name, Some(RequiredRules))
    ensures Filled(name, street, zipCode, country, email).fields["street"].valid == Satisfies(street, Some(RequiredRules))
    ensures Filled(name, street, zipCode, country, email).fields["zipCode"].valid == Satisfies(zipCode, Some(ZipRules))
    ensures Filled(name, street, zipCode, country, email).fields["country"].valid == Satisfies(country, Some(RequiredRules))
    ensures Filled(name, street, zipCode, country, email).fields["email"].valid == Satisfies(email, Some(EmailRules))
    ensures Filled(name, street, zipCode, country, email).fields["deliveryMethod"].valid
  {
    var f0 := InitialForm();
    var f1 := UpdateField(f0, "name", name);
    var f2 := UpdateField(f1, "street", street);
    var f3 := UpdateField(f2, "zipCode", zipCode);
    var f4 := UpdateField(f3, "country", country);
    var f5 := UpdateField(f4, "email", email);
    assert f1.fields["name"].valid == Satisfies(name, Some(RequiredRules));
    assert f2.fields["name"] == f1.fields["name"];
    assert f3.fields["name"] == f1.fields["name"] && f3.fields["street"] == f2.fields["street"];
    assert f4.fields["name"] == f1.fields["name"] && f4.fields["street"] == f2.fields["street"] &&
      f4.fields["zipCode"] == f3.fields["zipCode"];
    assert f5.fields["name"] == f1.fields["name"] && f5.fields["street"] == f2.fields["street"] &&
      f5.fields["zipCode"] == f3.fields["zipCode"] && f5.fields["country"] == f4.fields["country"];
    assert f5.fields["deliveryMethod"] == f0.fields["deliveryMethod"];
  }

  /** Once the five text fields are filled in, the form is valid exactly when
      each value passes its field's rules. */
  lemma FilledFormValidity(name: string, street: string, zipCode: string, country: string, email: string)
    ensures AllValid(Filled(name, street, zipCode, country, email)) <==>
      Satisfies(name, Some(RequiredRules)) && Satisfies(street, Some(RequiredRules)) &&
      Satisfies(zipCode, Some(ZipRules)) && Satisfies(country, Some(RequiredRules)) &&
      Satisfies(email, Some(EmailRules))
  {
    FilledFlags(name, street, zipCode, country, email);
    var f := Filled(name, street, zipCode, country, email);
    if !AllValid(f) {
      var id :| id in f.fields && !f.fields[id].valid;
      InitialKeys(id);
    }
  }

  /** Typing "12a456" into the zip code field of the initial form leaves it
      invalid, and the form with it; typing "123456" over it makes the field
      valid. */
  lemma ZipFieldScenario()
    ensures !UpdateField(InitialForm(), "zipCode", "12a456").fields["zipCode"].valid
    ensures !AllValid(UpdateField(InitialForm(), "zipCode", "12a456"))
    ensures UpdateField(UpdateField(InitialForm(), "zipCode", "12a456"), "zipCode", "123456").fields["zipCode"].valid
  {
    var f0 := InitialForm();
    assert f0.fields["zipCode"].validation == Some(ZipRules);
    ZipCodeExamples();
    UpdateFieldEffect(f0, "zipCode", "12a456");
    UpdateLastWins(f0, "zipCode", "12a456", "123456");
    UpdateFieldEffect(f0, "zipCode", "123456");
  }
}
