/**
 The checkout contact-data component: its state (`orderForm` and
 `formIsValid`), the change handler that the inputs call, the validator it
 uses, and the two read-only walks over the form (the order payload and the
 list the renderer draws).
 */
module Checkout {
  import opened EmailPattern
  import opened Validation
  import opened OrderForm

  /** How a call of the change handler ended. The source dereferences
      `updatedOrderForm[inputIdentifier]` for an unknown identifier, which
      throws before `setState` runs. */
  datatype Outcome = Changed | UnknownField(id: FieldId)

  /** One element of `formElementsArray`. */
  datatype FormElementEntry = FormElementEntry(id: FieldId, config: FormElement)

  class ContactData {
    var orderForm: Form
    var formIsValid: bool

    /** The state invariant: the form is well formed, every field's flag is
        its rules' verdict on its value, and `formIsValid` is the conjunction
        of the flags. */
    ghost predicate Valid()
      reads this
    {
      WellFormed(orderForm) && Consistent(orderForm) && formIsValid == AllValid(orderForm)
    }

    /** The initial `state`. */
    constructor ()
      ensures Valid()
      ensures orderForm == InitialForm() && !formIsValid
    {
      orderForm := InitialForm();
      formIsValid := false;
      new;
      InitialFormWellFormed();
      InitialFormConsistent();
      InitialFormFacts();
    }

    /** `checkValidity`: the chain of reassignments to `isValid`, one per rule
        that is present, in the source's order. */
    static method CheckValidity(value: string, rules: Option<Rules>) returns (isValid: bool)
      ensures isValid == Satisfies(value, rules)
    {
      isValid := true;
      if rules.None? {
        return true;
      }
      var r := rules.value;
      if r.required {
        isValid := Trim(value) != [] && isValid;
      }
      if r.minLength > 0 {
        isValid := |value| >= r.minLength && isValid;
      }
      if r.maxLength > 0 {
        isValid := |value| <= r.maxLength && isValid;
      }
      if r.isEmail {
        isValid := ContainsEmail(value) && isValid;
      }
      if r.isNumeric {
        isValid := IsNumeric(value) && isValid;
      }
    }

    /** `inputChangedHandler`: copy the form, store the new value, its verdict
        and `touched` in the copy, fold `formIsValid` over every field, and
        install the copy. */
    method InputChanged(id: FieldId, newValue: string) returns (outcome: Outcome)
      requires Valid()
      modifies this
      ensures Valid()
      ensures id in old(orderForm.fields) ==>
        outcome == Changed && orderForm == UpdateField(old(orderForm), id, newValue)
      ensures id !in old(orderForm.fields) ==>
        outcome == UnknownField(id) && orderForm == old(orderForm) && formIsValid == old(formIsValid)
    {
      if id !in orderForm.fields {
        return UnknownField(id);
      }
      // deepCopy: a Form is a value, so the copy shares nothing with
      // the state that other holders of the old form still see
      var updatedOrderForm := orderForm;
      var element := updatedOrderForm.fields[id];
      element := element.(value := newValue);
      var isValid := CheckValidity(element.value, element.validation);
      element := element.(valid := isValid);
      element := element.(touched := true);
      updatedOrderForm := updatedOrderForm.(fields := updatedOrderForm.fields[id := element]);
      assert updatedOrderForm == UpdateField(orderForm, id, newValue);
      UpdateKeepsInvariant(orderForm, id, newValue);

      var allValid := FormIsValid(updatedOrderForm);
      orderForm, formIsValid := updatedOrderForm, allValid;
      outcome := Changed;
    }

    /** The loop of `inputChangedHandler` that recomputes `formIsValid`:
        `formIsValid = updatedOrderForm[id].valid && formIsValid` over every
        key, starting from `true`. */
    static method FormIsValid(f: Form) returns (allValid: bool)
      requires WellFormed(f)
      ensures allValid <==> AllValid(f)
    {
      allValid := true;
      for i := 0 to |f.ids|
        invariant allValid <==> forall k :: 0 <= k < i ==> f.fields[f.ids[k]].valid
      {
        allValid := f.fields[f.ids[i]].valid && allValid;
      }
    }

    /** The `formData` loop of `orderHandler`: every field's identifier
        mapped to its current value. */
    method OrderFormData() returns (formData: map<FieldId, string>)
      requires WellFormed(orderForm)
      ensures formData.Keys == orderForm.fields.Keys
      ensures forall id :: id in formData ==> formData[id] == orderForm.fields[id].value
    {
      formData := map[];
      for i := 0 to |orderForm.ids|
        invariant forall id :: id in formData <==> id in orderForm.ids[..i]
        invariant forall id :: id in formData ==> id in orderForm.fields && formData[id] == orderForm.fields[id].value
      {
        var id := orderForm.ids[i];
        assert orderForm.ids[..i + 1] == orderForm.ids[..i] + [id];
        formData := formData[id := orderForm.fields[id].value];
      }
      assert orderForm.ids[..|orderForm.ids|] == orderForm.ids;
    }

    /** The `formElementsArray` loop of `render`: one entry per field, in the
        form's order, each carrying the field's whole configuration. */
    method FormElements() returns (elements: seq<FormElementEntry>)
      requires WellFormed(orderForm)
      ensures |elements| == |orderForm.ids|
      ensures forall k :: 0 <= k < |elements| ==>
        elements[k].id == orderForm.ids[k] && elements[k].config == orderForm.fields[orderForm.ids[k]]
      ensures forall id :: id in orderForm.fields <==> exists k :: 0 <= k < |elements| && elements[k].id == id
      ensures forall k, m :: 0 <= k < m < |elements| ==> elements[k].id != elements[m].id
    {
      elements := [];
      for i := 0 to |orderForm.ids|
        invariant |elements| == i
        invariant forall k :: 0 <= k < i ==>
          elements[k].id == orderForm.ids[k] && elements[k].config == orderForm.fields[orderForm.ids[k]]
      {
        var key := orderForm.ids[i];
        elements := elements + [FormElementEntry(key, orderForm.fields[key])];
      }
      forall id | id in orderForm.fields
        ensures exists k :: 0 <= k < |elements| && elements[k].id == id
      {
        var k :| 0 <= k < |orderForm.ids| && orderForm.ids[k] == id;
        assert elements[k].id == id;
      }
    }
  }
}
