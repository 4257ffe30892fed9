# Checkout contact form: a verified Dafny model

This project models the contact-data step of the burger-ordering app's
checkout: the `ContactData` component's form state and the logic around it.

- **The form.** `state.orderForm` has six fields in a fixed order: name,
  street, zip code, country, e-mail and delivery method. Each field has a
  configuration, a current value, validation rules, a `valid` flag and a
  `touched` flag. Alongside the form, `state.formIsValid` holds the verdict
  for the whole form.
- **`checkValidity`** checks one value against a field's rules: `required`,
  `minLength`, `maxLength`, `isEmail` (an unanchored, lower-case-only regular
  expression) and `isNumeric` (`^\d+$`).
- **`inputChangedHandler`** stores a typed value in a deep copy of the form,
  sets the field's verdict and `touched`, recomputes `formIsValid` over every
  field, and installs the copy.
- **`orderHandler`** builds `formData`, which maps each field id to its value.
- **`render`** builds `formElementsArray`, the ordered `{id, config}` list
  that the renderer draws.

The model has four modules.

- `EmailPattern` (email_pattern.dfy) handles the `isEmail` expression. It has
  two definitions:
  - a reference grammar that follows the expression group by group and
    quantifies over every substring, which is what an unanchored `test` does;
  - a direct matcher (`ContainsEmail`).

  The module proves the two definitions equal.
- `Validation` (validation.dfy) covers the following:
  - the rule record, with a limit of 0 meaning "absent" as in the source's
    truthiness tests;
  - `String.prototype.trim`, removing ECMAScript WhiteSpace and
    LineTerminator characters;
  - `^\d+$`;
  - `Satisfies`, the verdict of `checkValidity`.

  Lemmas here relate the verdict to the list of tests the source runs,
  executed in any order, and to a statement of each rule on its own terms.
- `OrderForm` (order_form.dfy) holds the form as a value: its ids in
  enumeration order and a map from id to field. `UpdateField` is the form
  `inputChangedHandler` builds, and its properties are proved as lemmas. This
  module also holds the initial form.
- `Checkout` (contact_data.dfy) holds the class `ContactData`, with the
  mutable fields `orderForm` and `formIsValid` and the component's operations
  as methods with loops. The class invariant `Valid()` says three things:
  - the ids are distinct and are exactly the map's keys;
  - each field's flag is its rules' verdict on its value;
  - `formIsValid` is the conjunction of the flags.

  The constructor establishes the invariant and every update preserves it.

There are two kinds of deviation from the source.

- **The deep copy.** `deepCopy` is modelled by value semantics. A `Form` is an
  immutable datatype, so the form an update starts from is left as it was,
  and any snapshot taken before the call still holds the old value.
- **An unknown id.** The source reads `updatedOrderForm[inputIdentifier].value`
  for an id the form does not have, which throws before `setState` runs. The
  model returns `UnknownField(id)` and leaves the state unchanged.

The initial flags were checked against the rules. Five text fields start
empty with `required` and so are invalid. The delivery method has `{}` and is
valid. So the initial `formIsValid: false` is the conjunction of the flags.

## Model

| member | source | states |
|---|---|---|
| EmailPattern.ContainsEmailIsPatternTest | src/containers/Checkout/ContactData/ContactData.js:148-151 | the direct matcher returns exactly what `test` of the unanchored e-mail expression returns: some substring belongs to the expression's language |
| EmailPattern.ContainsEmailSurrounded | src/containers/Checkout/ContactData/ContactData.js:149-150 | a value that matches still matches with any text before and after it |
| EmailPattern.EmailSurrounded | src/containers/Checkout/ContactData/ContactData.js:149-150 | since the expression has no anchors, a value with a matching substring passes `test` whatever surrounds it |
| EmailPattern.NoAtNoEmail | src/containers/Checkout/ContactData/ContactData.js:149 | a value without '@' never matches |
| EmailPattern.NoDomainCharNoEmail | src/containers/Checkout/ContactData/ContactData.js:149 | a value with no lower-case ASCII letter and no digit never matches, because the expression has no `i` flag |
| EmailPattern.ShortAddressMatches | src/containers/Checkout/ContactData/ContactData.js:149-150 | "a@b.co" matches |
| EmailPattern.ExamplesThatFail | src/containers/Checkout/ContactData/ContactData.js:149-150 | "not-an-email" and the upper-case "A@B.CO" do not match |
| Validation.TrimStart | src/containers/Checkout/ContactData/ContactData.js:137 | the result is a suffix of the value, everything removed is white space, and the result does not start with white space |
| Validation.TrimEnd | src/containers/Checkout/ContactData/ContactData.js:137 | the result is a prefix of the value, everything removed is white space, and the result does not end with white space |
| Validation.TrimEmptyIffBlank | src/containers/Checkout/ContactData/ContactData.js:136-138 | `value.trim() !== ''` fails exactly when every character is white space, the empty value included |
| Validation.TrimKeepsUnpadded | src/containers/Checkout/ContactData/ContactData.js:137 | `trim` returns a value with no white space at either end unchanged |
| Validation.IsNumericIsDigits | src/containers/Checkout/ContactData/ContactData.js:153-156 | the `isNumeric` test (non-empty, every character in '0'..'9') is the language of `^\d+$`, read as a grammar |
| Validation.SatisfiesIsAllChecks | src/containers/Checkout/ContactData/ContactData.js:131-157 | a value is valid under a rule record exactly when it passes every test the record switches on; absent rules and limits of 0 switch none on |
| Validation.RunChecksIsConjunction | src/containers/Checkout/ContactData/ContactData.js:136-156 | the chain `isValid = <test> && isValid` computes the starting value AND every test in the chain |
| Validation.RunChecksOrderFree | src/containers/Checkout/ContactData/ContactData.js:132-157 | running the record's tests in any order, starting from `true`, gives the same verdict as the source's order |
| Validation.SatisfiesMeaning | src/containers/Checkout/ContactData/ContactData.js:131-158 | validity, rule by rule: `required` asks for a character that is not white space; a positive `minLength`/`maxLength` bounds the length; `isEmail` is the expression's `test`; `isNumeric` is `^\d+$`; with no record every value is valid |
| Validation.NoRulesAlwaysValid | src/containers/Checkout/ContactData/ContactData.js:131-135 | with no `validation`, or with `{}` as the delivery method has, every value is valid |
| Validation.MinLengthBoundary | src/containers/Checkout/ContactData/ContactData.js:140-142 | `minLength n` alone, with n > 0, passes exactly when the length is at least n, and a value of length exactly n passes |
| Validation.ZeroLimitIsNoLimit | src/containers/Checkout/ContactData/ContactData.js:140-146 | a limit of 0 fails the truthiness test and is skipped: `maxLength: 0` accepts what every limit the value meets accepts, and likewise for `minLength: 0` |
| Validation.ZipRulesMeaning | src/containers/Checkout/ContactData/ContactData.js:47-50 | the zip code rules accept exactly the values of six ASCII digits |
| Validation.ZipCodeExamples | src/containers/Checkout/ContactData/ContactData.js:153-156 | under the zip code rules "123456" passes; "12a456" and "12345" fail |
| Validation.NumericExamples | src/containers/Checkout/ContactData/ContactData.js:153-156 | under `isNumeric` alone "123456" passes and "abc123" fails |
| Validation.RequiredExamples | src/containers/Checkout/ContactData/ContactData.js:136-138 | under `required` "" and "  " fail and "x" passes |
| OrderForm.UpdateFieldEffect | src/containers/Checkout/ContactData/ContactData.js:173-176 | after an update the field holds the new value, its rules' verdict on it and `touched`; its type, configuration and rules are kept; every other field, the keys and their order are unchanged |
| OrderForm.UpdateKeepsInvariant | src/containers/Checkout/ContactData/ContactData.js:173-176 | an update keeps the ids distinct and equal to the keys, and keeps every flag equal to its rules' verdict |
| OrderForm.UpdateLastWins | src/containers/Checkout/ContactData/ContactData.js:173-176 | of two updates of one field only the last is visible; repeating an update changes nothing |
| OrderForm.UpdatesCommute | src/containers/Checkout/ContactData/ContactData.js:173-176 | updates of two different fields can be applied in either order |
| OrderForm.UpdateTouchedMonotone | src/containers/Checkout/ContactData/ContactData.js:176 | a touched field stays touched |
| OrderForm.AllValidAfterUpdate | src/containers/Checkout/ContactData/ContactData.js:177-180 | after an update every field is valid exactly when the new value passes its rules and every other field was valid |
| OrderForm.AllValidMeansAllSatisfied | src/containers/Checkout/ContactData/ContactData.js:175-180 | in a form whose flags are up to date, "every flag set" means "every value passes its rules" |
| OrderForm.InitialFormWellFormed | src/containers/Checkout/ContactData/ContactData.js:12-101 | the initial form has the six keys, each once |
| OrderForm.InitialKeys | src/containers/Checkout/ContactData/ContactData.js:12-101 | a key of the initial form is one of the six field names |
| OrderForm.EmptyFailsRequired | src/containers/Checkout/ContactData/ContactData.js:19-23 | an empty value fails any record with `required`, which is why the required fields start with `valid: false` |
| OrderForm.InitialFormConsistent | src/containers/Checkout/ContactData/ContactData.js:11-101 | each hand-set initial flag equals the rules' verdict on the initial value |
| OrderForm.InitialFormFacts | src/containers/Checkout/ContactData/ContactData.js:11-102 | the initial form is not valid, as `formIsValid: false` says; no field is touched; the delivery method accepts every value |
| OrderForm.FieldRulesMeaning | src/containers/Checkout/ContactData/ContactData.js:13-81 | the rules of the name, street and country fields ask for a non-blank value; the e-mail field's rules also ask for a match; the zip code's rules ask for six digits |
| OrderForm.UnpaddedPassesRequired | src/containers/Checkout/ContactData/ContactData.js:136-138 | a non-empty value with no white space at either end passes `required` |
| OrderForm.UnpaddedAddressPasses | src/containers/Checkout/ContactData/ContactData.js:75-78 | a matching address with no white space at either end passes the e-mail field's rules |
| OrderForm.FilledFlags | src/containers/Checkout/ContactData/ContactData.js:173-176 | after filling in the five text fields each flag is its rules' verdict on the typed value, the delivery method stays valid and the keys are unchanged |
| OrderForm.FilledFormValidity | src/containers/Checkout/ContactData/ContactData.js:177-180 | once the five text fields are filled in, the form is valid exactly when each value passes its field's rules |
| OrderForm.ZipFieldScenario | src/containers/Checkout/ContactData/ContactData.js:173-180 | typing "12a456" into the zip code leaves the field and the form invalid; typing "123456" over it makes the field valid |
| Checkout.ContactData.constructor | src/containers/Checkout/ContactData/ContactData.js:11-104 | the component starts with the initial form and `formIsValid` false, and the class invariant holds |
| Checkout.ContactData.CheckValidity | src/containers/Checkout/ContactData/ContactData.js:131-158 | the chain of reassignments returns the validity verdict on the value and the rules |
| Checkout.ContactData.InputChanged | src/containers/Checkout/ContactData/ContactData.js:160-185 | for a known id the new form is the update of the old one and `formIsValid` is the conjunction of the new flags; an unknown id is reported and nothing changes; the class invariant is preserved |
| Checkout.ContactData.FormIsValid | src/containers/Checkout/ContactData/ContactData.js:177-180 | the `for...in` fold yields true exactly when every field's flag is set |
| Checkout.ContactData.OrderFormData | src/containers/Checkout/ContactData/ContactData.js:110-113 | `formData` has exactly the form's ids as keys, each mapped to that field's current value |
| Checkout.ContactData.FormElements | src/containers/Checkout/ContactData/ContactData.js:188-195 | `formElementsArray` has one entry per field, in enumeration order: id k carries field k's whole configuration; the ids are distinct and are exactly the form's keys |

## Left out

- The submission itself is not modelled: `axios.post`, its callbacks, `history.push`, and toggling the `loading` flag (ContactData.js:109, 114-127). These are network I/O and asynchronous control flow. The model keeps only the `formData` loop.
- Redux `connect` and `mapStateToProps` (ContactData.js:225-232) are not modelled. The `ings`/`price` props are opaque data handed to the request.
- The JSX output of `render` is not modelled: the `Input`/`Button`/`Spinner` props, CSS classes, the `loading` spinner, and the `invalid={config.valid}` prop. Only the ordered element list is modelled.
- `window.event`, `preventDefault` and `console.log` are not modelled; they are browser plumbing.
- `event.target.value` becomes the parameter `newValue` of `InputChanged`.
- The body of `deepCopy` is not part of this model. Its effect is modelled as a value copy: a `Form` is an immutable value.
- `setState` is modelled as a direct assignment of the two fields. React's batching and re-render are not modelled.
- Characters outside the Basic Multilingual Plane are not modelled. JavaScript counts such a character as two code units for `length`; the model counts it as one. Lone surrogates cannot be represented.
- Rule values that are not booleans and limits that are not natural numbers are not modelled. Examples are `required: "yes"`, a negative or fractional `minLength`, and `NaN`. The record the source builds uses only `true` and positive integers.
- The form's id order is taken as given. The source's ids are not integer-like, so JavaScript's `for...in` enumerates them in insertion order, and `InitialForm` lists them in that order.
- Checkout.ContactData.InputChanged: for an unknown id the source throws a `TypeError` before `setState`. The model returns an `UnknownField` outcome with the state unchanged. It does not model the exception propagating out of the event handler.
- No general regular-expression engine is modelled. The model encodes only the two fixed expressions, as predicates.
