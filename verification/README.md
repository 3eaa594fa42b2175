# Registration-form validation, modelled in Dafny

The model covers the client-side validation of a registration form
(`assignment5/script.js`). The form has five fields:

- a name;
- a year of birth;
- a "US resident" checkbox (`us`) that reveals a zip-code field;
- a password;
- a single-choice pizza radio group.

Each validator reads one field (the year validator also reads the current
year). The zip validator also reads the `us`
checkbox, and the pizza validator reads which radio button is checked. A
validator applies its rules in a fixed order, and the first rule the value breaks
wins. The validator writes the outcome into the field's slot: the text of
its error element and, for the four text inputs, its `aria-invalid` marker.
The submit handler runs the name and year validators, re-applies the zip
row's visibility, runs the zip validator, then the password and pizza
validators. The results are combined with bitwise `&`, so none is skipped,
and "Accepted" is shown only when every one passes.

The browser page becomes an immutable `Form.FormState` value. Every
handler becomes a pure function from one state to the next.

- `text.dfy`, module `Text`: the string primitives the script relies on.
  - `String.prototype.trim`, with ECMAScript's exact WhiteSpace and
    LineTerminator set.
  - The ASCII digit class `\d`, behind `/^\d+$/` and `/^\d{5}$/`.
  - `parseInt(raw, 10)` on a digit string, as the exact integer value of
    the digits.
  - The decimal rendering of a number inside a template literal.
- `form.dfy`, module `Form`: the field and form datatypes and the message
  constants.
  - `setError` and `setInvalid` become `SetError` and `SetInvalid`.
  - The five validators and `toggleZipVisibility`, with the facts about them.
- `submit.dfy`, module `Submission`: the submit handler and the two example
  submissions.

The clock read `new Date().getFullYear()` becomes the `currentYear`
parameter. The DOM becomes record fields:

| element | record field |
|---|---|
| input values | `Field.value` |
| `*-error` elements | `Field.error` and `pizzaError` |
| `aria-invalid` | `Field.invalid` |
| the zip row's `hidden` class | `zipHidden` |
| the checked radio | `pizza` |
| `form-status` text | `status` |

With `us` unchecked the zip slot never complains. So name "Al", year 2030
(when the current year is at most 2030), an empty zip, password "short" and
no pizza make exactly four fields complain: `Submission.RejectedScenario`
proves that the zip slot stays clear.

## Model

| member | source | states |
|---|---|---|
| Text.IsWhitespace | assignment5/script.js:17 | A character is removed by `trim` exactly when its code point is in ECMAScript's WhiteSpace or LineTerminator tables, listed one by one. No ASCII digit is such a character. |
| Text.IsNumeral | assignment5/script.js:30 | A match of `/^\d+$/` has no whitespace at either end, so trimming never changes it. |
| Text.IsFiveDigits | assignment5/script.js:62 | A match of `/^\d{5}$/` is also a match of `/^\d+$/`, and its value is below 100000. |
| Text.DigitsValue | assignment5/script.js:31 | The exact value of a k-digit string is below 10^k. It is at least 10^(k-1) when the string is a numeral without a leading zero. `DecimalRoundTrip` and `LeadingZeroIgnored` relate it to the decimal numeral. |
| Text.Trim | assignment5/script.js:17 | The result is the input with a whitespace-only prefix and suffix cut off, and it has no whitespace at either end. It is empty exactly when the input is all whitespace. |
| Text.TrimUnique | assignment5/script.js:17 | Any way of cutting whitespace off both ends that leaves no whitespace at the ends gives exactly `Trim`'s result, so trimming is determined by that description. |
| Text.TrimPadded | assignment5/script.js:17 | Whitespace added before and after an unpadded text is exactly what `trim` removes. |
| Text.DecimalRoundTrip | assignment5/script.js:31 | Reading the decimal numeral of `n` as `parseInt` does gives back the exact value `n`. |
| Text.LeadingZeroIgnored | assignment5/script.js:31 | A leading zero does not change the value, as with `parseInt`. |
| Text.IntText | assignment5/script.js:34 | The text of `${currentYear}` is a numeral whose value is the year, without a leading zero, with a minus sign in front for a negative year. |
| Form.SetError | assignment5/script.js:3 | The error text becomes the given message, and nothing else in the field changes. |
| Form.SetInvalid | assignment5/script.js:5-11 | The field is marked invalid exactly when asked to be, and nothing else in the field changes. |
| Form.SlotWrites | assignment5/script.js:3-11 | `setError` with a non-empty message followed by `setInvalid(true)` leaves a slot that shows the failure. `setError("")` with `setInvalid(false)` leaves a clear slot. Neither changes the typed value. |
| Form.ValidateName | assignment5/script.js:14-21 | Passes exactly when the trimmed name has at least 3 characters. An all-whitespace name gets "Name is required."; 1 or 2 characters get the length message. The slot reflects the verdict, and nothing else in the form changes. |
| Form.ValidateYob | assignment5/script.js:24-36 | Passes exactly when the trimmed year is all ASCII digits and its value lies strictly between 1900 and the current year. Each failure gets its rule's message, in order: required, numbers only, greater than 1900, less than the current year (rendered). The slot reflects the verdict, and nothing else changes. |
| Form.ToggleZipVisibility | assignment5/script.js:39-52 | The zip row is hidden exactly when `us` is unchecked. Hiding empties the zip value, its error text and its marker. Showing leaves the zip field as it was. Nothing else changes. |
| Form.ValidateZip | assignment5/script.js:55-64 | Passes exactly when `us` is unchecked or the trimmed zip is exactly five ASCII digits. With `us` checked, an all-whitespace zip gets "Zipcode is required." and any other non-five-digit value gets "Zipcode must be 5 digits.". The slot reflects the verdict, and the value is never changed. |
| Form.ValidatePassword | assignment5/script.js:67-74 | Passes exactly when the untrimmed password has at least 8 characters. An empty one gets "Password is required."; 1 to 7 characters get the length message. The slot reflects the verdict. |
| Form.ValidatePizza | assignment5/script.js:77-82 | Passes exactly when a pizza option is checked, and otherwise shows "Please select one option.". Only the pizza error text changes; no invalid marker is touched. |
| Form.UncheckedZipCleared | assignment5/script.js:39-64 | With `us` unchecked, toggling then validating the zip always passes and leaves an empty, unmarked zip field in a hidden row, whatever was typed before. |
| Form.ToggleIdempotent | assignment5/script.js:39-52 | Applying the toggle twice gives the same form as applying it once. |
| Form.NameIdempotent | assignment5/script.js:14-21 | Re-running the name validator on its own output changes neither the verdict nor the form. |
| Form.YobIdempotent | assignment5/script.js:24-36 | Re-running the year validator on its own output changes neither the verdict nor the form. |
| Form.ZipIdempotent | assignment5/script.js:55-64 | Re-running the zip validator on its own output changes neither the verdict nor the form. |
| Form.PasswordIdempotent | assignment5/script.js:67-74 | Re-running the password validator on its own output changes neither the verdict nor the form. |
| Form.PizzaIdempotent | assignment5/script.js:77-82 | Re-running the pizza validator on its own output changes neither the verdict nor the form. |
| Form.NameLocal | assignment5/script.js:14-21 | The name verdict and slot depend only on the name field. |
| Form.YobLocal | assignment5/script.js:24-36 | The year verdict and slot depend only on the year field and the current year. |
| Form.ZipLocal | assignment5/script.js:55-64 | The zip verdict and slot depend only on the zip field and the `us` flag. |
| Form.PasswordLocal | assignment5/script.js:67-74 | The password verdict and slot depend only on the password field. |
| Form.PizzaLocal | assignment5/script.js:77-82 | The pizza verdict and error text depend only on which option is checked. |
| Form.YearWindow | assignment5/script.js:27-35 | A year typed as its decimal numeral, with any whitespace around it, is accepted exactly when 1900 < year < currentYear. |
| Form.YearNumeral | assignment5/script.js:29-35 | The same window holds for the bare numeral. |
| Form.ZeroPaddedYear | assignment5/script.js:30-35 | A zero in front of the numeral does not change the verdict. |
| Form.LowerBoundary | assignment5/script.js:33 | "1900" is rejected and "1901" is accepted whenever the current year is after 1901. |
| Form.UpperBoundary | assignment5/script.js:34 | The current year is rejected and the year before it is accepted, whenever the current year is after 1901. |
| Form.ZipDigitCount | assignment5/script.js:61-63 | With `us` checked, a non-empty digit string passes exactly when it has five digits. |
| Form.ZipExamples | assignment5/script.js:62 | With `us` checked, "1234" and "123456" are rejected and "12345" is accepted. |
| Form.PasswordNotTrimmed | assignment5/script.js:70-72 | Eight spaces are a valid password, while the same text as a name is "required". |
| Submission.Submit | assignment5/script.js:104-121 | The form is accepted exactly when each field holds an acceptable value. Equivalently, it is accepted exactly when all five validators pass, with zip checked after the toggle. Every slot ends up as its own validator would write it for the submitted values, so no validator is skipped. The status is "Accepted" exactly when the form is accepted, and "" otherwise. A refused form always shows at least one complaint. |
| Submission.SubmitIdempotent | assignment5/script.js:104-121 | Submitting a second time changes nothing. |
| Submission.RejectedScenario | assignment5/script.js:104-121 | Name "Al", year 2030 (current year at most 2030), `us` unchecked, password "short", no pizza: name, year, password and pizza complain with their messages, the zip slot stays clear, and the status is empty. |
| Submission.AcceptedScenario | assignment5/script.js:104-121 | Name "Alice", year 1990, zip 90210 with `us` checked, password "longenough", a pizza chosen: accepted, with status "Accepted", whenever the current year is after 1990. |

## Left out

- The `Number.isInteger` check (line 32) is not modelled. `parseInt` of a string of ASCII digits fails to be an integer only when its value is so large that it overflows to `Infinity`, which is floating-point behaviour. With unbounded integers this branch cannot be reached, and its message "Enter an integer year." is never produced. For a numeral whose value is at least about 1.8×10^308 (309 or more significant digits; leading zeros do not count), the model therefore shows "Year must be less than …" where the browser shows "Enter an integer year.".
- Text.DigitsValue: the model uses the exact integer value of the digit string, while `parseInt` returns a double, so a value above 2^53 is rounded to the nearest double (17 nines parse as 10^17). No verdict or message changes. Rounding to a double is monotone, and it leaves 1900 and any realistic current year unchanged, so `year <= 1900` and `year >= currentYear` (lines 33-34) decide the same way for the rounded and the exact value. The parsed value itself never appears in a message.
- The DOM wiring is left out: `document.getElementById`, `addEventListener` and the `DOMContentLoaded` setup (lines 84-102). Each handler is a function on `FormState`, and the events that call them are not modelled.
- The transient "Validating…" status text (line 107) and the `success` CSS class (lines 106 and 118) are left out. The text is overwritten before the handler returns, and the class is styling only. Only the final status text is modelled.
- `e.preventDefault()` (line 105) is not modelled, since the model never submits anything.
- `Form.ValidateName`: lengths count Unicode scalar values, while JavaScript's `length` counts UTF-16 code units. A name made of characters outside the Basic Multilingual Plane is shorter here than in the browser.
- `Form.ValidatePassword`: lengths are counted the same way as for the name, so they can differ in the same way.
- The `|| ""` fallbacks on input values and messages (lines 3, 17, 27, 59, 70) do nothing for string values, so the model has no null values.
- The current year is a parameter rather than a clock read.
