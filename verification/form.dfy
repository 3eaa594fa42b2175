/**
 The registration form as an immutable value, and its per-field validators.
 Each validator reads one field's value (the zip validator also reads the
 `us` checkbox; the pizza validator reads which radio button is checked),
 picks the first rule the value breaks, and writes the outcome into that
 field's presentation slot: the error text and, for the four text inputs,
 the `aria-invalid` marker.
 */
module Form {
  import opened Text

  datatype Option<T> = None | Some(value: T)

  /** One text input: its current value, the text of its error element, and
      whether it carries `aria-invalid="true"`. */
  datatype Field = Field(value: string, error: string, invalid: bool)

  /** The whole form. `zipHidden` is the `hidden` class of the zip row;
      `pizza` is the value of the checked radio button, if any; `status` is
      the text of the form's status element. */
  datatype FormState = FormState(
    name: Field,
    yob: Field,
    us: bool,
    zipHidden: bool,
    zip: Field,
    password: Field,
    pizza: Option<string>,
    pizzaError: string,
    status: string)

  /** What a validator returns, paired with the form it leaves behind. */
  datatype Validated = Validated(ok: bool, state: FormState)

  const NameRequired := "Name is required."
  const NameTooShort := "Name must be at least 3 characters."
  const YobRequired := "Year of birth is required."
  const YobNotNumeric := "Enter an integer year (numbers only)."
  const YobTooEarly := "Year must be greater than 1900."
  const ZipRequired := "Zipcode is required."
  const ZipNotFiveDigits := "Zipcode must be 5 digits."
  const PasswordRequired := "Password is required."
  const PasswordTooShort := "Password must be at least 8 characters."
  const PizzaMissing := "Please select one option."

  function YobTooLate(currentYear: int): string {
    "Year must be less than " + IntText(currentYear) + "."
  }

  /** `setError`: the error element shows `message`. */
  function SetError(f: Field, message: string): (r: Field)
    ensures r.error == message
    ensures r.(error := f.error) == f
  {
    f.(error := message)
  }

  /** `setInvalid`: add or remove `aria-invalid`. */
  function SetInvalid(f: Field, isInvalid: bool): (r: Field)
    ensures r.invalid <==> isInvalid
    ensures r.(invalid := f.invalid) == f
  {
    f.(invalid := isInvalid)
  }

  /** The slot shows the verdict: a pass clears the text and the marker,
      a failure shows some text and sets the marker. */
  predicate Reflects(ok: bool, f: Field) {
    if ok then f.error == "" && !f.invalid else f.error != "" && f.invalid
  }

  /** The value of the year input once trimmed lies strictly inside the window. */
  predicate YearAccepted(t: string, currentYear: int) {
    IsNumeral(t) && 1900 < DigitsValue(t) < currentYear
  }

  function Fail(f: Field, message: string): Field {
    SetInvalid(SetError(f, message), true)
  }

  function Pass(f: Field): Field {
    SetInvalid(SetError(f, ""), false)
  }

  function ValidateName(s: FormState): (r: Validated)
    ensures r.state == s.(name := r.state.name)
    ensures r.state.name.value == s.name.value
    ensures Reflects(r.ok, r.state.name)
    ensures r.ok <==> |Trim(s.name.value)| >= 3
    ensures AllWhitespace(s.name.value) ==> r.state.name.error == NameRequired
    ensures 0 < |Trim(s.name.value)| < 3 ==> r.state.name.error == NameTooShort
  {
    var value := Trim(s.name.value);
    if |value| == 0 then Validated(false, s.(name := Fail(s.name, NameRequired)))
    else if |value| < 3 then Validated(false, s.(name := Fail(s.name, NameTooShort)))
    else Validated(true, s.(name := Pass(s.name)))
  }

  function ValidateYob(s: FormState, currentYear: int): (r: Validated)
    ensures r.state == s.(yob := r.state.yob)
    ensures r.state.yob.value == s.yob.value
    ensures Reflects(r.ok, r.state.yob)
    ensures r.ok <==> YearAccepted(Trim(s.yob.value), currentYear)
    ensures AllWhitespace(s.yob.value) ==> r.state.yob.error == YobRequired
    ensures var t := Trim(s.yob.value);
      t != [] && !AllDigits(t) ==> r.state.yob.error == YobNotNumeric
    ensures var t := Trim(s.yob.value);
      IsNumeral(t) && DigitsValue(t) <= 1900 ==> r.state.yob.error == YobTooEarly
    ensures var t := Trim(s.yob.value);
      IsNumeral(t) && 1900 < DigitsValue(t) && currentYear <= DigitsValue(t)
      ==> r.state.yob.error == YobTooLate(currentYear)
  {
    var raw := Trim(s.yob.value);
    if |raw| == 0 then Validated(false, s.(yob := Fail(s.yob, YobRequired)))
    else if !IsNumeral(raw) then Validated(false, s.(yob := Fail(s.yob, YobNotNumeric)))
    else
      var year := DigitsValue(raw);
      if year <= 1900 then Validated(false, s.(yob := Fail(s.yob, YobTooEarly)))
      else if year >= currentYear then Validated(false, s.(yob := Fail(s.yob, YobTooLate(currentYear))))
      else Validated(true, s.(yob := Pass(s.yob)))
  }

  /** Shows the zip row when `us` is checked; otherwise hides it and clears
      the zip value, its error text and its marker. */
  function ToggleZipVisibility(s: FormState): (r: FormState)
    ensures r.(zipHidden := s.zipHidden, zip := s.zip) == s
    ensures r.zipHidden <==> !s.us
    ensures s.us ==> r.zip == s.zip
    ensures !s.us ==> r.zip.value == "" && r.zip.error == "" && !r.zip.invalid
  {
    if s.us then s.(zipHidden := false)
    else s.(zipHidden := true, zip := SetInvalid(SetError(s.zip.(value := ""), ""), false))
  }

  function ValidateZip(s: FormState): (r: Validated)
    ensures r.state == s.(zip := r.state.zip)
    ensures r.state.zip.value == s.zip.value
    ensures Reflects(r.ok, r.state.zip)
    ensures r.ok <==> !s.us || IsFiveDigits(Trim(s.zip.value))
    ensures s.us && AllWhitespace(s.zip.value) ==> r.state.zip.error == ZipRequired
    ensures var t := Trim(s.zip.value);
      s.us && t != [] && !IsFiveDigits(t) ==> r.state.zip.error == ZipNotFiveDigits
  {
    var raw := Trim(s.zip.value);
    if !s.us then Validated(true, s.(zip := Pass(s.zip)))
    else if |raw| == 0 then Validated(false, s.(zip := Fail(s.zip, ZipRequired)))
    else if !IsFiveDigits(raw) then Validated(false, s.(zip := Fail(s.zip, ZipNotFiveDigits)))
    else Validated(true, s.(zip := Pass(s.zip)))
  }

  function ValidatePassword(s: FormState): (r: Validated)
    ensures r.state == s.(password := r.state.password)
    ensures r.state.password.value == s.password.value
    ensures Reflects(r.ok, r.state.password)
    ensures r.ok <==> |s.password.value| >= 8
    ensures s.password.value == [] ==> r.state.password.error == PasswordRequired
    ensures 0 < |s.password.value| < 8 ==> r.state.password.error == PasswordTooShort
  {
    var value := s.password.value;
    if |value| == 0 then Validated(false, s.(password := Fail(s.password, PasswordRequired)))
    else if |value| < 8 then Validated(false, s.(password := Fail(s.password, PasswordTooShort)))
    else Validated(true, s.(password := Pass(s.password)))
  }

  /** Only the pizza error text changes; no `aria-invalid` is touched. */
  function ValidatePizza(s: FormState): (r: Validated)
    ensures r.state == s.(pizzaError := r.state.pizzaError)
    ensures r.ok <==> s.pizza.Some?
    ensures r.state.pizzaError == if r.ok then "" else PizzaMissing
  {
    if s.pizza.None? then Validated(false, s.(pizzaError := PizzaMissing))
    else Validated(true, s.(pizzaError := ""))
  }

  /** `setError` then `setInvalid`, as every failing or passing branch does
      them: the slot then reflects the verdict and the typed value is kept. */
  lemma SlotWrites(f: Field, message: string)
    requires message != ""
    ensures Reflects(false, Fail(f, message)) && Fail(f, message).error == message
    ensures Reflects(true, Pass(f))
    ensures Fail(f, message).value == f.value && Pass(f).value == f.value
  {
  }

  /** Hiding or showing the zip row a second time changes nothing. */
  lemma ToggleIdempotent(s: FormState)
    ensures ToggleZipVisibility(ToggleZipVisibility(s)) == ToggleZipVisibility(s)
  {
  }

  /** With `us` unchecked, toggling and then validating the zip (what both the
      checkbox's change handler and the submit handler do) always passes and
      leaves an empty, unmarked zip field behind a hidden row. */
  lemma UncheckedZipCleared(s: FormState)
    requires !s.us
    ensures var r := ValidateZip(ToggleZipVisibility(s));
      r.ok && r.state.zipHidden && r.state.zip == Field("", "", false)
  {
  }

  /** A validator only reads its input's value, which it never changes, so
      running it again on its own output gives the same verdict and form. */
  lemma NameIdempotent(s: FormState)
    ensures ValidateName(ValidateName(s).state) == ValidateName(s)
  {
  }

  lemma YobIdempotent(s: FormState, currentYear: int)
    ensures ValidateYob(ValidateYob(s, currentYear).state, currentYear) == ValidateYob(s, currentYear)
  {
  }

  lemma ZipIdempotent(s: FormState)
    ensures ValidateZip(ValidateZip(s).state) == ValidateZip(s)
  {
  }

  lemma PasswordIdempotent(s: FormState)
    ensures ValidatePassword(ValidatePassword(s).state) == ValidatePassword(s)
  {
  }

  lemma PizzaIdempotent(s: FormState)
    ensures ValidatePizza(ValidatePizza(s).state) == ValidatePizza(s)
  {
  }

  /** Each validator reads nothing outside its own field (and, for the zip,
      the `us` flag), so forms that agree there get the same verdict and slot. */
  lemma NameLocal(s: FormState, t: FormState)
    requires s.name == t.name
    ensures ValidateName(s).ok == ValidateName(t).ok
    ensures ValidateName(s).state.name == ValidateName(t).state.name
  {
  }

  lemma YobLocal(s: FormState, t: FormState, currentYear: int)
    requires s.yob == t.yob
    ensures ValidateYob(s, currentYear).ok == ValidateYob(t, currentYear).ok
    ensures ValidateYob(s, currentYear).state.yob == ValidateYob(t, currentYear).state.yob
  {
  }

  lemma ZipLocal(s: FormState, t: FormState)
    requires s.zip == t.zip && s.us == t.us
    ensures ValidateZip(s).ok == ValidateZip(t).ok
    ensures ValidateZip(s).state.zip == ValidateZip(t).state.zip
  {
  }

  lemma PasswordLocal(s: FormState, t: FormState)
    requires s.password == t.password
    ensures ValidatePassword(s).ok == ValidatePassword(t).ok
    ensures ValidatePassword(s).state.password == ValidatePassword(t).state.password
  {
  }

  lemma PizzaLocal(s: FormState, t: FormState)
    requires s.pizza == t.pizza
    ensures ValidatePizza(s).ok == ValidatePizza(t).ok
    ensures ValidatePizza(s).state.pizzaError == ValidatePizza(t).state.pizzaError
  {
  }

  /** The year typed as its decimal numeral, with any surrounding whitespace,
      is accepted exactly when it lies strictly between 1900 and the current year. */
  lemma YearWindow(s: FormState, front: string, y: nat, back: string, currentYear: int)
    requires AllWhitespace(front) && AllWhitespace(back)
    ensures ValidateYob(s.(yob := s.yob.(value := front + Decimal(y) + back)), currentYear).ok
            <==> 1900 < y < currentYear
  {
    TrimPadded(front, Decimal(y), back);
    DecimalRoundTrip(y);
  }

  /** The same, typed without surrounding whitespace. */
  lemma YearNumeral(s: FormState, y: nat, currentYear: int)
    ensures ValidateYob(s.(yob := s.yob.(value := Decimal(y))), currentYear).ok <==> 1900 < y < currentYear
  {
    TrimUnpadded(Decimal(y));
    DecimalRoundTrip(y);
  }

  /** A leading zero does not change the verdict, as `parseInt` ignores it. */
  lemma ZeroPaddedYear(s: FormState, y: nat, currentYear: int)
    ensures ValidateYob(s.(yob := s.yob.(value := "0" + Decimal(y))), currentYear).ok
            <==> 1900 < y < currentYear
  {
    ZeroNumeral(Decimal(y));
    DecimalRoundTrip(y);
  }

  /** The typed year 1900 is rejected and 1901 accepted (when the current year is later). */
  lemma LowerBoundary(s: FormState, currentYear: int)
    requires currentYear > 1901
    ensures !ValidateYob(s.(yob := s.yob.(value := "1900")), currentYear).ok
    ensures ValidateYob(s.(yob := s.yob.(value := "1901")), currentYear).ok
  {
    EarlyNumerals();
    YearNumeral(s, 1900, currentYear);
    YearNumeral(s, 1901, currentYear);
  }

  /** The current year is rejected and the year before it accepted. */
  lemma UpperBoundary(s: FormState, currentYear: int)
    requires currentYear > 1901
    ensures !ValidateYob(s.(yob := s.yob.(value := Decimal(currentYear))), currentYear).ok
    ensures ValidateYob(s.(yob := s.yob.(value := Decimal(currentYear - 1))), currentYear).ok
  {
    YearNumeral(s, currentYear, currentYear);
    YearNumeral(s, currentYear - 1, currentYear);
  }

  lemma EarlyNumerals()
    ensures Decimal(1900) == "1900" && Decimal(1901) == "1901"
  {
    assert Decimal(1) == "1" && Decimal(19) == "19" && Decimal(190) == "190";
  }

  /** With `us` checked, a string of digits is accepted as a zip code exactly
      when it has five of them. */
  lemma ZipDigitCount(s: FormState, d: string)
    requires s.us && IsNumeral(d)
    ensures ValidateZip(s.(zip := s.zip.(value := d))).ok <==> |d| == 5
  {
    assert Unpadded(d);
    TrimPadded("", d, "");
    assert "" + d + "" == d;
  }

  lemma ZipExamples(s: FormState)
    requires s.us
    ensures !ValidateZip(s.(zip := s.zip.(value := "1234"))).ok
    ensures ValidateZip(s.(zip := s.zip.(value := "12345"))).ok
    ensures !ValidateZip(s.(zip := s.zip.(value := "123456"))).ok
  {
    ZipDigitCount(s, "1234");
    ZipDigitCount(s, "12345");
    ZipDigitCount(s, "123456");
  }

  /** The password is not trimmed: eight spaces pass as a password while the
      same text is an empty name. */
  lemma PasswordNotTrimmed(s: FormState)
    ensures var t := s.(password := s.password.(value := "        "), name := s.name.(value := "        "));
      ValidatePassword(t).ok && ValidateName(t).state.name.error == NameRequired
  {
  }
}
