/**
 The form's submit handler: revalidate every field in order (name, year,
 then the zip row's visibility re-applied just before the zip, then
 password and pizza), and accept the form only when all five validators
 pass. The validators are combined with bitwise `&`, so none of
 them is skipped and every error slot is rewritten on each submission.
 */
module Submission {
  import opened Text
  import opened Form

  const Accepted := "Accepted"

  /** JavaScript's coercion of a boolean operand of `&` to 0 or 1. */
  function Bit(b: bool): bv1 {
    if b then 1 else 0
  }

  /** What each field must hold for the form to be accepted, read off the
      values the user typed. */
  predicate Acceptable(s: FormState, currentYear: int) {
    && |Trim(s.name.value)| >= 3
    && YearAccepted(Trim(s.yob.value), currentYear)
    && (!s.us || IsFiveDigits(Trim(s.zip.value)))
    && |s.password.value| >= 8
    && s.pizza.Some?
  }

  function Submit(s: FormState, currentYear: int): (r: Validated)
    ensures r.ok <==> Acceptable(s, currentYear)
    ensures r.ok <==> && ValidateName(s).ok && ValidateYob(s, currentYear).ok
                      && ValidateZip(ToggleZipVisibility(s)).ok
                      && ValidatePassword(s).ok && ValidatePizza(s).ok
    ensures r.state.status == if r.ok then Accepted else ""
    // every slot holds what its own validator writes for the submitted values
    ensures r.state.name == ValidateName(s).state.name
    ensures r.state.yob == ValidateYob(s, currentYear).state.yob
    ensures r.state.zip == ValidateZip(ToggleZipVisibility(s)).state.zip
    ensures r.state.password == ValidatePassword(s).state.password
    ensures r.state.pizzaError == ValidatePizza(s).state.pizzaError
    ensures r.state.zipHidden <==> !s.us
    ensures r.state.us == s.us && r.state.pizza == s.pizza
    // a refused form always shows at least one complaint
    ensures !r.ok ==> r.state.name.invalid || r.state.yob.invalid || r.state.zip.invalid
                      || r.state.password.invalid || r.state.pizzaError != ""
  {
    var name := ValidateName(s);
    var yob := ValidateYob(name.state, currentYear);
    var zip := ValidateZip(ToggleZipVisibility(yob.state));
    var password := ValidatePassword(zip.state);
    var pizza := ValidatePizza(password.state);
    YobLocal(s, name.state, currentYear);
    ZipLocal(ToggleZipVisibility(s), ToggleZipVisibility(yob.state));
    PasswordLocal(s, zip.state);
    PizzaLocal(s, password.state);
    var ok := Bit(name.ok) & Bit(yob.ok) & Bit(zip.ok) & Bit(password.ok) & Bit(pizza.ok);
    Validated(ok == 1, pizza.state.(status := if ok == 1 then Accepted else ""))
  }

  /** Submitting twice in a row changes nothing the second time. */
  lemma SubmitIdempotent(s: FormState, currentYear: int)
    ensures Submit(Submit(s, currentYear).state, currentYear) == Submit(s, currentYear)
  {
  }

  /** Name "Al", year 2030, `us` unchecked with an empty zip, password
      "short" and no pizza chosen; the other slots as in `init`. */
  function ShortEntries(init: FormState): FormState {
    init.(name := init.name.(value := "Al"), yob := init.yob.(value := "2030"),
          us := false, zip := init.zip.(value := ""),
          password := init.password.(value := "short"), pizza := None)
  }

  /** Name "Alice", year 1990, `us` checked with zip 90210, password
      "longenough" and pizza `choice`; the other slots as in `init`. */
  function GoodEntries(init: FormState, choice: string): FormState {
    init.(name := init.name.(value := "Alice"), yob := init.yob.(value := "1990"),
          us := true, zip := init.zip.(value := "90210"),
          password := init.password.(value := "longenough"), pizza := Some(choice))
  }

  lemma ShortEntriesFields(init: FormState)
    ensures var s := ShortEntries(init);
      |Trim(s.name.value)| == 2 && IsNumeral(Trim(s.yob.value)) && DigitsValue(Trim(s.yob.value)) == 2030
  {
    TrimUnpadded("Al");
    Year2030();
  }

  lemma Year2030()
    ensures Trim("2030") == "2030" && IsNumeral("2030") && DigitsValue("2030") == 2030
  {
    TrimUnpadded("2030");
    assert "2030"[..3] == "203" && "203"[..2] == "20" && "20"[..1] == "2";
  }

  lemma Year1990()
    ensures Trim("1990") == "1990" && IsNumeral("1990") && DigitsValue("1990") == 1990
  {
    TrimUnpadded("1990");
    assert "1990"[..3] == "199" && "199"[..2] == "19" && "19"[..1] == "1";
  }

  /** Submitting the short entries before 2031: the name, year, password and
      pizza slots all complain, the zip slot (not required) does not, and
      nothing is accepted. */
  lemma RejectedScenario(init: FormState, currentYear: int)
    requires currentYear <= 2030
    ensures var r := Submit(ShortEntries(init), currentYear);
            && r.state.name.error == NameTooShort
            && r.state.yob.error == YobTooLate(currentYear)
            && r.state.zip.error == "" && !r.state.zip.invalid
            && r.state.password.error == PasswordTooShort
            && r.state.pizzaError == PizzaMissing
            && !r.ok && r.state.status == ""
  {
    ShortEntriesFields(init);
  }

  lemma GoodEntriesFields(init: FormState, choice: string, currentYear: int)
    requires currentYear > 1990
    ensures Acceptable(GoodEntries(init, choice), currentYear)
  {
    Alice();
    Year1990();
    Zip90210();
  }

  lemma Alice()
    ensures |Trim("Alice")| == 5
  {
    TrimUnpadded("Alice");
  }

  lemma Zip90210()
    ensures IsFiveDigits(Trim("90210"))
  {
    TrimUnpadded("90210");
  }

  /** Submitting the good entries in any year after 1990 is accepted. */
  lemma AcceptedScenario(init: FormState, choice: string, currentYear: int)
    requires currentYear > 1990
    ensures var r := Submit(GoodEntries(init, choice), currentYear);
            r.ok && r.state.status == Accepted
  {
    GoodEntriesFields(init, choice, currentYear);
  }
}
