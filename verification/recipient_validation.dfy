/**
 * The assertion-validation `Result` and the
 * `SubjectConfirmationRecipientMatches` constraint validator, as their tests
 * fix them: a result is a list of error messages, valid exactly when the list
 * is empty, and the validator adds one error when the subject confirmation
 * names a recipient that is not the configured destination.
 */
module RecipientValidation {
  import opened Wrappers
  import opened Php

  /** The errors of one validation run, in the order they were added. */
  datatype Result = Result(errors: seq<string>)

  /** `isValid`: no error has been added. */
  predicate IsValid(r: Result) {
    |r.errors| == 0
  }

  /** `new Result()`: no errors, hence valid. */
  function NewResult(): (r: Result)
    ensures r.errors == [] && IsValid(r)
  {
    Result([])
  }

  /** `addError`: the message is appended verbatim; the result is invalid from then on. */
  function AddError(r: Result, message: string): (r': Result)
    ensures |r'.errors| == |r.errors| + 1
    ensures r'.errors[..|r.errors|] == r.errors && r'.errors[|r.errors|] == message
    ensures !IsValid(r')
  {
    Result(r.errors + [message])
  }

  /** The configured destination, compared as an exact, case-sensitive string. */
  datatype Destination = Destination(value: string)

  /** The `Recipient` attribute, null when it is absent. */
  datatype SubjectConfirmationData = SubjectConfirmationData(recipient: Option<string>)

  /** Whether the recipient passes the validator's `if ($recipient && …)` guard: present and truthy. */
  predicate NamesRecipient(d: SubjectConfirmationData) {
    d.recipient.Some? && Truthy(d.recipient.value)
  }

  /** The recipient is named and is not the destination. */
  predicate Mismatch(destination: Destination, d: SubjectConfirmationData) {
    NamesRecipient(d) && d.recipient.value != destination.value
  }

  datatype SubjectConfirmation = SubjectConfirmation(subjectConfirmationData: SubjectConfirmationData)

  function MismatchMessage(recipient: string, destination: Destination): string {
    "Recipient in SubjectConfirmationData (\"" + recipient
      + "\") does not match the current destination (\"" + destination.value + "\")"
  }

  /**
   * `validate`: a recipient equal to the destination, or one the guard
   * skips (absent, `""` or `"0"`), leaves the result as it was; any other
   * recipient appends exactly one error.
   */
  function Validate(destination: Destination, sc: SubjectConfirmation, result: Result): (r: Result)
    ensures !Mismatch(destination, sc.subjectConfirmationData) ==> r == result
    ensures Mismatch(destination, sc.subjectConfirmationData) ==>
      |r.errors| == |result.errors| + 1 && r.errors[..|result.errors|] == result.errors && !IsValid(r)
  {
    var recipient := sc.subjectConfirmationData.recipient;
    if recipient.Some? && Truthy(recipient.value) && recipient.value != destination.value then
      AddError(result, MismatchMessage(recipient.value, destination))
    else result
  }

  /** On a fresh result, validity after the check is exactly the absence of a mismatching recipient. */
  lemma FreshResultValidIffRecipientMatches(destination: Destination, sc: SubjectConfirmation)
    ensures IsValid(Validate(destination, sc, NewResult()))
        <==> !NamesRecipient(sc.subjectConfirmationData)
             || sc.subjectConfirmationData.recipient.value == destination.value
    ensures |Validate(destination, sc, NewResult()).errors|
         == (if Mismatch(destination, sc.subjectConfirmationData) then 1 else 0)
  {
  }

  /** The check never removes an error: an invalid result stays invalid and keeps its errors first. */
  lemma ValidateKeepsErrors(destination: Destination, sc: SubjectConfirmation, result: Result)
    ensures Validate(destination, sc, result).errors[..|result.errors|] == result.errors
    ensures !IsValid(result) ==> !IsValid(Validate(destination, sc, result))
  {
  }

  /** The test's first case: "someDestination" against "anotherDestination" gives one error. */
  lemma DifferentRecipientScenario()
    ensures var r := Validate(Destination("anotherDestination"),
                              SubjectConfirmation(SubjectConfirmationData(Some("someDestination"))), NewResult());
            !IsValid(r) && |r.errors| == 1
  {
  }

  /** The test's second case: "theSameDestination" against itself stays valid. */
  lemma SameRecipientScenario()
    ensures IsValid(Validate(Destination("theSameDestination"),
                             SubjectConfirmation(SubjectConfirmationData(Some("theSameDestination"))), NewResult()))
  {
  }

  /** The guard skips the falsy recipients: absent, `""` and `"0"` add no error against any destination. */
  lemma FalsyRecipientSkipped(destination: Destination, result: Result)
    ensures Validate(destination, SubjectConfirmation(SubjectConfirmationData(None)), result) == result
    ensures Validate(destination, SubjectConfirmation(SubjectConfirmationData(Some(""))), result) == result
    ensures Validate(destination, SubjectConfirmation(SubjectConfirmationData(Some("0"))), result) == result
  {
  }
}
