/** The two field validators of the patient form (`apps/patients/forms.py`).
    Each gets the field's value as the form has already cleaned it and either
    returns it unchanged or refuses it with a message. */
module PatientForms {
  import opened Base
  import opened Text

  const MSG_INVALID_PHONE: string := "please enter a valid phone number"
  const MSG_NAME_TOO_SHORT: string := "the name you entered is too short"

  /** The length of number the prefix rule applies to. */
  const CHECKED_PHONE_LENGTH: nat := 10

  /** The prefixes a ten-character number may start with. */
  const PHONE_PREFIXES: seq<string> := ["09", "+251", "251"]

  const MIN_NAME_LENGTH: nat := 5

  predicate HasAllowedPrefix(phone: string) {
    exists i :: 0 <= i < |PHONE_PREFIXES| && StartsWith(phone, PHONE_PREFIXES[i])
  }

  lemma AllowedPrefixes(phone: string)
    ensures HasAllowedPrefix(phone) <==>
              StartsWith(phone, "09") || StartsWith(phone, "+251") || StartsWith(phone, "251")
  {
    if StartsWith(phone, "09") { assert StartsWith(phone, PHONE_PREFIXES[0]); }
    if StartsWith(phone, "+251") { assert StartsWith(phone, PHONE_PREFIXES[1]); }
    if StartsWith(phone, "251") { assert StartsWith(phone, PHONE_PREFIXES[2]); }
  }

  /** `clean_phone`: a ten-character number must start with one of the allowed
      prefixes; a number of any other length passes unchecked. */
  function CleanPhone(phone: string): (r: Result<string, string>)
    ensures r.Ok? ==> r.value == phone
    ensures r.Err? ==> r.error == MSG_INVALID_PHONE
    ensures r.Err? <==> |phone| == CHECKED_PHONE_LENGTH && !HasAllowedPrefix(phone)
  {
    AllowedPrefixes(phone);
    if |phone| == 10 && !(StartsWith(phone, "09") || StartsWith(phone, "+251") || StartsWith(phone, "251")) then
      Err(MSG_INVALID_PHONE)
    else
      Ok(phone)
  }

  /** The verdict on a ten-character number depends on its first four
      characters only; a number of another length is always accepted. */
  lemma PhoneVerdictByPrefix(p: string, q: string)
    ensures |p| != CHECKED_PHONE_LENGTH ==> CleanPhone(p) == Ok(p)
    ensures |p| == |q| == CHECKED_PHONE_LENGTH && p[..4] == q[..4] ==> (CleanPhone(p).Ok? <==> CleanPhone(q).Ok?)
  {
    if |p| == |q| == CHECKED_PHONE_LENGTH && p[..4] == q[..4] {
      assert p[..2] == p[..4][..2] && q[..2] == q[..4][..2];
      assert p[..3] == p[..4][..3] && q[..3] == q[..4][..3];
    }
  }

  /** Sample numbers: a local mobile number and an international one pass, a
      ten-digit number with another prefix does not. */
  lemma PhoneExamples()
    ensures CleanPhone("0911223344").Ok?
    ensures CleanPhone("+251911111111").Ok?
    ensures CleanPhone("2519111111").Ok?
    ensures CleanPhone("1234567890") == Err(MSG_INVALID_PHONE)
  {
    assert StartsWith("0911223344", "09");
    assert StartsWith("2519111111", "251");
    assert !StartsWith("1234567890", "09") && !StartsWith("1234567890", "+251") && !StartsWith("1234567890", "251");
  }

  /** `clean_full_name`: names shorter than five characters are refused. */
  function CleanFullName(name: string): (r: Result<string, string>)
    ensures r.Ok? ==> r.value == name
    ensures r.Err? ==> r.error == MSG_NAME_TOO_SHORT
    ensures r.Err? <==> |name| < MIN_NAME_LENGTH
  {
    if |name| < 5 then Err(MSG_NAME_TOO_SHORT) else Ok(name)
  }
}
