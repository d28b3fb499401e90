/**
 * The contact form's checks, shared by both front-end scripts (their
 * `CONFIG` values for the phone pattern and the message bounds, and their
 * `validateForm`, are the same). The newer script guards against a missing
 * phone or message element; those guards appear here as `Option` inputs.
 * A field that `FormData.get` does not find (`null`) is modelled as the
 * empty string: both are falsy in JavaScript and both fail the same checks.
 */
module ContactForm {
  import opened Text
  import opened Wrappers

  const MessageMinLength: nat := 10
  const MessageMaxLength: nat := 1000

  /**
   * The phone pattern `^\+7\d{10}$`: a plus sign, a seven and exactly ten
   * digits, nothing before and nothing after. JavaScript's `\d` matches
   * the ASCII digits only (`Text.IsDigit`).
   */
  predicate MatchesPhonePattern(s: string) {
    |s| == 12 && s[0] == '+' && s[1] == '7' && forall i :: 2 <= i < 12 ==> IsDigit(s[i])
  }

  /** The prefix `addPhonePrefix` writes into an empty phone field. */
  const PhonePrefix: string := "+7"

  /** A number matches exactly when it is the prefix followed by ten digits. */
  lemma PatternIsPrefixAndTenDigits(s: string)
    ensures MatchesPhonePattern(s) <==>
      (|s| == 12 && s[..2] == PhonePrefix && forall i :: 0 <= i < 10 ==> IsDigit(s[2..][i]))
  {
    if |s| == 12 {
      assert forall i :: 0 <= i < 10 ==> s[2..][i] == s[i + 2];
      if s[..2] == PhonePrefix {
        assert s[0] == s[..2][0] && s[1] == s[..2][1];
      }
      if s[0] == '+' && s[1] == '7' {
        assert s[..2] == PhonePrefix;
      }
    }
  }

  // ---------------------------------------------------------------------
  // validateForm

  /** What `validateForm` alerts about before returning false. */
  datatype FormError = MissingField | BadPhone | BadMessageLength

  datatype Verdict = Accepted | Rejected(error: FormError)

  /** The message length as JavaScript counts it, in UTF-16 code units. */
  predicate MessageLengthInBounds(message: string) {
    MessageMinLength <= Utf16Length(message) <= MessageMaxLength
  }

  /**
   * `validateForm`: every field must be filled, then the phone must match
   * the pattern, then the message length must lie within the bounds; the
   * first failing check decides the alert.
   */
  function ValidateForm(name: string, phone: string, message: string): (v: Verdict)
    ensures v == Accepted <==>
      name != "" && phone != "" && message != ""
      && MatchesPhonePattern(phone) && MessageLengthInBounds(message)
    ensures name == "" || phone == "" || message == "" ==> v == Rejected(MissingField)
    ensures name != "" && phone != "" && message != "" && !MatchesPhonePattern(phone) ==> v == Rejected(BadPhone)
    ensures name != "" && phone != "" && message != "" && MatchesPhonePattern(phone) && !MessageLengthInBounds(message) ==>
      v == Rejected(BadMessageLength)
    ensures v == Rejected(MissingField) ==> name == "" || phone == "" || message == ""
    ensures v == Rejected(BadPhone) ==> name != "" && phone != "" && message != "" && !MatchesPhonePattern(phone)
    ensures v == Rejected(BadMessageLength) ==>
      name != "" && phone != "" && message != "" && MatchesPhonePattern(phone) && !MessageLengthInBounds(message)
  {
    if name == "" || phone == "" || message == "" then Rejected(MissingField)
    else if !MatchesPhonePattern(phone) then Rejected(BadPhone)
    else if Utf16Length(message) < MessageMinLength || Utf16Length(message) > MessageMaxLength then Rejected(BadMessageLength)
    else Accepted
  }

  /**
   * For text without characters outside the Basic Multilingual Plane the
   * UTF-16 length is the number of characters, so the bounds are 10 to 1000
   * characters; a message of emoji reaches the upper bound with half as many.
   */
  lemma MessageBoundsInCharacters(message: string)
    ensures (forall i :: 0 <= i < |message| ==> message[i] as int < 0x1_0000) ==>
      (MessageLengthInBounds(message) <==> MessageMinLength <= |message| <= MessageMaxLength)
    ensures MessageLengthInBounds(message) ==> 5 <= |message| <= MessageMaxLength
  {
    Utf16LengthBounds(message);
  }

  // ---------------------------------------------------------------------
  // validatePhone and addPhonePrefix

  /**
   * The newer `validatePhone`: without a phone element, or with an empty
   * value, the phone counts as valid; otherwise it must match the pattern.
   */
  function CheckPhoneField(field: Option<string>): (valid: bool)
    ensures valid <==> field == None || field == Some("") || MatchesPhonePattern(field.value)
  {
    match field
    case None => true
    case Some(value) => CheckPhoneValue(value)
  }

  /**
   * The older `validatePhone`, which assumes the phone element exists: an
   * empty value, or the prefix followed by ten digits.
   */
  function CheckPhoneValue(value: string): (valid: bool)
    ensures valid <==>
      value == "" || (|value| == 12 && value[..2] == PhonePrefix && forall i :: 2 <= i < 12 ==> IsDigit(value[i]))
  {
    PatternIsPrefixAndTenDigits(value);
    assert |value| == 12 ==> forall i :: 0 <= i < 10 ==> value[2..][i] == value[i + 2];
    value == "" || MatchesPhonePattern(value)
  }

  /**
   * On a filled-in form, the live phone check and the submit-time check
   * agree: `validateForm` rejects the phone exactly when `validatePhone`
   * marks it invalid.
   */
  lemma PhoneChecksAgree(name: string, phone: string, message: string)
    requires name != "" && phone != "" && message != ""
    ensures ValidateForm(name, phone, message) == Rejected(BadPhone) <==> !CheckPhoneValue(phone)
  {
  }

  /**
   * The newer `addPhonePrefix`: an existing, empty phone field receives the
   * prefix; any other field is left as it is.
   */
  function PrefixPhoneField(field: Option<string>): (r: Option<string>)
    ensures field == None ==> r == None
    ensures field == Some("") ==> r == Some(PhonePrefix)
    ensures field.Some? && field.value != "" ==> r == field
  {
    match field
    case None => None
    case Some(value) => Some(PrefixPhoneValue(value))
  }

  /** The older `addPhonePrefix`, which assumes the phone element exists. */
  function PrefixPhoneValue(value: string): (r: string)
    ensures value == "" ==> r == PhonePrefix
    ensures value != "" ==> r == value
    ensures r != ""
  {
    if value == "" then PhonePrefix else value
  }

  /** Focusing the phone field twice writes the prefix at most once. */
  lemma PrefixPhoneIdempotent(field: Option<string>)
    ensures PrefixPhoneField(PrefixPhoneField(field)) == PrefixPhoneField(field)
    ensures field.Some? ==> PrefixPhoneValue(PrefixPhoneValue(field.value)) == PrefixPhoneValue(field.value)
  {
  }

  /**
   * After the prefix is written into an empty field, typing ten digits gives
   * a number that passes both `validatePhone` and the phone check of
   * `validateForm`.
   */
  lemma PrefixThenTenDigitsIsValid(digits: string)
    requires |digits| == 10 && forall i :: 0 <= i < 10 ==> IsDigit(digits[i])
    ensures MatchesPhonePattern(PrefixPhoneValue("") + digits)
    ensures CheckPhoneField(Some(PrefixPhoneValue("") + digits))
  {
    var s := PhonePrefix + digits;
    assert s[..2] == PhonePrefix && s[2..] == digits;
    PatternIsPrefixAndTenDigits(s);
  }

  // ---------------------------------------------------------------------
  // updateMessageCounter

  /** The counter below the message box: `<length>/1000`, in red past the limit. */
  datatype Counter = Counter(text: string, overLimit: bool)

  /**
   * The older `updateMessageCounter`, which assumes both elements exist: the
   * text is the length in digits followed by `/1000`.
   */
  function CounterFor(message: string): (c: Counter)
    ensures c.overLimit <==> Utf16Length(message) > MessageMaxLength
    ensures var k := |c.text| - |"/1000"|;
      && k > 0 && c.text[k..] == "/1000"
      && (forall i :: 0 <= i < k ==> IsDigit(c.text[i]))
      && DecimalValue(c.text[..k]) == Utf16Length(message)
  {
    DecimalRoundTrip(Utf16Length(message));
    assert Decimal(MessageMaxLength) == "1000";
    var digits := Decimal(Utf16Length(message));
    assert (digits + "/" + "1000")[..|digits|] == digits;
    Counter(digits + "/" + Decimal(MessageMaxLength), Utf16Length(message) > MessageMaxLength)
  }

  /** The newer `updateMessageCounter`: nothing changes without a message element. */
  function CounterForField(field: Option<string>): (c: Option<Counter>)
    ensures c.Some? <==> field.Some?
    ensures field.Some? ==> c.value == CounterFor(field.value)
  {
    match field
    case None => None
    case Some(message) => Some(CounterFor(message))
  }

  /** The counter shows the length faithfully: two messages show the same text exactly when their lengths agree. */
  lemma CounterTextShowsLength(a: string, b: string)
    ensures CounterFor(a).text == CounterFor(b).text <==> Utf16Length(a) == Utf16Length(b)
  {
    var limit := Decimal(MessageMaxLength);
    var da, db := Decimal(Utf16Length(a)), Decimal(Utf16Length(b));
    if da + "/" + limit == db + "/" + limit {
      assert |da| == |db|;
      assert (da + "/" + limit)[..|da|] == da;
      assert (db + "/" + limit)[..|db|] == db;
      DecimalInjective(Utf16Length(a), Utf16Length(b));
    }
  }
}
