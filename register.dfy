/**
 * The owner sign-up form (src/screens/AdminRegister.tsx): the client-side validity
 * check, the digit-only phone field, the submit guard and the request body.
 */
module AdminRegister {
  import opened Wrappers
  import opened Seqs
  import opened Text

  datatype RegisterForm = RegisterForm(ownerName: string, email: string, password: string,
                                       restaurantName: string, restaurantPhone: string,
                                       city: string, address: string)

  /** The body the backend expects, with its own field names. */
  datatype RegisterPayload = RegisterPayload(name: string, email: string, password: string,
                                             restroname: string, phone: string,
                                             city: string, address: string)

  /**
   * `isValid`: owner name and restaurant name of at least 2, password of at least 6
   * and phone of at least 10 UTF-16 code units once trimmed, and an '@' in the
   * trimmed email. City and address are not checked. A valid form has an '@' in its
   * email and no blank required field.
   */
  predicate IsValid(f: RegisterForm)
    ensures IsValid(f) ==> '@' in f.email
    ensures IsValid(f) ==>
      !AllSpace(f.ownerName) && !AllSpace(f.password) && !AllSpace(f.restaurantName) && !AllSpace(f.restaurantPhone)
  {
    EmailCheckIsAt(f.email);
    && Utf16Length(Trim(f.ownerName)) >= 2
    && Contains(Trim(f.email), "@")
    && Utf16Length(Trim(f.password)) >= 6
    && Utf16Length(Trim(f.restaurantName)) >= 2
    && Utf16Length(Trim(f.restaurantPhone)) >= 10
  }

  /** Three emoji make a password of six code units, which the check accepts. */
  lemma EmojiPasswordLength()
    ensures var p := "\U{1F600}\U{1F600}\U{1F600}"; |p| == 3 && Utf16Length(Trim(p)) == 6
  {
    var p := "\U{1F600}\U{1F600}\U{1F600}";
    TrimNoSpace(p);
    assert p[..2] == "\U{1F600}\U{1F600}" && p[..2][..1] == "\U{1F600}";
    assert p[..2][..1][..0] == [];
  }

  /** The email check is just "contains an '@'": trimming cannot remove one. */
  lemma EmailCheckIsAt(email: string)
    ensures Contains(Trim(email), "@") <==> '@' in email
  {
    assert "@" == ['@'];
    ContainsChar(Trim(email), '@');
    TrimKeepsNonSpace(email, '@');
  }

  /** City and address never affect validity. */
  lemma IsValidIgnoresCityAndAddress(f: RegisterForm, city: string, address: string)
    ensures IsValid(f.(city := city, address := address)) == IsValid(f)
  {
  }

  /** Whitespace typed around the owner name, email or password does not change validity. */
  lemma IsValidIgnoresPadding(f: RegisterForm, a: string, b: string)
    requires AllSpace(a) && AllSpace(b)
    ensures IsValid(f.(ownerName := a + f.ownerName + b, email := a + f.email + b,
                       password := a + f.password + b)) == IsValid(f)
  {
    TrimPadded(a, f.ownerName, b);
    TrimPadded(a, f.email, b);
    TrimPadded(a, f.password, b);
  }

  /** The phone field's `onChange`: every character that is not a digit is dropped. */
  function PhoneInput(typed: string): (phone: string)
    ensures |phone| == Count(typed, IsDigit)
    ensures forall i :: 0 <= i < |phone| ==> IsDigit(phone[i])
    ensures forall c :: multiset(phone)[c] == if IsDigit(c) then multiset(typed)[c] else 0
  {
    DigitsOnly(typed)
  }

  /** Sanitising an already sanitised phone changes nothing. */
  lemma PhoneInputIdempotent(typed: string)
    ensures PhoneInput(PhoneInput(typed)) == PhoneInput(typed)
  {
    DigitsOnlyIdempotent(typed);
  }

  /** For a phone that came through the field, the phone check is "at least ten digits typed". */
  lemma PhoneCheckCountsDigits(typed: string)
    ensures Utf16Length(Trim(PhoneInput(typed))) >= 10 <==> Count(typed, IsDigit) >= 10
  {
    var phone := PhoneInput(typed);
    DigitsTrimLength(phone);
  }

  /** The request body: fields renamed, values passed on untrimmed. */
  function PayloadOf(f: RegisterForm): (p: RegisterPayload)
    ensures FormOf(p) == f
  {
    RegisterPayload(f.ownerName, f.email, f.password, f.restaurantName, f.restaurantPhone, f.city, f.address)
  }

  /** The renaming read backwards. */
  function FormOf(p: RegisterPayload): RegisterForm {
    RegisterForm(p.name, p.email, p.password, p.restroname, p.phone, p.city, p.address)
  }

  /** No field is lost or swapped by the renaming, read either way. */
  lemma PayloadRoundTrip(f: RegisterForm, p: RegisterPayload)
    ensures PayloadOf(FormOf(p)) == p
    ensures PayloadOf(f).name == f.ownerName && PayloadOf(f).restroname == f.restaurantName
      && PayloadOf(f).phone == f.restaurantPhone
  {
  }

  /**
   * `handleRegister`: nothing is sent while the form is invalid or a request is in
   * flight; otherwise the renamed form is sent.
   */
  function Submit(f: RegisterForm, loading: bool): (request: Option<RegisterPayload>)
    ensures request.Some? <==> IsValid(f) && !loading
    ensures request.Some? ==> FormOf(request.value) == f
  {
    if !IsValid(f) || loading then None else Some(PayloadOf(f))
  }
}
