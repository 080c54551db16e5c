/**
 * The first-login form (src/app/onboarding/page.tsx): `validateForm` checks
 * the email, the optional phone number, the new password and its
 * confirmation, and collects one message per failing field.
 */
module Onboarding {
  import opened Wrappers
  import opened Text

  datatype Form = Form(email: string, phone: string, password: string, confirmPassword: string)

  datatype Field = Email | Phone | Password | ConfirmPassword

  /** The messages `validateForm` can set. */
  datatype Message =
    | EmailRequired | EmailInvalid | PhoneInvalid
    | PasswordRequired | PasswordTooShort | PasswordWeak | PasswordMismatch

  /** The text shown for each message. */
  function MessageText(m: Message): string {
    match m
    case EmailRequired => "Email requis"
    case EmailInvalid => "Email invalide"
    case PhoneInvalid => "Numéro de téléphone invalide"
    case PasswordRequired => "Mot de passe requis"
    case PasswordTooShort => "Le mot de passe doit contenir au moins 8 caractères"
    case PasswordWeak => "Le mot de passe doit contenir au moins une majuscule, une minuscule et un chiffre"
    case PasswordMismatch => "Les mots de passe ne correspondent pas"
  }

  /** Different messages read differently. */
  lemma MessageTextInjective(a: Message, b: Message)
    requires a != b
    ensures MessageText(a) != MessageText(b)
  {
    MessageLength(a);
    MessageLength(b);
  }

  /** Every message has a length of its own. */
  function Length(m: Message): nat {
    match m
    case EmailRequired => 12
    case EmailInvalid => 14
    case PhoneInvalid => 28
    case PasswordRequired => 19
    case PasswordTooShort => 51
    case PasswordWeak => 81
    case PasswordMismatch => 38
  }

  lemma MessageLength(m: Message)
    ensures |MessageText(m)| == Length(m)
  {
  }

  /** A run of `[^\s@]`: no whitespace and no '@'. */
  predicate Plain(t: string) {
    forall k :: 0 <= k < |t| ==> !IsWhitespace(t[k]) && t[k] != '@'
  }

  /**
   * `^[^\s@]+@[^\s@]+\.[^\s@]+$` read as a definition: the address splits
   * into three non-empty plain parts around an '@' and a later '.'.
   */
  predicate EmailPattern(s: string) {
    exists i, j :: 0 < i && i + 1 < j && j + 1 < |s| && s[i] == '@' && s[j] == '.' &&
                   Plain(s[..i]) && Plain(s[i + 1..j]) && Plain(s[j + 1..])
  }

  /** A check of the same shape by one scan: the first '@', then a dot strictly inside the domain. */
  function IsEmail(s: string): bool {
    match IndexOfChar(s, '@')
    case None => false
    case Some(i) =>
      var domain := s[i + 1..];
      0 < i && Plain(s[..i]) && Plain(domain) && |domain| >= 3 && '.' in domain[1..|domain| - 1]
  }

  lemma PlainSlice(t: string, a: nat, b: nat)
    requires Plain(t) && a <= b <= |t|
    ensures Plain(t[a..b])
  {
    assert forall k :: 0 <= k < b - a ==> t[a..b][k] == t[a + k];
  }

  lemma PlainJoin(a: string, c: char, b: string)
    requires Plain(a) && Plain(b) && !IsWhitespace(c) && c != '@'
    ensures Plain(a + [c] + b)
  {
    var t := a + [c] + b;
    forall k | 0 <= k < |t| ensures !IsWhitespace(t[k]) && t[k] != '@' {
      if k < |a| { assert t[k] == a[k]; }
      else if k > |a| { assert t[k] == b[k - |a| - 1]; }
    }
  }

  lemma IsEmailMatches(s: string)
    requires IsEmail(s)
    ensures EmailPattern(s)
  {
    var i := IndexOfChar(s, '@').value;
    var domain := s[i + 1..];
    assert 0 < i && Plain(s[..i]) && Plain(domain) && |domain| >= 3;
    var inner := domain[1..|domain| - 1];
    assert '.' in inner;
    var m :| 0 <= m < |inner| && inner[m] == '.';
    var j := i + 2 + m;
    assert s[i] == '@';
    assert s[j] == domain[1 + m] == inner[m];
    assert s[i + 1..j] == domain[..j - i - 1];
    PlainSlice(domain, 0, j - i - 1);
    assert s[j + 1..] == domain[j - i..];
    PlainSlice(domain, j - i, |domain|);
    assert 0 < i && i + 1 < j && j + 1 < |s| && s[i] == '@' && s[j] == '.' &&
           Plain(s[..i]) && Plain(s[i + 1..j]) && Plain(s[j + 1..]);
  }

  lemma MatchesIsEmail(s: string, i: nat, j: nat)
    requires 0 < i && i + 1 < j && j + 1 < |s| && s[i] == '@' && s[j] == '.'
    requires Plain(s[..i]) && Plain(s[i + 1..j]) && Plain(s[j + 1..])
    ensures IsEmail(s)
  {
    var first := IndexOfChar(s, '@');
    assert first.Some? by {
      assert '@' in s;
    }
    assert first.value == i;
    var domain := s[i + 1..];
    assert domain == s[i + 1..j] + ['.'] + s[j + 1..];
    PlainJoin(s[i + 1..j], '.', s[j + 1..]);
    assert domain[1..|domain| - 1][j - i - 2] == '.';
  }

  /** The scan accepts exactly the addresses the regular expression matches. */
  lemma IsEmailIff(s: string)
    ensures IsEmail(s) <==> EmailPattern(s)
  {
    if IsEmail(s) {
      IsEmailMatches(s);
    }
    if EmailPattern(s) {
      var i, j :| 0 < i && i + 1 < j && j + 1 < |s| && s[i] == '@' && s[j] == '.' &&
                  Plain(s[..i]) && Plain(s[i + 1..j]) && Plain(s[j + 1..]);
      MatchesIsEmail(s, i, j);
    }
  }

  /** The digits part of a phone number: after an optional leading '+'. */
  function PhoneDigits(t: string): string {
    if t != [] && t[0] == '+' then t[1..] else t
  }

  /** `^\+?[0-9]{8,15}$` */
  predicate IsPhone(t: string) {
    var digits := PhoneDigits(t);
    8 <= |digits| <= 15 && forall k :: 0 <= k < |digits| ==> IsDigit(digits[k])
  }

  /** An accepted number has 8 to 16 characters, every one a digit but a leading '+'. */
  lemma PhoneShape(t: string)
    requires IsPhone(t)
    ensures 8 <= |t| <= 16
    ensures forall k :: 0 <= k < |t| ==> IsDigit(t[k]) || (k == 0 && t[k] == '+')
  {
    if t[0] == '+' {
      forall k | 1 <= k < |t| ensures IsDigit(t[k]) {
        assert t[k] == PhoneDigits(t)[k - 1];
      }
    }
  }

  /** From position `p`, a character of class `cls` is reached without crossing a line end (`.*cls`). */
  predicate Reaches(s: string, p: nat, cls: char -> bool) {
    exists a :: p <= a < |s| && cls(s[a]) && forall k :: p <= k < a ==> !IsLineTerminator(s[k])
  }

  /** `(?=.*[a-z])(?=.*[A-Z])(?=.*\d)`, unanchored: some position sees all three classes. */
  predicate StrongPassword(s: string) {
    exists p: nat :: p <= |s| && Reaches(s, p, IsAsciiLower) && Reaches(s, p, IsAsciiUpper) && Reaches(s, p, IsDigit)
  }

  /** On one line, the rule is: a lower-case letter, an upper-case letter and a digit somewhere. */
  lemma StrongPasswordOneLine(s: string)
    requires forall k :: 0 <= k < |s| ==> !IsLineTerminator(s[k])
    ensures StrongPassword(s) <==>
      (exists a :: 0 <= a < |s| && IsAsciiLower(s[a])) &&
      (exists b :: 0 <= b < |s| && IsAsciiUpper(s[b])) &&
      (exists c :: 0 <= c < |s| && IsDigit(s[c]))
  {
    if (exists a :: 0 <= a < |s| && IsAsciiLower(s[a])) &&
       (exists b :: 0 <= b < |s| && IsAsciiUpper(s[b])) &&
       (exists c :: 0 <= c < |s| && IsDigit(s[c])) {
      var a :| 0 <= a < |s| && IsAsciiLower(s[a]);
      var b :| 0 <= b < |s| && IsAsciiUpper(s[b]);
      var c :| 0 <= c < |s| && IsDigit(s[c]);
      assert Reaches(s, 0, IsAsciiLower) && Reaches(s, 0, IsAsciiUpper) && Reaches(s, 0, IsDigit);
    }
  }

  lemma EmptyMapIff(m: map<Field, Message>)
    ensures |m| == 0 <==> m == map[]
  {
    if m != map[] {
      var f :| f in m;
      assert f in m.Keys;
    }
  }

  /** Everything `validateForm` requires of the form. */
  predicate Acceptable(form: Form) {
    Trim(form.email) != "" && EmailPattern(form.email) &&
    (form.phone == "" || IsPhone(RemoveWhitespace(form.phone))) &&
    form.password != "" && Utf16Length(form.password) >= 8 && StrongPassword(form.password) &&
    form.password == form.confirmPassword
  }

  /** The email check of `validateForm`: required, then the pattern. */
  function EmailCheck(email: string): (m: Option<Message>)
    ensures m.None? <==> Trim(email) != "" && EmailPattern(email)
    ensures m.Some? ==> m.value == (if Trim(email) == "" then EmailRequired else EmailInvalid)
  {
    IsEmailIff(email);
    if Trim(email) == "" then Some(EmailRequired)
    else if !IsEmail(email) then Some(EmailInvalid)
    else None
  }

  /** The phone check: an empty number passes, any other must match once its whitespace is removed. */
  function PhoneCheck(phone: string): (m: Option<Message>)
    ensures m.None? <==> phone == "" || IsPhone(RemoveWhitespace(phone))
    ensures m.Some? ==> m.value == PhoneInvalid
  {
    if phone != "" && !IsPhone(RemoveWhitespace(phone)) then Some(PhoneInvalid) else None
  }

  /** The password check: required, then at least 8 UTF-16 units, then the three classes. */
  function PasswordCheck(password: string): (m: Option<Message>)
    ensures m.None? <==> password != "" && Utf16Length(password) >= 8 && StrongPassword(password)
    ensures m.Some? ==>
      m.value == (if password == "" then PasswordRequired
                  else if Utf16Length(password) < 8 then PasswordTooShort
                  else PasswordWeak)
  {
    if password == "" then Some(PasswordRequired)
    else if Utf16Length(password) < 8 then Some(PasswordTooShort)
    else if !StrongPassword(password) then Some(PasswordWeak)
    else None
  }

  /** The confirmation check: the two passwords must be equal. */
  function ConfirmCheck(form: Form): (m: Option<Message>)
    ensures m.None? <==> form.password == form.confirmPassword
    ensures m.Some? ==> m.value == PasswordMismatch
  {
    if form.password != form.confirmPassword then Some(PasswordMismatch) else None
  }

  /** Of the four checks' outcomes, in the order of the fields, the one of field `f`. */
  function Pick(f: Field, email: Option<Message>, phone: Option<Message>,
                password: Option<Message>, confirm: Option<Message>): Option<Message> {
    match f
    case Email => email
    case Phone => phone
    case Password => password
    case ConfirmPassword => confirm
  }

  /** The check that sets the message of a field. */
  function CheckOf(form: Form, f: Field): Option<Message> {
    Pick(f, EmailCheck(form.email), PhoneCheck(form.phone), PasswordCheck(form.password), ConfirmCheck(form))
  }

  /** `newErrors.f = m` when a check failed. */
  function Put(m: map<Field, Message>, f: Field, e: Option<Message>): map<Field, Message> {
    if e.Some? then m[f := e.value] else m
  }

  /** The messages of the four checks' outcomes, field by field in the order they are checked. */
  function Collect(email: Option<Message>, phone: Option<Message>,
                   password: Option<Message>, confirm: Option<Message>): map<Field, Message> {
    Put(Put(Put(Put(map[], Email, email), Phone, phone), Password, password), ConfirmPassword, confirm)
  }

  lemma CollectFields(email: Option<Message>, phone: Option<Message>,
                      password: Option<Message>, confirm: Option<Message>)
    ensures var m := Collect(email, phone, password, confirm);
      forall f: Field :: (f in m <==> Pick(f, email, phone, password, confirm).Some?) &&
                         (f in m ==> m[f] == Pick(f, email, phone, password, confirm).value)
  {
  }

  /** The messages `validateForm` collects. */
  function Errors(form: Form): map<Field, Message> {
    Collect(EmailCheck(form.email), PhoneCheck(form.phone), PasswordCheck(form.password), ConfirmCheck(form))
  }

  /** A field has a message exactly when its own check failed, and it is that check's message. */
  lemma ErrorsOfFields(form: Form)
    ensures forall f: Field :: f in Errors(form) <==> CheckOf(form, f).Some?
    ensures forall f: Field :: f in Errors(form) ==> Errors(form)[f] == CheckOf(form, f).value
  {
    CollectFields(EmailCheck(form.email), PhoneCheck(form.phone), PasswordCheck(form.password), ConfirmCheck(form));
  }

  /** No message is set exactly when the form is acceptable. */
  lemma NoErrorsIffAcceptable(form: Form)
    ensures Errors(form) == map[] <==> Acceptable(form)
  {
    ErrorsOfFields(form);
    if Errors(form) != map[] {
      var f :| f in Errors(form);
      assert CheckOf(form, f).Some?;
    } else {
      assert Email !in Errors(form) && Phone !in Errors(form);
      assert Password !in Errors(form) && ConfirmPassword !in Errors(form);
    }
  }

  /**
   * `validateForm`: the messages of the checks that failed, one per field,
   * the password one being the first failing of its three checks; the form
   * is valid exactly when no message was set, that is when it is acceptable.
   */
  method ValidateForm(form: Form) returns (errors: map<Field, Message>, valid: bool)
    ensures errors == Errors(form)
    ensures valid <==> errors == map[]
    ensures valid <==> Acceptable(form)
  {
    errors := map[];
    var email := EmailCheck(form.email);
    if email.Some? {
      errors := errors[Email := email.value];
    }
    var phone := PhoneCheck(form.phone);
    if phone.Some? {
      errors := errors[Phone := phone.value];
    }
    var password := PasswordCheck(form.password);
    if password.Some? {
      errors := errors[Password := password.value];
    }
    var confirm := ConfirmCheck(form);
    if confirm.Some? {
      errors := errors[ConfirmPassword := confirm.value];
    }
    EmptyMapIff(errors);
    NoErrorsIffAcceptable(form);
    valid := |errors| == 0;
  }
}
