/** The sign-up form (src/components/auth/RegisterForm.tsx): the e-mail shape check,
    the password strength score with its list of unmet requirements, the confirmation
    check, the submit handler's ordered checks and the submit button's disabled state.
    The form's derived validation flags, which the component recomputes in effects
    whenever an input changes, are functions of the current inputs here. */
module RegisterForm {
  import opened JsBuiltins

  // ---------------------------------------------------------------- e-mail

  /** `[^\s@]`: neither white space nor `@`. */
  predicate IsEmailChar(c: char) {
    !IsSpace(c) && c != '@'
  }

  predicate AllEmailChars(s: string) {
    forall i | 0 <= i < |s| :: IsEmailChar(s[i])
  }

  /** The shape `/^[^\s@]+@[^\s@]+\.[^\s@]+$/` accepts, stated by its parts: a non-empty
      local part, `@`, a non-empty name, `.`, a non-empty ending, none of them holding
      white space or `@`. */
  ghost predicate EmailShape(email: string) {
    exists a: string, x: string, y: string {:trigger a + "@" + x + "." + y} ::
      && email == a + "@" + x + "." + y
      && a != [] && x != [] && y != []
      && AllEmailChars(a) && AllEmailChars(x) && AllEmailChars(y)
  }

  /** The regular expression as the component runs it: split at the only `@`, and look
      for a dot with something on both sides in what follows. */
  predicate EmailMatches(email: string) {
    var at := IndexOf(email, '@');
    && 0 < at < |email|
    && AllEmailChars(email[..at])
    && AllEmailChars(email[at + 1..])
    && 2 < |email| - at
    && IndexOf(email[at + 2..|email| - 1], '.') < |email| - at - 3
  }

  /** The test the component runs accepts exactly the strings of that shape. */
  lemma EmailMatchesIffShape(email: string)
    ensures EmailMatches(email) <==> EmailShape(email)
  {
    if EmailMatches(email) {
      var at := IndexOf(email, '@');
      var b := email[at + 1..];
      var mid := email[at + 2..|email| - 1];
      var d := IndexOf(mid, '.');
      var a := email[..at];
      var x := b[..d + 1];
      var y := b[d + 2..];
      assert b[d + 1] == mid[d] == '.';
      assert b == x + "." + y;
      assert email == a + "@" + b;
      assert email == a + "@" + x + "." + y;
      assert AllEmailChars(x) && AllEmailChars(y) by {
        assert forall i | 0 <= i < |x| :: x[i] == b[i];
        assert forall i | 0 <= i < |y| :: y[i] == b[d + 2 + i];
      }
    }
    if EmailShape(email) {
      var a: string, x: string, y: string :|
        && email == a + "@" + x + "." + y
        && a != [] && x != [] && y != []
        && AllEmailChars(a) && AllEmailChars(x) && AllEmailChars(y);
      ShapeMatches(email, a, x, y);
    }
  }

  lemma ShapeMatches(email: string, a: string, x: string, y: string)
    requires email == a + "@" + x + "." + y
    requires a != [] && x != [] && y != []
    requires AllEmailChars(a) && AllEmailChars(x) && AllEmailChars(y)
    ensures EmailMatches(email)
  {
    var b := x + "." + y;
    assert email == a + "@" + b;
    assert forall i | 0 <= i < |a| :: email[i] == a[i];
    assert email[|a|] == '@';
    assert IndexOf(email, '@') == |a|;
    assert email[..|a|] == a;
    assert email[|a| + 1..] == b;
    assert AllEmailChars(b) by {
      forall i | 0 <= i < |b| ensures IsEmailChar(b[i]) {
        if i < |x| { assert b[i] == x[i]; }
        else if i > |x| { assert b[i] == y[i - |x| - 1]; }
      }
    }
    var mid := email[|a| + 2..|email| - 1];
    assert mid[|x| - 1] == '.';
  }

  /** The e-mail effect: an empty address is not valid but shows no error; otherwise it
      is valid exactly when it matches, and shows "Format d'email invalide" when not. */
  function EmailCheck(email: string): (r: (bool, Option<string>))
    ensures email == "" ==> r == (false, None)
    ensures email != "" ==> (r.0 <==> EmailMatches(email)) && (r.1.Some? <==> !r.0)
    ensures r.1.Some? ==> r.1.value == "Format d'email invalide"
  {
    if email == "" then (false, None)
    else if EmailMatches(email) then (true, None)
    else (false, Some("Format d'email invalide"))
  }

  // ---------------------------------------------------------------- password

  /** The five requirements, in the order the component checks them. */
  datatype Requirement = MinLength | Uppercase | Lowercase | Digit | Special

  const RequirementOrder: seq<Requirement> := [MinLength, Uppercase, Lowercase, Digit, Special]

  predicate IsSpecial(c: char) {
    c == '!' || c == '@' || c == '#' || c == '$' || c == '%' || c == '^' || c == '&' || c == '*'
    || c == '(' || c == ')' || c == ',' || c == '.' || c == '?' || c == '"' || c == ':'
    || c == '{' || c == '}' || c == '|' || c == '<' || c == '>'
  }

  predicate HasUpper(s: string) { exists i | 0 <= i < |s| :: 'A' <= s[i] <= 'Z' }
  predicate HasLower(s: string) { exists i | 0 <= i < |s| :: 'a' <= s[i] <= 'z' }
  predicate HasDigit(s: string) { exists i | 0 <= i < |s| :: '0' <= s[i] <= '9' }
  predicate HasSpecial(s: string) { exists i | 0 <= i < |s| :: IsSpecial(s[i]) }

  /** Whether a password meets a requirement; the length is JavaScript's `.length`. */
  predicate Meets(r: Requirement, password: string) {
    match r
    case MinLength => Utf16Length(password) >= 8
    case Uppercase => HasUpper(password)
    case Lowercase => HasLower(password)
    case Digit => HasDigit(password)
    case Special => HasSpecial(password)
  }

  /** A requirement's weight in eighths of the full score: 25, 25, 25, 12.5 and 12.5 out
      of 100. */
  function Weight(r: Requirement): nat {
    match r
    case MinLength => 2
    case Uppercase => 2
    case Lowercase => 2
    case Digit => 1
    case Special => 1
  }

  /** The message listed for an unmet requirement. */
  function Hint(r: Requirement): string {
    match r
    case MinLength => "Au moins 8 caractères"
    case Uppercase => "Une majuscule"
    case Lowercase => "Une minuscule"
    case Digit => "Un chiffre"
    case Special => "Un caractère spécial"
  }

  /** The full score, in eighths. */
  const FullStrength: nat := 8

  /** What one requirement adds to the score. */
  function Gain(r: Requirement, password: string): nat {
    if Meets(r, password) then Weight(r) else 0
  }

  /** What one requirement adds to the hint list. */
  function HintIf(r: Requirement, password: string): seq<string> {
    if Meets(r, password) then [] else [Hint(r)]
  }

  /** The score: the weights of the requirements met. */
  function Strength(rs: seq<Requirement>, password: string): (s: nat)
    ensures s <= 2 * |rs|
  {
    if rs == [] then 0 else Gain(rs[0], password) + Strength(rs[1..], password)
  }

  /** The hints of the requirements not met, in order. */
  function Unmet(rs: seq<Requirement>, password: string): (hints: seq<string>)
    ensures |hints| <= |rs|
  {
    if rs == [] then [] else HintIf(rs[0], password) + Unmet(rs[1..], password)
  }

  /** The score and the hint list spelled out over the five requirements. */
  lemma UnfoldRequirements(password: string)
    ensures Strength(RequirementOrder, password)
         == Gain(MinLength, password) + Gain(Uppercase, password) + Gain(Lowercase, password)
          + Gain(Digit, password) + Gain(Special, password)
    ensures Unmet(RequirementOrder, password)
         == HintIf(MinLength, password) + HintIf(Uppercase, password) + HintIf(Lowercase, password)
          + HintIf(Digit, password) + HintIf(Special, password)
  {
    var r4: seq<Requirement> := [Special];
    var r3 := [Digit] + r4;
    var r2 := [Lowercase] + r3;
    var r1 := [Uppercase] + r2;
    assert RequirementOrder == [MinLength] + r1;
    RequirementCons(MinLength, r1, password);
    RequirementCons(Uppercase, r2, password);
    RequirementCons(Lowercase, r3, password);
    RequirementCons(Digit, r4, password);
    RequirementCons(Special, [], password);
  }

  lemma RequirementCons(r: Requirement, rest: seq<Requirement>, password: string)
    ensures Strength([r] + rest, password) == Gain(r, password) + Strength(rest, password)
    ensures Unmet([r] + rest, password) == HintIf(r, password) + Unmet(rest, password)
  {
    assert ([r] + rest)[1..] == rest;
  }

  /** The score reaches 8 exactly when every requirement is met, and that is exactly
      when no hint is listed. */
  lemma FullStrengthIffAllMet(password: string)
    ensures Strength(RequirementOrder, password) <= FullStrength
    ensures Strength(RequirementOrder, password) == FullStrength
        <==> forall r: Requirement :: Meets(r, password)
    ensures Unmet(RequirementOrder, password) == [] <==> forall r: Requirement :: Meets(r, password)
  {
    UnfoldRequirements(password);
    if !forall r: Requirement :: Meets(r, password) {
      var r: Requirement :| !Meets(r, password);
      assert Hint(r) in Unmet(RequirementOrder, password);
    }
  }

  /** A hint is listed exactly when its requirement is not met. */
  lemma HintListedIffUnmet(password: string, r: Requirement)
    ensures Hint(r) in Unmet(RequirementOrder, password) <==> !Meets(r, password)
  {
    UnfoldRequirements(password);
  }

  /** The password effect, step by step: the score and hint list of a non-empty
      password; an empty one scores 0, lists nothing and is not valid. */
  method EvaluatePassword(password: string) returns (strength: nat, errors: seq<string>, valid: bool)
    ensures password == "" ==> strength == 0 && errors == [] && !valid
    ensures password != "" ==> strength == Strength(RequirementOrder, password)
    ensures password != "" ==> errors == Unmet(RequirementOrder, password)
    ensures valid <==> password != "" && strength == FullStrength
  {
    if password == "" {
      return 0, [], false;
    }
    errors := [];
    strength := 0;
    ghost var done: seq<Requirement> := [];
    for k := 0 to |RequirementOrder|
      invariant done == RequirementOrder[..k]
      invariant strength == Strength(done, password)
      invariant errors == Unmet(done, password)
    {
      var r := RequirementOrder[k];
      if Meets(r, password) {
        strength := strength + Weight(r);
      } else {
        errors := errors + [Hint(r)];
      }
      StepRequirement(done, r, password);
      done := done + [r];
    }
    assert done == RequirementOrder;
    valid := strength == FullStrength;
  }

  lemma {:induction false} StepRequirement(done: seq<Requirement>, r: Requirement, password: string)
    ensures Strength(done + [r], password) == Strength(done, password) + Gain(r, password)
    ensures Unmet(done + [r], password) == Unmet(done, password) + HintIf(r, password)
  {
    if done != [] {
      assert (done + [r])[1..] == done[1..] + [r];
      StepRequirement(done[1..], r, password);
    }
  }

  /** `passwordValid` as the effect leaves it. */
  predicate PasswordValid(password: string) {
    password != "" && Strength(RequirementOrder, password) == FullStrength
  }

  /** The strength meter's band, shared by its colour and its caption. */
  datatype Band = VeryWeak | Weak | Medium | Strong

  /** The band of a score given in eighths; the component compares the percentage
      (12.5 per eighth) with 0, 50 and 75, written here on twice the percentage. */
  function StrengthBand(eighths: nat): (b: Band)
    ensures b == VeryWeak <==> eighths == 0
  {
    var twicePercent := 25 * eighths;
    if twicePercent == 0 then VeryWeak
    else if twicePercent < 100 then Weak
    else if twicePercent < 150 then Medium
    else Strong
  }

  function BandColor(b: Band): (color: string)
    ensures color != ""
  {
    match b
    case VeryWeak => "bg-gray-200"
    case Weak => "bg-red-500"
    case Medium => "bg-yellow-500"
    case Strong => "bg-green-500"
  }

  function BandCaption(b: Band): (caption: string)
    ensures caption != ""
  {
    match b
    case VeryWeak => "Très faible"
    case Weak => "Faible"
    case Medium => "Moyenne"
    case Strong => "Forte"
  }

  /** Each band has its own caption and its own colour. */
  lemma BandsDistinct()
    ensures forall a: Band, b: Band :: a != b ==> BandCaption(a) != BandCaption(b) && BandColor(a) != BandColor(b)
  {
  }

  /** The bands in eighths: nothing met, under four, four or five, six and up. A valid
      password always shows "Forte"; so can one that misses the digit or the special
      character, which is not valid. */
  lemma BandThresholds(eighths: nat)
    ensures StrengthBand(eighths) == VeryWeak <==> eighths == 0
    ensures StrengthBand(eighths) == Weak <==> 1 <= eighths < 4
    ensures StrengthBand(eighths) == Medium <==> 4 <= eighths < 6
    ensures StrengthBand(eighths) == Strong <==> eighths >= 6
  {
  }

  lemma ValidShowsStrong(password: string)
    requires PasswordValid(password)
    ensures StrengthBand(Strength(RequirementOrder, password)) == Strong
  {
  }

  /** "Aa345678" misses only the special character: it scores 7 eighths, shows "Forte"
      and is not valid. */
  lemma StrongButNotValid()
    ensures Strength(RequirementOrder, "Aa345678") == 7
    ensures StrengthBand(7) == Strong && !PasswordValid("Aa345678")
  {
    var p := "Aa345678";
    UnfoldRequirements(p);
    SampleGains(p);
  }

  lemma SampleGains(p: string)
    requires p == "Aa345678"
    ensures Gain(MinLength, p) == 2 && Gain(Uppercase, p) == 2 && Gain(Lowercase, p) == 2
    ensures Gain(Digit, p) == 1 && Gain(Special, p) == 0
  {
    assert |p| == 8 && Utf16Length(p) == 8;
    assert p[0] == 'A' && p[1] == 'a' && p[2] == '3';
    forall i | 0 <= i < |p| ensures !IsSpecial(p[i]) {
      AlphanumericNotSpecial(p[i]);
    }
  }

  lemma AlphanumericNotSpecial(c: char)
    requires 'A' <= c <= 'Z' || 'a' <= c <= 'z' || '0' <= c <= '9'
    ensures !IsSpecial(c)
  {
  }

  // ---------------------------------------------------------------- confirmation

  const MismatchMessage: string := "Les mots de passe ne correspondent pas"

  /** The confirmation effect: valid exactly when non-empty and equal to the password;
      the mismatch message shows only for a non-empty, different confirmation. */
  function ConfirmCheck(confirm: string, password: string): (r: (bool, Option<string>))
    ensures r.0 <==> confirm != "" && confirm == password
    ensures r.1.Some? <==> confirm != "" && confirm != password
    ensures r.1.Some? ==> r.1.value == MismatchMessage
  {
    if confirm == "" then (false, None)
    else if confirm == password then (true, None)
    else (false, Some(MismatchMessage))
  }

  // ---------------------------------------------------------------- submission

  /** The `signUp` call the form makes: always for the role "client", with trimmed names. */
  datatype SignUpRequest = SignUpRequest(email: string, password: string, role: string, firstName: string, lastName: string)

  /** How the awaited `signUp` call ended. */
  datatype SignUpOutcome = Succeeded | ThrewError(message: string) | ThrewOther

  const NamesMessage: string := "Veuillez entrer votre nom et prénom"
  const EmailMessage: string := "Veuillez entrer une adresse email valide"
  const PasswordMessage: string := "Veuillez entrer un mot de passe valide"
  const TermsMessage: string := "Vous devez accepter les conditions d'utilisation"
  const FallbackMessage: string := "Une erreur est survenue"

  /** The form's state: its inputs and the `loading`/`error` flags. */
  class Form {
    var firstName: string
    var lastName: string
    var email: string
    var password: string
    var confirmPassword: string
    var acceptTerms: bool
    var loading: bool
    var error: Option<string>

    /** The empty form. */
    constructor ()
      ensures firstName == "" && lastName == "" && email == "" && password == "" && confirmPassword == ""
      ensures !acceptTerms && !loading && error == None
    {
      firstName, lastName, email, password, confirmPassword := "", "", "", "", "";
      acceptTerms, loading, error := false, false, None;
    }

    predicate NamesGiven()
      reads this`firstName, this`lastName
    {
      Trim(firstName) != "" && Trim(lastName) != ""
    }

    predicate EmailValid()
      reads this`email
    {
      EmailCheck(email).0
    }

    predicate ConfirmValid()
      reads this`confirmPassword, this`password
    {
      ConfirmCheck(confirmPassword, password).0
    }

    /** The message `handleSubmit` stops with: the first failing check in the order
        names, e-mail, password, confirmation, terms; `None` when all pass. */
    function FirstFailure(): (m: Option<string>)
      reads this`firstName, this`lastName, this`email, this`password, this`confirmPassword, this`acceptTerms
      ensures m == None <==> NamesGiven() && EmailValid() && PasswordValid(password) && ConfirmValid() && acceptTerms
      ensures !NamesGiven() ==> m == Some(NamesMessage)
      ensures NamesGiven() && !EmailValid() ==> m == Some(EmailMessage)
      ensures NamesGiven() && EmailValid() && !PasswordValid(password) ==> m == Some(PasswordMessage)
      ensures NamesGiven() && EmailValid() && PasswordValid(password) && !ConfirmValid() ==> m == Some(MismatchMessage)
      ensures NamesGiven() && EmailValid() && PasswordValid(password) && ConfirmValid() && !acceptTerms ==> m == Some(TermsMessage)
    {
      if !NamesGiven() then Some(NamesMessage)
      else if !EmailValid() then Some(EmailMessage)
      else if !PasswordValid(password) then Some(PasswordMessage)
      else if !ConfirmValid() then Some(MismatchMessage)
      else if !acceptTerms then Some(TermsMessage)
      else None
    }

    /** The submit button's `disabled` expression. */
    predicate SubmitDisabled()
      reads this
    {
      loading || !NamesGiven() || !EmailValid() || !PasswordValid(password) || !ConfirmValid() || !acceptTerms
    }

    /** The button is enabled exactly when no request is in flight and submitting would
        reach `signUp`. */
    lemma DisabledIffWouldRefuse()
      ensures SubmitDisabled() <==> loading || FirstFailure().Some?
    {
    }

    /** `handleSubmit`: stops at the first failing check with its message, else calls
        `signUp` (whose outcome is a parameter) with the trimmed names and the role
        "client", and reports a thrown error's message. `loading` ends false either way;
        the inputs are untouched. */
    method Submit(outcome: SignUpOutcome) returns (request: Option<SignUpRequest>)
      modifies this
      ensures firstName == old(firstName) && lastName == old(lastName) && email == old(email)
      ensures password == old(password) && confirmPassword == old(confirmPassword) && acceptTerms == old(acceptTerms)
      ensures !loading
      ensures old(FirstFailure()).Some? ==> request == None && error == old(FirstFailure())
      ensures old(FirstFailure()).None? ==>
        request == Some(SignUpRequest(email, password, "client", Trim(firstName), Trim(lastName)))
      ensures old(FirstFailure()).None? ==>
        error == (match outcome
                  case Succeeded => None
                  case ThrewError(msg) => Some(msg)
                  case ThrewOther => Some(FallbackMessage))
    {
      loading := true;
      error := None;
      if Trim(firstName) == "" || Trim(lastName) == "" {
        error := Some(NamesMessage);
        loading := false;
        return None;
      }
      if !EmailCheck(email).0 {
        error := Some(EmailMessage);
        loading := false;
        return None;
      }
      if !PasswordValid(password) {
        error := Some(PasswordMessage);
        loading := false;
        return None;
      }
      if !ConfirmCheck(confirmPassword, password).0 {
        error := Some(MismatchMessage);
        loading := false;
        return None;
      }
      if !acceptTerms {
        error := Some(TermsMessage);
        loading := false;
        return None;
      }
      request := Some(SignUpRequest(email, password, "client", Trim(firstName), Trim(lastName)));
      match outcome {
        case Succeeded =>
        case ThrewError(msg) => error := Some(msg);
        case ThrewOther => error := Some(FallbackMessage);
      }
      loading := false;
    }
  }
}
