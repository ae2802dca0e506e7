/** The sign-up route `app/routes/join.tsx`: the form action's chain of
    checks, of which the first failure is reported, the account creation
    that follows when all pass, and the password-strength meter. */
module Join {
  import opened Builtins

  /** A form field as `formData.get` returns it: missing (`null`), a string,
      or an uploaded file. */
  datatype FormValue = Absent | Text(text: string) | Upload

  /** The `errors` object of a rejected submission; `None` is `null`. */
  datatype FieldErrors = FieldErrors(email: Option<string>, password: Option<string>)

  const InvalidEmailMessage := "L'adresse email est invalide"
  const PasswordRequiredMessage := "Le mot de passe est requis"
  const PasswordTooShortMessage := "Le mot de passe doit contenir au moins 8 caractères"
  const EmailTakenMessage := "Un utilisateur avec cette adresse email existe déjà"
  const MinPasswordLength := 8
  const BadRequestStatus := 400

  /** `validateEmail(email)`. The helper itself lives elsewhere: the model
      takes its test on strings as a parameter and treats a missing field or
      a file as invalid. */
  predicate EmailValid(email: FormValue, validateEmail: string -> bool)
  {
    email.Text? && validateEmail(email.text)
  }

  datatype Verdict = Rejected(errors: FieldErrors) | Accepted(email: string, password: string)

  /** The checks of `action`, in source order, each returning early;
      `registered` is the set of e-mail addresses `getUserByEmail` finds. */
  function Validate(email: FormValue, password: FormValue, validateEmail: string -> bool, registered: set<string>): (v: Verdict)
    ensures v.Accepted? ==> validateEmail(v.email) && |v.password| >= MinPasswordLength && v.email !in registered
  {
    if !EmailValid(email, validateEmail) then
      Rejected(FieldErrors(Some(InvalidEmailMessage), None))
    else if !password.Text? || |password.text| == 0 then
      Rejected(FieldErrors(None, Some(PasswordRequiredMessage)))
    else if |password.text| < MinPasswordLength then
      Rejected(FieldErrors(None, Some(PasswordTooShortMessage)))
    else if email.text in registered then
      Rejected(FieldErrors(Some(EmailTakenMessage), None))
    else
      Accepted(email.text, password.text)
  }

  /** One validation rule: whether it holds, and what is reported if not. */
  datatype Rule = Rule(holds: bool, errors: FieldErrors)

  /** The four rules of the sign-up form, each stated on its own. */
  function Rules(email: FormValue, password: FormValue, validateEmail: string -> bool, registered: set<string>): seq<Rule>
  {
    [ Rule(EmailValid(email, validateEmail), FieldErrors(Some(InvalidEmailMessage), None)),
      Rule(password.Text? && password.text != "", FieldErrors(None, Some(PasswordRequiredMessage))),
      Rule(!password.Text? || |password.text| >= MinPasswordLength, FieldErrors(None, Some(PasswordTooShortMessage))),
      Rule(!(email.Text? && email.text in registered), FieldErrors(Some(EmailTakenMessage), None)) ]
  }

  /** The report of the first rule that fails, if any. */
  function FirstFailure(rules: seq<Rule>): (r: Option<FieldErrors>)
    ensures r.None? <==> forall i :: 0 <= i < |rules| ==> rules[i].holds
    ensures r.Some? ==> exists i :: 0 <= i < |rules| && !rules[i].holds && r.value == rules[i].errors
                          && forall j :: 0 <= j < i ==> rules[j].holds
  {
    if rules == [] then None
    else if !rules[0].holds then Some(rules[0].errors)
    else
      var r := FirstFailure(rules[1..]);
      assert forall i :: 1 <= i < |rules| ==> rules[i] == rules[1..][i - 1];
      if r.Some? then
        assert exists i :: 0 <= i < |rules[1..]| && !rules[1..][i].holds && r.value == rules[1..][i].errors
                 && forall j :: 0 <= j < i ==> rules[1..][j].holds;
        var i :| 0 <= i < |rules[1..]| && !rules[1..][i].holds && r.value == rules[1..][i].errors
                 && forall j :: 0 <= j < i ==> rules[1..][j].holds;
        assert !rules[i + 1].holds && forall j :: 0 <= j < i + 1 ==> rules[j].holds;
        r
      else r
  }

  /** The action reports exactly the first rule that fails, in the order
      e-mail shape, password present, password length, address free; it
      accepts the submitted strings when all four hold. */
  lemma ValidateReportsFirstFailure(email: FormValue, password: FormValue, validateEmail: string -> bool, registered: set<string>)
    ensures FirstFailure(Rules(email, password, validateEmail, registered)).Some? ==>
      Validate(email, password, validateEmail, registered) ==
      Rejected(FirstFailure(Rules(email, password, validateEmail, registered)).value)
    ensures FirstFailure(Rules(email, password, validateEmail, registered)).None? ==>
      && email.Text? && password.Text?
      && Validate(email, password, validateEmail, registered) == Accepted(email.text, password.text)
  {
    var rules := Rules(email, password, validateEmail, registered);
    var ff := FirstFailure(rules);
    if !rules[0].holds {
      assert ff == Some(rules[0].errors);
    } else if !rules[1].holds {
      assert ff == FirstFailure(rules[1..]) == Some(rules[1].errors);
    } else if !rules[2].holds {
      assert ff == FirstFailure(rules[1..]) == FirstFailure(rules[1..][1..]) == Some(rules[2].errors);
    } else if !rules[3].holds {
      assert ff == FirstFailure(rules[1..]) == FirstFailure(rules[1..][1..])
                == FirstFailure(rules[1..][1..][1..]) == Some(rules[3].errors);
    } else {
      assert ff.None?;
    }
  }

  /** A submission is accepted exactly when the address passes
      `validateEmail`, the password is a string of at least 8 characters and
      the address is not registered; then the submitted strings go on. */
  lemma AcceptedExactly(email: FormValue, password: FormValue, validateEmail: string -> bool, registered: set<string>)
    ensures Validate(email, password, validateEmail, registered).Accepted? <==>
      && email.Text? && validateEmail(email.text)
      && password.Text? && |password.text| >= MinPasswordLength
      && email.text !in registered
    ensures Validate(email, password, validateEmail, registered).Accepted? ==>
      Validate(email, password, validateEmail, registered) == Accepted(email.text, password.text)
  {
  }

  /** A rejection names exactly one field: the e-mail field (password
      `null`) for an invalid or taken address, the password field (e-mail
      `null`) for a missing or short password. */
  lemma RejectionNamesOneField(email: FormValue, password: FormValue, validateEmail: string -> bool, registered: set<string>)
    ensures Validate(email, password, validateEmail, registered).Rejected? ==>
      var e := Validate(email, password, validateEmail, registered).errors;
      (e.email.Some? && e.password.None?) || (e.email.None? && e.password.Some?)
    ensures !EmailValid(email, validateEmail) ==>
      Validate(email, password, validateEmail, registered) == Rejected(FieldErrors(Some(InvalidEmailMessage), None))
  {
  }

  // ---------------------------------------------------------------------
  // The user store and the action

  datatype User = User(id: string, email: string)

  /** The user table, as far as sign-up sees it: `getUserByEmail` reads it
      and `createUser` appends to it. Password hashing is not modelled. */
  class UserStore {
    var users: seq<User>

    constructor (users: seq<User>)
      ensures this.users == users
    {
      this.users := users;
    }

    function Emails(): set<string>
      reads this
    {
      set u | u in users :: u.email
    }

    /** `getUserByEmail`. */
    function GetUserByEmail(email: string): (r: Option<User>)
      reads this
      ensures r.Some? <==> email in Emails()
      ensures r.Some? ==> r.value in users && r.value.email == email
    {
      var p := (u: User) => u.email == email;
      FindAgreesWithFindIndex(users, p);
      assert email in Emails() ==> exists i :: 0 <= i < |users| && p(users[i]);
      Find(users, p)
    }

    /** `createUser`, with the id the database would generate passed in. */
    method CreateUser(email: string, password: string, freshId: string) returns (user: User)
      modifies this
      ensures user == User(freshId, email)
      ensures users == old(users) + [user]
    {
      user := User(freshId, email);
      users := users + [user];
    }
  }

  /** What the action answers: a 400 with field errors, or a new session. */
  datatype Reply = BadRequest(status: int, errors: FieldErrors)
                 | SessionCreated(userId: string, redirectTo: string, remember: bool)

  /** `action`: on the first failing check a 400 and no change to the
      store; otherwise exactly one new user, and a session for that user's
      id with `remember` false. `redirectTo` is what `safeRedirect` made of
      the form's field. */
  method Action(store: UserStore, email: FormValue, password: FormValue, redirectTo: string,
                validateEmail: string -> bool, freshId: string) returns (reply: Reply)
    modifies store
    ensures match Validate(email, password, validateEmail, old(store.Emails()))
      case Rejected(e) => reply == BadRequest(BadRequestStatus, e) && store.users == old(store.users)
      case Accepted(em, _) =>
        && reply == SessionCreated(freshId, redirectTo, false)
        && store.users == old(store.users) + [User(freshId, em)]
  {
    if !EmailValid(email, validateEmail) {
      return BadRequest(BadRequestStatus, FieldErrors(Some(InvalidEmailMessage), None));
    }
    if !password.Text? || |password.text| == 0 {
      return BadRequest(BadRequestStatus, FieldErrors(None, Some(PasswordRequiredMessage)));
    }
    if |password.text| < MinPasswordLength {
      return BadRequest(BadRequestStatus, FieldErrors(None, Some(PasswordTooShortMessage)));
    }
    var existingUser := store.GetUserByEmail(email.text);
    if existingUser.Some? {
      return BadRequest(BadRequestStatus, FieldErrors(Some(EmailTakenMessage), None));
    }
    var user := store.CreateUser(email.text, password.text, freshId);
    reply := SessionCreated(user.id, redirectTo, false);
  }

  // ---------------------------------------------------------------------
  // Password strength

  predicate IsUpper(c: char) { 'A' <= c <= 'Z' }
  predicate IsDigit(c: char) { '0' <= c <= '9' }
  predicate IsSymbol(c: char) { !(IsUpper(c) || 'a' <= c <= 'z' || IsDigit(c)) }

  /** `password.match(/[class]/)` succeeds: some character is in the class. */
  predicate HasCharIn(password: string, charClass: char -> bool)
  {
    exists i | 0 <= i < |password| :: charClass(password[i])
  }

  /** The four things the meter rewards. */
  datatype Criterion = LongEnough | HasUppercase | HasDigit | HasSymbol

  const AllCriteria: seq<Criterion> := [LongEnough, HasUppercase, HasDigit, HasSymbol]

  predicate Meets(password: string, c: Criterion)
  {
    match c
    case LongEnough => |password| >= MinPasswordLength
    case HasUppercase => HasCharIn(password, IsUpper)
    case HasDigit => HasCharIn(password, IsDigit)
    case HasSymbol => HasCharIn(password, IsSymbol)
  }

  /** The strength: how many of the four criteria the password meets, so
      never more than four. */
  function Strength(password: string): (s: nat)
    ensures s <= |AllCriteria|
  {
    |Filter(AllCriteria, (c: Criterion) => Meets(password, c))|
  }

  function Point(b: bool): nat { if b then 1 else 0 }

  /** The strength is one point per criterion met. */
  lemma StrengthIsSumOfPoints(password: string)
    ensures Strength(password) == Point(Meets(password, LongEnough)) + Point(Meets(password, HasUppercase))
                                + Point(Meets(password, HasDigit)) + Point(Meets(password, HasSymbol))
  {
    var p := (c: Criterion) => Meets(password, c);
    var cs := AllCriteria;
    assert cs[1..] == [HasUppercase, HasDigit, HasSymbol];
    assert cs[1..][1..] == [HasDigit, HasSymbol];
    assert cs[1..][1..][1..] == [HasSymbol];
    assert cs[1..][1..][1..][1..] == [];
    assert |Filter(cs[1..][1..][1..], p)| == Point(p(HasSymbol));
    assert |Filter(cs[1..][1..], p)| == Point(p(HasDigit)) + Point(p(HasSymbol));
    assert |Filter(cs[1..], p)| == Point(p(HasUppercase)) + Point(p(HasDigit)) + Point(p(HasSymbol));
  }

  /** `evaluatePasswordStrength`: a point for each test that passes. */
  method EvaluatePasswordStrength(password: string) returns (strength: int)
    ensures strength == Strength(password)
    ensures 0 <= strength <= 4
  {
    StrengthIsSumOfPoints(password);
    strength := 0;
    if |password| >= MinPasswordLength {
      strength := strength + 1;
    }
    if HasCharIn(password, IsUpper) {
      strength := strength + 1;
    }
    if HasCharIn(password, IsDigit) {
      strength := strength + 1;
    }
    if HasCharIn(password, IsSymbol) {
      strength := strength + 1;
    }
  }

  /** Typing more characters never lowers the strength. */
  lemma StrengthGrowsWithTyping(password: string, more: string)
    ensures Strength(password) <= Strength(password + more)
  {
    StrengthIsSumOfPoints(password);
    StrengthIsSumOfPoints(password + more);
    var longer := password + more;
    forall charClass: char -> bool | HasCharIn(password, charClass)
      ensures HasCharIn(longer, charClass)
    {
      var i :| 0 <= i < |password| && charClass(password[i]);
      assert longer[i] == password[i];
    }
  }

  /** The meter's caption for a strength: the prompt for nothing yet,
      "Très fort" from four points on. */
  function StrengthLabel(strength: int): (caption: string)
    ensures caption == "Entrez un mot de passe" <==> strength == 0
    ensures 0 <= strength ==> (caption == "Très fort" <==> strength >= 4)
  {
    if strength == 0 then "Entrez un mot de passe"
    else if strength == 1 then "Faible"
    else if strength == 2 then "Moyen"
    else if strength == 3 then "Fort"
    else "Très fort"
  }

  /** The five strengths have five different captions, and "Très fort" is
      shown exactly for a password that meets all four criteria. */
  lemma StrengthLabels(password: string)
    ensures forall i, j :: 0 <= i < j <= 4 ==> StrengthLabel(i) != StrengthLabel(j)
    ensures StrengthLabel(Strength(password)) == "Très fort" <==>
      forall k :: 0 <= k < |AllCriteria| ==> Meets(password, AllCriteria[k])
  {
    StrengthIsSumOfPoints(password);
  }
}
