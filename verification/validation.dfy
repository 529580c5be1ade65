/** The express-validator chains of the backend and the middleware that turns
    their errors into a 400 response.

    How a chain behaves, in the terms used below: a chain never stops at its
    first failure, so every failed validator adds one error; a validator reads
    an absent field as the empty string; `optional()` skips the whole chain
    when the field is absent; `trim()` rewrites the field before the
    validators after it run, and since it first turns an absent field into
    the empty string, a trimmed field is present from then on, in the errors
    and in the body. `isEmail`, `normalizeEmail` and `isISO8601` are
    library predicates and stay parameters. */
module Validation {
  import opened Wrappers
  import opened Text
  import opened Http

  /** The request fields the chains look at. */
  datatype Field =
    | Username | Password | Email
    | Name | Dose | Frequency | Time | ExpiryDate | Notes
    | Title | Description | Date | ReminderTime | Deadline | Priority
  {
    /** The field's name in the JSON body and in error reports. */
    function Key(): string {
      match this
      case Username => "username"
      case Password => "password"
      case Email => "email"
      case Name => "name"
      case Dose => "dose"
      case Frequency => "frequency"
      case Time => "time"
      case ExpiryDate => "expiry_date"
      case Notes => "notes"
      case Title => "title"
      case Description => "description"
      case Date => "date"
      case ReminderTime => "reminder_time"
      case Deadline => "deadline"
      case Priority => "priority"
    }
  }

  /** One entry of `validationResult(req)`. */
  datatype FieldError = FieldError(field: Field, message: string, value: Option<string>)

  /** The errors of a set of chains, and the request body as the sanitizers
      left it. */
  datatype Checked<+B> = Checked(errors: seq<FieldError>, body: B)

  /** The fields that have at least one error. */
  function FailedFields(errors: seq<FieldError>): set<Field> {
    if errors == [] then {} else {errors[0].field} + FailedFields(errors[1..])
  }

  /** An error list is empty exactly when it names no field. */
  lemma NoFailedFields(errors: seq<FieldError>)
    ensures FailedFields(errors) == {} <==> errors == []
  {
    if errors != [] {
      assert errors[0].field in FailedFields(errors);
    }
  }

  lemma {:induction false} FailedFieldsAppend(a: seq<FieldError>, b: seq<FieldError>)
    ensures FailedFields(a + b) == FailedFields(a) + FailedFields(b)
  {
    if a == [] {
      assert a + b == b;
    } else {
      assert (a + b)[0] == a[0];
      assert (a + b)[1..] == a[1..] + b;
      FailedFieldsAppend(a[1..], b);
    }
  }

  /** The errors of consecutive chains name the fields either one names. */
  lemma FailedFieldsAppend3(a: seq<FieldError>, b: seq<FieldError>, c: seq<FieldError>)
    ensures FailedFields(a + b + c) == FailedFields(a) + FailedFields(b) + FailedFields(c)
  {
    FailedFieldsAppend(a, b);
    FailedFieldsAppend(a + b, c);
  }

  /** `{field}` when its rule is broken, nothing otherwise. */
  function FailIf(broken: bool, field: Field): set<Field> {
    if broken then {field} else {}
  }

  /** What a validator sees for a field. */
  function Seen(v: Option<string>): string {
    v.GetOr("")
  }

  /** A field after a `trim()` sanitizer: the sanitizer reads an absent
      field as the empty string and writes its result back, so the field is
      present afterwards. */
  function Trimmed(v: Option<string>): Option<string> {
    Some(Trim(Seen(v)))
  }

  /** One validator of a chain: no error when it passes, one when it fails. */
  function Check(ok: bool, field: Field, message: string, value: Option<string>): (r: seq<FieldError>)
    ensures ok <==> r == []
    ensures FailedFields(r) == FailIf(!ok, field)
    ensures forall e :: e in r ==> e == FieldError(field, message, value)
  {
    if ok then [] else [FieldError(field, message, value)]
  }

  /** A chain of two validators on one field: one error per failed
      validator, in chain order. */
  function Check2(ok1: bool, m1: string, ok2: bool, m2: string, field: Field, value: Option<string>)
    : (r: seq<FieldError>)
    ensures r == [] <==> ok1 && ok2
    ensures FailedFields(r) == FailIf(!(ok1 && ok2), field)
    ensures !ok1 ==> r[0] == FieldError(field, m1, value)
    ensures forall e :: e in r ==> e.field == field && e.value == value
  {
    var r := Check(ok1, field, m1, value) + Check(ok2, field, m2, value);
    FailedFieldsAppend(Check(ok1, field, m1, value), Check(ok2, field, m2, value));
    r
  }

  /** An `optional()` chain with one validator: skipped when the field is
      absent. */
  function CheckOptional(v: Option<string>, ok: string -> bool, field: Field, message: string)
    : (r: seq<FieldError>)
    ensures r == [] <==> v.None? || ok(v.value)
    ensures FailedFields(r) == FailIf(v.Some? && !ok(v.value), field)
    ensures forall e :: e in r ==> e == FieldError(field, message, v)
  {
    if v.None? then [] else Check(ok(v.value), field, message, v)
  }

  // ---------------------------------------------------------------------
  // isLength
  // ---------------------------------------------------------------------

  predicate IsVariationSelector(c: char) {
    c == '\U{FE0E}' || c == '\U{FE0F}'
  }

  function CountSelectors(s: string): (n: nat)
    ensures n <= |s|
  {
    if s == [] then 0
    else (if IsVariationSelector(s[0]) then 1 else 0) + CountSelectors(s[1..])
  }

  /** The length `isLength` measures: code points, not counting the
      presentation selectors U+FE0E and U+FE0F. */
  function VisibleLength(s: string): (n: nat)
    ensures n <= |s|
  {
    |s| - CountSelectors(s)
  }

  lemma {:induction false} SelectorFreeCount(s: string)
    ensures (forall i :: 0 <= i < |s| ==> !IsVariationSelector(s[i])) ==> CountSelectors(s) == 0
  {
    if s != [] {
      SelectorFreeCount(s[1..]);
      if forall i :: 0 <= i < |s| ==> !IsVariationSelector(s[i]) {
        assert forall i :: 0 <= i < |s[1..]| ==> s[1..][i] == s[i + 1];
      }
    }
  }

  /** `isLength({ min, max })`. */
  predicate LengthWithin(s: string, min: nat, max: nat) {
    min <= VisibleLength(s) <= max
  }

  /** `isLength({ min })`. */
  predicate LengthAtLeast(s: string, min: nat) {
    min <= VisibleLength(s)
  }

  // ---------------------------------------------------------------------
  // Regular expressions
  // ---------------------------------------------------------------------

  predicate IsUsernameChar(c: char) {
    ('a' <= c <= 'z') || ('A' <= c <= 'Z') || ('0' <= c <= '9') || c == '_'
  }

  /** `/^[a-zA-Z0-9_]+$/` */
  predicate UsernamePattern(s: string) {
    |s| >= 1 && forall i :: 0 <= i < |s| ==> IsUsernameChar(s[i])
  }

  /** Length of the text before the first line terminator. */
  function FirstLineLength(s: string): (k: nat)
    ensures k <= |s|
  {
    if s == [] || IsLineTerminator(s[0]) then 0 else 1 + FirstLineLength(s[1..])
  }

  /** The first line ends at the first line terminator, or at the end. */
  lemma {:induction false} FirstLineStops(s: string)
    ensures forall i :: 0 <= i < FirstLineLength(s) ==> !IsLineTerminator(s[i])
    ensures FirstLineLength(s) < |s| ==> IsLineTerminator(s[FirstLineLength(s)])
  {
    if s != [] && !IsLineTerminator(s[0]) {
      FirstLineStops(s[1..]);
      assert forall i :: 0 < i < |s| ==> s[i] == s[1..][i - 1];
    }
  }

  predicate HasCharIn(s: string, lo: char, hi: char) {
    exists i :: 0 <= i < |s| && lo <= s[i] <= hi
  }

  /** `/^(?=.*[a-z])(?=.*[A-Z])(?=.*\d)/`: each lookahead starts at the
      beginning and `.` does not cross a line terminator, so a lower-case
      letter, an upper-case letter and a digit must all occur before the
      first line break. */
  predicate PasswordPattern(s: string) {
    var line := s[..FirstLineLength(s)];
    HasCharIn(line, 'a', 'z') && HasCharIn(line, 'A', 'Z') && HasCharIn(line, '0', '9')
  }

  // ---------------------------------------------------------------------
  // Messages
  // ---------------------------------------------------------------------

  const UsernameLengthMessage := "El usuario debe tener entre 3 y 50 caracteres"
  const UsernameCharsMessage := "El usuario solo puede contener letras, números y guiones bajos"
  const PasswordLengthMessage := "La contraseña debe tener al menos 6 caracteres"
  const PasswordCharsMessage := "La contraseña debe contener al menos una mayúscula, una minúscula y un número"
  const EmailMessage := "El email debe tener un formato válido"
  const LoginUsernameMessage := "El usuario es requerido"
  const LoginPasswordMessage := "La contraseña es requerida"
  const MedNameMessage := "El nombre del medicamento es requerido y no puede exceder 100 caracteres"
  const MedDoseMessage := "La dosis es requerida y no puede exceder 100 caracteres"
  const MedFrequencyMessage := "La frecuencia es requerida y no puede exceder 100 caracteres"
  const MedTimeMessage := "El horario es requerido"
  const MedExpiryMessage := "La fecha de caducidad debe tener formato ISO válido"
  const MedNotesMessage := "Las notas no pueden exceder 500 caracteres"
  const ReminderTitleMessage := "El título es requerido y no puede exceder 100 caracteres"
  const ReminderDescriptionMessage := "La descripción no puede exceder 500 caracteres"
  const ReminderDateMessage := "La fecha debe tener formato ISO válido"
  const ReminderTimeMessage := "El horario del recordatorio es requerido"
  const GoalTitleMessage := "El título es requerido y no puede exceder 200 caracteres"
  const GoalDescriptionMessage := "La descripción no puede exceder 1000 caracteres"
  const GoalDeadlineMessage := "La fecha límite debe tener formato ISO válido"
  const GoalPriorityMessage := "La prioridad debe ser: baja, media o alta"

  // ---------------------------------------------------------------------
  // validateRegister
  // ---------------------------------------------------------------------

  datatype RegisterBody = RegisterBody(username: Option<string>, password: Option<string>, email: Option<string>)
  {
    /** The body's value of a field; a field it does not carry is absent. */
    function Value(f: Field): Option<string> {
      match f
      case Username => username
      case Password => password
      case Email => email
      case _ => None
    }
  }

  /** Username rule: 3 to 50 characters after trimming, letters, digits and
      underscores only. */
  predicate RegisterUsernameOk(u: Option<string>) {
    var t := Trim(Seen(u));
    LengthWithin(t, 3, 50) && UsernamePattern(t)
  }

  /** Password rule: at least 6 characters with a lower-case letter, an
      upper-case letter and a digit on its first line. */
  predicate RegisterPasswordOk(p: Option<string>) {
    LengthAtLeast(Seen(p), 6) && PasswordPattern(Seen(p))
  }

  /** Email rule: absent, or accepted by `isEmail`. */
  predicate RegisterEmailOk(e: Option<string>, isEmail: string -> bool) {
    OptionalOk(e, isEmail)
  }

  /** The username chain: `trim()`, then length, then character class. */
  function UsernameErrors(u: Option<string>): (r: seq<FieldError>)
    ensures FailedFields(r) == FailIf(!RegisterUsernameOk(u), Username)
    ensures !LengthWithin(Trim(Seen(u)), 3, 50) ==>
      r[0] == FieldError(Username, UsernameLengthMessage, Some(Trim(Seen(u))))
    ensures forall e :: e in r ==> e.field == Username && e.value == Some(Trim(Seen(u)))
  {
    var t := Trimmed(u);
    assert Seen(t) == Trim(Seen(u));
    Check2(LengthWithin(Seen(t), 3, 50), UsernameLengthMessage,
           UsernamePattern(Seen(t)), UsernameCharsMessage, Username, t)
  }

  /** The password chain: length, then the character-class lookaheads. */
  function PasswordErrors(p: Option<string>): (r: seq<FieldError>)
    ensures FailedFields(r) == FailIf(!RegisterPasswordOk(p), Password)
    ensures forall e :: e in r ==> e.field == Password && e.value == p
  {
    Check2(LengthAtLeast(Seen(p), 6), PasswordLengthMessage,
           PasswordPattern(Seen(p)), PasswordCharsMessage, Password, p)
  }

  /** `validateRegister`: the reported fields are exactly those whose rule
      is broken; the length error of a too short or too long username comes
      first; the body leaves with a trimmed username and a normalised email. */
  function ValidateRegister(b: RegisterBody, isEmail: string -> bool, normalizeEmail: string -> string)
    : (r: Checked<RegisterBody>)
    ensures FailedFields(r.errors) ==
      FailIf(!RegisterUsernameOk(b.username), Username)
      + FailIf(!RegisterPasswordOk(b.password), Password)
      + FailIf(!RegisterEmailOk(b.email, isEmail), Email)
    ensures !LengthWithin(Trim(Seen(b.username)), 3, 50) ==>
      r.errors[0] == FieldError(Username, UsernameLengthMessage, Some(Trim(Seen(b.username))))
    ensures r.body.username == Some(Trim(Seen(b.username))) && r.body.password == b.password
    ensures r.body.email.Some? <==> b.email.Some?
    ensures b.email.Some? ==> r.body.email.value == normalizeEmail(b.email.value)
  {
    var ue := UsernameErrors(b.username);
    var pe := PasswordErrors(b.password);
    var ee := CheckOptional(b.email, isEmail, Email, EmailMessage);
    FailedFieldsAppend3(ue, pe, ee);
    var email := if b.email.None? then None else Some(normalizeEmail(b.email.value));
    var body := RegisterBody(Trimmed(b.username), b.password, email);
    Checked(ue + pe + ee, body)
  }

  // ---------------------------------------------------------------------
  // validateLogin
  // ---------------------------------------------------------------------

  datatype LoginBody = LoginBody(username: Option<string>, password: Option<string>)
  {
    function Value(f: Field): Option<string> {
      match f
      case Username => username
      case Password => password
      case _ => None
    }
  }

  /** `validateLogin`: a username that is blank after trimming and an empty
      or absent password are reported; nothing else is. */
  function ValidateLogin(b: LoginBody): (r: Checked<LoginBody>)
    ensures FailedFields(r.errors) ==
      FailIf(Trim(Seen(b.username)) == [], Username) + FailIf(Seen(b.password) == [], Password)
    ensures r.body == LoginBody(Some(Trim(Seen(b.username))), b.password)
  {
    var u := Trimmed(b.username);
    assert Seen(u) == Trim(Seen(b.username));
    var ue := Check(Seen(u) != [], Username, LoginUsernameMessage, u);
    var pe := Check(Seen(b.password) != [], Password, LoginPasswordMessage, b.password);
    FailedFieldsAppend(ue, pe);
    Checked(ue + pe, LoginBody(u, b.password))
  }

  // ---------------------------------------------------------------------
  // validateMedication
  // ---------------------------------------------------------------------

  datatype MedicationBody = MedicationBody(
    name: Option<string>, dose: Option<string>, frequency: Option<string>,
    time: Option<string>, expiryDate: Option<string>, notes: Option<string>)
  {
    function Value(f: Field): Option<string> {
      match f
      case Name => name
      case Dose => dose
      case Frequency => frequency
      case Time => time
      case ExpiryDate => expiryDate
      case Notes => notes
      case _ => None
    }
  }

  /** A required text of 1 to `max` characters after trimming. */
  predicate TrimmedTextOk(v: Option<string>, max: nat) {
    LengthWithin(Trim(Seen(v)), 1, max)
  }

  /** An optional text of at most `max` characters. */
  predicate OptionalTextOk(v: Option<string>, max: nat) {
    v.None? || VisibleLength(v.value) <= max
  }

  /** An optional value accepted by `ok` when present. */
  predicate OptionalOk(v: Option<string>, ok: string -> bool) {
    v.None? || ok(v.value)
  }

  /** A `trim()` + `isLength({ min: 1, max })` chain. */
  function TrimmedTextErrors(v: Option<string>, max: nat, field: Field, message: string): (r: seq<FieldError>)
    ensures FailedFields(r) == FailIf(!TrimmedTextOk(v, max), field)
    ensures forall e :: e in r ==> e == FieldError(field, message, Some(Trim(Seen(v))))
  {
    var t := Trimmed(v);
    assert Seen(t) == Trim(Seen(v));
    Check(LengthWithin(Seen(t), 1, max), field, message, t)
  }

  /** A `trim()` + `notEmpty()` chain. */
  function RequiredErrors(v: Option<string>, field: Field, message: string): (r: seq<FieldError>)
    ensures FailedFields(r) == FailIf(Trim(Seen(v)) == [], field)
    ensures forall e :: e in r ==> e == FieldError(field, message, Some(Trim(Seen(v))))
  {
    var t := Trimmed(v);
    assert Seen(t) == Trim(Seen(v));
    Check(Seen(t) != [], field, message, t)
  }

  /** An `optional()` + `isLength({ max })` chain. */
  function AtMostErrors(v: Option<string>, max: nat, field: Field, message: string): (r: seq<FieldError>)
    ensures FailedFields(r) == FailIf(!OptionalTextOk(v, max), field)
    ensures forall e :: e in r ==> e == FieldError(field, message, v)
  {
    CheckOptional(v, s => LengthWithin(s, 0, max), field, message)
  }

  /** An `optional()` chain with one library validator. */
  function OptionalErrors(v: Option<string>, ok: string -> bool, field: Field, message: string): (r: seq<FieldError>)
    ensures FailedFields(r) == FailIf(!OptionalOk(v, ok), field)
    ensures forall e :: e in r ==> e == FieldError(field, message, v)
  {
    CheckOptional(v, ok, field, message)
  }

  /** `validateMedication`: name, dose and frequency must be 1 to 100
      characters after trimming, the time must not be blank, an expiry date
      must be ISO 8601 and notes at most 500 characters. */
  function ValidateMedication(b: MedicationBody, isIso8601: string -> bool): (r: Checked<MedicationBody>)
    ensures FailedFields(r.errors) ==
      FailIf(!TrimmedTextOk(b.name, 100), Name)
      + FailIf(!TrimmedTextOk(b.dose, 100), Dose)
      + FailIf(!TrimmedTextOk(b.frequency, 100), Frequency)
      + FailIf(Trim(Seen(b.time)) == [], Time)
      + FailIf(!OptionalOk(b.expiryDate, isIso8601), ExpiryDate)
      + FailIf(!OptionalTextOk(b.notes, 500), Notes)
    ensures r.body == b.(name := Some(Trim(Seen(b.name))), dose := Some(Trim(Seen(b.dose))),
                         frequency := Some(Trim(Seen(b.frequency))), time := Some(Trim(Seen(b.time))))
  {
    var e1 := TrimmedTextErrors(b.name, 100, Name, MedNameMessage);
    var e2 := TrimmedTextErrors(b.dose, 100, Dose, MedDoseMessage);
    var e3 := TrimmedTextErrors(b.frequency, 100, Frequency, MedFrequencyMessage);
    var e4 := RequiredErrors(b.time, Time, MedTimeMessage);
    var e5 := OptionalErrors(b.expiryDate, isIso8601, ExpiryDate, MedExpiryMessage);
    var e6 := AtMostErrors(b.notes, 500, Notes, MedNotesMessage);
    FailedFieldsAppend3(e1, e2, e3);
    FailedFieldsAppend3(e1 + e2 + e3, e4, e5);
    FailedFieldsAppend(e1 + e2 + e3 + e4 + e5, e6);
    var body := b.(name := Trimmed(b.name), dose := Trimmed(b.dose),
                   frequency := Trimmed(b.frequency), time := Trimmed(b.time));
    Checked(e1 + e2 + e3 + e4 + e5 + e6, body)
  }

  // ---------------------------------------------------------------------
  // validateReminder
  // ---------------------------------------------------------------------

  datatype ReminderBody = ReminderBody(
    title: Option<string>, description: Option<string>, date: Option<string>, reminderTime: Option<string>)
  {
    function Value(f: Field): Option<string> {
      match f
      case Title => title
      case Description => description
      case Date => date
      case ReminderTime => reminderTime
      case _ => None
    }
  }

  /** `validateReminder`: the title must be 1 to 100 characters after
      trimming, a description at most 500, the trimmed date ISO 8601 (an
      absent date is checked as the empty string) and the time not blank. */
  function ValidateReminder(b: ReminderBody, isIso8601: string -> bool): (r: Checked<ReminderBody>)
    ensures FailedFields(r.errors) ==
      FailIf(!TrimmedTextOk(b.title, 100), Title)
      + FailIf(!OptionalTextOk(b.description, 500), Description)
      + FailIf(!isIso8601(Trim(Seen(b.date))), Date)
      + FailIf(Trim(Seen(b.reminderTime)) == [], ReminderTime)
    ensures r.body == b.(title := Some(Trim(Seen(b.title))), date := Some(Trim(Seen(b.date))),
                         reminderTime := Some(Trim(Seen(b.reminderTime))))
  {
    var date := Trimmed(b.date);
    assert Seen(date) == Trim(Seen(b.date));
    var e1 := TrimmedTextErrors(b.title, 100, Title, ReminderTitleMessage);
    var e2 := AtMostErrors(b.description, 500, Description, ReminderDescriptionMessage);
    var e3 := Check(isIso8601(Seen(date)), Date, ReminderDateMessage, date);
    var e4 := RequiredErrors(b.reminderTime, ReminderTime, ReminderTimeMessage);
    FailedFieldsAppend3(e1, e2, e3);
    FailedFieldsAppend(e1 + e2 + e3, e4);
    var body := b.(title := Trimmed(b.title), date := date, reminderTime := Trimmed(b.reminderTime));
    Checked(e1 + e2 + e3 + e4, body)
  }

  // ---------------------------------------------------------------------
  // validateGoal
  // ---------------------------------------------------------------------

  datatype GoalBody = GoalBody(
    title: Option<string>, description: Option<string>, deadline: Option<string>, priority: Option<string>)
  {
    function Value(f: Field): Option<string> {
      match f
      case Title => title
      case Description => description
      case Deadline => deadline
      case Priority => priority
      case _ => None
    }
  }

  /** `isIn(['baja', 'media', 'alta'])` */
  predicate IsPriority(p: string) {
    p == "baja" || p == "media" || p == "alta"
  }

  /** `validateGoal`: the title must be 1 to 200 characters after trimming,
      a description at most 1000, a deadline ISO 8601 and a priority one of
      the three levels. */
  function ValidateGoal(b: GoalBody, isIso8601: string -> bool): (r: Checked<GoalBody>)
    ensures FailedFields(r.errors) ==
      FailIf(!TrimmedTextOk(b.title, 200), Title)
      + FailIf(!OptionalTextOk(b.description, 1000), Description)
      + FailIf(!OptionalOk(b.deadline, isIso8601), Deadline)
      + FailIf(!OptionalOk(b.priority, IsPriority), Priority)
    ensures r.body == b.(title := Some(Trim(Seen(b.title))))
  {
    var e1 := TrimmedTextErrors(b.title, 200, Title, GoalTitleMessage);
    var e2 := AtMostErrors(b.description, 1000, Description, GoalDescriptionMessage);
    var e3 := OptionalErrors(b.deadline, isIso8601, Deadline, GoalDeadlineMessage);
    var e4 := OptionalErrors(b.priority, IsPriority, Priority, GoalPriorityMessage);
    FailedFieldsAppend3(e1, e2, e3);
    FailedFieldsAppend(e1 + e2 + e3, e4);
    var body := b.(title := Trimmed(b.title));
    Checked(e1 + e2 + e3 + e4, body)
  }

  /** Every error in `errors` is about `field` and reports `value`. */
  predicate About(errors: seq<FieldError>, field: Field, value: Option<string>) {
    forall e :: e in errors ==> e.field == field && e.value == value
  }

  /** The chains of `validateRegister` report the trimmed username, the
      password and the email as sent. */
  lemma RegisterChainValues(e1: seq<FieldError>, e2: seq<FieldError>, e3: seq<FieldError>,
                            body: RegisterBody, email: Option<string>)
    requires About(e1, Username, body.username) && About(e2, Password, body.password)
    requires About(e3, Email, email)
    ensures forall e :: e in e1 + e2 + e3 ==>
      e.value == (if e.field == Email then email else body.Value(e.field))
  {
  }

  /** Every error of `validateRegister` reports the value its field had when
      the chain checked it: the username trimmed (an absent one as the empty
      string), the password and the email as sent, before `normalizeEmail`. */
  lemma RegisterErrorValues(b: RegisterBody, isEmail: string -> bool, normalizeEmail: string -> string)
    ensures var r := ValidateRegister(b, isEmail, normalizeEmail);
      forall e :: e in r.errors ==>
        e.value == (if e.field == Email then b.email else r.body.Value(e.field))
  {
    var r := ValidateRegister(b, isEmail, normalizeEmail);
    var e1 := UsernameErrors(b.username);
    var e2 := PasswordErrors(b.password);
    var e3 := CheckOptional(b.email, isEmail, Email, EmailMessage);
    assert r.errors == e1 + e2 + e3;
    RegisterChainValues(e1, e2, e3, r.body, b.email);
  }

  /** Every error of `validateLogin` reports the value its field has in the
      sanitised body. */
  lemma LoginErrorValues(b: LoginBody)
    ensures var r := ValidateLogin(b);
      forall e :: e in r.errors ==> e.value == r.body.Value(e.field)
  {
    var r := ValidateLogin(b);
    var e1 := Check(Seen(r.body.username) != [], Username, LoginUsernameMessage, r.body.username);
    var e2 := Check(Seen(b.password) != [], Password, LoginPasswordMessage, b.password);
    assert r.errors == e1 + e2;
  }

  /** The six chains of `validateMedication`, each reporting its field's
      value in `body`, report every value as `body` has it. */
  lemma MedicationChainValues(e1: seq<FieldError>, e2: seq<FieldError>, e3: seq<FieldError>,
                              e4: seq<FieldError>, e5: seq<FieldError>, e6: seq<FieldError>,
                              body: MedicationBody)
    requires About(e1, Name, body.name) && About(e2, Dose, body.dose)
    requires About(e3, Frequency, body.frequency) && About(e4, Time, body.time)
    requires About(e5, ExpiryDate, body.expiryDate) && About(e6, Notes, body.notes)
    ensures forall e :: e in e1 + e2 + e3 + e4 + e5 + e6 ==> e.value == body.Value(e.field)
  {
  }

  /** Every error of `validateMedication` reports the value its field has in
      the sanitised body: trimmed texts are reported trimmed, and absent ones
      as the empty string. */
  lemma MedicationErrorValues(b: MedicationBody, isIso8601: string -> bool)
    ensures var r := ValidateMedication(b, isIso8601);
      forall e :: e in r.errors ==> e.value == r.body.Value(e.field)
  {
    var r := ValidateMedication(b, isIso8601);
    var e1 := TrimmedTextErrors(b.name, 100, Name, MedNameMessage);
    var e2 := TrimmedTextErrors(b.dose, 100, Dose, MedDoseMessage);
    var e3 := TrimmedTextErrors(b.frequency, 100, Frequency, MedFrequencyMessage);
    var e4 := RequiredErrors(b.time, Time, MedTimeMessage);
    var e5 := OptionalErrors(b.expiryDate, isIso8601, ExpiryDate, MedExpiryMessage);
    var e6 := AtMostErrors(b.notes, 500, Notes, MedNotesMessage);
    assert r.errors == e1 + e2 + e3 + e4 + e5 + e6;
    MedicationChainValues(e1, e2, e3, e4, e5, e6, r.body);
  }

  /** The four chains of `validateReminder`, each reporting its field's
      value in `body`, report every value as `body` has it. */
  lemma ReminderChainValues(e1: seq<FieldError>, e2: seq<FieldError>, e3: seq<FieldError>, e4: seq<FieldError>,
                            body: ReminderBody)
    requires About(e1, Title, body.title) && About(e2, Description, body.description)
    requires About(e3, Date, body.date) && About(e4, ReminderTime, body.reminderTime)
    ensures forall e :: e in e1 + e2 + e3 + e4 ==> e.value == body.Value(e.field)
  {
  }

  /** Every error of `validateReminder` reports the value its field has in
      the sanitised body. */
  lemma ReminderErrorValues(b: ReminderBody, isIso8601: string -> bool)
    ensures var r := ValidateReminder(b, isIso8601);
      forall e :: e in r.errors ==> e.value == r.body.Value(e.field)
  {
    var r := ValidateReminder(b, isIso8601);
    var e1 := TrimmedTextErrors(b.title, 100, Title, ReminderTitleMessage);
    var e2 := AtMostErrors(b.description, 500, Description, ReminderDescriptionMessage);
    var e3 := Check(isIso8601(Seen(r.body.date)), Date, ReminderDateMessage, r.body.date);
    var e4 := RequiredErrors(b.reminderTime, ReminderTime, ReminderTimeMessage);
    assert r.errors == e1 + e2 + e3 + e4;
    ReminderChainValues(e1, e2, e3, e4, r.body);
  }

  /** The four chains of `validateGoal`, each reporting its field's value in
      `body`, report every value as `body` has it. */
  lemma GoalChainValues(e1: seq<FieldError>, e2: seq<FieldError>, e3: seq<FieldError>, e4: seq<FieldError>,
                        body: GoalBody)
    requires About(e1, Title, body.title) && About(e2, Description, body.description)
    requires About(e3, Deadline, body.deadline) && About(e4, Priority, body.priority)
    ensures forall e :: e in e1 + e2 + e3 + e4 ==> e.value == body.Value(e.field)
  {
  }

  /** Every error of `validateGoal` reports the value its field has in the
      sanitised body: a trimmed title is reported trimmed, and an absent one
      as the empty string. */
  lemma GoalErrorValues(b: GoalBody, isIso8601: string -> bool)
    ensures var r := ValidateGoal(b, isIso8601);
      forall e :: e in r.errors ==> e.value == r.body.Value(e.field)
  {
    var r := ValidateGoal(b, isIso8601);
    var e1 := TrimmedTextErrors(b.title, 200, Title, GoalTitleMessage);
    var e2 := AtMostErrors(b.description, 1000, Description, GoalDescriptionMessage);
    var e3 := OptionalErrors(b.deadline, isIso8601, Deadline, GoalDeadlineMessage);
    var e4 := OptionalErrors(b.priority, IsPriority, Priority, GoalPriorityMessage);
    assert r.errors == e1 + e2 + e3 + e4;
    GoalChainValues(e1, e2, e3, e4, r.body);
  }

  // ---------------------------------------------------------------------
  // handleValidationErrors
  // ---------------------------------------------------------------------

  const InvalidInputError := "Datos de entrada inválidos"

  /** `{ field, message, value }`; an undefined value is dropped by
      `JSON.stringify`. */
  function DetailJson(e: FieldError): Json {
    JObj([("field", JStr(e.field.Key())), ("message", JStr(e.message))] + MaybeMember("value", e.value))
  }

  /** The field a reported name stands for. */
  function ParseField(k: string): Option<Field> {
    if k == "username" then Some(Username)
    else if k == "password" then Some(Password)
    else if k == "email" then Some(Email)
    else if k == "name" then Some(Name)
    else if k == "dose" then Some(Dose)
    else if k == "frequency" then Some(Frequency)
    else if k == "time" then Some(Time)
    else if k == "expiry_date" then Some(ExpiryDate)
    else if k == "notes" then Some(Notes)
    else if k == "title" then Some(Title)
    else if k == "description" then Some(Description)
    else if k == "date" then Some(Date)
    else if k == "reminder_time" then Some(ReminderTime)
    else if k == "deadline" then Some(Deadline)
    else if k == "priority" then Some(Priority)
    else None
  }

  /** Field names are distinct: each reads back as its own field. */
  lemma ParseFieldKey(f: Field)
    ensures ParseField(f.Key()) == Some(f)
  {
  }

  /** Reads a detail entry back. */
  function ParseDetail(j: Json): Option<FieldError> {
    if !j.JObj? then None
    else
      match (Lookup(j.members, "field"), Lookup(j.members, "message"))
      case (Some(JStr(k)), Some(JStr(m))) =>
        (match (ParseField(k), Lookup(j.members, "value"))
         case (Some(f), None) => Some(FieldError(f, m, None))
         case (Some(f), Some(JStr(v))) => Some(FieldError(f, m, Some(v)))
         case _ => None)
      case _ => None
  }

  /** Every detail entry carries its error in full. */
  lemma DetailRoundTrip(e: FieldError)
    ensures ParseDetail(DetailJson(e)) == Some(e)
  {
    var tail := MaybeMember("value", e.value);
    var ms := [("field", JStr(e.field.Key())), ("message", JStr(e.message))] + tail;
    assert ms == [("field", JStr(e.field.Key()))] + ([("message", JStr(e.message))] + tail);
    assert Lookup(ms, "field") == Some(JStr(e.field.Key()));
    ParseFieldKey(e.field);
    assert ms[1..] == [("message", JStr(e.message))] + tail;
    assert ms[1..][1..] == tail;
    assert Lookup(ms, "message") == Lookup(ms[1..], "message") == Some(JStr(e.message));
    assert Lookup(ms, "value") == Lookup(ms[1..], "value") == Lookup(tail, "value");
    match e.value {
      case None =>
        assert tail == [];
        assert Lookup(ms, "value") == None;
      case Some(v) =>
        assert tail == [("value", JStr(v))];
        assert Lookup(ms, "value") == Some(JStr(v));
    }
  }

  /** The `details` array: one entry per error, in order, each of which
      reads back as that error. */
  function DetailsJson(errors: seq<FieldError>): (r: seq<Json>)
    ensures |r| == |errors|
    ensures forall i :: 0 <= i < |errors| ==> ParseDetail(r[i]) == Some(errors[i])
  {
    if errors == [] then []
    else
      DetailRoundTrip(errors[0]);
      [DetailJson(errors[0])] + DetailsJson(errors[1..])
  }

  /** A non-empty error list ends the request with 400, the generic error
      text and the details of every error; an empty one passes control on. */
  function HandleValidationErrors(errors: seq<FieldError>): (r: Step<()>)
    ensures r.Next? <==> errors == []
    ensures r.Halt? ==> r.response.status == 400 && r.response.body.JObj?
    ensures r.Halt? ==> Lookup(r.response.body.members, "error") == Some(JStr(InvalidInputError))
    ensures r.Halt? ==> Lookup(r.response.body.members, "details") == Some(JArr(DetailsJson(errors)))
  {
    if errors == [] then Next(())
    else
      var members := [("error", JStr(InvalidInputError)), ("details", JArr(DetailsJson(errors)))];
      assert members[1..] == [("details", JArr(DetailsJson(errors)))];
      Halt(Response(400, JObj(members)))
  }
}
