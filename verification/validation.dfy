/**
 * Request-body validation: the `validate` middleware that turns a schema's error details
 * into a 400 reply, and the signup, login, send-otp, note and note-update schemas as
 * functions from a body to its error details (all of them: validation does not stop at
 * the first). E-mail and date formats are oracles.
 *
 * The details follow the schema library's own order: the declared keys in order (a key
 * that is missing or empty reports only that), then the keys the schema does not declare,
 * then the object-level "at least one of" rule; the object-level key-count rule is only
 * reached when nothing else failed.
 */
module Validation {
  import opened Base
  import Text

  /** One error detail: the path of the offending value and its message. */
  datatype Detail = Detail(path: seq<string>, message: string)

  /** One entry of the reply's `errors`. */
  datatype FieldError = FieldError(field: string, message: string)

  /** The middleware's outcome: call `next`, or reply. */
  datatype Outcome =
    | Next
    | Respond(status: int, success: bool, message: string, error: string, errors: seq<FieldError>)

  /**
   * `validate`: no details lets the request through; otherwise a 400 reply with one entry
   * per detail, its field being the path joined with dots.
   */
  function Validate(details: seq<Detail>): (r: Outcome)
    ensures r.Next? <==> details == []
    ensures r.Respond? ==>
      && r.status == 400 && !r.success
      && r.message == "Validation failed" && r.error == "Validation error"
      && |r.errors| == |details|
      && forall i :: 0 <= i < |details| ==>
           r.errors[i] == FieldError(Text.Join(details[i].path, '.'), details[i].message)
  {
    if details == [] then Next
    else
      Respond(400, false, "Validation failed", "Validation error",
              seq(|details|, i requires 0 <= i < |details| => FieldError(Text.Join(details[i].path, '.'), details[i].message)))
  }

  /** A reported field splits back into the path it came from when no path step has a dot. */
  lemma FieldRecoversPath(details: seq<Detail>, i: nat)
    requires i < |details| && |details[i].path| >= 1
    requires forall k :: 0 <= k < |details[i].path| ==> '.' !in details[i].path[k]
    ensures Validate(details).Respond?
    ensures Text.Split(Validate(details).errors[i].field, '.') == details[i].path
  {
    Text.SplitJoin(details[i].path, '.');
  }

  /** A string constraint with its message. */
  datatype Rule = MinLength(n: nat, message: string) | MaxLength(n: nat, message: string) | Email(message: string)

  /** A length rule compares the string's `length`, counted in UTF-16 code units. */
  predicate RulePasses(rule: Rule, v: string, isEmail: string -> bool) {
    match rule
    case MinLength(n, _) => Text.Utf16Length(v) >= n
    case MaxLength(n, _) => Text.Utf16Length(v) <= n
    case Email(_) => isEmail(v)
  }

  /** The details of the rules a non-empty string breaks, in rule order. */
  function RuleDetails(key: string, v: string, rules: seq<Rule>, isEmail: string -> bool): (r: seq<Detail>)
    ensures r == [] <==> forall i :: 0 <= i < |rules| ==> RulePasses(rules[i], v, isEmail)
    ensures |r| <= |rules|
    ensures forall d :: d in r ==> d.path == [key]
  {
    if rules == [] then []
    else
      (if RulePasses(rules[0], v, isEmail) then [] else [Detail([key], rules[0].message)])
        + RuleDetails(key, v, rules[1..], isEmail)
  }

  /** A broken rule is reported, under the key, with its own message. */
  lemma {:induction false} BrokenRuleReported(key: string, v: string, rules: seq<Rule>, isEmail: string -> bool, i: nat)
    requires i < |rules| && !RulePasses(rules[i], v, isEmail)
    ensures Detail([key], rules[i].message) in RuleDetails(key, v, rules, isEmail)
  {
    if i > 0 {
      BrokenRuleReported(key, v, rules[1..], isEmail, i - 1);
    }
  }

  /** A minimum and a maximum length together accept exactly the lengths between them. */
  lemma LengthBounds(key: string, v: string, lo: nat, hi: nat, tooShort: string, tooLong: string,
                     isEmail: string -> bool)
    ensures RuleDetails(key, v, [MinLength(lo, tooShort), MaxLength(hi, tooLong)], isEmail) == []
        <==> lo <= Text.Utf16Length(v) <= hi
  {
    var rules := [MinLength(lo, tooShort), MaxLength(hi, tooLong)];
    assert RulePasses(rules[0], v, isEmail) <==> lo <= Text.Utf16Length(v);
    assert RulePasses(rules[1], v, isEmail) <==> Text.Utf16Length(v) <= hi;
  }

  /** The library's message for an empty string where none is allowed. */
  function EmptyMessage(key: string): string {
    "\"" + key + "\" is not allowed to be empty"
  }

  /** The library's message for a key the schema does not declare. */
  function UnknownMessage(key: string): string {
    "\"" + key + "\" is not allowed"
  }

  /**
   * The details of one string key: the required message when it is missing, the empty
   * message when it is `''` (unless `''` is allowed, which also skips the rules), else
   * the broken rules.
   */
  function StringKey(key: string, v: Option<string>, required: Option<string>, allowEmpty: bool,
                     rules: seq<Rule>, isEmail: string -> bool): (r: seq<Detail>)
    ensures v.None? ==> r == (if required.Some? then [Detail([key], required.value)] else [])
    ensures v == Some("") ==> r == (if allowEmpty then [] else [Detail([key], EmptyMessage(key))])
    ensures v.Some? && v.value != "" ==> r == RuleDetails(key, v.value, rules, isEmail)
  {
    match v
    case None => if required.Some? then [Detail([key], required.value)] else []
    case Some(s) =>
      if s == "" then (if allowEmpty then [] else [Detail([key], EmptyMessage(key))])
      else RuleDetails(key, s, rules, isEmail)
  }

  /** One detail per undeclared key, in body order. */
  function UnknownDetails(keys: seq<string>): (r: seq<Detail>)
    ensures |r| == |keys|
    ensures forall i :: 0 <= i < |keys| ==> r[i] == Detail([keys[i]], UnknownMessage(keys[i]))
  {
    seq(|keys|, i requires 0 <= i < |keys| => Detail([keys[i]], UnknownMessage(keys[i])))
  }

  /** The format check of a key without a format rule. */
  predicate AnyFormat(s: string) {
    true
  }

  const EmailMessages: seq<Rule> := [Email("Please provide a valid email address")]

  // Signup

  datatype SignupBody = SignupBody(email: Option<string>, name: Option<string>, dateOfBirth: Option<string>,
                                   password: Option<string>, unknown: seq<string>)

  /** What `signupSchema` accepts, stated directly. */
  predicate SignupAccepted(b: SignupBody, isEmail: string -> bool, isDate: string -> bool) {
    && b.email.Some? && b.email.value != "" && isEmail(b.email.value)
    && b.name.Some? && 2 <= Text.Utf16Length(b.name.value) <= 50
    && (b.dateOfBirth.Some? ==> isDate(b.dateOfBirth.value))
    && (b.password.Some? ==> Text.Utf16Length(b.password.value) >= 8)
    && b.unknown == []
  }

  const NameRules: seq<Rule> :=
    [MinLength(2, "Name must be at least 2 characters long"), MaxLength(50, "Name cannot exceed 50 characters")]

  const PasswordRules: seq<Rule> := [MinLength(8, "Password must be at least 8 characters long")]

  /** `signupSchema`'s details. */
  function SignupDetails(b: SignupBody, isEmail: string -> bool, isDate: string -> bool): (r: seq<Detail>)
    ensures r == [] <==> SignupAccepted(b, isEmail, isDate)
  {
    var email := StringKey("email", b.email, Some("Email is required"), false, EmailMessages, isEmail);
    var name := StringKey("name", b.name, Some("Name is required"), false, NameRules, isEmail);
    assert b.name.Some? ==> (name == [] <==> 2 <= Text.Utf16Length(b.name.value) <= 50) by {
      if b.name.Some? {
        LengthBounds("name", b.name.value, 2, 50, NameRules[0].message, NameRules[1].message, isEmail);
      }
    }
    var password := StringKey("password", b.password, None, false, PasswordRules, isEmail);
    assert b.password.Some? ==> (password == [] <==> Text.Utf16Length(b.password.value) >= 8) by {
      if b.password.Some? && b.password.value != "" {
        assert RulePasses(PasswordRules[0], b.password.value, isEmail) <==> Text.Utf16Length(b.password.value) >= 8;
      }
    }
    var dob := if b.dateOfBirth.Some? && !isDate(b.dateOfBirth.value)
               then [Detail(["dateOfBirth"], "Please provide a valid date")] else [];
    email + name + dob + password + UnknownDetails(b.unknown)
  }

  /** The schema's own messages reach the reply for a missing or out-of-bounds key. */
  lemma SignupMessages(b: SignupBody, isEmail: string -> bool, isDate: string -> bool)
    ensures b.email.None? ==> Detail(["email"], "Email is required") in SignupDetails(b, isEmail, isDate)
    ensures b.name.None? ==> Detail(["name"], "Name is required") in SignupDetails(b, isEmail, isDate)
    ensures b.name.Some? && 0 < Text.Utf16Length(b.name.value) < 2 ==>
      Detail(["name"], "Name must be at least 2 characters long") in SignupDetails(b, isEmail, isDate)
    ensures b.name.Some? && Text.Utf16Length(b.name.value) > 50 ==>
      Detail(["name"], "Name cannot exceed 50 characters") in SignupDetails(b, isEmail, isDate)
    ensures b.password.Some? && 0 < Text.Utf16Length(b.password.value) < 8 ==>
      Detail(["password"], "Password must be at least 8 characters long") in SignupDetails(b, isEmail, isDate)
    ensures b.dateOfBirth.Some? && !isDate(b.dateOfBirth.value) ==>
      Detail(["dateOfBirth"], "Please provide a valid date") in SignupDetails(b, isEmail, isDate)
  {
    if b.name.Some? && 0 < Text.Utf16Length(b.name.value) < 2 {
      BrokenRuleReported("name", b.name.value, NameRules, isEmail, 0);
    }
    if b.name.Some? && Text.Utf16Length(b.name.value) > 50 {
      BrokenRuleReported("name", b.name.value, NameRules, isEmail, 1);
    }
    if b.password.Some? && 0 < Text.Utf16Length(b.password.value) < 8 {
      BrokenRuleReported("password", b.password.value, PasswordRules, isEmail, 0);
    }
  }

  /**
   * Lengths are counted in code units: a password of four emoji is eight units long and
   * meets the minimum of eight, while a single emoji is a name of two units.
   */
  lemma AstralLengths()
    ensures RuleDetails("password", "\U{1F600}\U{1F600}\U{1F600}\U{1F600}", PasswordRules, AnyFormat) == []
    ensures RuleDetails("name", "\U{1F600}", NameRules, AnyFormat) == []
  {
    Text.AstralLength("\U{1F600}\U{1F600}\U{1F600}\U{1F600}");
    Text.AstralLength("\U{1F600}");
  }

  // Login

  datatype LoginBody = LoginBody(email: Option<string>, password: Option<string>, otp: Option<string>,
                                 unknown: seq<string>)

  /** The library's message for an `or` rule none of whose keys is present. */
  const LoginMissingMessage: string := "\"value\" must contain at least one of [password, otp]"

  /** What `loginSchema` accepts, stated directly. */
  predicate LoginAccepted(b: LoginBody, isEmail: string -> bool) {
    && b.email.Some? && b.email.value != "" && isEmail(b.email.value)
    && (b.password.Some? ==> b.password.value != "")
    && (b.otp.Some? ==> b.otp.value != "")
    && (b.password.Some? || b.otp.Some?)
    && b.unknown == []
  }

  /** `loginSchema`'s details. */
  function LoginDetails(b: LoginBody, isEmail: string -> bool): (r: seq<Detail>)
    ensures r == [] <==> LoginAccepted(b, isEmail)
    ensures b.password.None? && b.otp.None? ==> Detail([], LoginMissingMessage) in r
    ensures forall k :: k in b.unknown ==> Detail([k], UnknownMessage(k)) in r
  {
    var email := StringKey("email", b.email, Some("Email is required"), false, EmailMessages, isEmail);
    var password := StringKey("password", b.password, None, false, [], isEmail);
    var otp := StringKey("otp", b.otp, None, false, [], isEmail);
    var missing := if b.password.None? && b.otp.None? then [Detail([], LoginMissingMessage)] else [];
    var unknown := UnknownDetails(b.unknown);
    assert forall k :: k in b.unknown ==> Detail([k], UnknownMessage(k)) in unknown by {
      forall k | k in b.unknown
        ensures Detail([k], UnknownMessage(k)) in unknown
      {
        var i :| 0 <= i < |b.unknown| && b.unknown[i] == k;
        assert unknown[i] == Detail([k], UnknownMessage(k));
      }
    }
    email + password + otp + unknown + missing
  }

  // Send-otp

  datatype OtpBody = OtpBody(email: Option<string>, unknown: seq<string>)

  /** `otpSchema`'s details: a valid e-mail and nothing else. */
  function OtpDetails(b: OtpBody, isEmail: string -> bool): (r: seq<Detail>)
    ensures r == [] <==> b.email.Some? && b.email.value != "" && isEmail(b.email.value) && b.unknown == []
  {
    StringKey("email", b.email, Some("Email is required"), false, EmailMessages, isEmail)
      + UnknownDetails(b.unknown)
  }

  // Notes

  datatype NoteBody = NoteBody(title: Option<string>, content: Option<string>, completed: Option<bool>,
                               unknown: seq<string>)

  const TitleRules: seq<Rule> :=
    [MinLength(1, "Title cannot be empty"), MaxLength(200, "Title cannot exceed 200 characters")]

  /** What `noteSchema` accepts: a title of 1 to 200 characters; any content, `''` included. */
  predicate NoteAccepted(b: NoteBody) {
    b.title.Some? && 1 <= Text.Utf16Length(b.title.value) <= 200 && b.unknown == []
  }

  /** `noteSchema`'s details. */
  function NoteDetails(b: NoteBody): (r: seq<Detail>)
    ensures r == [] <==> NoteAccepted(b)
    ensures b.title.None? ==> r[0] == Detail(["title"], "Title is required")
    ensures b.title == Some("") ==> r[0] == Detail(["title"], EmptyMessage("title"))
  {
    var title := StringKey("title", b.title, Some("Title is required"), false, TitleRules, AnyFormat);
    assert b.title.Some? ==> (title == [] <==> 1 <= Text.Utf16Length(b.title.value) <= 200) by {
      if b.title.Some? {
        LengthBounds("title", b.title.value, 1, 200, TitleRules[0].message, TitleRules[1].message, AnyFormat);
      }
    }
    title + StringKey("content", b.content, None, true, [], AnyFormat) + UnknownDetails(b.unknown)
  }

  /** The library's message for an object with fewer keys than the minimum of one. */
  const NoKeysMessage: string := "\"value\" must have at least 1 key"

  /** What `updateNoteSchema` accepts: at least one key, each within the note bounds. */
  predicate UpdateNoteAccepted(b: NoteBody) {
    && (b.title.Some? ==> 1 <= Text.Utf16Length(b.title.value) <= 200)
    && b.unknown == []
    && (b.title.Some? || b.content.Some? || b.completed.Some?)
  }

  /** `updateNoteSchema`'s details. */
  function UpdateNoteDetails(b: NoteBody): (r: seq<Detail>)
    ensures r == [] <==> UpdateNoteAccepted(b)
    ensures b == NoteBody(None, None, None, []) ==> r == [Detail([], NoKeysMessage)]
  {
    var title := StringKey("title", b.title, None, false, TitleRules, AnyFormat);
    assert b.title.Some? ==> (title == [] <==> 1 <= Text.Utf16Length(b.title.value) <= 200) by {
      if b.title.Some? {
        LengthBounds("title", b.title.value, 1, 200, TitleRules[0].message, TitleRules[1].message, AnyFormat);
      }
    }
    var keys := title + StringKey("content", b.content, None, true, [], AnyFormat) + UnknownDetails(b.unknown);
    if keys != [] then keys
    else if b.title.None? && b.content.None? && b.completed.None? then [Detail([], NoKeysMessage)]
    else []
  }

  /**
   * An empty title draws the library's empty-string message, never the schema's own
   * "Title cannot be empty", which no string can trigger.
   */
  lemma EmptyTitleMessageUnreachable(b: NoteBody)
    ensures Detail(["title"], "Title cannot be empty") !in NoteDetails(b)
    ensures Detail(["title"], "Title cannot be empty") !in UpdateNoteDetails(b)
  {
    var title := b.title;
    if title.Some? && title.value != "" {
      assert Text.Utf16Length(title.value) >= 1;
      TitleDetailsAvoidMin(title.value);
    }
  }

  lemma TitleDetailsAvoidMin(v: string)
    requires v != ""
    ensures Detail(["title"], "Title cannot be empty") !in RuleDetails("title", v, TitleRules, AnyFormat)
  {
    assert RuleDetails("title", v, TitleRules, AnyFormat)
        == RuleDetails("title", v, TitleRules[1..], AnyFormat);
  }
}
