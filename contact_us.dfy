/**
  The contact form: its validation schema (with the phone pattern written out as a
  recogniser), the interest toggle, the default values, and the outcome of a submission.
  Yup's e-mail check is foreign code and enters every member as the parameter `isEmail`;
  the network round trip enters as a `Transport` value.
 */
module ContactUs {

  import opened Options
  import opened JsText

  datatype FormValues = FormValues(
    name: string,
    company: string,
    referral: string,
    email: string,
    phone: string,
    interests: seq<string>,
    message: string)

  /** The form's default values: every text field empty, no interest selected. */
  const DEFAULTS := FormValues("", "", "", "", "", [], "")

  // ---------------------------------------------------------------------------
  // The phone pattern  ^$|^[+]?[(]?[0-9]{1,4}[)]?[-\s./0-9]*$

  /** The characters JavaScript's `\s` matches: ECMAScript white space and line terminators. */
  predicate IsJsWhitespace(c: char) {
    c == '\t' || c == '\n' || c == '\U{000B}' || c == '\U{000C}' || c == '\r' || c == ' '
    || c == '\U{00A0}' || c == '\U{1680}' || ('\U{2000}' <= c <= '\U{200A}')
    || c == '\U{2028}' || c == '\U{2029}' || c == '\U{202F}' || c == '\U{205F}'
    || c == '\U{3000}' || c == '\U{FEFF}'
  }

  /** The class `[-\s./0-9]` of the pattern's trailing run. */
  predicate IsTrailChar(c: char) {
    c == '-' || IsJsWhitespace(c) || c == '.' || c == '/' || IsDecimalDigit(c)
  }

  predicate AllTrail(s: string) {
    forall i :: 0 <= i < |s| ==> IsTrailChar(s[i])
  }

  /** Length of the longest run of digits at the front of s. */
  function DigitRun(s: string): (n: nat)
    ensures n <= |s|
    ensures AllDecimalDigits(s[..n])
    ensures n < |s| ==> !IsDecimalDigit(s[n])
  {
    if s != [] && IsDecimalDigit(s[0]) then 1 + DigitRun(s[1..]) else 0
  }

  /** s without its first character when that character is c. */
  function DropIf(s: string, c: char): string {
    if |s| > 0 && s[0] == c then s[1..] else s
  }

  /** What must follow the optional `+` and `(`: 1 to 4 digits, an optional `)`, then the trailing run. */
  predicate MatchesAfterPrefix(t: string) {
    var d := DigitRun(t);
    1 <= d &&
    if d <= 4 && d < |t| && t[d] == ')' then AllTrail(t[d + 1..]) else AllTrail(t[d..])
  }

  /** The recogniser for the phone pattern. */
  predicate PhoneOk(s: string) {
    s == [] || MatchesAfterPrefix(DropIf(DropIf(s, '+'), '('))
  }

  /** One way of reading a non-empty string against the pattern's second alternative. */
  datatype PhoneParts = PhoneParts(plus: bool, open: bool, digits: string, close: bool, rest: string)

  predicate WellFormed(p: PhoneParts) {
    1 <= |p.digits| <= 4 && AllDecimalDigits(p.digits) && AllTrail(p.rest)
  }

  /** The one-character string [c] when present, else the empty string. */
  function Opt(present: bool, c: char): string {
    if present then [c] else []
  }

  function Assemble(p: PhoneParts): string {
    Opt(p.plus, '+') + (Opt(p.open, '(') + (p.digits + Opt(p.close, ')') + p.rest))
  }

  /** The language of the regular expression, stated as its decomposition. */
  ghost predicate InPhoneLanguage(s: string) {
    s == [] || exists p :: WellFormed(p) && Assemble(p) == s
  }

  lemma {:induction false} DigitRunAfterDigits(a: string, b: string)
    requires AllDecimalDigits(a)
    ensures DigitRun(a + b) == |a| + DigitRun(b)
  {
    if a != [] {
      assert (a + b)[1..] == a[1..] + b;
      DigitRunAfterDigits(a[1..], b);
    } else {
      assert a + b == b;
    }
  }

  lemma AllTrailConcat(a: string, b: string)
    requires AllTrail(a) && AllTrail(b)
    ensures AllTrail(a + b)
  {
    forall i | 0 <= i < |a + b|
      ensures IsTrailChar((a + b)[i])
    {
      if i >= |a| {
        assert (a + b)[i] == b[i - |a|];
      }
    }
  }

  lemma DropIfSplit(s: string, c: char)
    ensures s == Opt(|s| > 0 && s[0] == c, c) + DropIf(s, c)
  {
    if |s| > 0 && s[0] == c {
      assert s == [s[0]] + s[1..];
    }
  }

  lemma DropIfOpt(present: bool, c: char, x: string)
    requires |x| > 0 && x[0] != c
    ensures DropIf(Opt(present, c) + x, c) == x
  {
    if present {
      assert (Opt(present, c) + x)[1..] == x;
    } else {
      assert Opt(present, c) + x == x;
    }
  }

  /** What follows the prefix splits into 1 to 4 digits, an optional `)`, and a trailing run. */
  lemma SplitAfterPrefix(t: string) returns (digits: string, close: bool, rest: string)
    requires MatchesAfterPrefix(t)
    ensures 1 <= |digits| <= 4 && AllDecimalDigits(digits) && AllTrail(rest)
    ensures t == digits + Opt(close, ')') + rest
  {
    var d := DigitRun(t);
    close := d <= 4 && d < |t| && t[d] == ')';
    var k := if d <= 4 then d else 4;
    var run := t[..d];
    digits := run[..k];
    assert digits == t[..k];
    if close {
      rest := t[d + 1..];
      assert t == run + [t[d]] + rest;
    } else {
      var extra := run[k..];
      assert AllTrail(extra);
      AllTrailConcat(extra, t[d..]);
      rest := extra + t[d..];
      assert t == digits + rest;
    }
  }

  lemma JoinAfterPrefixClosed(digits: string, rest: string)
    requires 1 <= |digits| <= 4 && AllDecimalDigits(digits) && AllTrail(rest)
    ensures MatchesAfterPrefix(digits + [')'] + rest)
  {
    var t := digits + [')'] + rest;
    assert t == digits + ([')'] + rest);
    DigitRunAfterDigits(digits, [')'] + rest);
    assert DigitRun(t) == |digits|;
    assert t[|digits|] == ')' && t[|digits| + 1..] == rest;
  }

  lemma JoinAfterPrefixOpen(digits: string, rest: string)
    requires 1 <= |digits| <= 4 && AllDecimalDigits(digits) && AllTrail(rest)
    ensures MatchesAfterPrefix(digits + rest)
  {
    var t := digits + rest;
    DigitRunAfterDigits(digits, rest);
    var d := DigitRun(t);
    var e := DigitRun(rest);
    assert t[d..] == rest[e..];
    assert AllTrail(rest[e..]);
    if d < |t| {
      assert t[d] == rest[e];
    }
  }

  /** The converse: any such split is accepted after the prefix. */
  lemma JoinAfterPrefix(digits: string, close: bool, rest: string)
    requires 1 <= |digits| <= 4 && AllDecimalDigits(digits) && AllTrail(rest)
    ensures MatchesAfterPrefix(digits + Opt(close, ')') + rest)
  {
    if close {
      JoinAfterPrefixClosed(digits, rest);
    } else {
      assert digits + Opt(close, ')') + rest == digits + rest;
      JoinAfterPrefixOpen(digits, rest);
    }
  }

  /** Every string the recogniser accepts is in the pattern's language. */
  lemma PhoneOkSound(s: string)
    requires PhoneOk(s)
    ensures InPhoneLanguage(s)
  {
    if s != [] {
      var u := DropIf(s, '+');
      var t := DropIf(u, '(');
      DropIfSplit(s, '+');
      DropIfSplit(u, '(');
      var digits, close, rest := SplitAfterPrefix(t);
      var p := PhoneParts(|s| > 0 && s[0] == '+', |u| > 0 && u[0] == '(', digits, close, rest);
      assert WellFormed(p) && Assemble(p) == s;
    }
  }

  /** Every string in the pattern's language is accepted by the recogniser. */
  lemma PhoneOkComplete(p: PhoneParts)
    requires WellFormed(p)
    ensures PhoneOk(Assemble(p))
  {
    var t := p.digits + Opt(p.close, ')') + p.rest;
    var u := Opt(p.open, '(') + t;
    assert t[0] == p.digits[0];
    DropIfOpt(p.open, '(', t);
    assert u[0] == '(' || u[0] == p.digits[0];
    DropIfOpt(p.plus, '+', u);
    JoinAfterPrefix(p.digits, p.close, p.rest);
  }

  /** The recogniser and the regular expression accept the same strings. */
  lemma PhoneOkIff(s: string)
    ensures PhoneOk(s) <==> InPhoneLanguage(s)
  {
    if PhoneOk(s) {
      PhoneOkSound(s);
    }
    if InPhoneLanguage(s) && s != [] {
      var p :| WellFormed(p) && Assemble(p) == s;
      PhoneOkComplete(p);
    }
  }

  /** A character that may appear somewhere in an accepted phone number. */
  predicate IsPhoneChar(c: char) {
    c == '+' || c == '(' || c == ')' || IsTrailChar(c)
  }

  predicate AllPhoneChars(s: string) {
    forall i :: 0 <= i < |s| ==> IsPhoneChar(s[i])
  }

  lemma AllPhoneCharsConcat(a: string, b: string)
    requires AllPhoneChars(a) && AllPhoneChars(b)
    ensures AllPhoneChars(a + b)
  {
    forall i | 0 <= i < |a + b|
      ensures IsPhoneChar((a + b)[i])
    {
      if i >= |a| {
        assert (a + b)[i] == b[i - |a|];
      }
    }
  }

  lemma TrailArePhoneChars(s: string)
    requires AllTrail(s)
    ensures AllPhoneChars(s)
  {
  }

  lemma PartsArePhoneChars(p: PhoneParts)
    requires WellFormed(p)
    ensures AllPhoneChars(Assemble(p))
  {
    var plus, open, close := Opt(p.plus, '+'), Opt(p.open, '('), Opt(p.close, ')');
    assert AllTrail(p.digits);
    TrailArePhoneChars(p.digits);
    TrailArePhoneChars(p.rest);
    assert AllPhoneChars(plus) && AllPhoneChars(open) && AllPhoneChars(close);
    var a := p.digits + close;
    AllPhoneCharsConcat(p.digits, close);
    var b := a + p.rest;
    AllPhoneCharsConcat(a, p.rest);
    var c := open + b;
    AllPhoneCharsConcat(open, b);
    AllPhoneCharsConcat(plus, c);
    assert Assemble(p) == plus + c;
  }

  /** An accepted phone number is made only of `+`, `(`, `)`, `-`, `.`, `/`, white space and digits. */
  lemma PhoneAlphabet(s: string)
    requires PhoneOk(s)
    ensures AllPhoneChars(s)
  {
    if s != [] {
      PhoneOkSound(s);
      var p :| WellFormed(p) && Assemble(p) == s;
      PartsArePhoneChars(p);
    }
  }

  predicate IsLetter(c: char) {
    ('a' <= c <= 'z') || ('A' <= c <= 'Z')
  }

  /** A phone value containing a letter is rejected. */
  lemma PhoneRejectsLetters(s: string, i: nat)
    requires i < |s| && IsLetter(s[i])
    ensures !PhoneOk(s)
  {
    if PhoneOk(s) {
      PhoneAlphabet(s);
    }
  }

  lemma PhoneExamples()
    ensures PhoneOk("")
    ensures PhoneOk("+1 555-123-4567")
    ensures !PhoneOk("abc")
  {
    var s := "+1 555-123-4567";
    var t := s[1..];
    assert DropIf(DropIf(s, '+'), '(') == t;
    assert DigitRun(t[1..]) == 0;
    assert DigitRun(t) == 1;
    assert AllTrail(t[1..]);
    PhoneRejectsLetters("abc", 0);
  }

  // ---------------------------------------------------------------------------
  // The validation schema

  datatype Field = Name | Company | Referral | Email | Phone | Interests | Message

  const ALL_FIELDS: set<Field> := {Name, Company, Referral, Email, Phone, Interests, Message}

  /** The message the schema attaches to field f, if the value of f breaks one of its rules. */
  function FieldError(v: FormValues, isEmail: string -> bool, f: Field): Option<string> {
    match f
    case Name => if v.name == "" then Some("Name is required") else None
    case Company => None
    case Referral => None
    case Email =>
      if v.email == "" then Some("Email is required")
      else if !isEmail(v.email) then Some("Invalid email")
      else None
    case Phone => if PhoneOk(v.phone) then None else Some("Invalid phone number")
    case Interests => if |v.interests| < 1 then Some("Select at least one interest") else None
    case Message => if v.message == "" then Some("Message is required") else None
  }

  /** The per-field errors a validation run reports. */
  function Errors(v: FormValues, isEmail: string -> bool): (errs: map<Field, string>)
    ensures Company !in errs && Referral !in errs
    ensures Name in errs <==> v.name == ""
    ensures Name in errs ==> errs[Name] == "Name is required"
    ensures Email in errs <==> v.email == "" || !isEmail(v.email)
    ensures Email in errs ==> errs[Email] == if v.email == "" then "Email is required" else "Invalid email"
    ensures Phone in errs <==> !PhoneOk(v.phone)
    ensures Phone in errs ==> errs[Phone] == "Invalid phone number"
    ensures Interests in errs <==> |v.interests| == 0
    ensures Interests in errs ==> errs[Interests] == "Select at least one interest"
    ensures Message in errs <==> v.message == ""
    ensures Message in errs ==> errs[Message] == "Message is required"
  {
    map f | f in ALL_FIELDS && FieldError(v, isEmail, f).Some? :: FieldError(v, isEmail, f).value
  }

  /** The schema, reduced to one condition: the required fields are filled, the e-mail
      check and the phone pattern hold, and at least one interest is selected. */
  predicate IsValid(v: FormValues, isEmail: string -> bool) {
    && v.name != ""
    && v.email != "" && isEmail(v.email)
    && PhoneOk(v.phone)
    && |v.interests| >= 1
    && v.message != ""
  }

  /** A validation run reports no error exactly when the form is valid. */
  lemma NoErrorsIffValid(v: FormValues, isEmail: string -> bool)
    ensures Errors(v, isEmail) == map[] <==> IsValid(v, isEmail)
  {
    var errs := Errors(v, isEmail);
    if IsValid(v, isEmail) {
      assert errs.Keys == {};
    } else {
      assert Name in errs || Email in errs || Phone in errs || Interests in errs || Message in errs;
    }
  }

  /** Company and referral never decide validity. */
  lemma OptionalFieldsIrrelevant(v: FormValues, company: string, referral: string, isEmail: string -> bool)
    ensures IsValid(v.(company := company, referral := referral), isEmail) == IsValid(v, isEmail)
  {
  }

  /** The defaults fail validation: name, e-mail, interests and message are reported, the phone is not. */
  lemma DefaultsRejected(isEmail: string -> bool)
    ensures !IsValid(DEFAULTS, isEmail)
    ensures Errors(DEFAULTS, isEmail).Keys == {Name, Email, Interests, Message}
  {
    assert PhoneOk(DEFAULTS.phone);
    var errs := Errors(DEFAULTS, isEmail);
    forall f
      ensures f in errs <==> f in {Name, Email, Interests, Message}
    {
      match f
      case Name =>
      case Company =>
      case Referral =>
      case Email =>
      case Phone =>
      case Interests =>
      case Message =>
    }
    assert errs.Keys == {Name, Email, Interests, Message};
  }

  // ---------------------------------------------------------------------------
  // The interest toggle

  /** r is obtained from s by deleting elements, keeping the order of what remains. */
  predicate IsSubsequence(r: seq<string>, s: seq<string>)
    decreases |s|
  {
    r == [] || (s != [] &&
      if r[0] == s[0] then IsSubsequence(r[1..], s[1..]) else IsSubsequence(r, s[1..]))
  }

  /** `s.filter((i) => i !== x)`. */
  function Without(s: seq<string>, x: string): (r: seq<string>)
    ensures x !in r
    ensures IsSubsequence(r, s)
    ensures multiset(r) == multiset(s)[x := 0]
  {
    if s == [] then []
    else
      assert s == [s[0]] + s[1..];
      if s[0] == x then Without(s[1..], x)
      else [s[0]] + Without(s[1..], x)
  }

  /** The list the toggle writes back, given the current selection (undefined reads as []). */
  function Toggled(selected: Option<seq<string>>, tag: string): (r: seq<string>)
    ensures var current := if selected.Some? then selected.value else [];
      && (tag in current ==>
            tag !in r && IsSubsequence(r, current) && multiset(r) == multiset(current)[tag := 0])
      && (tag !in current ==> r == current + [tag])
  {
    var current := if selected.Some? then selected.value else [];
    if tag in current then Without(current, tag) else current + [tag]
  }

  lemma ToggledUndefined(tag: string)
    ensures Toggled(None, tag) == [tag]
  {
  }

  lemma WithoutMembers(s: seq<string>, x: string, y: string)
    ensures y in Without(s, x) <==> y in s && y != x
  {
    assert y in Without(s, x) <==> y in multiset(Without(s, x));
    assert y in s <==> y in multiset(s);
  }

  /** Toggling the same tag twice restores the set of selected tags; it restores the list
      itself when the tag was absent, and moves the tag to the end when it was present. */
  lemma ToggleTwice(s: seq<string>, tag: string)
    ensures forall y :: y in Toggled(Some(Toggled(Some(s), tag)), tag) <==> y in s
    ensures tag !in s ==> Toggled(Some(Toggled(Some(s), tag)), tag) == s
    ensures tag in s ==> Toggled(Some(Toggled(Some(s), tag)), tag) == Without(s, tag) + [tag]
  {
    var once := Toggled(Some(s), tag);
    var twice := Toggled(Some(once), tag);
    if tag in s {
      forall y ensures y in twice <==> y in s {
        WithoutMembers(s, tag, y);
      }
    } else {
      assert once == s + [tag];
      assert tag in once;
      forall y ensures y in twice <==> y in s {
        WithoutMembers(once, tag, y);
      }
      WithoutAppended(s, tag);
    }
  }

  lemma {:induction false} WithoutAppended(s: seq<string>, tag: string)
    requires tag !in s
    ensures Without(s + [tag], tag) == s
  {
    if s != [] {
      assert (s + [tag])[1..] == s[1..] + [tag];
      WithoutAppended(s[1..], tag);
      assert s == [s[0]] + s[1..];
    }
  }

  /** When the tag was selected but not last, toggling it twice does not give back the same list. */
  lemma ToggleTwiceReorders(s: seq<string>, tag: string, i: nat)
    requires i < |s| - 1 && s[i] == tag
    ensures Toggled(Some(Toggled(Some(s), tag)), tag) != s
  {
    ToggleTwice(s, tag);
    var twice := Toggled(Some(Toggled(Some(s), tag)), tag);
    var kept := Without(s, tag);
    assert twice == kept + [tag];
    assert s[..|s| - 1][i] == tag;
    if |twice| == |s| {
      assert twice[..|s| - 1] == kept;
      assert twice[..|s| - 1] != s[..|s| - 1];
    }
  }

  lemma ToggleTwiceExample()
    ensures Toggled(Some(Toggled(Some(["Web", "Mobile"]), "Web")), "Web") == ["Mobile", "Web"]
  {
    ToggleTwice(["Web", "Mobile"], "Web");
    assert Without(["Web", "Mobile"], "Web") == ["Mobile"];
  }

  // ---------------------------------------------------------------------------
  // Submission

  /** What `response.json()` came to: a parse failure, the JSON `null`, or any other value. */
  datatype Body = Unparseable | JsonNull | JsonValue

  /** What the request produced: no response at all, or a response with its status and its body. */
  datatype Transport = NetworkFailure | Reply(ok: bool, body: Body)

  /** An acknowledgement shown to the visitor. */
  datatype Notice = Sent | SendFailed | CannotConnect

  /** The result of pressing the submit button: the field errors, or the notices shown, in order. */
  datatype SubmitResult = Blocked(errors: map<Field, string>) | Submitted(notices: seq<Notice>)

  /** A submission clears the form only on an OK status with a body other than `null`:
      on `null`, reading `result.data` throws before the reset. */
  predicate Succeeds(t: Transport) {
    t == Reply(true, JsonValue)
  }

  /** The notices one run of the submit handler shows, in order. A failure to reach the server
      or to parse the body lands in the `catch`; an OK reply whose body is `null` shows the success
      notice and then, when `result.data` throws, the connection notice. */
  function NoticesFor(t: Transport): (ns: seq<Notice>)
    ensures 1 <= |ns| <= 2
    ensures |ns| == 2 <==> t == Reply(true, JsonNull)
    ensures ns[|ns| - 1] == Sent <==> Succeeds(t)
    ensures Sent in ns <==> t.Reply? && t.ok && !t.body.Unparseable?
    ensures SendFailed in ns <==> t.Reply? && !t.ok && !t.body.Unparseable?
    ensures CannotConnect in ns <==> t.NetworkFailure? || t.body.Unparseable? || t == Reply(true, JsonNull)
  {
    match t
    case NetworkFailure => [CannotConnect]
    case Reply(ok, body) =>
      if body.Unparseable? then [CannotConnect]
      else if !ok then [SendFailed]
      else if body.JsonNull? then [Sent, CannotConnect]
      else [Sent]
  }

  /** `value` written into the text input registered for f. */
  function WithText(v: FormValues, f: Field, value: string): (w: FormValues)
    requires f != Interests
    ensures w.interests == v.interests
  {
    match f
    case Name => v.(name := value)
    case Company => v.(company := value)
    case Referral => v.(referral := value)
    case Email => v.(email := value)
    case Phone => v.(phone := value)
    case Message => v.(message := value)
  }

  /** The form state held by the form library for the component. */
  class ContactForm {

    var values: FormValues

    constructor ()
      ensures values == DEFAULTS
    {
      values := DEFAULTS;
    }

    /** The visitor types `value` into the input registered for f. */
    method Input(f: Field, value: string)
      requires f != Interests
      modifies this
      ensures values == WithText(old(values), f, value)
    {
      values := WithText(values, f, value);
    }

    /** A click on an interest tag. */
    method ToggleInterest(tag: string)
      modifies this
      ensures values == old(values).(interests := Toggled(Some(old(values).interests), tag))
      ensures tag in values.interests <==> tag !in old(values).interests
    {
      var current := values.interests;
      if tag in current {
        values := values.(interests := Without(current, tag));
      } else {
        values := values.(interests := current + [tag]);
      }
    }

    /** The submit handler, run on validated data. */
    method OnSubmit(t: Transport) returns (notices: seq<Notice>)
      modifies this
      ensures notices == NoticesFor(t)
      ensures values == if Succeeds(t) then DEFAULTS else old(values)
    {
      match t {
        case NetworkFailure =>
          notices := [CannotConnect];
        case Reply(ok, body) =>
          if body.Unparseable? {
            notices := [CannotConnect];
          } else if ok {
            notices := [Sent];
            if body.JsonNull? {
              // reading `result.data` throws: the catch shows its notice, no reset
              notices := notices + [CannotConnect];
            } else {
              values := DEFAULTS;
            }
          } else {
            notices := [SendFailed];
          }
      }
    }

    /** The form's submit event: validate, and call the submit handler only on valid values. */
    method HandleSubmit(isEmail: string -> bool, t: Transport) returns (r: SubmitResult)
      modifies this
      ensures !IsValid(old(values), isEmail) ==>
        r == Blocked(Errors(old(values), isEmail)) && r.errors != map[] && values == old(values)
      ensures IsValid(old(values), isEmail) ==>
        r == Submitted(NoticesFor(t)) && values == if Succeeds(t) then DEFAULTS else old(values)
    {
      var errs := Errors(values, isEmail);
      NoErrorsIffValid(values, isEmail);
      if errs != map[] {
        r := Blocked(errs);
      } else {
        var notices := OnSubmit(t);
        r := Submitted(notices);
      }
    }
  }
}
