/**
 * The contact form's submit check. Every one of the seven fields must be
 * filled in, and the e-mail address must match the pattern
 * `^[^\s@]+@[^\s@]+\.[^\s@]+$`. Only an accepted form is cleared.
 */
module ContactForm {

  /** The values of the seven form fields. */
  datatype Form = Form(
    firstName: string,
    lastName: string,
    email: string,
    phone: string,
    projectType: string,
    deadline: string,
    message: string)

  /** What a submission ends in: the alert the visitor sees. */
  datatype Outcome = MissingFields | InvalidEmail | Ok

  /** The answer to a submission and the form's values afterwards. */
  datatype Submission = Submission(outcome: Outcome, form: Form)

  /** The fields in the order the page reads them. */
  function Fields(f: Form): (r: seq<string>)
    ensures |r| == 7 && r[2] == f.email
  {
    [f.firstName, f.lastName, f.email, f.phone, f.projectType, f.deadline, f.message]
  }

  /** A character of the class `\s` of JavaScript regular expressions:
      white space and line terminators. */
  predicate IsWhitespace(c: char)
  {
    0x0009 <= c as int <= 0x000D || c == ' ' ||
    c as int == 0x00A0 || c as int == 0x1680 || 0x2000 <= c as int <= 0x200A ||
    c as int == 0x2028 || c as int == 0x2029 || c as int == 0x202F ||
    c as int == 0x205F || c as int == 0x3000 || c as int == 0xFEFF
  }

  /** A character of the class `[^\s@]`. */
  predicate Plain(c: char)
  {
    !IsWhitespace(c) && c != '@'
  }

  /** A string matched by `[^\s@]+`. */
  predicate PlainRun(s: string)
  {
    |s| > 0 && forall k :: 0 <= k < |s| ==> Plain(s[k])
  }

  /** `^[^\s@]+@[^\s@]+\.[^\s@]+$` matches `s`: some `@` at `at` and some
      `.` at `dot` split `s` into three non-empty runs of plain characters. */
  predicate EmailPattern(s: string)
  {
    exists at, dot :: 0 <= at < dot < |s| && s[at] == '@' && s[dot] == '.' &&
      PlainRun(s[..at]) && PlainRun(s[at + 1..dot]) && PlainRun(s[dot + 1..])
  }

  /** How many times `c` occurs in `s`. */
  function Occurrences(s: string, c: char): (r: nat)
    ensures r <= |s|
  {
    if s == [] then 0 else (if s[0] == c then 1 else 0) + Occurrences(s[1..], c)
  }

  /** The pattern in plain words: no white space anywhere, exactly one `@`,
      something before it, and after it a `.` that is neither the first
      nor the last character of the domain. */
  predicate PlainEmail(s: string)
  {
    (forall k :: 0 <= k < |s| ==> !IsWhitespace(s[k])) &&
    Occurrences(s, '@') == 1 &&
    exists at, dot :: 0 < at && at + 1 < dot < |s| - 1 && s[at] == '@' && s[dot] == '.'
  }

  lemma {:induction false} OccurrencesConcat(a: string, b: string, c: char)
    ensures Occurrences(a + b, c) == Occurrences(a, c) + Occurrences(b, c)
  {
    if a != [] {
      assert (a + b)[0] == a[0] && (a + b)[1..] == a[1..] + b;
      OccurrencesConcat(a[1..], b, c);
    } else {
      assert a + b == b;
    }
  }

  lemma {:induction false} OccurrencesZero(s: string, c: char)
    ensures Occurrences(s, c) == 0 <==> forall k :: 0 <= k < |s| ==> s[k] != c
  {
    if s != [] {
      OccurrencesZero(s[1..], c);
      assert forall k :: 1 <= k < |s| ==> s[k] == s[1..][k - 1];
    }
  }

  /** `c` is absent from a slice exactly when no position of it holds `c`. */
  lemma OccurrencesZeroIn(s: string, lo: nat, hi: nat, c: char)
    requires lo <= hi <= |s|
    ensures Occurrences(s[lo..hi], c) == 0 <==> forall k :: lo <= k < hi ==> s[k] != c
  {
    OccurrencesZero(s[lo..hi], c);
    assert forall k :: lo <= k < hi ==> s[k] == s[lo..hi][k - lo];
  }

  /** Splitting `s` around position `at`. */
  lemma OccurrencesAround(s: string, at: nat, c: char)
    requires at < |s|
    ensures Occurrences(s, c) ==
            Occurrences(s[0..at], c) + (if s[at] == c then 1 else 0) + Occurrences(s[at + 1..|s|], c)
  {
    assert s == s[0..at] + ([s[at]] + s[at + 1..|s|]);
    OccurrencesConcat(s[0..at], [s[at]] + s[at + 1..|s|], c);
    OccurrencesConcat([s[at]], s[at + 1..|s|], c);
  }

  /** A run of plain characters, position by position. */
  lemma PlainRunIn(s: string, lo: nat, hi: nat)
    requires lo <= hi <= |s|
    ensures PlainRun(s[lo..hi]) <==> lo < hi && forall k :: lo <= k < hi ==> Plain(s[k])
  {
  }

  /** The pattern implies the plain description. */
  lemma PatternIsPlain(s: string)
    requires EmailPattern(s)
    ensures PlainEmail(s)
  {
    var at, dot :| 0 <= at < dot < |s| && s[at] == '@' && s[dot] == '.' &&
      PlainRun(s[..at]) && PlainRun(s[at + 1..dot]) && PlainRun(s[dot + 1..]);
    assert s[..at] == s[0..at] && s[dot + 1..] == s[dot + 1..|s|];
    PlainRunIn(s, 0, at);
    PlainRunIn(s, at + 1, dot);
    PlainRunIn(s, dot + 1, |s|);
    assert forall k :: 0 <= k < |s| && k != at ==> Plain(s[k]);
    OccurrencesAround(s, at, '@');
    OccurrencesZeroIn(s, 0, at, '@');
    OccurrencesZeroIn(s, at + 1, |s|, '@');
  }

  /** The plain description implies the pattern. */
  lemma PlainIsPattern(s: string)
    requires PlainEmail(s)
    ensures EmailPattern(s)
  {
    var at, dot :| 0 < at && at + 1 < dot < |s| - 1 && s[at] == '@' && s[dot] == '.';
    OccurrencesAround(s, at, '@');
    OccurrencesZeroIn(s, 0, at, '@');
    OccurrencesZeroIn(s, at + 1, |s|, '@');
    assert forall k :: 0 <= k < |s| && k != at ==> Plain(s[k]);
    PlainRunIn(s, 0, at);
    PlainRunIn(s, at + 1, dot);
    PlainRunIn(s, dot + 1, |s|);
    assert s[..at] == s[0..at] && s[dot + 1..] == s[dot + 1..|s|];
  }

  /** The e-mail pattern holds exactly when the plain description does. */
  lemma EmailPatternIff(s: string)
    ensures EmailPattern(s) <==> PlainEmail(s)
  {
    if EmailPattern(s) {
      PatternIsPlain(s);
    }
    if PlainEmail(s) {
      PlainIsPattern(s);
    }
  }

  /** The submit check: a missing field is reported before the e-mail
      address is looked at. */
  function Validate(f: Form): (r: Outcome)
    ensures r == MissingFields <==> "" in Fields(f)
    ensures r == InvalidEmail <==> "" !in Fields(f) && !EmailPattern(f.email)
    ensures r == Ok <==> "" !in Fields(f) && EmailPattern(f.email)
  {
    if f.firstName == "" || f.lastName == "" || f.email == "" || f.phone == "" ||
       f.projectType == "" || f.deadline == "" || f.message == ""
    then MissingFields
    else if !EmailPattern(f.email) then InvalidEmail
    else Ok
  }

  /** A submission: the form is reset to its `defaults` only when it is
      accepted, and keeps what the visitor typed otherwise. */
  function Submit(f: Form, defaults: Form): (r: Submission)
    ensures r.outcome == Validate(f)
    ensures r.outcome == Ok ==> r.form == defaults
    ensures r.outcome != Ok ==> r.form == f
  {
    var outcome := Validate(f);
    Submission(outcome, if outcome == Ok then defaults else f)
  }

  /** An empty e-mail field is reported as missing, not as malformed. */
  lemma MissingBeforeEmail(f: Form)
    requires f.email == ""
    ensures Validate(f) == MissingFields
    ensures !EmailPattern(f.email)
  {
  }

  /** "a@b.co" is accepted and "bad" is rejected, the other fields being
      filled in. */
  lemma EmailExamples(f: Form)
    requires f.firstName != "" && f.lastName != "" && f.phone != ""
    requires f.projectType != "" && f.deadline != "" && f.message != ""
    ensures Validate(f.(email := "a@b.co")) == Ok
    ensures Validate(f.(email := "bad")) == InvalidEmail
  {
    var good := "a@b.co";
    assert good[1] == '@' && good[3] == '.';
    assert good[..1] == "a" && good[1 + 1..3] == "b" && good[3 + 1..] == "co";
    assert PlainRun(good[..1]) && PlainRun(good[1 + 1..3]) && PlainRun(good[3 + 1..]);
    assert EmailPattern(good);
    var bad := "bad";
    assert forall k :: 0 <= k < |bad| ==> bad[k] != '@';
  }
}
