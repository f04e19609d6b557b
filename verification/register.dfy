/** The registration form (client/src/components/Register.js): the two
    regular expressions of `handleSubmit`, the order in which its checks
    run, and the state the form is left in.

    Both patterns carry the flags `gim`. The model follows the pattern
    semantics of ECMA-262 (section 22.2.2, "Pattern Semantics"):
    - `i`: a character matches a class when its canonical form equals the
      canonical form of some member of the class. For a class made of ASCII
      characters only the ASCII letters fold: the Canonicalize operation
      never maps a character outside ASCII onto an ASCII one, so folding
      `a`..`z` onto `A`..`Z` and leaving every other character alone is
      exact here;
    - `m`: `^` also matches just after a line terminator and `$` just
      before one;
    - `g`: the regular expression is a literal evaluated afresh on each
      call, so `test` always starts searching at index 0 and succeeds when
      a match starts at some index. */
module Register {
  import opened Common
  import Http
  import Users

  // ---------------------------------------------------------------------
  // Characters and classes

  /** LineTerminator of ECMA-262: LF, CR, LINE SEPARATOR, PARAGRAPH SEPARATOR. */
  predicate IsLineTerminator(c: char)
  {
    c == '\n' || c == '\r' || c == '\U{2028}' || c == '\U{2029}'
  }

  predicate NoLineTerminators(s: string)
  {
    forall i :: 0 <= i < |s| ==> !IsLineTerminator(s[i])
  }

  /** Case folding of the `i` flag, restricted to what matters for ASCII
      classes. */
  function Canon(c: char): (d: char)
    ensures 'a' <= c <= 'z' ==> 'A' <= d <= 'Z'
    ensures !('a' <= c <= 'z') ==> d == c
  {
    if 'a' <= c <= 'z' then (c as int - 32) as char else c
  }

  /** A class range `lo-hi`, or the single character `lo` when `lo == hi`. */
  datatype Range = Range(lo: char, hi: char)

  /** Under `i`, `c` is in the class when some member folds to the same
      character as `c`. */
  predicate InRange(r: Range, c: char)
  {
    exists a: char :: r.lo <= a <= r.hi && Canon(a) == Canon(c)
  }

  predicate InClass(ranges: seq<Range>, c: char)
  {
    exists k :: 0 <= k < |ranges| && InRange(ranges[k], c)
  }

  /** `[a-z0-9_-]` */
  const UsernameClass: seq<Range> := [Range('a', 'z'), Range('0', '9'), Range('_', '_'), Range('-', '-')]
  /** `[a-z]` */
  const LowerClass: seq<Range> := [Range('a', 'z')]
  /** `[A-Z]` */
  const UpperClass: seq<Range> := [Range('A', 'Z')]
  /** `\d` */
  const DigitClass: seq<Range> := [Range('0', '9')]
  /** `[a-zA-Z\d]` */
  const PasswordClass: seq<Range> := [Range('a', 'z'), Range('A', 'Z'), Range('0', '9')]

  // Plain descriptions of the characters, independent of the regex machinery.

  predicate IsLetter(c: char)
  {
    'a' <= c <= 'z' || 'A' <= c <= 'Z'
  }

  predicate IsLower(c: char)
  {
    'a' <= c <= 'z'
  }

  predicate IsUpper(c: char)
  {
    'A' <= c <= 'Z'
  }

  predicate IsDigit(c: char)
  {
    '0' <= c <= '9'
  }

  predicate IsUsernameChar(c: char)
  {
    IsLetter(c) || IsDigit(c) || c == '_' || c == '-'
  }

  /** Under `i`, `[a-z]` and `[A-Z]` each match exactly the ASCII letters. */
  lemma LetterRanges(c: char)
    ensures InRange(Range('a', 'z'), c) <==> IsLetter(c)
    ensures InRange(Range('A', 'Z'), c) <==> IsLetter(c)
  {
    if 'a' <= c <= 'z' {
      assert Canon(c) == Canon(c);
      assert Canon((c as int - 32) as char) == Canon(c);
    } else if 'A' <= c <= 'Z' {
      assert Canon((c as int + 32) as char) == Canon(c);
      assert Canon(c) == Canon(c);
    }
  }

  /** A range of non-letters matches exactly its own members. */
  lemma PlainRange(r: Range, c: char)
    requires !('a' <= r.lo <= 'z') && !('a' <= r.hi <= 'z') && r.lo <= r.hi
    requires r.hi < 'A' || ('Z' < r.lo && r.hi < 'a') || 'z' < r.lo
    ensures InRange(r, c) <==> r.lo <= c <= r.hi
  {
    if r.lo <= c <= r.hi {
      assert Canon(c) == Canon(c);
    }
  }

  lemma UsernameClassChars(c: char)
    ensures InClass(UsernameClass, c) <==> IsUsernameChar(c)
  {
    LetterRanges(c);
    PlainRange(Range('0', '9'), c);
    PlainRange(Range('_', '_'), c);
    PlainRange(Range('-', '-'), c);
    if IsLetter(c) {
      assert InRange(UsernameClass[0], c);
    } else if IsDigit(c) {
      assert InRange(UsernameClass[1], c);
    } else if c == '_' {
      assert InRange(UsernameClass[2], c);
    } else if c == '-' {
      assert InRange(UsernameClass[3], c);
    }
  }

  lemma PasswordClassChars(c: char)
    ensures InClass(LowerClass, c) <==> IsLetter(c)
    ensures InClass(UpperClass, c) <==> IsLetter(c)
    ensures InClass(DigitClass, c) <==> IsDigit(c)
    ensures InClass(PasswordClass, c) <==> IsLetter(c) || IsDigit(c)
  {
    LetterRanges(c);
    PlainRange(Range('0', '9'), c);
    if IsLetter(c) {
      assert InRange(LowerClass[0], c);
      assert InRange(UpperClass[0], c);
      assert InRange(PasswordClass[0], c);
    } else if IsDigit(c) {
      assert InRange(DigitClass[0], c);
      assert InRange(PasswordClass[2], c);
    }
  }

  // ---------------------------------------------------------------------
  // Anchors and the two patterns

  /** `^` under `m`. */
  predicate LineStart(s: string, k: int)
  {
    k == 0 || (0 < k <= |s| && IsLineTerminator(s[k - 1]))
  }

  /** `$` under `m`. */
  predicate LineEnd(s: string, j: int)
  {
    j == |s| || (0 <= j < |s| && IsLineTerminator(s[j]))
  }

  predicate AllIn(s: string, k: int, j: int, ranges: seq<Range>)
    requires 0 <= k <= j <= |s|
  {
    forall i :: k <= i < j ==> InClass(ranges, s[i])
  }

  /** `^[a-z0-9_-]{3,16}$` matches `s[k..j]`. */
  predicate UsernameMatchAt(s: string, k: int, j: int)
  {
    0 <= k <= j <= |s| && LineStart(s, k) && 3 <= j - k <= 16
    && AllIn(s, k, j, UsernameClass) && LineEnd(s, j)
  }

  /** `/^[a-z0-9_-]{3,16}$/gim.test(s)` */
  predicate UsernameTest(s: string)
  {
    exists k, j | 0 <= k <= j <= |s| :: UsernameMatchAt(s, k, j)
  }

  /** The look-ahead `(?=.*X)` at `k`: some character at or after `k` is in
      `X` and none before it on the way is a line terminator (`.` does not
      match one without the `s` flag). */
  predicate LookAhead(s: string, k: int, ranges: seq<Range>)
  {
    exists p :: 0 <= k <= p < |s| && InClass(ranges, s[p])
      && forall i :: k <= i < p ==> !IsLineTerminator(s[i])
  }

  /** `^(?=.*[a-z])(?=.*[A-Z])(?=.*\d)[a-zA-Z\d]{5,}$` matches `s[k..j]`. */
  predicate PasswordMatchAt(s: string, k: int, j: int)
  {
    0 <= k <= j <= |s| && LineStart(s, k)
    && LookAhead(s, k, LowerClass) && LookAhead(s, k, UpperClass) && LookAhead(s, k, DigitClass)
    && 5 <= j - k && AllIn(s, k, j, PasswordClass) && LineEnd(s, j)
  }

  /** `/^(?=.*[a-z])(?=.*[A-Z])(?=.*\d)[a-zA-Z\d]{5,}$/gim.test(s)` */
  predicate PasswordTest(s: string)
  {
    exists k, j | 0 <= k <= j <= |s| :: PasswordMatchAt(s, k, j)
  }

  /** In a single-line string both anchors only match at the two ends. */
  lemma SingleLineAnchors(s: string, k: int, j: int)
    requires NoLineTerminators(s)
    ensures LineStart(s, k) <==> k == 0
    ensures LineEnd(s, j) <==> j == |s|
  {
  }

  // ---------------------------------------------------------------------
  // What the patterns accept on one line

  /** The username rule in plain terms. */
  predicate UsernameRule(s: string)
  {
    3 <= |s| <= 16 && forall i :: 0 <= i < |s| ==> IsUsernameChar(s[i])
  }

  /** The password rule as the `i` flag makes it: five or more letters and
      digits, with at least one letter and at least one digit. */
  predicate PasswordRule(s: string)
  {
    5 <= |s| && AllAlphanumeric(s) && HasLetter(s) && HasDigit(s)
  }

  predicate AllAlphanumeric(s: string)
  {
    forall i :: 0 <= i < |s| ==> IsLetter(s[i]) || IsDigit(s[i])
  }

  predicate HasLetter(s: string)
  {
    exists p :: 0 <= p < |s| && IsLetter(s[p])
  }

  predicate HasDigit(s: string)
  {
    exists p :: 0 <= p < |s| && IsDigit(s[p])
  }

  /** The username pattern accepts a single-line string exactly when it has
      3 to 16 characters, each an ASCII letter of either case, a digit, `_`
      or `-`. */
  lemma UsernameTestMeans(s: string)
    requires NoLineTerminators(s)
    ensures UsernameTest(s) <==> UsernameRule(s)
  {
    forall i | 0 <= i < |s|
      ensures InClass(UsernameClass, s[i]) <==> IsUsernameChar(s[i])
    {
      UsernameClassChars(s[i]);
    }
    if UsernameTest(s) {
      var k, j :| UsernameMatchAt(s, k, j);
      SingleLineAnchors(s, k, j);
    }
    if UsernameRule(s) {
      assert UsernameMatchAt(s, 0, |s|);
    }
  }

  lemma LookAheadOnOneLine(s: string, ranges: seq<Range>)
    requires NoLineTerminators(s)
    ensures LookAhead(s, 0, ranges) <==> exists p :: 0 <= p < |s| && InClass(ranges, s[p])
  {
    if p :| 0 <= p < |s| && InClass(ranges, s[p]) {
      assert forall i :: 0 <= i < p ==> !IsLineTerminator(s[i]);
    }
  }

  /** On one line, each look-ahead of the password pattern asks for a
      letter of either case or for a digit somewhere in the string. */
  lemma PasswordLookAheads(s: string)
    requires NoLineTerminators(s)
    ensures LookAhead(s, 0, LowerClass) <==> HasLetter(s)
    ensures LookAhead(s, 0, UpperClass) <==> HasLetter(s)
    ensures LookAhead(s, 0, DigitClass) <==> HasDigit(s)
  {
    forall i | 0 <= i < |s|
      ensures InClass(LowerClass, s[i]) <==> IsLetter(s[i])
      ensures InClass(UpperClass, s[i]) <==> IsLetter(s[i])
      ensures InClass(DigitClass, s[i]) <==> IsDigit(s[i])
    {
      PasswordClassChars(s[i]);
    }
    LookAheadOnOneLine(s, LowerClass);
    LookAheadOnOneLine(s, UpperClass);
    LookAheadOnOneLine(s, DigitClass);
  }

  lemma PasswordBody(s: string)
    ensures AllIn(s, 0, |s|, PasswordClass) <==> AllAlphanumeric(s)
  {
    forall i | 0 <= i < |s|
      ensures InClass(PasswordClass, s[i]) <==> IsLetter(s[i]) || IsDigit(s[i])
    {
      PasswordClassChars(s[i]);
    }
  }

  /** The password pattern accepts a single-line string exactly when it has
      at least five characters, all ASCII letters or digits, including at
      least one letter and at least one digit: with `i`, the look-aheads for
      `[a-z]` and `[A-Z]` are both satisfied by a letter of either case. */
  lemma PasswordTestMeans(s: string)
    requires NoLineTerminators(s)
    ensures PasswordTest(s) <==> PasswordRule(s)
  {
    PasswordLookAheads(s);
    PasswordBody(s);
    if PasswordTest(s) {
      var k, j :| 0 <= k <= j <= |s| && PasswordMatchAt(s, k, j);
      SingleLineAnchors(s, k, j);
    }
    if PasswordRule(s) {
      assert PasswordMatchAt(s, 0, |s|);
    }
  }

  /** The pattern is weaker than its error message, which asks for an
      uppercase and a lowercase letter: an all-lowercase password passes. */
  lemma PasswordWithoutUppercase()
    ensures PasswordTest("abc12")
    ensures forall i :: 0 <= i < |"abc12"| ==> !IsUpper("abc12"[i])
  {
    var s := "abc12";
    assert s == ['a', 'b', 'c', '1', '2'];
    assert forall i :: 0 <= i < |s| ==> !IsUpper(s[i]) by {
      forall i | 0 <= i < |s|
        ensures !IsUpper(s[i])
      {
        assert 'a' <= s[i] <= 'c' || '1' <= s[i] <= '2';
      }
    }
    assert NoLineTerminators(s);
    assert PasswordRule(s) by {
      assert IsLetter(s[0]) && IsDigit(s[3]);
      assert HasLetter(s) && HasDigit(s);
      assert AllAlphanumeric(s);
    }
    PasswordTestMeans(s);
  }

  /** With `m`, a value spanning several lines passes the username rule when
      one of its lines does, line terminator included. */
  lemma UsernameAcrossLines()
    ensures UsernameTest("?\nbob")
    ensures !UsernameRule("?\nbob")
  {
    var s := "?\nbob";
    forall i | 2 <= i < 5
      ensures InClass(UsernameClass, s[i])
    {
      UsernameClassChars(s[i]);
    }
    assert UsernameMatchAt(s, 2, 5);
    assert !IsUsernameChar(s[0]);
  }

  // ---------------------------------------------------------------------
  // The form

  const EmptyUsernameMessage: string := "The username field is empty."
  const UsernameMessage: string := "New username does not match requirements. Username must be between 3 and 16 characters, only consisting of letters, numbers, underscores, or dashes."
  const PasswordMessage: string := "Password must be at least 5 characters, containing at least one uppercase letter, lowercase letter, and number."
  const MismatchMessage: string := "Passwords do not match"
  const SuccessMessage: string := "User has been successfully registered. Please log in."
  const TakenMessage: string := "Username already exists."

  /** The form's state; `errors` starts out undefined. */
  datatype Form = Form(username: string, password: string, confirmPassword: string,
                       errors: Option<string>, success: string)

  /** The body posted to users/register. */
  datatype Credentials = Credentials(username: string, password: string)

  /** The first failing check's message, or None when all four pass. */
  function Validate(form: Form): (r: Option<string>)
    ensures r == None <==>
      form.username != "" && UsernameTest(form.username) && PasswordTest(form.password)
      && form.password == form.confirmPassword
    ensures form.username == "" ==> r == Some(EmptyUsernameMessage)
    ensures form.username != "" && !UsernameTest(form.username) ==> r == Some(UsernameMessage)
    ensures (form.username != "" && UsernameTest(form.username) && !PasswordTest(form.password))
      ==> r == Some(PasswordMessage)
    ensures (form.username != "" && UsernameTest(form.username) && PasswordTest(form.password)
             && form.password != form.confirmPassword) ==> r == Some(MismatchMessage)
  {
    if form.username == "" then Some(EmptyUsernameMessage)
    else if !UsernameTest(form.username) then Some(UsernameMessage)
    else if !PasswordTest(form.password) then Some(PasswordMessage)
    else if form.password != form.confirmPassword then Some(MismatchMessage)
    else None
  }

  /** What one click of Register did: the request sent, if any, and the form
      afterwards. */
  datatype Submission = Submission(sent: Option<Credentials>, form: Form)

  /** `handleSubmit`. `accepted` says whether the register request answered
      with a success status; any other outcome makes the request throw. */
  function HandleSubmit(form: Form, accepted: bool): (r: Submission)
    ensures Validate(form).Some? ==>
      r.sent == None && r.form == form.(errors := Validate(form))
    ensures Validate(form).None? ==>
      r.sent == Some(Credentials(form.username, form.password))
    ensures Validate(form).None? && accepted ==>
      r.form == Form("", "", "", Some(""), SuccessMessage)
    ensures Validate(form).None? && !accepted ==>
      r.form == form.(errors := Some(TakenMessage))
  {
    match Validate(form)
    case Some(message) => Submission(None, form.(errors := Some(message)))
    case None =>
      var sent := Some(Credentials(form.username, form.password));
      if accepted then Submission(sent, Form("", "", "", Some(""), SuccessMessage))
      else Submission(sent, form.(errors := Some(TakenMessage)))
  }

  /** The error alert shows when `errors` is a non-empty string and no
      success message is showing. */
  predicate ShowsError(form: Form)
  {
    form.errors.Some? && form.errors.value != "" && form.success == ""
  }

  predicate ShowsSuccess(form: Form)
  {
    form.success != ""
  }

  /** A request is sent exactly when all four checks pass; on a single-line
      username and password that is the plain rules plus the confirmation. */
  lemma SentExactlyWhenValid(form: Form, accepted: bool)
    requires NoLineTerminators(form.username) && NoLineTerminators(form.password)
    ensures HandleSubmit(form, accepted).sent.Some? <==>
      UsernameRule(form.username) && PasswordRule(form.password)
      && form.password == form.confirmPassword
  {
    UsernameTestMeans(form.username);
    PasswordTestMeans(form.password);
  }

  /** An empty username is reported as empty, never by the username rule. */
  lemma EmptyUsernameMessageFirst(form: Form, accepted: bool)
    requires form.username == ""
    ensures HandleSubmit(form, accepted).form.errors == Some(EmptyUsernameMessage)
    ensures !UsernameTest(form.username)
  {
  }

  /** A successful registration empties the form and shows only the success
      alert. */
  lemma SuccessClearsForm(form: Form)
    requires Validate(form).None?
    ensures var f := HandleSubmit(form, true).form;
      f.username == "" && f.password == "" && f.confirmPassword == ""
      && ShowsSuccess(f) && !ShowsError(f)
  {
  }

  /** While the success message is still up (for five seconds), a failed
      check sets `errors` but its alert stays hidden. */
  lemma ErrorHiddenUnderSuccess(form: Form, accepted: bool)
    requires form.success != ""
    ensures !ShowsError(HandleSubmit(form, accepted).form)
  {
  }

  /** The request a valid form sends, answered by the register route: a
      name already taken leaves the users as they were and the form reports
      it as taken, while a new name is stored with the hashed password and
      the form is cleared. */
  lemma SubmitAgainstServer(form: Form, users: Users.Store, hash: string -> string, duplicateMessage: string)
    requires Validate(form).None?
    ensures var h := Users.RegisterRoute(users, form.username, form.password, hash, None, duplicateMessage);
      var f := HandleSubmit(form, h.log[0].status == Http.StatusOk).form;
      (Users.Taken(users, form.username) ==> h.store == users && f.errors == Some(TakenMessage))
      && (!Users.Taken(users, form.username) ==>
            h.store[|users|].password == hash(form.password) && f == Form("", "", "", Some(""), SuccessMessage))
  {
  }
}
