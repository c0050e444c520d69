/** The login form's input validators. Each returns the message of the
    first check that fails, or null (written None) when the input passes. */
module ValidateFunctions {
  import opened Text

  /** The value handed to a validator: a string, or some other JavaScript
      value (`typeof value !== 'string'`). */
  datatype Input = Str(s: string) | NotString

  const UsernameNotText := "Username should be a type of text"
  const UsernameEmpty := "Username cannot be empty"
  const UsernameTooShort := "Username should have a minimum length of 3"
  const UsernameTooLong := "Username should have a maximum length of 30"
  const UsernameNotAlphanumeric := "Username must be alphanumeric"

  const EmailNotText := "Email should be a type of text"
  const EmailEmpty := "Email cannot be empty"
  const EmailInvalid := "Email must be a valid email"

  const PasswordNotText := "Password should be a type of text"
  const PasswordTooShort := "Password should have a minimum length of 8"
  const PasswordTooLong := "Password should have a maximum length of 40"
  const PasswordTooWeak := "Password must include at least one uppercase letter, one lowercase letter, one number, and one special character"

  predicate IsLower(c: char) { 'a' <= c <= 'z' }
  predicate IsUpper(c: char) { 'A' <= c <= 'Z' }
  predicate IsAlphanumeric(c: char) { IsLower(c) || IsUpper(c) || IsDigit(c) }

  /** The regular expression `^[a-zA-Z0-9]+$`. */
  predicate MatchesAlphanumeric(s: string)
  {
    |s| > 0 && forall i :: 0 <= i < |s| ==> IsAlphanumeric(s[i])
  }

  function ValidateUsername(input: Input): (r: Option<string>)
    ensures input.NotString? ==> r == Some(UsernameNotText)
    ensures r.None? ==> input.Str? && 3 <= |input.s| <= 30 && MatchesAlphanumeric(input.s)
  {
    match input
    case NotString => Some(UsernameNotText)
    case Str(s) =>
      if Trim(s) == "" then Some(UsernameEmpty)
      else if |s| < 3 then Some(UsernameTooShort)
      else if |s| > 30 then Some(UsernameTooLong)
      else if !MatchesAlphanumeric(s) then Some(UsernameNotAlphanumeric)
      else None
  }

  /** A username is accepted exactly when it has 3 to 30 characters, every
      one an ASCII letter or digit. */
  lemma UsernameAcceptedIff(s: string)
    ensures ValidateUsername(Str(s)).None? <==> 3 <= |s| <= 30 && MatchesAlphanumeric(s)
  {
    TrimEmptyIffBlank(s);
    if 3 <= |s| && MatchesAlphanumeric(s) {
      AlphanumericIsNotWhitespace(s[0]);
      assert !IsBlank(s);
    }
  }

  /** No letter or digit is white space. */
  lemma AlphanumericIsNotWhitespace(c: char)
    ensures IsAlphanumeric(c) ==> !IsWhitespace(c)
  {
  }

  /** The checks run in order: blank first, then the minimum and the maximum
      length of the untrimmed string, then the character class. */
  lemma UsernameCheckOrder(s: string)
    ensures IsBlank(s) ==> ValidateUsername(Str(s)) == Some(UsernameEmpty)
    ensures !IsBlank(s) && |s| < 3 ==> ValidateUsername(Str(s)) == Some(UsernameTooShort)
    ensures !IsBlank(s) && |s| > 30 ==> ValidateUsername(Str(s)) == Some(UsernameTooLong)
  {
    TrimEmptyIffBlank(s);
  }

  /** The length checks count the white space around a name, which the
      character check then refuses: a padded name of acceptable length is
      reported as not alphanumeric. */
  lemma PaddedUsernameIsNotAlphanumeric(s: string)
    requires !IsBlank(s) && 3 <= |s| <= 30 && IsWhitespace(s[0])
    ensures ValidateUsername(Str(s)) == Some(UsernameNotAlphanumeric)
  {
    TrimEmptyIffBlank(s);
    AlphanumericIsNotWhitespace(s[0]);
    assert !MatchesAlphanumeric(s);
  }

  /** A character the class `[^\s@]` accepts. */
  predicate IsEmailChar(c: char) { !IsWhitespace(c) && c != '@' }

  predicate AllEmailChars(t: string)
  {
    forall i :: 0 <= i < |t| ==> IsEmailChar(t[i])
  }

  /** `s` splits as `[^\s@]+ @ [^\s@]+ \. [^\s@]+` with the '@' at index
      `at` and the '.' at index `dot`. */
  predicate EmailSplitAt(s: string, at: int, dot: int)
  {
    && 0 < at && at + 1 < dot && dot + 1 < |s|
    && s[at] == '@' && s[dot] == '.'
    && AllEmailChars(s[..at]) && AllEmailChars(s[at + 1..dot]) && AllEmailChars(s[dot + 1..])
  }

  /** The regular expression `^[^\s@]+@[^\s@]+\.[^\s@]+$`. */
  predicate MatchesEmail(s: string)
  {
    exists at, dot | 0 <= at < |s| && 0 <= dot < |s| :: EmailSplitAt(s, at, dot)
  }

  function ValidateEmail(input: Input): (r: Option<string>)
    ensures input.NotString? ==> r == Some(EmailNotText)
    ensures r.None? ==> input.Str? && MatchesEmail(input.s)
  {
    match input
    case NotString => Some(EmailNotText)
    case Str(s) =>
      if Trim(s) == "" then Some(EmailEmpty)
      else if !MatchesEmail(s) then Some(EmailInvalid)
      else None
  }

  /** The shape the email pattern describes, in plain terms: no white space,
      exactly one '@', something before it, and after it a '.' with at least
      one character on each side. */
  predicate SimpleEmailShape(s: string)
  {
    && (forall i :: 0 <= i < |s| ==> !IsWhitespace(s[i]))
    && multiset(s)['@'] == 1
    && exists at | 0 <= at < |s| ::
         s[at] == '@' && at > 0 && exists dot | at + 1 < dot < |s| - 1 :: s[dot] == '.'
  }

  lemma NoAtCount(t: string)
    requires AllEmailChars(t)
    ensures multiset(t)['@'] == 0
  {
    assert '@' !in t by {
      forall i | 0 <= i < |t| ensures t[i] != '@' { assert IsEmailChar(t[i]); }
    }
  }

  lemma AllEmailCharsBetween(s: string, at: int, lo: int, hi: int)
    requires 0 <= lo <= hi <= |s| && (at < lo || hi <= at)
    requires forall i :: 0 <= i < |s| ==> !IsWhitespace(s[i])
    requires forall i :: 0 <= i < |s| && i != at ==> s[i] != '@'
    ensures AllEmailChars(s[lo..hi])
  {
    forall k | 0 <= k < hi - lo ensures IsEmailChar(s[lo..hi][k]) {
      assert s[lo..hi][k] == s[lo + k];
    }
  }

  lemma MatchesEmailHasShape(s: string)
    requires MatchesEmail(s)
    ensures SimpleEmailShape(s)
  {
    var at, dot :| 0 <= at < |s| && 0 <= dot < |s| && EmailSplitAt(s, at, dot);
    SplitHasOneAt(s, at, dot);
    SplitHasNoSpace(s, at, dot);
    assert s[at] == '@' && at > 0 && at + 1 < dot < |s| - 1 && s[dot] == '.';
  }

  /** A split string has its '@' and no other. */
  lemma SplitHasOneAt(s: string, at: int, dot: int)
    requires EmailSplitAt(s, at, dot)
    ensures multiset(s)['@'] == 1
  {
    var a, b, c := s[..at], s[at + 1..dot], s[dot + 1..];
    assert s == a + [s[at]] + b + [s[dot]] + c;
    NoAtCount(a);
    NoAtCount(b);
    NoAtCount(c);
    assert multiset(s) == multiset(a) + multiset{'@'} + multiset(b) + multiset{'.'} + multiset(c);
  }

  /** A split string holds no white space. */
  lemma SplitHasNoSpace(s: string, at: int, dot: int)
    requires EmailSplitAt(s, at, dot)
    ensures forall i :: 0 <= i < |s| ==> !IsWhitespace(s[i])
  {
    var a, b, c := s[..at], s[at + 1..dot], s[dot + 1..];
    forall i | 0 <= i < |s| ensures !IsWhitespace(s[i]) {
      if i < at {
        assert s[i] == a[i] && IsEmailChar(a[i]);
      } else if i == at {
        assert s[i] == '@';
      } else if i < dot {
        assert s[i] == b[i - at - 1] && IsEmailChar(b[i - at - 1]);
      } else if i == dot {
        assert s[i] == '.';
      } else {
        assert s[i] == c[i - dot - 1] && IsEmailChar(c[i - dot - 1]);
      }
    }
  }

  lemma ShapeMatchesEmail(s: string)
    requires SimpleEmailShape(s)
    ensures MatchesEmail(s)
  {
    var at :| 0 <= at < |s| && s[at] == '@' && at > 0 && exists dot | at + 1 < dot < |s| - 1 :: s[dot] == '.';
    var dot :| at + 1 < dot < |s| - 1 && s[dot] == '.';
    OnlyAt(s, at);
    AllEmailCharsBetween(s, at, 0, at);
    AllEmailCharsBetween(s, at, at + 1, dot);
    AllEmailCharsBetween(s, at, dot + 1, |s|);
    assert EmailSplitAt(s, at, dot);
  }

  /** With a single '@' at `at`, no other index holds one. */
  lemma OnlyAt(s: string, at: int)
    requires 0 <= at < |s| && s[at] == '@' && multiset(s)['@'] == 1
    ensures forall i :: 0 <= i < |s| && i != at ==> s[i] != '@'
  {
    var a, c := s[..at], s[at + 1..];
    assert s == a + [s[at]] + c;
    assert multiset(s) == multiset(a) + multiset{'@'} + multiset(c);
    forall i | 0 <= i < |s| && i != at ensures s[i] != '@' {
      if i < at {
        assert s[i] == a[i];
        assert s[i] in multiset(a);
      } else {
        assert s[i] == c[i - at - 1];
        assert s[i] in multiset(c);
      }
    }
  }

  /** The email pattern accepts exactly the strings of the simple shape. */
  lemma EmailPatternIffShape(s: string)
    ensures MatchesEmail(s) <==> SimpleEmailShape(s)
  {
    if MatchesEmail(s) {
      MatchesEmailHasShape(s);
    }
    if SimpleEmailShape(s) {
      ShapeMatchesEmail(s);
    }
  }

  /** A blank email is reported as empty, not as malformed. */
  lemma BlankEmailIsEmpty(s: string)
    requires IsBlank(s)
    ensures ValidateEmail(Str(s)) == Some(EmailEmpty)
  {
    TrimEmptyIffBlank(s);
  }

  /** An email is accepted exactly when it has the simple shape. */
  lemma EmailAcceptedIff(s: string)
    ensures ValidateEmail(Str(s)).None? <==> SimpleEmailShape(s)
  {
    EmailPatternIffShape(s);
    TrimEmptyIffBlank(s);
    if SimpleEmailShape(s) && |s| > 0 {
      assert !IsWhitespace(s[0]);
    }
  }

  /** One of the special characters `@$!%*?&.` the password pattern asks for. */
  predicate IsPasswordSpecial(c: char)
  {
    c == '@' || c == '$' || c == '!' || c == '%' || c == '*' || c == '?' || c == '&' || c == '.'
  }

  predicate IsPasswordChar(c: char)
  {
    IsLower(c) || IsUpper(c) || IsDigit(c) || IsPasswordSpecial(c)
  }

  /** The regular expression
      `^(?=.*[a-z])(?=.*[A-Z])(?=.*\d)(?=.*[@$!%*?&.])[A-Za-z\d@$!%*?&.]{8,}$`:
      at least eight characters from the allowed set, with a lower-case
      letter, an upper-case letter, a digit and a special character among
      them. (The look-aheads' `.` stops at line terminators, none of which
      is in the allowed set.) */
  predicate MatchesPassword(s: string)
  {
    && |s| >= 8
    && (exists i | 0 <= i < |s| :: IsLower(s[i]))
    && (exists i | 0 <= i < |s| :: IsUpper(s[i]))
    && (exists i | 0 <= i < |s| :: IsDigit(s[i]))
    && (exists i | 0 <= i < |s| :: IsPasswordSpecial(s[i]))
    && forall i :: 0 <= i < |s| ==> IsPasswordChar(s[i])
  }

  function ValidatePassword(input: Input): (r: Option<string>)
    ensures input.NotString? ==> r == Some(PasswordNotText)
    ensures r.None? ==> input.Str? && 8 <= |input.s| <= 40 && MatchesPassword(input.s)
    ensures input.Str? && |input.s| < 8 ==> r == Some(PasswordTooShort)
    ensures input.Str? && |input.s| > 40 ==> r == Some(PasswordTooLong)
  {
    match input
    case NotString => Some(PasswordNotText)
    case Str(s) =>
      if |s| < 8 then Some(PasswordTooShort)
      else if |s| > 40 then Some(PasswordTooLong)
      else if !MatchesPassword(s) then Some(PasswordTooWeak)
      else None
  }

  /** A password is accepted exactly when it has 8 to 40 characters, all from
      the allowed set, with one of each of the four kinds. */
  lemma PasswordAcceptedIff(s: string)
    ensures ValidatePassword(Str(s)).None? <==> 8 <= |s| <= 40 && MatchesPassword(s)
  {
  }
}
