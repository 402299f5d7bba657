/** The form validators: each returns an error message, or nothing when the field is
    acceptable. */
module Validators {
  import opened Types

  const UsernameTooShort := "Please enter a username that is at least 3 characters long"
  const UsernameNotAlphanumeric := "Username must only contain alphanumeric characters"
  const PasswordTooShort := "Please enter a password that is at least 8 characters long"
  const ValueMissing := "Please enter a value"

  /** The username pattern is written `a-zA-Z0-9]+$`. With no opening bracket there is no
      character class: it matches the nine characters of this text literally, then one
      or more closing brackets, then the end of the input. */
  const PatternText := "a-zA-Z0-9"

  /** The pattern matches the part of s that starts at index i. */
  predicate MatchesAt(s: string, i: nat) {
    i + |PatternText| < |s|
    && s[i..i + |PatternText|] == PatternText
    && forall j :: i + |PatternText| <= j < |s| ==> s[j] == ']'
  }

  /** `RegExp.prototype.test`: try every start position from i on, left to right. */
  function SearchFrom(s: string, i: nat): (found: bool)
    requires i <= |s|
    ensures found <==> exists j :: i <= j <= |s| && MatchesAt(s, j)
    decreases |s| - i
  {
    if MatchesAt(s, i) then true
    else if i == |s| then false
    else SearchFrom(s, i + 1)
  }

  function ValidateUsername(username: string): (error: Option<string>)
    ensures error == Some(UsernameTooShort) <==> |username| < 3
    ensures error == Some(UsernameNotAlphanumeric) <==> |username| >= 3 && exists j :: 0 <= j <= |username| && MatchesAt(username, j)
    ensures error.None? <==> |username| >= 3 && !exists j :: 0 <= j <= |username| && MatchesAt(username, j)
  {
    if |username| < 3 then Some(UsernameTooShort)
    else if SearchFrom(username, 0) then Some(UsernameNotAlphanumeric)
    else None
  }

  /** The number of closing brackets at the end of s. */
  function TrailingBrackets(s: string): (n: nat)
    ensures n <= |s|
    ensures forall j :: |s| - n <= j < |s| ==> s[j] == ']'
    ensures n < |s| ==> s[|s| - n - 1] != ']'
  {
    if s != [] && s[|s| - 1] == ']' then TrailingBrackets(s[..|s| - 1]) + 1 else 0
  }

  /** A match ends in the literal's '9' and then only brackets, so its bracket run is
      the whole trailing run of s. */
  lemma MatchIsTrailingRun(s: string, j: nat)
    requires MatchesAt(s, j)
    ensures TrailingBrackets(s) == |s| - j - |PatternText|
  {
    var L := |PatternText|;
    var n := TrailingBrackets(s);
    assert s[j + L - 1] != ']' by {
      assert s[j..j + L][L - 1] == s[j + L - 1];
      assert PatternText[L - 1] == '9';
    }
    assert n <= |s| - j - L;
    assert n < |s| ==> s[|s| - n - 1] != ']';
  }

  /** The pattern finds a match exactly when s ends in at least one closing bracket and,
      without its trailing brackets, ends in the pattern's literal text. */
  lemma MatchCharacterised(s: string)
    ensures (exists j :: 0 <= j <= |s| && MatchesAt(s, j)) <==>
      (var n := TrailingBrackets(s);
       n >= 1 && |s| - n >= |PatternText| && s[|s| - n - |PatternText|..|s| - n] == PatternText)
  {
    var n := TrailingBrackets(s);
    var L := |PatternText|;
    if exists j :: 0 <= j <= |s| && MatchesAt(s, j) {
      var j :| 0 <= j <= |s| && MatchesAt(s, j);
      MatchIsTrailingRun(s, j);
    }
    if n >= 1 && |s| - n >= L && s[|s| - n - L..|s| - n] == PatternText {
      assert MatchesAt(s, |s| - n - L);
    }
  }

  /** A username with a character that is not a letter or a digit passes. */
  lemma UsernameWithSymbolAccepted()
    ensures ValidateUsername("bob!") == None
  {
    var s := "bob!";
    assert TrailingBrackets(s) == 0;
    MatchCharacterised(s);
  }

  /** What the pattern does refuse: a username ending in the literal text "a-zA-Z0-9"
      followed by closing brackets. */
  lemma UsernameLiteralRefused()
    ensures ValidateUsername("xa-zA-Z0-9]]") == Some(UsernameNotAlphanumeric)
  {
    var s := "xa-zA-Z0-9]]";
    assert s == "x" + PatternText + "]]";
    assert s[1..10] == PatternText;
    assert s[10] == ']' && s[11] == ']';
    assert MatchesAt(s, 1);
  }

  /** The evident intent of the username check: refuse any username that has a character
      other than an ASCII letter or digit. */
  predicate IsAlphanumeric(c: char) {
    'a' <= c <= 'z' || 'A' <= c <= 'Z' || '0' <= c <= '9'
  }

  function ValidateUsernameIntended(username: string): (error: Option<string>)
    ensures error == Some(UsernameTooShort) <==> |username| < 3
    ensures error == Some(UsernameNotAlphanumeric) <==> |username| >= 3 && exists i :: 0 <= i < |username| && !IsAlphanumeric(username[i])
    ensures error.None? <==> |username| >= 3 && forall i :: 0 <= i < |username| ==> IsAlphanumeric(username[i])
  {
    if |username| < 3 then Some(UsernameTooShort)
    else if !AllAlphanumeric(username) then Some(UsernameNotAlphanumeric)
    else None
  }

  function AllAlphanumeric(s: string): (ok: bool)
    ensures ok <==> forall i :: 0 <= i < |s| ==> IsAlphanumeric(s[i])
  {
    if s == [] then true else IsAlphanumeric(s[0]) && AllAlphanumeric(s[1..])
  }

  /** The check as written and as intended disagree on "bob!". */
  lemma UsernameCheckDisagrees()
    ensures ValidateUsername("bob!") == None
    ensures ValidateUsernameIntended("bob!") == Some(UsernameNotAlphanumeric)
  {
    UsernameWithSymbolAccepted();
    assert !IsAlphanumeric("bob!"[3]);
  }

  function ValidatePassword(password: string): (error: Option<string>)
    ensures error.Some? <==> |password| < 8
    ensures error.Some? ==> error.value == PasswordTooShort
  {
    if |password| < 8 then Some(PasswordTooShort) else None
  }

  /** Only the empty name is refused; a name of spaces passes. */
  function ValidateName(name: string): (error: Option<string>)
    ensures error.Some? <==> name == ""
    ensures error.Some? ==> error.value == ValueMissing
  {
    if |name| == 0 then Some(ValueMissing) else None
  }
}
