/**
 * The credential helpers of the server (functions.js): display-name, email and password
 * validation, and the random password generator, which is shared verbatim by the client.
 * Hashing (`password-hash`) is not modelled here: the account code receives it as an
 * abstract `verify(plain, hash)` predicate.
 */
module Credentials {
  import opened Wrappers
  import opened JsText

  // ---------------------------------------------------------------------------
  // validateName

  /** `name.trim().length > 3` */
  function ValidateName(name: string): (ok: bool)
    ensures ok ==> |name| > 3
  {
    |Trim(name)| > 3
  }

  /** Whitespace around a display name never changes whether it is accepted. */
  lemma ValidateNameIgnoresPadding(p: string, name: string, q: string)
    requires AllSpace(p) && AllSpace(q)
    ensures ValidateName(p + name + q) == ValidateName(name)
  {
    TrimIgnoresPadding(p, name, q);
  }

  // ---------------------------------------------------------------------------
  // validateEmail: /^\w+([\.-]?\w+)*@\w+([\.-]?\w+)*(\.\w{2,3})+$/

  /** `[\.-]` */
  predicate IsSeparator(c: char) {
    c == '.' || c == '-'
  }

  /**
   * What follows the first `\w` of `\w+([\.-]?\w+)*` up to the end of `s`: more word
   * characters, each possibly preceded by one separator.
   */
  predicate DottedTail(s: string)
    decreases |s|
  {
    || s == []
    || (IsWordChar(s[0]) && DottedTail(s[1..]))
    || (|s| >= 2 && IsSeparator(s[0]) && IsWordChar(s[1]) && DottedTail(s[2..]))
  }

  /** `s` matches `\w+([\.-]?\w+)*` as a whole. */
  predicate Dotted(s: string) {
    |s| > 0 && IsWordChar(s[0]) && DottedTail(s[1..])
  }

  /** `s` matches `(\.\w{2,3})+` as a whole. */
  predicate Extensions(s: string)
    decreases |s|
  {
    && |s| >= 3 && s[0] == '.' && IsWordChar(s[1]) && IsWordChar(s[2])
    && (|s| == 3 || Extensions(s[3..])
        || (IsWordChar(s[3]) && (|s| == 4 || Extensions(s[4..]))))
  }

  /** The part after `@`: `\w+([\.-]?\w+)*(\.\w{2,3})+`, a dotted name followed by extensions. */
  predicate EmailDomain(s: string) {
    exists k | 0 < k < |s| :: Dotted(s[..k]) && Extensions(s[k..])
  }

  /** `s` ends with `.` followed by two or three word characters. */
  predicate EndsWithExtension(s: string) {
    |s| >= 3 && IsWordChar(s[|s| - 1]) && IsWordChar(s[|s| - 2])
    && (s[|s| - 3] == '.' || (|s| >= 4 && IsWordChar(s[|s| - 3]) && s[|s| - 4] == '.'))
  }

  /** The email format test of account creation. */
  function ValidateEmail(email: string): (ok: bool)
    ensures ok ==> multiset(email)['@'] == 1
    ensures ok ==> IsWordChar(email[0])
    ensures ok ==> EndsWithExtension(email)
  {
    var ok := exists i | 0 <= i < |email| :: email[i] == '@' && Dotted(email[..i]) && EmailDomain(email[i + 1..]);
    if ok then
      var i :| 0 <= i < |email| && email[i] == '@' && Dotted(email[..i]) && EmailDomain(email[i + 1..]);
      EmailShape(email, i);
      true
    else false
  }

  lemma EmailShape(email: string, i: int)
    requires 0 <= i < |email| && email[i] == '@' && Dotted(email[..i]) && EmailDomain(email[i + 1..])
    ensures multiset(email)['@'] == 1
    ensures IsWordChar(email[0])
    ensures EndsWithExtension(email)
  {
    var local, domain := email[..i], email[i + 1..];
    var k :| 0 < k < |domain| && Dotted(domain[..k]) && Extensions(domain[k..]);
    DomainHasNoAt(domain, k);
    DottedHasNoAt(local);
    SingleAt(email, i);
    assert email[0] == local[0];
    var e := domain[k..];
    ExtensionsEnd(e);
    assert email[|email| - |e|..] == e;
    SuffixEndsWithExtension(email, e);
  }

  lemma SingleAt(s: string, i: int)
    requires 0 <= i < |s| && s[i] == '@'
    requires multiset(s[..i])['@'] == 0 && multiset(s[i + 1..])['@'] == 0
    ensures multiset(s)['@'] == 1
  {
    assert s == s[..i] + [s[i]] + s[i + 1..];
    assert multiset(s) == multiset(s[..i]) + multiset{s[i]} + multiset(s[i + 1..]);
  }

  lemma DomainHasNoAt(domain: string, k: int)
    requires 0 < k < |domain| && Dotted(domain[..k]) && Extensions(domain[k..])
    ensures multiset(domain)['@'] == 0
  {
    assert domain == domain[..k] + domain[k..];
    DottedHasNoAt(domain[..k]);
    ExtensionsHaveNoAt(domain[k..]);
  }

  lemma SuffixEndsWithExtension(s: string, e: string)
    requires |e| <= |s| && s[|s| - |e|..] == e
    requires EndsWithExtension(e)
    ensures EndsWithExtension(s)
  {
    assert s[|s| - 1] == e[|e| - 1] && s[|s| - 2] == e[|e| - 2] && s[|s| - 3] == e[|e| - 3];
    if |e| >= 4 { assert s[|s| - 4] == e[|e| - 4]; }
  }

  lemma {:induction false} DottedTailHasNoAt(s: string)
    requires DottedTail(s)
    ensures multiset(s)['@'] == 0
    decreases |s|
  {
    if s == [] {
    } else if IsWordChar(s[0]) && DottedTail(s[1..]) {
      DottedTailHasNoAt(s[1..]);
      assert s == [s[0]] + s[1..];
    } else {
      DottedTailHasNoAt(s[2..]);
      assert s == [s[0], s[1]] + s[2..];
    }
  }

  lemma DottedHasNoAt(s: string)
    requires Dotted(s)
    ensures multiset(s)['@'] == 0
  {
    DottedTailHasNoAt(s[1..]);
    assert s == [s[0]] + s[1..];
  }

  lemma {:induction false} ExtensionsHaveNoAt(s: string)
    requires Extensions(s)
    ensures multiset(s)['@'] == 0
    decreases |s|
  {
    var n := if |s| == 3 || Extensions(s[3..]) then 3 else 4;
    assert forall k :: 0 <= k < n ==> s[k] != '@';
    NoAtChars(s[..n]);
    if n < |s| {
      ExtensionsHaveNoAt(s[n..]);
    } else {
      assert s[n..] == [];
    }
    MultisetSplit(s, n);
  }

  lemma NoAtChars(s: string)
    requires forall k :: 0 <= k < |s| ==> s[k] != '@'
    ensures multiset(s)['@'] == 0
  {
    assert '@' !in s;
  }

  lemma MultisetSplit(s: string, n: int)
    requires 0 <= n <= |s|
    ensures multiset(s)['@'] == multiset(s[..n])['@'] + multiset(s[n..])['@']
  {
    assert s == s[..n] + s[n..];
  }

  lemma {:induction false} ExtensionsEnd(s: string)
    requires Extensions(s)
    ensures EndsWithExtension(s)
    decreases |s|
  {
    if |s| == 3 || (!Extensions(s[3..]) && |s| == 4) {
    } else if Extensions(s[3..]) {
      ExtensionsEnd(s[3..]);
      assert s[3..][|s| - 3 - 1] == s[|s| - 1];
    } else {
      ExtensionsEnd(s[4..]);
      assert s[4..][|s| - 4 - 1] == s[|s| - 1];
    }
  }

  // ---------------------------------------------------------------------------
  // validatePassword

  /** The characters of the strong pattern's special-character class. */
  predicate IsSpecial(c: char) {
    c in "!@#$%^&*)(+=.<>{}[]:;'\"|~`_-"
  }

  /** The prefix of `s` before its first line terminator: all that `.*` and `.{8,}` can match from the start. */
  function FirstLine(s: string): (l: string)
    ensures |l| <= |s| && l == s[..|l|]
    ensures forall k :: 0 <= k < |l| ==> !IsLineTerminator(l[k])
    ensures |l| < |s| ==> IsLineTerminator(s[|l|])
  {
    if s == [] || IsLineTerminator(s[0]) then [] else [s[0]] + FirstLine(s[1..])
  }

  predicate HasLower(l: string) { exists k | 0 <= k < |l| :: IsLower(l[k]) }
  predicate HasUpper(l: string) { exists k | 0 <= k < |l| :: IsUpper(l[k]) }
  predicate HasDigit(l: string) { exists k | 0 <= k < |l| :: IsDigit(l[k]) }
  predicate HasSpecial(l: string) { exists k | 0 <= k < |l| :: IsSpecial(l[k]) }

  /** The medium pattern: two of lower case, upper case and digit, and at least 8 characters. */
  predicate Medium(s: string) {
    var l := FirstLine(s);
    && ((HasLower(l) && HasUpper(l)) || (HasLower(l) && HasDigit(l)) || (HasUpper(l) && HasDigit(l)))
    && |l| >= 8
  }

  /** The strong pattern: lower case, upper case, digit, special character, and at least 10 characters. */
  predicate Strong(s: string) {
    var l := FirstLine(s);
    HasLower(l) && HasUpper(l) && HasDigit(l) && HasSpecial(l) && |l| >= 10
  }

  /** The `validationLevel` the source computes: 2 when strong, else 1 when medium, else 0. */
  function StrengthLevel(s: string): int {
    if Strong(s) then 2 else if Medium(s) then 1 else 0
  }

  /** `level < 0 ? 0 : level > 2 ? 2 : level` */
  function ClampLevel(level: int): (c: int)
    ensures 0 <= c <= 2
    ensures 0 <= level <= 2 ==> c == level
  {
    if level < 0 then 0 else if level > 2 then 2 else level
  }

  /** The password test: unpadded, and of exactly the clamped requested strength (2 by default). */
  function ValidatePassword(password: string, level: int := 2): (ok: bool)
    ensures ok ==> password == [] || (!IsSpace(password[0]) && !IsSpace(password[|password| - 1]))
    ensures ok ==> StrengthLevel(password) == ClampLevel(level)
  {
    var t := Trim(password);
    t == password && StrengthLevel(t) == ClampLevel(level)
  }

  /** A password with leading or trailing whitespace is refused at every level. */
  lemma PaddedPasswordRefused(password: string, level: int)
    requires |password| > 0 && (IsSpace(password[0]) || IsSpace(password[|password| - 1]))
    ensures !ValidatePassword(password, level)
  {
  }

  /** Levels are compared for equality: a strong password fails at level 1 (and at 0). */
  lemma StrongPasswordFailsLowerLevels(password: string, level: int)
    requires Strong(password) && level < 2
    ensures !ValidatePassword(password, level)
  {
  }

  /** Level 0 accepts exactly the unpadded passwords that are neither medium nor strong. */
  lemma LevelZero(password: string)
    ensures ValidatePassword(password, 0) <==> Trim(password) == password && !Strong(password) && !Medium(password)
  {
  }

  /** The empty password passes level 0. */
  lemma EmptyPasswordAtLevelZero()
    ensures ValidatePassword("", 0)
  {
    assert Trim("") == "";
    assert FirstLine("") == [];
    assert !Strong("") && !Medium("");
  }

  lemma {:induction false} FirstLineWhole(s: string)
    requires forall k :: 0 <= k < |s| ==> !IsLineTerminator(s[k])
    ensures FirstLine(s) == s
  {
    if s != [] {
      FirstLineWhole(s[1..]);
    }
  }

  /** At the default level a password with every character class but only nine characters, "Pa55w0rd!", is refused. */
  lemma WeakPasswordExample()
    ensures !ValidatePassword("Pa55w0rd!")
  {
    var weak := "Pa55w0rd!";
    assert |FirstLine(weak)| <= 9;
  }

  /** At the default level "password1", with no upper-case letter and only nine characters, is refused. */
  lemma Password1Refused()
    ensures !HasUpper(FirstLine("password1"))
    ensures !ValidatePassword("password1")
  {
    var p := "password1";
    var l := FirstLine(p);
    assert |l| <= 9;
    forall k | 0 <= k < |l|
      ensures !IsUpper(l[k])
    {
      assert l[k] == p[k];
    }
  }

  /** At the default level, "Str0ng!Pass" is accepted. */
  lemma StrongPasswordExample()
    ensures ValidatePassword("Str0ng!Pass")
  {
    StrongExampleIsStrong();
    StrongExampleIsUnpadded();
    UnpaddedStrongAccepted("Str0ng!Pass");
  }

  /** An unpadded strong password passes the default level. */
  lemma UnpaddedStrongAccepted(password: string)
    requires Trim(password) == password && Strong(password)
    ensures ValidatePassword(password)
  {
  }

  lemma StrongExampleIsStrong()
    ensures Strong("Str0ng!Pass")
  {
    StrongExampleOneLine();
    StrongExampleClasses();
  }

  lemma StrongExampleOneLine()
    ensures FirstLine("Str0ng!Pass") == "Str0ng!Pass"
  {
    FirstLineWhole("Str0ng!Pass");
  }

  lemma StrongExampleClasses()
    ensures HasLower("Str0ng!Pass") && HasUpper("Str0ng!Pass")
    ensures HasDigit("Str0ng!Pass") && HasSpecial("Str0ng!Pass")
  {
    var strong := "Str0ng!Pass";
    assert IsLower(strong[1]) && IsUpper(strong[0]) && IsDigit(strong[3]);
    assert strong[6] == '!';
    assert IsSpecial('!');
  }

  lemma StrongExampleIsUnpadded()
    ensures Trim("Str0ng!Pass") == "Str0ng!Pass"
  {
    var strong := "Str0ng!Pass";
    assert strong[0] == 'S' && strong[10] == 's';
    PasswordCharIsNoSpace('S');
    PasswordCharIsNoSpace('s');
    TrimIdentity(strong);
  }

  // ---------------------------------------------------------------------------
  // securePassword.generate

  /** `/[a-zA-Z0-9_\-\+\.]/` on one character. */
  predicate IsPasswordChar(c: char) {
    IsLower(c) || IsUpper(c) || IsDigit(c) || c == '_' || c == '-' || c == '+' || c == '.'
  }

  /** `String.fromCharCode(b)` for a byte. */
  function ByteChar(b: byte): char {
    b as char
  }

  /** The characters the rejection loop keeps from a byte stream, in order; every other byte is skipped. */
  function Kept(stream: seq<byte>): (s: string)
    ensures |s| <= |stream|
    ensures forall k :: 0 <= k < |s| ==> IsPasswordChar(s[k])
  {
    if stream == [] then []
    else (if IsPasswordChar(ByteChar(stream[0])) then [ByteChar(stream[0])] else []) + Kept(stream[1..])
  }

  lemma {:induction false} KeptConcat(s: seq<byte>, t: seq<byte>)
    ensures Kept(s + t) == Kept(s) + Kept(t)
  {
    if s == [] {
      assert s + t == t;
    } else {
      assert (s + t)[1..] == s[1..] + t;
      KeptConcat(s[1..], t);
    }
  }

  /**
   * `securePassword.generate(length)`, reading its random bytes from `stream`: for each of the
   * `length` characters, bytes are drawn until one is an allowed character. A finite stream may
   * run out, which the source's endless random source never does; that case gives `None`.
   */
  method GeneratePassword(length: nat, stream: seq<byte>) returns (password: Option<string>)
    ensures password.Some? <==> length <= |Kept(stream)|
    ensures password.Some? ==> password.value == Kept(stream)[..length]
    ensures password.Some? ==> |password.value| == length
    ensures password.Some? ==> forall k :: 0 <= k < length ==> IsPasswordChar(password.value[k])
  {
    var result: string := [];
    var pos := 0;
    while |result| < length
      invariant pos <= |stream|
      invariant result == Kept(stream[..pos])
      invariant |result| <= length
    {
      var c: char;
      while true
        invariant pos <= |stream|
        invariant result == Kept(stream[..pos])
        decreases |stream| - pos
      {
        if pos == |stream| {
          KeptConcat(stream[..pos], stream[pos..]);
          assert stream[..pos] + stream[pos..] == stream;
          assert stream[pos..] == [];
          return None;
        }
        c := ByteChar(stream[pos]);
        KeptConcat(stream[..pos], [stream[pos]]);
        assert stream[..pos + 1] == stream[..pos] + [stream[pos]];
        pos := pos + 1;
        if IsPasswordChar(c) {
          break;
        }
      }
      result := result + [c];
    }
    KeptConcat(stream[..pos], stream[pos..]);
    assert stream[..pos] + stream[pos..] == stream;
    password := Some(result);
  }

  /** A generated password never carries whitespace, so it always passes the trim check. */
  lemma GeneratedPasswordIsUnpadded(password: string)
    requires forall k :: 0 <= k < |password| ==> IsPasswordChar(password[k])
    ensures Trim(password) == password
  {
    if password != [] {
      PasswordCharIsNoSpace(password[0]);
      PasswordCharIsNoSpace(password[|password| - 1]);
    }
    TrimIdentity(password);
  }

  lemma PasswordCharIsNoSpace(c: char)
    requires IsPasswordChar(c)
    ensures !IsSpace(c)
  {
  }

  /** Nothing makes a generated password strong: sixteen `a` bytes give a password `validatePassword` refuses. */
  lemma GeneratedPasswordMayBeWeak()
    ensures var stream := seq(16, _ => 97 as byte);
      |Kept(stream)| == 16 && !ValidatePassword(Kept(stream)[..16])
  {
    var stream := seq(16, _ => 97 as byte);
    var p := KeptAll(stream, 'a');
    assert Kept(stream)[..16] == p;
    assert !HasUpper(FirstLine(p)) by {
      assert |FirstLine(p)| <= |p|;
      forall k | 0 <= k < |FirstLine(p)| ensures !IsUpper(FirstLine(p)[k]) {
        assert FirstLine(p)[k] == p[k];
      }
    }
  }

  lemma {:induction false} KeptAll(stream: seq<byte>, c: char) returns (p: string)
    requires c == 'a' && forall k :: 0 <= k < |stream| ==> stream[k] == 97
    ensures p == Kept(stream) && |p| == |stream| && forall k :: 0 <= k < |p| ==> p[k] == c
  {
    if stream == [] {
      p := [];
    } else {
      var rest := KeptAll(stream[1..], c);
      assert ByteChar(stream[0]) == 'a';
      p := [c] + rest;
    }
  }
}
