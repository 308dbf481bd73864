/** The four form-field validators. Each regular expression is restated as
    a predicate over the characters of the value; each `*Validator` adapter
    becomes a function that returns a verdict instead of invoking a
    callback. */
module Validators {
  import opened Chars
  import opened Labels

  /* ---------------------------------------------------------------- */
  /* User names: /^[A-Za-z_0-9]{3,12}$/                                */
  /* ---------------------------------------------------------------- */

  const UsernameMinLength := 3
  const UsernameMaxLength := 12

  /** `isLegalUsername`: 3 to 12 word characters. */
  predicate IsLegalUsername(s: string) {
    UsernameMinLength <= |s| <= UsernameMaxLength && All(s, IsWordChar)
  }

  /** The doc comment and the error message promise at most 10 characters;
      the pattern accepts 11 and 12 as well. */
  lemma UsernameLongerThanDocumented()
    ensures IsLegalUsername("abcdefghijkl") && |"abcdefghijkl"| == 12
    ensures !IsLegalUsername("abcdefghijklm")
  {
  }

  /* ---------------------------------------------------------------- */
  /* Passwords                                                        */
  /* ---------------------------------------------------------------- */

  const PasswordMinLength := 6
  const PasswordMaxLength := 16

  /** `/(^[a-z]+$)|(^[A-Z]+$)|(^_+$)|(^\d+$)/`: the value is non-empty and
      drawn from one of the four classes alone. */
  predicate IsSingleClass(s: string) {
    |s| > 0 && (All(s, IsLower) || All(s, IsUpper) || All(s, IsUnderscore) || All(s, IsDigit))
  }

  /** `isLegalPassword`, its three tests in the source's order: the length
      bounds, then `/[^A-Za-z_0-9]/` finding a foreign character, then the
      single-class pattern. */
  predicate IsLegalPassword(s: string) {
    if |s| < PasswordMinLength || |s| > PasswordMaxLength then false
    else if exists i :: 0 <= i < |s| && !IsWordChar(s[i]) then false
    else if IsSingleClass(s) then false
    else true
  }

  /** Between 6 and 12 characters the two alphabets agree: a password is
      legal exactly when it is a legal user name that is not drawn from a
      single class. */
  lemma PasswordIsMixedUsername(s: string)
    requires PasswordMinLength <= |s| <= UsernameMaxLength
    ensures IsLegalPassword(s) <==> IsLegalUsername(s) && !IsSingleClass(s)
  {
  }

  /** The password rule as the doc comment words it: 6 to 16 word
      characters of at least two of the four classes. */
  lemma PasswordMixesTwoClasses(s: string)
    ensures IsLegalPassword(s) <==>
              && PasswordMinLength <= |s| <= PasswordMaxLength
              && All(s, IsWordChar)
              && exists i, j :: 0 <= i < |s| && 0 <= j < |s| && ClassOf(s[i]) != ClassOf(s[j])
  {
    if PasswordMinLength <= |s| <= PasswordMaxLength && All(s, IsWordChar) {
      var k := ClassOf(s[0]);
      if IsSingleClass(s) {
        forall i, j | 0 <= i < |s| && 0 <= j < |s|
          ensures ClassOf(s[i]) == ClassOf(s[j])
        {
        }
      } else {
        assert k != Other;
        if k == Lower {
          assert !All(s, IsLower);
        } else if k == Upper {
          assert !All(s, IsUpper);
        } else if k == Underscore {
          assert !All(s, IsUnderscore);
        } else {
          assert !All(s, IsDigit);
        }
      }
    }
  }

  /** The doc comment and the error message say 6-15 characters; a
      16-character password is accepted. */
  lemma PasswordLongerThanDocumented()
    ensures IsLegalPassword("abcdefghijklmno1") && |"abcdefghijklmno1"| == 16
  {
    var s := "abcdefghijklmno1";
    assert !All(s, IsLower) by { assert !IsLower(s[15]); }
    assert !All(s, IsUpper) by { assert !IsUpper(s[0]); }
    assert !All(s, IsUnderscore) by { assert !IsUnderscore(s[0]); }
    assert !All(s, IsDigit) by { assert !IsDigit(s[0]); }
  }

  /* ---------------------------------------------------------------- */
  /* Mobile phone numbers: /^1[3-9]\d{9}$/                             */
  /* ---------------------------------------------------------------- */

  /** `isLegalMobilePhone`: eleven characters, `1`, then `3`-`9`, then nine
      digits. */
  predicate IsLegalMobilePhone(s: string) {
    |s| == 11 && s[0] == '1' && '3' <= s[1] <= '9' && All(s[2..], IsDigit)
  }

  function Pow10(n: nat): (p: nat)
    ensures p >= 1
  {
    if n == 0 then 1 else 10 * Pow10(n - 1)
  }

  /** `x` followed by `n` zeros, written without multiplying two unknowns. */
  function Shift(x: nat, n: nat): nat {
    if n == 0 then x else 10 * Shift(x, n - 1)
  }

  /** The number a string of decimal digits spells. */
  function NumeralValue(s: string): nat
    requires All(s, IsDigit)
    decreases |s|
  {
    if |s| == 0 then 0
    else
      AllPrefix(s, |s| - 1, IsDigit);
      NumeralValue(s[..|s| - 1]) * 10 + ((s[|s| - 1] as int) - ('0' as int))
  }

  /** An `n`-digit numeral is below ten to the `n`. */
  lemma {:induction false} NumeralBound(s: string)
    requires All(s, IsDigit)
    ensures NumeralValue(s) < Pow10(|s|)
    decreases |s|
  {
    if |s| > 0 {
      AllPrefix(s, |s| - 1, IsDigit);
      NumeralBound(s[..|s| - 1]);
    }
  }

  /** The value of two digit strings written one after the other. */
  lemma {:induction false} NumeralConcat(a: string, b: string)
    requires All(a, IsDigit) && All(b, IsDigit)
    ensures All(a + b, IsDigit)
    ensures NumeralValue(a + b) == Shift(NumeralValue(a), |b|) + NumeralValue(b)
    decreases |b|
  {
    AllConcat(a, b, IsDigit);
    if |b| > 0 {
      var b' := b[..|b| - 1];
      AllPrefix(b, |b| - 1, IsDigit);
      NumeralConcat(a, b');
      assert (a + b)[..|a + b| - 1] == a + b';
      assert (a + b)[|a + b| - 1] == b[|b| - 1];
    } else {
      assert a + b == a;
    }
  }

  /** `Shift` is multiplication by a power of ten. */
  lemma {:induction false} ShiftIsScaling(x: nat, n: nat)
    ensures Shift(x, n) == x * Pow10(n)
  {
    if n > 0 {
      ShiftIsScaling(x, n - 1);
      assert x * (10 * Pow10(n - 1)) == 10 * (x * Pow10(n - 1));
    }
  }

  /** The value of a two-digit numeral. */
  lemma NumeralTwoDigits(s: string)
    requires |s| == 2 && All(s, IsDigit)
    ensures NumeralValue(s) == 10 * ((s[0] as int) - ('0' as int)) + ((s[1] as int) - ('0' as int))
  {
    AllPrefix(s, 1, IsDigit);
    assert s[..1][..0] == [];
    assert s[..1][0] == s[0];
    assert NumeralValue(s[..1]) == (s[0] as int) - ('0' as int);
  }

  /** A legal mobile number is exactly an eleven-digit numeral whose value
      lies between 13000000000 and 19999999999. */
  lemma MobilePhoneIsNumberInRange(s: string)
    ensures IsLegalMobilePhone(s) <==>
              |s| == 11 && All(s, IsDigit) && 13000000000 <= NumeralValue(s) <= 19999999999
  {
    if |s| == 11 && All(s, IsDigit) {
      var head, tail := s[..2], s[2..];
      assert All(head, IsDigit) && All(tail, IsDigit);
      NumeralConcat(head, tail);
      NumeralBound(tail);
      assert s == head + tail;
      assert Pow10(|tail|) == 1000000000 by {
        assert |tail| == 9;
        assert Pow10(9) == 1000000000;
      }
      NumeralTwoDigits(head);
      var n := NumeralValue(head);
      ShiftIsScaling(n, 9);
      assert NumeralValue(s) == n * 1000000000 + NumeralValue(tail);
      assert 13 <= n <= 19 <==> s[0] == '1' && '3' <= s[1] <= '9';
    }
  }

  /* ---------------------------------------------------------------- */
  /* E-mail addresses:                                                */
  /* /^[A-Za-z0-9一-龥]+@[a-zA-Z0-9_-]+(\.[a-zA-Z0-9_-]+)+$/          */
  /* ---------------------------------------------------------------- */

  /** A domain label: a non-empty run of `[a-zA-Z0-9_-]`. */
  predicate IsLabel(l: string) {
    |l| > 0 && All(l, IsDomainChar)
  }

  /** `[a-zA-Z0-9_-]+(\.[a-zA-Z0-9_-]+)+`: the pieces between the dots are
      at least two, and each is a label. Labels cannot hold a dot, so
      cutting at every dot recovers them. */
  predicate IsDomain(d: string) {
    var labels := Split(d, '.');
    |labels| >= 2 && forall i :: 0 <= i < |labels| ==> IsLabel(labels[i])
  }

  /** `isLegalEmail`: a non-empty local part of `[A-Za-z0-9一-龥]`, an `@`,
      and a domain. */
  predicate IsLegalEmail(s: string) {
    exists k :: 0 < k < |s| && s[k] == '@' && All(s[..k], IsLocalChar) && IsDomain(s[k + 1..])
  }

  /** A domain is precisely two or more labels joined with dots. */
  lemma DomainIsDottedLabels(d: string)
    ensures IsDomain(d) <==>
              exists labels :: |labels| >= 2
                               && (forall i :: 0 <= i < |labels| ==> IsLabel(labels[i]))
                               && Join(labels, '.') == d
  {
    if IsDomain(d) {
      JoinSplit(d, '.');
    }
    if exists labels :: |labels| >= 2
                        && (forall i :: 0 <= i < |labels| ==> IsLabel(labels[i]))
                        && Join(labels, '.') == d
    {
      var labels :| |labels| >= 2
                    && (forall i :: 0 <= i < |labels| ==> IsLabel(labels[i]))
                    && Join(labels, '.') == d;
      forall i | 0 <= i < |labels|
        ensures '.' !in labels[i]
      {
        assert IsLabel(labels[i]);
      }
      SplitJoin(labels, '.');
    }
  }

  /** No character of a domain is an `@`. */
  lemma {:induction false} DomainHasNoAt(labels: seq<string>)
    requires |labels| >= 1
    requires forall i :: 0 <= i < |labels| ==> IsLabel(labels[i])
    ensures '@' !in Join(labels, '.')
    decreases |labels|
  {
    assert '@' !in labels[0] by { assert IsLabel(labels[0]); }
    if |labels| > 1 {
      DomainHasNoAt(labels[1..]);
    }
  }

  /** A legal address holds exactly one `@`, with only local-part
      characters before it. */
  lemma EmailHasOneAt(s: string)
    requires IsLegalEmail(s)
    ensures exists k :: 0 < k < |s| && s[k] == '@' && All(s[..k], IsLocalChar)
                        && forall j :: 0 <= j < |s| && s[j] == '@' ==> j == k
  {
    var k :| 0 < k < |s| && s[k] == '@' && All(s[..k], IsLocalChar) && IsDomain(s[k + 1..]);
    var d := s[k + 1..];
    JoinSplit(d, '.');
    DomainHasNoAt(Split(d, '.'));
    assert forall j :: k < j < |s| ==> s[j] == d[j - k - 1];
    assert forall j :: 0 <= j < k ==> s[j] == s[..k][j];
  }

  /** Any non-empty local part, an `@` and two or more labels joined with
      dots make a legal address. */
  lemma EmailFromParts(local: string, labels: seq<string>)
    requires |local| > 0 && All(local, IsLocalChar)
    requires |labels| >= 2 && forall i :: 0 <= i < |labels| ==> IsLabel(labels[i])
    ensures IsLegalEmail(local + "@" + Join(labels, '.'))
  {
    var d := Join(labels, '.');
    var s := local + "@" + d;
    var k := |local|;
    assert s[..k] == local;
    assert s[k + 1..] == d;
    DomainIsDottedLabels(d);
    assert s[k] == '@';
  }

  /** The domain `example.com` is the labels `example` and `com`. */
  lemma ExampleComLabels()
    ensures IsLabel("example") && IsLabel("com")
    ensures Join(["example", "com"], '.') == "example.com"
  {
    assert Join(["com"], '.') == "com";
  }

  lemma EmailExampleAccepted()
    ensures IsLegalEmail("user@example.com")
  {
    var labels := ["example", "com"];
    ExampleComLabels();
    var local := "user";
    assert All(local, IsLocalChar) by {
      assert IsLower(local[0]) && IsLower(local[1]) && IsLower(local[2]) && IsLower(local[3]);
    }
    EmailFromParts(local, labels);
    assert local + "@" + "example.com" == "user@example.com";
  }

  lemma EmailExampleHanAccepted()
    ensures IsLegalEmail("用户@example.com")
  {
    var labels := ["example", "com"];
    ExampleComLabels();
    var local := "用户";
    assert All(local, IsLocalChar) by {
      assert IsHan(local[0]) && IsHan(local[1]);
    }
    EmailFromParts(local, labels);
    assert local + "@" + "example.com" == "用户@example.com";
  }

  lemma EmailExamplesRejected()
    ensures !IsLegalEmail("user@")
    ensures !IsLegalEmail("user@example")
  {
    var c := "user@";
    assert forall k :: 0 < k < |c| && c[k] == '@' ==> k == 4;
    var e := "user@example";
    assert forall k :: 0 < k < |e| && e[k] == '@' ==> k == 4;
    assert Split(e[5..], '.') == ["example"] by {
      assert e[5..] == "example";
      SplitNoSeparator("example", '.');
    }
  }

  /* ---------------------------------------------------------------- */
  /* Form adapters                                                    */
  /* ---------------------------------------------------------------- */

  /** What an adapter hands its callback: nothing, or an error with a
      fixed message. */
  datatype Verdict = Accept | Reject(message: string)

  const UsernameMessage := "3~10个字符 只能是字母 数字 下划线"
  const PasswordMessage := "6-15个字符，至少包括大写、小写、下划线、数字两种"
  const MobilePhoneMessage := "手机号码格式不正确"
  const EmailMessage := "邮箱格式不正确"

  /** The shared shape of the four adapters: the empty value is not this
      validator's business, anything else must be legal. */
  function Adapt(value: string, legal: bool, message: string): Verdict {
    if value == "" || legal then Accept else Reject(message)
  }

  function UsernameValidator(value: string): (v: Verdict)
    ensures v == Accept <==> value == "" || IsLegalUsername(value)
    ensures v != Accept ==> v == Reject(UsernameMessage)
  {
    Adapt(value, IsLegalUsername(value), UsernameMessage)
  }

  function PasswordValidator(value: string): (v: Verdict)
    ensures v == Accept <==> value == "" || IsLegalPassword(value)
    ensures v != Accept ==> v == Reject(PasswordMessage)
  {
    Adapt(value, IsLegalPassword(value), PasswordMessage)
  }

  function MobilePhoneValidator(value: string): (v: Verdict)
    ensures v == Accept <==> value == "" || IsLegalMobilePhone(value)
    ensures v != Accept ==> v == Reject(MobilePhoneMessage)
  {
    Adapt(value, IsLegalMobilePhone(value), MobilePhoneMessage)
  }

  function EmailValidator(value: string): (v: Verdict)
    ensures v == Accept <==> value == "" || IsLegalEmail(value)
    ensures v != Accept ==> v == Reject(EmailMessage)
  {
    Adapt(value, IsLegalEmail(value), EmailMessage)
  }

  /** None of the four patterns matches the empty string, so only the
      adapters' own test lets it through. */
  lemma EmptyValueIsOnlyAcceptedByAdapters()
    ensures !IsLegalUsername("") && !IsLegalPassword("")
    ensures !IsLegalMobilePhone("") && !IsLegalEmail("")
    ensures UsernameValidator("") == Accept && PasswordValidator("") == Accept
    ensures MobilePhoneValidator("") == Accept && EmailValidator("") == Accept
  {
  }
}
