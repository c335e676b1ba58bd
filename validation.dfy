/**
 * The validation engine: a value and an optional rule set give the ordered
 * list of messages a field shows. `Messages` is the specification,
 * `ValidateValue` the step-by-step procedure that pushes onto a list and
 * returns early on a missing required value.
 */
module Validation {
  import opened Wrappers
  import opened TextOps
  import opened FormTypes

  const RequiredMessage := "This field is required"
  const EmailMessage := "Invalid email format"
  const PasswordLengthMessage := "Password must be at least 8 characters"
  const PasswordDigitMessage := "Password must contain at least one number"
  const MinPrefix := "Minimum length is "
  const MaxPrefix := "Maximum length is "

  function MinLengthMessage(m: int): string {
    MinPrefix + IntToString(m)
  }

  function MaxLengthMessage(n: int): string {
    MaxPrefix + IntToString(n)
  }

  /** `value ?? ''`: null and undefined read as the empty string. */
  function Coalesce(v: Value): (r: Value)
    ensures !r.Null? && !r.Undefined?
    ensures (v.Null? || v.Undefined?) ==> r == Str("")
    ensures v.Null? || v.Undefined? || r == v
  {
    if v.Null? || v.Undefined? then Str("") else v
  }

  /** The required test: empty string, null, undefined or empty array. */
  predicate IsBlank(v: Value)
    ensures v.Str? ==> (IsBlank(v) <==> v.s == "")
    ensures v.Arr? ==> (IsBlank(v) <==> v.items == [])
    ensures v.Bool? || v.Num? ==> !IsBlank(v)
  {
    v == Str("") || v.Null? || v.Undefined? || v == Arr([])
  }

  /** A length bound is enforced when it is a truthy number: present and non-zero. */
  predicate Enforced(bound: Option<int>)
    ensures Enforced(bound) <==> bound.GetOr(0) != 0
  {
    bound.Some? && bound.value != 0
  }

  /** `/\d/.test(s)`: scans for a decimal digit, and finds one exactly when the string holds one. */
  predicate HasDigit(s: string)
    ensures HasDigit(s) <==> exists k :: 0 <= k < |s| && IsDigit(s[k])
  {
    if s == [] then false
    else
      assert forall k :: 0 < k < |s| ==> s[1..][k - 1] == s[k];
      IsDigit(s[0]) || HasDigit(s[1..])
  }

  predicate NoSpace(s: string) {
    forall k :: 0 <= k < |s| ==> !IsSpace(s[k])
  }

  /**
   * What `/^\S+@\S+\.\S+$/` accepts: no whitespace anywhere, an `@` after at
   * least one character, then a `.` after at least one more character and
   * before at least one final character.
   */
  ghost predicate EmailShaped(s: string) {
    NoSpace(s) && exists i, j :: 1 <= i && i + 2 <= j <= |s| - 2 && s[i] == '@' && s[j] == '.'
  }

  /** The first index at or after `k` holding `c`, or -1. */
  function IndexFrom(s: string, c: char, k: nat): (r: int)
    requires k <= |s|
    ensures r == -1 || (k <= r < |s| && s[r] == c)
    ensures forall x :: k <= x < |s| && (r == -1 || x < r) ==> s[x] != c
    decreases |s| - k
  {
    if k == |s| then -1 else if s[k] == c then k else IndexFrom(s, c, k + 1)
  }

  /** The last index below `k` holding `c`, or -1. */
  function LastIndexBelow(s: string, c: char, k: nat): (r: int)
    requires k <= |s|
    ensures r == -1 || (0 <= r < k && s[r] == c)
    ensures forall x :: 0 <= x < k && r < x ==> s[x] != c
  {
    if k == 0 then -1 else if s[k - 1] == c then k - 1 else LastIndexBelow(s, c, k - 1)
  }

  /** The email test: the earliest usable `@` must leave room before the latest usable `.`. */
  predicate MatchesEmail(s: string)
    ensures MatchesEmail(s) ==> NoSpace(s) && |s| >= 5
  {
    s != [] && NoSpace(s) &&
    var i := IndexFrom(s, '@', 1);
    var j := LastIndexBelow(s, '.', |s| - 1);
    i >= 1 && j >= 0 && i + 2 <= j
  }

  lemma EmailMatchSpec(s: string)
    ensures MatchesEmail(s) <==> EmailShaped(s)
  {
    if MatchesEmail(s) {
      var i := IndexFrom(s, '@', 1);
      var j := LastIndexBelow(s, '.', |s| - 1);
      assert 1 <= i && i + 2 <= j <= |s| - 2 && s[i] == '@' && s[j] == '.';
    }
    if EmailShaped(s) {
      var i0, j0 :| 1 <= i0 && i0 + 2 <= j0 <= |s| - 2 && s[i0] == '@' && s[j0] == '.';
      var i := IndexFrom(s, '@', 1);
      var j := LastIndexBelow(s, '.', |s| - 1);
      assert i != -1 && i <= i0;
      assert j != -1 && j0 <= j;
    }
  }

  /** The message of each string check, or nothing when the check passes. */
  function MinPart(rs: ValidationRules, s: string): seq<string> {
    if Enforced(rs.minLength) && |s| < rs.minLength.value then [MinLengthMessage(rs.minLength.value)] else []
  }

  function MaxPart(rs: ValidationRules, s: string): seq<string> {
    if Enforced(rs.maxLength) && |s| > rs.maxLength.value then [MaxLengthMessage(rs.maxLength.value)] else []
  }

  function EmailPart(rs: ValidationRules, s: string): seq<string> {
    if rs.email && !MatchesEmail(s) then [EmailMessage] else []
  }

  function PasswordLengthPart(rs: ValidationRules, s: string): seq<string> {
    if rs.passwordRule && |s| < 8 then [PasswordLengthMessage] else []
  }

  function PasswordDigitPart(rs: ValidationRules, s: string): seq<string> {
    if rs.passwordRule && !HasDigit(s) then [PasswordDigitMessage] else []
  }

  /**
   * The messages, in the order the rules are checked. A blank value under
   * `required` gives the required message alone; otherwise only string
   * values are checked, and each of the five string checks contributes at
   * most one message.
   */
  function Messages(value: Value, rules: Option<ValidationRules>): (r: seq<string>)
    ensures rules.None? ==> r == []
    ensures |r| <= 5
    ensures !Coalesce(value).Str? ==> r == [] || r == [RequiredMessage]
  {
    if rules.None? then []
    else
      var rs := rules.value;
      var v := Coalesce(value);
      if rs.required && IsBlank(v) then [RequiredMessage]
      else if !v.Str? then []
      else
        MinPart(rs, v.s) + MaxPart(rs, v.s) + EmailPart(rs, v.s) + PasswordLengthPart(rs, v.s) + PasswordDigitPart(rs, v.s)
  }

  /** `validateValue`: pushes each failing rule's message in turn, returning at once after a required failure. */
  method ValidateValue(value: Value, rules: Option<ValidationRules>) returns (errors: seq<string>)
    ensures errors == Messages(value, rules)
  {
    errors := [];
    if rules.None? {
      return;
    }
    var rs := rules.value;
    var v := Coalesce(value);
    if rs.required {
      if IsBlank(v) {
        errors := errors + [RequiredMessage];
        return;
      }
    }
    if !v.Str? {
      return;
    }
    var s := v.s;
    if Enforced(rs.minLength) {
      if |s| < rs.minLength.value {
        errors := errors + [MinLengthMessage(rs.minLength.value)];
      }
    }
    assert errors == MinPart(rs, s);
    if Enforced(rs.maxLength) {
      if |s| > rs.maxLength.value {
        errors := errors + [MaxLengthMessage(rs.maxLength.value)];
      }
    }
    assert errors == MinPart(rs, s) + MaxPart(rs, s);
    if rs.email {
      if !MatchesEmail(s) {
        errors := errors + [EmailMessage];
      }
    }
    assert errors == MinPart(rs, s) + MaxPart(rs, s) + EmailPart(rs, s);
    if rs.passwordRule {
      if |s| < 8 {
        errors := errors + [PasswordLengthMessage];
      }
      assert errors == MinPart(rs, s) + MaxPart(rs, s) + EmailPart(rs, s) + PasswordLengthPart(rs, s);
      if !HasDigit(s) {
        errors := errors + [PasswordDigitMessage];
      }
    }
  }

  /** The position of a message's rule in the checking order. */
  function MessageRank(m: string): nat {
    if MinPrefix <= m then 0
    else if MaxPrefix <= m then 1
    else if m == EmailMessage then 2
    else if m == PasswordLengthMessage then 3
    else if m == PasswordDigitMessage then 4
    else 5
  }

  lemma MinRank(m: int)
    ensures MessageRank(MinLengthMessage(m)) == 0
  {
    assert MinLengthMessage(m)[..|MinPrefix|] == MinPrefix;
  }

  lemma MaxRank(n: int)
    ensures MessageRank(MaxLengthMessage(n)) == 1
  {
    var mx := MaxLengthMessage(n);
    assert mx[1] == 'a' && MinPrefix[1] == 'i';
    assert mx[..|MaxPrefix|] == MaxPrefix;
  }

  lemma FixedRanks()
    ensures MessageRank(EmailMessage) == 2
    ensures MessageRank(PasswordLengthMessage) == 3
    ensures MessageRank(PasswordDigitMessage) == 4
    ensures MessageRank(RequiredMessage) == 5
  {
    assert EmailMessage[0] == 'I';
    assert PasswordLengthMessage[0] == 'P' && PasswordDigitMessage[0] == 'P';
    assert PasswordLengthMessage != PasswordDigitMessage by {
      assert PasswordLengthMessage[14] == 'b' && PasswordDigitMessage[14] == 'c';
    }
    assert RequiredMessage[0] == 'T';
  }

  ghost predicate Ranked(r: seq<string>) {
    forall i, j :: 0 <= i < j < |r| ==> MessageRank(r[i]) < MessageRank(r[j])
  }

  lemma RankedAppend(a: seq<string>, b: seq<string>, k: nat)
    requires Ranked(a) && Ranked(b)
    requires forall x :: x in a ==> MessageRank(x) < k
    requires forall x :: x in b ==> MessageRank(x) >= k
    ensures Ranked(a + b)
  {
    forall i, j | 0 <= i < j < |a + b|
      ensures MessageRank((a + b)[i]) < MessageRank((a + b)[j])
    {
      if j < |a| {
        assert (a + b)[i] == a[i] && (a + b)[j] == a[j];
      } else if i < |a| {
        assert (a + b)[i] in a && (a + b)[j] in b;
      } else {
        assert (a + b)[i] == b[i - |a|] && (a + b)[j] == b[j - |a|];
      }
    }
  }

  /**
   * Messages always come in checking order (min length, max length, email,
   * password length, password digit), so no message appears twice.
   */
  lemma MessagesOrdered(value: Value, rules: Option<ValidationRules>)
    ensures Ranked(Messages(value, rules))
  {
    if rules.Some? && Coalesce(value).Str? && !(rules.value.required && IsBlank(Coalesce(value))) {
      PartsOrdered(rules.value, Coalesce(value).s);
    }
  }

  /** The five string checks' messages, concatenated in checking order, are ranked. */
  lemma PartsOrdered(rs: ValidationRules, s: string)
    ensures Ranked(MinPart(rs, s) + MaxPart(rs, s) + EmailPart(rs, s) + PasswordLengthPart(rs, s) + PasswordDigitPart(rs, s))
  {
    var p1, p2, p3 := MinPart(rs, s), MaxPart(rs, s), EmailPart(rs, s);
    var p4, p5 := PasswordLengthPart(rs, s), PasswordDigitPart(rs, s);
    MinRank(rs.minLength.GetOr(0));
    MaxRank(rs.maxLength.GetOr(0));
    FixedRanks();
    RankedAppend(p1, p2, 1);
    RankedAppend(p1 + p2, p3, 2);
    RankedAppend(p1 + p2 + p3, p4, 3);
    RankedAppend(p1 + p2 + p3 + p4, p5, 4);
  }

  lemma MinLengthMessageInjective(a: int, b: int)
    requires MinLengthMessage(a) == MinLengthMessage(b)
    ensures a == b
  {
    assert MinLengthMessage(a)[|MinPrefix|..] == IntToString(a);
    assert MinLengthMessage(b)[|MinPrefix|..] == IntToString(b);
    IntToStringInjective(a, b);
  }

  lemma MaxLengthMessageInjective(a: int, b: int)
    requires MaxLengthMessage(a) == MaxLengthMessage(b)
    ensures a == b
  {
    assert MaxLengthMessage(a)[|MaxPrefix|..] == IntToString(a);
    assert MaxLengthMessage(b)[|MaxPrefix|..] == IntToString(b);
    IntToStringInjective(a, b);
  }

  /** The five string checks of a string that is not a required-blank: a message is produced by the check of its own rank. */
  lemma StringMessagesByRank(s: string, rs: ValidationRules, x: string)
    requires !(rs.required && s == "")
    ensures var r := Messages(Str(s), Some(rs));
      && (MessageRank(x) == 0 ==> (x in r <==> x in MinPart(rs, s)))
      && (MessageRank(x) == 1 ==> (x in r <==> x in MaxPart(rs, s)))
      && (MessageRank(x) == 2 ==> (x in r <==> x in EmailPart(rs, s)))
      && (MessageRank(x) == 3 ==> (x in r <==> x in PasswordLengthPart(rs, s)))
      && (MessageRank(x) == 4 ==> (x in r <==> x in PasswordDigitPart(rs, s)))
      && (MessageRank(x) == 5 ==> x !in r)
  {
    var p1, p2, p3 := MinPart(rs, s), MaxPart(rs, s), EmailPart(rs, s);
    var p4, p5 := PasswordLengthPart(rs, s), PasswordDigitPart(rs, s);
    PartRanks(rs, s);
    var r := Messages(Str(s), Some(rs));
    assert r == p1 + p2 + p3 + p4 + p5;
    assert x in r <==> x in p1 || x in p2 || x in p3 || x in p4 || x in p5;
  }

  /** Every message of a string check carries that check's rank. */
  lemma PartRanks(rs: ValidationRules, s: string)
    ensures forall y :: y in MinPart(rs, s) ==> MessageRank(y) == 0
    ensures forall y :: y in MaxPart(rs, s) ==> MessageRank(y) == 1
    ensures forall y :: y in EmailPart(rs, s) ==> MessageRank(y) == 2
    ensures forall y :: y in PasswordLengthPart(rs, s) ==> MessageRank(y) == 3
    ensures forall y :: y in PasswordDigitPart(rs, s) ==> MessageRank(y) == 4
  {
    MinRank(rs.minLength.GetOr(0));
    MaxRank(rs.maxLength.GetOr(0));
    FixedRanks();
  }

  /** The required message appears exactly for a required blank value, and then it is the only message. */
  lemma RequiredIff(value: Value, rules: Option<ValidationRules>)
    ensures RequiredMessage in Messages(value, rules) <==> rules.Some? && rules.value.required && IsBlank(Coalesce(value))
    ensures RequiredMessage in Messages(value, rules) ==> Messages(value, rules) == [RequiredMessage]
  {
    if rules.Some? && Coalesce(value).Str? && !(rules.value.required && IsBlank(Coalesce(value))) {
      FixedRanks();
      StringMessagesByRank(Coalesce(value).s, rules.value, RequiredMessage);
    }
  }

  /** A missing value (null, or undefined as a missing key reads) is validated exactly as the empty string. */
  lemma MissingValueIsEmptyString(rules: Option<ValidationRules>)
    ensures Messages(Null, rules) == Messages(Str(""), rules)
    ensures Messages(Undefined, rules) == Messages(Str(""), rules)
  {
  }

  /** A required checkbox left unticked, a zero and a non-empty list all pass: none of them is blank. */
  lemma RequiredAcceptsFalseZeroAndNonEmptyList(rs: ValidationRules, x: Value, rest: seq<Value>)
    ensures Messages(Bool(false), Some(rs)) == []
    ensures Messages(Num(0), Some(rs)) == []
    ensures Messages(Arr([x] + rest), Some(rs)) == []
  {
    assert Arr([x] + rest) != Arr([]);
  }

  /** For a string, the minimum-length message for `m` appears iff `m` is the enforced (non-zero) minimum and the string is shorter. */
  lemma MinLengthIff(s: string, rs: ValidationRules, m: int)
    requires !(rs.required && s == "")
    ensures MinLengthMessage(m) in Messages(Str(s), Some(rs)) <==> rs.minLength == Some(m) && m != 0 && |s| < m
  {
    MinRank(m);
    StringMessagesByRank(s, rs, MinLengthMessage(m));
    if MinLengthMessage(m) in MinPart(rs, s) {
      MinLengthMessageInjective(m, rs.minLength.value);
    }
  }

  /** For a string, the maximum-length message for `n` appears iff `n` is the enforced (non-zero) maximum and the string is longer. */
  lemma MaxLengthIff(s: string, rs: ValidationRules, n: int)
    requires !(rs.required && s == "")
    ensures MaxLengthMessage(n) in Messages(Str(s), Some(rs)) <==> rs.maxLength == Some(n) && n != 0 && |s| > n
  {
    MaxRank(n);
    StringMessagesByRank(s, rs, MaxLengthMessage(n));
    if MaxLengthMessage(n) in MaxPart(rs, s) {
      MaxLengthMessageInjective(n, rs.maxLength.value);
    }
  }

  /** A minimum above the maximum is not rejected: a string can fail both. */
  lemma MinAboveMaxGivesBoth(s: string, m: int, n: int)
    requires 0 < n < |s| < m
    ensures Messages(Str(s), Some(NoRules.(minLength := Some(m), maxLength := Some(n))))
         == [MinLengthMessage(m), MaxLengthMessage(n)]
  {
  }

  /** With a minimum `m` and maximum `n`, `0 < m <= n`, every string of length between them passes the length checks. */
  lemma LengthWindow(s: string, m: int, n: int)
    requires 0 < m <= |s| <= n
    ensures Messages(Str(s), Some(NoRules.(minLength := Some(m), maxLength := Some(n)))) == []
    ensures Messages(Str(s[1..]), Some(NoRules.(minLength := Some(|s|), maxLength := Some(n)))) == [MinLengthMessage(|s|)]
    ensures Messages(Str(s + "x"), Some(NoRules.(minLength := Some(m), maxLength := Some(|s|)))) == [MaxLengthMessage(|s|)]
  {
  }

  /** A zero length bound is falsy and behaves exactly like an absent one. */
  lemma ZeroBoundIsAbsent(value: Value, rs: ValidationRules)
    ensures Messages(value, Some(rs.(minLength := Some(0)))) == Messages(value, Some(rs.(minLength := None)))
    ensures Messages(value, Some(rs.(maxLength := Some(0)))) == Messages(value, Some(rs.(maxLength := None)))
  {
  }

  /** For a string under the email rule, the email message appears iff the string does not have the `x@y.z` shape. */
  lemma EmailIff(s: string, rs: ValidationRules)
    requires !(rs.required && s == "")
    ensures EmailMessage in Messages(Str(s), Some(rs)) <==> rs.email && !EmailShaped(s)
  {
    FixedRanks();
    StringMessagesByRank(s, rs, EmailMessage);
    EmailMatchSpec(s);
  }

  /** For a string under the password rule, the two password messages fire independently. */
  lemma PasswordIff(s: string, rs: ValidationRules)
    requires !(rs.required && s == "")
    ensures PasswordLengthMessage in Messages(Str(s), Some(rs)) <==> rs.passwordRule && |s| < 8
    ensures PasswordDigitMessage in Messages(Str(s), Some(rs))
        <==> rs.passwordRule && forall k :: 0 <= k < |s| ==> !('0' <= s[k] <= '9')
  {
    FixedRanks();
    StringMessagesByRank(s, rs, PasswordLengthMessage);
    StringMessagesByRank(s, rs, PasswordDigitMessage);
  }

  /** "abc" fails both password checks, "abcdefgh" only the digit check, "abcdefg1" neither. */
  lemma PasswordExamples()
    ensures Messages(Str("abc"), Some(NoRules.(passwordRule := true))) == [PasswordLengthMessage, PasswordDigitMessage]
    ensures Messages(Str("abcdefgh"), Some(NoRules.(passwordRule := true))) == [PasswordDigitMessage]
    ensures Messages(Str("abcdefg1"), Some(NoRules.(passwordRule := true))) == []
  {
    assert IsDigit("abcdefg1"[7]);
  }

  /** "a@b.com" passes the email rule and "not-an-email" fails it. */
  lemma EmailExamples()
    ensures Messages(Str("a@b.com"), Some(NoRules.(email := true))) == []
    ensures Messages(Str("not-an-email"), Some(NoRules.(email := true))) == [EmailMessage]
  {
    var good := "a@b.com";
    assert good[1] == '@' && good[3] == '.';
    assert EmailShaped(good);
    EmailMatchSpec(good);
    var bad := "not-an-email";
    assert forall k :: 0 <= k < |bad| ==> bad[k] != '@';
    EmailMatchSpec(bad);
  }
}
