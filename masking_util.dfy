/**
 * Masking of personal data for logs and responses: e-mail addresses, phone
 * numbers, names, card-like numbers, and the credentials of a connection
 * URL. Each regular-expression replacement is modelled on its match
 * semantics: a lookaround pattern of one character decides position by
 * position against the original text, and a capturing pattern is found
 * leftmost-first and rewritten, the scan resuming after the match.
 * Characters are Unicode code points.
 */
module MaskingUtil {

  import opened Wrappers
  import opened JavaText

  /** Java's line terminators: the characters the regular-expression `.` does not match. */
  predicate IsLineTerminator(c: char)
  {
    c == '\n' || c == '\r' || c == '\U{85}' || c == '\U{2028}' || c == '\U{2029}'
  }

  /** `.`: any character but a line terminator. */
  predicate Dot(c: char)
  {
    !IsLineTerminator(c)
  }

  predicate SingleLine(s: string)
  {
    forall i :: 0 <= i < |s| ==> Dot(s[i])
  }

  /** `"*".repeat(n)`. */
  function Stars(n: nat): (r: string)
    ensures |r| == n && forall i :: 0 <= i < n ==> r[i] == '*'
  {
    seq(n, _ => '*')
  }

  // ---------------------------------------------------------------- email

  /** `(?=.*@)` just after position `i`: an '@' further on, reached without crossing a line terminator. */
  predicate AtAhead(s: string, i: int)
  {
    exists j :: 0 <= i < j < |s| && s[j] == '@' && forall k :: i < k < j ==> Dot(s[k])
  }

  /** `(?<=.{2}).(?=.*@)` matches the character at `i`. */
  predicate EmailMasked(s: string, i: int)
    requires 0 <= i < |s|
  {
    2 <= i && Dot(s[i - 2]) && Dot(s[i - 1]) && Dot(s[i]) && AtAhead(s, i)
  }

  /**
   * `email`: null and blank text come back as they are; otherwise every
   * character the pattern matches becomes '*'; the length is kept.
   */
  function Email(email: Option<string>): (r: Option<string>)
    ensures !HasText(email) ==> r == email
    ensures HasText(email) ==> r.Some? && |r.value| == |email.value|
    ensures HasText(email) ==> forall i :: 0 <= i < |email.value| ==>
              r.value[i] == email.value[i] || (r.value[i] == '*' && EmailMasked(email.value, i))
  {
    if !HasText(email) then email
    else
      var s := email.value;
      var r := seq(|s|, i requires 0 <= i < |s| => if EmailMasked(s, i) then '*' else s[i]);
      Some(r)
  }

  /** In text without line terminators, the characters masked are exactly those from index 2 on that precede some '@'. */
  lemma EmailOfSingleLine(s: string)
    requires HasText(Some(s)) && SingleLine(s)
    ensures forall i :: 0 <= i < |s| ==> (EmailMasked(s, i) <==> 2 <= i && '@' in s[i + 1..])
    ensures forall i :: 0 <= i < |s| ==> Email(Some(s)).value[i] == if 2 <= i && '@' in s[i + 1..] then '*' else s[i]
  {
    forall i | 0 <= i < |s| ensures EmailMasked(s, i) <==> 2 <= i && '@' in s[i + 1..] {
      if 2 <= i && '@' in s[i + 1..] {
        var j' :| 0 <= j' < |s[i + 1..]| && s[i + 1..][j'] == '@';
        var j := i + 1 + j';
        assert s[j] == '@';
        assert AtAhead(s, i);
      }
      if EmailMasked(s, i) {
        var j :| 0 <= i < j < |s| && s[j] == '@' && forall k :: i < k < j ==> Dot(s[k]);
        assert s[i + 1..][j - i - 1] == '@';
      }
    }
  }

  /** In `local + "@" + domain` with no '@' in the domain, an '@' follows index `i` exactly when `i` is in the local part. */
  lemma AtFollowsLocal(local: string, domain: string, i: int)
    requires '@' !in domain && 0 <= i < |local| + 1 + |domain|
    ensures var s := local + "@" + domain; '@' in s[i + 1..] <==> i < |local|
  {
    var s := local + "@" + domain;
    if i < |local| {
      assert s[i + 1..][|local| - i - 1] == s[|local|] == '@';
    } else {
      assert s[i + 1..] == domain[i - |local|..];
    }
  }

  /** The expected masked address, position by position. */
  lemma MaskedAddressAt(local: string, domain: string, i: int)
    requires |local| >= 2 && 0 <= i < |local| + 1 + |domain|
    ensures var e := local[..2] + Stars(|local| - 2) + "@" + domain;
            |e| == |local| + 1 + |domain| &&
            e[i] == if 2 <= i < |local| then '*' else (local + "@" + domain)[i]
  {
  }

  /**
   * An address of one line whose domain has no '@' keeps the first two
   * characters of its local part and the whole domain, and masks the rest of
   * the local part.
   */
  lemma EmailOfAddress(local: string, domain: string)
    requires |local| >= 2 && SingleLine(local) && SingleLine(domain) && '@' !in domain
    ensures Email(Some(local + "@" + domain)) == Some(local[..2] + Stars(|local| - 2) + "@" + domain)
  {
    var s := local + "@" + domain;
    var e := local[..2] + Stars(|local| - 2) + "@" + domain;
    assert HasText(Some(s)) by {
      assert s[|local|] == '@' && !IsWhitespace(s[|local|]);
    }
    assert SingleLine(s) by {
      forall i | 0 <= i < |s| ensures Dot(s[i]) {
        if i < |local| {
          assert s[i] == local[i];
        } else if i > |local| {
          assert s[i] == domain[i - |local| - 1];
        }
      }
    }
    EmailOfSingleLine(s);
    var r := Email(Some(s)).value;
    forall i | 0 <= i < |s| ensures r[i] == e[i] {
      AtFollowsLocal(local, domain, i);
      MaskedAddressAt(local, domain, i);
    }
    MaskedAddressAt(local, domain, 0);
    assert r == e;
  }

  /** The documented example: mingo@gmail.com becomes mi***@gmail.com. */
  lemma EmailExample()
    ensures Email(Some("mingo@gmail.com")) == Some("mi***@gmail.com")
  {
    EmailOfAddress("mingo", "gmail.com");
    assert "mingo" + "@" + "gmail.com" == "mingo@gmail.com";
    assert "mingo"[..2] + Stars(3) + "@" + "gmail.com" == "mi***@gmail.com";
  }

  // ---------------------------------------------------------------- phone

  /** A match of a capturing pattern at the start of the remaining text: its length and its replacement. */
  datatype Match = Match(length: nat, replacement: string)

  /** The two patterns of `phone`: `(\d{2,3})-\d{3,4}-(\d{4})` and `(\d{3})\d{4}(\d{4})`. */
  datatype PhonePattern = Hyphenated | Contiguous

  /** `\d`, which without the Unicode flag is an ASCII digit. */
  predicate IsDigit(c: char)
  {
    '0' <= c <= '9'
  }

  /** The hyphenated pattern at the start of `s` with `n1` digits in the first group and `n2` in the middle. */
  predicate HyphenShape(s: string, n1: nat, n2: nat)
  {
    n1 + n2 + 6 <= |s| && IsDigits(s[..n1]) && s[n1] == '-' && IsDigits(s[n1 + 1..n1 + 1 + n2]) &&
    s[n1 + 1 + n2] == '-' && IsDigits(s[n1 + n2 + 2..n1 + n2 + 6])
  }

  /** `$1-****-$2` for the hyphenated match of shape (`n1`, `n2`). */
  function HyphenMatch(s: string, n1: nat, n2: nat): (m: Match)
    requires HyphenShape(s, n1, n2)
    ensures m.length == n1 + n2 + 6
  {
    Match(n1 + n2 + 6, s[..n1] + "-****-" + s[n1 + n2 + 2..n1 + n2 + 6])
  }

  /**
   * The match at the start of `s`, if any. The greedy quantifiers of the
   * hyphenated pattern try three digits before two in the first group and
   * four before three in the middle; the first shape that fits is taken.
   */
  function MatchAt(pattern: PhonePattern, s: string): (m: Option<Match>)
    ensures m.Some? ==> 1 <= m.value.length <= |s|
    ensures m.Some? ==> IsDigit(s[0])
  {
    match pattern
    case Hyphenated =>
      if HyphenShape(s, 3, 4) then Some(HyphenMatch(s, 3, 4))
      else if HyphenShape(s, 3, 3) then Some(HyphenMatch(s, 3, 3))
      else if HyphenShape(s, 2, 4) then Some(HyphenMatch(s, 2, 4))
      else if HyphenShape(s, 2, 3) then Some(HyphenMatch(s, 2, 3))
      else None
    case Contiguous =>
      if |s| >= 11 && IsDigits(s[..11]) then Some(Match(11, s[..3] + "****" + s[7..11])) else None
  }

  /** `replaceAll`: scanning from the left, each match is rewritten and the scan resumes after it. */
  function ReplaceAll(pattern: PhonePattern, s: string): (r: string)
    decreases |s|
  {
    if s == [] then []
    else
      match MatchAt(pattern, s)
      case Some(m) => m.replacement + ReplaceAll(pattern, s[m.length..])
      case None => [s[0]] + ReplaceAll(pattern, s[1..])
  }

  /**
   * `phone`: null and blank text come back as they are; text with a hyphen
   * goes through the hyphenated pattern, any other through the eleven-digit
   * one.
   */
  function Phone(phone: Option<string>): (r: Option<string>)
    ensures !HasText(phone) ==> r == phone
    ensures HasText(phone) && '-' in phone.value ==> r == Some(ReplaceAll(Hyphenated, phone.value))
    ensures HasText(phone) && '-' !in phone.value ==> r == Some(ReplaceAll(Contiguous, phone.value))
  {
    if !HasText(phone) then phone
    else if '-' in phone.value then Some(ReplaceAll(Hyphenated, phone.value))
    else Some(ReplaceAll(Contiguous, phone.value))
  }

  /** Text with no digit holds no match and is left as it is. */
  lemma {:induction false} ReplaceAllWithoutDigits(pattern: PhonePattern, s: string)
    requires forall i :: 0 <= i < |s| ==> !IsDigit(s[i])
    ensures ReplaceAll(pattern, s) == s
    decreases |s|
  {
    if s != [] {
      ReplaceAllWithoutDigits(pattern, s[1..]);
    }
  }

  /** The eleven-digit rewrite keeps the length of the text. */
  lemma {:induction false} ContiguousKeepsLength(s: string)
    ensures |ReplaceAll(Contiguous, s)| == |s|
    decreases |s|
  {
    if s != [] {
      match MatchAt(Contiguous, s)
      case Some(m) => ContiguousKeepsLength(s[m.length..]);
      case None => ContiguousKeepsLength(s[1..]);
    }
  }

  /** A phone text without any digit is returned as it is. */
  lemma PhoneWithoutDigits(phone: string)
    requires forall i :: 0 <= i < |phone| ==> !IsDigit(phone[i])
    ensures Phone(Some(phone)) == Some(phone)
  {
    ReplaceAllWithoutDigits(Hyphenated, phone);
    ReplaceAllWithoutDigits(Contiguous, phone);
  }

  /** Shapes of the first group and the middle group that do not fit the text `a-b-c`. */
  lemma HyphenShapeOf(a: string, b: string, c: string, n1: nat, n2: nat)
    requires IsDigits(a) && 2 <= |a| <= 3 && IsDigits(b) && 3 <= |b| <= 4 && IsDigits(c) && |c| == 4
    requires n1 in {2, 3} && n2 in {3, 4}
    ensures HyphenShape(a + "-" + b + "-" + c, n1, n2) <==> n1 == |a| && n2 == |b|
  {
    var s := a + "-" + b + "-" + c;
    assert s[|a|] == '-' && s[|a| + 1 + |b|] == '-';
    if n1 == |a| && n2 == |b| {
      assert s[..n1] == a;
      assert s[n1 + 1..n1 + 1 + n2] == b;
      assert s[n1 + n2 + 2..n1 + n2 + 6] == c;
    } else if n1 > |a| {
      assert s[..n1][|a|] == '-';
    } else if n1 < |a| {
      assert s[n1] == a[n1];
    } else if n2 > |b| {
      assert s[n1 + 1..n1 + 1 + n2][|b|] == '-';
    } else {
      assert s[n1 + 1 + n2] == b[n2];
    }
  }

  /** A hyphenated number of 2–3, 3–4 and 4 digits keeps its first and last groups and masks the middle one. */
  lemma PhoneHyphenated(a: string, b: string, c: string)
    requires IsDigits(a) && 2 <= |a| <= 3 && IsDigits(b) && 3 <= |b| <= 4 && IsDigits(c) && |c| == 4
    ensures Phone(Some(a + "-" + b + "-" + c)) == Some(a + "-****-" + c)
  {
    var s := a + "-" + b + "-" + c;
    assert s[|a|] == '-' && !IsWhitespace(s[|a|]);
    HyphenShapeOf(a, b, c, 3, 4);
    HyphenShapeOf(a, b, c, 3, 3);
    HyphenShapeOf(a, b, c, 2, 4);
    HyphenShapeOf(a, b, c, 2, 3);
    var m := MatchAt(Hyphenated, s);
    assert m == Some(HyphenMatch(s, |a|, |b|));
    assert s[..|a|] == a && s[|a| + |b| + 2..|a| + |b| + 6] == c;
    assert m.value.length == |s|;
    assert s[|s|..] == [];
    assert ReplaceAll(Hyphenated, s) == m.value.replacement + ReplaceAll(Hyphenated, []);
    assert m.value.replacement + [] == a + "-****-" + c;
  }

  /** Eleven digits keep the first three and the last four and mask the four between. */
  lemma PhoneContiguous(d: string)
    requires IsDigits(d) && |d| == 11
    ensures Phone(Some(d)) == Some(d[..3] + "****" + d[7..])
  {
    assert !IsWhitespace(d[0]);
    assert '-' !in d by {
      forall i | 0 <= i < |d| ensures d[i] != '-' {
        assert IsDigit(d[i]);
      }
    }
    assert d[..11] == d && d[7..11] == d[7..];
    assert d[11..] == [];
    assert ReplaceAll(Contiguous, d) == d[..3] + "****" + d[7..] + ReplaceAll(Contiguous, []);
    assert d[..3] + "****" + d[7..] + [] == d[..3] + "****" + d[7..];
  }

  /** The documented hyphenated number, cut at its hyphens. */
  lemma HyphenatedExamplePieces()
    ensures "010" + "-" + "1234" + "-" + "5678" == "010-1234-5678"
    ensures "010" + "-****-" + "5678" == "010-****-5678"
    ensures IsDigits("010") && IsDigits("1234") && IsDigits("5678")
  {
  }

  /** The documented example 010-1234-5678 becomes 010-****-5678. */
  lemma PhoneHyphenatedExample()
    ensures Phone(Some("010-1234-5678")) == Some("010-****-5678")
  {
    HyphenatedExamplePieces();
    PhoneHyphenated("010", "1234", "5678");
  }

  /** The documented contiguous number, cut where the mask goes. */
  lemma ContiguousExamplePieces()
    ensures IsDigits("01012345678") && |"01012345678"| == 11
    ensures "01012345678"[..3] + "****" + "01012345678"[7..] == "010****5678"
  {
  }

  /** The documented example 01012345678 becomes 010****5678. */
  lemma PhoneContiguousExample()
    ensures Phone(Some("01012345678")) == Some("010****5678")
  {
    ContiguousExamplePieces();
    PhoneContiguous("01012345678");
  }

  // ---------------------------------------------------------------- name

  /** `(?<=.{1}).` matches the character at `i`. */
  predicate NameMaskedAfterFirst(s: string, i: int)
    requires 0 <= i < |s|
  {
    1 <= i && Dot(s[i - 1]) && Dot(s[i])
  }

  /** `(?<=.{1}).(?=.{1})` matches the character at `i`. */
  predicate NameMaskedInside(s: string, i: int)
    requires 0 <= i < |s|
  {
    1 <= i < |s| - 1 && Dot(s[i - 1]) && Dot(s[i]) && Dot(s[i + 1])
  }

  /**
   * `name`: null and blank text come back as they are; a name of two
   * characters has its second masked, any other every character with a
   * neighbour on both sides. The length is kept.
   */
  function Name(name: Option<string>): (r: Option<string>)
    ensures !HasText(name) ==> r == name
    ensures HasText(name) ==> r.Some? && |r.value| == |name.value|
    ensures HasText(name) ==> r.value[0] == name.value[0]
    ensures HasText(name) ==> forall i :: 0 <= i < |name.value| ==> r.value[i] == name.value[i] || r.value[i] == '*'
  {
    if !HasText(name) then name
    else
      var s := name.value;
      if |s| == 2 then Some(seq(2, i requires 0 <= i < 2 => if NameMaskedAfterFirst(s, i) then '*' else s[i]))
      else Some(seq(|s|, i requires 0 <= i < |s| => if NameMaskedInside(s, i) then '*' else s[i]))
  }

  /**
   * A one-line name of two characters becomes its first and '*'; a longer
   * one keeps its first and last characters and masks all between them.
   */
  lemma NameOfSingleLine(s: string)
    requires HasText(Some(s)) && SingleLine(s)
    ensures |s| == 1 ==> Name(Some(s)) == Some(s)
    ensures |s| == 2 ==> Name(Some(s)) == Some([s[0], '*'])
    ensures |s| >= 3 ==> Name(Some(s)) == Some([s[0]] + Stars(|s| - 2) + [s[|s| - 1]])
  {
    var r := Name(Some(s)).value;
    if |s| == 1 {
      assert r == s;
    } else if |s| == 2 {
      assert r == [s[0], '*'];
    } else {
      var e := [s[0]] + Stars(|s| - 2) + [s[|s| - 1]];
      forall i | 0 <= i < |s| ensures r[i] == e[i] {
        if 1 <= i < |s| - 1 {
          assert NameMaskedInside(s, i);
        }
      }
      assert r == e;
    }
  }

  /** The documented examples: 홍길동 becomes 홍*동 and 홍길 becomes 홍*. */
  lemma NameExamples()
    ensures Name(Some("홍길동")) == Some("홍*동")
    ensures Name(Some("홍길")) == Some("홍*")
  {
    assert !IsWhitespace("홍길동"[0]) && !IsWhitespace("홍길"[0]);
    NameOfSingleLine("홍길동");
    assert [('홍')] + Stars(1) + [('동')] == "홍*동";
    NameOfSingleLine("홍길");
  }

  // ---------------------------------------------------------------- last four

  /**
   * `maskExceptLast4`: null, blank and text of fewer than four characters
   * come back as they are; otherwise the last four characters are kept and
   * every earlier one becomes '*'.
   */
  function MaskExceptLast4(text: Option<string>): (r: Option<string>)
    ensures !HasText(text) || |text.value| < 4 ==> r == text
    ensures HasText(text) && |text.value| >= 4 ==>
              r.Some? && |r.value| == |text.value| &&
              r.value[|text.value| - 4..] == text.value[|text.value| - 4..] &&
              forall i :: 0 <= i < |text.value| - 4 ==> r.value[i] == '*'
  {
    if !HasText(text) || |text.value| < 4 then text
    else Some(Stars(|text.value| - 4) + text.value[|text.value| - 4..])
  }

  /** Masking an already masked text changes nothing. */
  lemma MaskExceptLast4Idempotent(text: Option<string>)
    ensures MaskExceptLast4(MaskExceptLast4(text)) == MaskExceptLast4(text)
  {
    var once := MaskExceptLast4(text);
    if HasText(text) && |text.value| >= 4 {
      var r := once.value;
      if |r| > 4 {
        assert !IsWhitespace(r[0]);
      } else {
        assert r == text.value[|text.value| - 4..];
        assert !IsBlank(r) by {
          var k :| 0 <= k < |text.value| && !IsWhitespace(text.value[k]);
          assert r[k] == text.value[k];
        }
      }
      assert r == Stars(|r| - 4) + r[|r| - 4..];
    }
  }

  // ---------------------------------------------------------------- URLs

  /**
   * `maskUserInfo`: null or blank user info becomes null; without a ':' the
   * whole of it becomes "***"; otherwise the user name before the first ':'
   * is kept and the password becomes "***".
   */
  function MaskUserInfo(userInfo: Option<string>): (r: Option<string>)
    ensures !HasText(userInfo) ==> r.None?
    ensures HasText(userInfo) && ':' !in userInfo.value ==> r == Some("***")
    ensures HasText(userInfo) && ':' in userInfo.value ==>
              var idx := IndexOfChar(userInfo.value, ':');
              r == Some(userInfo.value[..idx] + ":***")
  {
    if !HasText(userInfo) then None
    else
      var idx := IndexOfChar(userInfo.value, ':');
      if idx < 0 then Some("***") else Some(userInfo.value[..idx] + ":***")
  }

  /** The password after the first ':' is replaced whole, whatever it contains. */
  lemma MaskUserInfoHidesPassword(user: string, password: string)
    requires ':' !in user
    ensures MaskUserInfo(Some(user + ":" + password)) == Some(user + ":***")
  {
    var u := user + ":" + password;
    assert u[|user|] == ':' && !IsWhitespace(u[|user|]);
    assert u[..|user|] == user;
    assert IndexOfChar(u, ':') == |user| by {
      assert ':' !in u[..|user|];
    }
  }

  /** Masking masked user info changes nothing. */
  lemma MaskUserInfoIdempotent(userInfo: Option<string>)
    requires MaskUserInfo(userInfo).Some?
    ensures MaskUserInfo(MaskUserInfo(userInfo)) == MaskUserInfo(userInfo)
  {
    var u := userInfo.value;
    if ':' in u {
      var idx := IndexOfChar(u, ':');
      MaskUserInfoHidesPassword(u[..idx], "***");
      assert u[..idx] + ":" + "***" == u[..idx] + ":***";
    } else {
      assert "***"[0] == '*';
      assert ':' !in "***";
    }
  }

  /**
   * The text `maskUrlBasic` builds around the '@' at `at`: with a scheme
   * separator "://" at `scheme` the URL up to and including it, otherwise
   * nothing, then "***@" and everything after the '@'.
   */
  function MaskAround(url: string, at: int, scheme: int): (r: string)
    requires 0 <= at < |url| && (scheme < 0 || scheme + 3 <= |url|)
    ensures EndsWith(r, "***@" + url[at + 1..])
    ensures scheme < 0 ==> r == "***@" + url[at + 1..]
    ensures 0 <= scheme ==> |r| == scheme + 3 + 4 + |url| - at - 1
    ensures 0 <= scheme ==> r == url[..scheme + 3] + "***@" + url[at + 1..]
  {
    var tail := "***@" + url[at + 1..];
    if scheme < 0 then tail
    else
      var r := url[..scheme + 3] + tail;
      assert r[|r| - |tail|..] == tail;
      r
  }

  predicate EndsWith(s: string, suffix: string)
  {
    |suffix| <= |s| && s[|s| - |suffix|..] == suffix
  }

  /**
   * `maskUrlBasic` as written: with no '@' the URL comes back as it is;
   * otherwise everything after the first '@' is kept behind "***@", preceded
   * by the URL up to and including the first "://", wherever in the URL
   * that occurs.
   */
  function MaskUrlBasicAsWritten(url: string): (r: string)
    ensures '@' !in url ==> r == url
    ensures '@' in url ==> EndsWith(r, "***@" + url[IndexOfChar(url, '@') + 1..])
    ensures '@' in url && !Contains(url, "://") ==> r == "***@" + url[IndexOfChar(url, '@') + 1..]
    ensures '@' in url && Contains(url, "://") ==>
              exists k | 0 <= k <= |url| - 3 :: OccursAt(url, "://", k) && r == url[..k + 3] + "***@" + url[IndexOfChar(url, '@') + 1..]
  {
    var at := IndexOfChar(url, '@');
    if at < 0 then url
    else
      var scheme := IndexOf(url, "://");
      assert scheme >= 0 ==> OccursAt(url, "://", scheme);
      MaskAround(url, at, scheme)
  }

  /**
   * `r` is the URL masked at the '@' at `at`: everything after that '@'
   * behind "***@", preceded either by nothing or by a part of the URL that
   * ends in "://" before the '@'.
   */
  predicate MaskedBehindScheme(url: string, at: int, r: string)
    requires 0 <= at < |url|
  {
    exists k :: 0 <= k <= at && r == url[..k] + "***@" + url[at + 1..] &&
                (k == 0 || (k >= 3 && url[k - 3..k] == "://"))
  }

  /**
   * `maskUrlBasic` as evidently intended: the scheme is kept only when its
   * "://" comes before the '@', so that everything between the scheme and
   * the first '@' (the credentials) is replaced.
   */
  function MaskUrlBasic(url: string): (r: string)
    ensures '@' !in url ==> r == url
    ensures '@' in url ==>
              MaskedBehindScheme(url, IndexOfChar(url, '@'), r)
  {
    var at := IndexOfChar(url, '@');
    if at < 0 then url
    else
      var scheme := IndexOf(url, "://");
      var kept := if 0 <= scheme < at then scheme else -1;
      assert kept >= 0 ==> OccursAt(url, "://", kept);
      MaskAroundIntended(url, at, kept);
      MaskAround(url, at, kept)
  }

  /** Keeping only a scheme that ends before the '@' gives one of the intended forms. */
  lemma MaskAroundIntended(url: string, at: int, scheme: int)
    requires 0 <= at < |url| && url[at] == '@' && scheme < at
    requires scheme >= 0 ==> OccursAt(url, "://", scheme)
    ensures scheme < 0 || scheme + 3 <= |url|
    ensures MaskedBehindScheme(url, at, MaskAround(url, at, scheme))
  {
    if scheme < 0 {
      assert MaskAround(url, at, scheme) == url[..0] + "***@" + url[at + 1..];
    } else {
      assert url[scheme + 1] == url[scheme..scheme + 3][1] && url[scheme + 2] == url[scheme..scheme + 3][2];
      assert scheme + 3 <= at;
      assert url[scheme + 3 - 3..scheme + 3] == "://";
    }
  }

  /**
   * With a scheme separator after the '@', the text built keeps the whole
   * URL up to and including the '@', and is longer than any text of the
   * intended form, which keeps at most the `at` characters before it.
   */
  lemma MaskAroundLateScheme(url: string, at: int, scheme: int)
    requires 0 <= at < scheme && scheme + 3 <= |url|
    ensures StartsWith(MaskAround(url, at, scheme), url[..at + 1])
    ensures |MaskAround(url, at, scheme)| > at + |"***@" + url[at + 1..]|
  {
    var tail := "***@" + url[at + 1..];
    var r := MaskAround(url, at, scheme);
    assert r == url[..scheme + 3] + tail;
    assert url[..scheme + 3] == url[..at + 1] + url[at + 1..scheme + 3];
    assert r == url[..at + 1] + (url[at + 1..scheme + 3] + tail);
  }

  /**
   * When the first "://" comes after the first '@', the written code keeps
   * the URL up to that "://", so the credentials before the '@' reach the
   * output, which is longer than any output of the intended form.
   */
  lemma MaskUrlBasicKeepsCredentials(url: string)
    requires '@' in url && IndexOf(url, "://") > IndexOfChar(url, '@')
    ensures var at := IndexOfChar(url, '@');
            StartsWith(MaskUrlBasicAsWritten(url), url[..at + 1]) &&
            |MaskUrlBasicAsWritten(url)| > at + |"***@" + url[at + 1..]|
  {
    var at := IndexOfChar(url, '@');
    var scheme := IndexOf(url, "://");
    assert scheme + 3 <= |url| by {
      assert OccursAt(url, "://", scheme);
    }
    MaskAroundLateScheme(url, at, scheme);
  }

  /** The corrected function masks from the start when no "://" comes before the '@'. */
  lemma MaskUrlBasicWithoutLeadingScheme(url: string)
    requires '@' in url && !(0 <= IndexOf(url, "://") < IndexOfChar(url, '@'))
    ensures MaskUrlBasic(url) == "***@" + url[IndexOfChar(url, '@') + 1..]
  {
  }

  /**
   * In `cred + "@" + rest`, with credentials free of '@' and '/' and a
   * "://" somewhere in the rest, the first '@' ends the credentials and the
   * first "://" lies after it.
   */
  lemma LateSchemeShape(cred: string, rest: string)
    requires '@' !in cred && '/' !in cred && Contains(rest, "://")
    ensures var url := cred + "@" + rest;
            IndexOfChar(url, '@') == |cred| && IndexOf(url, "://") > |cred|
  {
    var url := cred + "@" + rest;
    assert url[|cred|] == '@';
    assert forall j :: 0 <= j < |cred| ==> url[j] == cred[j];
    assert IndexOfChar(url, '@') == |cred| by {
      IndexOfCharAt(url, '@', |cred|);
    }
    assert IndexOf(url, "://") > |cred| by {
      assert url[|cred| + 1..] == rest;
      ContainsOfSuffix(url, |cred| + 1, "://");
      var scheme := IndexOf(url, "://");
      assert OccursAt(url, "://", scheme);
      assert url[scheme] == url[scheme..scheme + 3][0] == ':';
      assert url[scheme + 1] == url[scheme..scheme + 3][1] == '/';
    }
  }

  /**
   * For credentials free of '@' and '/' followed by a text holding "://",
   * the written code lets the credentials through while the corrected
   * function drops them.
   */
  lemma MaskUrlBasicLeaksCredentials(cred: string, rest: string)
    requires '@' !in cred && '/' !in cred && Contains(rest, "://")
    ensures StartsWith(MaskUrlBasicAsWritten(cred + "@" + rest), cred + "@")
    ensures MaskUrlBasic(cred + "@" + rest) == "***@" + rest
  {
    var url := cred + "@" + rest;
    assert StartsWith(MaskUrlBasicAsWritten(url), cred + "@") by {
      LateSchemeShape(cred, rest);
      MaskUrlBasicKeepsCredentials(url);
      assert url[..|cred| + 1] == cred + "@";
    }
    assert MaskUrlBasic(url) == "***@" + rest by {
      LateSchemeShape(cred, rest);
      MaskUrlBasicWithoutLeadingScheme(url);
      assert url[|cred| + 1..] == rest;
    }
  }

  /**
   * The URL "u:pw@h?next=http://x y" (not a valid URI, because of its space)
   * meets the conditions above with the credentials "u:pw".
   */
  lemma LeakingUrlExample()
    ensures "u:pw" + "@" + "h?next=http://x y" == "u:pw@h?next=http://x y"
    ensures '@' !in "u:pw" && '/' !in "u:pw" && Contains("h?next=http://x y", "://")
  {
    assert OccursAt("h?next=http://x y", "://", 11);
  }
}
