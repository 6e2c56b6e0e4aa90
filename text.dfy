/**
 * The string rules of the contact form: JavaScript's whitespace class (as
 * used by `String.prototype.trim` and by `\s` in a regular expression), `trim`,
 * and the email check `/^[^\s@]+@[^\s@]+\.[^\s@]+$/`.
 */
module Text {
  import opened Wrappers

  /**
   * The characters `\s` matches and `trim` strips: ECMAScript WhiteSpace and
   * LineTerminator. None of them is one of the email pattern's literals.
   */
  predicate IsJsWhitespace(c: char)
    ensures IsJsWhitespace(c) ==> c != '@' && c != '.'
  {
    || c == '\t' || c == '\n' || c == '\U{000B}' || c == '\U{000C}' || c == '\r' || c == ' '
    || c == '\U{00A0}' || c == '\U{1680}'
    || ('\U{2000}' <= c <= '\U{200A}')
    || c == '\U{2028}' || c == '\U{2029}' || c == '\U{202F}' || c == '\U{205F}'
    || c == '\U{3000}' || c == '\U{FEFF}'
  }

  predicate IsBlank(s: string)
  {
    forall k | 0 <= k < |s| :: IsJsWhitespace(s[k])
  }

  /** `s` without its leading whitespace: a suffix of `s`, everything dropped was whitespace. */
  function TrimStart(s: string): (r: string)
    ensures |r| <= |s| && r == s[|s| - |r|..]
    ensures IsBlank(s[..|s| - |r|])
    ensures r == [] || !IsJsWhitespace(r[0])
  {
    if s != [] && IsJsWhitespace(s[0]) then
      var r := TrimStart(s[1..]);
      assert s[..|s| - |r|] == [s[0]] + s[1..][..|s| - 1 - |r|];
      r
    else s
  }

  /** `s` without its trailing whitespace: a prefix of `s`, everything dropped was whitespace. */
  function TrimEnd(s: string): (r: string)
    ensures |r| <= |s| && r == s[..|r|]
    ensures IsBlank(s[|r|..])
    ensures r == [] || !IsJsWhitespace(r[|r| - 1])
  {
    if s != [] && IsJsWhitespace(s[|s| - 1]) then
      var r := TrimEnd(s[..|s| - 1]);
      assert s[|r|..] == s[..|s| - 1][|r|..] + [s[|s| - 1]];
      r
    else s
  }

  /** `r` sits at `i` in `s`, and everything before and after it is whitespace. */
  predicate MiddleAt(s: string, r: string, i: nat)
    requires i + |r| <= |s|
  {
    r == s[i..i + |r|] && IsBlank(s[..i]) && IsBlank(s[i + |r|..])
  }

  /** `String.prototype.trim`: the middle of `s`, with only whitespace dropped on either side. */
  function Trim(s: string): (r: string)
    ensures r == [] || (!IsJsWhitespace(r[0]) && !IsJsWhitespace(r[|r| - 1]))
    ensures exists i: nat | i + |r| <= |s| :: MiddleAt(s, r, i)
  {
    var t := TrimStart(s);
    var r := TrimEnd(t);
    var i := |s| - |t|;
    assert s[i + |r|..] == t[|r|..];
    assert MiddleAt(s, r, i);
    r
  }

  /** A trimmed value is empty exactly when the raw value is all whitespace (or empty). */
  lemma TrimEmptyIffBlank(s: string)
    ensures Trim(s) == [] <==> IsBlank(s)
  {
    var t := TrimStart(s);
    if Trim(s) == [] {
      assert IsBlank(t) by {
        assert t[0..] == t;
      }
      assert s == s[..|s| - |t|] + t;
    }
  }

  /** `[^\s@]`: any character but whitespace and '@'. */
  predicate IsAddressChar(c: char)
  {
    !IsJsWhitespace(c) && c != '@'
  }

  /** `[^\s@]+`. */
  predicate IsAddressRun(w: string)
  {
    |w| > 0 && forall k | 0 <= k < |w| :: IsAddressChar(w[k])
  }

  /**
   * The language of `^[^\s@]+@[^\s@]+\.[^\s@]+$`: a run, '@' at `at`, a run,
   * '.' at `dot`, a run, and nothing else.
   */
  ghost predicate MatchesEmailPattern(s: string)
  {
    exists at, dot | 0 <= at < dot < |s| ::
      && s[at] == '@' && s[dot] == '.'
      && IsAddressRun(s[..at]) && IsAddressRun(s[at + 1..dot]) && IsAddressRun(s[dot + 1..])
  }

  /** Position of the first `c` in `s`. */
  function IndexOf(s: string, c: char): (r: Option<nat>)
    ensures r.None? <==> c !in s
    ensures r.Some? ==> r.value < |s| && s[r.value] == c && c !in s[..r.value]
  {
    if s == [] then None
    else if s[0] == c then Some(0)
    else
      match IndexOf(s[1..], c)
      case None => None
      case Some(i) =>
        assert s[..i + 1] == [s[0]] + s[1..][..i];
        Some(i + 1)
  }

  /** Some '.' with at least one character before it and one after it. */
  predicate HasInnerDot(domain: string)
  {
    exists j | 0 < j < |domain| - 1 :: domain[j] == '.'
  }

  /**
   * The check `validateEmail` amounts to: no whitespace anywhere, a single '@'
   * with something before it, and after it a '.' that is neither first nor last
   * (further dots are fine).
   */
  predicate EmailShape(email: string)
  {
    && (forall k | 0 <= k < |email| :: !IsJsWhitespace(email[k]))
    && match IndexOf(email, '@')
      case None => false
      case Some(at) => at > 0 && '@' !in email[at + 1..] && HasInnerDot(email[at + 1..])
  }

  /** `validateEmail`: the regular expression's `test`, computed by `EmailShape`. */
  function ValidEmail(email: string): (ok: bool)
    ensures ok <==> MatchesEmailPattern(email)
  {
    ShapeIffPattern(email);
    EmailShape(email)
  }

  /** `EmailShape` holds for exactly the strings the regular expression matches. */
  lemma ShapeIffPattern(email: string)
    ensures EmailShape(email) <==> MatchesEmailPattern(email)
  {
    if EmailShape(email) {
      ShapeMatches(email);
    } else if MatchesEmailPattern(email) {
      PatternHasShape(email);
    }
  }

  lemma ShapeMatches(email: string)
    requires EmailShape(email)
    ensures MatchesEmailPattern(email)
  {
    var at := IndexOf(email, '@').value;
    var domain := email[at + 1..];
    var j :| 0 < j < |domain| - 1 && domain[j] == '.';
    var dot := at + 1 + j;
    assert email[dot] == '.';
    forall k | 0 <= k < |email| && k != at
      ensures IsAddressChar(email[k])
    {
      if k < at {
        assert email[k] == email[..at][k];
      } else {
        assert email[k] == domain[k - at - 1];
      }
    }
    assert IsAddressRun(email[..at]);
    assert IsAddressRun(email[at + 1..dot]);
    assert IsAddressRun(email[dot + 1..]);
  }

  lemma PatternHasShape(email: string)
    requires MatchesEmailPattern(email)
    ensures EmailShape(email)
  {
    var at, dot :| 0 <= at < dot < |email| && email[at] == '@' && email[dot] == '.'
      && IsAddressRun(email[..at]) && IsAddressRun(email[at + 1..dot]) && IsAddressRun(email[dot + 1..]);
    forall k | 0 <= k < |email| && k != at
      ensures IsAddressChar(email[k])
    {
      if k < at {
        assert email[k] == email[..at][k];
      } else if k < dot {
        assert email[k] == email[at + 1..dot][k - at - 1];
      } else if k > dot {
        assert email[k] == email[dot + 1..][k - dot - 1];
      }
    }
    assert '@' !in email[..at];
    assert IndexOf(email, '@') == Some(at);
    assert '@' !in email[at + 1..];
    assert email[at + 1..][dot - at - 1] == '.';
  }
}
