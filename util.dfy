/**
 * The utility functions of the service: the e-mail shape check, the
 * placeholder password hash, the date-validity check and the conversion
 * of the host's nanosecond clock to a date.
 */
module Util {
  import opened Wrappers

  /** The characters JavaScript's regular-expression class `\s` matches;
      `\S` matches every other character. */
  predicate IsWhitespace(c: char)
  {
    var n := c as int;
    (0x09 <= n <= 0x0D) || n == 0x20 || n == 0xA0 || n == 0x1680
    || (0x2000 <= n <= 0x200A) || n == 0x2028 || n == 0x2029
    || n == 0x202F || n == 0x205F || n == 0x3000 || n == 0xFEFF
  }

  /** `t` is one or more characters matched by `\S`. */
  ghost predicate NonWhitespaceRun(t: string)
  {
    |t| > 0 && forall i | 0 <= i < |t| :: !IsWhitespace(t[i])
  }

  /** `m[i..n]` is a match of `\S+@\S+\.\S+`, with its '@' at `j` and its '.' at `k`. */
  ghost predicate EmailMatchAt(m: string, i: nat, j: nat, k: nat, n: nat)
  {
    i < j && j + 1 < k && k + 1 < n <= |m|
    && NonWhitespaceRun(m[i..j]) && m[j] == '@'
    && NonWhitespaceRun(m[j + 1..k]) && m[k] == '.'
    && NonWhitespaceRun(m[k + 1..n])
  }

  /** The unanchored pattern `\S+@\S+\.\S+` matches somewhere in `m`. */
  ghost predicate EmailShape(m: string)
  {
    exists i: nat, j: nat, k: nat, n: nat :: EmailMatchAt(m, i, j, k, n)
  }

  /** An '@' at `j` and a '.' at `k` with a non-whitespace character just
      before the '@', only non-whitespace between the two, and a
      non-whitespace character just after the '.'. */
  predicate ShortestMatchAt(m: string, j: nat, k: nat)
  {
    0 < j && j + 1 < k && k + 1 < |m|
    && m[j] == '@' && m[k] == '.'
    && !IsWhitespace(m[j - 1]) && !IsWhitespace(m[k + 1])
    && forall t | j < t < k :: !IsWhitespace(m[t])
  }

  /** `validateEmail`: whether the regular expression `\S+@\S+\.\S+`
      matches somewhere in `m`. It looks for the shortest form of a match. */
  predicate ValidateEmail(m: string): (ok: bool)
    ensures ok <==> EmailShape(m)
  {
    ShapeIsShortestMatch(m);
    exists j: nat, k: nat | j < |m| && k < |m| :: ShortestMatchAt(m, j, k)
  }

  /** Any match can be cut down to the shortest match around its '@' and '.'. */
  lemma MatchShrinks(m: string, i: nat, j: nat, k: nat, n: nat)
    requires EmailMatchAt(m, i, j, k, n)
    ensures ShortestMatchAt(m, j, k)
  {
    assert m[j - 1] == m[i..j][j - 1 - i];
    assert m[k + 1] == m[k + 1..n][0];
    forall t | j < t < k
      ensures !IsWhitespace(m[t])
    {
      assert m[t] == m[j + 1..k][t - j - 1];
    }
  }

  /** A shortest match is a match. */
  lemma ShortestMatchGrows(m: string, j: nat, k: nat)
    requires ShortestMatchAt(m, j, k)
    ensures EmailMatchAt(m, j - 1, j, k, k + 2)
  {
    assert m[j - 1..j] == [m[j - 1]];
    assert m[k + 1..k + 2] == [m[k + 1]];
    var middle := m[j + 1..k];
    forall t | 0 <= t < |middle|
      ensures !IsWhitespace(middle[t])
    {
      assert middle[t] == m[j + 1 + t];
    }
  }

  /** The regular expression matches exactly when it has a shortest match. */
  lemma ShapeIsShortestMatch(m: string)
    ensures EmailShape(m) <==> exists j: nat, k: nat | j < |m| && k < |m| :: ShortestMatchAt(m, j, k)
  {
    if exists j: nat, k: nat | j < |m| && k < |m| :: ShortestMatchAt(m, j, k) {
      var j: nat, k: nat :| j < |m| && k < |m| && ShortestMatchAt(m, j, k);
      ShortestMatchGrows(m, j, k);
    }
    if EmailShape(m) {
      var i: nat, j: nat, k: nat, n: nat :| EmailMatchAt(m, i, j, k, n);
      MatchShrinks(m, i, j, k, n);
      assert j < |m| && k < |m|;
    }
  }

  /** The match is unanchored: text before and after a matching string is allowed. */
  lemma EmailShapeUnanchored(prefix: string, m: string, suffix: string)
    requires EmailShape(m)
    ensures EmailShape(prefix + m + suffix)
  {
    var i: nat, j: nat, k: nat, n: nat :| EmailMatchAt(m, i, j, k, n);
    var w := prefix + m + suffix;
    var p := |prefix|;
    assert w[p + i..p + j] == m[i..j];
    assert w[p + j + 1..p + k] == m[j + 1..k];
    assert w[p + k + 1..p + n] == m[k + 1..n];
    assert w[p + j] == m[j] && w[p + k] == m[k];
    assert EmailMatchAt(w, p + i, p + j, p + k, p + n);
  }

  /** `hashPassword`: the placeholder hash, the password followed by the salt. */
  function HashPassword(password: string, salt: string): (h: string)
    ensures |h| == |password| + |salt|
    ensures h[..|password|] == password && h[|password|..] == salt
  {
    password + salt
  }

  /** For one salt, the placeholder hash keeps passwords apart: two
      passwords have the same hash exactly when they are equal. */
  lemma {:induction false} HashPasswordInjective(p1: string, p2: string, salt: string)
    ensures HashPassword(p1, salt) == HashPassword(p2, salt) <==> p1 == p2
  {
    if HashPassword(p1, salt) == HashPassword(p2, salt) {
      assert |p1| == |p2|;
      assert p1 == HashPassword(p1, salt)[..|p1|];
    }
  }

  /** A date string as it arrived, with what the host's `Date.parse` makes
      of it: a time value in milliseconds, or `None` where it gives NaN. */
  datatype DateText = DateText(text: string, parsed: Option<int>)

  /** `isValidDate`: `Date.parse` did not give NaN. */
  predicate IsValidDate(d: DateText)
  {
    d.parsed.Some?
  }

  /** `getCurrentDate`: the host clock counts nanoseconds; a date holds whole
      milliseconds, the fraction cut off. */
  function CurrentDate(icTime: nat): (ms: nat)
    ensures ms * 1_000_000 <= icTime < (ms + 1) * 1_000_000
  {
    icTime / 1_000_000
  }
}
