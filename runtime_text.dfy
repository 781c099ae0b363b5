/**
 * The runtime parse done when a movie is added:
 * `Number(runtime.split(' ').at(0))`, for the text before the first space.
 * A token of decimal digits is read as its value (the empty token reads as 0,
 * as `Number("")` does); any other token gives `None`, standing for NaN.
 */
module RuntimeText {
  import opened Wrappers

  /** `s.split(' ').at(0)`: the text before the first space, or all of `s` when it has none. */
  function FirstToken(s: string): (token: string)
    ensures token <= s
    ensures ' ' !in token
    ensures |token| < |s| ==> s[|token|] == ' '
  {
    if s == [] || s[0] == ' ' then [] else [s[0]] + FirstToken(s[1..])
  }

  predicate IsDigit(c: char)
  {
    '0' <= c <= '9'
  }

  predicate IsDigits(s: string)
  {
    forall k :: 0 <= k < |s| ==> IsDigit(s[k])
  }

  function DigitValue(c: char): nat
    requires IsDigit(c)
  {
    c as int - '0' as int
  }

  function DigitChar(d: nat): char
    requires d < 10
  {
    ('0' as int + d) as char
  }

  /** The number a string of decimal digits spells, most significant digit first. */
  function DigitsValue(s: string): nat
    requires IsDigits(s)
  {
    if s == [] then 0 else 10 * DigitsValue(s[..|s| - 1]) + DigitValue(s[|s| - 1])
  }

  /** A digit string with no leading zero, or the single digit "0". */
  predicate IsCanonical(s: string)
  {
    IsDigits(s) && s != [] && (|s| == 1 || s[0] != '0')
  }

  /** The shortest decimal spelling of `n`: no leading zero, and "0" only for 0. */
  function NatToDigits(n: nat): (s: string)
    ensures IsCanonical(s)
    ensures s[0] == '0' <==> n == 0
  {
    if n < 10 then [DigitChar(n)] else NatToDigits(n / 10) + [DigitChar(n % 10)]
  }

  /**
   * The `runtime` field of a new watched entry: a number exactly when the
   * text before the first space is all digits, and for a token without
   * leading zeros that number is the one the token spells.
   */
  function ParseRuntime(runtime: string): (minutes: Option<nat>)
    ensures minutes.Some? <==> IsDigits(FirstToken(runtime))
    ensures minutes.Some? && IsCanonical(FirstToken(runtime)) ==>
      NatToDigits(minutes.value) == FirstToken(runtime)
  {
    var token := FirstToken(runtime);
    if IsDigits(token) then
      if IsCanonical(token) then
        SpellingRoundTrip(token);
        Some(DigitsValue(token))
      else Some(DigitsValue(token))
    else None
  }

  /** A digit string whose first digit is not '0' spells a positive number. */
  lemma {:induction false} LeadingDigitPositive(s: string)
    requires IsDigits(s) && s != [] && s[0] != '0'
    ensures DigitsValue(s) > 0
  {
    if |s| > 1 {
      LeadingDigitPositive(s[..|s| - 1]);
    }
  }

  /** Reading a canonical digit string and spelling the value gives the string back. */
  lemma {:induction false} SpellingRoundTrip(s: string)
    requires IsCanonical(s)
    ensures NatToDigits(DigitsValue(s)) == s
  {
    var n := DigitsValue(s);
    var last := s[|s| - 1];
    if |s| == 1 {
      assert s[..|s| - 1] == [];
      assert DigitsValue(s[..|s| - 1]) == 0;
      assert n == DigitValue(last);
      assert DigitChar(n) == last;
      assert s == [last];
    } else {
      var front := s[..|s| - 1];
      assert front[0] == s[0];
      LeadingDigitPositive(front);
      SpellingRoundTrip(front);
      assert n / 10 == DigitsValue(front) && n % 10 == DigitValue(last);
      assert DigitChar(DigitValue(last)) == last;
      assert front + [last] == s;
    }
  }

  /** Spelling a number and reading it back gives the number. */
  lemma {:induction false} DigitsRoundTrip(n: nat)
    ensures DigitsValue(NatToDigits(n)) == n
  {
    if n >= 10 {
      var s := NatToDigits(n);
      var prefix := NatToDigits(n / 10);
      assert s[..|s| - 1] == prefix;
      DigitsRoundTrip(n / 10);
    }
  }

  /** The text before a space that follows a space-free prefix is that prefix. */
  lemma {:induction false} FirstTokenOfPrefix(prefix: string, rest: string)
    requires ' ' !in prefix
    requires rest == [] || rest[0] == ' '
    ensures FirstToken(prefix + rest) == prefix
  {
    if prefix == [] {
      assert prefix + rest == rest;
    } else {
      assert (prefix + rest)[1..] == prefix[1..] + rest;
      assert ' ' !in prefix[1..] by {
        forall k | 0 <= k < |prefix[1..]| ensures prefix[1..][k] != ' ' {
          assert prefix[1..][k] == prefix[k + 1];
        }
      }
      FirstTokenOfPrefix(prefix[1..], rest);
      assert [prefix[0]] + prefix[1..] == prefix;
    }
  }

  /**
   * The runtime text the movie database returns, "<minutes> min", parses to
   * its minutes; so does the bare number, and anything else after a space is
   * ignored.
   */
  lemma RuntimeRoundTrip(minutes: nat, rest: string)
    requires rest == [] || rest[0] == ' '
    ensures ParseRuntime(NatToDigits(minutes) + rest) == Some(minutes)
  {
    var digits := NatToDigits(minutes);
    assert ' ' !in digits by {
      forall k | 0 <= k < |digits| ensures digits[k] != ' ' {
        assert IsDigit(digits[k]);
      }
    }
    FirstTokenOfPrefix(digits, rest);
    DigitsRoundTrip(minutes);
  }

  /**
   * Text the database returns when it has no runtime ("N/A") gives NaN; an
   * empty text gives 0, as `Number("")` does.
   */
  lemma ParseRuntimeExamples()
    ensures ParseRuntime("N/A") == None
    ensures ParseRuntime("") == Some(0)
    ensures ParseRuntime("148 min") == Some(148)
  {
    RuntimeRoundTrip(148, " min");
    assert NatToDigits(148) == "148";
    assert "148" + " min" == "148 min";
  }
}
