/** String helpers that stand for Python built-ins the core relies on:
    `str()` of an integer, `"".join(...)` and `str.format` with `{}`
    placeholders. */
module TextUtil {
  import opened Wrappers

  predicate IsDigit(c: char) {
    '0' <= c <= '9'
  }

  predicate AllDigits(s: string) {
    forall i :: 0 <= i < |s| ==> IsDigit(s[i])
  }

  function DigitChar(d: nat): (c: char)
    requires d < 10
    ensures IsDigit(c)
  {
    ('0' as int + d) as char
  }

  function DigitValue(c: char): (d: nat)
    requires IsDigit(c)
    ensures d < 10
  {
    (c as int - '0' as int) as nat
  }

  /** Decimal digits of `n`, most significant first, without leading zeros. */
  function NatToString(n: nat): string
    decreases n
  {
    if n < 10 then [DigitChar(n)] else NatToString(n / 10) + [DigitChar(n % 10)]
  }

  /** `str(i)` for a Python int: an optional minus sign and the decimal digits. */
  function IntToString(i: int): string {
    if i < 0 then "-" + NatToString(-i) else NatToString(i)
  }

  /** The number a string of decimal digits denotes. */
  function DigitsValue(s: string): nat
    requires AllDigits(s)
  {
    if |s| == 0 then 0 else DigitsValue(s[..|s| - 1]) * 10 + DigitValue(s[|s| - 1])
  }

  /** `int(s)` restricted to optionally signed decimal literals. */
  function ParseInt(s: string): Option<int> {
    if |s| > 0 && s[0] == '-' then
      (if |s| > 1 && AllDigits(s[1..]) then Some(0 - DigitsValue(s[1..]) as int) else None)
    else if |s| > 0 && AllDigits(s) then Some(DigitsValue(s))
    else None
  }

  lemma {:induction false} NatToStringDigits(n: nat)
    ensures |NatToString(n)| > 0 && AllDigits(NatToString(n))
    ensures DigitsValue(NatToString(n)) == n
    decreases n
  {
    if n >= 10 {
      NatToStringDigits(n / 10);
      var s := NatToString(n / 10) + [DigitChar(n % 10)];
      assert s[..|s| - 1] == NatToString(n / 10);
    }
  }

  /** Decimal rendering is injective: the text of an integer reads back as it. */
  lemma IntToStringRoundTrip(i: int)
    ensures ParseInt(IntToString(i)) == Some(i)
  {
    if i < 0 {
      NatToStringDigits(-i);
      assert IntToString(i)[1..] == NatToString(-i);
    } else {
      NatToStringDigits(i);
    }
  }

  /** An integer's text never holds the blank or the newline separating
      tokens and lines of the output formats built on it. */
  lemma IntToStringHasNoSeparators(i: int)
    ensures ' ' !in IntToString(i) && '\n' !in IntToString(i)
  {
    if i < 0 {
      NatToStringDigits(-i);
      assert IntToString(i)[1..] == NatToString(-i);
    } else {
      NatToStringDigits(i);
    }
  }

  /** `"".join(parts)`. */
  function Join(parts: seq<string>): string {
    if |parts| == 0 then "" else parts[0] + Join(parts[1..])
  }

  lemma {:induction false} JoinAppend(parts: seq<string>, last: string)
    ensures Join(parts + [last]) == Join(parts) + last
  {
    if |parts| == 0 {
      assert parts + [last] == [last];
    } else {
      assert (parts + [last])[1..] == parts[1..] + [last];
      JoinAppend(parts[1..], last);
    }
  }

  lemma {:induction false} JoinConcat(a: seq<string>, b: seq<string>)
    ensures Join(a + b) == Join(a) + Join(b)
  {
    if |a| == 0 {
      assert a + b == b;
    } else {
      assert (a + b)[1..] == a[1..] + b;
      JoinConcat(a[1..], b);
    }
  }

  /** Number of `{}` placeholders in a format string. */
  function Placeholders(fmt: string): nat {
    if |fmt| >= 2 && fmt[0] == '{' && fmt[1] == '}' then 1 + Placeholders(fmt[2..])
    else if |fmt| == 0 then 0
    else Placeholders(fmt[1..])
  }

  /** `fmt.format(*args)` for a format string whose only replacement fields
      are `{}`: each one takes the next argument; arguments left over are
      ignored, and running out of arguments is Python's IndexError (None). */
  function Format(fmt: string, args: seq<string>): Option<string> {
    if |fmt| >= 2 && fmt[0] == '{' && fmt[1] == '}' then
      if |args| == 0 then None
      else match Format(fmt[2..], args[1..])
        case None => None
        case Some(rest) => Some(args[0] + rest)
    else if |fmt| == 0 then Some("")
    else match Format(fmt[1..], args)
      case None => None
      case Some(rest) => Some([fmt[0]] + rest)
  }

  /** `str.format` fails exactly when there are fewer arguments than fields. */
  lemma {:induction false} FormatDefinedIff(fmt: string, args: seq<string>)
    ensures Format(fmt, args).Some? <==> Placeholders(fmt) <= |args|
  {
    if |fmt| >= 2 && fmt[0] == '{' && fmt[1] == '}' {
      if |args| > 0 {
        FormatDefinedIff(fmt[2..], args[1..]);
      }
    } else if |fmt| > 0 {
      FormatDefinedIff(fmt[1..], args);
    }
  }

  /** A string without placeholders formats to itself, whatever the arguments. */
  lemma {:induction false} FormatLiteral(fmt: string, args: seq<string>)
    requires Placeholders(fmt) == 0
    ensures Format(fmt, args) == Some(fmt)
  {
    if |fmt| >= 2 && fmt[0] == '{' && fmt[1] == '}' {
    } else if |fmt| > 0 {
      FormatLiteral(fmt[1..], args);
      assert [fmt[0]] + fmt[1..] == fmt;
    }
  }

  /** A string without an opening brace has no placeholder. */
  lemma {:induction false} PlaceholdersNone(s: string)
    requires '{' !in s
    ensures Placeholders(s) == 0
  {
    if |s| > 0 {
      assert '{' !in s[1..];
      PlaceholdersNone(s[1..]);
    }
  }

  /** A brace-free text in front of a template is copied to the output. */
  lemma {:induction false} FormatBraceFreePrefix(a: string, rest: string, args: seq<string>)
    requires '{' !in a
    ensures Placeholders(a + rest) == Placeholders(rest)
    ensures Format(rest, args).None? ==> Format(a + rest, args).None?
    ensures Format(rest, args).Some? ==> Format(a + rest, args) == Some(a + Format(rest, args).value)
  {
    if |a| == 0 {
      assert a + rest == rest;
      if Format(rest, args).Some? {
        assert a + Format(rest, args).value == Format(rest, args).value;
      }
    } else {
      var s := a + rest;
      assert s[0] == a[0] && s[0] != '{';
      assert s[1..] == a[1..] + rest;
      assert '{' !in a[1..];
      FormatBraceFreePrefix(a[1..], rest, args);
      if Format(rest, args).Some? {
        var t := Format(rest, args).value;
        assert [a[0]] + (a[1..] + t) == a + t;
      }
    }
  }

  /** A template that starts with `{}` puts the first argument there. */
  lemma FormatFieldFirst(b: string, args: seq<string>)
    requires '{' !in b && |args| > 0
    ensures Placeholders("{}" + b) == 1
    ensures Format("{}" + b, args) == Some(args[0] + b)
  {
    var s := "{}" + b;
    assert s[0] == '{' && s[1] == '}' && s[2..] == b;
    PlaceholdersNone(b);
    FormatLiteral(b, args[1..]);
  }

  /** A template with one `{}` between brace-free texts puts the first
      argument there. */
  lemma FormatOne(a: string, b: string, args: seq<string>)
    requires '{' !in a && '{' !in b && |args| > 0
    ensures Placeholders(a + "{}" + b) == 1
    ensures Format(a + "{}" + b, args) == Some(a + args[0] + b)
  {
    FormatFieldFirst(b, args);
    FormatBraceFreePrefix(a, "{}" + b, args);
    assert a + "{}" + b == a + ("{}" + b);
    assert a + (args[0] + b) == a + args[0] + b;
  }

  /** Number of occurrences of `c` in `s`. */
  function Occurrences(s: string, c: char): nat {
    if |s| == 0 then 0 else (if s[0] == c then 1 else 0) + Occurrences(s[1..], c)
  }

  lemma {:induction false} OccurrencesConcat(a: string, b: string, c: char)
    ensures Occurrences(a + b, c) == Occurrences(a, c) + Occurrences(b, c)
  {
    if |a| == 0 {
      assert a + b == b;
    } else {
      assert (a + b)[1..] == a[1..] + b;
      OccurrencesConcat(a[1..], b, c);
    }
  }

  lemma {:induction false} OccurrencesAbsent(s: string, c: char)
    requires c !in s
    ensures Occurrences(s, c) == 0
  {
    if |s| > 0 {
      assert c !in s[1..];
      OccurrencesAbsent(s[1..], c);
    }
  }
}
