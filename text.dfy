/**
 * The string operations the site's scripts rely on: `String.prototype.split('/')`
 * followed by taking the last part, `startsWith`, `String(n)` for a count, and
 * upper-casing the first character of a word.
 */
module Text {

  /** `s.split(sep)` as JavaScript defines it for a one-character separator:
      the empty string splits into `[""]`, and every separator closes one part. */
  function Split(s: string, sep: char): (parts: seq<string>)
    ensures |parts| >= 1
    ensures forall i :: 0 <= i < |parts| ==> sep !in parts[i]
    decreases |s|
  {
    if s == [] then [""]
    else if s[0] == sep then [""] + Split(s[1..], sep)
    else
      var rest := Split(s[1..], sep);
      [[s[0]] + rest[0]] + rest[1..]
  }

  /** `parts.join(sep)`: the inverse of `Split`. */
  function Join(parts: seq<string>, sep: char): string
    requires |parts| >= 1
    decreases |parts|
  {
    if |parts| == 1 then parts[0] else parts[0] + [sep] + Join(parts[1..], sep)
  }

  /** Splitting and joining again gives back the original string. */
  lemma {:induction false} JoinSplit(s: string, sep: char)
    ensures Join(Split(s, sep), sep) == s
    decreases |s|
  {
    if s == [] {
    } else if s[0] == sep {
      JoinSplit(s[1..], sep);
      assert Split(s, sep) == [""] + Split(s[1..], sep);
      assert Split(s, sep)[1..] == Split(s[1..], sep);
    } else {
      var rest := Split(s[1..], sep);
      JoinSplit(s[1..], sep);
      if |rest| == 1 {
        assert [s[0]] + rest[0] == s;
      } else {
        var p := Split(s, sep);
        assert p[1..] == rest[1..];
        calc {
          Join(p, sep);
          p[0] + [sep] + Join(p[1..], sep);
          [s[0]] + rest[0] + [sep] + Join(rest[1..], sep);
          [s[0]] + (rest[0] + [sep] + Join(rest[1..], sep));
          [s[0]] + Join(rest, sep);
          s;
        }
      }
    }
  }

  /** `t` is a suffix of `s`. */
  predicate IsSuffix(t: string, s: string)
  {
    |t| <= |s| && s[|s| - |t|..] == t
  }

  /** The text after the last `sep` of `s` (all of `s` when it has none):
      JavaScript's `s.split(sep).pop()`. */
  function LastPart(s: string, sep: char): string
  {
    var parts := Split(s, sep);
    parts[|parts| - 1]
  }

  /** The last part is the longest suffix of `s` free of `sep`: it contains no
      separator, and either it is all of `s` or a separator stands right before it. */
  lemma {:induction false} LastPartIsLongestSuffix(s: string, sep: char)
    ensures sep !in LastPart(s, sep)
    ensures IsSuffix(LastPart(s, sep), s)
    ensures |LastPart(s, sep)| < |s| ==> s[|s| - |LastPart(s, sep)| - 1] == sep
    decreases |s|, 1
  {
    if s != [] {
      LastPartIsLongestSuffix(s[1..], sep);
      if s[0] != sep && |Split(s[1..], sep)| == 1 {
        LastPartWhole(s, sep);
      } else {
        LastPartOfTail(s, sep);
      }
    }
  }

  /** The inductive step when the first character joins a tail free of separators:
      the last part is all of `s`. */
  lemma LastPartWhole(s: string, sep: char)
    requires s != [] && s[0] != sep && |Split(s[1..], sep)| == 1
    requires IsSuffix(LastPart(s[1..], sep), s[1..])
    requires |LastPart(s[1..], sep)| < |s[1..]| ==> s[1..][|s[1..]| - |LastPart(s[1..], sep)| - 1] == sep
    ensures LastPart(s, sep) == s
  {
    var t := LastPart(s[1..], sep);
    assert LastPart(s, sep) == [s[0]] + t;
    assert t == s[1..] by {
      if |t| < |s[1..]| {
        assert sep in s[1..];
        SepInLastPartSingle(s[1..], sep);
      }
    }
    assert s == [s[0]] + s[1..];
  }

  /** The inductive step otherwise: the last part is that of the tail, and it is
      shorter than the tail unless `s` starts with the separator. */
  lemma LastPartOfTail(s: string, sep: char)
    requires s != [] && !(s[0] != sep && |Split(s[1..], sep)| == 1)
    requires sep !in LastPart(s[1..], sep)
    requires IsSuffix(LastPart(s[1..], sep), s[1..])
    requires |LastPart(s[1..], sep)| < |s[1..]| ==> s[1..][|s[1..]| - |LastPart(s[1..], sep)| - 1] == sep
    ensures LastPart(s, sep) == LastPart(s[1..], sep)
    ensures IsSuffix(LastPart(s, sep), s)
    ensures |LastPart(s, sep)| < |s| ==> s[|s| - |LastPart(s, sep)| - 1] == sep
    decreases |s|, 0
  {
    var t := LastPart(s[1..], sep);
    assert LastPart(s, sep) == t;
    assert s[|s| - |t|..] == s[1..][|s[1..]| - |t|..];
    if s[0] != sep {
      assert |t| < |s[1..]| by { SplitPartsShorter(s[1..], sep); }
      assert s[|s| - |t| - 1] == s[1..][|s[1..]| - |t| - 1];
    }
  }

  /** When a string splits into several parts, its last part is shorter than it. */
  lemma {:induction false} SplitPartsShorter(s: string, sep: char)
    requires |Split(s, sep)| >= 2
    ensures |LastPart(s, sep)| < |s|
    decreases |s|, 0
  {
    if s[0] != sep {
      SplitPartsShorter(s[1..], sep);
    } else {
      LastPartIsLongestSuffix(s[1..], sep);
    }
  }

  /** A string that contains the separator splits into at least two parts. */
  lemma {:induction false} SepInLastPartSingle(s: string, sep: char)
    requires sep in s
    ensures |Split(s, sep)| >= 2
    decreases |s|
  {
    if s[0] != sep {
      assert sep in s[1..] by {
        var k :| 0 <= k < |s| && s[k] == sep;
        assert s[1..][k - 1] == sep;
      }
      SepInLastPartSingle(s[1..], sep);
    }
  }

  /** `s.startsWith(prefix)`. */
  predicate StartsWith(s: string, prefix: string)
  {
    |prefix| <= |s| && s[..|prefix|] == prefix
  }

  /** The decimal digit for `d`. */
  function DigitChar(d: nat): (c: char)
    requires d < 10
    ensures '0' <= c <= '9' && c as int - '0' as int == d
  {
    ('0' as int + d) as char
  }

  /** `String(n)` for a non-negative integer: its decimal digits. */
  function NatToString(n: nat): (s: string)
    ensures |s| >= 1
    ensures forall i :: 0 <= i < |s| ==> '0' <= s[i] <= '9'
    ensures n > 0 ==> s[0] != '0'
    ensures |s| > 1 ==> s[0] != '0'
    decreases n
  {
    if n < 10 then [DigitChar(n)] else NatToString(n / 10) + [DigitChar(n % 10)]
  }

  /** The number a string of decimal digits reads as. */
  function DigitsValue(s: string): nat
    requires forall i :: 0 <= i < |s| ==> '0' <= s[i] <= '9'
    decreases |s|
  {
    if s == [] then 0
    else DigitsValue(s[..|s| - 1]) * 10 + (s[|s| - 1] as int - '0' as int)
  }

  /** Reading back the decimal digits of `n` gives `n`: no count is shown wrongly. */
  lemma {:induction false} NatToStringRoundTrip(n: nat)
    ensures DigitsValue(NatToString(n)) == n
    decreases n
  {
    var s := NatToString(n);
    if n >= 10 {
      NatToStringRoundTrip(n / 10);
      assert s[..|s| - 1] == NatToString(n / 10);
    } else {
      assert s[..|s| - 1] == [];
    }
  }

  /** Distinct counts are written differently. */
  lemma NatToStringInjective(m: nat, n: nat)
    ensures NatToString(m) == NatToString(n) ==> m == n
  {
    NatToStringRoundTrip(m);
    NatToStringRoundTrip(n);
  }

  /** `c.toUpperCase()` on the ASCII letters; every other character is left alone. */
  function UpperChar(c: char): (u: char)
    ensures 'a' <= c <= 'z' ==> 'A' <= u <= 'Z' && u as int - 'A' as int == c as int - 'a' as int
    ensures !('a' <= c <= 'z') ==> u == c
  {
    if 'a' <= c <= 'z' then (c as int - 'a' as int + 'A' as int) as char else c
  }

  /** `w.charAt(0).toUpperCase() + w.slice(1)`: the word with its first character upper-cased. */
  function Capitalize(w: string): (r: string)
    ensures |r| == |w|
    ensures |w| > 0 ==> r[0] == UpperChar(w[0]) && r[1..] == w[1..]
  {
    if w == [] then [] else [UpperChar(w[0])] + w[1..]
  }
}
