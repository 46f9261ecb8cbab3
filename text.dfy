/**
 * The string primitives the analysers lean on: str.split(","), ".".join,
 * int(s, 16), int(s), str(n) and Python's ordering of str values.
 */
module Text {
  import opened Wrappers

  // ---------------------------------------------------------------- split/join

  /** Python's s.split(sep) for a one-character separator. */
  function Split(s: string, sep: char): (r: seq<string>)
    ensures |r| >= 1
  {
    if |s| == 0 then [""]
    else
      var parts := Split(s[..|s| - 1], sep);
      var c := s[|s| - 1];
      if c == sep then parts + [""]
      else parts[..|parts| - 1] + [parts[|parts| - 1] + [c]]
  }

  /** Python's sep.join(parts). */
  function Join(parts: seq<string>, sep: char): string
  {
    if |parts| == 0 then ""
    else if |parts| == 1 then parts[0]
    else Join(parts[..|parts| - 1], sep) + [sep] + parts[|parts| - 1]
  }

  /** No part of a split holds the separator. */
  lemma {:induction false} SplitPartsFree(s: string, sep: char)
    ensures forall i :: 0 <= i < |Split(s, sep)| ==> sep !in Split(s, sep)[i]
  {
    if |s| > 0 {
      var init, c := s[..|s| - 1], s[|s| - 1];
      SplitPartsFree(init, sep);
      var parts := Split(init, sep);
      if c != sep {
        assert sep !in parts[|parts| - 1] + [c];
      }
    }
  }

  /** Appending a character to the last part appends it to the joined text. */
  lemma JoinExtendLast(parts: seq<string>, c: char, sep: char)
    requires |parts| >= 1
    ensures Join(parts[..|parts| - 1] + [parts[|parts| - 1] + [c]], sep) == Join(parts, sep) + [c]
  {
    var q := parts[..|parts| - 1] + [parts[|parts| - 1] + [c]];
    if |parts| > 1 {
      assert q[..|q| - 1] == parts[..|parts| - 1];
    }
  }

  lemma {:induction false} JoinSplit(s: string, sep: char)
    ensures Join(Split(s, sep), sep) == s
  {
    if |s| > 0 {
      var init, c := s[..|s| - 1], s[|s| - 1];
      JoinSplit(init, sep);
      var parts := Split(init, sep);
      if c == sep {
        assert (parts + [""])[..|parts|] == parts;
        assert s == init + [sep];
      } else {
        JoinExtendLast(parts, c, sep);
        assert s == init + [c];
      }
    }
  }

  lemma {:induction false} SplitJoin(parts: seq<string>, sep: char)
    requires |parts| >= 1
    requires forall i :: 0 <= i < |parts| ==> sep !in parts[i]
    ensures Split(Join(parts, sep), sep) == parts
  {
    if |parts| == 1 {
      SplitNoSeparator(parts[0], sep);
    } else {
      var init, last := parts[..|parts| - 1], parts[|parts| - 1];
      SplitJoin(init, sep);
      SplitSuffix(Join(init, sep), last, sep);
      assert parts == init + [last];
    }
  }

  lemma {:induction false} SplitNoSeparator(s: string, sep: char)
    requires sep !in s
    ensures Split(s, sep) == [s]
  {
    if |s| > 0 {
      SplitNoSeparator(s[..|s| - 1], sep);
      assert s[..|s| - 1] + [s[|s| - 1]] == s;
    }
  }

  /** Splitting t + [sep] + w cuts exactly before the separator-free word w. */
  lemma {:induction false} SplitSuffix(t: string, w: string, sep: char)
    requires sep !in w
    ensures Split(t + [sep] + w, sep) == Split(t, sep) + [w]
  {
    var s := t + [sep] + w;
    if |w| == 0 {
      assert s == t + [sep];
      assert s[..|s| - 1] == t;
    } else {
      var v, c := w[..|w| - 1], w[|w| - 1];
      SplitSuffix(t, v, sep);
      assert s[..|s| - 1] == t + [sep] + v;
      assert s[|s| - 1] == c;
      assert v + [c] == w;
    }
  }

  /** Python's xs[-4:]: the last four items, or all of them when there are fewer. */
  function LastFour<T>(xs: seq<T>): (r: seq<T>)
    ensures |r| == if |xs| < 4 then |xs| else 4
  {
    if |xs| <= 4 then xs else xs[|xs| - 4..]
  }

  // ---------------------------------------------------------------- numerals

  /** A string of digits holds no character that is not a digit, such as a separator. */
  lemma NoSeparatorInDigits(s: string, base: nat, c: char)
    requires AllDigits(s, base)
    requires DigitValue(c).None?
    ensures c !in s
  {
  }

  /** The value of a digit character, upper- or lower-case, as int(c, 16) reads it. */
  function DigitValue(c: char): Option<nat>
  {
    if '0' <= c <= '9' then Some(c as nat - '0' as nat)
    else if 'a' <= c <= 'f' then Some(c as nat - 'a' as nat + 10)
    else if 'A' <= c <= 'F' then Some(c as nat - 'A' as nat + 10)
    else None
  }

  predicate IsDigit(c: char, base: nat)
  {
    DigitValue(c).Some? && DigitValue(c).value < base
  }

  predicate AllDigits(s: string, base: nat)
  {
    forall i :: 0 <= i < |s| ==> IsDigit(s[i], base)
  }

  /** The positional value of a string of digits, most significant first. */
  function DigitsValue(s: string, base: nat): nat
    requires AllDigits(s, base)
  {
    if |s| == 0 then 0
    else DigitsValue(s[..|s| - 1], base) * base + DigitValue(s[|s| - 1]).value
  }

  /** int(s, base) for a plain numeral: None where Python raises ValueError. */
  function ParseNumeral(s: string, base: nat): (r: Option<nat>)
    ensures r.Some? <==> |s| > 0 && AllDigits(s, base)
  {
    if |s| > 0 && AllDigits(s, base) then Some(DigitsValue(s, base)) else None
  }

  function ParseHex(s: string): Option<nat> { ParseNumeral(s, 16) }

  function ParseDecimal(s: string): Option<nat> { ParseNumeral(s, 10) }

  /** The lower-case digit character of value d. */
  function DigitChar(d: nat): (c: char)
    requires d < 16
    ensures DigitValue(c) == Some(d)
  {
    if d < 10 then ('0' as nat + d) as char else ('a' as nat + d - 10) as char
  }

  /** str(n) for base 10, and format(n, "x") for base 16. */
  function Numeral(n: nat, base: nat): (s: string)
    requires base == 10 || base == 16
    ensures |s| > 0 && AllDigits(s, base)
    decreases n
  {
    if n < base then [DigitChar(n)]
    else Numeral(n / base, base) + [DigitChar(n % base)]
  }

  function DecimalString(n: nat): string { Numeral(n, 10) }

  lemma {:induction false} NumeralRoundTrip(n: nat, base: nat)
    requires base == 10 || base == 16
    ensures ParseNumeral(Numeral(n, base), base) == Some(n)
    decreases n
  {
    var s := Numeral(n, base);
    if n >= base {
      var q, d := n / base, n % base;
      var t := Numeral(q, base);
      DivShrinks(n, base);
      NumeralRoundTrip(q, base);
      assert s == t + [DigitChar(d)];
      assert s[..|s| - 1] == t;
      assert DigitValue(s[|s| - 1]) == Some(d);
      var v := DigitsValue(t, base);
      assert v == q;
      assert DigitsValue(s, base) == v * base + d;
      assert q * base + d == n;
    } else {
      assert s[..|s| - 1] == [];
      assert DigitsValue(s, base) == 0 * base + n;
    }
  }

  lemma DivShrinks(n: nat, base: nat)
    requires base == 10 || base == 16
    requires base <= n
    ensures n / base < n
  {
    if base == 10 {
    } else {
    }
  }

  /** str(n) never starts with a zero digit unless it is "0" itself. */
  lemma {:induction false} NumeralNoLeadingZero(n: nat, base: nat)
    requires base == 10 || base == 16
    ensures Numeral(n, base)[0] == '0' ==> n == 0
    decreases n
  {
    if n >= base {
      DivShrinks(n, base);
      NumeralNoLeadingZero(n / base, base);
    }
  }

  // ---------------------------------------------------------------- ordering

  /** a <= b on Python str values: code-point lexicographic, a prefix first. */
  predicate LexLe(a: string, b: string)
  {
    LexLeFrom(a, b, 0)
  }

  /** The comparison from position i on, the first i characters being equal. */
  predicate LexLeFrom(a: string, b: string, i: nat)
    decreases |a| - i
  {
    i >= |a| || (i < |b| && (a[i] < b[i] || (a[i] == b[i] && LexLeFrom(a, b, i + 1))))
  }

  lemma LexLeReflexive(a: string)
    ensures LexLe(a, a)
  {
    LexLeReflexiveFrom(a, 0);
  }

  lemma {:induction false} LexLeReflexiveFrom(a: string, i: nat)
    ensures LexLeFrom(a, a, i)
    decreases |a| - i
  {
    if i < |a| { LexLeReflexiveFrom(a, i + 1); }
  }

  lemma LexLeTotal(a: string, b: string)
    ensures LexLe(a, b) || LexLe(b, a)
  {
    LexLeTotalFrom(a, b, 0);
  }

  lemma {:induction false} LexLeTotalFrom(a: string, b: string, i: nat)
    ensures LexLeFrom(a, b, i) || LexLeFrom(b, a, i)
    decreases |a| - i
  {
    if i < |a| && i < |b| && a[i] == b[i] { LexLeTotalFrom(a, b, i + 1); }
  }

  lemma LexLeAntisymmetric(a: string, b: string)
    requires LexLe(a, b) && LexLe(b, a)
    ensures a == b
  {
    LexLeAntisymmetricFrom(a, b, 0);
  }

  lemma {:induction false} LexLeAntisymmetricFrom(a: string, b: string, i: nat)
    requires i <= |a| && i <= |b| && a[..i] == b[..i]
    requires LexLeFrom(a, b, i) && LexLeFrom(b, a, i)
    ensures a == b
    decreases |a| - i
  {
    if i < |a| && i < |b| {
      assert a[..i + 1] == a[..i] + [a[i]] && b[..i + 1] == b[..i] + [b[i]];
      LexLeAntisymmetricFrom(a, b, i + 1);
    } else {
      assert a == a[..i] && b == b[..i];
    }
  }

  lemma LexLeTransitive(a: string, b: string, c: string)
    requires LexLe(a, b) && LexLe(b, c)
    ensures LexLe(a, c)
  {
    LexLeTransitiveFrom(a, b, c, 0);
  }

  lemma {:induction false} LexLeTransitiveFrom(a: string, b: string, c: string, i: nat)
    requires LexLeFrom(a, b, i) && LexLeFrom(b, c, i)
    ensures LexLeFrom(a, c, i)
    decreases |a| - i
  {
    if i < |a| && i < |b| && i < |c| && a[i] == b[i] == c[i] {
      LexLeTransitiveFrom(a, b, c, i + 1);
    }
  }
}
