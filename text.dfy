/**
 * The string primitives the script relies on: `str.split` on one separator
 * character, and `int()` on a decimal field.
 */
module Text {
  import opened Wrappers

  predicate IsDigit(c: char) { '0' <= c <= '9' }

  predicate IsUpper(c: char) { 'A' <= c <= 'Z' }

  /**
   * The ASCII characters `int()` ignores around a number: space, tab, line
   * feed, carriage return, vertical tab and form feed.
   */
  predicate IsSpace(c: char) {
    c == ' ' || c == '\t' || c == '\n' || c == '\r' || c == '\U{B}' || c == '\U{C}'
  }

  predicate AllDigits(s: string) {
    forall i :: 0 <= i < |s| ==> IsDigit(s[i])
  }

  function DigitValue(c: char): (d: nat)
    requires IsDigit(c)
    ensures d < 10
  {
    (c as int) - ('0' as int)
  }

  function DigitChar(d: nat): (c: char)
    requires d < 10
    ensures IsDigit(c) && DigitValue(c) == d
  {
    ('0' as int + d) as char
  }

  /** The value of a run of decimal digits, most significant first. */
  function DecimalValue(s: string): nat
    requires AllDigits(s)
  {
    if s == [] then 0 else 10 * DecimalValue(s[..|s| - 1]) + DigitValue(s[|s| - 1])
  }

  /** The canonical decimal spelling of a natural number. */
  function ShowNat(n: nat): (s: string)
    ensures |s| > 0 && AllDigits(s)
    ensures s[0] != '0' || n == 0
  {
    if n < 10 then [DigitChar(n)] else ShowNat(n / 10) + [DigitChar(n % 10)]
  }

  /** Reading back the canonical spelling gives the number. */
  lemma {:induction false} DecimalValueOfShowNat(n: nat)
    ensures DecimalValue(ShowNat(n)) == n
  {
    if n >= 10 {
      var s := ShowNat(n);
      assert s[..|s| - 1] == ShowNat(n / 10);
      DecimalValueOfShowNat(n / 10);
    }
  }

  /** Drops surrounding ASCII space, as `int()` does before it reads digits. */
  function Strip(s: string): (t: string)
    ensures |t| <= |s|
    ensures |t| > 0 ==> !IsSpace(t[0]) && !IsSpace(t[|t| - 1])
    ensures forall c :: c in t ==> c in s
    ensures exists i, j :: (0 <= i <= j <= |s| && t == s[i..j]
                            && (forall k :: 0 <= k < i ==> IsSpace(s[k]))
                            && (forall k :: j <= k < |s| ==> IsSpace(s[k])))
  {
    StripSlice(s);
    StripRight(StripLeft(s))
  }

  /** Strip keeps a slice of `s` and drops only space after it. */
  lemma {:induction false} StripSlice(s: string)
    ensures var l := StripLeft(s); var t := StripRight(l); var i := |s| - |l|;
      && t == s[i..i + |t|]
      && (forall k :: i + |t| <= k < |s| ==> IsSpace(s[k]))
  {
    var l := StripLeft(s);
    var i := |s| - |l|;
    assert l == s[i..];
    ShiftedSpace(s, l, StripRight(l), i);
  }

  /** Space after a prefix `t` of the suffix `l` of `s` is space after `t` in `s`. */
  lemma {:induction false} ShiftedSpace(s: string, l: string, t: string, i: nat)
    requires i <= |s| && l == s[i..] && |t| <= |l| && t == l[..|t|]
    requires forall k :: |t| <= k < |l| ==> IsSpace(l[k])
    ensures t == s[i..i + |t|]
    ensures forall k :: i + |t| <= k < |s| ==> IsSpace(s[k])
  {
    forall k | i + |t| <= k < |s|
      ensures IsSpace(s[k])
    {
      assert s[k] == l[k - i];
    }
  }

  function StripLeft(s: string): (t: string)
    ensures |t| <= |s| && t == s[|s| - |t|..]
    ensures |t| > 0 ==> !IsSpace(t[0])
    ensures forall k :: 0 <= k < |s| - |t| ==> IsSpace(s[k])
  {
    if |s| > 0 && IsSpace(s[0]) then StripLeft(s[1..]) else s
  }

  function StripRight(s: string): (t: string)
    ensures |t| <= |s| && t == s[..|t|]
    ensures |t| > 0 ==> !IsSpace(t[|t| - 1])
    ensures forall k :: |t| <= k < |s| ==> IsSpace(s[k])
    ensures |s| > 0 && !IsSpace(s[0]) ==> |t| > 0 && t[0] == s[0]
  {
    if |s| > 0 && IsSpace(s[|s| - 1]) then StripRight(s[..|s| - 1]) else s
  }

  /**
   * Python's `int()` on a string, for the forms a SAM field can take:
   * surrounding space, an optional sign, then one or more ASCII digits.
   * Anything else raises ValueError.
   */
  function ParseInt(s: string): (r: Result<int>)
    ensures r.Err? ==> r.error == ValueError
  {
    var t := Strip(s);
    if |t| > 1 && (t[0] == '-' || t[0] == '+') && AllDigits(t[1..]) then
      var magnitude: int := DecimalValue(t[1..]);
      Ok(if t[0] == '-' then -magnitude else magnitude)
    else if |t| > 0 && AllDigits(t) then
      Ok(DecimalValue(t))
    else
      Err(ValueError)
  }

  /** `int()` reads back what `str()` writes. */
  lemma ParseIntOfShow(n: nat)
    ensures ParseInt(ShowNat(n)) == Ok(n)
  {
    StripUnspaced(ShowNat(n));
    DecimalValueOfShowNat(n);
  }

  /** `int()` reads a minus sign followed by digits as the negated number. */
  lemma ParseIntOfNegativeDigits(d: string)
    requires |d| > 0 && AllDigits(d)
    ensures ParseInt("-" + d) == Ok(-(DecimalValue(d) as int))
  {
    var m := "-" + d;
    assert m[|m| - 1] == d[|d| - 1];
    assert m[1..] == d;
    StripUnspaced(m);
    ParseIntOfUnspacedNegative(m);
  }

  lemma ParseIntOfUnspacedNegative(m: string)
    requires |m| > 1 && m[0] == '-' && AllDigits(m[1..]) && Strip(m) == m
    ensures ParseInt(m) == Ok(-(DecimalValue(m[1..]) as int))
  {
  }

  /** A string with no space at either end is left as it is. */
  lemma StripUnspaced(t: string)
    requires |t| > 0 && !IsSpace(t[0]) && !IsSpace(t[|t| - 1])
    ensures Strip(t) == t
  {
    assert StripLeft(t) == t;
  }

  /** `int()` reads back what `str()` writes for a negative number. */
  lemma ParseIntOfShowNegative(n: nat)
    ensures ParseInt("-" + ShowNat(n)) == Ok(-(n as int))
  {
    ParseIntOfNegativeDigits(ShowNat(n));
    DecimalValueOfShowNat(n);
  }

  /** `int()` rejects any string holding no digit at all. */
  lemma {:induction false} ParseIntNeedsADigit(s: string)
    requires forall i :: 0 <= i < |s| ==> !IsDigit(s[i])
    ensures ParseInt(s) == Err(ValueError)
  {
    var t := Strip(s);
    if |t| > 0 {
      assert t[0] in s;
      assert t[|t| - 1] in s;
    }
  }

  /**
   * A field that starts with anything but whitespace, a sign or a digit
   * makes `int()` raise ValueError; this includes the separators U+001C to
   * U+001F, which `str.isspace()` accepts but `int()` does not skip.
   */
  lemma ParseIntOfForeignLead(s: string)
    requires |s| > 0 && !IsSpace(s[0]) && !IsDigit(s[0]) && s[0] != '-' && s[0] != '+'
    ensures ParseInt(s) == Err(ValueError)
  {
    assert StripLeft(s) == s;
    assert Strip(s)[0] == s[0];
  }

  lemma ParseIntOfSeparatorPadded()
    ensures ParseInt("\U{1C}5") == Err(ValueError)
  {
    ParseIntOfForeignLead("\U{1C}5");
  }

  // ---------------------------------------------------------------------
  // str.split on a single separator character

  /**
   * `s.split(sep)`: the pieces between separators, in order. There is always
   * at least one piece, and no piece holds the separator.
   */
  function Split(s: string, sep: char): (parts: seq<string>)
    ensures |parts| > 0
    ensures forall i :: 0 <= i < |parts| ==> sep !in parts[i]
  {
    if s == [] then [[]]
    else
      var rest := Split(s[1..], sep);
      if s[0] == sep then [[]] + rest
      else [[s[0]] + rest[0]] + rest[1..]
  }

  /** `sep.join(parts)`. */
  function Join(parts: seq<string>, sep: char): string
    requires |parts| > 0
  {
    if |parts| == 1 then parts[0] else parts[0] + [sep] + Join(parts[1..], sep)
  }

  /** Splitting loses nothing: joining the pieces gives back the string. */
  lemma {:induction false} JoinSplit(s: string, sep: char)
    ensures Join(Split(s, sep), sep) == s
  {
    if s != [] {
      var rest := Split(s[1..], sep);
      JoinSplit(s[1..], sep);
      var parts := Split(s, sep);
      if s[0] == sep {
        assert parts == [[]] + rest;
        assert parts[1..] == rest;
      } else {
        assert parts == [[s[0]] + rest[0]] + rest[1..];
        if |rest| == 1 {
          assert Join(parts, sep) == [s[0]] + rest[0];
        } else {
          assert parts[1..] == rest[1..];
          assert Join(rest, sep) == rest[0] + [sep] + Join(rest[1..], sep);
          assert Join(parts, sep) == [s[0]] + rest[0] + [sep] + Join(rest[1..], sep);
        }
        assert s == [s[0]] + s[1..];
      }
    }
  }

  /** A separator-free prefix stays glued to the first piece of what follows it. */
  lemma {:induction false} SplitPrefix(a: string, rest: string, sep: char)
    requires sep !in a
    ensures Split(a + rest, sep) == [a + Split(rest, sep)[0]] + Split(rest, sep)[1..]
  {
    var q := Split(rest, sep);
    if a == [] {
      assert a + rest == rest;
      assert a + q[0] == q[0];
      assert [q[0]] + q[1..] == q;
    } else {
      var s := a + rest;
      assert s[0] == a[0] && s[1..] == a[1..] + rest;
      SplitPrefix(a[1..], rest, sep);
      var r := Split(s[1..], sep);
      assert r == [a[1..] + q[0]] + q[1..];
      assert r[0] == a[1..] + q[0] && r[1..] == q[1..];
      assert Split(s, sep) == [[a[0]] + r[0]] + r[1..];
      assert [a[0]] + (a[1..] + q[0]) == a + q[0];
    }
  }

  /** Splitting undoes joining, when no piece holds the separator. */
  lemma {:induction false} SplitJoin(parts: seq<string>, sep: char)
    requires |parts| > 0
    requires forall i :: 0 <= i < |parts| ==> sep !in parts[i]
    ensures Split(Join(parts, sep), sep) == parts
  {
    if |parts| == 1 {
      SplitPrefix(parts[0], [], sep);
      assert parts[0] + [] == parts[0];
      assert Split([], sep) == [[]];
      assert parts == [parts[0] + []];
    } else {
      var tail := Join(parts[1..], sep);
      SplitJoin(parts[1..], sep);
      assert Join(parts, sep) == parts[0] + ([sep] + tail);
      SplitPrefix(parts[0], [sep] + tail, sep);
      var q := Split([sep] + tail, sep);
      assert ([sep] + tail)[1..] == tail;
      assert q == [[]] + parts[1..];
      assert q[0] == [] && q[1..] == parts[1..];
      assert parts[0] + [] == parts[0];
      assert parts == [parts[0]] + parts[1..];
    }
  }

  /**
   * The last piece of a split is the text after the final separator: the
   * whole string when there is no separator, otherwise the suffix that
   * follows one.
   */
  lemma {:induction false} SplitLast(s: string, sep: char)
    ensures var parts := Split(s, sep); var last := parts[|parts| - 1];
      |last| <= |s| && s[|s| - |last|..] == last
      && (|parts| == 1 ==> last == s)
      && (|parts| > 1 ==> |last| < |s| && s[|s| - |last| - 1] == sep)
  {
    if s != [] {
      SplitLast(s[1..], sep);
      SplitStep(s, sep);
      var rest := Split(s[1..], sep);
      var parts := Split(s, sep);
      LastStep(s, sep, |rest|, rest[|rest| - 1], |parts|, parts[|parts| - 1]);
    }
  }

  /**
   * The step of SplitLast with the pieces named: `r` is the last of the `m`
   * pieces of the tail, `last` the last of the `n` pieces of `s`.
   */
  lemma {:induction false} LastStep(s: string, sep: char, m: nat, r: string, n: nat, last: string)
    requires s != [] && m > 0 && n > 0
    requires |r| <= |s| - 1 && s[1..][|s| - 1 - |r|..] == r
    requires m == 1 ==> r == s[1..]
    requires m > 1 ==> |r| < |s| - 1 && s[1..][|s| - 1 - |r| - 1] == sep
    requires n == 1 <==> m == 1 && s[0] != sep
    requires last == if m == 1 && s[0] != sep then [s[0]] + r else r
    ensures |last| <= |s| && s[|s| - |last|..] == last
    ensures n == 1 ==> last == s
    ensures n > 1 ==> |last| < |s| && s[|s| - |last| - 1] == sep
  {
    if n == 1 {
      assert s == [s[0]] + s[1..];
    } else {
      SuffixOfTail(s, r, m == 1, sep);
    }
  }

  /**
   * A suffix of a string's tail is a suffix of the string, and what
   * precedes it there precedes it in the string; when the suffix is the
   * whole tail, the first character precedes it.
   */
  lemma {:induction false} SuffixOfTail(s: string, r: string, whole: bool, sep: char)
    requires s != [] && |r| <= |s| - 1 && s[1..][|s| - 1 - |r|..] == r
    requires whole ==> r == s[1..] && s[0] == sep
    requires !whole ==> |r| < |s| - 1 && s[1..][|s| - 1 - |r| - 1] == sep
    ensures s[|s| - |r|..] == r && s[|s| - |r| - 1] == sep
  {
    assert s[|s| - |r|..] == s[1..][|s| - 1 - |r|..];
  }

  /** How the first character decides the split's piece count and last piece. */
  lemma {:induction false} SplitStep(s: string, sep: char)
    requires s != []
    ensures var rest := Split(s[1..], sep); var parts := Split(s, sep);
      && (|parts| == 1 <==> |rest| == 1 && s[0] != sep)
      && parts[|parts| - 1] == (if |rest| == 1 && s[0] != sep then [s[0]] + rest[0] else rest[|rest| - 1])
  {
  }
}
