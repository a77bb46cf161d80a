/** Characters, strings and decimal numerals as the mapper's Python code treats them.
    Case mapping is modelled for ASCII letters only; every other character is left
    unchanged by `Lower` and `Title` and counts as uncased. */
module Text {

  datatype Option<T> = None | Some(value: T)

  predicate IsDigit(c: char) { '0' <= c <= '9' }
  predicate IsUpper(c: char) { 'A' <= c <= 'Z' }
  predicate IsLowerLetter(c: char) { 'a' <= c <= 'z' }
  predicate IsLetter(c: char) { IsUpper(c) || IsLowerLetter(c) }

  predicate AllDigits(s: string) { forall i :: 0 <= i < |s| ==> IsDigit(s[i]) }
  predicate NoUpper(s: string) { forall i :: 0 <= i < |s| ==> !IsUpper(s[i]) }
  predicate HasLetter(s: string) { exists i :: 0 <= i < |s| && IsLetter(s[i]) }

  /** Python's `\w` on `str`: letters, digits and `_`. Besides ASCII this covers the
      Latin-1 letters and numerals; characters above U+00FF count as non-word. */
  predicate IsWordChar(c: char)
  {
    var n := c as int;
    IsLetter(c) || IsDigit(c) || c == '_'
    || n == 0xAA || n == 0xB2 || n == 0xB3 || n == 0xB5 || n == 0xB9 || n == 0xBA
    || 0xBC <= n <= 0xBE || 0xC0 <= n <= 0xD6 || 0xD8 <= n <= 0xF6 || 0xF8 <= n <= 0xFF
  }

  /** Python's `\s` on `str` (the characters for which `str.isspace` holds). */
  predicate IsSpace(c: char)
  {
    var n := c as int;
    9 <= n <= 13 || 0x1C <= n <= 0x20 || n == 0x85 || n == 0xA0 || n == 0x1680
    || 0x2000 <= n <= 0x200A || n == 0x2028 || n == 0x2029 || n == 0x202F
    || n == 0x205F || n == 0x3000
  }

  function LowerChar(c: char): (d: char)
    ensures !IsUpper(d)
    ensures IsLetter(d) == IsLetter(c)
    ensures !IsUpper(c) ==> d == c
  {
    if IsUpper(c) then (c as int + 32) as char else c
  }

  function UpperChar(c: char): (d: char)
    ensures LowerChar(d) == LowerChar(c)
    ensures IsLowerLetter(c) ==> IsUpper(d)
    ensures !IsLowerLetter(c) ==> d == c
  {
    if IsLowerLetter(c) then (c as int - 32) as char else c
  }

  /** `str.lower()` */
  function Lower(s: string): (r: string)
    ensures |r| == |s|
    ensures forall i :: 0 <= i < |s| ==> r[i] == LowerChar(s[i])
    ensures NoUpper(r)
  {
    if s == [] then [] else [LowerChar(s[0])] + Lower(s[1..])
  }

  lemma LowerOfNoUpper(s: string)
    requires NoUpper(s)
    ensures Lower(s) == s
  {
  }

  /** `str.title()`: a letter is upper-cased when the character before it is not a
      letter, and lower-cased otherwise. */
  function TitleFrom(s: string, afterLetter: bool): (r: string)
    ensures |r| == |s|
    ensures forall i :: 0 <= i < |s| ==> LowerChar(r[i]) == LowerChar(s[i])
    ensures forall i :: 0 <= i < |s| ==>
              r[i] == if !IsLetter(s[i]) then s[i]
                      else if (if i == 0 then afterLetter else IsLetter(s[i - 1])) then LowerChar(s[i])
                      else UpperChar(s[i])
  {
    if s == [] then []
    else if IsLetter(s[0]) then
      [if afterLetter then LowerChar(s[0]) else UpperChar(s[0])] + TitleFrom(s[1..], true)
    else
      [s[0]] + TitleFrom(s[1..], false)
  }

  function Title(s: string): (r: string)
    ensures |r| == |s|
    ensures forall i :: 0 <= i < |s| ==>
              r[i] == if !IsLetter(s[i]) then s[i]
                      else if i > 0 && IsLetter(s[i - 1]) then LowerChar(s[i])
                      else UpperChar(s[i])
    ensures Lower(r) == Lower(s)
  {
    TitleFrom(s, false)
  }

  /** The first letter of a word is upper-cased, so a string with a letter has an
      upper-case letter once title-cased. */
  lemma {:induction false} TitleFromHasUpper(s: string, afterLetter: bool)
    requires HasLetter(s)
    requires afterLetter ==> !IsLetter(s[0])
    ensures !NoUpper(TitleFrom(s, afterLetter))
  {
    if IsLetter(s[0]) {
      assert IsUpper(TitleFrom(s, afterLetter)[0]);
    } else {
      var t := s[1..];
      assert HasLetter(t) by {
        var i :| 0 <= i < |s| && IsLetter(s[i]);
        assert i > 0 && t[i - 1] == s[i];
      }
      TitleFromHasUpper(t, false);
      TitleFromSkip(s, afterLetter);
      UpperInTail(s[0], TitleFrom(t, false));
    }
  }

  lemma TitleFromSkip(s: string, afterLetter: bool)
    requires s != [] && !IsLetter(s[0])
    ensures TitleFrom(s, afterLetter) == [s[0]] + TitleFrom(s[1..], false)
  {
  }

  lemma UpperInTail(c: char, r: string)
    requires !NoUpper(r)
    ensures !NoUpper([c] + r)
  {
    var j :| 0 <= j < |r| && IsUpper(r[j]);
    assert ([c] + r)[j + 1] == r[j];
  }

  lemma TitleHasUpper(s: string)
    requires HasLetter(s)
    ensures !NoUpper(Title(s))
  {
    TitleFromHasUpper(s, false);
  }

  /** Python's `k in t` on strings. */
  predicate OccursAt(k: string, t: string, i: int)
  {
    0 <= i && i + |k| <= |t| && forall j :: 0 <= j < |k| ==> t[i + j] == k[j]
  }

  predicate Contains(t: string, k: string)
  {
    exists i | 0 <= i <= |t| - |k| :: OccursAt(k, t, i)
  }

  /** A character of `k` that `t` lacks rules out every occurrence of `k` in `t`. */
  lemma NotContainsByChar(t: string, k: string, c: char)
    requires c in k && c !in t
    ensures !Contains(t, k)
  {
    var m :| 0 <= m < |k| && k[m] == c;
    assert forall i :: OccursAt(k, t, i) ==> t[i + m] == c;
  }

  /** Two adjacent characters of `k` that never stand side by side in `t` rule out
      every occurrence of `k` in `t`. */
  lemma NotContainsByPair(t: string, k: string, m: nat)
    requires m + 1 < |k|
    requires forall i :: 0 <= i < |t| - 1 ==> !(t[i] == k[m] && t[i + 1] == k[m + 1])
    ensures !Contains(t, k)
  {
    assert forall i :: OccursAt(k, t, i) ==> t[i + m] == k[m] && t[i + m + 1] == k[m + 1];
  }

  function DigitValue(c: char): (v: nat)
    requires IsDigit(c)
    ensures v < 10
  {
    c as int - '0' as int
  }

  function DigitChar(v: nat): (c: char)
    requires v < 10
    ensures IsDigit(c) && DigitValue(c) == v
  {
    ('0' as int + v) as char
  }

  /** `int(s)` for a string of ASCII digits. */
  function DecimalValue(s: string): nat
    requires AllDigits(s)
  {
    if s == [] then 0 else DecimalValue(s[..|s| - 1]) * 10 + DigitValue(s[|s| - 1])
  }

  /** `'%0*d' % (w, v)` for `v < 10^w`: `v` in exactly `w` decimal digits. */
  function Padded(v: nat, w: nat): (s: string)
    ensures |s| == w && AllDigits(s)
  {
    if w == 0 then [] else Padded(v / 10, w - 1) + [DigitChar(v % 10)]
  }

  /** Rendering a digit string's value in as many digits gives the string back. */
  lemma {:induction false} PaddedDecimalValue(s: string)
    requires AllDigits(s)
    ensures Padded(DecimalValue(s), |s|) == s
  {
    if s != [] {
      var init := s[..|s| - 1];
      var d := DigitValue(s[|s| - 1]);
      assert DecimalValue(s) == DecimalValue(init) * 10 + d;
      assert DecimalValue(s) / 10 == DecimalValue(init);
      assert DecimalValue(s) % 10 == d;
      PaddedDecimalValue(init);
      assert s == init + [s[|s| - 1]];
    }
  }

  /** `str(n)` for a natural number. */
  function NatToString(n: nat): (s: string)
    ensures |s| > 0 && AllDigits(s)
  {
    if n < 10 then [DigitChar(n)] else NatToString(n / 10) + [DigitChar(n % 10)]
  }

  /** `int(str(n)) == n`, and `str(n)` has no leading zero. */
  lemma {:induction false} NatToStringRoundTrip(n: nat)
    ensures DecimalValue(NatToString(n)) == n
    ensures |NatToString(n)| > 1 ==> NatToString(n)[0] != '0'
  {
    var s := NatToString(n);
    if n >= 10 {
      NatToStringRoundTrip(n / 10);
      assert s[..|s| - 1] == NatToString(n / 10);
      assert s[0] == NatToString(n / 10)[0];
    }
  }

  /** `s.replace(',', '')` */
  function RemoveCommas(s: string): (r: string)
    ensures ',' !in r
    ensures |r| <= |s|
  {
    if s == [] then [] else (if s[0] == ',' then [] else [s[0]]) + RemoveCommas(s[1..])
  }

  /** Exactly the characters of `s` other than the comma remain. */
  lemma {:induction false} RemoveCommasKeeps(s: string, c: char)
    ensures c in RemoveCommas(s) <==> c in s && c != ','
  {
    if s != [] {
      RemoveCommasKeeps(s[1..], c);
      assert s == [s[0]] + s[1..];
    }
  }

  /** Removing the commas of a concatenation removes those of each part, in order; with
      the one-character cases this says every other character is kept, in order. */
  lemma {:induction false} RemoveCommasAppend(x: string, y: string)
    ensures RemoveCommas(x + y) == RemoveCommas(x) + RemoveCommas(y)
  {
    if x == [] {
      assert x + y == y;
    } else {
      assert (x + y)[0] == x[0];
      assert (x + y)[1..] == x[1..] + y;
      RemoveCommasAppend(x[1..], y);
    }
  }

  /** A single character: a comma goes, anything else stays. */
  lemma RemoveCommasChar(c: char)
    ensures RemoveCommas([c]) == if c == ',' then [] else [c]
  {
    assert [c][1..] == [];
  }

  lemma {:induction false} RemoveCommasOfDigits(s: string)
    requires AllDigits(s)
    ensures RemoveCommas(s) == s
  {
    if s != [] {
      RemoveCommasOfDigits(s[1..]);
    }
  }

  lemma NoUpperAppend(x: string, y: string)
    requires NoUpper(x) && NoUpper(y)
    ensures NoUpper(x + y)
  {
    assert forall i :: |x| <= i < |x + y| ==> (x + y)[i] == y[i - |x|];
  }

  /** Where the characters of the three parts of a concatenation stand. */
  lemma Concat3(p: string, m: string, q: string)
    ensures |p + m + q| == |p| + |m| + |q|
    ensures forall i :: 0 <= i < |p| ==> (p + m + q)[i] == p[i]
    ensures forall i :: 0 <= i < |m| ==> (p + m + q)[|p| + i] == m[i]
    ensures forall i :: 0 <= i < |q| ==> (p + m + q)[|p| + |m| + i] == q[i]
  {
  }

  /** Each of three strings occurs where it was put in their concatenation. */
  lemma OccursInConcat3(p: string, m: string, q: string)
    ensures |p + m + q| == |p| + |m| + |q|
    ensures OccursAt(p, p + m + q, 0) && OccursAt(m, p + m + q, |p|)
    ensures OccursAt(q, p + m + q, |p| + |m|)
  {
    Concat3(p, m, q);
  }

  /** A slice split around one of its characters. */
  lemma SliceAround(t: string, i: nat, m: nat, j: nat)
    requires i <= m < j <= |t|
    ensures t[i..j] == t[i..m] + [t[m]] + t[m + 1..j]
  {
  }

  /** The middle part of a concatenation, sliced back out. */
  lemma MiddleSlice(p: string, m: string, q: string)
    ensures (p + m + q)[|p|..|p| + |m|] == m
  {
    assert forall i :: 0 <= i < |m| ==> (p + m + q)[|p| + i] == m[i];
  }

  function Pow10(n: nat): (p: nat)
    ensures p > 0
  {
    if n == 0 then 1 else 10 * Pow10(n - 1)
  }

  /** The value of digits written after other digits. */
  lemma {:induction false} DecimalValueAppend(x: string, y: string)
    requires AllDigits(x) && AllDigits(y)
    ensures AllDigits(x + y)
    ensures DecimalValue(x + y) == DecimalValue(x) * Pow10(|y|) + DecimalValue(y)
  {
    if y == [] {
      assert x + y == x;
    } else {
      var y' := y[..|y| - 1];
      assert AllDigits(y');
      assert (x + y)[..|x + y| - 1] == x + y';
      assert (x + y)[|x + y| - 1] == y[|y| - 1];
      DecimalValueAppend(x, y');
      var a, p, v, d := DecimalValue(x), Pow10(|y'|), DecimalValue(y'), DigitValue(y[|y| - 1]);
      assert Pow10(|y|) == 10 * p;
      assert DecimalValue(y) == v * 10 + d;
      ShiftDigit(a, p, v, d);
    }
  }

  /** Reading back `w` digits written for a value below `10^w` gives the value. */
  lemma {:induction false} DecimalValuePadded(v: nat, w: nat)
    requires v < Pow10(w)
    ensures DecimalValue(Padded(v, w)) == v
  {
    if w > 0 {
      var s := Padded(v, w);
      assert v / 10 < Pow10(w - 1);
      DecimalValuePadded(v / 10, w - 1);
      assert s[..|s| - 1] == Padded(v / 10, w - 1);
      assert s[|s| - 1] == DigitChar(v % 10);
    }
  }

  /** The value of three digits. */
  lemma ThreeDigits(t: string, i: nat)
    requires i + 3 <= |t| && IsDigit(t[i]) && IsDigit(t[i + 1]) && IsDigit(t[i + 2])
    ensures AllDigits(t[i..i + 3])
    ensures DecimalValue(t[i..i + 3])
            == DigitValue(t[i]) * 100 + DigitValue(t[i + 1]) * 10 + DigitValue(t[i + 2])
  {
    assert t[i..i + 3][0] == t[i] && t[i..i + 3][1] == t[i + 1] && t[i..i + 3][2] == t[i + 2];
    DecimalValueSlice(t, i, i + 3);
    DecimalValueSlice(t, i, i + 2);
    DecimalValueSlice(t, i, i + 1);
    assert t[i..i] == [];
  }

  /** The value of two digits. */
  lemma TwoDigits(t: string, i: nat)
    requires i + 2 <= |t| && IsDigit(t[i]) && IsDigit(t[i + 1])
    ensures AllDigits(t[i..i + 2])
    ensures DecimalValue(t[i..i + 2]) == DigitValue(t[i]) * 10 + DigitValue(t[i + 1])
  {
    assert t[i..i + 2][0] == t[i] && t[i..i + 2][1] == t[i + 1];
    DecimalValueSlice(t, i, i + 2);
    DecimalValueSlice(t, i, i + 1);
    assert t[i..i] == [];
  }

  lemma ShiftDigit(a: int, p: int, v: int, d: int)
    ensures (a * p + v) * 10 + d == a * (10 * p) + (v * 10 + d)
  {
    assert (a * p) * 10 == a * (10 * p);
  }

  /** The value of a slice, one digit shorter: the definition of `DecimalValue`
      restated for slices. */
  lemma DecimalValueSlice(t: string, i: nat, j: nat)
    requires i < j <= |t| && AllDigits(t[i..j])
    ensures AllDigits(t[i..j - 1])
    ensures DecimalValue(t[i..j]) == DecimalValue(t[i..j - 1]) * 10 + DigitValue(t[j - 1])
  {
    assert t[i..j][..j - i - 1] == t[i..j - 1];
  }
}
