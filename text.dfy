/**
 * The string operations the store relies on: `str.lower`, substring containment (`in`)
 * and the conversion `int(s)` of typed-in text to an integer.
 */
module Text {
  import opened Wrappers

  /**
   * The upper-case letters whose lower-case form is modelled: the ASCII letters and the
   * upper-case letters of Latin-1 (U+00C0..U+00DE except the multiplication sign U+00D7),
   * which the Spanish product names use.
   */
  predicate IsUpper(c: char)
  {
    'A' <= c <= 'Z' || ('À' <= c <= 'Þ' && c != '×')
  }

  /** Lower-case mapping of one character: an upper-case letter moves to its lower-case form. */
  function LowerChar(c: char): (l: char)
    ensures !IsUpper(l)
    ensures !IsUpper(c) ==> l == c
  {
    if IsUpper(c) then (c as int + 32) as char else c
  }

  /** `a` and `b` are the same letter, up to case. */
  ghost predicate SameLetter(a: char, b: char)
  {
    a == b || (IsUpper(a) && b == LowerChar(a)) || (IsUpper(b) && a == LowerChar(b))
  }

  /** `s` and `t` spell the same text, up to the case of their letters. */
  ghost predicate SameIgnoringCase(s: string, t: string)
  {
    |s| == |t| && forall i :: 0 <= i < |s| ==> SameLetter(s[i], t[i])
  }

  /** `s.lower()`: the same text as `s` up to case, with no upper-case letter left. */
  function Lower(s: string): (r: string)
    ensures SameIgnoringCase(s, r)
    ensures forall i :: 0 <= i < |r| ==> !IsUpper(r[i])
  {
    seq(|s|, i requires 0 <= i < |s| => LowerChar(s[i]))
  }

  /** Lower-casing twice is lower-casing once. */
  lemma LowerIdempotent(s: string)
    ensures Lower(Lower(s)) == Lower(s)
  {
  }

  /** Two strings have the same lower-case form exactly when they differ only in case. */
  lemma {:induction false} LowerIgnoresCase(s: string, t: string)
    ensures Lower(s) == Lower(t) <==> SameIgnoringCase(s, t)
  {
    var ls, lt := Lower(s), Lower(t);
    if SameIgnoringCase(s, t) {
      forall i | 0 <= i < |s| ensures ls[i] == lt[i] {
        assert ls[i] == LowerChar(s[i]) && lt[i] == LowerChar(t[i]);
      }
    }
    if ls == lt {
      forall i | 0 <= i < |s| ensures SameLetter(s[i], t[i]) {
        assert LowerChar(s[i]) == ls[i] == lt[i] == LowerChar(t[i]);
      }
    }
  }

  /** `needle` occurs in `hay` starting at position `i`. */
  ghost predicate OccursAt(hay: string, needle: string, i: int)
  {
    0 <= i && i + |needle| <= |hay| && hay[i..i + |needle|] == needle
  }

  /** Python's `needle in hay` on strings, searching from the left. */
  function Contains(hay: string, needle: string): (r: bool)
    ensures needle == [] ==> r
    ensures r ==> |needle| <= |hay|
    decreases |hay|
  {
    if |needle| > |hay| then false
    else if hay[..|needle|] == needle then true
    else Contains(hay[1..], needle)
  }

  /** `Contains` holds exactly when the needle occurs somewhere in the haystack. */
  lemma {:induction false} ContainsIffOccurs(hay: string, needle: string)
    ensures Contains(hay, needle) <==> exists i :: OccursAt(hay, needle, i)
    decreases |hay|
  {
    if |needle| > |hay| {
      assert forall i :: !OccursAt(hay, needle, i);
    } else if hay[..|needle|] == needle {
      assert OccursAt(hay, needle, 0);
    } else {
      ContainsIffOccurs(hay[1..], needle);
      if i :| OccursAt(hay[1..], needle, i) {
        assert hay[1..][i..i + |needle|] == hay[i + 1..i + 1 + |needle|];
        assert OccursAt(hay, needle, i + 1);
      }
      if i :| OccursAt(hay, needle, i) {
        assert i != 0;
        assert hay[1..][i - 1..i - 1 + |needle|] == hay[i..i + |needle|];
        assert OccursAt(hay[1..], needle, i - 1);
      }
    }
  }

  /** The whitespace `int()` ignores around an ASCII numeral. */
  predicate IsSpace(c: char)
  {
    c == ' ' || c == '\t' || c == '\n' || c == '\r' || c == '\U{B}' || c == '\U{C}'
  }

  predicate IsDigit(c: char)
  {
    '0' <= c <= '9'
  }

  /** `s` without the whitespace `int()` ignores at either end; nothing else is removed. */
  function Strip(s: string): (r: string)
    decreases |s|
  {
    if s != [] && IsSpace(s[0]) then Strip(s[1..])
    else if s != [] && IsSpace(s[|s| - 1]) then Strip(s[..|s| - 1])
    else s
  }

  predicate AllDigits(s: string)
  {
    forall i :: 0 <= i < |s| ==> IsDigit(s[i])
  }

  /** The value of a string of decimal digits, most significant first. */
  function DigitsValue(s: string): nat
    requires AllDigits(s)
    decreases |s|
  {
    if s == [] then 0
    else DigitsValue(s[..|s| - 1]) * 10 + (s[|s| - 1] as int - '0' as int)
  }

  /** An unsigned decimal numeral: one digit or more. */
  function ParseDigits(s: string): Option<nat>
  {
    if s != [] && AllDigits(s) then Some(DigitsValue(s)) else None
  }

  /**
   * `int(s)` for a string: surrounding whitespace is ignored, an optional sign is followed
   * by one or more decimal digits; any other text is a `ValueError`, here `None`.
   */
  function ParseInt(s: string): (r: Option<int>)
    ensures AllDigits(s) && s != [] ==> r == Some(DigitsValue(s))
  {
    var t := Strip(s);
    if t != [] && (t[0] == '+' || t[0] == '-') then
      match ParseDigits(t[1..])
      case None => None
      case Some(n) => var v: int := if t[0] == '-' then -(n as int) else n; Some(v)
    else
      match ParseDigits(t)
      case None => None
      case Some(n) => var v: int := n; Some(v)
  }

  function DigitChar(d: nat): (c: char)
    requires d < 10
    ensures IsDigit(c) && c as int - '0' as int == d
  {
    ('0' as int + d) as char
  }

  /** `str(n)` for a natural number. */
  function ShowNat(n: nat): (s: string)
    ensures s != [] && AllDigits(s)
    decreases n
  {
    if n < 10 then [DigitChar(n)] else ShowNat(n / 10) + [DigitChar(n % 10)]
  }

  /** `str(n)`: the decimal numeral, with a minus sign for a negative number. */
  function Show(n: int): string
  {
    if n < 0 then "-" + ShowNat(-n) else ShowNat(n)
  }

  lemma {:induction false} DigitsValueShowNat(n: nat)
    ensures DigitsValue(ShowNat(n)) == n
    decreases n
  {
    var s := ShowNat(n);
    if n >= 10 {
      DigitsValueShowNat(n / 10);
      assert s[..|s| - 1] == ShowNat(n / 10);
    }
  }

  lemma StripNoSpace(s: string)
    requires s == [] || (!IsSpace(s[0]) && !IsSpace(s[|s| - 1]))
    ensures Strip(s) == s
  {
  }

  /** Reading back the decimal form of any integer gives that integer: `int(str(n)) == n`. */
  lemma {:induction false} ParseIntShow(n: int)
    ensures ParseInt(Show(n)) == Some(n)
  {
    var s := Show(n);
    if n < 0 {
      var digits := ShowNat(-n);
      DigitsValueShowNat(-n);
      assert s[|s| - 1] == digits[|digits| - 1];
      StripNoSpace(s);
      assert s[1..] == digits;
    } else {
      DigitsValueShowNat(n);
      StripNoSpace(s);
    }
  }

  /** Stripping only cuts characters off the ends: what is left is a slice of `s`. */
  lemma {:induction false} StripSlice(s: string)
    ensures exists i, j :: 0 <= i <= j <= |s| && Strip(s) == s[i..j]
    decreases |s|
  {
    if s != [] && IsSpace(s[0]) {
      StripSlice(s[1..]);
      var i, j :| 0 <= i <= j <= |s| - 1 && Strip(s[1..]) == s[1..][i..j];
      assert s[1..][i..j] == s[i + 1..j + 1];
    } else if s != [] && IsSpace(s[|s| - 1]) {
      StripSlice(s[..|s| - 1]);
      var i, j :| 0 <= i <= j <= |s| - 1 && Strip(s[..|s| - 1]) == s[..|s| - 1][i..j];
      assert s[..|s| - 1][i..j] == s[i..j];
    } else {
      assert s == s[0..|s|];
    }
  }

  /** Text without a decimal digit is never a number: `int()` rejects it. */
  lemma ParseIntNeedsDigit(s: string)
    ensures ParseInt(s).Some? ==> exists j :: 0 <= j < |s| && IsDigit(s[j])
  {
    if ParseInt(s).Some? {
      StripSlice(s);
      var t := Strip(s);
      var i, j :| 0 <= i <= j <= |s| && t == s[i..j];
      var k := if t[0] == '+' || t[0] == '-' then 1 else 0;
      assert IsDigit(t[k]) && t[k] == s[i + k];
    }
  }
}
