/**
 * The few pieces of Python's string handling that the bot relies on:
 * `str.isspace`, `str.strip`, `str.split(sep)`, `int(text)` and `str(n)`.
 */
module Text {
  import opened Wrappers

  /** `c.isspace()` in Python: the ASCII controls 9..13 and 28..31, the space,
      and the Unicode separators Python counts as white space. */
  predicate IsSpace(c: char) {
    var n := c as int;
    (9 <= n <= 13) || (28 <= n <= 32) || n == 0x85 || n == 0xA0 || n == 0x1680
    || (0x2000 <= n <= 0x200A) || n == 0x2028 || n == 0x2029 || n == 0x202F
    || n == 0x205F || n == 0x3000
  }

  /** No white space at either end. */
  predicate IsTrimmed(s: string) {
    s == [] || (!IsSpace(s[0]) && !IsSpace(s[|s| - 1]))
  }

  /** `s.rstrip()`: drops white space at the end. */
  function TrimEnd(s: string): (r: string)
    ensures |r| <= |s|
    ensures r == [] || (r[0] == s[0] && !IsSpace(r[|r| - 1]))
  {
    if |s| > 0 && IsSpace(s[|s| - 1]) then TrimEnd(s[..|s| - 1]) else s
  }

  /** `s.strip()`: drops white space at both ends. */
  function Trim(s: string): (r: string)
    ensures IsTrimmed(r)
  {
    if |s| > 0 && IsSpace(s[0]) then Trim(s[1..]) else TrimEnd(s)
  }

  /** What `rstrip` keeps is a prefix, and all it drops is white space. */
  lemma {:induction false} TrimEndIsPrefix(s: string)
    ensures TrimEnd(s) == s[..|TrimEnd(s)|]
    ensures forall k :: |TrimEnd(s)| <= k < |s| ==> IsSpace(s[k])
  {
    if |s| > 0 && IsSpace(s[|s| - 1]) {
      var t := s[..|s| - 1];
      TrimEndIsPrefix(t);
      assert t[..|TrimEnd(t)|] == s[..|TrimEnd(t)|];
    }
  }

  /** `r` is `s[i..j]` and everything outside it is white space. */
  predicate StrippedTo(s: string, r: string, i: int, j: int) {
    0 <= i <= j <= |s| && r == s[i..j]
    && (forall k :: 0 <= k < i ==> IsSpace(s[k]))
    && (forall k :: j <= k < |s| ==> IsSpace(s[k]))
  }

  /** What `strip` keeps is an infix of `s`, and all it drops is white space. */
  lemma TrimIsInfix(s: string)
    ensures exists i, j :: StrippedTo(s, Trim(s), i, j)
  {
    var i, j := TrimBounds(s);
  }

  lemma {:induction false} TrimBounds(s: string) returns (i: int, j: int)
    ensures StrippedTo(s, Trim(s), i, j)
  {
    if |s| > 0 && IsSpace(s[0]) {
      var t := s[1..];
      var i', j' := TrimBounds(t);
      i, j := i' + 1, j' + 1;
      assert t[i'..j'] == s[i..j];
      forall k | 0 <= k < i ensures IsSpace(s[k]) {
        if k > 0 {
          assert s[k] == t[k - 1];
        }
      }
      forall k | j <= k < |s| ensures IsSpace(s[k]) {
        assert s[k] == t[k - 1];
      }
    } else {
      TrimEndIsPrefix(s);
      i, j := 0, |TrimEnd(s)|;
      assert s[i..j] == s[..|TrimEnd(s)|];
    }
  }

  /** Stripping text that has no white space at either end changes nothing. */
  lemma TrimOfTrimmed(s: string)
    requires IsTrimmed(s)
    ensures Trim(s) == s
  {
  }

  lemma TrimIdempotent(s: string)
    ensures Trim(Trim(s)) == Trim(s)
  {
    TrimOfTrimmed(Trim(s));
  }

  /** `s.split(sep)` for a one-character separator: the maximal separator-free pieces,
      empty pieces included, so that the result is never empty. */
  function Split(s: string, sep: char): (parts: seq<string>)
    ensures |parts| >= 1
    ensures forall i :: 0 <= i < |parts| ==> sep !in parts[i]
  {
    if |s| == 0 then [""]
    else
      var rest := Split(s[1..], sep);
      if s[0] == sep then [""] + rest
      else [[s[0]] + rest[0]] + rest[1..]
  }

  /** `sep.join(parts)`. */
  function Join(parts: seq<string>, sep: char): string {
    if |parts| == 0 then ""
    else if |parts| == 1 then parts[0]
    else parts[0] + [sep] + Join(parts[1..], sep)
  }

  /** Joining the pieces of a split gives the text back. */
  lemma {:induction false} JoinSplit(s: string, sep: char)
    ensures Join(Split(s, sep), sep) == s
  {
    if |s| > 0 {
      var rest := Split(s[1..], sep);
      JoinSplit(s[1..], sep);
      if s[0] == sep {
        assert Split(s, sep) == [""] + rest;
        assert ([""] + rest)[1..] == rest;
      } else {
        assert Split(s, sep) == [[s[0]] + rest[0]] + rest[1..];
        if |rest| == 1 {
          assert s == [s[0]] + s[1..];
        } else {
          assert (rest[1..])[1..] == rest[2..];
          assert Join(rest, sep) == rest[0] + [sep] + Join(rest[1..], sep);
          var tail := [[s[0]] + rest[0]] + rest[1..];
          assert tail[1..] == rest[1..];
          assert s == [s[0]] + s[1..];
        }
      }
    }
  }

  lemma {:induction false} SplitPrefix(p: string, t: string, sep: char)
    requires sep !in p
    ensures Split(p + t, sep) == [p + Split(t, sep)[0]] + Split(t, sep)[1..]
  {
    if |p| > 0 {
      SplitPrefix(p[1..], t, sep);
      assert (p + t)[1..] == p[1..] + t;
      assert (p + t)[0] == p[0];
      assert [p[0]] + (p[1..] + Split(t, sep)[0]) == p + Split(t, sep)[0];
    } else {
      assert p + t == t;
      assert p + Split(t, sep)[0] == Split(t, sep)[0];
      assert [Split(t, sep)[0]] + Split(t, sep)[1..] == Split(t, sep);
    }
  }

  /** Text without the separator splits into itself. */
  lemma SplitWithout(s: string, sep: char)
    requires sep !in s
    ensures Split(s, sep) == [s]
  {
    SplitPrefix(s, "", sep);
    assert s + "" == s;
  }

  /** The first piece of `p + t` is `p` when `t` is empty or starts with the separator. */
  lemma SplitHead(p: string, t: string, sep: char)
    requires sep !in p
    requires t == "" || t[0] == sep
    ensures Split(p + t, sep)[0] == p
  {
    SplitPrefix(p, t, sep);
    if t == "" {
      assert Split(t, sep)[0] == "";
    } else {
      assert Split(t, sep)[0] == "";
    }
    assert p + "" == p;
  }

  /** Two separator-free pieces around one separator split into exactly those two. */
  lemma SplitPair(a: string, b: string, sep: char)
    requires sep !in a && sep !in b
    ensures Split(a + [sep] + b, sep) == [a, b]
  {
    assert Join([a, b], sep) == a + [sep] + b;
    SplitJoin([a, b], sep);
  }

  /** Splitting what was joined from separator-free pieces gives the pieces back. */
  lemma {:induction false} SplitJoin(parts: seq<string>, sep: char)
    requires |parts| >= 1
    requires forall i :: 0 <= i < |parts| ==> sep !in parts[i]
    ensures Split(Join(parts, sep), sep) == parts
  {
    if |parts| == 1 {
      SplitPrefix(parts[0], "", sep);
      assert parts[0] + "" == parts[0];
    } else {
      var rest := Join(parts[1..], sep);
      SplitJoin(parts[1..], sep);
      assert Join(parts, sep) == parts[0] + ([sep] + rest);
      SplitPrefix(parts[0], [sep] + rest, sep);
      assert ([sep] + rest)[1..] == rest;
      assert Split([sep] + rest, sep) == [""] + parts[1..];
      assert parts[0] + "" == parts[0];
    }
  }

  predicate IsDigit(c: char) {
    '0' <= c <= '9'
  }

  function DigitValue(c: char): (d: nat)
    requires IsDigit(c)
    ensures d < 10
  {
    (c as int) - ('0' as int)
  }

  function DigitChar(d: nat): (c: char)
    requires d < 10
    ensures IsDigit(c) && DigitValue(c) == d
  {
    ((d + '0' as int) as char)
  }

  /** The digit groups Python's `int` accepts: `[0-9](_?[0-9])*`. */
  predicate WellFormedDigits(s: string) {
    && |s| > 0 && IsDigit(s[0]) && IsDigit(s[|s| - 1])
    && forall i :: 0 <= i < |s| ==> IsDigit(s[i]) || (s[i] == '_' && i + 1 < |s| && IsDigit(s[i + 1]))
  }

  lemma DigitsOfWellFormed(s: string)
    requires WellFormedDigits(s)
    ensures forall i :: 0 <= i < |DropUnderscores(s)| ==> IsDigit(DropUnderscores(s)[i])
  {
    forall i | 0 <= i < |s| ensures IsDigit(s[i]) || s[i] == '_' {
      assert IsDigit(s[i]) || (s[i] == '_' && i + 1 < |s| && IsDigit(s[i + 1]));
    }
  }

  /** The digits of `s` with the underscores removed. */
  function DropUnderscores(s: string): (r: string)
    ensures (forall i :: 0 <= i < |s| ==> IsDigit(s[i]) || s[i] == '_')
            ==> forall i :: 0 <= i < |r| ==> IsDigit(r[i])
  {
    if |s| == 0 then ""
    else (if s[0] == '_' then "" else [s[0]]) + DropUnderscores(s[1..])
  }

  /** The value of a string of decimal digits, most significant first. */
  function DecimalValue(s: string): nat
    requires forall i :: 0 <= i < |s| ==> IsDigit(s[i])
  {
    if |s| == 0 then 0 else DecimalValue(s[..|s| - 1]) * 10 + DigitValue(s[|s| - 1])
  }

  /** `int(text)` in base 10: surrounding white space, an optional sign, then digit groups;
      anything else raises, here `None`. */
  function ParseInt(text: string): Option<int> {
    var t := Trim(text);
    var negative := |t| > 0 && t[0] == '-';
    var body := if |t| > 0 && (t[0] == '-' || t[0] == '+') then t[1..] else t;
    if WellFormedDigits(body) then
      var digits := DropUnderscores(body);
      DigitsOfWellFormed(body);
      var v: int := DecimalValue(digits);
      Some(if negative then -v else v)
    else None
  }

  /** `str(n)` for a natural number. */
  function ShowNat(n: nat): (s: string)
    ensures |s| > 0 && forall i :: 0 <= i < |s| ==> IsDigit(s[i])
  {
    if n < 10 then [DigitChar(n)] else ShowNat(n / 10) + [DigitChar(n % 10)]
  }

  /** `str(n)` for an integer. */
  function ShowInt(n: int): (s: string)
    ensures |s| > 0 && forall i :: 0 <= i < |s| ==> IsDigit(s[i]) || (i == 0 && s[i] == '-')
  {
    if n < 0 then "-" + ShowNat(-n) else ShowNat(n)
  }

  lemma {:induction false} DecimalValueOfShowNat(n: nat)
    ensures DecimalValue(ShowNat(n)) == n
  {
    if n >= 10 {
      var s := ShowNat(n);
      assert s[..|s| - 1] == ShowNat(n / 10);
      DecimalValueOfShowNat(n / 10);
    }
  }

  lemma DropUnderscoresOfDigits(s: string)
    requires forall i :: 0 <= i < |s| ==> IsDigit(s[i])
    ensures DropUnderscores(s) == s
  {
    if |s| > 0 {
      DropUnderscoresOfDigits(s[1..]);
    }
  }

  /** A plain run of decimal digits parses to its value. */
  lemma ParseDigits(s: string)
    requires |s| > 0 && forall i :: 0 <= i < |s| ==> IsDigit(s[i])
    ensures ParseInt(s) == Some(DecimalValue(s))
  {
    assert IsDigit(s[0]) && IsDigit(s[|s| - 1]);
    assert IsTrimmed(s) by {
      assert !IsSpace(s[0]) && !IsSpace(s[|s| - 1]);
    }
    TrimOfTrimmed(s);
    assert !(s[0] == '-' || s[0] == '+');
    assert WellFormedDigits(s);
    DropUnderscoresOfDigits(s);
  }

  /** `int(str(n)) == n`: the decimal text of an integer parses back to it. */
  lemma ParseShowInt(n: int)
    ensures ParseInt(ShowInt(n)) == Some(n)
  {
    var s := ShowInt(n);
    var m: nat := if n < 0 then -n else n;
    var body := ShowNat(m);
    assert IsTrimmed(s) by {
      assert !IsSpace(s[0]) && !IsSpace(s[|s| - 1]);
    }
    TrimOfTrimmed(s);
    assert (if |s| > 0 && (s[0] == '-' || s[0] == '+') then s[1..] else s) == body by {
      if n < 0 { assert s[1..] == body; }
    }
    assert WellFormedDigits(body);
    DropUnderscoresOfDigits(body);
    DecimalValueOfShowNat(m);
  }

  /** The decimal text of an integer holds no comma, so it survives a comma split. */
  lemma ShowIntHasNo(n: int, c: char)
    requires c != '-' && !IsDigit(c)
    ensures c !in ShowInt(n)
  {
  }
}
