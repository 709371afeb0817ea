/**
 * Python 2's `int(s)` on a string, as used for the database port: optional white space, an
 * optional sign, optional white space, one or more decimal digits, optional white space.
 */
module IntParse {

  import opened Wrappers
  import opened Digits

  /** The characters C's `isspace` accepts. */
  predicate IsSpace(c: char) {
    c == ' ' || c == '\t' || c == '\n' || c == '\r' || c == '\U{0B}' || c == '\U{0C}'
  }

  predicate AllDigits(s: string) {
    forall i :: 0 <= i < |s| ==> IsDigit(s[i])
  }

  function TrimLeft(s: string): (t: string)
    ensures |t| <= |s|
    ensures t == [] || !IsSpace(t[0])
  {
    if s != [] && IsSpace(s[0]) then TrimLeft(s[1..]) else s
  }

  function TrimRight(s: string): (t: string)
    ensures |t| <= |s|
    ensures t == [] || !IsSpace(t[|t| - 1])
  {
    if s != [] && IsSpace(s[|s| - 1]) then TrimRight(s[..|s| - 1]) else s
  }

  /** The value of a string of decimal digits, most significant first. */
  function DigitsValue(s: string): nat
    requires AllDigits(s)
  {
    if s == [] then 0 else 10 * DigitsValue(s[..|s| - 1]) + DigitValue(s[|s| - 1])
  }

  /** A run of one or more decimal digits and its value. */
  function Unsigned(s: string): Option<nat> {
    if s != [] && AllDigits(s) then Some(DigitsValue(s)) else None
  }

  /** `int(s)`; `None` stands for the `ValueError` it raises. */
  function ParseInt(s: string): Option<int> {
    ParseTrimmed(TrimRight(TrimLeft(s)))
  }

  /** `int` on a string with no white space at either end. */
  function ParseTrimmed(t: string): Option<int> {
    if t != [] && (t[0] == '+' || t[0] == '-') then
      match Unsigned(TrimLeft(t[1..]))
      case None => None
      case Some(magnitude) => Some(if t[0] == '-' then -(magnitude as int) else magnitude)
    else
      match Unsigned(t)
      case None => None
      case Some(magnitude) => Some(magnitude)
  }

  /** `str(n)` for a natural number. */
  function Decimal(n: nat): (s: string)
    ensures s != [] && AllDigits(s)
  {
    var last := ['0' + (n % 10) as char];
    if n < 10 then last else Decimal(n / 10) + last
  }

  lemma {:induction false} DecimalValue(n: nat)
    ensures DigitsValue(Decimal(n)) == n
  {
    var s := Decimal(n);
    if n >= 10 {
      assert s[..|s| - 1] == Decimal(n / 10);
      DecimalValue(n / 10);
    } else {
      assert s[..|s| - 1] == [];
    }
  }

  /** A string that starts and ends with a non-space character is left alone by the trims. */
  lemma TrimsKeep(s: string)
    requires s != [] && !IsSpace(s[0]) && !IsSpace(s[|s| - 1])
    ensures TrimLeft(s) == s && TrimRight(s) == s
  {
  }

  /** `int(str(n)) == n`, with or without a sign in front. */
  lemma ParseDecimal(n: nat)
    ensures ParseInt(Decimal(n)) == Some(n)
    ensures ParseInt("-" + Decimal(n)) == Some(-(n as int))
    ensures ParseInt("+" + Decimal(n)) == Some(n)
  {
    DecimalValue(n);
    ParseDigits(Decimal(n));
    ParseSigned('-', Decimal(n));
    ParseSigned('+', Decimal(n));
  }

  lemma ParseDigits(s: string)
    requires s != [] && AllDigits(s)
    ensures ParseInt(s) == Some(DigitsValue(s))
  {
    assert IsDigit(s[0]) && IsDigit(s[|s| - 1]);
    TrimsKeep(s);
  }

  lemma ParseSigned(sign: char, s: string)
    requires sign == '-' || sign == '+'
    requires s != [] && AllDigits(s)
    ensures ParseInt([sign] + s) == Some(if sign == '-' then -(DigitsValue(s) as int) else DigitsValue(s))
  {
    SignedKeepsTrims(sign, s);
    ParseSignedTrimmed(sign, s);
  }

  lemma SignedKeepsTrims(sign: char, s: string)
    requires sign == '-' || sign == '+'
    requires s != [] && AllDigits(s)
    ensures TrimRight(TrimLeft([sign] + s)) == [sign] + s
  {
    var t := [sign] + s;
    assert IsDigit(s[|s| - 1]) && t[|t| - 1] == s[|s| - 1];
    TrimsKeep(t);
  }

  lemma ParseSignedTrimmed(sign: char, s: string)
    requires sign == '-' || sign == '+'
    requires s != [] && AllDigits(s)
    ensures ParseTrimmed([sign] + s)
            == Some(if sign == '-' then -(DigitsValue(s) as int) else DigitsValue(s))
  {
    var t := [sign] + s;
    assert TrimLeft(t[1..]) == s by {
      assert t[1..] == s && IsDigit(s[0]) && IsDigit(s[|s| - 1]);
      TrimsKeep(s);
    }
  }

  predicate AllSpace(s: string) {
    forall i :: 0 <= i < |s| ==> IsSpace(s[i])
  }

  /** Leading white space is dropped up to the first other character. */
  lemma {:induction false} TrimLeftSpaces(a: string, t: string)
    requires AllSpace(a) && (t == [] || !IsSpace(t[0]))
    ensures TrimLeft(a + t) == t
    decreases |a|
  {
    if a == [] {
      assert a + t == t;
    } else {
      assert (a + t)[0] == a[0];
      assert (a + t)[1..] == a[1..] + t;
      TrimLeftSpaces(a[1..], t);
    }
  }

  /** Trailing white space is dropped back to the last other character. */
  lemma {:induction false} TrimRightSpaces(t: string, b: string)
    requires AllSpace(b) && (t == [] || !IsSpace(t[|t| - 1]))
    ensures TrimRight(t + b) == t
    decreases |b|
  {
    if b == [] {
      assert t + b == t;
    } else {
      var u := t + b;
      assert u[|u| - 1] == b[|b| - 1];
      assert u[..|u| - 1] == t + b[..|b| - 1];
      TrimRightSpaces(t, b[..|b| - 1]);
    }
  }

  /** `TrimLeft` removes a run of white space from the front and nothing else. */
  lemma {:induction false} TrimLeftSuffix(s: string) returns (n: nat)
    ensures n <= |s| && TrimLeft(s) == s[n..]
    ensures forall i :: 0 <= i < n ==> IsSpace(s[i])
    decreases |s|
  {
    if s != [] && IsSpace(s[0]) {
      var n' := TrimLeftSuffix(s[1..]);
      n := n' + 1;
      assert s[1..][n'..] == s[n..];
      forall i | 0 <= i < n ensures IsSpace(s[i]) {
        if i > 0 {
          assert s[i] == s[1..][i - 1];
        }
      }
    } else {
      n := 0;
    }
  }

  /** `TrimRight` removes a run of white space from the back and nothing else. */
  lemma {:induction false} TrimRightPrefix(s: string) returns (n: nat)
    ensures n <= |s| && TrimRight(s) == s[..n]
    ensures forall i :: n <= i < |s| ==> IsSpace(s[i])
    decreases |s|
  {
    if s != [] && IsSpace(s[|s| - 1]) {
      var p := s[..|s| - 1];
      n := TrimRightPrefix(p);
      assert p[..n] == s[..n];
      forall i | n <= i < |s| ensures IsSpace(s[i]) {
        if i < |s| - 1 {
          assert s[i] == p[i];
        }
      }
    } else {
      n := |s|;
    }
  }

  /** White space before and after the digits is accepted. */
  lemma ParseAcceptsSurroundingSpace(a: string, s: string, b: string)
    requires AllSpace(a) && AllSpace(b) && s != [] && AllDigits(s)
    ensures ParseInt(a + s + b) == Some(DigitsValue(s))
  {
    assert IsDigit(s[0]) && IsDigit(s[|s| - 1]);
    assert a + s + b == a + (s + b);
    assert (s + b)[0] == s[0];
    TrimLeftSpaces(a, s + b);
    TrimRightSpaces(s, b);
  }

  /** So is white space between the sign and the digits. */
  lemma ParseAcceptsSpaceAfterSign(a: string, sign: char, m: string, s: string, b: string)
    requires sign == '-' || sign == '+'
    requires AllSpace(a) && AllSpace(m) && AllSpace(b) && s != [] && AllDigits(s)
    ensures ParseInt(a + [sign] + m + s + b)
            == Some(if sign == '-' then -(DigitsValue(s) as int) else DigitsValue(s))
  {
    var t := [sign] + m + s;
    assert a + [sign] + m + s + b == a + (t + b);
    assert (t + b)[0] == sign;
    TrimLeftSpaces(a, t + b);
    assert IsDigit(s[|s| - 1]) && t[|t| - 1] == s[|s| - 1];
    TrimRightSpaces(t, b);
    SignedTail(sign, m, s);
  }

  lemma SignedTail(sign: char, m: string, s: string)
    requires sign == '-' || sign == '+'
    requires AllSpace(m) && s != [] && AllDigits(s)
    ensures ParseTrimmed([sign] + m + s)
            == Some(if sign == '-' then -(DigitsValue(s) as int) else DigitsValue(s))
  {
    var t := [sign] + m + s;
    assert t[1..] == m + s;
    assert IsDigit(s[0]);
    TrimLeftSpaces(m, s);
  }

  /** A sign with no digits after it is rejected, whatever white space surrounds it. */
  lemma ParseRejectsBareSign(a: string, sign: char, b: string)
    requires sign == '-' || sign == '+'
    requires AllSpace(a) && AllSpace(b)
    ensures ParseInt(a + [sign] + b) == None
  {
    assert a + [sign] + b == a + ([sign] + b);
    assert ([sign] + b)[0] == sign;
    TrimLeftSpaces(a, [sign] + b);
    TrimRightSpaces([sign], b);
    assert [sign][1..] == [];
  }

  /** A string of white space alone, the empty string included, is rejected. */
  lemma ParseRejectsBlank(a: string)
    requires AllSpace(a)
    ensures ParseInt(a) == None
  {
    assert a + [] == a;
    TrimLeftSpaces(a, []);
  }

  /** A character anywhere in the string that is neither white space, a sign nor a digit makes it
      rejected. */
  lemma ParseRejectsStrayCharacter(s: string, i: nat)
    requires i < |s| && !IsSpace(s[i]) && !IsDigit(s[i]) && s[i] != '+' && s[i] != '-'
    ensures ParseInt(s) == None
  {
    var l := TrimLeftSuffix(s);
    var u := s[l..];
    var r := TrimRightPrefix(u);
    assert l <= i;
    assert u[i - l] == s[i];
    assert i - l < r;
    assert u[..r][i - l] == s[i];
    StrayCharacterRejected(u[..r], i - l);
  }

  lemma StrayCharacterRejected(t: string, j: nat)
    requires j < |t| && !IsSpace(t[j]) && !IsDigit(t[j]) && t[j] != '+' && t[j] != '-'
    ensures ParseTrimmed(t) == None
  {
    if t[0] == '+' || t[0] == '-' {
      assert j >= 1;
      var n := TrimLeftSuffix(t[1..]);
      assert t[1..][j - 1] == t[j];
      assert n <= j - 1;
      assert t[1..][n..][j - 1 - n] == t[j];
    } else {
      assert !IsDigit(t[j]);
    }
  }
}
