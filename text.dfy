/**
 * The few string operations of Python the agenda relies on: `str.strip`,
 * ASCII case mapping, `str.split` on one character, `str.replace` of one
 * character, `int(s)` on text and `str(n)` on integers.
 */
module Text {
  import opened Wrappers

  /** Python's `str.isspace`, the set `str.strip()` and `int()` skip. */
  predicate IsSpace(c: char) {
    var n := c as int;
    (9 <= n <= 13) || (28 <= n <= 32) || n == 0x85 || n == 0xA0 || n == 0x1680
    || (0x2000 <= n <= 0x200A) || n == 0x2028 || n == 0x2029 || n == 0x202F
    || n == 0x205F || n == 0x3000
  }

  predicate IsDigit(c: char) {
    '0' <= c <= '9'
  }

  function StripLeft(s: string): (r: string)
    ensures |r| <= |s| && r == s[|s| - |r|..]
    ensures |r| > 0 ==> !IsSpace(r[0])
  {
    if |s| > 0 && IsSpace(s[0]) then StripLeft(s[1..]) else s
  }

  function StripRight(s: string): (r: string)
    ensures |r| <= |s| && r == s[..|r|]
    ensures |r| > 0 ==> !IsSpace(r[|r| - 1])
  {
    if |s| > 0 && IsSpace(s[|s| - 1]) then StripRight(s[..|s| - 1]) else s
  }

  /** What `StripLeft` drops is whitespace. */
  lemma {:induction false} StripLeftDropsSpace(s: string)
    ensures forall i :: 0 <= i < |s| - |StripLeft(s)| ==> IsSpace(s[i])
  {
    if |s| > 0 && IsSpace(s[0]) {
      StripLeftDropsSpace(s[1..]);
    }
  }

  /** What `StripRight` drops is whitespace. */
  lemma {:induction false} StripRightDropsSpace(s: string)
    ensures forall i :: |StripRight(s)| <= i < |s| ==> IsSpace(s[i])
  {
    if |s| > 0 && IsSpace(s[|s| - 1]) {
      StripRightDropsSpace(s[..|s| - 1]);
    }
  }

  /** `s.strip()`: the text between the leading and the trailing whitespace. */
  function Strip(s: string): (r: string)
    ensures |r| > 0 ==> !IsSpace(r[0]) && !IsSpace(r[|r| - 1])
    ensures |r| <= |s|
  {
    StripRight(StripLeft(s))
  }

  /**
   * What `Strip` keeps is the piece of s from `|s| - |StripLeft(s)|` on,
   * with only whitespace on either side of it.
   */
  lemma StripPiece(s: string)
    ensures |s| - |StripLeft(s)| + |Strip(s)| <= |s|
    ensures forall i :: 0 <= i < |Strip(s)| ==> Strip(s)[i] == s[|s| - |StripLeft(s)| + i]
    ensures forall i :: 0 <= i < |s| - |StripLeft(s)| ==> IsSpace(s[i])
    ensures forall i :: |s| - |StripLeft(s)| + |Strip(s)| <= i < |s| ==> IsSpace(s[i])
  {
    var l := StripLeft(s);
    assert Strip(s) == StripRight(l);
    StripLeftDropsSpace(s);
    StripRightDropsSpace(l);
    SuffixPiece(s, l, |s| - |l|, Strip(s));
  }

  /** A prefix r of the suffix l of s from a on, followed in l by whitespace only, is a piece of s followed by whitespace. */
  lemma SuffixPiece(s: string, l: string, a: int, r: string)
    requires 0 <= a <= |s| && l == s[a..] && |r| <= |l| && r == l[..|r|]
    requires forall i :: |r| <= i < |l| ==> IsSpace(l[i])
    ensures a + |r| <= |s| && forall i :: 0 <= i < |r| ==> r[i] == s[a + i]
    ensures forall i :: a + |r| <= i < |s| ==> IsSpace(s[i])
  {
    forall i | a + |r| <= i < |s|
      ensures IsSpace(s[i])
    {
      assert s[i] == l[i - a];
    }
  }

  function LowerChar(c: char): char {
    if 'A' <= c <= 'Z' then (c as int + 32) as char else c
  }

  function UpperChar(c: char): char {
    if 'a' <= c <= 'z' then (c as int - 32) as char else c
  }

  /** `s.lower()` on ASCII letters; other characters are kept. */
  function Lower(s: string): (r: string)
    ensures |r| == |s| && forall i :: 0 <= i < |s| ==> r[i] == LowerChar(s[i])
  {
    seq(|s|, i requires 0 <= i < |s| => LowerChar(s[i]))
  }

  /** `s.upper()` on ASCII letters; other characters are kept. */
  function Upper(s: string): (r: string)
    ensures |r| == |s| && forall i :: 0 <= i < |s| ==> r[i] == UpperChar(s[i])
  {
    seq(|s|, i requires 0 <= i < |s| => UpperChar(s[i]))
  }

  /** `s.replace(a, b)` for single characters. */
  function ReplaceChar(s: string, a: char, b: char): (r: string)
    ensures |r| == |s|
    ensures forall i :: 0 <= i < |s| ==> r[i] == if s[i] == a then b else s[i]
  {
    seq(|s|, i requires 0 <= i < |s| => if s[i] == a then b else s[i])
  }

  /** Python's `sep.join(parts)`. */
  function Join(parts: seq<string>, sep: string): (r: string)
    ensures |parts| == 1 ==> r == parts[0]
  {
    if |parts| == 0 then ""
    else if |parts| == 1 then parts[0]
    else parts[0] + sep + Join(parts[1..], sep)
  }

  /** `s.split(sep)` for a one-character separator: always at least one piece. */
  function Split(s: string, sep: char): (r: seq<string>)
    ensures |r| >= 1
    ensures forall p :: p in r ==> sep !in p
    decreases |s|
  {
    if sep !in s then [s]
    else
      var i := IndexOf(s, sep);
      [s[..i]] + Split(s[i + 1..], sep)
  }

  /** Joining the pieces of `s.split(sep)` with sep gives s back. */
  lemma {:induction false} JoinSplit(s: string, sep: char)
    ensures Join(Split(s, sep), [sep]) == s
    decreases |s|
  {
    if sep in s {
      var i := IndexOf(s, sep);
      var rest := Split(s[i + 1..], sep);
      JoinSplit(s[i + 1..], sep);
      assert Split(s, sep) == [s[..i]] + rest;
      assert ([s[..i]] + rest)[1..] == rest;
      assert s == s[..i] + [sep] + s[i + 1..];
    }
  }

  function IndexOf(s: string, c: char): (i: nat)
    requires c in s
    ensures i < |s| && s[i] == c && c !in s[..i]
  {
    if s[0] == c then 0 else 1 + IndexOf(s[1..], c)
  }

  /** The first appearance of c is where it occurs with no c before it. */
  lemma {:induction false} IndexOfAt(s: string, c: char, i: nat)
    requires i < |s| && s[i] == c && c !in s[..i]
    ensures IndexOf(s, c) == i
  {
    if i > 0 {
      assert s[0] == s[..i][0];
      assert s[1..][..i - 1] == s[..i][1..];
      IndexOfAt(s[1..], c, i - 1);
    }
  }

  function DigitsValue(s: string): nat
    requires forall i :: 0 <= i < |s| ==> IsDigit(s[i])
  {
    if |s| == 0 then 0
    else
      assert IsDigit(s[|s| - 1]);
      DigitsValue(s[..|s| - 1]) * 10 + (s[|s| - 1] as int - '0' as int)
  }

  predicate AllDigits(s: string) {
    forall i :: 0 <= i < |s| ==> IsDigit(s[i])
  }

  /**
   * `int(s)` on a string: optional surrounding whitespace, an optional sign,
   * then one or more decimal digits. None stands for the ValueError.
   */
  function ParseInt(s: string): (r: Option<int>)
    ensures r.Some? ==> |Strip(s)| > 0
  {
    ParseSigned(Strip(s))
  }

  /** An optional sign, then one or more decimal digits. */
  function ParseSigned(t: string): (r: Option<int>)
    ensures r.Some? ==> |t| > 0
  {
    var neg := |t| > 0 && t[0] == '-';
    var body := if |t| > 0 && (t[0] == '-' || t[0] == '+') then t[1..] else t;
    if |body| > 0 && AllDigits(body) then
      var v: int := DigitsValue(body);
      Some(if neg then -v else v)
    else None
  }

  function DigitChar(d: int): (c: char)
    requires 0 <= d < 10
    ensures IsDigit(c) && c as int - '0' as int == d
  {
    ('0' as int + d) as char
  }

  /** `str(n)` for n >= 0. */
  function NatString(n: nat): (r: string)
    ensures |r| > 0 && AllDigits(r)
    ensures DigitsValue(r) == n
  {
    if n < 10 then [DigitChar(n)]
    else
      var r := NatString(n / 10) + [DigitChar(n % 10)];
      assert r[..|r| - 1] == NatString(n / 10);
      r
  }

  /** A number below 100 has at most two digits. */
  lemma NatStringShort(n: nat)
    requires n < 100
    ensures |NatString(n)| <= 2
  {
    if n >= 10 {
      assert |NatString(n / 10)| == 1;
    }
  }

  /** The first digit of a positive number is not 0. */
  lemma {:induction false} NatStringLead(n: nat)
    requires n > 0
    ensures NatString(n)[0] != '0'
  {
    if n >= 10 {
      NatStringLead(n / 10);
      assert NatString(n)[0] == NatString(n / 10)[0];
    }
  }

  /** A digit string of at most two characters is at most 99. */
  lemma DigitsValueShort(s: string)
    requires AllDigits(s) && |s| <= 2
    ensures DigitsValue(s) <= 99
  {
    if |s| == 2 {
      assert DigitsValue(s[..1]) <= 9;
    }
  }

  /** `str(n)`. */
  function IntString(n: int): (r: string)
    ensures |r| > 0
  {
    if n < 0 then "-" + NatString(-n) else NatString(n)
  }

  lemma NoSpaceStrip(s: string)
    requires |s| > 0 && !IsSpace(s[0]) && !IsSpace(s[|s| - 1])
    ensures Strip(s) == s
  {
  }

  lemma DigitNotSpace(c: char)
    requires IsDigit(c)
    ensures !IsSpace(c) && c != '-' && c != '+'
  {
  }

  /** Text without surrounding whitespace goes to the sign-and-digits reading unchanged. */
  lemma ParseIntNoSpace(s: string)
    requires |s| > 0 && !IsSpace(s[0]) && !IsSpace(s[|s| - 1])
    ensures ParseInt(s) == ParseSigned(s)
  {
    NoSpaceStrip(s);
  }

  lemma SignedDigits(t: string)
    requires |t| > 0 && t[0] != '-' && t[0] != '+' && AllDigits(t)
    ensures ParseSigned(t) == Some(DigitsValue(t) as int)
  {
  }

  lemma SignedNeg(s: string, body: string)
    requires |s| > 1 && s[0] == '-' && s[1..] == body && AllDigits(body)
    ensures ParseSigned(s) == Some(-(DigitsValue(body) as int))
  {
  }

  /** `int` of a digit string. */
  lemma ParseDigits(body: string)
    requires |body| > 0 && AllDigits(body)
    ensures ParseInt(body) == Some(DigitsValue(body) as int)
  {
    DigitNotSpace(body[0]);
    DigitNotSpace(body[|body| - 1]);
    ParseIntNoSpace(body);
    SignedDigits(body);
  }

  /** `int` of a minus sign followed by a digit string. */
  lemma ParseNegDigits(s: string, body: string)
    requires |s| > 1 && s[0] == '-' && s[1..] == body && AllDigits(body)
    ensures ParseInt(s) == Some(-(DigitsValue(body) as int))
  {
    assert s[|s| - 1] == body[|body| - 1];
    DigitNotSpace(body[|body| - 1]);
    ParseIntNoSpace(s);
    SignedNeg(s, body);
  }

  /** `int(str(n)) == n`. */
  lemma ParseIntString(n: int)
    ensures ParseInt(IntString(n)) == Some(n)
  {
    var s := IntString(n);
    if n < 0 {
      var digits := NatString(-n);
      assert |s| > 1 && s[0] == '-' && s[1..] == digits;
      ParseNegDigits(s, digits);
    } else {
      ParseDigits(s);
    }
  }

  function Zeros(k: nat): (r: string)
    ensures |r| == k && forall i :: 0 <= i < k ==> r[i] == '0'
  {
    if k == 0 then "" else Zeros(k - 1) + "0"
  }

  /** n in decimal, with zeros in front up to width characters. */
  function PadDigits(n: nat, width: nat): (r: string)
    ensures |r| >= width
  {
    var digits := NatString(n);
    Zeros(if |digits| < width then width - |digits| else 0) + digits
  }

  /** The digits' width after a minus sign takes one of pad's characters. */
  function NegWidth(pad: nat): nat {
    if pad > 0 then pad - 1 else 0
  }

  /** `'{:0<pad>d}'.format(v)`: at least pad characters, zeros after any sign. */
  function Padded(v: int, pad: nat): (r: string)
    ensures |r| >= pad
  {
    if v < 0 then ['-'] + PadDigits(-v, NegWidth(pad)) else PadDigits(v, pad)
  }

  /** Leading zeros do not change a digit string's value. */
  lemma {:induction false} ZerosValue(k: nat, s: string)
    requires AllDigits(s)
    ensures AllDigits(Zeros(k) + s) && DigitsValue(Zeros(k) + s) == DigitsValue(s)
    decreases |s|
  {
    var z := Zeros(k) + s;
    if |s| == 0 {
      assert z == Zeros(k);
      AllZerosValue(k);
    } else {
      assert z[..|z| - 1] == Zeros(k) + s[..|s| - 1];
      ZerosValue(k, s[..|s| - 1]);
    }
  }

  lemma {:induction false} AllZerosValue(k: nat)
    ensures AllDigits(Zeros(k)) && DigitsValue(Zeros(k)) == 0
  {
    if k > 0 {
      assert Zeros(k)[..k - 1] == Zeros(k - 1);
      AllZerosValue(k - 1);
    }
  }

  /** A padded number is all digits and has the number's value. */
  lemma PadDigitsValue(n: nat, width: nat)
    ensures |PadDigits(n, width)| > 0 && AllDigits(PadDigits(n, width))
    ensures DigitsValue(PadDigits(n, width)) == n
  {
    var digits := NatString(n);
    ZerosValue(if |digits| < width then width - |digits| else 0, digits);
  }

  /** `int` reads back the number a padded field shows. */
  lemma ParsePadded(v: int, pad: nat)
    ensures ParseInt(Padded(v, pad)) == Some(v)
  {
    if v < 0 {
      ParsePaddedNeg(v, pad);
    } else {
      ParsePaddedNat(v, pad);
    }
  }

  lemma ParsePaddedNat(v: nat, pad: nat)
    ensures ParseInt(Padded(v, pad)) == Some(v)
  {
    var body := PadDigits(v, pad);
    PadDigitsValue(v, pad);
    ParseDigits(body);
    assert Padded(v, pad) == body;
  }

  lemma ParsePaddedNeg(v: int, pad: nat)
    requires v < 0
    ensures ParseInt(Padded(v, pad)) == Some(v)
  {
    var body := PadDigits(-v, NegWidth(pad));
    var s := Padded(v, pad);
    PadDigitsValue(-v, NegWidth(pad));
    assert |s| > 1 && s[0] == '-' && s[1..] == body by {
      assert s == ['-'] + body;
    }
    assert DigitsValue(body) == -v;
    ParseNegDigits(s, body);
    assert ParseInt(s) == Some(v);
  }



}
