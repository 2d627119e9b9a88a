/** Decimal text: what printf and std::to_string write, what scanf and atoi read back. */
module Text {

  datatype Option<T> = None | Some(value: T)

  predicate IsDigit(c: char) {
    '0' <= c <= '9'
  }

  predicate AllDigits(s: string) {
    forall i :: 0 <= i < |s| ==> IsDigit(s[i])
  }

  function Digit(d: nat): (c: char)
    requires d < 10
    ensures IsDigit(c) && c as int - '0' as int == d
  {
    ('0' as int + d) as char
  }

  /** `%u`. */
  function Decimal(n: nat): (s: string)
    ensures s != [] && AllDigits(s)
  {
    if n < 10 then [Digit(n)] else Decimal(n / 10) + [Digit(n % 10)]
  }

  /** `%d`. */
  function SignedDecimal(n: int): string {
    if n < 0 then "-" + Decimal(-n) else Decimal(n)
  }

  /** The number that a run of digits denotes. */
  function Value(s: string): nat
    requires AllDigits(s)
  {
    if s == [] then 0 else
      assert IsDigit(s[|s| - 1]);
      10 * Value(s[..|s| - 1]) + (s[|s| - 1] as int - '0' as int)
  }

  lemma {:induction false} ValueOfDecimal(n: nat)
    ensures Value(Decimal(n)) == n
  {
    if n >= 10 {
      ValueOfDecimal(n / 10);
      assert Decimal(n)[..|Decimal(n)| - 1] == Decimal(n / 10);
    } else {
      assert Decimal(n)[..0] == [];
    }
  }

  lemma SignShows(n: int)
    ensures SignedDecimal(n) != []
    ensures SignedDecimal(n)[0] == '-' <==> n < 0
  {
    if n >= 0 {
      assert IsDigit(Decimal(n)[0]);
    }
  }

  lemma SignedDecimalInjective(m: int, n: int)
    requires SignedDecimal(m) == SignedDecimal(n)
    ensures m == n
  {
    SignShows(m);
    SignShows(n);
    ValueOfDecimal(if m < 0 then -m else m);
    ValueOfDecimal(if n < 0 then -n else n);
    if m < 0 {
      assert SignedDecimal(m)[1..] == Decimal(-m) && SignedDecimal(n)[1..] == Decimal(-n);
    }
  }

  /** How many characters from the start of `s` are digits. */
  function DigitRun(s: string): (n: nat)
    ensures n <= |s| && AllDigits(s[..n])
    ensures n < |s| ==> !IsDigit(s[n])
  {
    if s == [] || !IsDigit(s[0]) then 0 else
      assert s[..1 + DigitRun(s[1..])] == [s[0]] + s[1..][..DigitRun(s[1..])];
      1 + DigitRun(s[1..])
  }

  /** One `%u` conversion of scanf: the number read and the rest of the input. */
  function ScanNumber(s: string): Option<(nat, string)> {
    var n := DigitRun(s);
    if n == 0 then None else Some((Value(s[..n]), s[n..]))
  }

  /** One `%u` conversion followed by the literal character c of the format. */
  function ScanField(s: string, c: char): Option<(nat, string)> {
    match ScanNumber(s)
    case Some((v, rest)) => if rest != [] && rest[0] == c then Some((v, rest[1..])) else None
    case None => None
  }

  lemma {:induction false} DigitRunOf(s: string, rest: string)
    requires AllDigits(s) && (rest == [] || !IsDigit(rest[0]))
    ensures DigitRun(s + rest) == |s|
  {
    if s == [] {
      assert s + rest == rest;
    } else {
      assert (s + rest)[1..] == s[1..] + rest;
      DigitRunOf(s[1..], rest);
    }
  }

  /** scanf reads back the number that printf wrote, and stops right after it. */
  lemma ScanDecimal(n: nat, rest: string)
    requires rest == [] || !IsDigit(rest[0])
    ensures ScanNumber(Decimal(n) + rest) == Some((n, rest))
  {
    var d := Decimal(n);
    DigitRunOf(d, rest);
    assert (d + rest)[..|d|] == d && (d + rest)[|d|..] == rest;
    ValueOfDecimal(n);
  }

  lemma ScanDecimalField(n: nat, c: char, rest: string)
    requires !IsDigit(c)
    ensures ScanField(Decimal(n) + [c] + rest, c) == Some((n, rest))
  {
    assert Decimal(n) + [c] + rest == Decimal(n) + ([c] + rest);
    ScanDecimal(n, [c] + rest);
  }

  /** The text before the first c, and the text after it when there is one (strchr). */
  function Split(s: string, c: char): (string, Option<string>) {
    if s == [] then ([], None)
    else if s[0] == c then ([], Some(s[1..]))
    else
      var (before, after) := Split(s[1..], c);
      ([s[0]] + before, after)
  }

  lemma {:induction false} SplitAt(s: string, c: char, rest: string)
    requires c !in s
    ensures Split(s + [c] + rest, c) == (s, Some(rest))
  {
    if s != [] {
      assert (s + [c] + rest)[1..] == s[1..] + [c] + rest;
      SplitAt(s[1..], c, rest);
      assert [s[0]] + s[1..] == s;
    }
  }

  lemma {:induction false} SplitNone(s: string, c: char)
    requires c !in s
    ensures Split(s, c) == (s, None)
  {
    if s != [] {
      SplitNone(s[1..], c);
      assert [s[0]] + s[1..] == s;
    }
  }

  lemma LastMark(x: string, y: string, c: char)
    requires c !in y
    ensures (x + [c] + y)[|x|] == c
    ensures forall i :: |x| < i < |x + [c] + y| ==> (x + [c] + y)[i] != c
  {
    forall i | |x| < i < |x + [c] + y|
      ensures (x + [c] + y)[i] != c
    {
      assert (x + [c] + y)[i] == y[i - |x| - 1];
    }
  }

  /** Two texts that agree and whose parts after the last c hold no c have the same two parts. */
  lemma CutLast(x: string, x': string, y: string, y': string, c: char)
    requires c !in y && c !in y'
    requires x + [c] + y == x' + [c] + y'
    ensures x == x' && y == y'
  {
    LastMark(x, y, c);
    LastMark(x', y', c);
    var s := x + [c] + y;
    assert x == s[..|x|] && x' == s[..|x|];
    assert y == s[|x| + 1..] && y' == s[|x| + 1..];
  }

  lemma CutFirst(x: string, x': string, y: string, y': string, c: char)
    requires c !in x && c !in x'
    requires x + [c] + y == x' + [c] + y'
    ensures x == x' && y == y'
  {
    SplitAt(x, c, y);
    SplitAt(x', c, y');
  }

}
