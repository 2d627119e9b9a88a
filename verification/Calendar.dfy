/** The texts that SQLite's `date` and `datetime` write, and their order. The expiry of the table compares
    the one with the other. */
module Calendar {
  import opened Text

  datatype Date = Date(y: nat, m: nat, d: nat)

  predicate Leap(y: nat) {
    y % 4 == 0 && (y % 100 != 0 || y % 400 == 0)
  }

  function DaysIn(y: nat, m: nat): nat {
    if m == 2 then (if Leap(y) then 29 else 28)
    else if m == 4 || m == 6 || m == 9 || m == 11 then 30
    else 31
  }

  predicate Valid(x: Date) {
    1 <= x.m <= 12 && 1 <= x.d <= DaysIn(x.y, x.m)
  }

  function NextDay(x: Date): Date {
    if x.d < DaysIn(x.y, x.m) then Date(x.y, x.m, x.d + 1)
    else if x.m < 12 then Date(x.y, x.m + 1, 1)
    else Date(x.y + 1, 1, 1)
  }

  /** The date of a day after 1 January 1970. */
  function DateOf(day: nat): (x: Date)
    ensures Valid(x)
  {
    if day == 0 then Date(1970, 1, 1) else NextDay(DateOf(day - 1))
  }

  predicate Earlier(x: Date, y: Date) {
    x.y < y.y || (x.y == y.y && (x.m < y.m || (x.m == y.m && x.d < y.d)))
  }

  /** Days in order are dates in order. */
  lemma {:induction false} DatesRise(a: nat, b: nat)
    requires a < b
    ensures Earlier(DateOf(a), DateOf(b))
    decreases b
  {
    if a < b - 1 {
      DatesRise(a, b - 1);
    }
  }

  lemma DateOrder(a: nat, b: nat)
    ensures Earlier(DateOf(a), DateOf(b)) <==> a < b
    ensures DateOf(a) == DateOf(b) <==> a == b
  {
    if a < b {
      DatesRise(a, b);
    } else if b < a {
      DatesRise(b, a);
    }
  }

  // ---------- texts

  /** n in w digits, with leading zeros. */
  function Pad(n: nat, w: nat): (s: string)
    ensures |s| == w
    decreases w
  {
    if w == 0 then [] else Pad(n / 10, w - 1) + [Digit(n % 10)]
  }

  function Ten(w: nat): (p: nat)
    ensures p >= 1
  {
    if w == 0 then 1 else 10 * Ten(w - 1)
  }

  /** The order of text values in SQLite. */
  predicate TextLeq(x: string, y: string) {
    x == [] || (y != [] && (x[0] < y[0] || (x[0] == y[0] && TextLeq(x[1..], y[1..]))))
  }

  /** Of two texts with fronts of one width the fronts decide, unless they are the same. */
  lemma {:induction false} FrontsDecide(x: string, u: string, y: string, v: string)
    requires |x| == |y|
    ensures TextLeq(x + u, y + v) <==> if x == y then TextLeq(u, v) else TextLeq(x, y)
  {
    if x == [] {
      assert x + u == u && y + v == v;
    } else {
      assert (x + u)[1..] == x[1..] + u && (y + v)[1..] == y[1..] + v;
      FrontsDecide(x[1..], u, y[1..], v);
      assert x == y <==> x[0] == y[0] && x[1..] == y[1..];
    }
  }

  lemma LastDigit(a: nat, b: nat)
    requires a < 10 && b < 10
    ensures TextLeq([Digit(a)], [Digit(b)]) <==> a <= b
    ensures [Digit(a)] == [Digit(b)] <==> a == b
  {
    assert [Digit(a)][1..] == [] && [Digit(b)][1..] == [];
  }

  lemma {:induction false} PadOrder(m: nat, n: nat, w: nat)
    requires m < Ten(w) && n < Ten(w)
    ensures TextLeq(Pad(m, w), Pad(n, w)) <==> m <= n
    ensures Pad(m, w) == Pad(n, w) <==> m == n
    decreases w
  {
    hide TextLeq, Digit;
    if w == 0 {
      assert TextLeq([], []) by { LeqEmpty(); }
    } else {
      PadOrder(m / 10, n / 10, w - 1);
      FrontsDecide(Pad(m / 10, w - 1), [Digit(m % 10)], Pad(n / 10, w - 1), [Digit(n % 10)]);
      LastDigit(m % 10, n % 10);
      Ends(Pad(m / 10, w - 1), Digit(m % 10), Pad(n / 10, w - 1), Digit(n % 10));
      assert [Digit(m % 10)] == [Digit(n % 10)] <==> Digit(m % 10) == Digit(n % 10);
    }
  }

  lemma LeqEmpty()
    ensures TextLeq([], [])
  {
  }

  lemma Ends(x: string, a: char, y: string, b: char)
    requires |x| == |y|
    ensures x + [a] == y + [b] <==> x == y && a == b
  {
    assert (x + [a])[..|x|] == x && (y + [b])[..|y|] == y && (x + [a])[|x|] == a && (y + [b])[|y|] == b;
  }

  /** "YYYY-MM-DD" */
  function DateText(x: Date): (s: string)
    ensures |s| == 10
  {
    Pad(x.y, 4) + ("-" + (Pad(x.m, 2) + ("-" + Pad(x.d, 2))))
  }

  /** The time of day behind a date: " HH:MM:SS". */
  function TimeText(second: nat): (s: string)
    ensures |s| == 9
  {
    " " + Pad(second / 3600, 2) + ":" + Pad(second / 60 % 60, 2) + ":" + Pad(second % 60, 2)
  }

  lemma Dash(u: string, v: string)
    ensures TextLeq("-" + u, "-" + v) <==> TextLeq(u, v)
    ensures "-" + u == "-" + v <==> u == v
  {
    FrontsDecide("-", u, "-", v);
    assert ("-" + u)[1..] == u && ("-" + v)[1..] == v;
  }

  lemma SplitEqual(x: string, u: string, y: string, v: string)
    requires |x| == |y|
    ensures x + u == y + v <==> x == y && u == v
  {
    assert (x + u)[..|x|] == x && (y + v)[..|y|] == y && (x + u)[|x|..] == u && (y + v)[|y|..] == v;
  }

  /** Up to the year 9999, texts of dates are in the order of the dates. */
  lemma DateTexts(x: Date, y: Date)
    requires Valid(x) && Valid(y) && x.y <= 9999 && y.y <= 9999
    ensures TextLeq(DateText(x), DateText(y)) <==> Earlier(x, y) || x == y
    ensures DateText(x) == DateText(y) <==> x == y
  {
    hide TextLeq, Pad;
    assert Ten(2) == 100 && Ten(4) == 10000;
    PadOrder(x.y, y.y, 4);
    PadOrder(x.m, y.m, 2);
    PadOrder(x.d, y.d, 2);
    var d, d' := Pad(x.d, 2), Pad(y.d, 2);
    var m, m' := Pad(x.m, 2) + ("-" + d), Pad(y.m, 2) + ("-" + d');
    Dash(d, d');
    FrontsDecide(Pad(x.m, 2), "-" + d, Pad(y.m, 2), "-" + d');
    SplitEqual(Pad(x.m, 2), "-" + d, Pad(y.m, 2), "-" + d');
    Dash(m, m');
    FrontsDecide(Pad(x.y, 4), "-" + m, Pad(y.y, 4), "-" + m');
    SplitEqual(Pad(x.y, 4), "-" + m, Pad(y.y, 4), "-" + m');
  }

  /** A date-and-time text is at most a date text of the same width exactly when its date comes
      strictly before: the time of day never counts. */
  lemma TextExpiry(date: string, time: string, limit: string)
    requires |date| == |limit| && time != []
    ensures TextLeq(date + time, limit) <==> TextLeq(date, limit) && date != limit
  {
    assert limit + [] == limit;
    FrontsDecide(date, time, limit, []);
  }

  const DAY: int := 86400

  /** A time that SQLite writes with a year of four digits. */
  predicate InCalendar(t: int) {
    0 <= t && DateOf(t / DAY).y <= 9999
  }

  /** datetime(t) */
  function Stamp(t: nat): string {
    DateText(DateOf(t / DAY)) + TimeText(t % DAY)
  }

  /** date(t) */
  function DayStamp(t: nat): string {
    DateText(DateOf(t / DAY))
  }

  /** The stamp of t is at most the day stamp of u exactly when the day of t is before the day of u. */
  lemma StampOrder(t: int, u: int)
    requires InCalendar(t) && InCalendar(u)
    ensures TextLeq(Stamp(t), DayStamp(u)) <==> t / DAY < u / DAY
  {
    hide TextLeq, DateText, TimeText, DateOf;
    var x, y := DateOf(t / DAY), DateOf(u / DAY);
    DateTexts(x, y);
    DateOrder(t / DAY, u / DAY);
    TextExpiry(DateText(x), TimeText(t % DAY), DateText(y));
  }

}
