/**
 The clock of `kernel/rtc.c`: seconds added to a calendar time, and the string it is shown as.
 */
module Clock {
  const PIT_HZ: nat := 100

  datatype Time = Time(y: nat, mon: nat, day: nat, h: nat, min: nat, sec: nat)

  predicate Leap(y: nat) {
    y % 4 == 0 && (y % 100 != 0 || y % 400 == 0)
  }

  /** `month_days`. */
  function MonthDays(y: nat, m: nat): (d: nat)
    ensures 28 <= d <= 31
  {
    if m == 2 then if Leap(y) then 29 else 28
    else if m == 4 || m == 6 || m == 9 || m == 11 then 30
    else 31
  }

  /** The twelve months, and the one that has a day more in a leap year. */
  lemma MonthTable(y: nat, m: nat)
    requires 1 <= m <= 12
    ensures MonthDays(y, m) == [31, 28, 31, 30, 31, 30, 31, 31, 30, 31, 30, 31][m - 1] + if m == 2 && Leap(y) then 1 else 0
  {
  }

  predicate Valid(t: Time) {
    1 <= t.mon <= 12 && 1 <= t.day <= MonthDays(t.y, t.mon) && t.h < 24 && t.min < 60 && t.sec < 60
  }

  // ----- the reference: days and seconds since the year 0 -----

  /** The days before month `m` of year `y`. */
  function DaysBefore(y: nat, m: nat): nat
    requires 1 <= m <= 13
    decreases y, m
  {
    if m > 1 then DaysBefore(y, m - 1) + MonthDays(y, m - 1)
    else if y == 0 then 0
    else DaysBefore(y - 1, 13)
  }

  function DayNumber(t: Time): nat
    requires 1 <= t.mon <= 12 && t.day >= 1
  {
    DaysBefore(t.y, t.mon) + t.day - 1
  }

  function Seconds(t: Time): nat
    requires 1 <= t.mon <= 12 && t.day >= 1
  {
    ((DayNumber(t) * 24 + t.h) * 60 + t.min) * 60 + t.sec
  }

  function LeapsBefore(y: nat): int {
    (y + 3) / 4 - (y + 99) / 100 + (y + 399) / 400
  }

  lemma LeapCounts(y: nat)
    ensures LeapsBefore(y + 1) == LeapsBefore(y) + if Leap(y) then 1 else 0
  {
    Steps(y, 4);
    Steps(y, 100);
    Steps(y, 400);
    Divides(y);
  }

  lemma Divides(y: nat)
    ensures (y % 400 == 0 ==> y % 100 == 0) && (y % 100 == 0 ==> y % 4 == 0)
  {
    if y % 400 == 0 {
      assert y == 100 * (4 * (y / 400));
    }
    if y % 100 == 0 {
      assert y == 4 * (25 * (y / 100));
    }
  }

  lemma Steps(y: nat, k: nat)
    requires k == 4 || k == 100 || k == 400
    ensures (y + k) / k == (y + k - 1) / k + if y % k == 0 then 1 else 0
  {
    if k == 4 {
      StepsOf4(y / 4, y % 4);
    } else if k == 100 {
      StepsOf100(y / 100, y % 100);
    } else {
      StepsOf400(y / 400, y % 400);
    }
  }

  lemma StepsOf4(q: nat, r: nat)
    requires r < 4
    ensures (4 * q + r + 4) / 4 == q + 1 && (4 * q + r + 3) / 4 == if r == 0 then q else q + 1
  {
  }

  lemma StepsOf100(q: nat, r: nat)
    requires r < 100
    ensures (100 * q + r + 100) / 100 == q + 1 && (100 * q + r + 99) / 100 == if r == 0 then q else q + 1
  {
  }

  lemma StepsOf400(q: nat, r: nat)
    requires r < 400
    ensures (400 * q + r + 400) / 400 == q + 1 && (400 * q + r + 399) / 400 == if r == 0 then q else q + 1
  {
  }

  /** Years have the length the Gregorian rule gives them. */
  lemma {:induction false} YearStart(y: nat)
    ensures DaysBefore(y, 1) == 365 * y + LeapsBefore(y)
  {
    if y > 0 {
      YearStart(y - 1);
      YearLength(y - 1);
      LeapCounts(y - 1);
    }
  }

  lemma YearLength(y: nat)
    ensures DaysBefore(y, 13) == DaysBefore(y, 1) + if Leap(y) then 366 else 365
  {
    assert DaysBefore(y, 5) == DaysBefore(y, 1) + 31 + MonthDays(y, 2) + 31 + 30 by {
      assert DaysBefore(y, 3) == DaysBefore(y, 1) + 31 + MonthDays(y, 2);
    }
    assert DaysBefore(y, 9) == DaysBefore(y, 5) + 31 + 30 + 31 + 31 by {
      assert DaysBefore(y, 7) == DaysBefore(y, 5) + 31 + 30;
    }
    assert DaysBefore(y, 13) == DaysBefore(y, 9) + 30 + 31 + 30 + 31 by {
      assert DaysBefore(y, 11) == DaysBefore(y, 9) + 30 + 31;
    }
  }

  // ----- adding seconds -----

  /** The month after. */
  function NextMonth(y: nat, m: nat): (nat, nat) {
    if m + 1 > 12 then (y + 1, 1) else (y, m + 1)
  }

  lemma NextMonthDays(y: nat, m: nat)
    requires 1 <= m <= 12
    ensures var n := NextMonth(y, m); DaysBefore(n.0, n.1) == DaysBefore(y, m) + MonthDays(y, m)
  {
  }

  /** A day that may lie past the end of its month, moved to the month it is in. */
  function Settled(y: nat, mon: nat, day: nat): (nat, nat, nat)
    decreases day
  {
    if day <= MonthDays(y, mon) then (y, mon, day)
    else Settled(NextMonth(y, mon).0, NextMonth(y, mon).1, day - MonthDays(y, mon))
  }

  lemma {:induction false} SettledIs(y: nat, mon: nat, day: nat)
    requires 1 <= mon <= 12 && day >= 1
    ensures var (a, b, c) := Settled(y, mon, day);
      1 <= b <= 12 && 1 <= c <= MonthDays(a, b) && DaysBefore(a, b) + c == DaysBefore(y, mon) + day
    decreases day
  {
    if day > MonthDays(y, mon) {
      NextMonthDays(y, mon);
      SettledIs(NextMonth(y, mon).0, NextMonth(y, mon).1, day - MonthDays(y, mon));
    }
  }

  /** The time `add` seconds later. */
  function Added(t: Time, add: nat): Time {
    var s := t.sec + add;
    var m := t.min + s / 60;
    var k := t.h + m / 60;
    var (y, mon, day) := Settled(t.y, t.mon, t.day + k / 24);
    Time(y, mon, day, k % 24, m % 60, s % 60)
  }

  /** `add_seconds`: from a valid time, the valid time exactly `add` seconds later. */
  method AddSeconds(t: Time, add: nat) returns (r: Time)
    requires Valid(t)
    ensures r == Added(t, add) && Valid(r) && Seconds(r) == Seconds(t) + add
  {
    var s := t.sec + add;
    var sec := s % 60;
    s := t.min + s / 60;
    var min := s % 60;
    s := t.h + s / 60;
    var h := s % 24;
    var y, mon, day := t.y, t.mon, t.day + s / 24;
    while day > MonthDays(y, mon)
      invariant 1 <= mon <= 12 && day >= 1 && Settled(y, mon, day) == Settled(t.y, t.mon, t.day + s / 24)
      decreases day
    {
      day := day - MonthDays(y, mon);
      mon := mon + 1;
      if mon > 12 {
        mon, y := 1, y + 1;
      }
    }
    r := Time(y, mon, day, h, min, sec);
    AddedIs(t, add);
  }

  /** Adding is exact. */
  lemma AddedIs(t: Time, add: nat)
    requires Valid(t)
    ensures Valid(Added(t, add)) && Seconds(Added(t, add)) == Seconds(t) + add
  {
    hide DaysBefore, Settled;
    var k := t.h + (t.min + (t.sec + add) / 60) / 60;
    SettledIs(t.y, t.mon, t.day + k / 24);
    Carried(DayNumber(t), t.h, t.min, t.sec, add);
  }

  lemma Carried(d: nat, h: nat, min: nat, sec: nat, add: nat)
    ensures var s := sec + add; var m := min + s / 60; var k := h + m / 60;
      (((d + k / 24) * 24 + k % 24) * 60 + m % 60) * 60 + s % 60 == ((d * 24 + h) * 60 + min) * 60 + sec + add
  {
  }

  // ----- order -----

  /** Earlier on the calendar, field by field. */
  predicate Before(a: Time, b: Time) {
    || a.y < b.y
    || (a.y == b.y && a.mon < b.mon)
    || (a.y == b.y && a.mon == b.mon && a.day < b.day)
    || (a.y == b.y && a.mon == b.mon && a.day == b.day && a.h < b.h)
    || (a.y == b.y && a.mon == b.mon && a.day == b.day && a.h == b.h && a.min < b.min)
    || (a.y == b.y && a.mon == b.mon && a.day == b.day && a.h == b.h && a.min == b.min && a.sec < b.sec)
  }

  lemma {:induction false} MonthsGrow(y: nat, m: nat, n: nat)
    requires 1 <= m <= n <= 13
    ensures DaysBefore(y, m) <= DaysBefore(y, n)
    decreases n - m
  {
    if m < n {
      MonthsGrow(y, m, n - 1);
    }
  }

  lemma {:induction false} YearsGrow(y: nat, z: nat)
    requires y <= z
    ensures DaysBefore(y, 1) <= DaysBefore(z, 1)
    decreases z - y
  {
    if y < z {
      YearsGrow(y, z - 1);
      MonthsGrow(z - 1, 1, 13);
    }
  }

  /** The end of a month is not later than the beginning of any later month. */
  lemma MonthEnds(y: nat, m: nat, z: nat, n: nat)
    requires 1 <= m <= 12 && 1 <= n <= 12 && (y < z || (y == z && m < n))
    ensures DaysBefore(y, m) + MonthDays(y, m) <= DaysBefore(z, n)
  {
    if y == z {
      MonthsGrow(y, m + 1, n);
    } else {
      MonthsGrow(y, m + 1, 13);
      YearsGrow(y + 1, z);
      MonthsGrow(z, 1, n);
    }
  }

  lemma BeforeIsLess(a: Time, b: Time)
    requires Valid(a) && Valid(b) && Before(a, b)
    ensures Seconds(a) < Seconds(b)
  {
    hide DaysBefore, MonthDays;
    if a.y < b.y || (a.y == b.y && a.mon < b.mon) {
      MonthEnds(a.y, a.mon, b.y, b.mon);
      assert DayNumber(a) < DayNumber(b) by { EndOfMonth(a); }
      DaysFirst(DayNumber(a), DayNumber(b), a, b);
    } else if a.day < b.day {
      DaysFirst(DayNumber(a), DayNumber(b), a, b);
    }
  }

  lemma EndOfMonth(t: Time)
    requires Valid(t)
    ensures DayNumber(t) < DaysBefore(t.y, t.mon) + MonthDays(t.y, t.mon)
  {
  }

  lemma DaysFirst(d: nat, e: nat, a: Time, b: Time)
    requires d < e && a.h < 24 && a.min < 60 && a.sec < 60
    ensures ((d * 24 + a.h) * 60 + a.min) * 60 + a.sec < ((e * 24 + b.h) * 60 + b.min) * 60 + b.sec
  {
    assert (d + 1) * 24 <= e * 24;
  }

  /** The calendar order is the order of the seconds, so each moment has one valid time. */
  lemma OrderIsSeconds(a: Time, b: Time)
    requires Valid(a) && Valid(b)
    ensures Before(a, b) <==> Seconds(a) < Seconds(b)
    ensures a == b <==> Seconds(a) == Seconds(b)
  {
    hide Seconds, Valid;
    assert a == b || Before(a, b) || Before(b, a);
    if Before(a, b) {
      BeforeIsLess(a, b);
    } else if Before(b, a) {
      BeforeIsLess(b, a);
    }
  }

  /** Adding `a` and then `b` seconds is adding `a + b`. */
  lemma AddedTwice(t: Time, a: nat, b: nat)
    requires Valid(t)
    ensures Added(Added(t, a), b) == Added(t, a + b)
  {
    hide Seconds, Added, Valid;
    AddedIs(t, a);
    AddedIs(Added(t, a), b);
    AddedIs(t, a + b);
    OrderIsSeconds(Added(Added(t, a), b), Added(t, a + b));
  }

  // ----- the string -----

  function Digit(v: nat): char {
    '0' + (v % 10) as char
  }

  /** `put2`. */
  function Two(v: nat): (s: string)
    ensures |s| == 2
  {
    [Digit(v / 10), Digit(v)]
  }

  function Four(v: nat): (s: string)
    ensures |s| == 4
  {
    [Digit(v / 1000), Digit(v / 100), Digit(v / 10), Digit(v)]
  }

  /** The string of `rtc_format`. */
  function Shown(t: Time): (s: string)
    ensures |s| == 19
  {
    Four(t.y) + "-" + Two(t.mon) + "-" + Two(t.day) + " " + Two(t.h) + ":" + Two(t.min) + ":" + Two(t.sec)
  }

  /** The number that a string of decimal digits stands for. */
  function Value(s: string): int {
    if s == "" then 0 else 10 * Value(s[..|s| - 1]) + (s[|s| - 1] as int - '0' as int)
  }

  ghost predicate Digits(s: string, v: nat) {
    (forall c <- s :: '0' <= c <= '9') && Value(s) == v
  }

  /** The string says this time: digits in their places, marks between them, the year by its last four digits. */
  ghost predicate Says(s: string, t: Time) {
    && |s| == 19 && s[4] == '-' && s[7] == '-' && s[10] == ' ' && s[13] == ':' && s[16] == ':'
    && Digits(s[..4], t.y % 10000) && Digits(s[5..7], t.mon) && Digits(s[8..10], t.day)
    && Digits(s[11..13], t.h) && Digits(s[14..16], t.min) && Digits(s[17..], t.sec)
  }

  lemma TwoIs(v: nat)
    requires v < 100
    ensures Digits(Two(v), v)
  {
    var s := Two(v);
    assert s[..1] == [s[0]] && s[..1][..0] == "";
    assert Value(s[..1]) == v / 10 && Value("") == 0;
    assert v == 10 * (v / 10) + v % 10;
  }

  lemma FourIs(v: nat)
    ensures Digits(Four(v), v % 10000)
  {
    var s := Four(v);
    var a, b, c, d := v / 1000 % 10, v / 100 % 10, v / 10 % 10, v % 10;
    assert s[..3][..2] == s[..2] && s[..2][..1] == s[..1] && s[..1][..0] == "" && Value("") == 0;
    assert s[0] as int - '0' as int == a && s[1] as int - '0' as int == b && s[2] as int - '0' as int == c && s[3] as int - '0' as int == d;
    assert Value(s[..1]) == a;
    assert Value(s[..2]) == 10 * a + b;
    assert Value(s[..3]) == 10 * (10 * a + b) + c;
    LastFour(v);
  }

  lemma LastFour(v: nat)
    ensures v % 10000 == 1000 * (v / 1000 % 10) + 100 * (v / 100 % 10) + 10 * (v / 10 % 10) + v % 10
  {
    LowDigit(v, 1000);
    LowDigit(v / 10, 100);
    LowDigit(v / 10 / 10, 10);
    Quotients(v);
  }

  lemma Quotients(v: nat)
    ensures v / 10 / 10 == v / 100 && v / 10 / 10 / 10 == v / 1000
  {
  }

  lemma LowDigit(v: nat, m: nat)
    requires m == 10 || m == 100 || m == 1000
    ensures v % (10 * m) == 10 * (v / 10 % m) + v % 10
  {
    var x, d := v / 10, v % 10;
    if m == 10 {
      Rest100(x / 10, x % 10, d);
    } else if m == 100 {
      Rest1000(x / 100, x % 100, d);
    } else {
      Rest10000(x / 1000, x % 1000, d);
    }
  }

  lemma Rest100(q: nat, r: nat, d: nat)
    requires r < 10 && d < 10
    ensures (10 * (10 * q + r) + d) % 100 == 10 * r + d
  {
  }

  lemma Rest1000(q: nat, r: nat, d: nat)
    requires r < 100 && d < 10
    ensures (10 * (100 * q + r) + d) % 1000 == 10 * r + d
  {
  }

  lemma Rest10000(q: nat, r: nat, d: nat)
    requires r < 1000 && d < 10
    ensures (10 * (1000 * q + r) + d) % 10000 == 10 * r + d
  {
  }

  lemma ShownSays(t: Time)
    requires Valid(t)
    ensures Says(Shown(t), t)
  {
    hide Two, Four, Digits;
    FourIs(t.y);
    TwoIs(t.mon);
    TwoIs(t.day);
    TwoIs(t.h);
    TwoIs(t.min);
    TwoIs(t.sec);
    var s := Shown(t);
    assert s[..4] == Four(t.y) && s[5..7] == Two(t.mon) && s[8..10] == Two(t.day);
    assert s[11..13] == Two(t.h) && s[14..16] == Two(t.min) && s[17..] == Two(t.sec);
  }

  /** `rtc_format`: the snapshot plus the ticks since, in place. */
  method Format(buf: array<char>, snap: Time, ticks: nat) returns (now: Time)
    requires buf.Length >= 20 && Valid(snap)
    modifies buf
    ensures now == Added(snap, ticks / PIT_HZ) && buf[..19] == Shown(now) && buf[19] == '\0'
    ensures Valid(now) && Seconds(now) == Seconds(snap) + ticks / 100 && Says(buf[..19], now)
  {
    hide Two, Four, Added, Says, Seconds;
    now := AddSeconds(snap, ticks / PIT_HZ);
    ShownSays(now);
    Put4(buf, now.y);
    PutChar(buf, 4, '-');
    Put2(buf, 5, now.mon);
    PutChar(buf, 7, '-');
    Put2(buf, 8, now.day);
    PutChar(buf, 10, ' ');
    Put2(buf, 11, now.h);
    PutChar(buf, 13, ':');
    Put2(buf, 14, now.min);
    PutChar(buf, 16, ':');
    Put2(buf, 17, now.sec);
    PutChar(buf, 19, '\0');
    assert buf[..19] == buf[..20][..19];
  }

  method Put4(buf: array<char>, y: nat)
    requires buf.Length >= 4
    modifies buf
    ensures buf[..4] == Four(y)
  {
    buf[0] := Digit(y / 1000);
    buf[1] := Digit(y / 100);
    buf[2] := Digit(y / 10);
    buf[3] := Digit(y);
  }

  method PutChar(buf: array<char>, i: nat, c: char)
    requires i < buf.Length
    modifies buf
    ensures buf[..i + 1] == old(buf[..i]) + [c]
  {
    buf[i] := c;
  }

  method Put2(buf: array<char>, i: nat, v: nat)
    requires i + 1 < buf.Length
    modifies buf
    ensures buf[..i + 2] == old(buf[..i]) + Two(v)
  {
    buf[i] := Digit(v / 10);
    buf[i + 1] := Digit(v);
  }

  /** Dictionary order of strings of the same length. */
  predicate Less(a: string, b: string)
    requires |a| == |b|
  {
    a != [] && (a[0] < b[0] || (a[0] == b[0] && Less(a[1..], b[1..])))
  }

  /** A common beginning does not matter, and a smaller beginning decides. */
  lemma {:induction false} LessAppend(a: string, b: string, c: string, d: string)
    requires |a| == |b| && |c| == |d|
    ensures Less(a + c, b + d) <==> Less(a, b) || (a == b && Less(c, d))
    decreases |a|
  {
    if a == [] {
      assert a + c == c && b + d == d;
    } else {
      assert (a + c)[1..] == a[1..] + c && (b + d)[1..] == b[1..] + d;
      LessAppend(a[1..], b[1..], c, d);
      assert a == [a[0]] + a[1..] && b == [b[0]] + b[1..];
    }
  }

  lemma TwoOrder(v: nat, w: nat)
    requires v < 100 && w < 100
    ensures (Less(Two(v), Two(w)) <==> v < w) && (Two(v) == Two(w) <==> v == w)
  {
    assert Two(v)[1..] == [Digit(v)] && Two(w)[1..] == [Digit(w)];
    assert Less([Digit(v)], [Digit(w)]) <==> v % 10 < w % 10;
  }

  lemma FourOrder(v: nat, w: nat)
    requires v < 10000 && w < 10000
    ensures (Less(Four(v), Four(w)) <==> v < w) && (Four(v) == Four(w) <==> v == w)
  {
    FourIsTwos(v);
    FourIsTwos(w);
    TwoOrder(v / 100, w / 100);
    TwoOrder(v % 100, w % 100);
    LessAppend(Two(v / 100), Two(w / 100), Two(v % 100), Two(w % 100));
    assert v == v / 100 * 100 + v % 100 && w == w / 100 * 100 + w % 100;
    if Four(v) == Four(w) {
      assert Two(v / 100) == Four(v)[..2] && Two(w / 100) == Four(w)[..2];
      assert Two(v % 100) == Four(v)[2..] && Two(w % 100) == Four(w)[2..];
    }
  }

  lemma FourIsTwos(v: nat)
    requires v < 10000
    ensures Four(v) == Two(v / 100) + Two(v % 100)
  {
    FourDigits(v / 1000, v / 100 % 10, v / 10 % 10, v % 10, v);
  }

  lemma FourDigits(a: nat, b: nat, c: nat, d: nat, v: nat)
    requires a == v / 1000 && b == v / 100 % 10 && c == v / 10 % 10 && d == v % 10
    ensures v / 100 == 10 * a + b && v % 100 == 10 * c + d && v / 100 / 10 == a && v % 100 / 10 == c && v % 100 % 10 == d
  {
    var x := v / 10;
    var y := x / 10;
    assert v == 10 * x + d && x == 10 * y + c && y == v / 100;
    assert y / 10 == v / 1000;
    assert v == 100 * y + (10 * c + d) && 10 * c + d < 100;
  }

  /** Until the year 10000 the strings sort as the times do. */
  lemma ShownOrder(a: Time, b: Time)
    requires Valid(a) && Valid(b) && a.y < 10000 && b.y < 10000
    ensures Less(Shown(a), Shown(b)) <==> Seconds(a) < Seconds(b)
  {
    hide Seconds, Less, Two, Four;
    OrderIsSeconds(a, b);
    FourOrder(a.y, b.y);
    TwoOrder(a.mon, b.mon);
    TwoOrder(a.day, b.day);
    TwoOrder(a.h, b.h);
    TwoOrder(a.min, b.min);
    TwoOrder(a.sec, b.sec);
    Parts(a);
    Parts(b);
    Same("-");
    Same(" ");
    Same(":");
    LessField(Four(a.y), Four(b.y), "-", Rest1(a), Rest1(b));
    LessField(Two(a.mon), Two(b.mon), "-", Rest2(a), Rest2(b));
    LessField(Two(a.day), Two(b.day), " ", Rest3(a), Rest3(b));
    LessField(Two(a.h), Two(b.h), ":", Rest4(a), Rest4(b));
    LessField(Two(a.min), Two(b.min), ":", Two(a.sec), Two(b.sec));
  }

  function Rest1(t: Time): string {
    Two(t.mon) + "-" + Rest2(t)
  }

  function Rest2(t: Time): string {
    Two(t.day) + " " + Rest3(t)
  }

  function Rest3(t: Time): string {
    Two(t.h) + ":" + Rest4(t)
  }

  function Rest4(t: Time): string {
    Two(t.min) + ":" + Two(t.sec)
  }

  lemma Parts(t: Time)
    ensures Shown(t) == Four(t.y) + "-" + Rest1(t)
  {
  }

  lemma Same(s: string)
    ensures !Less(s, s)
  {
  }

  lemma Regroup(a: string, s: string, c: string)
    ensures a + s + c == a + (s + c)
  {
  }

  lemma LessField(a: string, b: string, s: string, c: string, d: string)
    requires |a| == |b| && |c| == |d|
    ensures Less(a + s + c, b + s + d) <==> Less(a, b) || (a == b && Less(c, d))
  {
    hide Less;
    LessAppend(a, b, s + c, s + d);
    LessAppend(s, s, c, d);
    Same(s);
    Regroup(a, s, c);
    Regroup(b, s, d);
  }

  /** The clock never goes backwards: later ticks, until they wrap, never show an earlier string. */
  lemma NeverBackwards(snap: Time, ticks: nat, later: nat)
    requires Valid(snap) && ticks <= later && Added(snap, later / PIT_HZ).y < 10000
    ensures Added(snap, ticks / PIT_HZ).y < 10000
    ensures !Less(Shown(Added(snap, later / PIT_HZ)), Shown(Added(snap, ticks / PIT_HZ)))
  {
    hide Seconds, Less, Added, Shown;
    var a, b := Added(snap, ticks / PIT_HZ), Added(snap, later / PIT_HZ);
    AddedIs(snap, ticks / PIT_HZ);
    AddedIs(snap, later / PIT_HZ);
    OrderIsSeconds(b, a);
    ShownOrder(b, a);
  }
}
