/** Backup identities are wall-clock minutes in the format 20060102-1504 (pkg/index/snapshot.go). */
module TimeFormat {

  datatype Minute = Minute(year: nat, month: nat, day: nat, hour: nat, minute: nat) {
    predicate Valid() {
      year < 10000 && 1 <= month <= 12 && 1 <= day <= 31 && hour < 24 && minute < 60
    }

    /** A number that grows with time. */
    function Stamp(): int {
      (((year * 12 + month) * 32 + day) * 24 + hour) * 60 + minute
    }
  }

  function Digit(d: nat): char
    requires d < 10
  {
    ('0' as int + d) as char
  }

  function Pow10(w: nat): nat {
    if w == 0 then 1 else 10 * Pow10(w - 1)
  }

  /** Decimal with leading zeros; digits beyond the width are cut off. */
  function Digits(n: nat, width: nat): (s: string)
    ensures |s| == width
  {
    if width == 0 then "" else Digits(n / 10, width - 1) + [Digit(n % 10)]
  }

  function Format(t: Minute): string {
    Digits(t.year, 4) + Digits(t.month, 2) + Digits(t.day, 2) + "-" + Digits(t.hour, 2) + Digits(t.minute, 2)
  }

  /** Go's string order. */
  predicate Less(a: string, b: string) {
    if b == "" then false
    else if a == "" then true
    else a[0] < b[0] || (a[0] == b[0] && Less(a[1..], b[1..]))
  }

  lemma {:induction false} LessIrreflexive(a: string)
    ensures !Less(a, a)
  {
    if a != "" {
      LessIrreflexive(a[1..]);
    }
  }

  lemma {:induction false} LessTransitive(a: string, b: string, c: string)
    requires Less(a, b) && Less(b, c)
    ensures Less(a, c)
  {
    if a != "" && a[0] == b[0] && b[0] == c[0] {
      LessTransitive(a[1..], b[1..], c[1..]);
    }
  }

  lemma {:induction false} LessTotal(a: string, b: string)
    ensures a == b || Less(a, b) || Less(b, a)
  {
    if a != "" && b != "" && a[0] == b[0] {
      LessTotal(a[1..], b[1..]);
      assert a == [a[0]] + a[1..] && b == [b[0]] + b[1..];
    }
  }

  lemma {:induction false} LessConcat(a: string, b: string, x: string, y: string)
    requires |a| == |b|
    ensures Less(a + x, b + y) <==> Less(a, b) || (a == b && Less(x, y))
  {
    if a == "" {
      assert a + x == x && b + y == y;
    } else {
      LessConcat(a[1..], b[1..], x, y);
      assert (a + x)[1..] == a[1..] + x && (b + y)[1..] == b[1..] + y;
      assert a == [a[0]] + a[1..] && b == [b[0]] + b[1..];
      LessIrreflexive(a[1..]);
    }
  }

  /** Numbers of one width compare as their digit strings do. */
  lemma {:induction false} DigitsOrder(m: nat, n: nat, width: nat)
    requires m < Pow10(width) && n < Pow10(width)
    ensures Less(Digits(m, width), Digits(n, width)) <==> m < n
    ensures Digits(m, width) == Digits(n, width) <==> m == n
    decreases width
  {
    if width > 0 {
      var a, b := Digits(m / 10, width - 1), Digits(n / 10, width - 1);
      var x, y := [Digit(m % 10)], [Digit(n % 10)];
      DigitsOrder(m / 10, n / 10, width - 1);
      LessConcat(a, b, x, y);
      assert Less(x, y) <==> m % 10 < n % 10;
      assert a + x == b + y <==> a == b && x == y by { LastOf(a, x[0], b, y[0]); }
    }
  }

  lemma LastOf(a: string, x: char, b: string, y: char)
    requires |a| == |b|
    ensures a + [x] == b + [y] <==> a == b && x == y
  {
    if a + [x] == b + [y] {
      assert a == (a + [x])[..|a|] && b == (b + [y])[..|b|];
      assert x == (a + [x])[|a|] && y == (b + [y])[|b|];
    }
  }

  lemma Widths()
    ensures Pow10(2) == 100 && Pow10(4) == 10000
  {
    assert Pow10(1) == 10;
    assert Pow10(3) == 1000;
  }

  /** Field by field, most significant first. */
  predicate Before(a: Minute, b: Minute) {
    || a.year < b.year
    || (a.year == b.year &&
        (|| a.month < b.month
         || (a.month == b.month &&
             (|| a.day < b.day
              || (a.day == b.day && (a.hour < b.hour || (a.hour == b.hour && a.minute < b.minute)))))))
  }

  lemma BeforeIsStamp(a: Minute, b: Minute)
    requires a.Valid() && b.Valid()
    ensures Before(a, b) <==> a.Stamp() < b.Stamp()
  {
  }

  /** One more field in front of an order on the rest. */
  lemma FieldFirst(m: nat, n: nat, width: nat, x: string, y: string)
    requires m < Pow10(width) && n < Pow10(width)
    ensures Less(Digits(m, width) + x, Digits(n, width) + y) <==> m < n || (m == n && Less(x, y))
  {
    DigitsOrder(m, n, width);
    LessConcat(Digits(m, width), Digits(n, width), x, y);
  }

  function Tail(t: Minute): string {
    Digits(t.hour, 2) + Digits(t.minute, 2)
  }

  lemma FormatNested(t: Minute)
    ensures Format(t) == Digits(t.year, 4) + (Digits(t.month, 2) + (Digits(t.day, 2) + ("-" + Tail(t))))
  {
  }

  /** The lexicographic order of identities is the chronological order of the minutes. */
  lemma FormatOrder(a: Minute, b: Minute)
    requires a.Valid() && b.Valid()
    ensures Less(Format(a), Format(b)) <==> a.Stamp() < b.Stamp()
  {
    Widths();
    FormatNested(a);
    FormatNested(b);
    BeforeIsStamp(a, b);
    FieldFirst(a.hour, b.hour, 2, Digits(a.minute, 2), Digits(b.minute, 2));
    DigitsOrder(a.minute, b.minute, 2);
    LessConcat("-", "-", Tail(a), Tail(b));
    LessIrreflexive("-");
    FieldFirst(a.day, b.day, 2, "-" + Tail(a), "-" + Tail(b));
    FieldFirst(a.month, b.month, 2, Digits(a.day, 2) + ("-" + Tail(a)), Digits(b.day, 2) + ("-" + Tail(b)));
    FieldFirst(a.year, b.year, 4, Digits(a.month, 2) + (Digits(a.day, 2) + ("-" + Tail(a))),
               Digits(b.month, 2) + (Digits(b.day, 2) + ("-" + Tail(b))));
  }

  /** Two minutes share an identity only if they are the same minute. */
  lemma FormatInjective(a: Minute, b: Minute)
    requires a.Valid() && b.Valid() && Format(a) == Format(b)
    ensures a == b
  {
    FormatOrder(a, b);
    FormatOrder(b, a);
    LessIrreflexive(Format(a));
    BeforeIsStamp(a, b);
    BeforeIsStamp(b, a);
  }
}
