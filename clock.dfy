/** The wall clock, read as `datetime.now()`, and the two ways the program
    prints it: `isoformat()` (project timestamps, backup listing) and
    `strftime("%Y%m%d_%H%M%S")` (backup file names). Both printed forms are
    proved to sort, as Python str values, in the order of the instants. */
module Clock {
  import opened Text

  /** A local date and time as datetime holds it. */
  datatype Instant = Instant(year: nat, month: nat, day: nat,
                             hour: nat, minute: nat, second: nat, micro: nat)

  /** Field ranges of datetime; the clock reads a four-digit year. */
  predicate Valid(t: Instant) {
    && 1000 <= t.year <= 9999
    && 1 <= t.month <= 12
    && 1 <= t.day <= 31
    && t.hour < 24 && t.minute < 60 && t.second < 60
    && t.micro < 1000000
  }

  /** Chronological order of instants. */
  predicate Before(a: Instant, b: Instant) {
    if a.year != b.year then a.year < b.year
    else if a.month != b.month then a.month < b.month
    else if a.day != b.day then a.day < b.day
    else if a.hour != b.hour then a.hour < b.hour
    else if a.minute != b.minute then a.minute < b.minute
    else if a.second != b.second then a.second < b.second
    else a.micro < b.micro
  }

  function Pow10(w: nat): (r: nat)
    ensures r >= 1
  {
    if w == 0 then 1 else 10 * Pow10(w - 1)
  }

  /** The `%0<w>d` rendering of n. */
  function Pad(n: nat, w: nat): (r: string)
    requires n < Pow10(w)
    ensures |r| == w
  {
    if w == 0 then "" else Pad(n / 10, w - 1) + [DigitChar(n % 10)]
  }

  /** Zero-padded fixed-width decimals sort like the numbers they spell. */
  lemma {:induction false} PadOrder(a: nat, b: nat, w: nat)
    requires a < b < Pow10(w)
    ensures LexLess(Pad(a, w), Pad(b, w))
  {
    if a / 10 < b / 10 {
      PadOrder(a / 10, b / 10, w - 1);
      LexLessSameLengthPrefix(Pad(a / 10, w - 1), Pad(b / 10, w - 1), [DigitChar(a % 10)], [DigitChar(b % 10)]);
    } else {
      assert a / 10 == b / 10;
      assert a % 10 < b % 10;
      LexLessCommonPrefix(Pad(a / 10, w - 1), [DigitChar(a % 10)], [DigitChar(b % 10)]);
    }
  }

  /** One separator-prefixed field of a timestamp. */
  function Field(sep: string, n: nat, w: nat): string
    requires n < Pow10(w)
  {
    sep + Pad(n, w)
  }

  lemma FieldOrder(sep: string, a: nat, b: nat, w: nat)
    requires a < b < Pow10(w)
    ensures LexLess(Field(sep, a, w), Field(sep, b, w))
  {
    PadOrder(a, b, w);
    LexLessCommonPrefix(sep, Pad(a, w), Pad(b, w));
  }

  /** Comparing `p + r` field by field: a smaller field of equal width
      decides, an equal field defers to the rest. */
  lemma Step(p1: string, p2: string, r1: string, r2: string)
    requires |p1| == |p2|
    requires LexLess(p1, p2) || (p1 == p2 && LexLess(r1, r2))
    ensures LexLess(p1 + r1, p2 + r2)
  {
    if LexLess(p1, p2) {
      LexLessSameLengthPrefix(p1, p2, r1, r2);
    } else {
      LexLessCommonPrefix(p1, r1, r2);
    }
  }

  // isoformat(): YYYY-MM-DDTHH:MM:SS, then .ffffff unless the microseconds are 0

  function Fraction(t: Instant): string
    requires Valid(t)
  {
    if t.micro == 0 then "" else Field(".", t.micro, 6)
  }

  function IsoFromSecond(t: Instant): string
    requires Valid(t)
  {
    Field(":", t.second, 2) + Fraction(t)
  }

  function IsoFromMinute(t: Instant): string
    requires Valid(t)
  {
    Field(":", t.minute, 2) + IsoFromSecond(t)
  }

  function IsoFromHour(t: Instant): string
    requires Valid(t)
  {
    Field("T", t.hour, 2) + IsoFromMinute(t)
  }

  function IsoFromDay(t: Instant): string
    requires Valid(t)
  {
    Field("-", t.day, 2) + IsoFromHour(t)
  }

  function IsoFromMonth(t: Instant): string
    requires Valid(t)
  {
    Field("-", t.month, 2) + IsoFromDay(t)
  }

  /** datetime.isoformat() */
  function IsoFormat(t: Instant): string
    requires Valid(t)
  {
    Field("", t.year, 4) + IsoFromMonth(t)
  }

  // strftime("%Y%m%d_%H%M%S"), built from the right as isoformat() is

  function StampFromMinute(t: Instant): string
    requires Valid(t)
  {
    Field("", t.minute, 2) + Field("", t.second, 2)
  }

  function StampFromHour(t: Instant): string
    requires Valid(t)
  {
    Field("_", t.hour, 2) + StampFromMinute(t)
  }

  function StampFromDay(t: Instant): string
    requires Valid(t)
  {
    Field("", t.day, 2) + StampFromHour(t)
  }

  function StampFromMonth(t: Instant): string
    requires Valid(t)
  {
    Field("", t.month, 2) + StampFromDay(t)
  }

  /** strftime("%Y%m%d_%H%M%S") */
  function BackupStamp(t: Instant): (r: string)
    requires Valid(t)
    ensures |r| == 15
  {
    Field("", t.year, 4) + StampFromMonth(t)
  }

  lemma {:induction false} PadDigits(n: nat, w: nat)
    requires n < Pow10(w)
    ensures forall i :: 0 <= i < w ==> IsDigit(Pad(n, w)[i])
  {
    if w > 0 {
      PadDigits(n / 10, w - 1);
    }
  }

  /** A backup stamp is digits and one '_': it adds no path separator. */
  lemma BackupStampNoSlash(t: Instant)
    requires Valid(t)
    ensures '/' !in BackupStamp(t)
  {
    PadDigits(t.year, 4);
    PadDigits(t.month, 2);
    PadDigits(t.day, 2);
    PadDigits(t.hour, 2);
    PadDigits(t.minute, 2);
    PadDigits(t.second, 2);
  }

  /** One field of a timestamp and the rest after it: a smaller field
      decides, an equal one defers to the rest. */
  lemma FieldStep(sep: string, x: nat, y: nat, w: nat, r1: string, r2: string)
    requires x < Pow10(w) && y < Pow10(w)
    requires x < y || (x == y && LexLess(r1, r2))
    ensures LexLess(Field(sep, x, w) + r1, Field(sep, y, w) + r2)
  {
    if x < y {
      FieldOrder(sep, x, y, w);
    }
    Step(Field(sep, x, w), Field(sep, y, w), r1, r2);
  }

  /** A later instant prints as a larger isoformat() string. */
  lemma IsoFormatOrder(a: Instant, b: Instant)
    requires Valid(a) && Valid(b) && Before(a, b)
    ensures LexLess(IsoFormat(a), IsoFormat(b))
  {
    var micro := a.micro < b.micro;
    if micro {
      if a.micro == 0 {
        assert Fraction(a) == [];
      } else {
        FieldOrder(".", a.micro, b.micro, 6);
      }
    }
    var second := a.second < b.second || (a.second == b.second && micro);
    if second {
      FieldStep(":", a.second, b.second, 2, Fraction(a), Fraction(b));
    }
    var minute := a.minute < b.minute || (a.minute == b.minute && second);
    if minute {
      FieldStep(":", a.minute, b.minute, 2, IsoFromSecond(a), IsoFromSecond(b));
    }
    var hour := a.hour < b.hour || (a.hour == b.hour && minute);
    if hour {
      FieldStep("T", a.hour, b.hour, 2, IsoFromMinute(a), IsoFromMinute(b));
    }
    var day := a.day < b.day || (a.day == b.day && hour);
    if day {
      FieldStep("-", a.day, b.day, 2, IsoFromHour(a), IsoFromHour(b));
    }
    var month := a.month < b.month || (a.month == b.month && day);
    if month {
      FieldStep("-", a.month, b.month, 2, IsoFromDay(a), IsoFromDay(b));
    }
    FieldStep("", a.year, b.year, 4, IsoFromMonth(a), IsoFromMonth(b));
  }

  /** Instants are totally ordered: two different instants compare one way or the other. */
  lemma BeforeTotal(a: Instant, b: Instant)
    ensures a == b || Before(a, b) || Before(b, a)
  {
  }

  /** Sorting isoformat() strings is sorting the instants: either order
      implies the other. */
  lemma IsoFormatOrderIff(a: Instant, b: Instant)
    requires Valid(a) && Valid(b)
    ensures LexLess(IsoFormat(a), IsoFormat(b)) <==> Before(a, b)
  {
    if Before(a, b) {
      IsoFormatOrder(a, b);
    } else if a == b {
      LexLessIrreflexive(IsoFormat(a));
    } else {
      BeforeTotal(a, b);
      IsoFormatOrder(b, a);
      LexLessAsymmetric(IsoFormat(b), IsoFormat(a));
    }
  }

  /** Instants in different seconds. */
  predicate SecondBefore(a: Instant, b: Instant) {
    Before(a, b) && !(a.year == b.year && a.month == b.month && a.day == b.day
                      && a.hour == b.hour && a.minute == b.minute && a.second == b.second)
  }

  /** Backup stamps of instants in later seconds sort later. */
  lemma BackupStampOrder(a: Instant, b: Instant)
    requires Valid(a) && Valid(b) && SecondBefore(a, b)
    ensures LexLess(BackupStamp(a), BackupStamp(b))
  {
    var second := a.second < b.second;
    if second {
      FieldOrder("", a.second, b.second, 2);
    }
    var minute := a.minute < b.minute || (a.minute == b.minute && second);
    if minute {
      FieldStep("", a.minute, b.minute, 2, Field("", a.second, 2), Field("", b.second, 2));
    }
    var hour := a.hour < b.hour || (a.hour == b.hour && minute);
    if hour {
      FieldStep("_", a.hour, b.hour, 2, StampFromMinute(a), StampFromMinute(b));
    }
    var day := a.day < b.day || (a.day == b.day && hour);
    if day {
      FieldStep("", a.day, b.day, 2, StampFromHour(a), StampFromHour(b));
    }
    var month := a.month < b.month || (a.month == b.month && day);
    if month {
      FieldStep("", a.month, b.month, 2, StampFromDay(a), StampFromDay(b));
    }
    FieldStep("", a.year, b.year, 4, StampFromMonth(a), StampFromMonth(b));
  }
}
