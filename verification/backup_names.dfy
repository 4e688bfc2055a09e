/** Names of backups: the fixed-width timestamp makes the order of names the order of time. */
module BackupNames {
  import opened PyText

  datatype Timestamp = Timestamp(year: nat, month: nat, day: nat, hour: nat, minute: nat, second: nat, micro: nat)

  /** A UTC date and time whose year has four digits. */
  predicate FourDigitYear(t: Timestamp) {
    && 1000 <= t.year <= 9999 && 1 <= t.month <= 12 && 1 <= t.day <= 31
    && t.hour < 24 && t.minute < 60 && t.second < 60 && t.micro < 1_000_000
  }

  predicate Earlier(a: Timestamp, b: Timestamp) {
    if a.year != b.year then a.year < b.year
    else if a.month != b.month then a.month < b.month
    else if a.day != b.day then a.day < b.day
    else if a.hour != b.hour then a.hour < b.hour
    else if a.minute != b.minute then a.minute < b.minute
    else if a.second != b.second then a.second < b.second
    else a.micro < b.micro
  }

  /** `n` with leading zeros up to `width` */
  function Padded(n: nat, width: nat): string {
    var s := Dec(n);
    if |s| < width then seq(width - |s|, _ => '0') + s else s
  }

  function TimeText(t: Timestamp): string {
    Padded(t.year, 4) + (Padded(t.month, 2) + (Padded(t.day, 2) + ("T" + (Padded(t.hour, 2) +
    (Padded(t.minute, 2) + (Padded(t.second, 2) + ("." + (Padded(t.micro, 6) + "Z"))))))))
  }

  function BackupName(t: Timestamp): string {
    "gateway-" + (TimeText(t) + ".yaml")
  }

  function Power10(w: nat): nat {
    if w == 0 then 1 else 10 * Power10(w - 1)
  }

  lemma BeforeCons(c: char, x: string, d: char, y: string)
    ensures Before([c] + x, [d] + y) <==> c < d || (c == d && Before(x, y))
  {
    assert ([c] + x)[1..] == x && ([d] + y)[1..] == y;
  }

  /** The last digit of a padded number, and the padded rest. */
  lemma {:induction false} PaddedDigits(n: nat, w: nat)
    requires n < Power10(w) && w >= 1
    ensures |Padded(n, w)| == w
    ensures Padded(n, w) == (if w == 1 then "" else Padded(n / 10, w - 1)) + [Digit(n % 10)]
  {
    if w > 1 {
      PaddedDigits(n / 10, w - 1);
      if n < 10 {
        assert Dec(n) == [Digit(n)] && Dec(n / 10) == ['0'];
      } else {
        assert Dec(n) == Dec(n / 10) + [Digit(n % 10)];
      }
    }
  }

  /** Numbers of equal width compare like their texts. */
  lemma {:induction false} PaddedOrder(a: nat, b: nat, w: nat, x: string, y: string)
    requires a < Power10(w) && b < Power10(w) && w >= 1
    ensures Before(Padded(a, w) + x, Padded(b, w) + y) <==> a < b || (a == b && Before(x, y))
  {
    hide Before, Padded;
    PaddedDigits(a, w);
    PaddedDigits(b, w);
    var x', y' := [Digit(a % 10)] + x, [Digit(b % 10)] + y;
    BeforeCons(Digit(a % 10), x, Digit(b % 10), y);
    assert Digit(a % 10) < Digit(b % 10) <==> a % 10 < b % 10;
    if w == 1 {
      assert Padded(a, w) + x == x' && Padded(b, w) + y == y';
    } else {
      assert Padded(a, w) + x == Padded(a / 10, w - 1) + x';
      assert Padded(b, w) + y == Padded(b / 10, w - 1) + y';
      PaddedOrder(a / 10, b / 10, w - 1, x', y');
    }
  }

  lemma Powers()
    ensures Power10(2) == 100 && Power10(4) == 10_000 && Power10(6) == 1_000_000
  {
    assert Power10(3) == 1000 && Power10(5) == 100_000;
  }

  lemma {:induction false} TimeTextOrder(a: Timestamp, b: Timestamp, x: string, y: string)
    requires FourDigitYear(a) && FourDigitYear(b)
    ensures Before(TimeText(a) + x, TimeText(b) + y) <==> Earlier(a, b) || (a == b && Before(x, y))
  {
    hide Before, Padded;
    Powers();
    var (a8, b8) := ("Z" + x, "Z" + y);
    var (a7, b7) := (Padded(a.micro, 6) + a8, Padded(b.micro, 6) + b8);
    var (a6, b6) := (Padded(a.second, 2) + ("." + a7), Padded(b.second, 2) + ("." + b7));
    var (a5, b5) := (Padded(a.minute, 2) + a6, Padded(b.minute, 2) + b6);
    var (a4, b4) := (Padded(a.hour, 2) + a5, Padded(b.hour, 2) + b5);
    var (a3, b3) := (Padded(a.day, 2) + ("T" + a4), Padded(b.day, 2) + ("T" + b4));
    var (a2, b2) := (Padded(a.month, 2) + a3, Padded(b.month, 2) + b3);
    BeforeCons('Z', x, 'Z', y);
    PaddedOrder(a.micro, b.micro, 6, a8, b8);
    BeforeCons('.', a7, '.', b7);
    PaddedOrder(a.second, b.second, 2, "." + a7, "." + b7);
    PaddedOrder(a.minute, b.minute, 2, a6, b6);
    PaddedOrder(a.hour, b.hour, 2, a5, b5);
    BeforeCons('T', a4, 'T', b4);
    PaddedOrder(a.day, b.day, 2, "T" + a4, "T" + b4);
    PaddedOrder(a.month, b.month, 2, a3, b3);
    PaddedOrder(a.year, b.year, 4, a2, b2);
    assert TimeText(a) + x == Padded(a.year, 4) + a2;
    assert TimeText(b) + y == Padded(b.year, 4) + b2;
  }

  /** `sorted` on names is chronological order, and names of different times differ. */
  lemma NamesAreChronological(a: Timestamp, b: Timestamp)
    requires FourDigitYear(a) && FourDigitYear(b)
    ensures Before(BackupName(a), BackupName(b)) <==> Earlier(a, b)
    ensures BackupName(a) == BackupName(b) <==> a == b
  {
    hide TimeText, Before;
    BeforeAfterPrefix("gateway-", TimeText(a) + ".yaml", TimeText(b) + ".yaml");
    BeforeAfterPrefix("gateway-", TimeText(b) + ".yaml", TimeText(a) + ".yaml");
    TimeTextOrder(a, b, ".yaml", ".yaml");
    TimeTextOrder(b, a, ".yaml", ".yaml");
    BeforeTotal(BackupName(a), BackupName(b));
    BeforeTotal(".yaml", ".yaml");
  }
}
