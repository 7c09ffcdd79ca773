/** Month arithmetic, partition names and partition bounds of the changelog
    (acoustid/tables.py and acoustid/scripts/fpindex_changelog.py). */
module Calendar {
  import opened Wrappers

  /** A `datetime.date`. Python knows the years 1 to 9999 only. */
  datatype Date = Date(year: int, month: int, day: int)

  const MIN_YEAR := 1
  const MAX_YEAR := 9999

  predicate ValidDate(d: Date) {
    MIN_YEAR <= d.year <= MAX_YEAR && 1 <= d.month <= 12 && 1 <= d.day <= 31
  }

  predicate IsMonth(d: Date) {
    ValidDate(d) && d.day == 1
  }

  /** Months since the start of year 0; the `index` of `fpindex_changelog_add_months`. */
  function Index(d: Date): int {
    d.year * 12 + (d.month - 1)
  }

  /** `fpindex_changelog_add_months`. `//` and `%` floor, and `datetime.date` raises
      ValueError (None here) outside its range of years. */
  function AddMonths(month: Date, count: int): (r: Option<Date>) {
    var index := Index(month) + count;
    if MIN_YEAR <= index / 12 <= MAX_YEAR then Some(Date(index / 12, index % 12 + 1, 1)) else None
  }

  predicate Before(a: Date, b: Date) {
    a.year < b.year || (a.year == b.year && (a.month < b.month || (a.month == b.month && a.day < b.day)))
  }

  /** Adding months moves the index by exactly the count, and fails exactly at the
      ends of the calendar. */
  lemma AddMonthsMovesIndex(month: Date, count: int)
    requires IsMonth(month)
    ensures AddMonths(month, count).Some? <==> 12 <= Index(month) + count < 12 * (MAX_YEAR + 1)
    ensures AddMonths(month, count).Some? ==>
              && IsMonth(AddMonths(month, count).value)
              && Index(AddMonths(month, count).value) == Index(month) + count
  {
  }

  lemma IndexIsInjective(a: Date, b: Date)
    requires IsMonth(a) && IsMonth(b)
    ensures Index(a) == Index(b) <==> a == b
    ensures Index(a) < Index(b) <==> Before(a, b)
  {
  }

  /** An additive, invertible, strictly monotone action of the integers on months. */
  lemma AddMonthsIsAnAction(month: Date, a: int, b: int)
    requires IsMonth(month)
    requires AddMonths(month, a).Some?
    ensures AddMonths(AddMonths(month, a).value, b) == AddMonths(month, a + b)
    ensures AddMonths(AddMonths(month, a).value, -a) == Some(month)
    ensures AddMonths(month, 0) == Some(month)
    ensures 0 < a <==> Before(month, AddMonths(month, a).value)
  {
    AddMonthsMovesIndex(month, a);
    var r := AddMonths(month, a).value;
    AddMonthsMovesIndex(r, b);
    AddMonthsMovesIndex(r, -a);
    IndexIsInjective(month, r);
    IndexIsInjective(AddMonths(r, -a).value, month);
  }

  // ----- points in time and partition bounds --------------------------------

  /** A `timestamp with time zone`, split into its month and the time elapsed in it. */
  datatype Instant = Instant(month: int, offset: nat)

  predicate AtMost(a: Instant, b: Instant) {
    a.month < b.month || (a.month == b.month && a.offset <= b.offset)
  }

  function Midnight(month: Date): Instant
    requires IsMonth(month)
  {
    Instant(Index(month), 0)
  }

  /** The bounds of `fpindex_changelog_create_partition_sql`: FROM the month TO the next
      one, lower bound included, upper bound not. No upper bound, no DDL. */
  predicate InPartition(month: Date, t: Instant)
    requires IsMonth(month)
  {
    var end := AddMonths(month, 1);
    end.Some? && AtMost(Midnight(month), t) && !AtMost(Midnight(end.value), t)
  }

  /** A timestamp falls into the partition of its own month and into no other. */
  lemma PartitionHoldsItsMonth(month: Date, t: Instant)
    requires IsMonth(month) && AddMonths(month, 1).Some?
    ensures InPartition(month, t) <==> t.month == Index(month)
  {
    AddMonthsMovesIndex(month, 1);
  }

  /** The partitions tile time from January of year 1 up to, but not including, the
      last month Python can name; there the DDL cannot be written. */
  lemma PartitionsTileTime(t: Instant)
    ensures 12 <= t.month < 12 * MAX_YEAR + 11 <==> exists m :: IsMonth(m) && InPartition(m, t)
    ensures forall m, n :: IsMonth(m) && IsMonth(n) && InPartition(m, t) && InPartition(n, t) ==> m == n
  {
    if 12 <= t.month < 12 * MAX_YEAR + 11 {
      var m := Date(t.month / 12, t.month % 12 + 1, 1);
      assert IsMonth(m) && Index(m) == t.month;
      AddMonthsMovesIndex(m, 1);
      PartitionHoldsItsMonth(m, t);
    }
    forall m | IsMonth(m) && InPartition(m, t)
      ensures 12 <= t.month < 12 * MAX_YEAR + 11 && Index(m) == t.month
    {
      AddMonthsMovesIndex(m, 1);
      PartitionHoldsItsMonth(m, t);
    }
    forall m, n | IsMonth(m) && IsMonth(n) && InPartition(m, t) && InPartition(n, t)
      ensures m == n
    {
      IndexIsInjective(m, n);
    }
  }

  // ----- months by number ---------------------------------------------------

  /** The calendar knows the month and the one after it, so a partition can be made for it. */
  predicate HasPartition(index: int) {
    12 <= index < 12 * MAX_YEAR + 11
  }

  function DateOf(index: int): (d: Date)
    requires 12 <= index < 12 * (MAX_YEAR + 1)
    ensures IsMonth(d) && Index(d) == index
  {
    Date(index / 12, index % 12 + 1, 1)
  }

  /** Adding months to a date is adding to its number, and a partition holds the instants of
      the month with its number. */
  lemma MonthsByNumber(index: int, count: int, t: Instant)
    requires HasPartition(index)
    ensures 12 <= index + count < 12 * (MAX_YEAR + 1) ==> AddMonths(DateOf(index), count) == Some(DateOf(index + count))
    ensures InPartition(DateOf(index), t) <==> t.month == index
  {
    AddMonthsMovesIndex(DateOf(index), count);
    if 12 <= index + count < 12 * (MAX_YEAR + 1) {
      IndexIsInjective(AddMonths(DateOf(index), count).value, DateOf(index + count));
    }
    AddMonthsMovesIndex(DateOf(index), 1);
    PartitionHoldsItsMonth(DateOf(index), t);
  }

  // ----- partition names ----------------------------------------------------

  const NAME_PREFIX := "fpindex_changelog_"

  function DigitChar(d: int): char
    requires 0 <= d <= 9
  {
    "0123456789"[d]
  }

  predicate AllDigits(s: string) {
    forall i :: 0 <= i < |s| ==> '0' <= s[i] <= '9'
  }

  function DigitValue(c: char): (d: int)
    requires '0' <= c <= '9'
    ensures 0 <= d <= 9
  {
    c as int - '0' as int
  }

  /** `%Y` as the C library prints it: no leading zeros. */
  function YearDigits(n: nat): (s: string) {
    if n < 10 then [DigitChar(n)] else YearDigits(n / 10) + [DigitChar(n % 10)]
  }

  /** `%m`: always two digits. */
  function MonthDigits(n: int): string
    requires 1 <= n <= 12
  {
    [DigitChar(n / 10), DigitChar(n % 10)]
  }

  function PartitionName(month: Date): string
    requires IsMonth(month)
  {
    NAME_PREFIX + (YearDigits(month.year) + MonthDigits(month.month))
  }

  /** What the maintenance job makes of a table name: not its own, a month, or a
      ValueError out of `strptime` that stops the run. */
  datatype Parsed = Foreign | Partition(month: Date) | Unparsable

  /** `strptime(digits, "%Y%m")`. */
  function ParseDigits(s: string): Parsed
    requires |s| == 6 && AllDigits(s)
  {
    var year := DigitValue(s[0]) * 1000 + DigitValue(s[1]) * 100 + DigitValue(s[2]) * 10 + DigitValue(s[3]);
    var month := DigitValue(s[4]) * 10 + DigitValue(s[5]);
    if 1 <= year && 1 <= month <= 12 then Partition(Date(year, month, 1)) else Unparsable
  }

  /** `_PARTITION_NAME_RE` and the parsing in `_existing_partitions`. */
  function ParsePartitionName(name: string): Parsed {
    var n := |NAME_PREFIX|;
    if |name| == n + 6 && name[..n] == NAME_PREFIX && AllDigits(name[n..]) then ParseDigits(name[n..]) else Foreign
  }

  lemma ParseOfPrefixed(s: string)
    ensures ParsePartitionName(NAME_PREFIX + s) == if |s| == 6 && AllDigits(s) then ParseDigits(s) else Foreign
  {
    var n := |NAME_PREFIX|;
    var name := NAME_PREFIX + s;
    assert name[n..] == s;
    if |name| == n + 6 {
      assert name[..n] == NAME_PREFIX;
    }
  }

  lemma FourDigits(n: int)
    requires 1000 <= n <= MAX_YEAR
    ensures YearDigits(n) == [DigitChar(n / 1000), DigitChar(n / 100 % 10), DigitChar(n / 10 % 10), DigitChar(n % 10)]
  {
    assert n / 10 / 10 == n / 100 && n / 100 / 10 == n / 1000;
    assert YearDigits(n / 1000) == [DigitChar(n / 1000)];
    assert YearDigits(n / 100) == YearDigits(n / 1000) + [DigitChar(n / 100 % 10)];
    assert YearDigits(n / 10) == YearDigits(n / 100) + [DigitChar(n / 10 % 10)];
  }

  lemma FewerDigits(n: int)
    requires 1 <= n < 1000
    ensures |YearDigits(n)| < 4
  {
    if 10 <= n {
      assert |YearDigits(n)| == |YearDigits(n / 10)| + 1;
      if 100 <= n {
        assert |YearDigits(n / 10)| == |YearDigits(n / 10 / 10)| + 1;
      }
    }
  }

  lemma YearSplits(y: int)
    requires 1000 <= y <= MAX_YEAR
    ensures 0 <= y / 1000 <= 9
    ensures y / 1000 * 1000 + y / 100 % 10 * 100 + y / 10 % 10 * 10 + y % 10 == y
  {
    var a := y / 10;
    var b := a / 10;
    assert b == y / 100 && b / 10 == y / 1000;
    assert y == 10 * a + y % 10 && a == 10 * b + a % 10 && b == 10 * (b / 10) + b % 10;
  }

  lemma YearJoins(a: int, b: int, c: int, d: int, y: int)
    requires 0 <= a <= 9 && 0 <= b <= 9 && 0 <= c <= 9 && 0 <= d <= 9
    requires y == a * 1000 + b * 100 + c * 10 + d
    ensures y / 1000 == a && y / 100 % 10 == b && y / 10 % 10 == c && y % 10 == d
  {
    assert y / 10 == a * 100 + b * 10 + c;
    assert y / 100 == a * 10 + b;
  }

  /** The six characters for a four-digit year and a month. */
  function SixDigits(a: int, b: int, c: int, d: int, e: int, f: int): (s: string)
    requires 0 <= a <= 9 && 0 <= b <= 9 && 0 <= c <= 9 && 0 <= d <= 9 && 0 <= e <= 9 && 0 <= f <= 9
    ensures AllDigits(s) && |s| == 6
    ensures DigitValue(s[0]) == a && DigitValue(s[1]) == b && DigitValue(s[2]) == c && DigitValue(s[3]) == d
    ensures DigitValue(s[4]) == e && DigitValue(s[5]) == f
  {
    [DigitChar(a), DigitChar(b), DigitChar(c), DigitChar(d), DigitChar(e), DigitChar(f)]
  }

  lemma NameDigits(y: int, m: int)
    requires 1000 <= y <= MAX_YEAR && 1 <= m <= 12
    ensures 0 <= y / 1000 <= 9
    ensures YearDigits(y) + MonthDigits(m) == SixDigits(y / 1000, y / 100 % 10, y / 10 % 10, y % 10, m / 10, m % 10)
  {
    FourDigits(y);
  }

  /** The job recognises the partitions it names, and reads back the month it wrote,
      exactly for four-digit years; a shorter year is taken for a foreign table. */
  lemma NameParsesBack(month: Date)
    requires IsMonth(month)
    ensures ParsePartitionName(PartitionName(month)) == if 1000 <= month.year then Partition(month) else Foreign
  {
    ParseOfPrefixed(YearDigits(month.year) + MonthDigits(month.month));
    if 1000 <= month.year {
      NameDigits(month.year, month.month);
      YearSplits(month.year);
    } else {
      FewerDigits(month.year);
    }
  }

  lemma SixDigitsReadBack(s: string)
    requires |s| == 6 && AllDigits(s)
    ensures s == SixDigits(DigitValue(s[0]), DigitValue(s[1]), DigitValue(s[2]), DigitValue(s[3]),
                           DigitValue(s[4]), DigitValue(s[5]))
  {
    forall i | 0 <= i < 6
      ensures s[i] == DigitChar(DigitValue(s[i]))
    {
      DigitCharOfValue(s[i]);
    }
  }

  lemma DigitCharOfValue(c: char)
    requires '0' <= c <= '9'
    ensures DigitChar(DigitValue(c)) == c
  {
    var d := c as int - '0' as int;
    if d < 5 {
      assert d == 0 || d == 1 || d == 2 || d == 3 || d == 4;
    } else {
      assert d == 5 || d == 6 || d == 7 || d == 8 || d == 9;
    }
  }

  /** Conversely a name taken for a partition is the name of that partition exactly from the
      year 1000 on. Below it the job takes, and drops, tables that it cannot have made. */
  lemma ParsedNameIsItsOwn(name: string)
    requires ParsePartitionName(name).Partition?
    ensures
      var m := ParsePartitionName(name).month;
      IsMonth(m) && (PartitionName(m) == name <==> 1000 <= m.year)
  {
    var s := name[|NAME_PREFIX|..];
    assert name == NAME_PREFIX + s;
    var m := ParseDigits(s).month;
    if 1000 <= m.year {
      DigitsAreTheName(s);
    } else {
      FewerDigits(m.year);
      assert |PartitionName(m)| < |name|;
    }
  }

  /** For one, January of year 1, whose partition is named otherwise. */
  lemma EarlyNameIsForeign()
    ensures
      var name := NAME_PREFIX + "000101";
      ParsePartitionName(name) == Partition(Date(1, 1, 1)) && PartitionName(Date(1, 1, 1)) != name
  {
    var name := NAME_PREFIX + "000101";
    ParseOfPrefixed("000101");
    ParsedNameIsItsOwn(name);
  }

  /** A name that stops the run: it has the form of a partition's, and no such month exists. */
  lemma NameWithoutAMonth()
    ensures ParsePartitionName(NAME_PREFIX + "202413").Unparsable?
  {
    ParseOfPrefixed("202413");
  }

  lemma DigitsAreTheName(s: string)
    requires |s| == 6 && AllDigits(s) && ParseDigits(s).Partition? && 1000 <= ParseDigits(s).month.year
    ensures
      var m := ParseDigits(s).month;
      IsMonth(m) && s == YearDigits(m.year) + MonthDigits(m.month)
  {
    var m := ParseDigits(s).month;
    YearJoins(DigitValue(s[0]), DigitValue(s[1]), DigitValue(s[2]), DigitValue(s[3]), m.year);
    SixDigitsReadBack(s);
    NameDigits(m.year, m.month);
    hide DigitChar, YearDigits, MonthDigits;
  }
}
