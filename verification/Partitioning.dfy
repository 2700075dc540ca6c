// Monthly range partitions (backend/app/core/partitioning.py).
module Partitioning {
  import opened Calendar

  // From its first date up to the date it does not reach any more.
  datatype Range = Range(from: Date, to: Date)

  predicate Contains(r: Range, d: Date) {
    NotAfter(r.from, d) && Before(d, r.to)
  }

  predicate Overlap(a: Range, b: Range) {
    Before(a.from, b.to) && Before(b.from, a.to)
  }

  // Months counted from January of year 0.
  function MonthOf(d: Date): int {
    12 * d.year + d.month - 1
  }

  // The months whose range the calendar can express.
  predicate IsMonth(m: int) {
    12 <= m && m + 1 < 12 * 10000
  }

  // Month arithmetic on the first day of a month.
  function FirstDay(m: int): Date
    requires 12 <= m < 12 * 10000
  {
    Date(m / 12, m % 12 + 1, 1)
  }

  function RangeOf(m: int): Range
    requires IsMonth(m)
  {
    Range(FirstDay(m), FirstDay(m + 1))
  }

  // The table's name, then the year in four digits and the month in two.
  function NameOf(tbl: string, m: int): string
    requires IsMonth(m)
  {
    tbl + "_p_" + TwoDigits(m / 12 / 100) + TwoDigits(m / 12 % 100) + TwoDigits(m % 12 + 1)
  }

  // ---------- tiling ----------

  // A month's range holds exactly the dates of that month.
  lemma RangeHoldsItsMonth(m: int, d: Date)
    requires IsMonth(m)
    ensures Contains(RangeOf(m), d) <==> MonthOf(d) == m
    ensures Contains(RangeOf(m), d) <==> m == 12 * d.year + (d.month - 1)
  {
    assert m == 12 * (m / 12) + m % 12;
    assert m + 1 == 12 * ((m + 1) / 12) + (m + 1) % 12;
  }

  // Two ranges overlap exactly when they have a date in common.
  lemma OverlapMeans(a: Range, b: Range)
    requires Before(a.from, a.to) && Before(b.from, b.to)
    ensures Overlap(a, b) <==> exists d: Date :: Contains(a, d) && Contains(b, d)
  {
    if Overlap(a, b) {
      var d := if Before(a.from, b.from) then b.from else a.from;
      assert Contains(a, d) && Contains(b, d);
    }
  }

  // Consecutive ranges meet, and the ranges of two different months have no date in common.
  lemma RangesTile(m: int, n: int)
    requires IsMonth(m) && IsMonth(n)
    ensures n == m + 1 ==> RangeOf(m).to == RangeOf(n).from
    ensures Overlap(RangeOf(m), RangeOf(n)) <==> m == n
  {
    FirstDaysAscend(m, n);
    FirstDaysAscend(m, n + 1);
    FirstDaysAscend(n, m + 1);
  }

  lemma FirstDaysAscend(m: int, n: int)
    requires 12 <= m < 12 * 10000 && 12 <= n < 12 * 10000
    ensures Before(FirstDay(m), FirstDay(n)) <==> m < n
    ensures FirstDay(m) == FirstDay(n) <==> m == n
  {
    assert m == 12 * (m / 12) + m % 12;
    assert n == 12 * (n / 12) + n % 12;
  }

  // The ranges of the months lo to hi cover exactly the dates from the first day of lo up
  // to, and without, the first day after hi; each such date lies in exactly one of them.
  lemma MonthsCoverTheirSpan(lo: int, hi: int, d: Date)
    requires IsMonth(lo) && IsMonth(hi) && lo <= hi
    ensures Contains(Range(FirstDay(lo), FirstDay(hi + 1)), d) <==>
            exists m :: lo <= m <= hi && Contains(RangeOf(m), d)
    ensures forall m, n :: lo <= m <= hi && lo <= n <= hi && Contains(RangeOf(m), d) && Contains(RangeOf(n), d) ==> m == n
  {
    var m := MonthOf(d);
    assert lo == 12 * (lo / 12) + lo % 12;
    assert hi + 1 == 12 * ((hi + 1) / 12) + (hi + 1) % 12;
    if lo <= m <= hi {
      RangeHoldsItsMonth(m, d);
    }
    forall n | lo <= n <= hi
      ensures Contains(RangeOf(n), d) <==> n == m
    {
      RangeHoldsItsMonth(n, d);
    }
  }

  lemma PairsEqual(head: string, a: string, b: string, c: string, x: string, y: string, z: string)
    requires |a| == |x| && |b| == |y| && |c| == |z| && head + a + b + c == head + x + y + z
    ensures a == x && b == y && c == z
  {
    var s, t, k := head + a + b + c, head + x + y + z, |head|;
    assert a == s[k..k + |a|] && x == t[k..k + |a|];
    assert b == s[k + |a|..k + |a| + |b|] && y == t[k + |a|..k + |a| + |b|];
    assert c == s[k + |a| + |b|..] && z == t[k + |a| + |b|..];
  }

  ghost function Decimal(s: string): int {
    if s == "" then 0 else 10 * Decimal(s[..|s| - 1]) + (s[|s| - 1] as int - '0' as int)
  }

  // The partition of a date is named after the table and the date's year and month.
  lemma NameSpells(tbl: string, m: int, d: Date) returns (digits: string)
    requires IsMonth(m) && Contains(RangeOf(m), d)
    ensures NameOf(tbl, m) == tbl + "_p_" + digits
    ensures |digits| == 6 && (forall i :: 0 <= i < 6 ==> '0' <= digits[i] <= '9')
    ensures Decimal(digits) == 100 * d.year + d.month
  {
    RangeHoldsItsMonth(m, d);
    var y, mm := m / 12, m % 12 + 1;
    assert y == d.year && mm == d.month;
    digits := TwoDigits(y / 100) + TwoDigits(y % 100) + TwoDigits(mm);
    NameJoins(tbl + "_p_", TwoDigits(y / 100), TwoDigits(y % 100), TwoDigits(mm));
    TwoDecimals("", y / 100);
    TwoDecimals(TwoDigits(y / 100), y % 100);
    TwoDecimals(TwoDigits(y / 100) + TwoDigits(y % 100), mm);
    assert "" + TwoDigits(y / 100) == TwoDigits(y / 100);
    assert Decimal(TwoDigits(y / 100) + TwoDigits(y % 100)) == y;
  }

  lemma NameJoins(head: string, a: string, b: string, c: string)
    ensures head + a + b + c == head + (a + b + c)
  {
  }

  lemma OneDecimal(s: string, n: nat)
    requires n < 10
    ensures Decimal(s + [DigitChar(n)]) == 10 * Decimal(s) + n && '0' <= DigitChar(n) <= '9'
  {
    assert (s + [DigitChar(n)])[..|s|] == s;
  }

  lemma TwoDecimals(s: string, n: nat)
    requires n < 100
    ensures Decimal(s + TwoDigits(n)) == 100 * Decimal(s) + n
    ensures forall i :: 0 <= i < 2 ==> '0' <= TwoDigits(n)[i] <= '9'
  {
    hide Decimal, DigitChar;
    OneDecimal(s, n / 10);
    OneDecimal(s + [DigitChar(n / 10)], n % 10);
    assert s + TwoDigits(n) == s + [DigitChar(n / 10)] + [DigitChar(n % 10)];
  }

  lemma NamesDistinct(tbl: string, m: int, n: int)
    requires IsMonth(m) && IsMonth(n)
    ensures NameOf(tbl, m) == NameOf(tbl, n) <==> m == n
  {
    if NameOf(tbl, m) == NameOf(tbl, n) {
      var c, y, mm := m / 12 / 100, m / 12 % 100, m % 12 + 1;
      var c', y', mm' := n / 12 / 100, n / 12 % 100, n % 12 + 1;
      hide TwoDigits;
      PairsEqual(tbl + "_p_", TwoDigits(c), TwoDigits(y), TwoDigits(mm), TwoDigits(c'), TwoDigits(y'), TwoDigits(mm'));
      TwoDigitsInjective(c, c');
      TwoDigitsInjective(y, y');
      TwoDigitsInjective(mm, mm');
      SameYearAndMonth(m, n);
    }
  }

  lemma SameYearAndMonth(m: int, n: int)
    requires m / 12 / 100 == n / 12 / 100 && m / 12 % 100 == n / 12 % 100 && m % 12 == n % 12
    ensures m == n
  {
    assert m / 12 == 100 * (m / 12 / 100) + m / 12 % 100;
    assert n / 12 == 100 * (n / 12 / 100) + n / 12 % 100;
    assert m == 12 * (m / 12) + m % 12;
    assert n == 12 * (n / 12) + n % 12;
  }

  // ---------- creating partitions ----------

  type Partitions = map<string, Range>

  // The partitions are those of the given months.
  ghost predicate FamilyOf(tbl: string, months: set<int>, parts: Partitions) {
    && (forall m :: m in months ==> IsMonth(m) && NameOf(tbl, m) in parts && parts[NameOf(tbl, m)] == RangeOf(m))
    && (forall name :: name in parts ==> exists m :: m in months && IsMonth(m) && name == NameOf(tbl, m))
  }

  ghost function Months(lo: int, hi: int): (months: set<int>)
    ensures forall m :: m in months <==> lo <= m <= hi
    decreases hi - lo
  {
    if lo > hi then {} else Months(lo, hi - 1) + {hi}
  }

  class Catalog {
    var parts: Partitions

    constructor ()
      ensures parts == map[]
    {
      parts := map[];
    }

    // CREATE TABLE IF NOT EXISTS name PARTITION OF ...: an existing name is left alone, and
    // a range that overlaps another partition is an error.
    method CreatePartition(name: string, range: Range) returns (ok: bool)
      modifies this
      ensures name in old(parts) ==> ok && parts == old(parts)
      ensures name !in old(parts) && (exists other :: other in old(parts) && Overlap(old(parts)[other], range)) ==>
                !ok && parts == old(parts)
      ensures name !in old(parts) && !(exists other :: other in old(parts) && Overlap(old(parts)[other], range)) ==>
                ok && parts == old(parts)[name := range]
    {
      if name in parts {
        return true;
      }
      if exists other | other in parts :: Overlap(parts[other], range) {
        return false;
      }
      parts := parts[name := range];
      ok := true;
    }

    // From months_backfill before the start month to months_ahead after it. On a catalog
    // that earlier runs made, no statement fails, what exists is kept, and the catalog is
    // the family of the months of all runs.
    method EnsureMonthlyPartitions(tbl: string, start: Date, backfill: int, ahead: int, ghost months: set<int>) returns (ok: bool)
      requires FamilyOf(tbl, months, parts)
      requires -backfill <= ahead ==> IsMonth(MonthOf(start) - backfill) && IsMonth(MonthOf(start) + ahead)
      modifies this
      ensures ok
      ensures FamilyOf(tbl, months + Months(MonthOf(start) - backfill, MonthOf(start) + ahead), parts)
      ensures forall name :: name in old(parts) ==> name in parts && parts[name] == old(parts)[name]
    {
      hide FamilyOf, NameOf, FirstDay, Overlap;
      ok := true;
      var base, i := MonthOf(start), -backfill;
      assert months + Months(base - backfill, base + i - 1) == months;
      while i <= ahead
        invariant -backfill <= i && (i <= ahead + 1 || i == -backfill)
        invariant FamilyOf(tbl, months + Months(base - backfill, base + i - 1), parts)
        invariant forall name :: name in old(parts) ==> name in parts && parts[name] == old(parts)[name]
        decreases ahead - i
      {
        var m := base + i;
        ghost var done := months + Months(base - backfill, m - 1);
        NoOverlap(tbl, done, parts, m);
        ghost var before := parts;
        var created := CreatePartition(NameOf(tbl, m), Range(FirstDay(m), FirstDay(m + 1)));
        if !created {
          return false;
        }
        AddMonth(tbl, done, before, parts, m);
        assert done + {m} == months + Months(base - backfill, m);
        i := i + 1;
      }
      assert Months(base - backfill, base + i - 1) == Months(base - backfill, base + ahead);
    }
  }

  lemma NoOverlap(tbl: string, months: set<int>, parts: Partitions, m: int)
    requires FamilyOf(tbl, months, parts) && IsMonth(m)
    ensures NameOf(tbl, m) !in parts ==> forall other :: other in parts ==> !Overlap(parts[other], RangeOf(m))
    ensures NameOf(tbl, m) in parts ==> m in months && parts[NameOf(tbl, m)] == RangeOf(m)
  {
    forall other | other in parts
      ensures NameOf(tbl, m) !in parts ==> !Overlap(parts[other], RangeOf(m))
      ensures other == NameOf(tbl, m) ==> m in months && parts[other] == RangeOf(m)
    {
      var n :| n in months && IsMonth(n) && other == NameOf(tbl, n);
      RangesTile(n, m);
      NamesDistinct(tbl, n, m);
    }
  }

  lemma AddMonth(tbl: string, months: set<int>, before: Partitions, after: Partitions, m: int)
    requires FamilyOf(tbl, months, before) && IsMonth(m)
    requires after == if NameOf(tbl, m) in before then before else before[NameOf(tbl, m) := RangeOf(m)]
    ensures FamilyOf(tbl, months + {m}, after)
  {
    NoOverlap(tbl, months, before, m);
    forall n | n in months
      ensures NameOf(tbl, n) in after && after[NameOf(tbl, n)] == RangeOf(n)
    {
      NamesDistinct(tbl, n, m);
    }
  }

  // A family of months never has two partitions that share a date.
  lemma FamilyIsDisjoint(tbl: string, months: set<int>, parts: Partitions, a: string, b: string, d: Date)
    requires FamilyOf(tbl, months, parts) && a in parts && b in parts
    requires Contains(parts[a], d) && Contains(parts[b], d)
    ensures a == b && MonthOf(d) in months
  {
    var m :| m in months && IsMonth(m) && a == NameOf(tbl, m);
    var n :| n in months && IsMonth(n) && b == NameOf(tbl, n);
    RangeHoldsItsMonth(m, d);
    RangeHoldsItsMonth(n, d);
  }

  // A date finds a partition exactly when its month was ensured.
  lemma DateHasPartition(tbl: string, months: set<int>, parts: Partitions, d: Date)
    requires FamilyOf(tbl, months, parts)
    ensures (exists name :: name in parts && Contains(parts[name], d)) <==> MonthOf(d) in months
  {
    if MonthOf(d) in months {
      RangeHoldsItsMonth(MonthOf(d), d);
      assert NameOf(tbl, MonthOf(d)) in parts;
    }
    forall name | name in parts && Contains(parts[name], d)
      ensures MonthOf(d) in months
    {
      FamilyIsDisjoint(tbl, months, parts, name, name, d);
    }
  }

  ghost predicate GapFree(months: set<int>) {
    forall m, n, k :: m in months && n in months && m <= k <= n ==> k in months
  }

  // Two startups with the same settings, the second `later` months after the first, leave
  // no month out exactly when at most backfill + ahead + 1 months lie between them.
  lemma RestartLeavesNoGapExactlyWhen(start: int, later: nat, backfill: nat, ahead: nat)
    ensures GapFree(Months(start - backfill, start + ahead) + Months(start + later - backfill, start + later + ahead))
            <==> later <= backfill + ahead + 1
  {
    var both := Months(start - backfill, start + ahead) + Months(start + later - backfill, start + later + ahead);
    if later > backfill + ahead + 1 {
      assert start in both && start + later in both && start + ahead + 1 !in both;
    }
  }
}
