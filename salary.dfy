/** The "Salary:" line of a job's detail block. */
module Salary {
  import opened Wrappers
  import opened Jobs
  import opened Thousands

  /** `" (interval)"` when the interval is known, nothing otherwise. */
  function IntervalSuffix(interval: Option<string>): string
  {
    match interval
    case None => ""
    case Some(i) => " (" + i + ")"
  }

  /** The salary line of a row, as the display promises it: none without
      amounts; `$min - $max` with both; `$min` or `$max` with one; followed by
      the interval in parentheses when it is known. */
  function SalaryLine(row: Row): (line: Option<string>)
    ensures line.Some? <==> row.minAmount.Some? || row.maxAmount.Some?
  {
    match (row.minAmount, row.maxAmount)
    case (None, None) => None
    case (Some(lo), None) => Some("$" + FormatThousands(lo) + IntervalSuffix(row.interval))
    case (None, Some(hi)) => Some("$" + FormatThousands(hi) + IntervalSuffix(row.interval))
    case (Some(lo), Some(hi)) => Some("$" + FormatThousands(lo) + " - $" + FormatThousands(hi) + IntervalSuffix(row.interval))
  }

  /** The detail block's construction of `salary_range`: start empty, append the
      minimum, then the maximum (after a separator if something is already
      there), then the interval. */
  method BuildSalaryRange(row: Row) returns (line: Option<string>)
    ensures line == SalaryLine(row)
  {
    if row.minAmount.Some? || row.maxAmount.Some? {
      var salaryRange := "";
      if row.minAmount.Some? {
        salaryRange := salaryRange + ("$" + FormatThousands(row.minAmount.value));
        assert salaryRange == "$" + FormatThousands(row.minAmount.value);
      }
      if row.maxAmount.Some? {
        if salaryRange != "" {
          ghost var before := salaryRange;
          salaryRange := salaryRange + (" - $" + FormatThousands(row.maxAmount.value));
          AppendAssoc(before, " - $", FormatThousands(row.maxAmount.value));
        } else {
          salaryRange := "$" + FormatThousands(row.maxAmount.value);
        }
      }
      if row.interval.Some? {
        salaryRange := salaryRange + (" (" + row.interval.value + ")");
      } else {
        assert salaryRange + IntervalSuffix(row.interval) == salaryRange;
      }
      line := Some(salaryRange);
    } else {
      line := None;
    }
  }

  /** Concatenation regrouped, as appending an f-string piece to `salary_range` needs. */
  lemma AppendAssoc(a: string, b: string, c: string)
    ensures a + (b + c) == a + b + c
  {
  }

  /** The loop over the displayed rows, reduced to the salary line each detail
      block shows. */
  method RenderSalaries(rows: seq<Row>) returns (lines: seq<Option<string>>)
    ensures |lines| == |rows|
    ensures forall i :: 0 <= i < |rows| ==> lines[i] == SalaryLine(rows[i])
  {
    lines := [];
    for k := 0 to |rows|
      invariant |lines| == k
      invariant forall i :: 0 <= i < k ==> lines[i] == SalaryLine(rows[i])
    {
      var line := BuildSalaryRange(rows[k]);
      lines := lines + [line];
    }
  }

  /** The text before the first space. */
  function UpToSpace(s: string): string
    decreases |s|
  {
    if s == [] || s[0] == ' ' then [] else [s[0]] + UpToSpace(s[1..])
  }

  /** A text without spaces, followed by nothing or by something starting with a
      space, is what comes before the first space. */
  lemma {:induction false} UpToSpaceOfPrefix(a: string, x: string)
    requires NoSpace(a)
    requires x == [] || x[0] == ' '
    ensures UpToSpace(a + x) == a
    decreases |a|
  {
    if a == [] {
      assert a + x == x;
    } else {
      UpToSpaceOfPrefix(a[1..], x);
      assert (a + x)[0] == a[0] && (a + x)[1..] == a[1..] + x;
    }
  }

  /** Two texts without spaces, each followed by nothing or by something that
      starts with a space, are told apart at the first space. */
  lemma SplitAtSpace(a: string, x: string, b: string, y: string)
    requires a + x == b + y
    requires NoSpace(a) && NoSpace(b)
    requires x == [] || x[0] == ' '
    requires y == [] || y[0] == ' '
    ensures a == b && x == y
  {
    UpToSpaceOfPrefix(a, x);
    UpToSpaceOfPrefix(b, y);
    var ax := a + x;
    assert x == ax[|a|..] && y == ax[|b|..];
  }

  /** The shape of a line with both amounts, `$lo - $hi` and a suffix, can be
      read back when the amounts have no space and the suffix starts with one. */
  lemma RangeLineSplit(lo1: string, hi1: string, s1: string, lo2: string, hi2: string, s2: string)
    requires NoSpace(lo1) && NoSpace(hi1) && NoSpace(lo2) && NoSpace(hi2)
    requires s1 == [] || s1[0] == ' '
    requires s2 == [] || s2[0] == ' '
    requires "$" + lo1 + " - $" + hi1 + s1 == "$" + lo2 + " - $" + hi2 + s2
    ensures lo1 == lo2 && hi1 == hi2 && s1 == s2
  {
    var rest1, rest2 := " - $" + hi1 + s1, " - $" + hi2 + s2;
    assert ("$" + lo1 + " - $" + hi1 + s1)[1..] == lo1 + rest1;
    assert ("$" + lo2 + " - $" + hi2 + s2)[1..] == lo2 + rest2;
    SplitAtSpace(lo1, rest1, lo2, rest2);
    assert rest1[4..] == hi1 + s1 && rest2[4..] == hi2 + s2;
    SplitAtSpace(hi1, s1, hi2, s2);
  }

  /** The suffix determines the interval. */
  lemma IntervalSuffixInjective(i1: Option<string>, i2: Option<string>)
    requires IntervalSuffix(i1) == IntervalSuffix(i2)
    ensures i1 == i2
  {
    if i1.Some? && i2.Some? {
      var s1, s2 := IntervalSuffix(i1), IntervalSuffix(i2);
      assert i1.value == s1[2..|s1| - 1];
      assert i2.value == s2[2..|s2| - 1];
    }
  }

  /** A salary line ends with `)` exactly when the interval is known: a
      formatted amount always ends with a digit. */
  lemma SalaryLineMentionsInterval(row: Row)
    requires SalaryLine(row).Some?
    ensures var line := SalaryLine(row).value;
      |line| > 0 && (line[|line| - 1] == ')' <==> row.interval.Some?)
  {
    var last := if row.maxAmount.Some? then row.maxAmount.value else row.minAmount.value;
    FormatEndsWithDigit(last);
    var f := FormatThousands(last);
    var line := SalaryLine(row).value;
    if row.interval.None? {
      assert line[|line| - 1] == f[|f| - 1];
    }
  }

  /** With both amounts known, the line determines the minimum, the maximum and
      the interval: it can be read back. */
  lemma SalaryLineDeterminesRange(r1: Row, r2: Row)
    requires r1.minAmount.Some? && r1.maxAmount.Some?
    requires r2.minAmount.Some? && r2.maxAmount.Some?
    requires SalaryLine(r1) == SalaryLine(r2)
    ensures r1.minAmount == r2.minAmount && r1.maxAmount == r2.maxAmount && r1.interval == r2.interval
  {
    FormatNoSpace(r1.minAmount.value);
    FormatNoSpace(r1.maxAmount.value);
    FormatNoSpace(r2.minAmount.value);
    FormatNoSpace(r2.maxAmount.value);
    RangeLineSplit(FormatThousands(r1.minAmount.value), FormatThousands(r1.maxAmount.value), IntervalSuffix(r1.interval),
                   FormatThousands(r2.minAmount.value), FormatThousands(r2.maxAmount.value), IntervalSuffix(r2.interval));
    FormatInjective(r1.minAmount.value, r2.minAmount.value);
    FormatInjective(r1.maxAmount.value, r2.maxAmount.value);
    IntervalSuffixInjective(r1.interval, r2.interval);
  }

  /** With one amount known, the line does not tell whether it is the minimum or
      the maximum: both print as `$amount`. */
  lemma OneAmountLineIsAmbiguous(amount: int, interval: Option<string>, r1: Row, r2: Row)
    requires r1.minAmount == Some(amount) && r1.maxAmount == None && r1.interval == interval
    requires r2.minAmount == None && r2.maxAmount == Some(amount) && r2.interval == interval
    ensures SalaryLine(r1) == SalaryLine(r2) == Some("$" + FormatThousands(amount) + IntervalSuffix(interval))
  {
  }

  /** A yearly range from 50000 to 70000 reads "$50,000 - $70,000 (yearly)". */
  lemma SalaryLineRangeExample(row: Row)
    requires row.minAmount == Some(50000) && row.maxAmount == Some(70000) && row.interval == Some("yearly")
    ensures SalaryLine(row) == Some("$50,000 - $70,000 (yearly)")
  {
    Format50000();
    Format70000();
    assert IntervalSuffix(row.interval) == " (yearly)";
    assert SalaryLine(row).value == "$" + "50,000" + " - $" + "70,000" + " (yearly)";
    assert "$" + "50,000" + " - $" + "70,000" + " (yearly)" == "$50,000 - $70,000 (yearly)";
  }

  /** A maximum of 90000 alone, without interval, reads "$90,000"; a row with
      no amount has no salary line. */
  lemma SalaryLineMaxOnlyExample(row: Row, bare: Row)
    requires row.minAmount == None && row.maxAmount == Some(90000) && row.interval == None
    requires bare.minAmount == None && bare.maxAmount == None
    ensures SalaryLine(row) == Some("$90,000")
    ensures SalaryLine(bare) == None
  {
    Format90000();
    assert IntervalSuffix(row.interval) == "";
    assert "$" + "90,000" + "" == "$90,000";
  }
}
