/** Python's `format(n, ",")` on an integer: the decimal form with a comma
    between each group of three digits, counted from the right. */
module Thousands {

  predicate IsDigit(ch: char)
  {
    '0' <= ch <= '9'
  }

  predicate AllDigits(s: string)
  {
    forall i :: 0 <= i < |s| ==> IsDigit(s[i])
  }

  /** The character of a decimal digit. */
  function DigitChar(d: nat): (ch: char)
    requires d < 10
    ensures IsDigit(ch) && ch as int - '0' as int == d
  {
    ('0' as int + d) as char
  }

  /** The decimal form of `n`, with no leading zero. */
  function Decimal(n: nat): (s: string)
    ensures 1 <= |s| && AllDigits(s)
    ensures s[0] == '0' <==> n == 0
    decreases n
  {
    if n < 10 then [DigitChar(n)] else Decimal(n / 10) + [DigitChar(n % 10)]
  }

  /** The number a string of decimal digits denotes. */
  function DecimalValue(s: string): nat
    requires AllDigits(s)
    decreases |s|
  {
    if s == [] then 0
    else DecimalValue(s[..|s| - 1]) * 10 + (s[|s| - 1] as int - '0' as int)
  }

  /** Grouping: a comma before each block of three digits from the right. */
  function Group(s: string): string
    decreases |s|
  {
    if |s| <= 3 then s else Group(s[..|s| - 3]) + "," + s[|s| - 3..]
  }

  /** `format(n, ",")`: a minus sign for a negative number, then the grouped
      decimal form of its magnitude. */
  function FormatThousands(n: int): (s: string)
    ensures |s| > 0
    ensures n < 0 ==> s[0] == '-'
  {
    if n < 0 then "-" + Group(Decimal(-n)) else Group(Decimal(n))
  }

  /** The text with its commas removed. */
  function RemoveCommas(s: string): string
    decreases |s|
  {
    if s == [] then [] else KeepNonComma(s[0]) + RemoveCommas(s[1..])
  }

  /** One character with a comma dropped. */
  function KeepNonComma(ch: char): string
  {
    if ch == ',' then [] else [ch]
  }

  /** Reading back a decimal form gives the number. */
  lemma {:induction false} DecimalRoundTrip(n: nat)
    ensures DecimalValue(Decimal(n)) == n
    decreases n
  {
    if n >= 10 {
      DecimalRoundTrip(n / 10);
      var s := Decimal(n);
      assert s[..|s| - 1] == Decimal(n / 10);
    }
  }

  lemma {:induction false} RemoveCommasAppend(a: string, b: string)
    ensures RemoveCommas(a + b) == RemoveCommas(a) + RemoveCommas(b)
    decreases |a|
  {
    if a == [] {
      assert a + b == b;
    } else {
      RemoveCommasAppend(a[1..], b);
      var ab := a + b;
      assert ab[0] == a[0] && ab[1..] == a[1..] + b;
      calc {
        RemoveCommas(ab);
        KeepNonComma(a[0]) + RemoveCommas(a[1..] + b);
        KeepNonComma(a[0]) + (RemoveCommas(a[1..]) + RemoveCommas(b));
        (KeepNonComma(a[0]) + RemoveCommas(a[1..])) + RemoveCommas(b);
      }
    }
  }

  lemma {:induction false} RemoveCommasOfDigits(s: string)
    requires AllDigits(s)
    ensures RemoveCommas(s) == s
    decreases |s|
  {
    if s != [] {
      RemoveCommasOfDigits(s[1..]);
    }
  }

  /** Grouping only inserts commas: removing them gives the digits back. */
  lemma {:induction false} GroupRemoveCommas(s: string)
    requires AllDigits(s)
    ensures RemoveCommas(Group(s)) == s
    decreases |s|
  {
    if |s| <= 3 {
      RemoveCommasOfDigits(s);
    } else {
      var head, tail := s[..|s| - 3], s[|s| - 3..];
      var gh := Group(head);
      GroupRemoveCommas(head);
      RemoveCommasOfDigits(tail);
      assert RemoveCommas(",") == [] by {
        assert ","[1..] == [];
      }
      RemoveCommasAppend(gh + ",", tail);
      RemoveCommasAppend(gh, ",");
      assert Group(s) == gh + "," + tail;
      assert head + tail == s;
    }
  }

  /** A grouped number starts with the first digit and ends with the last. */
  lemma {:induction false} GroupEnds(s: string)
    requires 0 < |s|
    ensures |Group(s)| > 0 && Group(s)[0] == s[0] && Group(s)[|Group(s)| - 1] == s[|s| - 1]
    decreases |s|
  {
    if |s| > 3 {
      var head, tail := s[..|s| - 3], s[|s| - 3..];
      GroupEnds(head);
      var g := Group(s);
      assert g == Group(head) + "," + tail;
      assert g[0] == Group(head)[0] == head[0] == s[0];
      assert g[|g| - 1] == tail[2] == s[|s| - 1];
    }
  }

  /** The commas of a grouped number stand exactly at the positions that are a
      multiple of four from the end, so the first group has one to three digits
      and every later group exactly three. */
  lemma {:induction false} GroupCommaPositions(s: string)
    requires 0 < |s| && AllDigits(s)
    ensures |Group(s)| == |s| + (|s| - 1) / 3
    ensures forall i :: 0 <= i < |Group(s)| ==> (Group(s)[i] == ',' <==> (|Group(s)| - i) % 4 == 0)
    decreases |s|
  {
    if |s| > 3 {
      var head, tail := s[..|s| - 3], s[|s| - 3..];
      GroupCommaPositions(head);
      var g, gh := Group(s), Group(head);
      assert g == gh + "," + tail;
      forall i | 0 <= i < |g| ensures g[i] == ',' <==> (|g| - i) % 4 == 0 {
        CommaPositionStep(gh, tail, i);
      }
    }
  }

  /** Adding a comma and the last three digits keeps the comma positions, counted
      from the end, a multiple of four. */
  lemma CommaPositionStep(gh: string, tail: string, i: nat)
    requires forall k :: 0 <= k < |gh| ==> (gh[k] == ',' <==> (|gh| - k) % 4 == 0)
    requires |tail| == 3 && AllDigits(tail)
    requires i < |gh| + 4
    ensures (gh + "," + tail)[i] == ',' <==> (|gh| + 4 - i) % 4 == 0
  {
    var g := gh + "," + tail;
    if i < |gh| {
      assert g[i] == gh[i];
      assert (|gh| + 4 - i) % 4 == (|gh| - i) % 4;
    } else if i > |gh| {
      assert g[i] == tail[i - |gh| - 1];
    }
  }

  /** Every formatted number ends with a digit. */
  lemma FormatEndsWithDigit(n: int)
    ensures |FormatThousands(n)| > 0 && IsDigit(FormatThousands(n)[|FormatThousands(n)| - 1])
  {
    GroupEnds(Decimal(if n < 0 then -n else n));
  }

  /** No space occurs in a formatted amount. */
  predicate NoSpace(s: string)
  {
    forall i :: 0 <= i < |s| ==> s[i] != ' '
  }

  /** A grouped number holds only digits and commas. */
  lemma {:induction false} GroupChars(s: string)
    requires AllDigits(s)
    ensures forall i :: 0 <= i < |Group(s)| ==> IsDigit(Group(s)[i]) || Group(s)[i] == ','
    decreases |s|
  {
    if |s| > 3 {
      var head, tail := s[..|s| - 3], s[|s| - 3..];
      GroupChars(head);
      assert Group(s) == Group(head) + "," + tail;
    }
  }

  /** A formatted amount is a minus sign, digits and commas, so it has no space. */
  lemma FormatNoSpace(n: int)
    ensures NoSpace(FormatThousands(n))
  {
    GroupChars(Decimal(if n < 0 then -n else n));
  }

  /** Removing the commas gives the plain decimal form (with its sign). */
  lemma FormatWithoutCommas(n: int)
    ensures RemoveCommas(FormatThousands(n)) == if n < 0 then "-" + Decimal(-n) else Decimal(n)
  {
    if n < 0 {
      GroupRemoveCommas(Decimal(-n));
      RemoveCommasAppend("-", Group(Decimal(-n)));
      assert RemoveCommas("-") == "-" by {
        assert "-"[1..] == [];
      }
    } else {
      GroupRemoveCommas(Decimal(n));
    }
  }

  /** Distinct amounts are displayed differently: the formatted text determines
      the number. */
  lemma FormatInjective(a: int, b: int)
    requires FormatThousands(a) == FormatThousands(b)
    ensures a == b
  {
    FormatSign(a);
    FormatSign(b);
    FormatWithoutCommas(a);
    FormatWithoutCommas(b);
    if a < 0 {
      var da, db := Decimal(-a), Decimal(-b);
      assert ("-" + da)[1..] == da && ("-" + db)[1..] == db;
      DecimalInjective(-a, -b);
    } else {
      DecimalInjective(a, b);
    }
  }

  /** Distinct numbers have distinct decimal forms. */
  lemma DecimalInjective(m: nat, n: nat)
    requires Decimal(m) == Decimal(n)
    ensures m == n
  {
    DecimalRoundTrip(m);
    DecimalRoundTrip(n);
  }

  /** A formatted number starts with a minus sign exactly when it is negative. */
  lemma FormatSign(n: int)
    ensures |FormatThousands(n)| > 0
    ensures FormatThousands(n)[0] == '-' <==> n < 0
  {
    GroupEnds(Decimal(if n < 0 then -n else n));
  }

  /** Amounts from 0 to 999 are printed without a comma. */
  lemma FormatBelowThousand(n: int)
    requires 0 <= n < 1000
    ensures FormatThousands(n) == Decimal(n)
  {
    DecimalLength(n);
  }

  /** A number below 1000 has at most three decimal digits. */
  lemma DecimalLength(n: nat)
    ensures n < 1000 ==> |Decimal(n)| <= 3
  {
    if n >= 10 {
      assert |Decimal(n)| == |Decimal(n / 10)| + 1;
      if n >= 100 {
        assert |Decimal(n / 10)| == |Decimal(n / 100)| + 1 by {
          assert n / 10 >= 10 && (n / 10) / 10 == n / 100;
        }
      }
    }
  }

  /** 50000 prints as "50,000". */
  lemma Format50000()
    ensures FormatThousands(50000) == "50,000"
  {
    assert Decimal(50000) == "50000";
    assert "50000"[..2] == "50" && "50000"[2..] == "000";
  }

  /** 70000 prints as "70,000". */
  lemma Format70000()
    ensures FormatThousands(70000) == "70,000"
  {
    assert Decimal(70000) == "70000";
    assert "70000"[..2] == "70" && "70000"[2..] == "000";
  }

  /** 90000 prints as "90,000". */
  lemma Format90000()
    ensures FormatThousands(90000) == "90,000"
  {
    assert Decimal(90000) == "90000";
    assert "90000"[..2] == "90" && "90000"[2..] == "000";
  }

  /** A negative amount keeps its sign in front of the groups: -1234 prints as "-1,234". */
  lemma FormatNegative()
    ensures FormatThousands(-1234) == "-1,234"
  {
    assert Decimal(1234) == "1234";
    assert "1234"[..1] == "1" && "1234"[1..] == "234";
  }
}
