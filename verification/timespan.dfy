/** `get_timedelta`: turns a span such as "6h" or "3days" into a duration in seconds.
    Digits anywhere in the text form the number; every other character forms the unit. */
module TimeSpan {
  import opened Outcomes
  import opened Text
  import Calendar

  datatype SpanError =
    | EmptyNumber                   // `int("")` raises ValueError
    | UnsupportedUnit(unit: string) // the explicit TypeError
    | OutOfRange                    // `timedelta` raises OverflowError beyond 999999999 days

  /** Digits go to the first string, everything else to the second, each in its
      original order. */
  function Split(arg: string): (r: (string, string))
    ensures AllDigits(r.0) && NoDigits(r.1)
  {
    if arg == [] then ("", "")
    else
      var rest := Split(arg[1..]);
      if IsDigit(arg[0]) then ([arg[0]] + rest.0, rest.1) else (rest.0, [arg[0]] + rest.1)
  }

  /** The two parts together hold exactly the characters of the input; the number part is
      empty exactly when the input has no digit. */
  lemma SplitPartitions(arg: string)
    ensures |Split(arg).0| + |Split(arg).1| == |arg|
    ensures multiset(Split(arg).0) + multiset(Split(arg).1) == multiset(arg)
    ensures (exists i :: 0 <= i < |arg| && IsDigit(arg[i])) <==> Split(arg).0 != []
  {
    SplitKeepsCharacters(arg);
    SplitFindsDigits(arg);
  }

  lemma {:induction false} SplitKeepsCharacters(arg: string)
    ensures |Split(arg).0| + |Split(arg).1| == |arg|
    ensures multiset(Split(arg).0) + multiset(Split(arg).1) == multiset(arg)
  {
    if arg != [] {
      SplitKeepsCharacters(arg[1..]);
      assert arg == [arg[0]] + arg[1..];
    }
  }

  lemma {:induction false} SplitFindsDigits(arg: string)
    ensures (exists i :: 0 <= i < |arg| && IsDigit(arg[i])) <==> Split(arg).0 != []
  {
    if arg != [] && !IsDigit(arg[0]) {
      SplitFindsDigits(arg[1..]);
      if exists i :: 0 <= i < |arg| && IsDigit(arg[i]) {
        var i :| 0 <= i < |arg| && IsDigit(arg[i]);
        assert arg[1..][i - 1] == arg[i];
      }
      if exists j :: 0 <= j < |arg[1..]| && IsDigit(arg[1..][j]) {
        var j :| 0 <= j < |arg[1..]| && IsDigit(arg[1..][j]);
        assert arg[j + 1] == arg[1..][j];
      }
    }
  }

  /** Splitting distributes over concatenation: what a character contributes does not
      depend on its neighbours. */
  lemma {:induction false} SplitConcat(a: string, b: string)
    ensures Split(a + b) == (Split(a).0 + Split(b).0, Split(a).1 + Split(b).1)
  {
    if a == [] {
      assert a + b == b;
      assert Split(a) == ("", "");
      assert "" + Split(b).0 == Split(b).0 && "" + Split(b).1 == Split(b).1;
    } else {
      var ab := a + b;
      assert ab[1..] == a[1..] + b;
      assert ab[0] == a[0];
      SplitConcat(a[1..], b);
      var rest := Split(a[1..] + b);
      var ra := Split(a[1..]);
      if IsDigit(a[0]) {
        assert Split(ab) == ([a[0]] + rest.0, rest.1);
        assert Split(a) == ([a[0]] + ra.0, ra.1);
        assert [a[0]] + rest.0 == ([a[0]] + ra.0) + Split(b).0;
      } else {
        assert Split(ab) == (rest.0, [a[0]] + rest.1);
        assert Split(a) == (ra.0, [a[0]] + ra.1);
        assert [a[0]] + rest.1 == ([a[0]] + ra.1) + Split(b).1;
      }
    }
  }

  /** The span, unless `timedelta` refuses it as too long. */
  function Span(seconds: int): (r: Result<int, SpanError>)
    ensures r.Ok? <==> Calendar.DeltaInRange(seconds)
    ensures r.Ok? ==> r.value == seconds
    ensures r.Err? ==> r.error == OutOfRange
  {
    if Calendar.DeltaInRange(seconds) then Ok(seconds) else Err(OutOfRange)
  }

  /** The duration in seconds: hours when the lower-cased unit starts with "h", days when
      it starts with "d", provided `timedelta` can hold it. */
  function GetTimedelta(arg: string): (r: Result<int, SpanError>)
    ensures Split(arg).0 == [] ==> r == Err(EmptyNumber)
    ensures r.Ok? <==>
              && (exists i :: 0 <= i < |arg| && IsDigit(arg[i]))
              && (StartsWith(Lower(Split(arg).1), "h") || StartsWith(Lower(Split(arg).1), "d"))
              && Calendar.DeltaInRange(DecimalValue(Split(arg).0) *
                   (if StartsWith(Lower(Split(arg).1), "h") then Calendar.SecondsPerHour else Calendar.SecondsPerDay))
    ensures r.Ok? ==> r.value >= 0
    ensures r.Ok? && StartsWith(Lower(Split(arg).1), "h") ==>
              r.value == DecimalValue(Split(arg).0) * Calendar.SecondsPerHour
    ensures r.Ok? && !StartsWith(Lower(Split(arg).1), "h") ==>
              r.value == DecimalValue(Split(arg).0) * Calendar.SecondsPerDay
    ensures r == Err(OutOfRange) <==>
              && Split(arg).0 != []
              && (StartsWith(Lower(Split(arg).1), "h") || StartsWith(Lower(Split(arg).1), "d"))
              && !r.Ok?
    ensures Split(arg).0 != [] && !StartsWith(Lower(Split(arg).1), "h") && !StartsWith(Lower(Split(arg).1), "d") ==>
              r == Err(UnsupportedUnit(Split(arg).1))
  {
    SplitPartitions(arg);
    var digits := Split(arg).0;
    var unit := Split(arg).1;
    if digits == [] then Err(EmptyNumber)
    else if StartsWith(Lower(unit), "h") then Span(DecimalValue(digits) * Calendar.SecondsPerHour)
    else if StartsWith(Lower(unit), "d") then Span(DecimalValue(digits) * Calendar.SecondsPerDay)
    else Err(UnsupportedUnit(unit))
  }

  lemma {:induction false} SplitUnit(u: string)
    requires NoDigits(u)
    ensures Split(u) == ("", u)
  {
    if u != [] {
      SplitUnit(u[1..]);
      assert u == [u[0]] + u[1..];
    }
  }

  lemma {:induction false} SplitNumber(s: string)
    requires AllDigits(s)
    ensures Split(s) == (s, "")
  {
    if s != [] {
      SplitNumber(s[1..]);
      assert s == [s[0]] + s[1..];
    }
  }

  /** The text "<digits><unit>" splits into exactly those two parts. */
  lemma SplitNumberThenUnit(digits: string, unit: string)
    requires AllDigits(digits) && NoDigits(unit)
    ensures Split(digits + unit) == (digits, unit)
  {
    SplitConcat(digits, unit);
    SplitNumber(digits);
    SplitUnit(unit);
    assert digits + "" == digits;
    assert "" + unit == unit;
  }

  /** A number followed by an hour unit ("6h", "6Hours") is that many hours, up to the
      24 * 10^9 hours from which `timedelta` has too many days. */
  lemma NumberThenHours(n: nat, unit: string)
    requires NoDigits(unit) && StartsWith(Lower(unit), "h")
    ensures n < 24 * (Calendar.MaxDeltaDays + 1) ==> GetTimedelta(Show(n) + unit) == Ok(n * 3600)
    ensures n >= 24 * (Calendar.MaxDeltaDays + 1) ==> GetTimedelta(Show(n) + unit) == Err(OutOfRange)
  {
    var digits := Show(n);
    SplitNumberThenUnit(digits, unit);
    ShowRoundTrip(n);
    assert digits != [];
    Calendar.DivUnique(n * 3600, 86400, n / 24, n % 24 * 3600);
  }

  /** A number followed by a day unit ("3d", "3days") is that many days, up to
      `timedelta`'s 999999999. */
  lemma NumberThenDays(n: nat, unit: string)
    requires NoDigits(unit) && StartsWith(Lower(unit), "d")
    ensures n <= Calendar.MaxDeltaDays ==> GetTimedelta(Show(n) + unit) == Ok(n * 86400)
    ensures n > Calendar.MaxDeltaDays ==> GetTimedelta(Show(n) + unit) == Err(OutOfRange)
  {
    var digits := Show(n);
    SplitNumberThenUnit(digits, unit);
    ShowRoundTrip(n);
    assert digits != [];
    assert !StartsWith(Lower(unit), "h");
    Calendar.DivUnique(n * 86400, 86400, n, 0);
  }

  /** Any other unit, the empty one included, is refused. */
  lemma NumberThenOtherUnit(n: nat, unit: string)
    requires NoDigits(unit) && !StartsWith(Lower(unit), "h") && !StartsWith(Lower(unit), "d")
    ensures GetTimedelta(Show(n) + unit) == Err(UnsupportedUnit(unit))
  {
    var digits := Show(n);
    SplitNumberThenUnit(digits, unit);
    assert digits != [];
  }

  /** "6h" and "6Hours" are six hours. */
  lemma ExampleHours()
    ensures GetTimedelta("6h") == Ok(21600)
    ensures GetTimedelta("6Hours") == Ok(21600)
  {
    assert Show(6) == "6";
    assert Lower("h")[..1] == "h";
    NumberThenHours(6, "h");
    assert "6" + "h" == "6h";
    assert Lower("Hours")[..1] == "h";
    NumberThenHours(6, "Hours");
    assert "6" + "Hours" == "6Hours";
  }

  /** "3d" is three days. */
  lemma ExampleDays()
    ensures GetTimedelta("3d") == Ok(259200)
  {
    assert Show(3) == "3";
    assert Lower("d")[..1] == "d";
    NumberThenDays(3, "d");
    assert "3" + "d" == "3d";
  }

  /** "5x" and "5" have no supported unit; "h" has no number. */
  lemma ExampleRejected()
    ensures GetTimedelta("5x") == Err(UnsupportedUnit("x"))
    ensures GetTimedelta("5") == Err(UnsupportedUnit(""))
    ensures GetTimedelta("h") == Err(EmptyNumber)
  {
    assert Show(5) == "5";
    assert Lower("x") == "x";
    NumberThenOtherUnit(5, "x");
    assert "5" + "x" == "5x";
    NumberThenOtherUnit(5, "");
    assert "5" + "" == "5";
    SplitUnit("h");
  }

  /** Appending a digit to the text of `n` gives the text of `10 * n + d`. */
  lemma ShowAppend(n: nat, d: nat)
    requires n >= 1 && d < 10
    ensures Show(n * 10 + d) == Show(n) + [DigitChar(d)]
  {
    assert (n * 10 + d) / 10 == n && (n * 10 + d) % 10 == d;
  }

  /** "1000000000d" is one day more than `timedelta` holds. */
  lemma ExampleDaysTooLong()
    ensures GetTimedelta("1000000000d") == Err(OutOfRange)
  {
    ShowAppend(1, 0); ShowAppend(10, 0); ShowAppend(100, 0); ShowAppend(1000, 0);
    ShowAppend(10000, 0); ShowAppend(100000, 0); ShowAppend(1000000, 0);
    ShowAppend(10000000, 0); ShowAppend(100000000, 0);
    assert Show(1000000000) == "1000000000";
    assert Lower("d")[..1] == "d";
    NumberThenDays(1000000000, "d");
    assert "1000000000" + "d" == "1000000000d";
  }

  /** "999999999d" is the longest span of days. */
  lemma ExampleLongestDays()
    ensures GetTimedelta("999999999d") == Ok(999999999 * 86400)
  {
    ShowAppend(9, 9); ShowAppend(99, 9); ShowAppend(999, 9); ShowAppend(9999, 9);
    ShowAppend(99999, 9); ShowAppend(999999, 9); ShowAppend(9999999, 9);
    ShowAppend(99999999, 9);
    assert Show(999999999) == "999999999";
    assert Lower("d")[..1] == "d";
    NumberThenDays(999999999, "d");
    assert "999999999" + "d" == "999999999d";
  }

  /** "24000000000h" is exactly 10^9 days, one more than `timedelta` holds. */
  lemma ExampleHoursTooLong()
    ensures GetTimedelta("24000000000h") == Err(OutOfRange)
  {
    ShowAppend(2, 4); ShowAppend(24, 0); ShowAppend(240, 0); ShowAppend(2400, 0);
    ShowAppend(24000, 0); ShowAppend(240000, 0); ShowAppend(2400000, 0);
    ShowAppend(24000000, 0); ShowAppend(240000000, 0); ShowAppend(2400000000, 0);
    assert Show(24000000000) == "24000000000";
    assert Lower("h")[..1] == "h";
    NumberThenHours(24000000000, "h");
    assert "24000000000" + "h" == "24000000000h";
  }

  /** Digits after the unit still belong to the number: "1h2" is twelve hours. */
  lemma ExampleScatteredDigits()
    ensures GetTimedelta("1h2") == Ok(12 * 3600)
  {
    SplitNumberThenUnit("1", "h");
    assert "1" + "h" == "1h";
    SplitNumber("2");
    SplitConcat("1h", "2");
    assert "1h" + "2" == "1h2";
    assert Split("1h") == ("1", "h");
    assert Split("2") == ("2", "");
    assert "1" + "2" == "12" && "h" + "" == "h";
    assert Split("1h2") == ("12", "h");
    assert DecimalValue("12") == 12 by {
      assert "12"[..1] == "1";
      assert "1"[..0] == "";
    }
    assert Lower("h")[..1] == "h";
  }
}
