/** Wall-clock text `HH:MM` and minutes since midnight (planner.js:404-412). */
module Time {
  import opened Js

  /** `minutesToTime`: floor of the hours and JavaScript's truncating `%` for
      the minutes, each printed with `padStart(2, "0")`; NaN prints as
      "NaN:NaN". */
  function MinutesToTime(m: Num): string {
    match m
    case NaN => "NaN:NaN"
    case Fin(v) => PadStart2(IntToString(v / 60)) + ":" + PadStart2(IntToString(Rem(v, 60)))
  }

  /** `timeToMinutes`: an empty text is 0; otherwise the text is split at
      ':' and the first two fields read as hours and minutes (a missing
      minutes field is `undefined`, which makes the sum NaN). */
  function TimeToMinutes(t: string): (r: Num)
    ensures t == [] ==> r == Fin(0)
    ensures r.Fin? ==> t == [] || |Split(t, ':')| >= 2
  {
    if t == [] then Fin(0)
    else
      var parts := Split(t, ':');
      var m := if |parts| >= 2 then Number(parts[1]) else NaN;
      Add(Mul(Number(parts[0]), Fin(60)), m)
  }

  /** A time text that the planner itself could have printed. */
  predicate Canonical(t: string) {
    var m := TimeToMinutes(t);
    m.Fin? && m.v >= 0 && MinutesToTime(m) == t
  }

  /** The printed hour and minute fields carry no separator. */
  lemma PaddedHasNoColon(i: int)
    ensures ':' !in PadStart2(IntToString(i))
  {
    var s := IntToString(i);
    var p := PadStart2(s);
    DecimalFacts(if i < 0 then -i else i);
    PadStart2Facts(s);
    forall k | 0 <= k < |p|
      ensures p[k] != ':'
    {
      if |s| < 2 && k < 2 - |s| {
      } else if |s| < 2 {
        assert p[k] == s[k - (2 - |s|)];
      } else if i < 0 {
        assert k == 0 || p[k] == Decimal(-i)[k - 1];
      }
    }
  }

  /** A printed time splits into its hour field and its minute field. */
  lemma Fields(m: int)
    ensures Split(MinutesToTime(Fin(m)), ':')
            == [PadStart2(IntToString(m / 60)), PadStart2(IntToString(Rem(m, 60)))]
  {
    PaddedHasNoColon(m / 60);
    PaddedHasNoColon(Rem(m, 60));
    SplitPair(PadStart2(IntToString(m / 60)), PadStart2(IntToString(Rem(m, 60))), ':');
  }

  /** The value read back from a printed time: floor-hours times 60 plus the
      truncated remainder. */
  lemma ReadBack(m: int)
    ensures TimeToMinutes(MinutesToTime(Fin(m))) == Fin(60 * (m / 60) + Rem(m, 60))
  {
    var t := MinutesToTime(Fin(m));
    var h := PadStart2(IntToString(m / 60));
    var mm := PadStart2(IntToString(Rem(m, 60)));
    assert t == h + ":" + mm && t != [];
    Fields(m);
    NumberOfPadded(m / 60);
    NumberOfPadded(Rem(m, 60));
    assert TimeToMinutes(t) == Add(Mul(Number(h), Fin(60)), Number(mm));
  }

  /** For a non-negative minute count the printed minute field is two
      digits worth 0..59 and the hour field is worth the whole hours. */
  lemma MinuteFieldInRange(m: int)
    requires m >= 0
    ensures var parts := Split(MinutesToTime(Fin(m)), ':');
            && |parts| == 2
            && |parts[1]| == 2 && AllDigits(parts[1])
            && Number(parts[1]) == Fin(m % 60) && 0 <= m % 60 <= 59
            && Number(parts[0]) == Fin(m / 60)
  {
    Fields(m);
    NumberOfPadded(m / 60);
    NumberOfPadded(m % 60);
    var d := Decimal(m % 60);
    DecimalFacts(m % 60);
    PadStart2Facts(d);
    if m % 60 >= 10 {
      assert |d| == 2 by {
        if |d| >= 3 {
          ValueLowerBound(d);
        }
      }
    }
  }

  /** A digit string of three or more digits without a leading zero is worth
      at least 100. */
  lemma {:induction false} ValueLowerBound(s: string)
    requires AllDigits(s) && |s| >= 3 && s[0] != '0'
    ensures DigitsValue(s) >= 100
  {
    var f := s[..|s| - 1];
    assert f[0] == s[0];
    if |f| >= 3 {
      ValueLowerBound(f);
    } else {
      assert f[..1] == [s[0]];
      assert DigitsValue(f[..1]) >= 1;
    }
  }

  /** Printing then reading a minute count gives it back exactly when the
      count is non-negative or a whole number of hours: for a negative count
      JavaScript's `%` keeps the sign while `Math.floor` rounds down, so
      -30 prints as "-1:-30" and reads back as -90. */
  lemma {:induction false} RoundTrip(m: int)
    ensures TimeToMinutes(MinutesToTime(Fin(m))) == Fin(m) <==> (m >= 0 || m % 60 == 0)
  {
    ReadBack(m);
    assert m == 60 * (m / 60) + m % 60;
    if m < 0 {
      var r := (-m) % 60;
      assert -m == 60 * ((-m) / 60) + r;
      if m % 60 == 0 {
        assert m == 60 * (m / 60);
        assert -m == 60 * (-(m / 60));
        DivModUnique(-m, -(m / 60), 0);
        assert r == 0;
      } else if r == 0 {
        assert m == 60 * (-((-m) / 60));
        DivModUnique(m, -((-m) / 60), 0);
        assert false;
      }
    }
  }

  /** Euclidean division by 60 is determined by quotient and remainder. */
  lemma DivModUnique(n: int, q: int, r: int)
    requires n == 60 * q + r && 0 <= r < 60
    ensures n % 60 == r && n / 60 == q
  {
    DivUnique(n, 60, q);
  }

  /** The round trip in the shape the scheduling operations use: NaN and
      every non-negative count survive printing and reading. */
  lemma TimeRoundTrip(x: Num)
    requires x.NaN? || x.v >= 0
    ensures TimeToMinutes(MinutesToTime(x)) == x
  {
    if x.Fin? {
      RoundTrip(x.v);
    } else {
      var t := MinutesToTime(x);
      assert t == "NaN" + ":" + "NaN";
      SplitPair("NaN", "NaN", ':');
      assert Number("NaN") == NaN by {
        TrimNoop("NaN");
        assert !AllDigits("NaN") by { assert !IsDigit("NaN"[0]); }
      }
      assert TimeToMinutes(t) == Add(Mul(Number("NaN"), Fin(60)), Number("NaN"));
    }
  }

  /** TimeRoundTrip for a value not known to be printable. */
  lemma TimeRoundTripIf(x: Num)
    ensures x.NaN? || x.v >= 0 ==> TimeToMinutes(MinutesToTime(x)) == x
  {
    if x.NaN? || x.v >= 0 {
      TimeRoundTrip(x);
    }
  }

  /** Every non-negative minute count prints as a canonical time text. */
  lemma PrintedIsCanonical(m: int)
    requires m >= 0
    ensures Canonical(MinutesToTime(Fin(m)))
  {
    RoundTrip(m);
  }
}
