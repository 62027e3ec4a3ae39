/** Worked instances of `normalize_datetime` and of the month table and the calendar check. */
module DatetimeCases {
  import opened Base
  import opened Text
  import opened Datetime

  const Sample: string := "5 мар 2021 в 14:05:30"

  /** Where the one match of the pattern in Sample lies. */
  const SampleSpans: Spans := Spans(1, 2, 5, 6, 13, ClockEnds(15, 18, 21))

  lemma SamplePattern()
    ensures PatternAt(Sample, 0, SampleSpans)
  {
    assert Is(Sample[1], Space) && Is(Sample[5], Space);
  }

  /** No time can be read at 10, 11 or 12: " в " holds no digit. */
  lemma SampleNoEarlierClock()
    ensures forall k :: 10 <= k < 13 ==> MatchClock(Sample, k).None?
  {
    forall k | 10 <= k < 13 ensures MatchClock(Sample, k).None? {
      assert !Is(Sample[k], Digit);
    }
  }

  lemma SampleClock()
    ensures MatchClock(Sample, 13) == Some(ClockEnds(15, 18, 21))
  {
  }

  /** The search reports the match at position 0, with the time "14:05:30" read in full. */
  lemma SampleSearch()
    ensures Search(Sample) == Some(Found(0, SampleSpans))
  {
    SamplePattern();
    SampleNoEarlierClock();
    SampleClock();
    SearchExact(Sample, 0, SampleSpans);
  }

  lemma SampleFields()
    ensures PatternAt(Sample, 0, SampleSpans) && FieldsOf(Sample, 0, SampleSpans, 3) == DateTime(2021, 3, 5, 14, 5, 30)
  {
    SamplePattern();
    var s := Sample;
    assert s[6..10] == "2021" && s[0..1] == "5" && s[13..15] == "14" && s[16..18] == "05" && s[19..21] == "30";
    SampleNumbers();
  }

  lemma SampleNumbers()
    ensures DecimalValue("2021") == 2021 && DecimalValue("5") == 5 && DecimalValue("14") == 14
    ensures DecimalValue("05") == 5 && DecimalValue("30") == 30
  {
    assert "2021"[..3] == "202" && "202"[..2] == "20" && "20"[..1] == "2" && "2"[..0] == "";
    assert "14"[..1] == "1" && "05"[..1] == "0" && "30"[..1] == "3" && "5"[..0] == "";
  }

  lemma SampleIso()
    ensures IsoFormat(DateTime(2021, 3, 5, 14, 5, 30)) == "2021-03-05T14:05:30"
  {
  }

  /** "5 мар 2021 в 14:05:30" becomes "2021-03-05T14:05:30". */
  lemma SampleNormalized()
    ensures NormalizeDatetime(Sample) == "2021-03-05T14:05:30"
  {
    SampleSearch();
    SampleMonth();
    NormalizeCalendar(Sample, 0, SampleSpans, 3);
    SampleFields();
    SampleIso();
  }

  lemma SampleMonth()
    ensures MonthNumber(Sample[2..5]) == Some(3)
  {
    var word := Sample[2..5];
    assert word == "мар";
    assert Lower(word) == "мар";
  }

  /** February 29 exists in 2020 and 2000, not in 2021 or 1900; the other limits of the calendar check. */
  lemma CalendarCases()
    ensures ValidDateTime(DateTime(2020, 2, 29, 0, 0, 0)) && ValidDateTime(DateTime(2000, 2, 29, 23, 59, 59))
    ensures !ValidDateTime(DateTime(2021, 2, 29, 0, 0, 0)) && !ValidDateTime(DateTime(1900, 2, 29, 0, 0, 0))
    ensures !ValidDateTime(DateTime(2021, 4, 31, 0, 0, 0)) && !ValidDateTime(DateTime(0, 1, 1, 0, 0, 0))
    ensures !ValidDateTime(DateTime(2021, 1, 1, 24, 0, 0)) && !ValidDateTime(DateTime(2021, 1, 1, 0, 60, 0))
    ensures !ValidDateTime(DateTime(2021, 1, 1, 0, 0, 60))
  {
  }

  /**
   * The table is keyed by the first three letters, lower-cased: "Марта" is March, but the
   * genitive "мая" ("of May") gives "мая", which is not a key ("май" is), so a May date is left as it is.
   */
  lemma MonthCases()
    ensures MonthNumber("Марта") == Some(3) && MonthNumber("ДЕКАБРЯ") == Some(12)
    ensures MonthNumber("мая").None? && MonthNumber("май") == Some(5)
    ensures MonthNumber("ма").None?
  {
    assert Lower("Марта")[..3] == "мар";
    assert Lower("ДЕКАБРЯ")[..3] == "дек";
    assert Lower("мая") == "мая";
    assert Lower("май") == "май";
    assert Lower("ма") == "ма";
  }
}
