/** A worked instance of `extract_message_info`: a headed message div and the record it gives. */
module MessageCases {
  import opened Base
  import opened Text
  import opened Datetime
  import opened DatetimeCases
  import opened Messages

  const SampleSender: string := "Иван Иванов"

  /** A header as the export writes it: the sender, a comma, then the date text after a space. */
  const SampleHeader: string := SampleSender + ("," + (" " + Sample))

  /** The header div first, the message text in the second child div. */
  const SampleDiv: MessageDiv := MessageDiv(Some(SampleHeader), [SampleHeader, "Привет"])

  /** The header's first comma comes right after the sender, and a space and the date text follow it. */
  lemma SampleComma()
    ensures ',' in SampleHeader && IndexOf(SampleHeader, ',') == |SampleSender|
    ensures SampleHeader[..|SampleSender|] == SampleSender && SampleHeader[|SampleSender| + 1..] == " " + Sample
  {
    var h, k := SampleHeader, |SampleSender|;
    assert h[..k] == SampleSender && h[k..] == "," + (" " + Sample);
    assert h[k] == ',' by { assert h[k] == h[k..][0]; }
    assert ',' !in SampleSender;
    IndexOfUnique(h, ',', k);
    assert h[k + 1..] == h[k..][1..];
  }

  /** The header splits at its comma into the sender and the date text of the datetime examples. */
  lemma SampleSplit()
    ensures SplitHeader(SampleHeader) == Header(SampleSender, Sample)
  {
    SampleComma();
    assert SampleSender[0] == 'И' && SampleSender[|SampleSender| - 1] == 'в';
    NotSpace('И');
    NotSpace('в');
    StripUnchanged(SampleSender);
    SampleDateStripped();
  }

  /** The space after the comma is stripped from the date text. */
  lemma SampleDateStripped()
    ensures Strip(" " + Sample) == Sample
  {
    var d := " " + Sample;
    assert d[1..] == Sample;
    assert Sample[0] == '5' && Sample[|Sample| - 1] == '0';
    NotSpace('5');
    NotSpace('0');
    assert LeadingSpace(Sample) == 0;
    assert LeadingSpace(d) == 1;
    assert TrailingSpace(d[1..]) == 0;
    StripAt(d, 1, 0);
  }

  /** The record: sender, the ISO timestamp of the normalised date, and the text after the header div. */
  lemma SampleRecord()
    ensures MessageOf(SampleDiv) == Message(SampleSender, "2021-03-05T14:05:30", "Привет")
  {
    SampleSplit();
    SampleNormalized();
    assert SampleDiv.children[1..] == ["Привет"];
  }
}
