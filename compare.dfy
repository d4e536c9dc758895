/** How the two scrapers' filters relate: the O-level session filter accepts every session the
    A-level one accepts by its year, and the places where they part. */
module Compare {
  import opened Wrappers
  import opened Strings
  import ALevel
  import OLevel

  /** A text is not found where its first character never occurs. */
  lemma NotContainsFirst(s: string, sub: string)
    requires |sub| > 0 && sub[0] !in s
    ensures !Contains(s, sub)
  {
  }

  /** No year token where `2` never occurs. */
  lemma NoTwoNoToken(name: string)
    requires '2' !in name
    ensures ALevel.ExtractYear(name).None?
    ensures forall i :: !OLevel.YearDigitsAt(name, i)
  {
  }

  /** A session the A-level filter accepts for its year is accepted by the O-level filter: the
      word-bounded token is also a bare `20dd`, and sanitising leaves digits alone. */
  lemma YearAcceptedByBoth(name: string)
    requires ALevel.AcceptSession(name) && ALevel.ExtractYear(name).Some?
    ensures OLevel.AcceptSession(OLevel.Sanitise(name))
  {
    var i :| ALevel.YearTokenAt(name, i) && ALevel.ExtractYear(name).value == ALevel.YearValue(name, i)
             && forall j :: 0 <= j < i ==> !ALevel.YearTokenAt(name, j);
    var s := OLevel.Sanitise(name);
    assert s[i] == name[i] && s[i + 1] == name[i + 1] && s[i + 2] == name[i + 2] && s[i + 3] == name[i + 3];
    assert OLevel.YearDigitsAt(s, i) && OLevel.YearDigitsValue(s, i) == ALevel.YearValue(name, i);
  }

  /** "Topical" keeps a session out of the A-level run only: `Topical 2019` is opened by the
      O-level scraper. */
  lemma TopicalOnlyRejectedByA()
    ensures !ALevel.AcceptSession("Topical 2019")
    ensures OLevel.AcceptSession(OLevel.Sanitise("Topical 2019"))
  {
    ContainsConcat("", "Topical", " 2019");
    assert "" + "Topical" + " 2019" == "Topical 2019";
    var s := "Topical 2019";
    assert '/' !in s;
    assert OLevel.Sanitise(s) == s;
    assert OLevel.YearDigitsAt(s, 8) && OLevel.YearDigitsValue(s, 8) == 2019;
  }

  /** Only the first year counts for the A-level filter, any year for the O-level one:
      `2016-2018` is skipped by the first and opened by the second. */
  lemma FirstYearOnlyForA()
    ensures ALevel.ExtractYear("2016-2018") == Some(2016)
    ensures !ALevel.AcceptSession("2016-2018")
    ensures OLevel.AcceptSession(OLevel.Sanitise("2016-2018"))
  {
    var s := "2016-2018";
    assert ALevel.YearTokenAt(s, 0);
    assert ALevel.FindYearToken(s, 0) == Some(0);
    assert ALevel.YearValue(s, 0) == 2016;
    assert '/' !in s;
    assert OLevel.Sanitise(s) == s;
    assert OLevel.YearDigitsAt(s, 5) && OLevel.YearDigitsValue(s, 5) == 2018;
  }

  /** A name with no year passes the A-level year filter and fails the O-level one. */
  lemma NoYearOnlyAcceptedByA()
    ensures ALevel.AcceptSession("Specimen")
    ensures !OLevel.AcceptSession(OLevel.Sanitise("Specimen"))
  {
    var s := "Specimen";
    assert '2' !in s && 'T' !in s && '/' !in s;
    NoTwoNoToken(s);
    NotContainsFirst(s, "Topical");
    NotContainsFirst(s, "Tropical");
    assert OLevel.Sanitise(s) == s;
  }

  /** The O-level filter finds `2017` inside the number `12017`, where the A-level one sees no
      year at all. */
  lemma YearInsideNumber()
    ensures OLevel.AcceptSession("12017")
    ensures ALevel.ExtractYear("12017").None?
  {
    var s := "12017";
    assert OLevel.YearDigitsAt(s, 1) && OLevel.YearDigitsValue(s, 1) == 2017;
  }

  /** The O-level badge test is a substring test, so `Paper 12` counts as paper 1 there, while
      the A-level test wants the exact badge. */
  lemma PaperTwelve()
    ensures OLevel.AnyPaperBadge(["Paper 12"])
    ensures "Paper 12" !in ALevel.AsPapers
  {
    assert Lower("Paper 12") == "paper 12";
    ContainsConcat("", "paper 1", "2");
    assert "" + "paper 1" + "2" == "paper 12";
    assert ["Paper 12"][0] == "Paper 12";
  }
}
