/**
 * Worked cases of the phone extraction: the formats the pattern is written
 * for, the guards, de-duplication, text-node joining and the separators
 * the normaliser keeps.
 */
module PhoneExamples {
  import opened Wrappers
  import opened PhonePattern
  import opened PhoneScan

  /** Content that is one match with plain separators stores its ten digits. */
  lemma PlainWhole(s: string, p: Parts)
    requires WellFormed(p) && PlainSep(p.sep1) && PlainSep(p.sep2) && s == Render(p)
    ensures PhoneSet(s) == {p.area + p.prefix + p.line}
  {
    WholeMatch(s, p);
    NormalizePlain(p);
  }

  /** `305.555.1234`: dotted. */
  lemma DottedFormat()
    ensures PhoneSet("305.555.1234") == {"3055551234"}
  {
    var p := Parts(None, false, "305", false, Some('.'), "555", Some('.'), "1234");
    assert WellFormed(p) && PlainSep(p.sep1) && PlainSep(p.sep2);
    assert "305.555.1234" == Render(p);
    assert p.area + p.prefix + p.line == "3055551234";
    PlainWhole("305.555.1234", p);
  }

  /** `+1 305-555-1234`: with the country code, which is dropped. */
  lemma CountryFormat()
    ensures PhoneSet("+1 305-555-1234") == {"3055551234"}
  {
    var p := Parts(Some(Country(false, Some(' '))), false, "305", false, Some('-'), "555", Some('-'), "1234");
    assert WellFormed(p) && PlainSep(p.sep1) && PlainSep(p.sep2);
    assert "+1 305-555-1234" == Render(p);
    assert p.area + p.prefix + p.line == "3055551234";
    PlainWhole("+1 305-555-1234", p);
  }

  /** `+1<tab>305-555-1234`: a tab after the country `1` is deleted with the country group. */
  lemma CountryTab()
    ensures PhoneSet("+1\t305-555-1234") == {"3055551234"}
  {
    var p := Parts(Some(Country(false, Some('\t'))), false, "305", false, Some('-'), "555", Some('-'), "1234");
    assert WellFormed(p) && PlainSep(p.sep1) && PlainSep(p.sep2);
    assert "+1\t305-555-1234" == Render(p);
    assert p.area + p.prefix + p.line == "3055551234";
    PlainWhole("+1\t305-555-1234", p);
  }

  /** `3055551234`: bare digits. */
  lemma BareFormat()
    ensures PhoneSet("3055551234") == {"3055551234"}
  {
    var p := Parts(None, false, "305", false, None, "555", None, "1234");
    assert WellFormed(p) && PlainSep(p.sep1) && PlainSep(p.sep2);
    assert "3055551234" == Render(p);
    assert p.area + p.prefix + p.line == "3055551234";
    PlainWhole("3055551234", p);
  }

  const Paren := "(305) 555-1234"
  const Dashed := "305-555-1234"

  /** The same number in two spellings, one space apart. */
  const Twice := Paren + " " + Dashed

  /*
   * The shapes below are zero-argument functions rather than constants: a
   * function is unfolded only where a proof mentions it, which keeps the
   * solver from expanding every shape in every proof of this module.
   */
  /** The shape of `Paren`. */
  function ParenShape(): Parts { Parts(None, true, "305", true, Some(' '), "555", Some('-'), "1234") }
  /** The shape of `Dashed`. */
  function DashedShape(): Parts { Parts(None, false, "305", false, Some('-'), "555", Some('-'), "1234") }

  lemma ParenRenders()
    ensures WellFormed(ParenShape()) && PlainSep(ParenShape().sep1) && PlainSep(ParenShape().sep2)
    ensures Paren == Render(ParenShape())
  {
  }

  lemma ParenIsShape()
    ensures WellFormed(ParenShape()) && Paren == Render(ParenShape())
    ensures Normalize(Paren) == "3055551234"
  {
    var p := ParenShape();
    ParenRenders();
    assert p.area + p.prefix + p.line == "3055551234";
    NormalizePlain(p);
  }

  /** `(305) 555-1234`: parenthesised area code. */
  lemma ParenFormat()
    ensures PhoneSet(Paren) == {"3055551234"}
  {
    ParenIsShape();
    WholeMatch(Paren, ParenShape());
  }

  lemma DashedRenders()
    ensures WellFormed(DashedShape()) && PlainSep(DashedShape().sep1) && PlainSep(DashedShape().sep2)
    ensures Dashed == Render(DashedShape())
  {
  }

  lemma DashedIsShape()
    ensures WellFormed(DashedShape()) && Dashed == Render(DashedShape())
    ensures Normalize(Dashed) == "3055551234"
  {
    var p := DashedShape();
    DashedRenders();
    assert p.area + p.prefix + p.line == "3055551234";
    NormalizePlain(p);
  }

  /** Where the two halves of `a + " " + b` lie. */
  lemma Halves(a: string, b: string)
    ensures (a + " " + b)[0..|a|] == a && (a + " " + b)[|a|] == ' '
    ensures (a + " " + b)[|a| + 1..|a| + 1 + |b|] == b
  {
  }

  /** Both spellings are reported, in order. */
  lemma TwiceScan()
    ensures ScanFrom(Twice, 0) == [Span(0, 14), Span(15, 27)]
  {
    TwiceFirst();
    TwiceGap();
    TwiceSecond();
    PatternAdvancing();
    TwoSpans(Pattern, Twice, 14);
  }

  lemma TwiceFirst()
    ensures Pattern(Twice, 0) == Some(14)
  {
    Halves(Paren, Dashed);
    ParenRenders();
    MatchAtRender(Twice, 0, 14, ParenShape());
  }

  lemma TwiceGap()
    ensures Pattern(Twice, 14) == None
  {
    Halves(Paren, Dashed);
    ParseNeedsStart(Twice, 14);
  }

  lemma TwiceSecond()
    ensures Pattern(Twice, 15) == Some(27)
  {
    Halves(Paren, Dashed);
    DashedRenders();
    MatchAtRender(Twice, 15, 27, DashedShape());
  }

  /**
   * The same number written twice in two spellings is stored once: both
   * matches are reported and they normalise alike.
   */
  lemma Dedup()
    ensures PhoneSet(Twice) == {"3055551234"}
  {
    TwiceScan();
    MatchesTwo(Twice, 0, 14, 15, 27);
    Halves(Paren, Dashed);
    ParenIsShape();
    DashedIsShape();
  }

  /** Ten digits that run straight into an eleventh are not a phone number. */
  const Eleven := "13055551234"

  /** The first ten digits of `Eleven`, as the pattern body would read them (a function, like `ParenShape`). */
  function TenOfEleven(): Parts { Parts(None, false, "130", false, None, "555", None, "5123") }

  lemma ElevenNoMatch()
    ensures forall p :: 0 <= p < |Eleven| ==> MatchAt(Eleven, p) == None
  {
    ElevenStart();
    forall p | 1 <= p < |Eleven| ensures MatchAt(Eleven, p) == None {
      AfterDigit(Eleven, p);
    }
  }

  /** From the first digit the pattern body reads ten digits, and an eleventh follows. */
  lemma ElevenStart()
    ensures MatchAt(Eleven, 0) == None
  {
    TenRenders();
    assert Eleven[0..10] == Render(TenOfEleven());
    ParseComplete(Eleven, 0, 10, TenOfEleven());
    assert IsGuard(Eleven[10]);
  }

  lemma TenRenders()
    ensures WellFormed(TenOfEleven()) && Render(TenOfEleven()) == "1305555123"
  {
  }

  /** The lookahead rejects the eleven-digit run: nothing is stored. */
  lemma ElevenDigits()
    ensures PhoneSet(Eleven) == {}
  {
    ElevenNoMatch();
    PhoneSetEmptyIff(Eleven);
  }

  /** An order number: a long digit run after text. */
  const Order := "Order #13055551234567"

  lemma OrderNoMatch()
    ensures forall p :: 0 <= p < |Order| ==> MatchAt(Order, p) == None
  {
    OrderText();
    OrderDigitsStart();
    OrderDigitsRest();
  }

  /** Every later position follows a digit. */
  lemma OrderDigitsRest()
    ensures forall p :: 8 <= p < |Order| ==> MatchAt(Order, p) == None
  {
    forall p | 8 <= p < |Order| ensures MatchAt(Order, p) == None {
      AfterDigit(Order, p);
    }
  }

  /** No match starts in the text before the digits: no `+`, `(` or digit there. */
  lemma OrderText()
    ensures forall p :: 0 <= p < 7 ==> MatchAt(Order, p) == None
  {
    forall p | 0 <= p < 7 ensures MatchAt(Order, p) == None {
      assert !IsStart(Order[p]);
      ParseNeedsStart(Order, p);
    }
  }

  /** From the first digit the pattern body reads ten digits, and more follow. */
  lemma OrderDigitsStart()
    ensures MatchAt(Order, 7) == None
  {
    TenRenders();
    assert Order[7..17] == Render(TenOfEleven());
    ParseComplete(Order, 7, 17, TenOfEleven());
    assert IsGuard(Order[17]);
  }

  /** Neither lookaround lets any ten digits of the order number through. */
  lemma OrderNumber()
    ensures PhoneSet(Order) == {}
  {
    OrderNoMatch();
    PhoneSetEmptyIff(Order);
  }

  /** `305 555-1234`: space-separated. */
  lemma SpacedFormat()
    ensures PhoneSet("305 555-1234") == {"3055551234"}
  {
    var p := Parts(None, false, "305", false, Some(' '), "555", Some('-'), "1234");
    assert WellFormed(p) && PlainSep(p.sep1) && PlainSep(p.sep2);
    assert "305 555-1234" == Render(p);
    assert p.area + p.prefix + p.line == "3055551234";
    PlainWhole("305 555-1234", p);
  }

  /**
   * A number split over two text nodes is found once the nodes are joined
   * with a space.
   */
  lemma SplitNodes()
    ensures Join(["305", "555-1234"]) == "305 555-1234"
    ensures ExtractPhones(["305", "555-1234"]) == {"3055551234"}
  {
    assert Join(["305", "555-1234"]) == "305 555-1234" by {
      assert ["305", "555-1234"][1..] == ["555-1234"];
    }
    SpacedFormat();
  }

  /** The shape of `305<tab>555-1234` (a function, like `ParenShape`). */
  function TabShape(): Parts { Parts(None, false, "305", false, Some('\t'), "555", Some('-'), "1234") }

  lemma TabRenders()
    ensures WellFormed(TabShape()) && "305\t555-1234" == Render(TabShape())
  {
  }

  lemma TabIsShape()
    ensures WellFormed(TabShape()) && "305\t555-1234" == Render(TabShape())
    ensures Normalize("305\t555-1234") == "305\t5551234"
  {
    var p := TabShape();
    TabRenders();
    assert Kept(OptChar(p.sep1)) == "\t";
    assert Kept(OptChar(p.sep2)) == "";
    assert p.area + "\t" + (p.prefix + "" + p.line) == "305\t5551234";
    NormalizeRender(p);
  }

  /** A tab separator matches `[\s.-]` but is not in `[-.() ]`, so it stays in the stored number. */
  lemma TabSurvives()
    ensures PhoneSet("305\t555-1234") == {"305\t5551234"}
  {
    TabIsShape();
    WholeMatch("305\t555-1234", TabShape());
  }

  /** The two parentheses are optional independently: an opening one alone matches. */
  lemma OpenParenOnly()
    ensures PhoneSet("(305 555-1234") == {"3055551234"}
  {
    var p := Parts(None, true, "305", false, Some(' '), "555", Some('-'), "1234");
    assert WellFormed(p) && PlainSep(p.sep1) && PlainSep(p.sep2);
    assert "(305 555-1234" == Render(p);
    assert p.area + p.prefix + p.line == "3055551234";
    PlainWhole("(305 555-1234", p);
  }

  /** A closing parenthesis alone matches too. */
  lemma CloseParenOnly()
    ensures PhoneSet("305) 555-1234") == {"3055551234"}
  {
    var p := Parts(None, false, "305", true, Some(' '), "555", Some('-'), "1234");
    assert WellFormed(p) && PlainSep(p.sep1) && PlainSep(p.sep2);
    assert "305) 555-1234" == Render(p);
    assert p.area + p.prefix + p.line == "3055551234";
    PlainWhole("305) 555-1234", p);
  }
}
