/**
 * The communication protocol of the generated project and the mapping
 * from the answer typed at the protocol prompt to a protocol
 * (`askProtocol` in installer/Script.php).
 */
module Protocols {
  import opened Wrappers
  import opened PhpNumeric

  /** The two protocols; a value outside them cannot be represented. */
  datatype Protocol = Http | Tars

  /** `PROTOCOL_HTTP` and `PROTOCOL_TARS`, the keys of the package table and the config file infix. */
  function Name(p: Protocol): string
  {
    match p
    case Http => "http"
    case Tars => "tars"
  }

  /** The answer the prompt offers as its default. */
  const DefaultAnswer := "2"

  /**
   * The `switch` over one answer: `case '1'` gives http, `case '2'` gives
   * tars, anything else re-prompts (`None`).  The comparison is PHP's loose
   * `==`, and the first matching case wins.
   */
  function FromAnswer(answer: string): Option<Protocol>
  {
    if LooseEquals(answer, "1") then Some(Http)
    else if LooseEquals(answer, "2") then Some(Tars)
    else None
  }

  /** The menu number the prompt lists for each protocol. */
  function MenuNumber(p: Protocol): (n: nat)
    ensures 1 <= n <= 2
  {
    match p
    case Http => 1
    case Tars => 2
  }

  /** The answers the prompt accepts are exactly the numeric strings denoting a menu number. */
  lemma AnswerSelectsByValue(answer: string, p: Protocol)
    ensures FromAnswer(answer) == Some(p) <==>
              IsNumeric(answer) && SameValue(Parse(answer).value, Decimal(MenuNumber(p), 0))
  {
    MenuLabels();
    if IsNumeric(answer) {
      var x := Parse(answer).value;
      if SameValue(x, Decimal(1, 0)) && SameValue(x, Decimal(2, 0)) {
        SameValueUnique(x, 1, 2);
      }
    }
  }

  /** The two `case` labels are numeric strings denoting 1 and 2. */
  lemma MenuLabels()
    ensures Parse("1") == Some(Decimal(1, 0)) && Parse("2") == Some(Decimal(2, 0))
  {
    ParseDigit("1");
    ParseDigit("2");
  }

  /** An answer denoting a protocol's menu number selects that protocol. */
  lemma Selects(answer: string, x: Decimal, p: Protocol)
    requires Parse(answer) == Some(x) && SameValue(x, Decimal(MenuNumber(p), 0))
    ensures FromAnswer(answer) == Some(p)
  {
    AnswerSelectsByValue(answer, p);
  }

  /** The literal menu answers: "1" is http, "2" (also the default) is tars. */
  lemma MenuAnswers()
    ensures FromAnswer("1") == Some(Http)
    ensures FromAnswer("2") == Some(Tars)
    ensures FromAnswer(DefaultAnswer) == Some(Tars)
  {
    MenuLabels();
    Selects("1", Decimal(1, 0), Http);
    Selects("2", Decimal(2, 0), Tars);
  }


  /** Every protocol is selected by the canonical spelling of its menu number. */
  lemma MenuNumberRoundTrip(p: Protocol)
    ensures FromAnswer(Render(MenuNumber(p))) == Some(p)
  {
    RenderRoundTrip(MenuNumber(p));
    AnswerSelectsByValue(Render(MenuNumber(p)), p);
  }

  /** Among canonically spelled numbers only 1 and 2 are accepted, and they select different protocols. */
  lemma OnlyMenuNumbersAccepted(n: nat)
    ensures FromAnswer(Render(n)).Some? <==> n == 1 || n == 2
    ensures FromAnswer(Render(n)).Some? ==> MenuNumber(FromAnswer(Render(n)).value) == n
  {
    RenderRoundTrip(n);
    AnswerSelectsByValue(Render(n), Http);
    AnswerSelectsByValue(Render(n), Tars);
  }

  /** An answer that is not a numeric string matches neither case, so the prompt repeats. */
  lemma NonNumericAnswerRejected(answer: string)
    requires !IsNumeric(answer)
    ensures FromAnswer(answer) == None
  {
    AnswerSelectsByValue(answer, Http);
    AnswerSelectsByValue(answer, Tars);
  }

  /**
   * The `switch` selects nothing for an empty string, another number or a
   * protocol's name.  An empty reply at the prompt never reaches it: the
   * prompt turns it into the default `2`.
   */
  lemma OtherAnswersRejected()
    ensures FromAnswer("") == None
    ensures FromAnswer("3") == None
    ensures FromAnswer("http") == None
    ensures FromAnswer("tars") == None
  {
    EmptyAnswerRejected();
    assert FromAnswer("http") == None by {
      LetterFirstNotNumeric("http");
      NonNumericAnswerRejected("http");
    }
    assert FromAnswer("tars") == None by {
      LetterFirstNotNumeric("tars");
      NonNumericAnswerRejected("tars");
    }
    assert FromAnswer("3") == None by {
      ParseDigit("3");
      AnswerSelectsByValue("3", Http);
      AnswerSelectsByValue("3", Tars);
    }
  }


  lemma EmptyAnswerRejected()
    ensures FromAnswer("") == None
  {
    assert SpacesEnd("", 0) == 0;
    assert DigitsEnd("", 0) == 0;
    NonNumericAnswerRejected("");
  }

  /** Loose comparison lets other spellings of the menu numbers through. */
  lemma LooseSpellingsAccepted()
    ensures FromAnswer("01") == Some(Http)
    ensures FromAnswer("1.0") == Some(Http)
    ensures FromAnswer(" 2") == Some(Tars)
    ensures FromAnswer("2e0") == Some(Tars)
  {
    assert FromAnswer("01") == Some(Http) by {
      ParseLeadingZero();
      Selects("01", Decimal(1, 0), Http);
    }
    assert FromAnswer("1.0") == Some(Http) by {
      ParseTrailingFraction();
      Selects("1.0", Decimal(10, -1), Http);
    }
    assert FromAnswer(" 2") == Some(Tars) by {
      ParseLeadingSpace();
      Selects(" 2", Decimal(2, 0), Tars);
    }
    assert FromAnswer("2e0") == Some(Tars) by {
      ParseExponent();
      Selects("2e0", Decimal(2, 0), Tars);
    }
  }


  lemma ParseLeadingZero()
    ensures Parse("01") == Some(Decimal(1, 0))
  {
    var s := "01";
    assert SpacesEnd(s, 0) == 0;
    DigitsEndOfDigits(s, 0);
    assert ExponentAt(s, 2) == Exponent(0, 2);
    assert s[0..2] + s[2..2] == s;
    assert s[..1] == "0";
    assert DigitsValue(s) == 1;
  }

  lemma ParseTrailingFraction()
    ensures Parse("1.0") == Some(Decimal(10, -1))
  {
    var s := "1.0";
    assert SpacesEnd(s, 0) == 0;
    assert DigitsEnd(s, 1) == 1;
    assert DigitsEnd(s, 0) == 1;
    DigitsEndOfDigits(s, 2);
    assert ExponentAt(s, 3) == Exponent(0, 3);
    assert s[0..1] + s[2..3] == "10";
    assert "10"[..1] == "1";
    assert DigitsValue("10") == 10;
  }

  lemma ParseLeadingSpace()
    ensures Parse(" 2") == Some(Decimal(2, 0))
  {
    var s := " 2";
    assert SpacesEnd(s, 1) == 1;
    assert SpacesEnd(s, 0) == 1;
    DigitsEndOfDigits(s, 1);
    assert ExponentAt(s, 2) == Exponent(0, 2);
    assert s[1..2] + s[2..2] == "2";
    assert DigitsValue("2") == 2;
  }

  lemma ParseExponent()
    ensures Parse("2e0") == Some(Decimal(2, 0))
  {
    var s := "2e0";
    assert SpacesEnd(s, 0) == 0;
    assert DigitsEnd(s, 1) == 1;
    assert DigitsEnd(s, 0) == 1;
    DigitsEndOfDigits(s, 2);
    assert s[2..3] == "0";
    assert DigitsValue("0") == 0;
    assert ExponentAt(s, 1) == Exponent(0, 3);
    assert s[0..1] + s[1..1] == "2";
    assert DigitsValue("2") == 2;
  }
}
