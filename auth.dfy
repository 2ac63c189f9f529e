/** The two-step phone sign-in screen (components/Auth.tsx): the user types a
    local number, a one-time code is sent by SMS to the country code followed
    by that number's digits, and the six-digit code typed back is verified
    against the number it was sent to. Whether the backend accepts a request
    is a parameter of each step. */
module Auth {
  import opened Seqs
  import opened Text

  /** The two screens; the first is named `enter-email` in the source though
      it asks for a phone number. */
  datatype Step = EnterEmail | EnterCode

  /** What `verifyCode` does with the code: rejects it before any request, or
      asks the backend to check `token` for `phone`. */
  datatype VerifyRequest = BadLength | NoCodeSent | Check(phone: string, token: string)

  /** How an awaited backend call ends: with no `error`, with an `error` in
      its result, or with a rejected promise, which neither handler
      catches. */
  datatype Outcome = Accepted | Rejected | Threw

  /** The number the code is sent to: the country code followed by the digits
      of the typed number, with no `+` in front. */
  function FullPhone(countryCode: string, phone: string): (full: string)
    ensures |full| >= |countryCode| && full[..|countryCode|] == countryCode
    ensures AllDigits(full[|countryCode|..]) && IsSubsequence(full[|countryCode|..], phone)
    ensures forall c :: IsDigit(c) ==> multiset(full[|countryCode|..])[c] == multiset(phone)[c]
  {
    OnlyDigitsKeepsDigitsInOrder(phone);
    assert (countryCode + OnlyDigits(phone))[|countryCode|..] == OnlyDigits(phone);
    countryCode + OnlyDigits(phone)
  }

  /** The sent number holds the country code's digits and then every digit
      typed, in order, and nothing else. */
  lemma FullPhoneIsDigits(countryCode: string, phone: string)
    requires AllDigits(countryCode)
    ensures AllDigits(FullPhone(countryCode, phone))
    ensures FullPhone(countryCode, phone) == OnlyDigits(countryCode + phone)
    ensures FullPhone(countryCode, phone)[..|countryCode|] == countryCode
  {
    OnlyDigitsOfDigits(countryCode);
    OnlyDigitsAppend(countryCode, phone);
  }

  /** The send button is enabled by any non-empty input, digits or not; the
      request then carries the country code alone exactly when the input has
      no digit (`"-"` or `"abc"`, say). */
  lemma BareCountryCode(countryCode: string, phone: string)
    ensures FullPhone(countryCode, phone) == countryCode <==> !Any(IsDigit, phone)
  {
    FilterEmpty(IsDigit, phone);
    assert |FullPhone(countryCode, phone)| == |countryCode| + |OnlyDigits(phone)|;
  }

  /** The code field: the input keeps at most six characters, and the
      change handler keeps only their digits. */
  function CodeEntry(text: string): (code: string)
    ensures AllDigits(code) && |code| <= 6
  {
    OnlyDigits(if |text| <= 6 then text else text[..6])
  }

  /** Entering the field's own content again changes nothing. */
  lemma CodeEntryIdempotent(text: string)
    ensures CodeEntry(CodeEntry(text)) == CodeEntry(text)
  {
    OnlyDigitsOfDigits(CodeEntry(text));
  }

  /** Every digit among the first six typed characters survives, in order,
      and nothing else does. */
  lemma CodeEntryKeepsTypedDigits(text: string)
    ensures var kept := if |text| <= 6 then text else text[..6];
      && IsSubsequence(CodeEntry(text), kept)
      && forall c :: multiset(CodeEntry(text))[c] == if IsDigit(c) then multiset(kept)[c] else 0
  {
    OnlyDigitsKeepsDigitsInOrder(if |text| <= 6 then text else text[..6]);
  }

  /** The guards of `verifyCode`, in their order: the trimmed code must have
      six characters, then a code must have been sent. */
  function VerifyDecision(code: string, sentPhone: string): (req: VerifyRequest)
    ensures req.Check? <==> |Trim(code)| == 6 && sentPhone != ""
    ensures req.Check? ==> req.phone == sentPhone && req.token == Trim(code)
    ensures req == BadLength <==> |Trim(code)| != 6
  {
    var token := Trim(code);
    if |token| != 6 then BadLength
    else if sentPhone == "" then NoCodeSent
    else Check(sentPhone, token)
  }

  /** A code typed through the field is sent as it stands: when the verify
      button is enabled and a code was sent, no guard rejects it. */
  lemma EnabledVerifyIsChecked(code: string, sentPhone: string)
    requires AllDigits(code) && |code| == 6 && sentPhone != ""
    ensures VerifyDecision(code, sentPhone) == Check(sentPhone, code)
  {
    TrimOfDigits(code);
  }

  /** The screen's state. */
  class AuthScreen {
    var phone: string
    var loading: bool
    var code: string
    var countryCode: string
    var sentPhone: string
    var step: Step

    /** What the screen keeps true between events: the country code is one
        of the offered ones, the code field holds at most six digits, and the
        code step is reached only after a code was sent to a number made of
        digits. */
    ghost predicate Valid()
      reads this
    {
      && countryCode in {"1", "44", "91"}
      && AllDigits(code) && |code| <= 6
      && AllDigits(sentPhone)
      && (step == EnterCode ==> sentPhone != "")
    }

    constructor ()
      ensures Valid()
      ensures phone == "" && !loading && code == "" && countryCode == "1"
      ensures sentPhone == "" && step == EnterEmail
    {
      phone := "";
      loading := false;
      code := "";
      countryCode := "1";
      sentPhone := "";
      step := EnterEmail;
    }

    /** `loading || !phone`. */
    predicate SendDisabled()
      reads this
    {
      loading || phone == ""
    }

    /** `loading || code.length !== 6`. */
    predicate VerifyDisabled()
      reads this
    {
      loading || |code| != 6
    }

    method ChooseCountry(c: string)
      requires Valid() && c in {"1", "44", "91"}
      modifies this`countryCode
      ensures Valid() && countryCode == c
    {
      countryCode := c;
    }

    method TypePhone(text: string)
      requires Valid()
      modifies this`phone
      ensures Valid() && phone == text
    {
      phone := text;
    }

    method TypeCode(text: string)
      requires Valid()
      modifies this`code
      ensures Valid() && code == CodeEntry(text)
    {
      code := CodeEntry(text);
    }

    /** `sendCode`: the request goes to `FullPhone`; on success that number
        is remembered and the code step shown, on an error step and number
        stay, and loading ends false in both cases. A rejected promise skips
        the final `setLoading(false)`: loading stays true, and the send,
        resend and verify buttons stay disabled. */
    method SendCode(outcome: Outcome) returns (requested: string)
      requires Valid()
      modifies this`loading, this`sentPhone, this`step
      ensures Valid()
      ensures requested == FullPhone(old(countryCode), old(phone))
      ensures outcome == Accepted ==> sentPhone == requested && step == EnterCode
      ensures outcome != Accepted ==> sentPhone == old(sentPhone) && step == old(step)
      ensures loading <==> outcome == Threw
    {
      loading := true;
      var cleanedLocal := OnlyDigits(phone);
      var fullPhone := countryCode + cleanedLocal;
      requested := fullPhone;
      if outcome == Threw {
        return;
      }
      if outcome == Accepted {
        sentPhone := fullPhone;
        step := EnterCode;
      }
      loading := false;
    }

    /** `verifyCode`: a code whose trimmed length is not six, or a missing
        sent number, is rejected with no request; otherwise the backend
        checks the code for the sent number, and on success the screen goes
        back to the phone step with both fields cleared, so both buttons are
        disabled until a number is typed again. A rejected promise from the
        backend skips the final `setLoading(false)` and leaves loading true. */
    method VerifyCode(outcome: Outcome) returns (req: VerifyRequest)
      requires Valid()
      modifies this`loading, this`step, this`code, this`phone
      ensures Valid()
      ensures req == VerifyDecision(old(code), sentPhone)
      ensures req.Check? && outcome == Accepted ==> step == EnterEmail && code == "" && phone == ""
      ensures req.Check? && outcome == Accepted ==> SendDisabled() && VerifyDisabled()
      ensures !(req.Check? && outcome == Accepted) ==> step == old(step) && code == old(code) && phone == old(phone)
      ensures loading <==> req.Check? && outcome == Threw
    {
      loading := true;
      req := VerifyDecision(code, sentPhone);
      assert Valid();
      if !req.Check? || outcome == Rejected {
        loading := false;
        return;
      }
      if outcome == Threw {
        return;
      }
      ResetAfterSignIn();
      loading := false;
    }

    /** The reset after a successful verification. */
    method ResetAfterSignIn()
      requires Valid()
      modifies this`step, this`code, this`phone
      ensures Valid()
      ensures step == EnterEmail && code == "" && phone == ""
    {
      step := EnterEmail;
      code := "";
      phone := "";
    }
  }

  /** Between events, with the verify button enabled on the code step, the
      press always reaches the backend with the typed code and the number
      the code was sent to. */
  lemma EnabledVerifyReachesBackend(screen: AuthScreen)
    requires screen.Valid() && screen.step == EnterCode && !screen.VerifyDisabled()
    ensures VerifyDecision(screen.code, screen.sentPhone) == Check(screen.sentPhone, screen.code)
  {
    EnabledVerifyIsChecked(screen.code, screen.sentPhone);
  }

  /** A successful send always leaves a non-empty all-digit number to verify
      against, starting with the chosen country code. */
  lemma SentNumberShape(countryCode: string, phone: string)
    requires countryCode in {"1", "44", "91"}
    ensures var full := FullPhone(countryCode, phone);
      full != [] && AllDigits(full) && '+' !in full
  {
    FullPhoneIsDigits(countryCode, phone);
  }
}
