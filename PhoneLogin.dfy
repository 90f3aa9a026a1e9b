/** Phone sign-in: the number typed is normalised to `+<digits>` with a US country code,
    checked, and a one-time code is sent to it and then verified. */
module PhoneLogin {
  import opened Common

  // ---------------------------------------------------------------------------
  // Formatting and validation

  predicate AllDigits(s: string) {
    forall i :: 0 <= i < |s| ==> IsDigit(s[i])
  }

  /** `value.replace(/\D/g, "")`: the ASCII digits of `value`, in order. */
  function Digits(value: string): (d: string)
    ensures |d| <= |value| && AllDigits(d)
    ensures AllDigits(value) ==> d == value
  {
    if value == [] then []
    else
      var init := value[..|value| - 1];
      var last := value[|value| - 1];
      assert value == init + [last];
      Digits(init) + (if IsDigit(last) then [last] else [])
  }

  /** `formatPhoneNumber`: a plus sign, a `1` when the digits do not already start with
      one (and there are digits), then the digits. */
  function FormatPhone(value: string): (p: string)
    ensures |p| >= 1 && p[0] == '+' && AllDigits(p[1..])
    ensures (Digits(value) != [] && Digits(value)[0] != '1') ==> p == "+1" + Digits(value)
    ensures !(Digits(value) != [] && Digits(value)[0] != '1') ==> p == "+" + Digits(value)
  {
    var cleaned := Digits(value);
    if |cleaned| > 0 && cleaned[0] != '1' then
      assert ("+1" + cleaned)[1..] == "1" + cleaned;
      "+1" + cleaned
    else
      assert ("+" + cleaned)[1..] == cleaned;
      "+" + cleaned
  }

  /** A formatted number formats to itself. */
  lemma FormatIdempotent(value: string)
    ensures FormatPhone(FormatPhone(value)) == FormatPhone(value)
  {
    var p := FormatPhone(value);
    DigitsAfterPlus(p);
    assert Digits(p) == p[1..];
    if Digits(value) != [] && Digits(value)[0] != '1' {
      assert p[1..] == "1" + Digits(value);
    } else {
      assert p[1..] == Digits(value);
    }
  }

  /** The digits of `+<digits>` are the digits. */
  lemma DigitsAfterPlus(p: string)
    requires |p| >= 1 && p[0] == '+' && AllDigits(p[1..])
    ensures Digits(p) == p[1..]
  {
    DigitsAppend("+", p[1..]);
    assert p == "+" + p[1..];
    assert Digits("+") == Digits("") + [];
  }

  lemma {:induction false} DigitsAppend(a: string, b: string)
    ensures Digits(a + b) == Digits(a) + Digits(b)
    decreases |b|
  {
    if b == [] {
      assert a + b == a;
    } else {
      var init := b[..|b| - 1];
      assert (a + b)[..|a + b| - 1] == a + init;
      assert (a + b)[|a + b| - 1] == b[|b| - 1];
      DigitsAppend(a, init);
    }
  }

  /** `validatePhoneNumber`: `/^\+1\d{10}$/`. */
  predicate ValidPhone(p: string) {
    |p| == 12 && p[0] == '+' && p[1] == '1' && AllDigits(p[2..])
  }

  /** The numbers the form accepts: ten digits not starting with 1, or eleven digits
      starting with 1, whatever else was typed around them. */
  lemma AcceptedNumbers(value: string)
    ensures ValidPhone(FormatPhone(value)) <==>
      (|Digits(value)| == 10 && Digits(value)[0] != '1') || (|Digits(value)| == 11 && Digits(value)[0] == '1')
  {
    var d := Digits(value);
    var p := FormatPhone(value);
    if d != [] && d[0] != '1' {
      assert p[2..] == d && p[1] == '1';
    } else if d != [] {
      assert p[1..] == d && p[2..] == d[1..];
    } else {
      assert p == "+";
    }
  }

  /** Input without a digit, the empty field included, becomes `+`, which is refused. */
  lemma NoDigitsRefused(value: string)
    requires Digits(value) == []
    ensures FormatPhone(value) == "+" && !ValidPhone(FormatPhone(value))
  {
  }

  // ---------------------------------------------------------------------------
  // The two steps

  datatype Step = PhoneStep | OtpStep

  datatype Toast = NoToast | ErrorToast(message: string) | SuccessToast(message: string)

  /** A verification request: the number and the code. */
  datatype Verification = Verification(phone: string, token: string)

  const OtpLength: nat := 6

  class PhoneLogin {
    var step: Step
    var phone: string
    var otp: string
    var isLoading: bool
    /** The numbers a code was requested for, in order. */
    var sends: seq<string>
    /** The verification requests made, in order. */
    var verifications: seq<Verification>
    /** The numbers written to the profile, in order. */
    var profileUpdates: seq<string>
    /** The last toast shown. */
    var toast: Toast

    /** Codes are only sent to, checked against and stored for valid numbers, and the
        code step always holds a valid number. */
    predicate Valid()
      reads this
    {
      (step == OtpStep ==> ValidPhone(phone))
      && (forall i :: 0 <= i < |sends| ==> ValidPhone(sends[i]))
      && (forall i :: 0 <= i < |verifications| ==> ValidPhone(verifications[i].phone))
      && (forall i :: 0 <= i < |profileUpdates| ==> ValidPhone(profileUpdates[i]))
    }

    constructor()
      ensures Valid()
      ensures step == PhoneStep && phone == "" && otp == "" && !isLoading
      ensures sends == [] && verifications == [] && profileUpdates == [] && toast == NoToast
    {
      step := PhoneStep;
      phone := "";
      otp := "";
      isLoading := false;
      sends := [];
      verifications := [];
      profileUpdates := [];
      toast := NoToast;
    }

    /** The number field; it is only shown on the phone step. */
    method SetPhone(text: string)
      requires Valid() && step == PhoneStep
      modifies this
      ensures Valid()
      ensures phone == text && step == old(step) && otp == old(otp) && isLoading == old(isLoading)
      ensures sends == old(sends) && verifications == old(verifications)
      ensures profileUpdates == old(profileUpdates) && toast == old(toast)
    {
      phone := text;
    }

    /** The code field; it is only shown on the code step. */
    method SetOtp(text: string)
      requires Valid() && step == OtpStep
      modifies this
      ensures Valid()
      ensures otp == text && step == old(step) && phone == old(phone) && isLoading == old(isLoading)
      ensures sends == old(sends) && verifications == old(verifications)
      ensures profileUpdates == old(profileUpdates) && toast == old(toast)
    {
      otp := text;
    }

    /** `handleSendOTP`, run to completion; it is only reachable on the phone step.
        `sendError` is the error of the request. */
    method SendOtp(sendError: Option<string>)
      requires Valid() && step == PhoneStep
      modifies this
      ensures Valid()
      ensures !isLoading || isLoading == old(isLoading)
      ensures otp == old(otp) && verifications == old(verifications) && profileUpdates == old(profileUpdates)
      // an invalid number: refused before any request
      ensures !ValidPhone(FormatPhone(old(phone))) ==>
        toast == ErrorToast("Please enter a valid US phone number")
        && step == old(step) && phone == old(phone) && sends == old(sends) && isLoading == old(isLoading)
      // a valid number: one request, for the formatted number
      ensures ValidPhone(FormatPhone(old(phone))) ==> sends == old(sends) + [FormatPhone(old(phone))] && !isLoading
      ensures ValidPhone(FormatPhone(old(phone))) && sendError.Some? ==>
        toast == ErrorToast(sendError.value) && step == old(step) && phone == old(phone)
      // sent: on to the code step with the formatted number
      ensures ValidPhone(FormatPhone(old(phone))) && sendError.None? ==>
        toast == SuccessToast("OTP sent to your phone!") && step == OtpStep && phone == FormatPhone(old(phone))
    {
      var formatted := FormatPhone(phone);
      if !ValidPhone(formatted) {
        toast := ErrorToast("Please enter a valid US phone number");
        return;
      }
      isLoading := true;
      sends := sends + [formatted];
      isLoading := false;
      if sendError.Some? {
        toast := ErrorToast(sendError.value);
      } else {
        phone := formatted;
        step := OtpStep;
        toast := SuccessToast("OTP sent to your phone!");
      }
    }

    /** `handleVerifyOTP`, run to completion; it is only reachable on the code step.
        `verifyError` is the verification's error, `hasUser` whether it returned a user
        and `updateError` the profile update's error, which is only logged. */
    method VerifyOtp(verifyError: Option<string>, hasUser: bool, updateError: Option<string>)
      requires Valid() && step == OtpStep
      modifies this
      ensures Valid()
      ensures step == old(step) && phone == old(phone) && otp == old(otp) && sends == old(sends)
      // a code of the wrong length: refused before any request
      ensures |old(otp)| != OtpLength ==>
        toast == ErrorToast("Please enter a 6-digit OTP") && isLoading == old(isLoading)
        && verifications == old(verifications) && profileUpdates == old(profileUpdates)
      ensures |old(otp)| == OtpLength ==>
        verifications == old(verifications) + [Verification(old(phone), old(otp))] && !isLoading
      ensures |old(otp)| == OtpLength && verifyError.Some? ==>
        toast == ErrorToast(verifyError.value) && profileUpdates == old(profileUpdates)
      // verified: the number is stored when there is a user, and success is reported
      // whether or not that update failed
      ensures |old(otp)| == OtpLength && verifyError.None? ==>
        toast == SuccessToast("Phone verified successfully!")
        && profileUpdates == old(profileUpdates) + (if hasUser then [old(phone)] else [])
    {
      if |otp| != OtpLength {
        toast := ErrorToast("Please enter a 6-digit OTP");
        return;
      }
      isLoading := true;
      verifications := verifications + [Verification(phone, otp)];
      if verifyError.Some? {
        isLoading := false;
        toast := ErrorToast(verifyError.value);
        return;
      }
      if hasUser {
        profileUpdates := profileUpdates + [phone];
      }
      isLoading := false;
      toast := SuccessToast("Phone verified successfully!");
    }

    /** `handleBack`: back to the number, which is kept; the code is cleared. */
    method Back()
      requires Valid()
      modifies this
      ensures Valid()
      ensures step == PhoneStep && otp == "" && phone == old(phone) && isLoading == old(isLoading)
      ensures sends == old(sends) && verifications == old(verifications)
      ensures profileUpdates == old(profileUpdates) && toast == old(toast)
    {
      step := PhoneStep;
      otp := "";
    }

    /** The "Try again" link: back to the number, but the code typed is kept. */
    method TryAgain()
      requires Valid()
      modifies this
      ensures Valid()
      ensures step == PhoneStep && otp == old(otp) && phone == old(phone) && isLoading == old(isLoading)
      ensures sends == old(sends) && verifications == old(verifications)
      ensures profileUpdates == old(profileUpdates) && toast == old(toast)
    {
      step := PhoneStep;
    }
  }
}
