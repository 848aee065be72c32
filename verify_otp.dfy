/**
 * The OTP entry modal: six one-character slots written index by index, the
 * index of the focused input, and a countdown of the seconds the code stays
 * valid. A clock tick, a keystroke, a paste and a click are method calls;
 * the remote calls are inputs.
 */
module VerifyOtp {
  import opened Wrappers
  import opened Text
  import opened AuthService

  const SlotCount := 6
  const ValidFor := 300
  const RequiredMessage := "All digits are required"
  const FallbackOtpMessage := "Please enter a valid OTP"
  const VerifyFailedMessage := "Invalid OTP. Please try again."

  /** What a slot may hold: nothing, or one decimal digit. */
  predicate SlotOk(s: string) {
    s == "" || (|s| == 1 && IsDigit(s[0]))
  }

  /** The guard on a keystroke: at most one character, all digits (`/^\d*$/`). */
  predicate TypedAccepted(value: string) {
    |value| <= 1 && AllDigits(value)
  }

  lemma TypedAcceptedIsSlotOk(value: string)
    ensures TypedAccepted(value) <==> SlotOk(value)
  {
  }

  function Min(a: int, b: int): int {
    if a < b then a else b
  }

  /**
   * The slots after a paste: the first min(k, 6) of the k pasted digits go
   * into the leading slots and every later slot keeps what it held.
   */
  function PasteSlots(before: seq<string>, clip: string): seq<string> {
    var digits := DigitsOnly(clip);
    seq(|before|, i requires 0 <= i < |before| =>
      if i < |digits| && i < SlotCount then [digits[i]] else before[i])
  }

  /** The focus after a paste: the slot of the last pasted digit, at most the last slot. */
  function PasteFocus(before: nat, clip: string): nat {
    var digits := DigitsOnly(clip);
    if |digits| > 0 then Min(|digits| - 1, SlotCount - 1) else before
  }

  lemma PasteKeepsSlotsOk(before: seq<string>, clip: string)
    requires forall i | 0 <= i < |before| :: SlotOk(before[i])
    ensures |PasteSlots(before, clip)| == |before|
    ensures forall i | 0 <= i < |before| :: SlotOk(PasteSlots(before, clip)[i])
  {
  }

  /** Only the leading slots change; with nothing to paste nothing changes. */
  lemma PasteWritesPrefixOnly(before: seq<string>, clip: string, i: int)
    requires 0 <= i < |before|
    ensures i >= |DigitsOnly(clip)| || i >= SlotCount ==> PasteSlots(before, clip)[i] == before[i]
    ensures i < |DigitsOnly(clip)| && i < SlotCount ==> PasteSlots(before, clip)[i] == [DigitsOnly(clip)[i]]
    ensures DigitsOnly(clip) == "" ==> PasteSlots(before, clip) == before
  {
  }

  /** Focus lands inside the six inputs. */
  lemma PasteFocusInRange(before: nat, clip: string)
    requires before < SlotCount
    ensures PasteFocus(before, clip) < SlotCount
  {
  }

  /** Pasting a text with six or more digits fills the code with its first six digits. */
  lemma PastedCodeIsFirstSixDigits(before: seq<string>, clip: string)
    requires |before| == SlotCount && |DigitsOnly(clip)| >= SlotCount
    ensures Concat(PasteSlots(before, clip)) == DigitsOnly(clip)[..SlotCount]
  {
    var after := PasteSlots(before, clip);
    ConcatOfSingles(after);
  }

  /** A short paste leaves later slots as they were: stale digits survive. */
  lemma ShortPasteKeepsStaleDigit()
    ensures PasteSlots(["1", "2", "3", "4", "5", "6"], "98") == ["9", "8", "3", "4", "5", "6"]
  {
    var before, after := ["1", "2", "3", "4", "5", "6"], PasteSlots(["1", "2", "3", "4", "5", "6"], "98");
    assert DigitsOnly("98") == "98";
    assert |after| == 6;
    assert after[0] == ['9'] && after[1] == ['8'];
    forall i | 2 <= i < 6 ensures after[i] == before[i] {
      PasteWritesPrefixOnly(before, "98", i);
    }
  }

  /** `formatTime`: whole minutes, a colon, then the seconds with a leading zero below ten. */
  function FormatTime(seconds: nat): (r: string)
    ensures |r| >= 4 && r[|r| - 3] == ':'
    ensures AllDigits(r[..|r| - 3]) && AllDigits(r[|r| - 2..])
    ensures r[..|r| - 3] == NatToDecimal(seconds / 60)
    ensures DecimalValue(r[|r| - 2..]) < 60
    ensures DecimalValue(r[..|r| - 3]) * 60 + DecimalValue(r[|r| - 2..]) == seconds
  {
    var m, rest := seconds / 60, seconds % 60;
    assert seconds == m * 60 + rest && rest < 60;
    var minutes := NatToDecimal(m);
    var secs := (if rest < 10 then "0" else "") + NatToDecimal(rest);
    assert |secs| == 2 && AllDigits(secs) && DecimalValue(secs) == rest by {
      DecimalValueLeadingZero(NatToDecimal(rest));
    }
    var r := minutes + ":" + secs;
    assert r[|r| - 3] == ':' && r[..|r| - 3] == minutes && r[|r| - 2..] == secs;
    r
  }

  lemma FormatTimeExamples()
    ensures FormatTime(270) == "4:30"
    ensures FormatTime(300) == "5:00"
    ensures FormatTime(9) == "0:09"
  {
    FormatTimeOf(270, "4", "30");
    FormatTimeOf(300, "5", "00");
    FormatTimeOf(9, "0", "09");
  }

  /** The text for a time given its minutes text and its two-digit seconds text. */
  lemma FormatTimeOf(seconds: nat, minutes: string, secs: string)
    requires NatToDecimal(seconds / 60) == minutes
    requires |secs| == 2 && (if seconds % 60 < 10 then "0" else "") + NatToDecimal(seconds % 60) == secs
    ensures FormatTime(seconds) == minutes + ":" + secs
  {
  }

  /** The address the code is verified for: the prop, else the stored "email", else "". */
  function EmailToSend(prop: Option<string>, storage: map<string, string>): (email: string)
    ensures prop.Some? && prop.value != "" ==> email == prop.value
    ensures email != "" && email != prop.GetOr("") ==> GetItem(storage, EmailKey) == Some(email)
    ensures email == "" <==>
      prop.GetOr("") == "" && GetItem(storage, EmailKey).GetOr("") == ""
  {
    if prop.GetOr("") != "" then prop.GetOr("")
    else GetItem(storage, EmailKey).GetOr("")
  }

  /** The message under the inputs when a slot is empty: slot 0's own error, else a generic one. */
  function MissingDigitText(slots: seq<string>): (text: Option<string>)
    requires |slots| == SlotCount
    ensures text.None? <==> forall i | 0 <= i < SlotCount :: slots[i] != ""
    ensures slots[0] == "" ==> text == Some(RequiredMessage)
    ensures slots[0] != "" && text.Some? ==> text == Some(FallbackOtpMessage)
  {
    if slots[0] == "" then Some(RequiredMessage)
    else if exists i | 0 <= i < SlotCount :: slots[i] == "" then Some(FallbackOtpMessage)
    else None
  }

  /** `disabled` of the Verify button. */
  predicate SubmitDisabled(timeLeft: int, pending: bool) {
    timeLeft <= 0 || pending
  }

  /** The Resend link is clickable (its `disabled` is `timeLeft > 0`). */
  predicate ResendEnabled(timeLeft: int) {
    timeLeft <= 0
  }

  /** Verify and Resend are never both available; once the code expired only Resend is. */
  lemma SubmitOrResend(timeLeft: int, pending: bool)
    ensures !(ResendEnabled(timeLeft) && !SubmitDisabled(timeLeft, pending))
    ensures ResendEnabled(timeLeft) || !pending <==> ResendEnabled(timeLeft) || !SubmitDisabled(timeLeft, pending)
  {
  }

  class OtpModal {
    const slots: array<string>
    var focus: nat
    var timeLeft: int
    var show: bool

    ghost predicate Valid()
      reads this, slots
    {
      && slots.Length == SlotCount
      && (forall i | 0 <= i < SlotCount :: SlotOk(slots[i]))
      && focus < SlotCount
      && 0 <= timeLeft <= ValidFor
      && (!show ==> timeLeft == ValidFor)
    }

    /** The six slots empty, focus on the first, the full five minutes left. */
    constructor (show: bool)
      ensures Valid() && fresh(slots)
      ensures slots[..] == ["", "", "", "", "", ""]
      ensures focus == 0 && timeLeft == ValidFor && this.show == show
    {
      slots := new string[SlotCount](_ => "");
      focus := 0;
      timeLeft := ValidFor;
      this.show := show;
    }

    /** The code as submitted: the six slots joined. */
    function Code(): string
      reads this, slots
    {
      Concat(slots[..])
    }

    /** `reset()`: every slot back to empty. */
    method ClearSlots()
      requires Valid()
      modifies slots
      ensures Valid()
      ensures forall i | 0 <= i < SlotCount :: slots[i] == ""
    {
      forall i | 0 <= i < SlotCount {
        slots[i] := "";
      }
    }

    /** The parent opens the modal; the first input takes focus. */
    method Open()
      requires Valid()
      modifies this
      ensures Valid() && show && focus == 0
      ensures timeLeft == old(timeLeft)
    {
      show := true;
      focus := 0;
    }

    /** The modal is closed: the effect restores the full time and clears the slots. */
    method Hide()
      requires Valid()
      modifies this, slots
      ensures Valid() && !show && timeLeft == ValidFor
      ensures forall i | 0 <= i < SlotCount :: slots[i] == ""
      ensures focus == old(focus)
    {
      show := false;
      timeLeft := ValidFor;
      ClearSlots();
    }

    /** One second of the countdown; there is no interval while hidden or once at zero. */
    method Tick()
      requires Valid()
      modifies this
      ensures Valid()
      ensures timeLeft == if show && old(timeLeft) > 0 then old(timeLeft) - 1 else old(timeLeft)
      ensures show == old(show) && focus == old(focus)
    {
      if show && timeLeft > 0 {
        timeLeft := timeLeft - 1;
      }
    }

    /** `handleInputChange`: store an accepted keystroke, then move to the next input. */
    method TypeInto(index: nat, value: string)
      requires Valid() && index < SlotCount
      modifies this, slots
      ensures Valid()
      ensures slots[..] == if TypedAccepted(value) then old(slots[..])[index := value] else old(slots[..])
      ensures focus == if TypedAccepted(value) && value != "" && index < SlotCount - 1 then index + 1 else old(focus)
      ensures timeLeft == old(timeLeft) && show == old(show)
    {
      if |value| <= 1 && AllDigits(value) {
        TypedAcceptedIsSlotOk(value);
        slots[index] := value;
        if value != "" && index < SlotCount - 1 {
          focus := index + 1;
        }
      }
    }

    /** `handleKeyDown`: Backspace in an empty input goes back one input. */
    method KeyDown(key: string, index: nat)
      requires Valid() && index < SlotCount
      modifies this
      ensures Valid()
      ensures focus == if key == "Backspace" && slots[index] == "" && index > 0 then index - 1 else old(focus)
      ensures timeLeft == old(timeLeft) && show == old(show)
    {
      if key == "Backspace" && slots[index] == "" && index > 0 {
        focus := index - 1;
      }
    }

    /**
     * `handlePaste`: the pasted digits written slot by slot from the first.
     * Only the first input listens for paste, so the handler takes no index.
     */
    method Paste(clip: string)
      requires Valid()
      modifies this, slots
      ensures Valid()
      ensures slots[..] == PasteSlots(old(slots[..]), clip)
      ensures focus == PasteFocus(old(focus), clip)
      ensures timeLeft == old(timeLeft) && show == old(show)
    {
      ghost var before := slots[..];
      var digits := DigitsOnly(clip);
      if |digits| > 0 {
        WriteDigits(digits);
        focus := Min(|digits| - 1, SlotCount - 1);
      }
      assert slots[..] == PasteSlots(before, clip) by {
        assert forall j | 0 <= j < SlotCount :: slots[j] == PasteSlots(before, clip)[j];
      }
      assert Valid() by {
        PasteKeepsSlotsOk(before, clip);
      }
    }

    /** The paste loop: slot j takes the j-th digit for each of the first min(k, 6) digits. */
    method WriteDigits(digits: string)
      requires slots.Length == SlotCount
      modifies slots
      ensures forall j | 0 <= j < SlotCount :: slots[j] == if j < |digits| then [digits[j]] else old(slots[j])
    {
      var count := Min(|digits|, SlotCount);
      var i := 0;
      while i < count
        invariant 0 <= i <= count
        invariant forall j | 0 <= j < SlotCount :: slots[j] == if j < i then [digits[j]] else old(slots[j])
      {
        slots[i] := [digits[i]];
        i := i + 1;
      }
    }

    /** A successful resend: the full time again and empty slots; a disabled link does nothing. */
    method Resend(succeeded: bool)
      requires Valid()
      modifies this, slots
      ensures Valid()
      ensures ResendEnabled(old(timeLeft)) && succeeded ==>
        timeLeft == ValidFor && forall i | 0 <= i < SlotCount :: slots[i] == ""
      ensures !(ResendEnabled(old(timeLeft)) && succeeded) ==>
        timeLeft == old(timeLeft) && slots[..] == old(slots[..])
      ensures show == old(show) && focus == old(focus)
    {
      if timeLeft <= 0 && succeeded {
        timeLeft := ValidFor;
        ClearSlots();
      }
    }

    /**
     * The Verify button. Nothing happens while it is disabled; a missing digit
     * shows the required message and sends nothing; otherwise the joined code
     * is posted with the chosen address, and a success clears and closes the
     * modal while a failure shows the server's message or the fallback.
     */
    method Submit(store: TokenStore, emailProp: Option<string>, pending: bool, outcome: Outcome)
      returns (sent: Option<VerifyOtpRequest>, shown: Option<string>)
      requires Valid()
      modifies this, slots, store
      ensures Valid()
      ensures focus == old(focus)
      ensures SubmitDisabled(old(timeLeft), pending) ==>
        && sent.None? && shown.None? && slots[..] == old(slots[..]) && store.items == old(store.items)
        && show == old(show) && timeLeft == old(timeLeft)
      ensures !SubmitDisabled(old(timeLeft), pending) && MissingDigitText(old(slots[..])).Some? ==>
        && sent.None? && shown == MissingDigitText(old(slots[..])) && store.items == old(store.items)
        && slots[..] == old(slots[..]) && show == old(show) && timeLeft == old(timeLeft)
      ensures sent.Some? ==>
        && sent.value == VerifyOtpRequest(Concat(old(slots[..])), EmailToSend(emailProp, old(store.items)))
        && store.items == AfterCall(old(store.items), outcome)
      ensures sent.Some? && outcome.Succeeded? ==>
        !show && timeLeft == ValidFor && shown.None? && forall i | 0 <= i < SlotCount :: slots[i] == ""
      ensures sent.Some? && outcome.Failed? ==>
        && shown == Some(ErrorText(outcome.error, VerifyFailedMessage)) && slots[..] == old(slots[..])
        && show == old(show) && timeLeft == old(timeLeft)
      ensures !SubmitDisabled(old(timeLeft), pending) && MissingDigitText(old(slots[..])).None? ==> sent.Some?
    {
      sent, shown := None, None;
      if timeLeft <= 0 || pending {
        return;
      }
      var missing := MissingDigitText(slots[..]);
      if missing.Some? {
        shown := missing;
        return;
      }
      var request := VerifyOtpRequest(Concat(slots[..]), EmailToSend(emailProp, store.items));
      var result := store.VerifyOtp(request, outcome);
      sent := Some(request);
      if result.Succeeded? {
        Hide();
      } else {
        shown := Some(ErrorText(result.error, VerifyFailedMessage));
      }
    }
  }

  /** A complete code is six digits, one per slot, in slot order. */
  lemma CompleteCodeIsSixDigits(slots: seq<string>)
    requires |slots| == SlotCount
    requires forall i | 0 <= i < SlotCount :: SlotOk(slots[i])
    requires MissingDigitText(slots).None?
    ensures |Concat(slots)| == SlotCount && AllDigits(Concat(slots))
    ensures forall i | 0 <= i < SlotCount :: Concat(slots)[i] == slots[i][0]
  {
    ConcatOfSingles(slots);
  }
}
