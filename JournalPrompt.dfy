/** The journal prompt on the home page: the text and mood being written, the submit
    handler that asks for a reflection and stores the entry, and the completion card
    shown once today's entry exists. */
module JournalPrompt {
  import opened Common
  import Calendar
  import Reflection

  const MaxChars: nat := 240

  const BlankMessage: string := "Please write something first!"
  const TooLongMessage: string := "Please keep it under 240 characters"
  const DefaultFailure: string := "Failed to save entry"

  /** Why a submission is refused before any request is made, or `None` when it goes
      ahead: blank text first, then text over the limit (JavaScript `.length`). Blank
      means all white space, which is when `trim()` leaves nothing (see `GuardTrims`). */
  function Guard(entry: string): (message: Option<string>)
  {
    if AllSpace(entry) then Some(BlankMessage)
    else if Utf16Length(entry) > MaxChars then Some(TooLongMessage)
    else None
  }

  /** The guard as the page writes it: refused as blank exactly when `trim()` is empty,
      as too long exactly when the trimmed text is not empty and the text is over 240
      UTF-16 units, and let through otherwise. */
  lemma GuardTrims(entry: string)
    ensures Guard(entry) == Some(BlankMessage) <==> Trim(entry) == []
    ensures Guard(entry) == Some(TooLongMessage) <==> Trim(entry) != [] && Utf16Length(entry) > MaxChars
    ensures Guard(entry).None? <==> Trim(entry) != [] && Utf16Length(entry) <= MaxChars
  {
    TrimEmptyIffAllSpace(entry);
    assert BlankMessage != TooLongMessage;
  }

  /** `reflectionData.moodScore || mood`: the mood from the reflection when it is truthy,
      otherwise the one the user picked (which may be none). */
  function StoredMood(fromReflection: Option<int>, picked: Option<int>): (m: Option<int>)
    ensures Tracked(fromReflection) ==> m == fromReflection
    ensures !Tracked(fromReflection) ==> m == picked
    ensures Tracked(m) <==> Tracked(fromReflection) || Tracked(picked)
  {
    if Tracked(fromReflection) then fromReflection else picked
  }

  /** A mood the user picked is the mood stored: the reflection function hands a
      supplied mood back unchanged. */
  lemma PickedMoodIsStored(text: string, m: int, apiKey: bool, ai: Common.AiReply)
    requires 1 <= m <= 5
    requires Reflection.ValidateInput(JObj(map["entryText" := JStr(text), "moodScore" := JNum(m as real)])).Ok?
    ensures var r := Reflection.GenerateReflection(Some(JObj(map["entryText" := JStr(text), "moodScore" := JNum(m as real)])), apiKey, ai).0;
      r.Success? ==> StoredMood(r.moodScore, Some(m)) == Some(m)
  {
    var body := JObj(map["entryText" := JStr(text), "moodScore" := JNum(m as real)]);
    assert Field(body, "moodScore") == Some(JNum(m as real));
    assert (m as real).Floor == m;
    assert Reflection.GoodMood(body);
  }

  /** The request sent to `generate-reflection`. */
  datatype Request = Request(entryText: string, moodScore: Option<int>)

  /** What the reflection function answered with, when it succeeded. */
  datatype ReflectionData = ReflectionData(reflection: Option<string>, moodScore: Option<int>)

  /** The row inserted into `journal_entries`. */
  datatype Row = Row(entryText: string, aiReflection: Option<string>, moodScore: Option<int>, entryDate: string)

  /** The row stored for `entry` written on UTC day `utcToday`, given the reflection
      and the mood picked. */
  function NewRow(entry: string, data: ReflectionData, picked: Option<int>, utcToday: int): (r: Row)
    ensures r.entryText == entry && r.aiReflection == data.reflection
    ensures r.moodScore == StoredMood(data.moodScore, picked)
    ensures r.entryDate == Calendar.IsoDate(utcToday)
  {
    Row(entry, data.reflection, StoredMood(data.moodScore, picked), Calendar.IsoDate(utcToday))
  }

  const Saved: string := "Entry saved! ✨"

  datatype Toast = NoToast | ErrorToast(message: string) | SuccessToast(message: string)

  /** `error.message || "Failed to save entry"`. */
  function FailureMessage(e: string): (m: string)
    ensures m != []
    ensures e != [] ==> m == e
  {
    if e == [] then DefaultFailure else e
  }

  /** What the page shows: only the completion card once today's entry exists. */
  datatype Screen = CompletionCard | Form(canSubmit: bool)

  function View(hasEntryToday: bool, p: JournalPrompt): (s: Screen)
    reads p
    ensures s.CompletionCard? <==> hasEntryToday
    ensures s.Form? ==> (s.canSubmit <==> !p.isSubmitting && !AllSpace(p.entry))
  {
    TrimEmptyIffAllSpace(p.entry);
    if hasEntryToday then CompletionCard else Form(!p.isSubmitting && Trim(p.entry) != [])
  }

  class JournalPrompt {
    var entry: string
    var mood: Option<int>
    var isSubmitting: bool
    /** How many times `onEntrySubmitted` was called. */
    var submitted: nat
    /** The requests made to `generate-reflection`, in order. */
    var requests: seq<Request>
    /** The rows inserted, in order. */
    var inserts: seq<Row>
    /** The last toast shown. */
    var toast: Toast

    /** Every stored row follows a request, and every callback follows a stored row. */
    predicate Valid()
      reads this
    {
      submitted <= |inserts| <= |requests|
    }

    constructor()
      ensures Valid()
      ensures entry == "" && mood.None? && !isSubmitting
      ensures submitted == 0 && requests == [] && inserts == [] && toast == NoToast
    {
      entry := "";
      mood := None;
      isSubmitting := false;
      submitted := 0;
      requests := [];
      inserts := [];
      toast := NoToast;
    }

    /** The text area's `onChange`. */
    method SetEntry(text: string)
      modifies this
      ensures entry == text
      ensures mood == old(mood) && isSubmitting == old(isSubmitting) && submitted == old(submitted)
      ensures requests == old(requests) && inserts == old(inserts) && toast == old(toast)
    {
      entry := text;
    }

    /** The mood picker's `onChange`. */
    method SetMood(m: Option<int>)
      modifies this
      ensures mood == m
      ensures entry == old(entry) && isSubmitting == old(isSubmitting) && submitted == old(submitted)
      ensures requests == old(requests) && inserts == old(inserts) && toast == old(toast)
    {
      mood := m;
    }

    /** `handleSubmit`, run to completion. `reflection` is what `generate-reflection`
        answers (an error message on failure), `insertError` the insert's error and
        `utcToday` the UTC day of `new Date()`. */
    method HandleSubmit(reflection: Result<ReflectionData, string>, insertError: Option<string>, utcToday: int)
      requires Valid()
      modifies this
      ensures Valid()
      // refused: a toast, and nothing else happens
      ensures Guard(old(entry)).Some? ==>
        toast == ErrorToast(Guard(old(entry)).value)
        && entry == old(entry) && mood == old(mood) && isSubmitting == old(isSubmitting)
        && submitted == old(submitted) && requests == old(requests) && inserts == old(inserts)
      // accepted: exactly one request, and the flag is down afterwards
      ensures Guard(old(entry)).None? ==>
        requests == old(requests) + [Request(old(entry), old(mood))] && !isSubmitting
      // the reflection failed: nothing stored, the text kept
      ensures Guard(old(entry)).None? && reflection.Err? ==>
        inserts == old(inserts) && entry == old(entry) && mood == old(mood)
        && submitted == old(submitted) && toast == ErrorToast(FailureMessage(reflection.error))
      // the untrimmed text is stored with the chosen mood and the UTC date
      ensures Guard(old(entry)).None? && reflection.Ok? ==>
        inserts == old(inserts) + [NewRow(old(entry), reflection.value, old(mood), utcToday)]
      // the insert failed: the text kept
      ensures Guard(old(entry)).None? && reflection.Ok? && insertError.Some? ==>
        entry == old(entry) && mood == old(mood) && submitted == old(submitted)
        && toast == ErrorToast(FailureMessage(insertError.value))
      // saved: the form is cleared and the callback fires once
      ensures Guard(old(entry)).None? && reflection.Ok? && insertError.None? ==>
        entry == "" && mood.None? && submitted == old(submitted) + 1
        && toast == SuccessToast(Saved)
    {
      var refused := Guard(entry);
      if refused.Some? {
        toast := ErrorToast(refused.value);
      } else {
        Submit(reflection, insertError, utcToday);
      }
    }

    /** `handleSubmit` once the guards pass: the request is made, the entry is stored
        once the reflection is in, and the form cleared once it is stored. */
    method Submit(reflection: Result<ReflectionData, string>, insertError: Option<string>, utcToday: int)
      requires Valid()
      modifies this
      ensures Valid()
      ensures requests == old(requests) + [Request(old(entry), old(mood))] && !isSubmitting
      ensures reflection.Err? ==>
        inserts == old(inserts) && entry == old(entry) && mood == old(mood)
        && submitted == old(submitted) && toast == ErrorToast(FailureMessage(reflection.error))
      ensures reflection.Ok? ==>
        inserts == old(inserts) + [NewRow(old(entry), reflection.value, old(mood), utcToday)]
      ensures reflection.Ok? && insertError.Some? ==>
        entry == old(entry) && mood == old(mood) && submitted == old(submitted)
        && toast == ErrorToast(FailureMessage(insertError.value))
      ensures reflection.Ok? && insertError.None? ==>
        entry == "" && mood.None? && submitted == old(submitted) + 1
        && toast == SuccessToast(Saved)
    {
      isSubmitting := true;
      requests := requests + [Request(entry, mood)];
      if reflection.Err? {
        toast := ErrorToast(FailureMessage(reflection.error));
      } else {
        inserts := inserts + [NewRow(entry, reflection.value, mood, utcToday)];
        if insertError.Some? {
          toast := ErrorToast(FailureMessage(insertError.value));
        } else {
          toast := SuccessToast(Saved);
          entry := "";
          mood := None;
          submitted := submitted + 1;
        }
      }
      isSubmitting := false;
    }
  }
}
