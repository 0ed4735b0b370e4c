/**
 * The event search and description merge of update_calendar in
 * src/main.py: among the day's events, the first whose title is all digits
 * gets the report appended to its description and is sent back to the
 * calendar service.
 */
module Calendar {
  import opened Wrappers
  import opened Text

  /** A listed event; a missing title or description reads as "". */
  datatype Event = Event(id: string, summary: string, description: string)

  /**
   * The calendar service as the script meets it: each step may fail with a
   * message (decoding the credentials, building the client, listing the
   * day's events, sending the update).
   */
  datatype CalendarService = CalendarService(
    credentialsFailure: Option<string>,
    serviceFailure: Option<string>,
    listFailure: Option<string>,
    updateFailure: Option<string>)

  /** Put between an existing description and the appended report. */
  const Separator: string := "\n\n---\n\n"

  const NoMatchingEvent: string := "No matching event found"

  /** The new description: the report appended, separated only from existing text. */
  function MergeDescription(current: string, content: string): string {
    current + (if current != "" then Separator else "") + content
  }

  /** The position of the first event whose title is all digits, if any. */
  function FirstNumbered(events: seq<Event>): (r: Option<nat>)
    ensures r.Some? ==> r.value < |events| && IsAllDigits(events[r.value].summary)
    ensures r.Some? ==> forall j :: 0 <= j < r.value ==> !IsAllDigits(events[j].summary)
    ensures r.None? ==> forall j :: 0 <= j < |events| ==> !IsAllDigits(events[j].summary)
  {
    if events == [] then None
    else if IsAllDigits(events[0].summary) then Some(0)
    else match FirstNumbered(events[1..])
      case None => None
      case Some(j) => Some(j + 1)
  }

  /**
   * What update_calendar leaves behind: its error text ("" on success), the
   * listed events after the in-place edit, and the event body sent in the
   * update request (None when no request is made).
   */
  datatype CalendarResult = CalendarResult(error: string, events: seq<Event>, sent: Option<Event>)

  function CalendarUpdate(service: CalendarService, events: seq<Event>, content: string): (r: CalendarResult)
    ensures |r.events| == |events|
    ensures r.sent.Some? <==>
      service.credentialsFailure.None? && service.serviceFailure.None? && service.listFailure.None?
      && FirstNumbered(events).Some?
    ensures r.error == "" <==> r.sent.Some? && service.updateFailure.None?
    ensures r.sent.Some? ==>
      var i := FirstNumbered(events).value;
      && r.events == events[i := r.sent.value]
      && r.sent.value == events[i].(description := MergeDescription(events[i].description, content))
    ensures r.sent.None? ==> r.events == events
  {
    if service.credentialsFailure.Some? then
      CalendarResult("Failed to decode credentials: " + service.credentialsFailure.value, events, None)
    else if service.serviceFailure.Some? then
      CalendarResult("Failed to create calendar service: " + service.serviceFailure.value, events, None)
    else if service.listFailure.Some? then
      CalendarResult("Failed to list events: " + service.listFailure.value, events, None)
    else match FirstNumbered(events)
      case None => CalendarResult(NoMatchingEvent, events, None)
      case Some(i) =>
        var event := events[i].(description := MergeDescription(events[i].description, content));
        var error := if service.updateFailure.Some? then "Failed to update event: " + service.updateFailure.value else "";
        CalendarResult(error, events[i := event], Some(event))
  }

  /**
   * update_calendar on the listed events `items`, which it edits in place:
   * returns the error text and the body of the update request, if one is sent.
   */
  method UpdateCalendar(service: CalendarService, items: array<Event>, content: string)
    returns (error: string, sent: Option<Event>)
    modifies items
    ensures CalendarResult(error, items[..], sent) == CalendarUpdate(service, old(items[..]), content)
  {
    if service.credentialsFailure.Some? {
      return "Failed to decode credentials: " + service.credentialsFailure.value, None;
    }
    if service.serviceFailure.Some? {
      return "Failed to create calendar service: " + service.serviceFailure.value, None;
    }
    if service.listFailure.Some? {
      return "Failed to list events: " + service.listFailure.value, None;
    }
    var i := 0;
    while i < items.Length
      invariant 0 <= i <= items.Length
      invariant items[..] == old(items[..])
      invariant forall j :: 0 <= j < i ==> !IsAllDigits(items[j].summary)
    {
      var title := items[i].summary;
      if !IsAllDigits(title) {
        i := i + 1;
        continue;
      }
      assert FirstNumbered(items[..]) == Some(i);
      var currentDesc := items[i].description;
      var separator := if currentDesc != "" then Separator else "";
      items[i] := items[i].(description := currentDesc + separator + content);
      sent := Some(items[i]);
      if service.updateFailure.Some? {
        return "Failed to update event: " + service.updateFailure.value, sent;
      }
      return "", sent;
    }
    assert FirstNumbered(items[..]).None?;
    return NoMatchingEvent, None;
  }

  /** The old description is kept as a prefix and the report is its suffix. */
  lemma {:induction false} MergeKeepsPrefix(current: string, content: string)
    ensures current <= MergeDescription(current, content)
    ensures |MergeDescription(current, content)| >= |current| + |content|
    ensures MergeDescription(current, content)[|MergeDescription(current, content)| - |content|..] == content
  {
  }

  /** Merging is not idempotent: it changes the description unless both are empty. */
  lemma {:induction false} MergeNotIdempotent(current: string, content: string)
    ensures MergeDescription(current, content) == current <==> current == "" && content == ""
  {
  }

  /** Merging the same report twice leaves two copies of it, separated. */
  lemma {:induction false} MergeTwice(current: string, content: string)
    ensures MergeDescription(MergeDescription(current, content), content)
      == MergeDescription(current, content) + (if current == "" && content == "" then "" else Separator) + content
  {
  }

  /** Running the update twice on a successful first run appends a second block. */
  lemma {:induction false} UpdateTwice(service: CalendarService, events: seq<Event>, content: string)
    requires CalendarUpdate(service, events, content).error == ""
    ensures var first := CalendarUpdate(service, events, content);
      var second := CalendarUpdate(service, first.events, content);
      var i := FirstNumbered(events).value;
      && second.error == ""
      && second.sent.value.description
         == MergeDescription(MergeDescription(events[i].description, content), content)
  {
    var first := CalendarUpdate(service, events, content);
    var i := FirstNumbered(events).value;
    var e := first.events;
    assert e[i].summary == events[i].summary;
    assert forall j :: 0 <= j < i ==> e[j] == events[j];
    assert FirstNumbered(e) == Some(i);
  }

  /** An event with an empty title never matches. */
  lemma {:induction false} EmptyTitleNeverMatches(events: seq<Event>, j: nat)
    requires j < |events| && events[j].summary == ""
    ensures FirstNumbered(events) != Some(j)
  {
  }

  /** With no all-digit title the result is the fixed message and nothing is sent. */
  lemma {:induction false} NoMatchMessage(service: CalendarService, events: seq<Event>, content: string)
    requires service.credentialsFailure.None? && service.serviceFailure.None? && service.listFailure.None?
    requires forall j :: 0 <= j < |events| ==> !IsAllDigits(events[j].summary)
    ensures CalendarUpdate(service, events, content) == CalendarResult(NoMatchingEvent, events, None)
  {
    assert FirstNumbered(events).None?;
  }
}
