/**
 * The exit-code flow of main in src/main.py: check the configuration,
 * collect the previous day's activity, and append its report to the
 * calendar when there is any. The clock, the time zone and the printing are
 * outside the model: the window start and the date label are inputs.
 */
module App {
  import opened Wrappers
  import opened Aggregation
  import opened Formatter
  import opened Calendar

  /** The environment settings main reads; an unset variable is None. */
  datatype Config = Config(
    githubToken: Option<string>,
    googleCredentials: Option<string>,
    calendarId: Option<string>)

  /** Python truthiness of an environment value: set and non-empty. */
  predicate IsSet(v: Option<string>) {
    v.Some? && v.value != ""
  }

  predicate Configured(config: Config) {
    IsSet(config.githubToken) && IsSet(config.googleCredentials) && IsSet(config.calendarId)
  }

  /** The report handed to update_calendar and what that call produced. */
  datatype CalendarCall = CalendarCall(content: string, result: CalendarResult)

  datatype RunResult = RunResult(exitCode: int, call: Option<CalendarCall>)

  /** What main does for a configuration, an account, the window start and the day's events. */
  function RunOutcome(config: Config, account: Account, start: int, dateLabel: string,
                      service: CalendarService, events: seq<Event>): (r: RunResult)
    ensures r.exitCode == 0 || r.exitCode == 1
    ensures r.call.Some? <==>
      Configured(config) && GithubActivities(account, start).error == ""
      && GithubActivities(account, start).activities != map[]
    ensures r.exitCode == 0 <==>
      Configured(config) && GithubActivities(account, start).error == ""
      && (r.call.None? || r.call.value.result.error == "")
    ensures r.call.Some? ==>
      r.call.value.content == Report(GithubActivities(account, start).activities, dateLabel)
      && r.call.value.content != ""
      && r.call.value.result == CalendarUpdate(service, events, r.call.value.content)
  {
    if !Configured(config) then RunResult(1, None)
    else
      var gathered := GithubActivities(account, start);
      if gathered.error != "" then RunResult(1, None)
      else if gathered.activities == map[] then RunResult(0, None)
      else
        var content := Report(gathered.activities, dateLabel);
        ReportEmpty(gathered.activities, dateLabel);
        var result := CalendarUpdate(service, events, content);
        RunResult(if result.error != "" then 1 else 0, Some(CalendarCall(content, result)))
  }

  /**
   * main with its inputs made explicit: `items` are the events the calendar
   * lists for the day. Returns the exit code and the calendar call made, if any.
   */
  method Run(config: Config, account: Account, start: int, dateLabel: string,
             service: CalendarService, items: array<Event>)
    returns (exitCode: int, call: Option<CalendarCall>)
    modifies items
    ensures RunResult(exitCode, call) == RunOutcome(config, account, start, dateLabel, service, old(items[..]))
    ensures call.None? ==> items[..] == old(items[..])
    ensures call.Some? ==> items[..] == call.value.result.events
  {
    if !IsSet(config.githubToken) || !IsSet(config.googleCredentials) || !IsSet(config.calendarId) {
      return 1, None;
    }
    var activities, err := GetGithubActivities(account, start);
    if err != "" {
      return 1, None;
    }
    if |activities| == 0 {
      return 0, None;
    }
    var content := FormatActivities(activities, dateLabel);
    var updateErr, sent := UpdateCalendar(service, items, content);
    call := Some(CalendarCall(content, CalendarResult(updateErr, items[..], sent)));
    if updateErr != "" {
      return 1, call;
    }
    return 0, call;
  }

  /** No activity is a success that leaves the calendar alone. */
  lemma {:induction false} NoActivityNoCalendar(config: Config, account: Account, start: int, dateLabel: string,
                             service: CalendarService, events: seq<Event>)
    requires Configured(config)
    requires account.authFailure.None? && account.repositories.failure.None?
    requires forall i :: 0 <= i < |account.repositories.items| ==>
      RepositoryLines(account.repositories.items[i], start) == []
    ensures RunOutcome(config, account, start, dateLabel, service, events) == RunResult(0, None)
  {
    var m := ActivityMap(account.repositories.items, start);
    if m != map[] {
      var name :| name in m;
      ActivityMapEntry(account.repositories.items, start, name);
    }
  }
}
