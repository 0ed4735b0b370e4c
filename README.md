# github-to-calendar: a verified model of the daily activity report

The script `src/main.py` runs once a day. It lists the repositories a user
owns or collaborates on. For each repository it collects the previous day's
commits, pull requests and issues as report lines. It renders them into a
plain-text report sorted by repository name. It then appends that report to
the description of the day's calendar event whose title is all digits.

The rules the script applies, and this model follows:

- Each repository is collected with plain listings. A collector error only
  prints a warning and leaves that collector's lines empty.
- Each commit gives its own line, `- <first line, cut to 50 characters> (commit)`.
- Pull request and issue listings are read newest-updated first. The scan
  stops at the first item last updated before the window. The issue scan
  skips entries that are pull requests before that test.
- The target event is the first one whose title is all digits. When there
  is none, the result is the error `No matching event found` and no event is
  created.

This project models that decision logic in Dafny. Every call into the
hosting platform or the calendar service becomes an input value:

- a platform listing is a `Listing` (the items it yields, then an optional
  error raised when the next item is requested);
- authentication, the repository listing and each calendar step become
  optional failure messages;
- timestamps are integers (seconds) and the window start is given;
- the calendar's events for the day are an array that the update edits in
  place, as the script edits the listed event dictionaries.

Modules, leaf first:

- `Wrappers` (`wrappers.dfy`): `Option`.
- `Text` (`text.dfy`): the string operations the script relies on. These are
  the first line of a message, slicing, `str.isdigit`, `str(n)`,
  `"\n".join` and `split`, and Python's ordering of strings with `sorted`.
  `sorted` is proved to give the one ascending enumeration of a key set.
- `Collectors` (`collectors.dfy`): `get_commits`, `get_pull_requests`,
  `get_issues`. Each is a method with a loop, proved equal to a
  specification function. Lemmas state window membership, where the early
  stop happens and why it loses nothing, and the skipping of pull requests
  in the issue listing.
- `Aggregation` (`aggregation.dfy`): `get_github_activities`. It fills the
  activity dictionary repository by repository, and handles the
  authentication and repository-listing failures.
- `Formatter` (`formatter.dfy`): `format_activities`, the report text.
- `Calendar` (`calendar.dfy`): the event search and description merge of
  `update_calendar`.
- `App` (`app.dfy`): the exit-code flow of `main`, as `Run`.
- `Scenario` (`scenario.dfy`): one worked day, from listings to report text.

## Model

| member | source | states |
|---|---|---|
| `Text.FirstLine` | src/main.py:73 | the result is a prefix of the message with no newline, ending at the first newline or at the end |
| `Text.Truncate` | src/main.py:73 | `s[:n]` is the prefix of length min(n, len(s)) |
| `Text.DecimalString` | src/main.py:90 | the rendered pull request or issue number is a non-empty string of digits with no leading zero |
| `Text.DecimalRoundTrip` | src/main.py:90 | reading the rendered number back gives the number |
| `Text.SplitJoin` | src/main.py:130 | splitting the `"\n".join` (`JoinLines`) of newline-free lines at newlines gives the lines back |
| `Text.BelowIrreflexive` | src/main.py:125 | no string sorts before itself |
| `Text.BelowTransitive` | src/main.py:125 | string order is transitive |
| `Text.BelowTotal` | src/main.py:125 | any two different strings are ordered one way or the other |
| `Text.SortedKeys` | src/main.py:125 | `sorted` over the keys is strictly ascending and lists exactly the keys |
| `Text.AscendingUnique` | src/main.py:125 | two strictly ascending enumerations of the same set are equal |
| `Text.SortedKeysCanonical` | src/main.py:125 | any ascending enumeration of the keys is the one `sorted` gives |
| `Collectors.ConcatAppend` | src/main.py:84-93 | the lines of a concatenated listing are the two parts' lines, in order |
| `Collectors.ConcatMember` | src/main.py:84-93 | a line is produced iff some item produces it |
| `Collectors.FirstWhere` | src/main.py:87-88 | the stop index is the first stale item, or the length when none is stale |
| `Collectors.ScanComplete` | src/main.py:87-88 | if no item from the stop index on produces lines, stopping there loses nothing |
| `Collectors.ScanIgnoresTail` | src/main.py:87-88 | listings that agree up to and including the stopping item give the same stop and the same lines |
| `Collectors.CommitSummary` | src/main.py:73 | the message part is a prefix of the message, at most 50 characters, newline-free, cut only at a newline or at 50 |
| `Collectors.CommitLines` | src/main.py:71-74 | one line per commit, in order, each `CommitLine`: `- <summary> (commit)` |
| `Collectors.CollectCommits` | src/main.py:69-77 | a failing listing gives no lines and its error; otherwise one line per commit and no error |
| `Collectors.GetCommits` | src/main.py:67-77 | the loop returns exactly the specified lines and error |
| `Collectors.PullRequestEventsShape` | src/main.py:89-92 | `PullRequestEvents`, one pull request's lines, has a `(created)` line iff created in [start, end) and a `(merged)` line iff merged in it; at most two, created first |
| `Collectors.CollectPullRequests` | src/main.py:82-95 | the result of the `PullRequestScan` loop (lines 84-93) and its `except`: an error only when the scan reached the failing end of the listing without stopping, and then no lines and the listing's error; a stop before the end hides any failure and keeps the scanned lines |
| `Collectors.GetPullRequests` | src/main.py:80-95 | the loop with its early `break` returns exactly the specified lines and error |
| `Collectors.PullRequestLineOrigin` | src/main.py:85-92 | a line is in `PullRequestScan` iff a pull request before the first stale one produces it |
| `Collectors.PullRequestTailQuiet` | src/main.py:87-92 | on a newest-first listing of pull requests created and merged no later than their last update, no pull request from a stale one onwards produces a line |
| `Collectors.PullRequestScanComplete` | src/main.py:83-88 | on a newest-first listing where creation and merge precede the last update, the early stop reports every line of the whole listing |
| `Collectors.IssueEventsShape` | src/main.py:104-112 | `IssueEvents`, one entry's lines, is empty for a pull request; otherwise it has `(created)` iff created in the window and `(closed)` iff closed in it, created first |
| `Collectors.CollectIssues` | src/main.py:100-115 | the result of the `IssueScan` loop (lines 102-113) and its `except`: an error only when the scan reached the failing end of the listing without stopping, and then no lines and the listing's error; a stop before the end hides any failure and keeps the scanned lines |
| `Collectors.GetIssues` | src/main.py:98-115 | the loop with `continue` and `break` returns exactly the specified lines and error |
| `Collectors.IssueScanSkipsPullRequests` | src/main.py:104-108 | inserting a pull-request entry anywhere in the issue listing changes nothing: it neither reports nor stops the scan |
| `Collectors.IssueLineOrigin` | src/main.py:103-112 | a line is in `IssueScan` iff a non-pull-request issue before the first stale issue produces it |
| `Collectors.IssueTailQuiet` | src/main.py:104-112 | on a newest-first listing of issues created and closed no later than their last update, no entry from a stale issue onwards produces a line |
| `Collectors.IssueScanComplete` | src/main.py:101-108 | on a newest-first listing where creation and closing precede the last update, the early stop reports every line |
| `Aggregation.Fill` | src/main.py:61-62 | every stored repository has a non-empty line list |
| `Aggregation.LastFilled` | src/main.py:61-62 | the index found is an entry of that name with lines, and no later entry of that name has lines; -1 when there is none |
| `Aggregation.FillEntry` | src/main.py:40-62 | a key is stored iff some entry of that name has lines, and its value is the lines of the last such entry |
| `Aggregation.ActivityMapEntry` | src/main.py:40-62 | a repository name is a key of `ActivityMap` iff a repository of that name produced lines; its value is the `RepositoryLines` (commit, then PR, then issue lines) of the last such repository |
| `Aggregation.ActivityMapDistinctNames` | src/main.py:61-62 | with distinct names, each repository is a key iff its lines are non-empty, and maps to exactly its lines |
| `Aggregation.GithubActivities` | src/main.py:24-64 | the error is non-empty iff authentication or the repository listing fails, and then the map is empty; collector errors never surface |
| `Aggregation.CollectRepository` | src/main.py:41-59 | one repository's lines are `RepositoryLines`: commit lines, then PR lines, then issue lines |
| `Aggregation.GetGithubActivities` | src/main.py:19-64 | the loop fills exactly the specified map and error |
| `Formatter.FormatActivities` | src/main.py:118-130 | the loop builds exactly `Report`, the `"\n".join` (`JoinLines`) of `ReportLines` |
| `Formatter.SectionsLength` | src/main.py:125-128 | each section adds its items plus two lines |
| `Formatter.ReportLineCount` | src/main.py:123-130 | the report has 2 + sum over repositories of (items + 2) lines |
| `Formatter.ReportEmpty` | src/main.py:120-121 | `Report` is empty iff the activity map is empty |
| `Formatter.ReportStartsWithHeader` | src/main.py:120-123 | a non-empty report starts with `GitHub Activity (<date>)` and a blank line |
| `Formatter.ReportOrder` | src/main.py:125 | sections follow the ascending order of the names |
| `Formatter.ReportSectionAt` | src/main.py:125-128 | the i-th name in order owns `[name]`, its items verbatim, then `""`, right after the earlier sections |
| `Formatter.ReportSplits` | src/main.py:130 | with newline-free names, items and date, splitting `Report` at newlines gives `ReportLines` |
| `Calendar.FirstNumbered` | src/main.py:168-171 | the chosen event is the first whose title satisfies `IsAllDigits` (`str.isdigit`); none when no title does |
| `Calendar.CalendarUpdate` | src/main.py:139-190 | an update is sent iff setup and listing succeed and a digit-titled event exists; it changes only that event, whose description becomes `MergeDescription` of the old one and the report; success iff the update is sent and accepted |
| `Calendar.UpdateCalendar` | src/main.py:133-190 | the search loop with in-place edit and early return gives exactly the specified result |
| `Calendar.MergeKeepsPrefix` | src/main.py:174-176 | in `MergeDescription`, the old description is a prefix and the report a suffix of the new one |
| `Calendar.MergeNotIdempotent` | src/main.py:174-176 | merging leaves the description unchanged only when both it and the report are empty |
| `Calendar.MergeTwice` | src/main.py:174-176 | merging the same report twice leaves two copies joined by the separator |
| `Calendar.UpdateTwice` | src/main.py:168-188 | a second successful run edits the same event again and appends a second block |
| `Calendar.NoMatchMessage` | src/main.py:190 | with no digit-titled event the result is `No matching event found`, nothing is edited and nothing is sent |
| `App.RunOutcome` | src/main.py:193-242 | exit 1 on missing settings or a collection error; exit 0 with no calendar call when there is no activity; otherwise the non-empty report goes to the update, and the exit code is 1 iff the update fails |
| `App.Run` | src/main.py:193-242 | the flow of `main` gives exactly the specified exit code and calendar call, and leaves the events untouched when no call is made |
| `App.NoActivityNoCalendar` | src/main.py:223-230 | when every repository produces no lines, the run exits 0 without a calendar call |
| `Scenario.ScenarioActivities` | src/main.py:40-115 | a commit and a pull request opened that day give exactly their two lines; an older pull request ends the scan |
| `Scenario.ScenarioReport` | src/main.py:118-130 | the report of one repository with two lines is header, blank, `[name]`, the two lines, blank |

## Left out

- Calls into the platform client library and the calendar client library
  (`Github`, `get_user`, `get_repos`, `get_commits`, `get_pulls`,
  `get_issues`, `build`, `events().list/update().execute()`) are not
  modelled. They are foreign libraries; their results and failures are inputs.
- The author and date filtering of the commit listing happens in the
  platform's query, so the listing is taken as already filtered.
- Credential decoding (`base64` and `json`) and client construction are not
  modelled; only their failure messages are kept, as inputs.
- Reading environment variables becomes a `Config` value. `TIMEZONE`,
  `datetime.now`, `ZoneInfo`, midnight truncation and `strftime` are clock
  and time-zone concerns. The window start is an input, the end is start
  plus one day, and the date label is an opaque string.
- All printing (progress, warnings, the report echo, error messages) is
  output only and is not modelled.
- `str.isdigit` accepts every Unicode digit; the model accepts ASCII digits
  only.
- Exceptions the script does not catch are not modelled: every failure the
  model has is one that a `try` in the script turns into a message. Examples
  of what escapes: an error other than `GithubException` from a collector,
  from authentication or from the repository listing (the `except` clauses
  at lines 27, 37, 76, 94 and 114 catch only that class); a
  `GithubException` from the lazily loaded `user.login` at line 44, which is
  read outside any `try`; an error other than `HttpError` from `execute()`
  at lines 163 and 183 (caught only for `HttpError` at lines 164 and 184),
  such as a failed credential refresh; a missing `id` on an event; an
  invalid time zone.
- A missing event title or description is modelled as the empty string, as
  `dict.get(..., "")` reads it. Event fields other than id, title and
  description are carried through by the script unchanged and are not
  represented.
- Python dictionaries keep insertion order and Dafny maps do not. The report
  sorts by name, so nothing observable depends on that order.
