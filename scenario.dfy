/**
 * A worked day: one commit and one pull request opened that day in one
 * repository, an older pull request, no issues. The pipeline from the
 * listings to the report text, on these inputs.
 */
module Scenario {
  import opened Wrappers
  import opened Text
  import opened Collectors
  import opened Aggregation
  import opened Formatter

  /** Midnight starting the reported day, in seconds. */
  const Midnight: int := 1710428400

  function Widgets(subject: string, body: string, title: string): Repository {
    Repository(
      "acme/widgets",
      Listing([Commit(subject + "\n" + body)], None),
      Listing([PullRequest(42, title, Some(Midnight + 3600), Midnight + 7200, None),
               PullRequest(7, "Old work", Some(Midnight - 5 * Day), Midnight - Day, Some(Midnight - Day))],
              None),
      Listing([], None))
  }

  /** The commit's subject line and the new pull request are reported; the older one stops the scan. */
  lemma {:induction false} ScenarioActivities(subject: string, body: string, title: string)
    requires '\n' !in subject && |subject| <= MessageWidth
    ensures GithubActivities(Account(None, Listing([Widgets(subject, body, title)], None)), Midnight)
      == Gathered(map["acme/widgets" := ["- " + subject + " (commit)", "- PR #42: " + title + " (created)"]], "")
  {
    var r := Widgets(subject, body, title);
    var lines := ["- " + subject + " (commit)", "- PR #42: " + title + " (created)"];
    ScenarioLines(subject, body, title);
    assert Entries([r], Midnight) == [("acme/widgets", lines)];
    assert [("acme/widgets", lines)][..0] == [];
    assert Fill([("acme/widgets", lines)]) == map["acme/widgets" := lines];
  }

  /** The repository's lines: the commit, then the new pull request; the older one stops the scan. */
  lemma {:induction false} ScenarioLines(subject: string, body: string, title: string)
    requires '\n' !in subject && |subject| <= MessageWidth
    ensures RepositoryLines(Widgets(subject, body, title), Midnight)
      == ["- " + subject + " (commit)", "- PR #42: " + title + " (created)"]
  {
    var r := Widgets(subject, body, title);
    var lines := ["- " + subject + " (commit)", "- PR #42: " + title + " (created)"];
    FirstLineBeforeNewline(subject, body);
    assert CollectCommits(r.commits).lines == [lines[0]];
    var ps := r.pulls.items;
    FirstWhereAt(ps, PullRequestIsStale(Midnight), 1);
    assert ps[..1] == [ps[0]];
    assert DecimalString(42) == "42";
    assert "- PR #" + "42" + ": " + title + " (" + "created" + ")" == lines[1];
    assert PullRequestEvents(ps[0], Midnight, Midnight + Day) == [lines[1]];
    assert Concat(ps[..1], PullRequestEventsOf(Midnight, Midnight + Day)) == [lines[1]];
    assert CollectIssues(r.issues, Midnight, Midnight + Day).lines == [];
  }

  /** The report of one repository with two lines. */
  lemma {:induction false} ScenarioReport(name: string, dateLabel: string, first: string, second: string)
    ensures Report(map[name := [first, second]], dateLabel)
      == Header(dateLabel) + "\n" + "\n" + "[" + name + "]" + "\n" + first + "\n" + second + "\n"
  {
    var bracketed := "[" + name + "]";
    SingleRepositoryLines(name, dateLabel, [first, second]);
    assert ReportLines(map[name := [first, second]], dateLabel) == [Header(dateLabel), "", bracketed, first, second, ""];
    JoinSix(Header(dateLabel), "", bracketed, first, second, "");
    assert bracketed + "\n" + first == "[" + name + "]" + "\n" + first;
  }

  lemma {:induction false} JoinSix(a: string, b: string, c: string, d: string, e: string, f: string)
    ensures JoinLines([a, b, c, d, e, f]) == a + "\n" + b + "\n" + c + "\n" + d + "\n" + e + "\n" + f
  {
    JoinCons(e, [f]);
    JoinCons(d, [e, f]);
    JoinCons(c, [d, e, f]);
    JoinCons(b, [c, d, e, f]);
    JoinCons(a, [b, c, d, e, f]);
  }

  /** A single repository's report lines: header, blank, its section. */
  lemma {:induction false} SingleRepositoryLines(name: string, dateLabel: string, items: seq<string>)
    ensures ReportLines(map[name := items], dateLabel) == [Header(dateLabel), ""] + Section(name, items)
  {
    var m := map[name := items];
    var names := SortedKeys(m.Keys);
    assert m.Keys == {name};
    assert |names| == 1 && names[0] in m.Keys;
    assert names == [name] && names[..0] == [];
    assert Sections(names, m) == Sections([], m) + Section(name, items);
  }

  lemma {:induction false} JoinCons(line: string, rest: seq<string>)
    requires rest != []
    ensures JoinLines([line] + rest) == line + "\n" + JoinLines(rest)
  {
    assert ([line] + rest)[1..] == rest;
  }
}
