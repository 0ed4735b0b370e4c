/**
 * get_github_activities of src/main.py: authenticate, list the user's
 * repositories, run the three collectors on each and keep the repositories
 * that produced at least one line.
 */
module Aggregation {
  import opened Wrappers
  import opened Collectors

  /** A repository with the three listings its collectors read. */
  datatype Repository = Repository(
    fullName: string,
    commits: Listing<Commit>,
    pulls: Listing<PullRequest>,
    issues: Listing<Issue>)

  /**
   * The platform account: the authentication step may fail with a message,
   * then the repository listing is read in full (a failure anywhere in it
   * fails the whole listing).
   */
  datatype Account = Account(authFailure: Option<string>, repositories: Listing<Repository>)

  /** What get_github_activities returns: the activity map and an error text ("" on success). */
  datatype Gathered = Gathered(activities: map<string, seq<string>>, error: string)

  /** One repository's lines: commits, then pull requests, then issues, for the day from `start`. */
  function RepositoryLines(r: Repository, start: int): seq<string> {
    var end := start + Day;
    CollectCommits(r.commits).lines
    + CollectPullRequests(r.pulls, start, end).lines
    + CollectIssues(r.issues, start, end).lines
  }

  /** Each repository's name paired with its lines, in listing order. */
  function Entries(repos: seq<Repository>, start: int): (es: seq<(string, seq<string>)>)
    ensures |es| == |repos|
    ensures forall i :: 0 <= i < |repos| ==> es[i] == (repos[i].fullName, RepositoryLines(repos[i], start))
  {
    if repos == [] then []
    else Entries(repos[..|repos| - 1], start) + [(repos[|repos| - 1].fullName, RepositoryLines(repos[|repos| - 1], start))]
  }

  lemma {:induction false} EntriesSnoc(repos: seq<Repository>, i: nat, start: int)
    requires i < |repos|
    ensures Entries(repos[..i + 1], start) == Entries(repos[..i], start) + [(repos[i].fullName, RepositoryLines(repos[i], start))]
  {
    assert repos[..i + 1][..i] == repos[..i];
  }

  /** The dictionary filled entry by entry, skipping entries without lines (a later entry overwrites an earlier one). */
  function Fill(es: seq<(string, seq<string>)>): (m: map<string, seq<string>>)
    ensures forall name :: name in m ==> m[name] != []
  {
    if es == [] then map[]
    else
      var m := Fill(es[..|es| - 1]);
      var (name, lines) := es[|es| - 1];
      if lines != [] then m[name := lines] else m
  }

  /** The activity map after processing `repos` in order. */
  function ActivityMap(repos: seq<Repository>, start: int): map<string, seq<string>> {
    Fill(Entries(repos, start))
  }

  /** Index of the last entry called `name` that has lines, or -1 when there is none. */
  function LastFilled(es: seq<(string, seq<string>)>, name: string): (r: int)
    ensures -1 <= r < |es|
    ensures r >= 0 ==> es[r].0 == name && es[r].1 != []
    ensures forall j :: r < j < |es| ==> es[j].0 != name || es[j].1 == []
  {
    if es == [] then -1
    else if es[|es| - 1].0 == name && es[|es| - 1].1 != [] then |es| - 1
    else
      var init := es[..|es| - 1];
      assert forall j :: 0 <= j < |init| ==> init[j] == es[j];
      LastFilled(init, name)
  }

  /**
   * A name is a key exactly when some entry of that name has lines, and its
   * value is the lines of the last such entry.
   */
  lemma {:induction false} FillEntry(es: seq<(string, seq<string>)>, name: string)
    ensures name in Fill(es) <==> LastFilled(es, name) >= 0
    ensures name in Fill(es) ==> Fill(es)[name] == es[LastFilled(es, name)].1
  {
    if es != [] {
      var n := |es| - 1;
      var init := es[..n];
      if !(es[n].0 == name && es[n].1 != []) {
        FillEntry(init, name);
        var r := LastFilled(init, name);
        assert LastFilled(es, name) == r;
        if r >= 0 {
          assert init[r] == es[r];
        }
      }
    }
  }

  /** The repository is called `name` and produced at least one line. */
  predicate Contributes(r: Repository, name: string, start: int) {
    r.fullName == name && RepositoryLines(r, start) != []
  }

  /**
   * A name is a key exactly when some repository of that name produced lines,
   * and its value is the lines of the last such repository.
   */
  lemma {:induction false} ActivityMapEntry(repos: seq<Repository>, start: int, name: string)
    ensures name in ActivityMap(repos, start) <==>
      exists i :: 0 <= i < |repos| && Contributes(repos[i], name, start)
    ensures name in ActivityMap(repos, start) ==>
      exists i :: 0 <= i < |repos| && Contributes(repos[i], name, start)
        && ActivityMap(repos, start)[name] == RepositoryLines(repos[i], start)
        && forall j :: i < j < |repos| ==> !Contributes(repos[j], name, start)
  {
    var es := Entries(repos, start);
    FillEntry(es, name);
    var r := LastFilled(es, name);
    if r >= 0 {
      assert Contributes(repos[r], name, start);
      forall j | r < j < |repos| ensures !Contributes(repos[j], name, start) {
        assert es[j].0 != name || es[j].1 == [];
      }
    }
    if exists i :: 0 <= i < |repos| && Contributes(repos[i], name, start) {
      var i :| 0 <= i < |repos| && Contributes(repos[i], name, start);
      assert es[i].0 == name && es[i].1 != [];
    }
  }

  /** With distinct repository names (as the platform guarantees): each repository's own entry. */
  lemma {:induction false} ActivityMapDistinctNames(repos: seq<Repository>, start: int, i: int)
    requires forall j, k :: 0 <= j < k < |repos| ==> repos[j].fullName != repos[k].fullName
    requires 0 <= i < |repos|
    ensures repos[i].fullName in ActivityMap(repos, start) <==> RepositoryLines(repos[i], start) != []
    ensures repos[i].fullName in ActivityMap(repos, start) ==>
      ActivityMap(repos, start)[repos[i].fullName] == RepositoryLines(repos[i], start)
  {
    var name := repos[i].fullName;
    ActivityMapEntry(repos, start, name);
    if name in ActivityMap(repos, start) {
      var j :| 0 <= j < |repos| && Contributes(repos[j], name, start)
        && ActivityMap(repos, start)[name] == RepositoryLines(repos[j], start);
      assert j == i;
    }
  }

  /** The result of get_github_activities. */
  function GithubActivities(account: Account, start: int): (g: Gathered)
    ensures g.error != "" <==> account.authFailure.Some? || account.repositories.failure.Some?
    ensures g.error != "" ==> g.activities == map[]
    ensures g.error == "" ==> g.activities == ActivityMap(account.repositories.items, start)
  {
    if account.authFailure.Some? then
      Gathered(map[], "GitHub auth failed: " + account.authFailure.value)
    else if account.repositories.failure.Some? then
      Gathered(map[], "Failed to get repos: " + account.repositories.failure.value)
    else
      Gathered(ActivityMap(account.repositories.items, start), "")
  }

  /** The body of the repository loop: run the three collectors and concatenate their lines. */
  method CollectRepository(repo: Repository, start: int, end: int) returns (repoActivities: seq<string>)
    requires end == start + Day
    ensures repoActivities == RepositoryLines(repo, start)
  {
    repoActivities := [];
    // A collector's error is only reported as a warning; its lines are then empty.
    var commits, err := GetCommits(repo.commits);
    repoActivities := repoActivities + commits;
    assert repoActivities == CollectCommits(repo.commits).lines;
    var prs, err' := GetPullRequests(repo.pulls, start, end);
    repoActivities := repoActivities + prs;
    assert prs == CollectPullRequests(repo.pulls, start, end).lines;
    var issues, err'' := GetIssues(repo.issues, start, end);
    repoActivities := repoActivities + issues;
    assert issues == CollectIssues(repo.issues, start, end).lines;
  }

  method GetGithubActivities(account: Account, start: int) returns (activities: map<string, seq<string>>, error: string)
    ensures Gathered(activities, error) == GithubActivities(account, start)
  {
    if account.authFailure.Some? {
      return map[], "GitHub auth failed: " + account.authFailure.value;
    }
    var end := start + Day;
    if account.repositories.failure.Some? {
      return map[], "Failed to get repos: " + account.repositories.failure.value;
    }
    var repos := account.repositories.items;
    activities := map[];
    var i := 0;
    while i < |repos|
      invariant 0 <= i <= |repos|
      invariant activities == Fill(Entries(repos[..i], start))
    {
      var repo := repos[i];
      var repoActivities := CollectRepository(repo, start, end);
      if repoActivities != [] {
        activities := activities[repo.fullName := repoActivities];
      }
      EntriesSnoc(repos, i, start);
      i := i + 1;
    }
    assert repos[..i] == repos;
    return activities, "";
  }
}
