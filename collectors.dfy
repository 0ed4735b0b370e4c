/**
 * The three per-repository collectors of src/main.py: get_commits,
 * get_pull_requests and get_issues. Each turns a listing fetched from the
 * hosting platform into report lines for the half-open activity window
 * [start, end), or into an error message when the listing fails.
 */
module Collectors {
  import opened Wrappers
  import opened Text

  /** Length of the activity window, in seconds (timestamps are seconds). */
  const Day: int := 86400

  /** Number of characters of a commit message's first line kept in the report. */
  const MessageWidth: nat := 50

  /**
   * A paginated listing as the platform client yields it: `items` in order,
   * then, if `failure` is present, the client raises that error when the
   * next element is requested. A request that fails outright is
   * `Listing([], Some(e))`.
   */
  datatype Listing<T> = Listing(items: seq<T>, failure: Option<string>)

  /** What a collector returns: its lines and an error text ("" on success). */
  datatype Collected = Collected(lines: seq<string>, error: string)

  datatype Commit = Commit(message: string)

  datatype PullRequest = PullRequest(
    number: nat,
    title: string,
    createdAt: Option<int>,
    updatedAt: int,
    mergedAt: Option<int>)

  /** An entry of the issue listing; `isPullRequest` is set when the entry is really a pull request. */
  datatype Issue = Issue(
    number: nat,
    title: string,
    isPullRequest: bool,
    createdAt: Option<int>,
    updatedAt: int,
    closedAt: Option<int>)

  /** The timestamp is present and lies in the half-open window [start, end). */
  predicate InWindow(t: Option<int>, start: int, end: int) {
    t.Some? && start <= t.value < end
  }

  // ---------------------------------------------------------------------
  // Sequence scans shared by the collectors

  /** The lines produced for each element of `s`, concatenated in order. */
  function Concat<T>(s: seq<T>, f: T -> seq<string>): seq<string> {
    if s == [] then [] else Concat(s[..|s| - 1], f) + f(s[|s| - 1])
  }

  lemma {:induction false} ConcatAppend<T>(a: seq<T>, b: seq<T>, f: T -> seq<string>)
    ensures Concat(a + b, f) == Concat(a, f) + Concat(b, f)
    decreases |b|
  {
    if b != [] {
      var b' := b[..|b| - 1];
      assert (a + b)[..|a + b| - 1] == a + b';
      ConcatAppend(a, b', f);
    } else {
      assert a + b == a;
    }
  }

  /** Extending the processed prefix by one element appends that element's lines. */
  lemma {:induction false} ConcatSnoc<T>(s: seq<T>, i: nat, f: T -> seq<string>)
    requires i < |s|
    ensures Concat(s[..i + 1], f) == Concat(s[..i], f) + f(s[i])
  {
    assert s[..i + 1][..i] == s[..i];
  }

  /** An element that produces nothing can be dropped. */
  lemma {:induction false} ConcatSkipsEmpty<T>(a: seq<T>, x: T, m: seq<T>, f: T -> seq<string>)
    requires f(x) == []
    ensures Concat(a + [x] + m, f) == Concat(a + m, f)
  {
    ConcatAppend(a + [x], m, f);
    ConcatAppend(a, [x], f);
    ConcatAppend(a, m, f);
    assert Concat([x], f) == Concat([], f) + f(x);
  }

  /** A line is produced exactly when some element produces it. */
  lemma {:induction false} ConcatMember<T>(s: seq<T>, f: T -> seq<string>, line: string)
    ensures line in Concat(s, f) <==> exists i :: 0 <= i < |s| && line in f(s[i])
  {
    if s != [] {
      var s' := s[..|s| - 1];
      ConcatMember(s', f, line);
      if line in Concat(s, f) && line !in f(s[|s| - 1]) {
        var i :| 0 <= i < |s'| && line in f(s'[i]);
        assert s[i] == s'[i];
      }
      if exists i :: 0 <= i < |s| && line in f(s[i]) {
        var i :| 0 <= i < |s| && line in f(s[i]);
        if i < |s| - 1 {
          assert s'[i] == s[i];
        }
      }
    }
  }

  /** Index of the first element at which a scan stops, or |s| when none stops it. */
  function FirstWhere<T>(s: seq<T>, stops: T -> bool): (r: nat)
    ensures r <= |s|
    ensures forall j :: 0 <= j < r ==> !stops(s[j])
    ensures r < |s| ==> stops(s[r])
  {
    if s == [] then 0 else if stops(s[0]) then 0 else 1 + FirstWhere(s[1..], stops)
  }

  /** If nothing after the stopping point produces lines, stopping there loses nothing. */
  lemma {:induction false} ScanComplete<T>(s: seq<T>, stops: T -> bool, f: T -> seq<string>)
    requires forall j :: FirstWhere(s, stops) <= j < |s| ==> f(s[j]) == []
    ensures Concat(s[..FirstWhere(s, stops)], f) == Concat(s, f)
    decreases |s|
  {
    var k := FirstWhere(s, stops);
    if k < |s| {
      var s' := s[..|s| - 1];
      assert forall j :: 0 <= j < |s'| ==> s'[j] == s[j];
      assert forall j :: 0 <= j < k ==> !stops(s'[j]);
      if k < |s'| {
        assert stops(s'[k]);
      }
      FirstWhereAt(s', stops, k);
      ScanComplete(s', stops, f);
      assert s'[..k] == s[..k];
      assert f(s[|s| - 1]) == [];
      assert Concat(s, f) == Concat(s', f) + f(s[|s| - 1]);
    } else {
      assert s[..k] == s;
    }
  }

  /** FirstWhere is characterised by its contract: no earlier element stops, and the one there does. */
  lemma {:induction false} FirstWhereAt<T>(s: seq<T>, stops: T -> bool, k: nat)
    requires k <= |s|
    requires forall j :: 0 <= j < k ==> !stops(s[j])
    requires k < |s| ==> stops(s[k])
    ensures FirstWhere(s, stops) == k
  {
  }

  /**
   * The elements after the stopping element have no influence: two listings
   * that agree up to and including it are scanned to the same lines.
   */
  lemma {:induction false} ScanIgnoresTail<T>(s: seq<T>, t: seq<T>, stops: T -> bool, f: T -> seq<string>)
    requires FirstWhere(s, stops) < |s| && FirstWhere(s, stops) < |t|
    requires s[..FirstWhere(s, stops) + 1] == t[..FirstWhere(s, stops) + 1]
    ensures FirstWhere(t, stops) == FirstWhere(s, stops)
    ensures Concat(t[..FirstWhere(t, stops)], f) == Concat(s[..FirstWhere(s, stops)], f)
  {
    var k := FirstWhere(s, stops);
    StopAgrees(s, t, stops, k);
    var u := t[..k];
    assert Concat(u, f) == Concat(s[..k], f);
  }

  lemma {:induction false} StopAgrees<T>(s: seq<T>, t: seq<T>, stops: T -> bool, k: nat)
    requires k < |s| && k < |t| && s[..k + 1] == t[..k + 1]
    requires forall j :: 0 <= j < k ==> !stops(s[j])
    requires stops(s[k])
    ensures FirstWhere(t, stops) == k
    ensures t[..k] == s[..k]
  {
    PrefixesAgree(s, t, k + 1);
    forall j | 0 <= j < k ensures !stops(t[j]) {
      assert !stops(s[j]);
    }
    FirstWhereAt(t, stops, k);
  }

  lemma {:induction false} PrefixesAgree<T>(s: seq<T>, t: seq<T>, n: nat)
    requires n <= |s| && n <= |t| && s[..n] == t[..n]
    ensures forall j :: 0 <= j < n ==> s[j] == t[j]
    ensures n > 0 ==> s[..n - 1] == t[..n - 1]
  {
    assert forall j :: 0 <= j < n ==> s[j] == s[..n][j] && t[j] == t[..n][j];
    if n > 0 {
      assert s[..n - 1] == s[..n][..n - 1];
      assert t[..n - 1] == t[..n][..n - 1];
    }
  }

  /**
   * An element that neither stops the scan nor produces lines can be removed
   * from a listing without changing the scanned lines.
   */
  lemma {:induction false} ScanSkipsInert<T>(a: seq<T>, x: T, b: seq<T>, stops: T -> bool, f: T -> seq<string>)
    requires f(x) == [] && !stops(x)
    ensures Concat((a + [x] + b)[..FirstWhere(a + [x] + b, stops)], f)
         == Concat((a + b)[..FirstWhere(a + b, stops)], f)
  {
    if FirstWhere(a + b, stops) < |a| {
      ScanStopsBefore(a, x, b, stops);
    } else {
      ScanStopsAfter(a, x, b, stops, f);
    }
  }

  lemma {:induction false} ScanStopsBefore<T>(a: seq<T>, x: T, b: seq<T>, stops: T -> bool)
    requires FirstWhere(a + b, stops) < |a|
    ensures FirstWhere(a + [x] + b, stops) == FirstWhere(a + b, stops)
    ensures (a + [x] + b)[..FirstWhere(a + b, stops)] == (a + b)[..FirstWhere(a + b, stops)]
  {
    var s, t := a + [x] + b, a + b;
    var k := FirstWhere(t, stops);
    forall j | 0 <= j <= k ensures s[j] == t[j] {
      assert s[j] == a[j] == t[j];
    }
    FirstWhereAt(s, stops, k);
    assert s[..k] == a[..k] == t[..k];
  }

  lemma {:induction false} ScanStopsAfter<T>(a: seq<T>, x: T, b: seq<T>, stops: T -> bool, f: T -> seq<string>)
    requires f(x) == [] && !stops(x)
    requires FirstWhere(a + b, stops) >= |a|
    ensures Concat((a + [x] + b)[..FirstWhere(a + [x] + b, stops)], f)
         == Concat((a + b)[..FirstWhere(a + b, stops)], f)
  {
    var k := FirstWhere(a + b, stops);
    StopShifts(a, x, b, stops);
    var n := k - |a|;
    PrefixOfAppend(a + [x], b, n);
    PrefixOfAppend(a, b, n);
    ConcatSkipsEmpty(a, x, b[..n], f);
  }

  lemma {:induction false} PrefixOfAppend<T>(x: seq<T>, y: seq<T>, n: nat)
    requires n <= |y|
    ensures (x + y)[..|x| + n] == x + y[..n]
  {
  }

  lemma {:induction false} StopShifts<T>(a: seq<T>, x: T, b: seq<T>, stops: T -> bool)
    requires !stops(x)
    requires FirstWhere(a + b, stops) >= |a|
    ensures FirstWhere(a + [x] + b, stops) == FirstWhere(a + b, stops) + 1
  {
    var s, t := a + [x] + b, a + b;
    var k := FirstWhere(t, stops);
    forall j | 0 <= j < k + 1 ensures !stops(s[j]) {
      if j < |a| {
        assert s[j] == t[j];
      } else if j > |a| {
        assert s[j] == t[j - 1];
      }
    }
    assert k < |t| ==> s[k + 1] == t[k];
    FirstWhereAt(s, stops, k + 1);
  }

  // ---------------------------------------------------------------------
  // get_commits

  /** The first line of a commit message, cut to MessageWidth characters. */
  function CommitSummary(message: string): (r: string)
    ensures r <= message
    ensures |r| <= MessageWidth && '\n' !in r
    ensures |r| < MessageWidth ==> |r| == |message| || message[|r|] == '\n'
  {
    Truncate(FirstLine(message), MessageWidth)
  }

  function CommitLine(c: Commit): string {
    "- " + CommitSummary(c.message) + " (commit)"
  }

  /** One line per commit, in listing order. */
  function CommitLines(cs: seq<Commit>): (r: seq<string>)
    ensures |r| == |cs|
    ensures forall i :: 0 <= i < |cs| ==> r[i] == CommitLine(cs[i])
  {
    if cs == [] then [] else CommitLines(cs[..|cs| - 1]) + [CommitLine(cs[|cs| - 1])]
  }

  /** The result of get_commits: every commit's line, or nothing and the error. */
  function CollectCommits(l: Listing<Commit>): (c: Collected)
    ensures l.failure.None? ==> c.error == "" && |c.lines| == |l.items|
    ensures l.failure.Some? ==> c == Collected([], l.failure.value)
  {
    if l.failure.Some? then Collected([], l.failure.value) else Collected(CommitLines(l.items), "")
  }

  method GetCommits(listing: Listing<Commit>) returns (lines: seq<string>, err: string)
    ensures Collected(lines, err) == CollectCommits(listing)
  {
    var results: seq<string> := [];
    var i := 0;
    while i < |listing.items|
      invariant 0 <= i <= |listing.items|
      invariant results == CommitLines(listing.items[..i])
    {
      var msg := Truncate(FirstLine(listing.items[i].message), MessageWidth);
      results := results + ["- " + msg + " (commit)"];
      assert listing.items[..i + 1][..i] == listing.items[..i];
      i := i + 1;
    }
    if listing.failure.Some? {
      return [], listing.failure.value;
    }
    assert listing.items[..i] == listing.items;
    return results, "";
  }

  // ---------------------------------------------------------------------
  // get_pull_requests

  function PullRequestLine(p: PullRequest, event: string): string {
    "- PR #" + DecimalString(p.number) + ": " + p.title + " (" + event + ")"
  }

  /** The lines one pull request contributes. */
  function PullRequestEvents(p: PullRequest, start: int, end: int): seq<string> {
    (if InWindow(p.createdAt, start, end) then [PullRequestLine(p, "created")] else [])
    + (if InWindow(p.mergedAt, start, end) then [PullRequestLine(p, "merged")] else [])
  }

  /** A created line exactly when created in the window, a merged line exactly when merged in it, created first. */
  lemma {:induction false} PullRequestEventsShape(p: PullRequest, start: int, end: int)
    ensures var r := PullRequestEvents(p, start, end);
      && |r| <= 2
      && (PullRequestLine(p, "created") in r <==> InWindow(p.createdAt, start, end))
      && (PullRequestLine(p, "merged") in r <==> InWindow(p.mergedAt, start, end))
      && (forall i :: 0 <= i < |r| ==> r[i] == PullRequestLine(p, "created") || r[i] == PullRequestLine(p, "merged"))
      && (|r| == 2 ==> r == [PullRequestLine(p, "created"), PullRequestLine(p, "merged")])
  {
    assert |PullRequestLine(p, "created")| != |PullRequestLine(p, "merged")|;
  }

  function PullRequestEventsOf(start: int, end: int): PullRequest -> seq<string> {
    (p: PullRequest) => PullRequestEvents(p, start, end)
  }

  /** The listing is sorted by last update, newest first: the scan stops at the first stale one. */
  function PullRequestIsStale(start: int): PullRequest -> bool {
    (p: PullRequest) => p.updatedAt < start
  }

  /** Lines of the pull requests before the first one last updated before `start`. */
  function PullRequestScan(ps: seq<PullRequest>, start: int, end: int): seq<string> {
    Concat(ps[..FirstWhere(ps, PullRequestIsStale(start))], PullRequestEventsOf(start, end))
  }

  /**
   * The result of get_pull_requests. The listing's failure is only reached
   * when the scan runs past the last item it yielded without stopping.
   */
  function CollectPullRequests(l: Listing<PullRequest>, start: int, end: int): (c: Collected)
    ensures c.error != "" ==> c.lines == []
    ensures l.failure.None? ==> c.error == ""
    ensures c.error != "" ==> FirstWhere(l.items, PullRequestIsStale(start)) == |l.items| && l.failure.Some?
    ensures FirstWhere(l.items, PullRequestIsStale(start)) < |l.items| ==> c == Collected(PullRequestScan(l.items, start, end), "")
    ensures l.failure.Some? && FirstWhere(l.items, PullRequestIsStale(start)) == |l.items| ==> c == Collected([], l.failure.value)
  {
    if FirstWhere(l.items, PullRequestIsStale(start)) == |l.items| && l.failure.Some?
    then Collected([], l.failure.value)
    else Collected(PullRequestScan(l.items, start, end), "")
  }

  method GetPullRequests(listing: Listing<PullRequest>, start: int, end: int) returns (lines: seq<string>, err: string)
    ensures Collected(lines, err) == CollectPullRequests(listing, start, end)
  {
    var items := listing.items;
    var results: seq<string> := [];
    var i := 0;
    while i < |items|
      invariant 0 <= i <= |items|
      invariant forall j :: 0 <= j < i ==> items[j].updatedAt >= start
      invariant results == Concat(items[..i], PullRequestEventsOf(start, end))
    {
      var pr := items[i];
      if pr.updatedAt < start {
        FirstWhereAt(items, PullRequestIsStale(start), i);
        return results, "";
      }
      if InWindow(pr.createdAt, start, end) {
        results := results + [PullRequestLine(pr, "created")];
      }
      if InWindow(pr.mergedAt, start, end) {
        results := results + [PullRequestLine(pr, "merged")];
      }
      ConcatSnoc(items, i, PullRequestEventsOf(start, end));
      i := i + 1;
    }
    FirstWhereAt(items, PullRequestIsStale(start), |items|);
    if listing.failure.Some? {
      return [], listing.failure.value;
    }
    assert items[..i] == items;
    return results, "";
  }

  /** A line is reported exactly when a pull request before the stopping point produces it. */
  lemma {:induction false} PullRequestLineOrigin(ps: seq<PullRequest>, start: int, end: int, line: string)
    ensures var k := FirstWhere(ps, PullRequestIsStale(start));
      line in PullRequestScan(ps, start, end) <==>
        exists i :: 0 <= i < k && line in PullRequestEvents(ps[i], start, end)
  {
    var k := FirstWhere(ps, PullRequestIsStale(start));
    ConcatMember(ps[..k], PullRequestEventsOf(start, end), line);
    assert forall i :: 0 <= i < k ==> ps[..k][i] == ps[i];
  }

  /** The listing order get_pulls and get_issues request: most recently updated first. */
  predicate NewestFirst<T>(s: seq<T>, updated: T -> int) {
    forall i, j :: 0 <= i < j < |s| ==> updated(s[i]) >= updated(s[j])
  }

  /** Creating or merging a pull request updates it. */
  predicate PullRequestConsistent(p: PullRequest) {
    && (p.createdAt.Some? ==> p.createdAt.value <= p.updatedAt)
    && (p.mergedAt.Some? ==> p.mergedAt.value <= p.updatedAt)
  }

  /**
   * The early stop is sound: on a newest-first listing of consistent pull
   * requests, the scan reports every line of the whole listing.
   */
  lemma {:induction false} PullRequestScanComplete(ps: seq<PullRequest>, start: int, end: int)
    requires NewestFirst(ps, (p: PullRequest) => p.updatedAt)
    requires forall i :: 0 <= i < |ps| ==> PullRequestConsistent(ps[i])
    ensures PullRequestScan(ps, start, end) == Concat(ps, PullRequestEventsOf(start, end))
  {
    var k := FirstWhere(ps, PullRequestIsStale(start));
    var f := PullRequestEventsOf(start, end);
    if k < |ps| {
      PullRequestTailQuiet(ps, start, end, k);
    }
    assert forall j :: k <= j < |ps| ==> f(ps[j]) == PullRequestEvents(ps[j], start, end);
    ScanComplete(ps, PullRequestIsStale(start), f);
  }

  /** Every pull request from a stale one on produces nothing. */
  lemma {:induction false} PullRequestTailQuiet(ps: seq<PullRequest>, start: int, end: int, k: nat)
    requires NewestFirst(ps, (p: PullRequest) => p.updatedAt)
    requires forall i :: 0 <= i < |ps| ==> PullRequestConsistent(ps[i])
    requires k < |ps| && ps[k].updatedAt < start
    ensures forall j :: k <= j < |ps| ==> PullRequestEvents(ps[j], start, end) == []
  {
    forall j | k <= j < |ps| ensures PullRequestEvents(ps[j], start, end) == [] {
      assert ps[k].updatedAt >= ps[j].updatedAt;
      assert PullRequestConsistent(ps[j]);
    }
  }

  // ---------------------------------------------------------------------
  // get_issues

  function IssueLine(i: Issue, event: string): string {
    "- Issue #" + DecimalString(i.number) + ": " + i.title + " (" + event + ")"
  }

  /** The lines one issue listing entry contributes. */
  function IssueEvents(i: Issue, start: int, end: int): seq<string> {
    if i.isPullRequest then []
    else
      (if InWindow(i.createdAt, start, end) then [IssueLine(i, "created")] else [])
      + (if InWindow(i.closedAt, start, end) then [IssueLine(i, "closed")] else [])
  }

  /** Nothing for a pull request; else a created line exactly when created in the window, a closed line exactly when closed in it, created first. */
  lemma {:induction false} IssueEventsShape(i: Issue, start: int, end: int)
    ensures var r := IssueEvents(i, start, end);
      && (i.isPullRequest ==> r == [])
      && |r| <= 2
      && (IssueLine(i, "created") in r <==> !i.isPullRequest && InWindow(i.createdAt, start, end))
      && (IssueLine(i, "closed") in r <==> !i.isPullRequest && InWindow(i.closedAt, start, end))
      && (forall k :: 0 <= k < |r| ==> r[k] == IssueLine(i, "created") || r[k] == IssueLine(i, "closed"))
      && (|r| == 2 ==> r == [IssueLine(i, "created"), IssueLine(i, "closed")])
  {
    assert |IssueLine(i, "created")| != |IssueLine(i, "closed")|;
  }

  function IssueEventsOf(start: int, end: int): Issue -> seq<string> {
    (i: Issue) => IssueEvents(i, start, end)
  }

  /** Pull requests are skipped before the staleness test, so they never stop the scan. */
  function IssueIsStale(start: int): Issue -> bool {
    (i: Issue) => !i.isPullRequest && i.updatedAt < start
  }

  function IssueScan(entries: seq<Issue>, start: int, end: int): seq<string> {
    Concat(entries[..FirstWhere(entries, IssueIsStale(start))], IssueEventsOf(start, end))
  }

  /** The result of get_issues. */
  function CollectIssues(l: Listing<Issue>, start: int, end: int): (c: Collected)
    ensures c.error != "" ==> c.lines == []
    ensures l.failure.None? ==> c.error == ""
    ensures c.error != "" ==> FirstWhere(l.items, IssueIsStale(start)) == |l.items| && l.failure.Some?
    ensures FirstWhere(l.items, IssueIsStale(start)) < |l.items| ==> c == Collected(IssueScan(l.items, start, end), "")
    ensures l.failure.Some? && FirstWhere(l.items, IssueIsStale(start)) == |l.items| ==> c == Collected([], l.failure.value)
  {
    if FirstWhere(l.items, IssueIsStale(start)) == |l.items| && l.failure.Some?
    then Collected([], l.failure.value)
    else Collected(IssueScan(l.items, start, end), "")
  }

  method GetIssues(listing: Listing<Issue>, start: int, end: int) returns (lines: seq<string>, err: string)
    ensures Collected(lines, err) == CollectIssues(listing, start, end)
  {
    var items := listing.items;
    var results: seq<string> := [];
    var i := 0;
    while i < |items|
      invariant 0 <= i <= |items|
      invariant forall j :: 0 <= j < i ==> items[j].isPullRequest || items[j].updatedAt >= start
      invariant results == Concat(items[..i], IssueEventsOf(start, end))
    {
      var issue := items[i];
      ConcatSnoc(items, i, IssueEventsOf(start, end));
      ghost var before := results;
      if issue.isPullRequest {
        assert IssueEventsOf(start, end)(issue) == [];
        i := i + 1;
        continue;
      }
      if issue.updatedAt < start {
        FirstWhereAt(items, IssueIsStale(start), i);
        return results, "";
      }
      if InWindow(issue.createdAt, start, end) {
        results := results + [IssueLine(issue, "created")];
      }
      if InWindow(issue.closedAt, start, end) {
        results := results + [IssueLine(issue, "closed")];
      }
      assert results == before + IssueEventsOf(start, end)(issue);
      i := i + 1;
    }
    FirstWhereAt(items, IssueIsStale(start), |items|);
    if listing.failure.Some? {
      return [], listing.failure.value;
    }
    assert items[..i] == items;
    return results, "";
  }

  /** An entry that is really a pull request neither contributes lines nor ends the scan. */
  lemma {:induction false} IssueScanSkipsPullRequests(a: seq<Issue>, p: Issue, b: seq<Issue>, start: int, end: int)
    requires p.isPullRequest
    ensures IssueScan(a + [p] + b, start, end) == IssueScan(a + b, start, end)
  {
    assert IssueEventsOf(start, end)(p) == [];
    assert !IssueIsStale(start)(p);
    ScanSkipsInert(a, p, b, IssueIsStale(start), IssueEventsOf(start, end));
  }

  /** Creating or closing an issue updates it. */
  predicate IssueConsistent(i: Issue) {
    && (i.createdAt.Some? ==> i.createdAt.value <= i.updatedAt)
    && (i.closedAt.Some? ==> i.closedAt.value <= i.updatedAt)
  }

  lemma {:induction false} IssueBeforeWindow(i: Issue, start: int, end: int)
    requires IssueConsistent(i)
    requires !i.isPullRequest ==> i.updatedAt < start
    ensures IssueEvents(i, start, end) == []
  {
  }

  /**
   * The early stop is sound: on a newest-first listing of consistent issues,
   * the scan reports every line of the whole listing.
   */
  lemma {:induction false} IssueScanComplete(entries: seq<Issue>, start: int, end: int)
    requires NewestFirst(entries, (i: Issue) => i.updatedAt)
    requires forall i :: 0 <= i < |entries| ==> IssueConsistent(entries[i])
    ensures IssueScan(entries, start, end) == Concat(entries, IssueEventsOf(start, end))
  {
    var k := FirstWhere(entries, IssueIsStale(start));
    var f := IssueEventsOf(start, end);
    if k < |entries| {
      IssueTailQuiet(entries, start, end, k);
    }
    assert forall j :: k <= j < |entries| ==> f(entries[j]) == IssueEvents(entries[j], start, end);
    ScanComplete(entries, IssueIsStale(start), f);
  }

  /** Every issue from a stale one on produces nothing. */
  lemma {:induction false} IssueTailQuiet(entries: seq<Issue>, start: int, end: int, k: nat)
    requires NewestFirst(entries, (i: Issue) => i.updatedAt)
    requires forall i :: 0 <= i < |entries| ==> IssueConsistent(entries[i])
    requires k < |entries| && entries[k].updatedAt < start
    ensures forall j :: k <= j < |entries| ==> IssueEvents(entries[j], start, end) == []
  {
    forall j | k <= j < |entries| ensures IssueEvents(entries[j], start, end) == [] {
      assert entries[k].updatedAt >= entries[j].updatedAt;
      IssueBeforeWindow(entries[j], start, end);
    }
  }

  /** A line is reported exactly when an issue before the stopping point produces it. */
  lemma {:induction false} IssueLineOrigin(entries: seq<Issue>, start: int, end: int, line: string)
    ensures var k := FirstWhere(entries, IssueIsStale(start));
      line in IssueScan(entries, start, end) <==>
        exists i :: 0 <= i < k && !entries[i].isPullRequest && line in IssueEvents(entries[i], start, end)
  {
    var k := FirstWhere(entries, IssueIsStale(start));
    ConcatMember(entries[..k], IssueEventsOf(start, end), line);
    assert forall i :: 0 <= i < k ==> entries[..k][i] == entries[i];
  }
}
