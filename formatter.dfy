/**
 * format_activities of src/main.py: the plain-text report, one section per
 * repository in ascending name order.
 */
module Formatter {
  import opened Text

  function Header(dateLabel: string): string {
    "GitHub Activity (" + dateLabel + ")"
  }

  /** A repository's section: its bracketed name, its lines, a blank line. */
  function Section(name: string, items: seq<string>): seq<string> {
    ["[" + name + "]"] + items + [""]
  }

  /** The sections of the given repositories, in the given order. */
  function Sections(names: seq<string>, activities: map<string, seq<string>>): seq<string>
    requires forall k :: k in names ==> k in activities
  {
    if names == [] then []
    else
      var last := names[|names| - 1];
      Sections(names[..|names| - 1], activities) + Section(last, activities[last])
  }

  /** The lines of a non-empty report before they are joined. */
  function ReportLines(activities: map<string, seq<string>>, dateLabel: string): seq<string> {
    [Header(dateLabel), ""] + Sections(SortedKeys(activities.Keys), activities)
  }

  /** The report text: empty when there is nothing to report. */
  function Report(activities: map<string, seq<string>>, dateLabel: string): string {
    if |activities| == 0 then "" else JoinLines(ReportLines(activities, dateLabel))
  }

  method FormatActivities(activities: map<string, seq<string>>, dateLabel: string) returns (text: string)
    ensures text == Report(activities, dateLabel)
  {
    if |activities| == 0 {
      return "";
    }
    var lines := [Header(dateLabel), ""];
    var names := SortedKeys(activities.Keys);
    assert forall k :: k in names ==> k in activities;
    for i := 0 to |names|
      invariant lines == [Header(dateLabel), ""] + Sections(names[..i], activities)
    {
      var name := names[i];
      SectionsSnoc(names, i, activities);
      lines := lines + ["[" + name + "]"];
      lines := lines + activities[name];
      lines := lines + [""];
    }
    assert names[..|names|] == names;
    assert lines == ReportLines(activities, dateLabel);
    text := JoinLines(lines);
  }

  lemma {:induction false} SectionsSnoc(names: seq<string>, i: nat, activities: map<string, seq<string>>)
    requires i < |names|
    requires forall k :: k in names ==> k in activities
    ensures Sections(names[..i + 1], activities)
         == Sections(names[..i], activities) + ["[" + names[i] + "]"] + activities[names[i]] + [""]
  {
    assert names[..i + 1][..i] == names[..i];
  }

  lemma {:induction false} SectionsAppend(a: seq<string>, b: seq<string>, activities: map<string, seq<string>>)
    requires forall k :: k in a + b ==> k in activities
    ensures Sections(a + b, activities) == Sections(a, activities) + Sections(b, activities)
    decreases |b|
  {
    if b == [] {
      assert a + b == a;
    } else {
      var b' := b[..|b| - 1];
      assert (a + b)[..|a + b| - 1] == a + b';
      SectionsAppend(a, b', activities);
    }
  }

  /** Total number of activity lines of the given repositories. */
  function ItemCount(names: seq<string>, activities: map<string, seq<string>>): nat
    requires forall k :: k in names ==> k in activities
  {
    if names == [] then 0
    else ItemCount(names[..|names| - 1], activities) + |activities[names[|names| - 1]]|
  }

  lemma {:induction false} SectionsLength(names: seq<string>, activities: map<string, seq<string>>)
    requires forall k :: k in names ==> k in activities
    ensures |Sections(names, activities)| == 2 * |names| + ItemCount(names, activities)
  {
    if names != [] {
      SectionsLength(names[..|names| - 1], activities);
    }
  }

  /** A report has a header, a blank line, and two more lines per repository than it has items. */
  lemma {:induction false} ReportLineCount(activities: map<string, seq<string>>, dateLabel: string)
    ensures |ReportLines(activities, dateLabel)|
      == 2 + 2 * |activities| + ItemCount(SortedKeys(activities.Keys), activities)
  {
    SectionsLength(SortedKeys(activities.Keys), activities);
  }

  /** The report is empty exactly when there is no activity. */
  lemma {:induction false} ReportEmpty(activities: map<string, seq<string>>, dateLabel: string)
    ensures Report(activities, dateLabel) == "" <==> activities == map[]
  {
    if activities != map[] {
      var k :| k in activities;
      assert |activities| > 0;
      ReportStartsWithHeader(activities, dateLabel);
    }
  }

  /** A non-empty report starts with the header line and a blank line. */
  lemma {:induction false} ReportStartsWithHeader(activities: map<string, seq<string>>, dateLabel: string)
    requires activities != map[]
    ensures Header(dateLabel) + "\n\n" <= Report(activities, dateLabel)
  {
    var k :| k in activities;
    assert |activities| > 0;
    var names := SortedKeys(activities.Keys);
    assert k in names;
    var sections := Sections(names, activities);
    assert |sections| > 0;
    var lines := ReportLines(activities, dateLabel);
    assert lines[1..] == [""] + sections && lines[2..] == sections;
    assert JoinLines(lines) == Header(dateLabel) + "\n" + ("" + "\n" + JoinLines(sections));
  }

  /**
   * Sections come in ascending name order: any ascending enumeration of the
   * repository names gives exactly the report's line list.
   */
  lemma {:induction false} ReportOrder(activities: map<string, seq<string>>, dateLabel: string, names: seq<string>)
    requires StrictlyAscending(names)
    requires forall k :: k in names <==> k in activities
    ensures ReportLines(activities, dateLabel) == [Header(dateLabel), ""] + Sections(names, activities)
  {
    SortedKeysCanonical(activities.Keys, names);
  }

  lemma {:induction false} SectionsAt(names: seq<string>, activities: map<string, seq<string>>, i: nat)
    requires forall k :: k in names ==> k in activities
    requires i < |names|
    ensures |Sections(names[..i], activities)| + |Section(names[i], activities[names[i]])|
      <= |Sections(names, activities)|
    ensures Sections(names, activities)[|Sections(names[..i], activities)|..]
      [..|Section(names[i], activities[names[i]])|] == Section(names[i], activities[names[i]])
  {
    var before, rest := names[..i], names[i + 1..];
    assert names == before + [names[i]] + rest;
    SectionsAppend(before + [names[i]], rest, activities);
    assert (before + [names[i]])[..i] == before;
    var head := Sections(before, activities);
    var section := Section(names[i], activities[names[i]]);
    assert Sections(before + [names[i]], activities) == head + section;
    var all := head + section + Sections(rest, activities);
    assert all[|head|..][..|section|] == section;
  }

  /**
   * The i-th repository in name order owns the lines at the offset after the
   * header and the earlier sections: its bracketed name, its items verbatim,
   * then a blank line.
   */
  lemma {:induction false} ReportSectionAt(activities: map<string, seq<string>>, dateLabel: string, names: seq<string>, i: nat)
    requires names == SortedKeys(activities.Keys)
    requires i < |names|
    ensures 2 + |Sections(names[..i], activities)| + |Section(names[i], activities[names[i]])|
      <= |ReportLines(activities, dateLabel)|
    ensures ReportLines(activities, dateLabel)[2 + |Sections(names[..i], activities)|..]
      [..|Section(names[i], activities[names[i]])|] == Section(names[i], activities[names[i]])
  {
    SectionsAt(names, activities, i);
    var sections := Sections(names, activities);
    var lines := ReportLines(activities, dateLabel);
    assert lines[2..] == sections;
  }

  /** No line of the report contains a newline, given newline-free names, items and date. */
  predicate NewlineFree(activities: map<string, seq<string>>, dateLabel: string) {
    && '\n' !in dateLabel
    && (forall k :: k in activities ==> '\n' !in k)
    && (forall k, j :: k in activities && 0 <= j < |activities[k]| ==> '\n' !in activities[k][j])
  }

  lemma {:induction false} SectionsNewlineFree(names: seq<string>, activities: map<string, seq<string>>, dateLabel: string)
    requires forall k :: k in names ==> k in activities
    requires NewlineFree(activities, dateLabel)
    ensures forall j :: 0 <= j < |Sections(names, activities)| ==> '\n' !in Sections(names, activities)[j]
  {
    if names != [] {
      SectionsNewlineFree(names[..|names| - 1], activities, dateLabel);
    }
  }

  /** Splitting a non-empty report at its newlines gives back its line list. */
  lemma {:induction false} ReportSplits(activities: map<string, seq<string>>, dateLabel: string)
    requires activities != map[]
    requires NewlineFree(activities, dateLabel)
    ensures SplitLines(Report(activities, dateLabel)) == ReportLines(activities, dateLabel)
  {
    var k :| k in activities;
    assert |activities| > 0;
    var names := SortedKeys(activities.Keys);
    SectionsNewlineFree(names, activities, dateLabel);
    HeaderNewlineFree(dateLabel, Sections(names, activities));
    SplitJoin(ReportLines(activities, dateLabel));
  }

  lemma {:induction false} HeaderNewlineFree(dateLabel: string, sections: seq<string>)
    requires '\n' !in dateLabel
    requires forall j :: 0 <= j < |sections| ==> '\n' !in sections[j]
    ensures forall j :: 0 <= j < |[Header(dateLabel), ""] + sections| ==> '\n' !in ([Header(dateLabel), ""] + sections)[j]
  {
    var lines := [Header(dateLabel), ""] + sections;
    forall j | 0 <= j < |lines| ensures '\n' !in lines[j] {
      if j >= 2 {
        assert lines[j] == sections[j - 2];
      }
    }
  }
}
