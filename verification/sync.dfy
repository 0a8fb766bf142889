/**
 * Issue-tracker synchronisation helpers: how a GitHub issue or milestone is
 * turned into the property map of a Notion page, given the Notion database
 * schema. Everything here is a pure function of its arguments.
 */
module IssueSync {
  import opened Common

  // ---------------------------------------------------------------------------
  // Strings
  // ---------------------------------------------------------------------------

  /** `str.lower()` on one character, for ASCII letters. */
  function LowerChar(c: char): char {
    if 'A' <= c <= 'Z' then (c as int + 32) as char else c
  }

  /** `str.lower()`, for ASCII letters. */
  function Lower(s: string): (r: string)
    ensures |r| == |s| && forall i :: 0 <= i < |s| ==> r[i] == LowerChar(s[i])
  {
    seq(|s|, i requires 0 <= i < |s| => LowerChar(s[i]))
  }

  /** Lower-casing twice is lower-casing once, so comparing lower-cased strings is an equivalence. */
  lemma LowerIdempotent(s: string)
    ensures Lower(Lower(s)) == Lower(s)
  {
  }

  /** The characters for which `str.isspace()` holds. */
  predicate IsSpace(c: char) {
    c == ' ' || '\t' <= c <= '\r' || '\U{1C}' <= c <= '\U{1F}' || c == '\U{85}' || c == '\U{A0}' ||
    c == '\U{1680}' || '\U{2000}' <= c <= '\U{200A}' || c == '\U{2028}' || c == '\U{2029}' ||
    c == '\U{202F}' || c == '\U{205F}' || c == '\U{3000}'
  }

  /** The number of whitespace characters at the start of `s`. */
  function LeadingSpaces(s: string): (n: nat)
    ensures n <= |s| && (forall i :: 0 <= i < n ==> IsSpace(s[i])) && (n == |s| || !IsSpace(s[n]))
  {
    if s != [] && IsSpace(s[0]) then
      var n := 1 + LeadingSpaces(s[1..]);
      assert forall i :: 1 <= i < n ==> s[i] == s[1..][i - 1];
      n
    else 0
  }

  /** The number of whitespace characters at the end of `s`. */
  function TrailingSpaces(s: string): (n: nat)
    ensures n <= |s| && (forall i :: |s| - n <= i < |s| ==> IsSpace(s[i])) && (n == |s| || !IsSpace(s[|s| - n - 1]))
  {
    if s != [] && IsSpace(s[|s| - 1]) then
      var n := 1 + TrailingSpaces(s[..|s| - 1]);
      assert forall i :: |s| - n <= i < |s| - 1 ==> s[i] == s[..|s| - 1][i];
      n
    else 0
  }

  /**
   * `str.strip()`: `s` without its leading and trailing whitespace. What is
   * left is one slice of `s` that neither starts nor ends with whitespace,
   * and only whitespace lies outside it.
   */
  function Strip(s: string): (r: string)
    ensures r == [] || (!IsSpace(r[0]) && !IsSpace(r[|r| - 1]))
    ensures LeadingSpaces(s) + |r| <= |s| && r == s[LeadingSpaces(s)..LeadingSpaces(s) + |r|]
    ensures forall i :: LeadingSpaces(s) + |r| <= i < |s| ==> IsSpace(s[i])
  {
    var lo := LeadingSpaces(s);
    if lo == |s| then ""
    else
      var trail := TrailingSpaces(s);
      assert lo < |s| - trail;
      s[lo..|s| - trail]
  }

  /** `m` occurs in `s` starting at index `j`. */
  predicate OccursAt(s: string, m: string, j: int) {
    0 <= j && j + |m| <= |s| && s[j..j + |m|] == m
  }

  /** The index of the first occurrence of `m` in `s` (`m in s` and `s.split(m)`). */
  function Find(s: string, m: string): (r: Option<nat>)
    ensures r.Some? ==> OccursAt(s, m, r.value) && forall j :: 0 <= j < r.value ==> !OccursAt(s, m, j)
    ensures r.None? ==> forall j :: !OccursAt(s, m, j)
  {
    if |s| < |m| then None
    else if s[..|m|] == m then Some(0)
    else
      var rest := Find(s[1..], m);
      assert forall j :: 0 <= j ==> (OccursAt(s, m, j + 1) <==> OccursAt(s[1..], m, j)) by {
        forall j | 0 <= j ensures OccursAt(s, m, j + 1) <==> OccursAt(s[1..], m, j) {
          OccursShift(s, m, j);
        }
      }
      assert forall j :: OccursAt(s, m, j) && j > 0 ==> OccursAt(s[1..], m, j - 1);
      match rest
      case Some(i) => Some(i + 1)
      case None => None
  }

  /** An occurrence in `s` past its first character is an occurrence in the rest of `s`. */
  lemma OccursShift(s: string, m: string, j: nat)
    requires s != []
    ensures OccursAt(s, m, j + 1) <==> OccursAt(s[1..], m, j)
  {
    if j + 1 + |m| <= |s| {
      assert s[j + 1..j + 1 + |m|] == s[1..][j..j + |m|];
    }
  }

  /** A slice of a slice is a slice of the original. */
  lemma SliceOfSlice(s: string, lo: nat, hi: nat, a: nat, b: nat)
    requires lo <= hi <= |s| && a <= b <= hi - lo
    ensures s[lo..hi][a..b] == s[lo + a..lo + b]
  {
    forall k | 0 <= k < b - a ensures s[lo..hi][a..b][k] == s[lo + a..lo + b][k] {
      assert s[lo..hi][a + k] == s[lo + a + k];
    }
  }

  /** A string in which `m` does not occur gives slices in which it does not occur either. */
  lemma NoOccurrenceInSlice(s: string, m: string, lo: nat, hi: nat)
    requires lo <= hi <= |s| && forall j :: !OccursAt(s, m, j)
    ensures forall j :: !OccursAt(s[lo..hi], m, j)
  {
    forall j | 0 <= j && j + |m| <= hi - lo ensures !OccursAt(s[lo..hi], m, j) {
      SliceOfSlice(s, lo, hi, j, j + |m|);
      assert !OccursAt(s, m, lo + j);
    }
  }

  /**
   * The text of `s` before the first occurrence of `m`, or all of `s`: one
   * item of `s.split(m)`.
   */
  function UpTo(s: string, m: string): (r: string)
    requires m != []
    ensures StartsWith(s, r) && forall j :: !OccursAt(r, m, j)
    ensures Find(s, m).None? <==> r == s
    ensures Find(s, m).Some? ==> |r| == Find(s, m).value
  {
    match Find(s, m)
    case None => s
    case Some(i) =>
      forall j | 0 <= j && j + |m| <= i ensures !OccursAt(s[..i], m, j) {
        SliceOfSlice(s, 0, i, j, j + |m|);
        assert !OccursAt(s, m, j);
      }
      s[..i]
  }

  /** The text of `s` after the first occurrence of `m`, or "" when there is none. */
  function After(s: string, m: string): (r: string)
    requires m != []
    ensures Find(s, m).Some? ==> s == UpTo(s, m) + m + r
  {
    match Find(s, m)
    case None => ""
    case Some(i) =>
      assert s == s[..i] + s[i..i + |m|] + s[i + |m|..];
      s[i + |m|..]
  }

  /** `", ".join(items)`. */
  function Join(sep: string, items: seq<string>): (r: string)
    ensures items == [] ==> r == ""
    ensures |items| == 1 ==> r == items[0]
    ensures items != [] ==> StartsWith(r, items[0]) && EndsWith(r, items[|items| - 1])
  {
    if items == [] then ""
    else if |items| == 1 then items[0]
    else items[0] + sep + Join(sep, items[1..])
  }

  /** Two assignees are listed with a comma and a space between them. */
  lemma JoinExample()
    ensures Join(", ", ["ann", "bob"]) == "ann, bob"
  {
    assert ["ann", "bob"][1..] == ["bob"];
  }

  /** Joining one more item appends the separator and then that item. */
  lemma {:induction false} JoinSnoc(sep: string, items: seq<string>, x: string)
    requires items != []
    ensures Join(sep, items + [x]) == Join(sep, items) + sep + x
  {
    var longer := items + [x];
    assert longer[0] == items[0] && |longer| > 1;
    assert longer[1..] == items[1..] + [x];
    if |items| == 1 {
      assert longer[1..] == [x];
    } else {
      JoinSnoc(sep, items[1..], x);
      calc {
        Join(sep, longer);
        items[0] + sep + Join(sep, items[1..] + [x]);
        items[0] + sep + (Join(sep, items[1..]) + sep + x);
        (items[0] + sep + Join(sep, items[1..])) + sep + x;
      }
    }
  }

  // ---------------------------------------------------------------------------
  // Inputs
  // ---------------------------------------------------------------------------

  /** The milestone an issue belongs to, reduced to its page URL. */
  datatype MilestoneRef = MilestoneRef(htmlUrl: string)

  /** A GitHub issue: state, title, page URL, body, label names, assignee logins and milestone. */
  datatype Issue = Issue(
    state: string,
    title: string,
    htmlUrl: string,
    body: Option<string>,
    labels: seq<string>,
    assignees: seq<string>,
    milestone: Option<MilestoneRef>)

  /** A GitHub milestone. */
  datatype Milestone = Milestone(
    state: string,
    title: string,
    htmlUrl: string,
    description: Option<string>,
    dueOn: Option<string>)

  /** The Notion property names the helpers read or write. */
  datatype PropName =
    | Name | GithubUrl | Status | Description | AcceptanceCriteria | AssignedTo | Type | Sprint
    | SprintGoal | Duration
  {
    /** The property's name in the Notion database. */
    function Label(): string {
      match this
      case Name => "Name"
      case GithubUrl => "Github URL"
      case Status => "Status"
      case Description => "Description"
      case AcceptanceCriteria => "Acceptance Criteria"
      case AssignedTo => "Assigned To"
      case Type => "Type"
      case Sprint => "Sprint"
      case SprintGoal => "Sprint Goal"
      case Duration => "Duration"
    }
  }

  /** The Notion property types the helpers test for; any other type is `OtherKind`. */
  datatype PropKind = StatusKind | SelectKind | RichTextKind | RelationKind | DateKind | OtherKind(kind: string)

  /** One property of a Notion database: its type, and its option names for status and select properties. */
  datatype SchemaEntry = SchemaEntry(kind: PropKind, options: seq<string>)

  /** A Notion database schema, restricted to the properties the helpers look at. */
  type Schema = map<PropName, SchemaEntry>

  /** `schema.get(name, {}).get("type") == kind`. */
  predicate HasType(schema: Schema, name: PropName, kind: PropKind) {
    name in schema && schema[name].kind == kind
  }

  /** Python truthiness of an optional string: present and non-empty. */
  predicate Truthy(s: Option<string>) {
    s.Some? && s.value != ""
  }

  /** The property values written to Notion. */
  datatype PropValue =
    | Title(content: string)
    | Url(url: string)
    | StatusValue(name: string)
    | SelectValue(name: string)
    | RichText(content: string)
    | Relation(ids: seq<string>)
    | DateRange(start: string, end: string)

  // ---------------------------------------------------------------------------
  // safe_status
  // ---------------------------------------------------------------------------

  /** `options[i]` is the first option equal to `value` ignoring case. */
  predicate IsFirstCaseMatch(options: seq<string>, value: string, i: int) {
    0 <= i < |options| && Lower(options[i]) == Lower(value) &&
    forall j :: 0 <= j < i ==> Lower(options[j]) != Lower(value)
  }

  /** The index of the first option equal to `value` ignoring case. */
  function FirstCaseMatch(options: seq<string>, value: string): (r: Option<nat>)
    ensures r.Some? ==> IsFirstCaseMatch(options, value, r.value)
    ensures r.None? <==> forall o :: o in options ==> Lower(o) != Lower(value)
  {
    if options == [] then None
    else if Lower(options[0]) == Lower(value) then Some(0)
    else
      match FirstCaseMatch(options[1..], value)
      case Some(i) =>
        assert forall j :: 1 <= j <= i ==> options[j] == options[1..][j - 1];
        Some(i + 1)
      case None =>
        assert forall o :: o in options ==> o == options[0] || o in options[1..];
        None
  }

  /**
   * What `safe_status` returns: `value` itself when it is an option,
   * otherwise the first option equal to it ignoring case, otherwise nothing.
   */
  function MatchStatus(value: string, options: seq<string>): (r: Option<string>)
    ensures r.Some? ==> r.value in options && Lower(r.value) == Lower(value)
    ensures value in options ==> r == Some(value)
    ensures value !in options && r.Some? ==> exists i :: IsFirstCaseMatch(options, value, i) && r.value == options[i]
    ensures r.None? <==> forall o :: o in options ==> Lower(o) != Lower(value)
  {
    if value in options then Some(value)
    else
      match FirstCaseMatch(options, value)
      case Some(i) => Some(options[i])
      case None => None
  }

  /** `safe_status`: an exact match first, then a scan of the options ignoring case. */
  method SafeStatus(value: string, entry: SchemaEntry) returns (r: Option<string>)
    ensures r == MatchStatus(value, entry.options)
  {
    var options := entry.options;
    if value in options {
      return Some(value);
    }
    var i := 0;
    while i < |options|
      invariant 0 <= i <= |options|
      invariant forall j :: 0 <= j < i ==> Lower(options[j]) != Lower(value)
    {
      if Lower(options[i]) == Lower(value) {
        FirstCaseMatchIs(options, value, i);
        return Some(options[i]);
      }
      i := i + 1;
    }
    return None;
  }

  /** The first case-insensitive match is unique. */
  lemma FirstCaseMatchIs(options: seq<string>, value: string, i: nat)
    requires IsFirstCaseMatch(options, value, i)
    ensures FirstCaseMatch(options, value) == Some(i)
  {
    assert options[i] in options;
  }

  /** An option that differs from the value only in case is found. */
  lemma MatchStatusExample()
    ensures MatchStatus("done", ["Backlog", "Done"]) == Some("Done")
    ensures MatchStatus("Done", ["done", "Done"]) == Some("Done")
    ensures MatchStatus("Ice Box", ["Backlog", "Done"]) == None
    ensures MatchStatus("Done", ["DONE", "done"]) == Some("DONE")
  {
    var opts := ["Backlog", "Done"];
    assert Lower("done") == "done" && Lower("Done") == "done" && Lower("Backlog") == "backlog";
    assert "done" !in opts;
    assert FirstCaseMatch(opts, "done") == Some(1) by {
      FirstCaseMatchIs(opts, "done", 1);
    }
    assert "Done" in ["done", "Done"];
    assert Lower("Ice Box")[0] == 'i';
    assert Lower("DONE") == "done" && "Done" !in ["DONE", "done"];
    FirstCaseMatchIs(["DONE", "done"], "Done", 0);
  }

  // ---------------------------------------------------------------------------
  // txt, map_issue_status, map_issue_type
  // ---------------------------------------------------------------------------

  /** The default length limit of a rich-text property. */
  const TextLimit: nat := 2000

  /** `txt`: a rich-text value holding at most `limit` characters of `value`, NULL read as "". */
  function Txt(value: Option<string>, limit: nat := TextLimit): (p: PropValue)
    ensures p.RichText? && |p.content| <= limit
    ensures StartsWith(value.GetOr(""), p.content)
    ensures |value.GetOr("")| <= limit ==> p.content == value.GetOr("")
    ensures value.None? ==> p.content == ""
  {
    RichText(Take(value.GetOr(""), limit))
  }

  /** The status names an issue can be mapped to. */
  const IssueStatuses: set<string> := {"Done", "In Review", "In Progress", "Backlog", "Ice Box", "New Issues"}

  /** `map_issue_status`: closed issues are done; open ones take the first workflow label in a fixed precedence. */
  function MapIssueStatus(issue: Issue): (status: string)
    ensures status in IssueStatuses
    ensures issue.state == "closed" ==> status == "Done"
    ensures issue.state != "closed" ==>
      (status == "In Review" <==> "in-review" in issue.labels) &&
      (status == "In Progress" <==> "in-review" !in issue.labels && "in-progress" in issue.labels) &&
      (status == "Backlog" <==> "in-review" !in issue.labels && "in-progress" !in issue.labels && "backlog" in issue.labels) &&
      (status == "Ice Box" <==> "in-review" !in issue.labels && "in-progress" !in issue.labels &&
                                 "backlog" !in issue.labels && "ice-box" in issue.labels) &&
      (status == "New Issues" <==> forall l :: l in issue.labels ==> l !in {"in-review", "in-progress", "backlog", "ice-box"})
  {
    if issue.state == "closed" then "Done"
    else if "in-review" in issue.labels then "In Review"
    else if "in-progress" in issue.labels then "In Progress"
    else if "backlog" in issue.labels then "Backlog"
    else if "ice-box" in issue.labels then "Ice Box"
    else "New Issues"
  }

  /** The status of an issue depends on which labels it has, not on their order or repetitions. */
  lemma StatusIgnoresLabelOrder(issue: Issue, labels: seq<string>)
    requires forall l :: l in labels <==> l in issue.labels
    ensures MapIssueStatus(issue.(labels := labels)) == MapIssueStatus(issue)
  {
  }

  /** The labels that name an issue type. */
  const KnownTypes: set<string> := {
    "architecture", "data-integration", "data-engineer", "data-analyst",
    "data-scientist", "bi", "security", "data-privacy", "data-science",
    "deployment", "documentation", "presentation", "all-roles"}

  /** `labels[i]` is the first known type among the labels. */
  predicate IsFirstKnown(labels: seq<string>, i: int) {
    0 <= i < |labels| && labels[i] in KnownTypes && forall j :: 0 <= j < i ==> labels[j] !in KnownTypes
  }

  /** The first label, in label order, that names a known type. */
  function FirstKnown(labels: seq<string>): (r: Option<string>)
    ensures r.Some? ==> exists i :: IsFirstKnown(labels, i) && labels[i] == r.value
    ensures r.None? <==> forall l :: l in labels ==> l !in KnownTypes
  {
    if labels == [] then None
    else if labels[0] in KnownTypes then
      assert IsFirstKnown(labels, 0);
      Some(labels[0])
    else
      var rest := FirstKnown(labels[1..]);
      assert forall l :: l in labels ==> l == labels[0] || l in labels[1..];
      if rest.Some? then
        var i :| IsFirstKnown(labels[1..], i) && labels[1..][i] == rest.value;
        assert forall j :: 1 <= j <= i + 1 ==> labels[j] == labels[1..][j - 1];
        assert IsFirstKnown(labels, i + 1);
        rest
      else rest
  }

  /** `map_issue_type`: the loop over the labels that returns at the first known type. */
  method MapIssueType(issue: Issue) returns (t: Option<string>)
    ensures t == FirstKnown(issue.labels)
  {
    var labels := issue.labels;
    var i := 0;
    while i < |labels|
      invariant 0 <= i <= |labels|
      invariant FirstKnown(labels[i..]) == FirstKnown(labels)
    {
      if labels[i] in KnownTypes {
        return Some(labels[i]);
      }
      assert labels[i..][1..] == labels[i + 1..];
      i := i + 1;
    }
    return None;
  }

  /** Unlike the status, the type depends on the label order. */
  lemma TypeFollowsLabelOrder()
    ensures FirstKnown(["bug", "bi", "security"]) == Some("bi")
    ensures FirstKnown(["security", "bi"]) == Some("security")
    ensures FirstKnown(["bug", "enhancement"]) == None
  {
    assert ["bug", "bi", "security"][1..] == ["bi", "security"];
    assert ["bug", "enhancement"][1..] == ["enhancement"];
    assert ["bug", "enhancement"][1..][1..] == [];
  }

  // ---------------------------------------------------------------------------
  // build_issue_props
  // ---------------------------------------------------------------------------

  /** The marker that separates an issue's description from its acceptance criteria. */
  const Marker: string := "**Acceptance criteria**"

  /**
   * The description and the acceptance criteria of an issue body: the
   * stripped text before the first marker and the stripped text between the
   * first and the second; without a marker, the whole body, unstripped, and "".
   */
  function SplitBody(body: string): (parts: (string, string))
    ensures Find(body, Marker).None? ==> parts == (body, "")
    ensures Find(body, Marker).Some? ==>
      body == UpTo(body, Marker) + Marker + After(body, Marker) &&
      parts == (Strip(UpTo(body, Marker)), Strip(UpTo(After(body, Marker), Marker)))
  {
    if Find(body, Marker).None? then (body, "")
    else (Strip(UpTo(body, Marker)), Strip(UpTo(After(body, Marker), Marker)))
  }

  /** Stripping a text in which `m` does not occur leaves one in which it does not occur. */
  lemma StripKeepsNoOccurrence(s: string, m: string)
    requires forall j :: !OccursAt(s, m, j)
    ensures forall j :: !OccursAt(Strip(s), m, j)
  {
    var lo := LeadingSpaces(s);
    var r := Strip(s);
    assert r == s[lo..lo + |r|];
    NoOccurrenceInSlice(s, m, lo, lo + |r|);
  }

  /** When the body has a marker, neither the description nor the acceptance criteria contain one. */
  lemma SplitBodyDropsMarkers(body: string)
    requires Find(body, Marker).Some?
    ensures forall j :: !OccursAt(SplitBody(body).0, Marker, j) && !OccursAt(SplitBody(body).1, Marker, j)
  {
    StripKeepsNoOccurrence(UpTo(body, Marker), Marker);
    StripKeepsNoOccurrence(UpTo(After(body, Marker), Marker), Marker);
  }

  /**
   * A body written as a description, the marker and the criteria splits back
   * into the two texts, stripped, when no marker starts inside the
   * description and the criteria have no marker.
   */
  lemma SplitBodyRoundTrip(description: string, criteria: string)
    requires forall j :: 0 <= j < |description| ==> !OccursAt(description + Marker + criteria, Marker, j)
    requires forall j :: !OccursAt(criteria, Marker, j)
    ensures SplitBody(description + Marker + criteria) == (Strip(description), Strip(criteria))
  {
    var body := description + Marker + criteria;
    var i := |description|;
    assert OccursAt(body, Marker, i) by {
      assert body[i..i + |Marker|] == Marker;
    }
    assert Find(body, Marker) == Some(i);
    assert body[..i] == description;
    assert body[i + |Marker|..] == criteria;
  }

  /** The names of the properties an issue page can get. */
  const IssuePropNames: set<PropName> :=
    {Name, GithubUrl, Status, Description, AcceptanceCriteria, AssignedTo, Type, Sprint}

  /** The status `safe_status` gives an issue, when the schema has a status property. */
  function IssueStatus(issue: Issue, schema: Schema): Option<string> {
    if HasType(schema, Status, StatusKind) then MatchStatus(MapIssueStatus(issue), schema[Status].options) else None
  }

  /** The sprint page id of an issue's milestone, when it has one. */
  function SprintId(issue: Issue, sprintUrlMap: map<string, string>): Option<string> {
    match issue.milestone
    case None => None
    case Some(m) => if m.htmlUrl in sprintUrlMap then Some(sprintUrlMap[m.htmlUrl]) else None
  }

  /** The value `build_issue_props` sets for property `k`, if it sets one. */
  function IssueProp(issue: Issue, sprintUrlMap: map<string, string>, schema: Schema, k: PropName): Option<PropValue> {
    match k
    case Name => Some(Title(issue.title))
    case GithubUrl => Some(Url(issue.htmlUrl))
    case Status =>
      var status := IssueStatus(issue, schema);
      if Truthy(status) then Some(StatusValue(status.value)) else None
    case Description =>
      if HasType(schema, Description, RichTextKind) then Some(Txt(Some(SplitBody(issue.body.GetOr("")).0))) else None
    case AcceptanceCriteria =>
      if HasType(schema, AcceptanceCriteria, RichTextKind) then Some(Txt(Some(SplitBody(issue.body.GetOr("")).1))) else None
    case AssignedTo =>
      if HasType(schema, AssignedTo, RichTextKind) then Some(Txt(Some(Join(", ", issue.assignees)))) else None
    case Type =>
      var t := FirstKnown(issue.labels);
      if Truthy(t) && HasType(schema, Type, SelectKind) then Some(SelectValue(t.value)) else None
    case Sprint =>
      var sid := SprintId(issue, sprintUrlMap);
      if HasType(schema, Sprint, RelationKind) && Truthy(sid) then Some(Relation([sid.value])) else None
    case SprintGoal => None
    case Duration => None
  }

  /**
   * `build_issue_props`: the properties of the Notion page of an issue. The
   * source fills the dictionary one key after another; as every key is
   * written at most once, the result is the map of the values it sets.
   */
  function BuildIssueProps(issue: Issue, sprintUrlMap: map<string, string>, schema: Schema): (props: map<PropName, PropValue>)
    ensures props.Keys <= IssuePropNames
    ensures Name in props && props[Name] == Title(issue.title)
    ensures GithubUrl in props && props[GithubUrl] == Url(issue.htmlUrl)
    ensures Status in props <==> Truthy(IssueStatus(issue, schema))
    ensures Status in props ==>
      props[Status] == StatusValue(MatchStatus(MapIssueStatus(issue), schema[Status].options).value) &&
      props[Status].name in schema[Status].options && Lower(props[Status].name) == Lower(MapIssueStatus(issue))
    ensures Sprint in props <==> HasType(schema, Sprint, RelationKind) && Truthy(SprintId(issue, sprintUrlMap))
    ensures Sprint in props ==> props[Sprint] == Relation([SprintId(issue, sprintUrlMap).value])
  {
    map k | k in IssuePropNames && IssueProp(issue, sprintUrlMap, schema, k).Some? :: IssueProp(issue, sprintUrlMap, schema, k).value
  }

  /** The three text properties are set exactly when the schema has them as rich text, and fit Notion's limit. */
  lemma IssueTextProps(issue: Issue, sprintUrlMap: map<string, string>, schema: Schema)
    ensures var props := BuildIssueProps(issue, sprintUrlMap, schema);
      && (Description in props <==> HasType(schema, Description, RichTextKind))
      && (AcceptanceCriteria in props <==> HasType(schema, AcceptanceCriteria, RichTextKind))
      && (AssignedTo in props <==> HasType(schema, AssignedTo, RichTextKind))
      && (forall k :: k in props && k in {Description, AcceptanceCriteria, AssignedTo} ==>
            props[k].RichText? && |props[k].content| <= TextLimit)
      && (Description in props ==> props[Description] == Txt(Some(SplitBody(issue.body.GetOr("")).0)))
      && (AcceptanceCriteria in props ==> props[AcceptanceCriteria] == Txt(Some(SplitBody(issue.body.GetOr("")).1)))
      && (AssignedTo in props ==> props[AssignedTo] == Txt(Some(Join(", ", issue.assignees))))
  {
  }

  /** The type is set exactly when a known label exists and the schema has a select `Type`; it is one of the issue's labels. */
  lemma IssueTypeProp(issue: Issue, sprintUrlMap: map<string, string>, schema: Schema)
    ensures var props := BuildIssueProps(issue, sprintUrlMap, schema);
      && (Type in props <==> Truthy(FirstKnown(issue.labels)) && HasType(schema, Type, SelectKind))
      && (Type in props ==> props[Type].SelectValue? && props[Type].name in KnownTypes && props[Type].name in issue.labels)
      && (Type in props ==> props[Type] == SelectValue(FirstKnown(issue.labels).value))
      && (Type in props ==> exists i :: IsFirstKnown(issue.labels, i) && issue.labels[i] == props[Type].name)
  {
  }

  /** A closed issue is shown as done whenever the schema offers a status matching "Done". */
  lemma ClosedIssueIsDone(issue: Issue, sprintUrlMap: map<string, string>, schema: Schema)
    requires issue.state == "closed" && HasType(schema, Status, StatusKind) && "Done" in schema[Status].options
    ensures BuildIssueProps(issue, sprintUrlMap, schema)[Status] == StatusValue("Done")
  {
  }

  // ---------------------------------------------------------------------------
  // build_milestone_props
  // ---------------------------------------------------------------------------

  /** The names of the properties a sprint page can get. */
  const MilestonePropNames: set<PropName> := {Name, GithubUrl, Status, SprintGoal, Duration}

  /** The status a milestone is given before matching it against the schema's options. */
  function MilestoneStatus(milestone: Milestone): (status: string)
    ensures status == "Current" <==> milestone.state == "open"
    ensures status in {"Current", "Completed"}
  {
    if milestone.state == "open" then "Current" else "Completed"
  }

  /** The value `build_milestone_props` sets for property `k`, if it sets one. */
  function MilestoneProp(milestone: Milestone, schema: Schema, k: PropName): Option<PropValue> {
    match k
    case Name => Some(Title(milestone.title))
    case GithubUrl => Some(Url(milestone.htmlUrl))
    case Status =>
      if HasType(schema, Status, StatusKind) || HasType(schema, Status, SelectKind) then
        var status := MatchStatus(MilestoneStatus(milestone), schema[Status].options);
        if !Truthy(status) then None
        else if schema[Status].kind == StatusKind then Some(StatusValue(status.value))
        else Some(SelectValue(status.value))
      else None
    case SprintGoal =>
      var goal := milestone.description.GetOr("");
      if goal != "" && HasType(schema, SprintGoal, RichTextKind) then Some(Txt(Some(goal))) else None
    case Duration =>
      if Truthy(milestone.dueOn) && HasType(schema, Duration, DateKind) then
        var due := Take(milestone.dueOn.value, 10);
        Some(DateRange(due, due))
      else None
    case Description => None
    case AcceptanceCriteria => None
    case AssignedTo => None
    case Type => None
    case Sprint => None
  }

  /** `build_milestone_props`: the properties of the Notion sprint page of a milestone. */
  function BuildMilestoneProps(milestone: Milestone, schema: Schema): (props: map<PropName, PropValue>)
    ensures props.Keys <= MilestonePropNames
    ensures Name in props && props[Name] == Title(milestone.title)
    ensures GithubUrl in props && props[GithubUrl] == Url(milestone.htmlUrl)
    ensures Status in props <==>
      (HasType(schema, Status, StatusKind) || HasType(schema, Status, SelectKind)) &&
      Truthy(MatchStatus(MilestoneStatus(milestone), schema[Status].options))
    ensures Status in props ==>
      (if HasType(schema, Status, StatusKind) then props[Status].StatusValue? else props[Status].SelectValue?) &&
      props[Status].name == MatchStatus(MilestoneStatus(milestone), schema[Status].options).value &&
      props[Status].name in schema[Status].options &&
      Lower(props[Status].name) == Lower(MilestoneStatus(milestone))
    ensures SprintGoal in props <==> Truthy(milestone.description) && HasType(schema, SprintGoal, RichTextKind)
    ensures SprintGoal in props ==> props[SprintGoal] == Txt(milestone.description)
    ensures Duration in props <==> Truthy(milestone.dueOn) && HasType(schema, Duration, DateKind)
    ensures Duration in props ==>
      props[Duration] == DateRange(Take(milestone.dueOn.value, 10), Take(milestone.dueOn.value, 10))
  {
    map k | k in MilestonePropNames && MilestoneProp(milestone, schema, k).Some? :: MilestoneProp(milestone, schema, k).value
  }

  /** The date range of a sprint is the calendar date of the ISO due timestamp. */
  lemma DurationExample()
    ensures var m := Milestone("open", "Sprint 3", "https://github.com/o/r/milestone/3", None, Some("2024-05-31T07:00:00Z"));
      var schema := map[Duration := SchemaEntry(DateKind, [])];
      BuildMilestoneProps(m, schema)[Duration] == DateRange("2024-05-31", "2024-05-31")
  {
    assert "2024-05-31T07:00:00Z"[..10] == "2024-05-31";
  }
}
