/** The dashboard's issue listing (`GET /api/issues`): the query parameters
    are normalised into filters, the matching issues are fetched with their
    images, and each issue's status is recomputed from whether anyone has
    responded to it. */
module Dashboard {
  import opened Values
  import opened Text
  import opened Database

  /** The query string of the request: parameter name to value. */
  type Args = map<string, string>

  /** `request.args.get(name, '')`. */
  function Arg(args: Args, name: string): (v: string)
    ensures name !in args ==> v == ""
  {
    if name in args then args[name] else ""
  }

  /** Lower-casing never turns a character into white space or back. */
  lemma LowerCharKeepsSpace(c: char)
    ensures IsSpace(LowerChar(c)) == IsSpace(c)
    ensures !('A' <= LowerChar(c) <= 'Z')
  {
    if 'A' <= c <= 'Z' {
      assert 'a' as int <= LowerChar(c) as int <= 'z' as int;
    }
  }

  /** Lower-casing keeps white space at the ends as it was, and leaves no
      upper-case letter. */
  lemma LowerKeepsEnds(t: string)
    ensures t == [] || (IsSpace(Lower(t)[0]) == IsSpace(t[0]) && IsSpace(Lower(t)[|t| - 1]) == IsSpace(t[|t| - 1]))
    ensures forall i :: 0 <= i < |t| ==> !('A' <= Lower(t)[i] <= 'Z')
  {
    if t != [] {
      LowerCharKeepsSpace(t[0]);
      LowerCharKeepsSpace(t[|t| - 1]);
    }
    forall i | 0 <= i < |t| ensures !('A' <= Lower(t)[i] <= 'Z') {
      LowerCharKeepsSpace(t[i]);
    }
  }

  /** The normal form of a text filter: stripped, then lower-cased. */
  function Normalise(s: string): (r: string)
    ensures r == [] || (!IsSpace(r[0]) && !IsSpace(r[|r| - 1]))
    ensures forall i :: 0 <= i < |r| ==> !('A' <= r[i] <= 'Z')
    ensures |r| == |Strip(s)| && forall i :: 0 <= i < |r| ==> r[i] == LowerChar(Strip(s)[i])
  {
    LowerKeepsEnds(Strip(s));
    Lower(Strip(s))
  }

  /** A string with no white space at either end is its own strip. */
  lemma StripTrimmed(s: string)
    requires s == [] || (!IsSpace(s[0]) && !IsSpace(s[|s| - 1]))
    ensures Strip(s) == s
  {
  }

  /** Normalising a normalised filter changes nothing. */
  lemma NormaliseIdempotent(s: string)
    ensures Normalise(Normalise(s)) == Normalise(s)
  {
    var n := Normalise(s);
    StripTrimmed(n);
    LowerIdempotent(n);
  }

  /** The filters `get_issues` passes on: the four text filters normalised,
      the two dates only stripped. */
  function FiltersOf(args: Args): (f: Filters)
    ensures f.search == Normalise(Arg(args, "search")) && f.state == Normalise(Arg(args, "state"))
    ensures f.severity == Normalise(Arg(args, "severity")) && f.timeframe == Normalise(Arg(args, "timeframe"))
    ensures f.startDate == Strip(Arg(args, "start_date")) && f.endDate == Strip(Arg(args, "end_date"))
  {
    Filters(
      Normalise(Arg(args, "search")), Normalise(Arg(args, "state")),
      Normalise(Arg(args, "severity")), Normalise(Arg(args, "timeframe")),
      Strip(Arg(args, "start_date")), Strip(Arg(args, "end_date")))
  }

  /** A request without parameters applies no filter. */
  lemma NoArgsNoFilters()
    ensures FiltersOf(map[]) == NoFilters
  {
    assert Strip("") == "";
  }

  /** The statuses the board knows; anything else is shown as "new". */
  const Vocabulary: set<string> := {"new", "open", "waiting", "fixed"}

  /** The status shown for an issue as the listing computes it: "new" when
      nobody has responded, otherwise the stored status lower-cased, mapped
      to "new" when it is not in the vocabulary. A stored NULL status of an
      answered issue has no `.lower()`: the request fails. */
  function StatusAsWritten(stored: Option<string>, answered: bool): (r: Result<string>)
    ensures r.Raised? <==> answered && stored.None?
  {
    if !answered then Ok("new")
    else match stored
      case None => Raised(AttributeError)
      case Some(s) => Ok(if Lower(s) in Vocabulary then Lower(s) else "new")
  }

  /** The status shown for an issue, with a NULL status read as "new". */
  function Status(stored: Option<string>, answered: bool): (s: string)
    ensures s in Vocabulary
    ensures !answered ==> s == "new"
    ensures answered && stored.Some? && Lower(stored.value) in Vocabulary ==> s == Lower(stored.value)
    ensures stored.None? || Lower(stored.value) !in Vocabulary ==> s == "new"
  {
    if answered && stored.Some? && Lower(stored.value) in Vocabulary then Lower(stored.value) else "new"
  }

  /** Wherever the listing as written produces a status it is the corrected
      one; the two differ only where the written code fails. */
  lemma StatusAsWrittenAgrees(stored: Option<string>, answered: bool)
    ensures StatusAsWritten(stored, answered).Ok? ==> StatusAsWritten(stored, answered).value == Status(stored, answered)
  {
  }

  /** An answered issue whose status column is NULL makes the listing as
      written fail, where the evident intent is to show it as "new". */
  lemma NullStatusFails()
    ensures StatusAsWritten(None, true) == Raised(AttributeError)
    ensures Status(None, true) == "new"
  {
  }

  /** Showing a shown status again changes nothing. */
  lemma StatusStable(stored: Option<string>, answered: bool)
    ensures Status(Some(Status(stored, answered)), answered) == Status(stored, answered)
  {
    var s := Status(stored, answered);
    assert Lower(s) == s by {
      if s == "new" { assert Lower("new") == "new"; }
      else if s == "open" { assert Lower("open") == "open"; }
      else if s == "waiting" { assert Lower("waiting") == "waiting"; }
      else { assert Lower("fixed") == "fixed"; }
    }
  }

  /** Some stored response names the issue. */
  predicate Answered(responses: seq<ResponseRow>, id: Option<string>) {
    IssueResponses(responses, id) != []
  }

  /** Answered means exactly that a response's `entity_problem` is the
      issue's id. */
  lemma AnsweredMeans(responses: seq<ResponseRow>, id: Option<string>)
    ensures Answered(responses, id) <==> exists r :: r in responses && id.Some? && r.entityProblem == id
  {
    IssueResponsesSpec(responses, id);
    if exists r :: r in responses && id.Some? && r.entityProblem == id {
      var r :| r in responses && id.Some? && r.entityProblem == id;
      assert r in IssueResponses(responses, id);
    }
    if Answered(responses, id) {
      var r := IssueResponses(responses, id)[0];
      assert r in IssueResponses(responses, id);
    }
  }

  /** One listed row: the query's row with its status recomputed and its
      image as base64 text. */
  function Shown(row: JoinRow, responses: seq<ResponseRow>): (v: IssueView)
    ensures v.issue == row.issue.(status := v.issue.status)
    ensures v.issue.status == Some(Status(row.issue.status, Answered(responses, row.issue.id)))
    ensures v.image == ImageText(row.image)
  {
    IssueView(row.issue.(status := Some(Status(row.issue.status, Answered(responses, row.issue.id)))), ImageText(row.image))
  }

  /** The body of a successful `GET /api/issues` for the rows the query
      returns. */
  function Listing(rows: seq<JoinRow>, responses: seq<ResponseRow>): (vs: seq<IssueView>)
    ensures |vs| == |rows|
    ensures forall i :: 0 <= i < |vs| ==> vs[i] == Shown(rows[i], responses)
  {
    seq(|rows|, i requires 0 <= i < |rows| => Shown(rows[i], responses))
  }

  /** Every listed status is in the vocabulary; an issue nobody answered is
      "new"; only the status differs from the stored row, so `created_at`
      is always present as stored. */
  lemma ListingStatuses(rows: seq<JoinRow>, responses: seq<ResponseRow>)
    ensures var vs := Listing(rows, responses);
      forall i :: 0 <= i < |vs| ==>
        && vs[i].issue.status.Some? && vs[i].issue.status.value in Vocabulary
        && (!Answered(responses, vs[i].issue.id) ==> vs[i].issue.status == Some("new"))
        && vs[i].issue.(status := None) == rows[i].issue.(status := None)
        && vs[i].issue.createdAt == rows[i].issue.createdAt
  {
  }

  /** The listing as written: the first answered issue with a NULL status
      fails the whole request. */
  function ListingAsWritten(rows: seq<JoinRow>, responses: seq<ResponseRow>): (r: Result<seq<IssueView>>)
    ensures r.Raised? ==> r.cause == AttributeError
    decreases |rows|
  {
    if rows == [] then Ok([])
    else
      var row := rows[0];
      match StatusAsWritten(row.issue.status, Answered(responses, row.issue.id))
      case Raised(x) => Raised(x)
      case Ok(s) =>
        match ListingAsWritten(rows[1..], responses)
        case Raised(x) => Raised(x)
        case Ok(rest) => Ok([IssueView(row.issue.(status := Some(s)), ImageText(row.image))] + rest)
  }

  /** A row that would make the written listing fail. */
  predicate Breaks(row: JoinRow, responses: seq<ResponseRow>) {
    row.issue.status.None? && Answered(responses, row.issue.id)
  }

  /** The written listing fails exactly when some row is an answered issue
      with a NULL status. */
  lemma {:induction false} ListingAsWrittenBreaks(rows: seq<JoinRow>, responses: seq<ResponseRow>)
    ensures ListingAsWritten(rows, responses).Raised? <==> exists i :: 0 <= i < |rows| && Breaks(rows[i], responses)
    decreases |rows|
  {
    if rows != [] {
      var tail := rows[1..];
      ListingAsWrittenBreaks(tail, responses);
      assert forall i :: 0 < i < |rows| ==> tail[i - 1] == rows[i];
      if exists i :: 0 <= i < |tail| && Breaks(tail[i], responses) {
        var i :| 0 <= i < |tail| && Breaks(tail[i], responses);
        assert Breaks(rows[i + 1], responses);
      }
    }
  }

  /** The corrected listing is the first row shown, then the rest. */
  lemma ListingCons(rows: seq<JoinRow>, responses: seq<ResponseRow>)
    requires rows != []
    ensures Listing(rows, responses) == [Shown(rows[0], responses)] + Listing(rows[1..], responses)
  {
    var tail := rows[1..];
    assert forall i :: 0 < i < |rows| ==> tail[i - 1] == rows[i];
  }

  /** Wherever the written listing succeeds it is the corrected one. */
  lemma {:induction false} ListingAsWrittenAgrees(rows: seq<JoinRow>, responses: seq<ResponseRow>)
    ensures ListingAsWritten(rows, responses).Ok? ==> ListingAsWritten(rows, responses).value == Listing(rows, responses)
    decreases |rows|
  {
    if rows != [] && ListingAsWritten(rows, responses).Ok? {
      ListingAsWrittenAgrees(rows[1..], responses);
      StatusAsWrittenAgrees(rows[0].issue.status, Answered(responses, rows[0].issue.id));
      ListingCons(rows, responses);
    }
  }

  /** One iteration of `get_issues` on a fetched row yields its listed form. */
  lemma ShownStep(row: JoinRow, view: IssueView, responses: seq<ResponseRow>, found: nat)
    requires view == IssueView(row.issue, ImageText(row.image))
    requires found == |IssueResponses(responses, row.issue.id)|
    ensures IssueView(view.issue.(status := Some(Status(view.issue.status, found > 0))), view.image) == Shown(row, responses)
  {
  }

  /** The loop of `get_issues` over fetched rows: each row's status is set
      from whether any response names it. */
  method ShowAll(store: Store, ghost rows: seq<JoinRow>, views: seq<IssueView>) returns (shown: seq<IssueView>)
    requires |views| == |rows|
    requires forall i :: 0 <= i < |views| ==> views[i] == IssueView(rows[i].issue, ImageText(rows[i].image))
    ensures shown == Listing(rows, store.responses)
  {
    shown := [];
    var i := 0;
    while i < |views|
      invariant 0 <= i <= |views|
      invariant |shown| == i
      invariant forall k :: 0 <= k < i ==> shown[k] == Shown(rows[k], store.responses)
    {
      var issue := views[i].issue;
      var responses := store.GetResponsesForIssue(issue.id);
      ShownStep(rows[i], views[i], store.responses, |responses|);
      shown := shown + [IssueView(issue.(status := Some(Status(issue.status, |responses| > 0))), views[i].image)];
      i := i + 1;
    }
    ghost var listing := Listing(rows, store.responses);
    assert |shown| == |listing|;
    assert forall k :: 0 <= k < |shown| ==> shown[k] == listing[k];
  }

  /** The issues matching the filters, each with its recomputed status. */
  method ListIssues(store: Store, f: Filters) returns (shown: seq<IssueView>)
    ensures shown == Listing(Query(store.issues, store.images, f), store.responses)
  {
    var views := store.GetIssuesWithImages(f);
    shown := ShowAll(store, Query(store.issues, store.images, f), views);
  }

  /** `get_issues`: normalise the request's filters, fetch the matching
      issues with their images, then set each one's status from its
      responses. */
  method GetIssues(store: Store, args: Args) returns (shown: seq<IssueView>)
    ensures shown == Listing(Query(store.issues, store.images, FiltersOf(args)), store.responses)
  {
    shown := ListIssues(store, FiltersOf(args));
  }
}
