/** The synchronisation client (`ODKAPI`): URL resolution, the three
    normalisers that turn upstream records into issue, image and response
    dictionaries, the save loops that write them one by one, and the sync run
    that chains the three. HTTP is an oracle: `fetch` gives the `value` list
    of a JSON listing, `download` the bytes of an attachment, each keyed by
    the resolved URL and None when the request fails. */
module OdkApi {
  import opened Values
  import opened Text
  import opened Dates
  import opened Records
  import opened Tables
  import opened Database
  import opened Batches

  const BaseUrl: string := "https://integrityaction.net"

  const EntitiesEndpoint: string := "v1/projects/2/datasets/problems.svc/Entities"
  const ResponsesEndpoint: string := "v1/projects/2/forms/address_problem.svc/Submissions"
  const ImagesEndpoint: string := "v1/projects/2/forms/report_problem.svc/Submissions"
  /** The prefix of both attachment paths. */
  const FormsPath: string := "v1/projects/2/forms/"

  // ---------------------------------------------------------------------------
  // URLs.

  predicate IsAbsolute(endpoint: string) {
    StartsWith(endpoint, "http://") || StartsWith(endpoint, "https://")
  }

  /** `_make_request` and `download_image`: an absolute URL is used as given;
      anything else loses its leading slashes and goes under `base + '/'`. */
  function ResolveUrl(base: string, endpoint: string): (url: string)
    ensures IsAbsolute(endpoint) ==> url == endpoint
    ensures !IsAbsolute(endpoint) ==> StartsWith(url, base + "/")
    ensures !IsAbsolute(endpoint) ==> url == base + "/" || url[|base| + 1] != '/'
  {
    if IsAbsolute(endpoint) then endpoint else base + "/" + DropLeading(endpoint, '/')
  }

  lemma StartsWithExtend(s: string, p: string, t: string)
    requires StartsWith(s, p)
    ensures StartsWith(s + t, p)
  {
    assert (s + t)[..|p|] == s[..|p|];
  }

  /** Leading slashes on a relative endpoint make no difference. */
  lemma ResolveIgnoresLeadingSlash(base: string, endpoint: string)
    requires !IsAbsolute(endpoint)
    ensures ResolveUrl(base, "/" + endpoint) == ResolveUrl(base, endpoint)
  {
    var e := "/" + endpoint;
    assert !StartsWith(e, "http://") by { assert e[0] == '/'; }
    assert !StartsWith(e, "https://") by { assert e[0] == '/'; }
    assert e[1..] == endpoint;
  }

  /** Resolving a resolved URL again changes nothing when the base is absolute. */
  lemma ResolveIdempotent(base: string, endpoint: string)
    requires IsAbsolute(base)
    ensures ResolveUrl(base, ResolveUrl(base, endpoint)) == ResolveUrl(base, endpoint)
  {
    var url := ResolveUrl(base, endpoint);
    if !IsAbsolute(endpoint) {
      var rest := "/" + DropLeading(endpoint, '/');
      assert url == base + rest;
      AbsoluteExtend(base, rest);
    }
    assert IsAbsolute(url);
  }

  /** Anything appended to an absolute URL leaves it absolute. */
  lemma AbsoluteExtend(s: string, t: string)
    requires IsAbsolute(s)
    ensures IsAbsolute(s + t)
  {
    if StartsWith(s, "http://") {
      StartsWithExtend(s, "http://", t);
    } else {
      StartsWithExtend(s, "https://", t);
    }
  }

  function ActionImageEndpoint(submissionId: Value, filename: Scalar): string {
    FormsPath + "address_problem/submissions/" + ValueText(submissionId) + "/attachments/" + ScalarText(filename)
  }

  /** The attachment URL path of a reported problem's image. */
  function ProblemImageEndpoint(submissionId: Value, filename: Scalar): string {
    FormsPath + "report_problem/submissions/" + ValueText(submissionId) + "/attachments/" + ScalarText(filename)
  }

  /** Both attachment paths are relative and start with no slash, so
      `download_image` fetches them from under the server's base URL, path
      unchanged. */
  lemma AttachmentsUnderBase(submissionId: Value, filename: Scalar)
    ensures ResolveUrl(BaseUrl, ActionImageEndpoint(submissionId, filename)) == BaseUrl + "/" + ActionImageEndpoint(submissionId, filename)
    ensures ResolveUrl(BaseUrl, ProblemImageEndpoint(submissionId, filename)) == BaseUrl + "/" + ProblemImageEndpoint(submissionId, filename)
  {
    var a, b := ActionImageEndpoint(submissionId, filename), ProblemImageEndpoint(submissionId, filename);
    assert FormsPath[0] == 'v';
    assert a[0] == FormsPath[0] && b[0] == FormsPath[0];
    RelativeUnderBase(a);
    RelativeUnderBase(b);
  }

  /** A path starting with 'v' goes under the base as it is. */
  lemma RelativeUnderBase(endpoint: string)
    requires endpoint != [] && endpoint[0] == 'v'
    ensures ResolveUrl(BaseUrl, endpoint) == BaseUrl + "/" + endpoint
  {
    assert !StartsWith(endpoint, "http://") by { assert "http://"[0] == 'h'; }
    assert !StartsWith(endpoint, "https://") by { assert "https://"[0] == 'h'; }
  }

  // ---------------------------------------------------------------------------
  // Field normalisation.

  /** `_format_date` applied to a leaf: None, "" and 0 give the sentinel,
      text is normalised, and any other number has no `rstrip`. */
  function FormatField(x: Scalar): (r: Result<string>)
    ensures r.Raised? <==> x.Int? && x.i != 0
    ensures r.Raised? ==> r.cause == AttributeError
    ensures !ScalarTruthy(x) ==> r == Ok(Epoch)
    ensures x.Text? ==> r == Ok(FormatDate(Some(x.s)))
    ensures r.Ok? ==> Canonical(r.value)
  {
    match x
    case Null => EpochCanonical(); Ok(Epoch)
    case Text(s) => FormatDateCanonical(Some(s)); Ok(FormatDate(Some(s)))
    case Int(i) => if i == 0 then EpochCanonical(); Ok(Epoch) else Raised(AttributeError)
  }

  /** The first two white-space separated tokens as numbers: both or neither. */
  function Coordinates(tokens: seq<string>, parseFloat: string -> Option<real>): (g: (Option<real>, Option<real>))
    ensures g.0.Some? <==> g.1.Some?
    ensures g.0.Some? <==> |tokens| >= 2 && parseFloat(tokens[0]).Some? && parseFloat(tokens[1]).Some?
    ensures g.0.Some? ==> g == (parseFloat(tokens[0]), parseFloat(tokens[1]))
  {
    if |tokens| >= 2 && parseFloat(tokens[0]).Some? && parseFloat(tokens[1]).Some?
    then (parseFloat(tokens[0]), parseFloat(tokens[1]))
    else (None, None)
  }

  /** Tokens after the second are ignored. */
  lemma CoordinatesIgnoreRest(tokens: seq<string>, rest: seq<string>, parseFloat: string -> Option<real>)
    requires |tokens| >= 2
    ensures Coordinates(tokens + rest, parseFloat) == Coordinates(tokens[..2], parseFloat)
  {
    assert (tokens + rest)[0] == tokens[..2][0] && (tokens + rest)[1] == tokens[..2][1];
  }

  /** `entity.get('geometry', '').split()` then the coordinates: only text can
      be split. */
  function Geometry(e: Record, parseFloat: string -> Option<real>): (r: Result<(Option<real>, Option<real>)>)
    ensures r.Raised? <==> "geometry" in e && !(e["geometry"].Leaf? && e["geometry"].scalar.Text?)
    ensures r.Raised? ==> r.cause == AttributeError
    ensures "geometry" !in e ==> r == Ok((None, None))
    ensures r.Ok? ==> (r.value.0.Some? <==> r.value.1.Some?)
  {
    match GetOr(e, "geometry", Leaf(Text("")))
    case Leaf(Text(s)) =>
      assert "geometry" !in e ==> Split(s) == [] by {
        if "geometry" !in e { assert s == ""; }
      }
      Ok(Coordinates(Split(s), parseFloat))
    case _ => Raised(AttributeError)
  }

  /** The dictionary `process_entities` builds for an entity, before the
      geometry is parsed. Every default applies only to an absent key. */
  function IssueOf(e: Record): (r: Result<Issue>)
    ensures r.Raised? ==> r.cause == AttributeError
    ensures "__system" !in e ==> r.Ok? && r.value.createdAt == Epoch && r.value.updatedAt == Epoch
    ensures r.Ok? ==> r.value.id == Get(e, "__id") && r.value.latitude == None && r.value.longitude == None
    ensures r.Ok? ==> Canonical(r.value.createdAt) && Canonical(r.value.updatedAt)
  {
    match GroupOf(e, "__system")
    case Raised(x) => Raised(x)
    case Ok(sys) =>
      match FormatField(Field(sys, "createdAt"))
      case Raised(x) => Raised(x)
      case Ok(created) =>
        match FormatField(Field(sys, "updatedAt"))
        case Raised(x) => Raised(x)
        case Ok(updated) =>
          Ok(Issue(
            Get(e, "__id"),
            GetOr(e, "label", Leaf(Text("Untitled Issue"))),
            GetOr(e, "type", Leaf(Text("Unknown"))),
            GetOr(e, "description", Leaf(Text("No Description"))),
            GetOr(e, "severity", Leaf(Text("Not Specified"))),
            GetOr(e, "status", Leaf(Text("new"))),
            GetOr(e, "timeframe", Leaf(Text("No Timeframe"))),
            GetOr(e, "action_taken", Leaf(Text("No Action Taken"))),
            GetOr(e, "costusd", Leaf(Text("0"))),
            GetOr(e, "savedusd", Leaf(Text("N/A"))),
            GetOr(e, "recommended_contact", Leaf(Text("No Contact"))),
            created,
            updated,
            GetOr(sys, "creatorId", Text("Unknown")),
            GetOr(sys, "creatorName", Text("Unknown")),
            ScalarText(GetOr(sys, "version", Text("No Version"))),
            None,
            None))
  }

  /** The fixed defaults, used only for absent keys: a key present with null
      keeps its null. */
  lemma IssueDefaults(e: Record)
    requires IssueOf(e).Ok?
    ensures var i := IssueOf(e).value;
      && ("label" !in e ==> i.issueLabel == Leaf(Text("Untitled Issue")))
      && ("type" !in e ==> i.issueType == Leaf(Text("Unknown")))
      && ("description" !in e ==> i.description == Leaf(Text("No Description")))
      && ("severity" !in e ==> i.severity == Leaf(Text("Not Specified")))
      && ("status" !in e ==> i.status == Leaf(Text("new")))
      && ("timeframe" !in e ==> i.timeframe == Leaf(Text("No Timeframe")))
      && ("action_taken" !in e ==> i.actionTaken == Leaf(Text("No Action Taken")))
      && ("costusd" !in e ==> i.costUsd == Leaf(Text("0")))
      && ("savedusd" !in e ==> i.savedUsd == Leaf(Text("N/A")))
      && ("recommended_contact" !in e ==> i.recommendedContact == Leaf(Text("No Contact")))
      && ("__system" !in e ==> i.creatorId == Text("Unknown") && i.creatorName == Text("Unknown") && i.version == "No Version")
  {
  }

  /** A key present in the entity is copied as it is, null included. */
  lemma IssueKeepsPresent(e: Record)
    requires IssueOf(e).Ok?
    ensures var i := IssueOf(e).value;
      && ("label" in e ==> i.issueLabel == e["label"])
      && ("type" in e ==> i.issueType == e["type"])
      && ("description" in e ==> i.description == e["description"])
      && ("severity" in e ==> i.severity == e["severity"])
      && ("status" in e ==> i.status == e["status"])
      && ("timeframe" in e ==> i.timeframe == e["timeframe"])
      && ("action_taken" in e ==> i.actionTaken == e["action_taken"])
      && ("costusd" in e ==> i.costUsd == e["costusd"])
      && ("savedusd" in e ==> i.savedUsd == e["savedusd"])
      && ("recommended_contact" in e ==> i.recommendedContact == e["recommended_contact"])
  {
  }

  /** The `__system` fields: a present one is copied, null included, and an
      absent one takes its default. */
  lemma IssueSystemFields(e: Record)
    requires IssueOf(e).Ok?
    requires "__system" in e && e["__system"].Group?
    ensures var i, sys := IssueOf(e).value, e["__system"].fields;
      && ("creatorId" in sys ==> i.creatorId == sys["creatorId"])
      && ("creatorName" in sys ==> i.creatorName == sys["creatorName"])
      && ("version" in sys ==> i.version == ScalarText(sys["version"]))
      && ("creatorId" !in sys ==> i.creatorId == Text("Unknown"))
      && ("creatorName" !in sys ==> i.creatorName == Text("Unknown"))
      && ("version" !in sys ==> i.version == "No Version")
  {
  }

  /** The finished dictionary for an entity with a truthy id: the id must be
      hashable (TypeError otherwise) and the geometry text parsed. */
  function EntityIssue(e: Record, parseFloat: string -> Option<real>): (r: Result<Issue>)
    ensures r.Ok? ==> r.value.id == Get(e, "__id") && r.value.id.Leaf?
    ensures r.Ok? ==> (r.value.latitude.Some? <==> r.value.longitude.Some?)
    ensures r.Ok? ==> Canonical(r.value.createdAt) && Canonical(r.value.updatedAt)
    ensures Get(e, "__id").Group? ==> r.Raised?
  {
    match IssueOf(e)
    case Raised(x) => Raised(x)
    case Ok(issue) =>
      if Get(e, "__id").Group? then Raised(TypeError)
      else match Geometry(e, parseFloat)
        case Raised(x) => Raised(x)
        case Ok(g) => Ok(issue.(latitude := g.0, longitude := g.1))
  }

  /** One entity's contribution to `process_entities`: nothing when it lacks
      a truthy `__id`; otherwise its finished dictionary under that id. */
  function EntityEntry(e: Record, parseFloat: string -> Option<real>): (r: Result<Option<(Scalar, Issue)>>)
    ensures r == Ok(None) <==> !Truthy(Get(e, "__id"))
    ensures r.Ok? && r.value.Some? ==>
      && Get(e, "__id") == Leaf(r.value.value.0) && ScalarTruthy(r.value.value.0)
      && EntityIssue(e, parseFloat) == Ok(r.value.value.1)
    ensures r.Raised? ==> EntityIssue(e, parseFloat) == Raised(r.cause)
  {
    var id := Get(e, "__id");
    if !Truthy(id) then Ok(None)
    else match EntityIssue(e, parseFloat)
      case Raised(x) => Raised(x)
      case Ok(issue) => Ok(Some((id.scalar, issue)))
  }

  /** The loop body of `process_entities`, as a step of a batch. */
  function EntityStep(parseFloat: string -> Option<real>): Record -> Result<Option<(Scalar, Issue)>> {
    e => EntityEntry(e, parseFloat)
  }

  /** `process_entities` over a list of entities: each entry under its id, a
      later entity with the same id replacing the earlier one's dictionary
      but keeping its position; an exception aborts the whole batch. */
  function Entities(es: seq<Record>, parseFloat: string -> Option<real>): Result<Dict<Scalar, Issue>> {
    Collect(es, EntityStep(parseFloat))
  }

  /** The result is a well-formed dictionary: no key listed twice, and the
      listed keys are exactly the entries. */
  lemma EntitiesValid(es: seq<Record>, parseFloat: string -> Option<real>)
    requires Entities(es, parseFloat).Ok?
    ensures Entities(es, parseFloat).value.Valid()
  {
    CollectValid(es, EntityStep(parseFloat));
  }

  /** Entity `i` of the batch carries the truthy id `k`. */
  predicate IdAt(es: seq<Record>, i: int, k: Scalar) {
    0 <= i < |es| && Get(es[i], "__id") == Leaf(k) && ScalarTruthy(k)
  }

  /** In a batch that succeeds, entity `i` stores under `k` exactly when it
      carries the truthy id `k`. */
  lemma EntityKeyAt(es: seq<Record>, parseFloat: string -> Option<real>)
    requires Entities(es, parseFloat).Ok?
    ensures forall i, k :: KeyAt(es, EntityStep(parseFloat), i, k) <==> IdAt(es, i, k)
  {
    var step := EntityStep(parseFloat);
    CollectStepsOk(es, step);
    forall i, k ensures KeyAt(es, step, i, k) <==> IdAt(es, i, k) {
      if 0 <= i < |es| {
        var r := EntityEntry(es[i], parseFloat);
        assert step(es[i]) == r;
        if Truthy(Get(es[i], "__id")) {
          assert r.Ok? && r.value.Some?;
        }
      }
    }
  }

  /** The keys are exactly the truthy ids in the batch: entities without an id
      yield nothing. */
  lemma EntitiesKeys(es: seq<Record>, parseFloat: string -> Option<real>)
    requires Entities(es, parseFloat).Ok?
    ensures forall k :: k in Entities(es, parseFloat).value.entries <==> exists i :: IdAt(es, i, k)
  {
    CollectKeys(es, EntityStep(parseFloat));
    EntityKeyAt(es, parseFloat);
  }

  /** Every entry sits under a truthy id that is its own `id`, is the
      dictionary of some entity with that id, and has both coordinates or
      neither. */
  lemma EntitiesEntries(es: seq<Record>, parseFloat: string -> Option<real>)
    requires Entities(es, parseFloat).Ok?
    ensures var d := Entities(es, parseFloat).value;
      forall k :: k in d.entries ==>
        && ScalarTruthy(k) && d.entries[k].id == Leaf(k)
        && (d.entries[k].latitude.Some? <==> d.entries[k].longitude.Some?)
        && exists i :: IdAt(es, i, k) && EntityIssue(es[i], parseFloat) == Ok(d.entries[k])
  {
    var step := EntityStep(parseFloat);
    var d := Entities(es, parseFloat).value;
    CollectFrom(es, step);
    forall k | k in d.entries
      ensures ScalarTruthy(k) && d.entries[k].id == Leaf(k)
      ensures d.entries[k].latitude.Some? <==> d.entries[k].longitude.Some?
      ensures exists i :: IdAt(es, i, k) && EntityIssue(es[i], parseFloat) == Ok(d.entries[k])
    {
      var i :| 0 <= i < |es| && step(es[i]) == Ok(Some((k, d.entries[k])));
      assert EntityEntry(es[i], parseFloat) == Ok(Some((k, d.entries[k])));
      assert IdAt(es, i, k);
    }
  }

  /** When an id occurs more than once, the last entity with it supplies the
      whole entry. */
  lemma EntitiesLastWins(es: seq<Record>, j: nat, parseFloat: string -> Option<real>)
    requires Entities(es, parseFloat).Ok?
    requires j < |es| && Truthy(Get(es[j], "__id"))
    requires forall i :: j < i < |es| ==> Get(es[i], "__id") != Get(es[j], "__id")
    ensures Get(es[j], "__id").Leaf? && EntityIssue(es[j], parseFloat).Ok?
    ensures Get(es[j], "__id").scalar in Entities(es, parseFloat).value.entries
    ensures Entities(es, parseFloat).value.entries[Get(es[j], "__id").scalar] == EntityIssue(es[j], parseFloat).value
  {
    var step := EntityStep(parseFloat);
    CollectStepsOk(es, step);
    var r := EntityEntry(es[j], parseFloat);
    assert step(es[j]) == r;
    var k := r.value.value.0;
    EntityKeyAt(es, parseFloat);
    assert IdAt(es, j, k);
    CollectLastWins(es, j, k, step);
  }

  // ---------------------------------------------------------------------------
  // Responses.

  /** The dictionary `process_responses` builds for a submission. Its
      `action_image` is the downloaded attachment when the action names one
      and the download succeeds, None otherwise. */
  function ResponseOf(sub: Record, download: string -> Option<Bytes>): (r: Result<Response>)
    ensures r.Raised? ==> r.cause == AttributeError
    ensures r.Ok? ==> r.value.key == Get(sub, "__id") && Canonical(r.value.submissionDate)
    ensures r.Ok? ==> GroupOf(sub, "action").Ok? && GroupOf(sub, "entity").Ok?
    ensures r.Ok? ==> r.value.entityProblem == Field(GroupOf(sub, "entity").value, "problem")
    ensures r.Ok? ==> GroupOf(sub, "__system").Ok? && r.value.submitterName == Field(GroupOf(sub, "__system").value, "submitterName")
    ensures r.Ok? ==>
      var action := GroupOf(sub, "action").value;
      && r.value.actionRole == Field(action, "role")
      && r.value.actionStatus == Field(action, "status")
      && r.value.actionActionTaken == Field(action, "action_taken")
      && r.value.actionResolutionCostUsd == Field(action, "resolution_costusd")
      && r.value.actionResolutionTimeframe == Field(action, "resolution_timeframe")
      && r.value.actionRecommendedContact == Field(action, "recommended_contact")
    ensures r.Ok? ==>
      var filename := Field(GroupOf(sub, "action").value, "image");
      var url := ResolveUrl(BaseUrl, ActionImageEndpoint(Get(sub, "__id"), filename));
      && (r.value.actionImage.Some? <==> ScalarTruthy(filename) && download(url).Some?)
      && (r.value.actionImage.Some? ==> r.value.actionImage == download(url))
  {
    match GroupOf(sub, "__system")
    case Raised(x) => Raised(x)
    case Ok(sys) =>
      match FormatField(Field(sys, "submissionDate"))
      case Raised(x) => Raised(x)
      case Ok(date) =>
        match GroupOf(sub, "entity")
        case Raised(x) => Raised(x)
        case Ok(entity) =>
          match GroupOf(sub, "action")
          case Raised(x) => Raised(x)
          case Ok(action) =>
            var filename := Field(action, "image");
            var image :=
              if ScalarTruthy(filename)
              then download(ResolveUrl(BaseUrl, ActionImageEndpoint(Get(sub, "__id"), filename)))
              else None;
            Ok(Response(
              date, Get(sub, "__id"), Field(sys, "submitterName"), Field(entity, "problem"),
              Field(action, "role"), Field(action, "status"), Field(action, "action_taken"),
              Field(action, "resolution_costusd"), Field(action, "resolution_timeframe"),
              Field(action, "recommended_contact"), image))
  }

  /** The loop body of `process_responses`, as a step of a batch. */
  function ResponseStep(download: string -> Option<Bytes>): Record -> Result<Response> {
    sub => ResponseOf(sub, download)
  }

  /** `process_responses`: one response per submission, in order; an
      exception aborts the list. */
  function Responses(subs: seq<Record>, download: string -> Option<Bytes>): Result<seq<Response>> {
    MapAll(subs, ResponseStep(download))
  }

  /** A successful run yields one response per submission, in order, each
      keyed by its submission's id; a failed one fails with an
      AttributeError raised by some submission. */
  lemma ResponsesEach(subs: seq<Record>, download: string -> Option<Bytes>)
    ensures var r := Responses(subs, download);
      r.Ok? ==> |r.value| == |subs| && forall i :: 0 <= i < |subs| ==>
        ResponseOf(subs[i], download) == Ok(r.value[i]) && r.value[i].key == Get(subs[i], "__id")
    ensures var r := Responses(subs, download);
      r.Raised? ==> r.cause == AttributeError && exists i :: 0 <= i < |subs| && ResponseOf(subs[i], download).Raised?
  {
    var step := ResponseStep(download);
    MapAllEach(subs, step);
    var r := Responses(subs, download);
    if r.Ok? {
      forall i | 0 <= i < |subs|
        ensures ResponseOf(subs[i], download) == Ok(r.value[i]) && r.value[i].key == Get(subs[i], "__id")
      {
        assert step(subs[i]) == ResponseOf(subs[i], download);
      }
    } else {
      var i :| 0 <= i < |subs| && step(subs[i]) == Raised(r.cause);
      assert ResponseOf(subs[i], download) == Raised(r.cause);
    }
  }

  // ---------------------------------------------------------------------------
  // Images.

  /** What one submission contributes to `process_images`: its entry under
      its submission id when the problem names an image, the download
      succeeds and the id is hashable; nothing otherwise. A `problem` that is
      not an object raises. */
  function ImageCandidate(sub: Record, download: string -> Option<Bytes>): (r: Result<Option<(Scalar, ImageEntry)>>)
    ensures r.Raised? <==> GroupOf(sub, "problem").Raised?
    ensures r.Raised? ==> r.cause == AttributeError
    ensures r.Ok? && r.value.Some? ==>
      var p := GroupOf(sub, "problem").value;
      var (key, entry) := r.value.value;
      && key == entry.submissionId
      && ScalarTruthy(Field(p, "problem_image"))
      && Get(sub, "__id") == Leaf(key)
      && download(ResolveUrl(BaseUrl, ProblemImageEndpoint(Get(sub, "__id"), Field(p, "problem_image")))) == Some(entry.imageData)
      && entry.title == GetOr(p, "problem_title", Text("Untitled Image"))
      && entry.imageLabel == Field(p, "problem_label")
    ensures r.Ok? && r.value.None? ==>
      var p := GroupOf(sub, "problem").value;
      || !ScalarTruthy(Field(p, "problem_image"))
      || download(ResolveUrl(BaseUrl, ProblemImageEndpoint(Get(sub, "__id"), Field(p, "problem_image")))).None?
      || Get(sub, "__id").Group?
  {
    match GroupOf(sub, "problem")
    case Raised(x) => Raised(x)
    case Ok(p) =>
      var title := GetOr(p, "problem_title", Text("Untitled Image"));
      var filename := Field(p, "problem_image");
      if !ScalarTruthy(filename) then Ok(None)
      else
        var id := Get(sub, "__id");
        match download(ResolveUrl(BaseUrl, ProblemImageEndpoint(id, filename)))
        case None => Ok(None)
        case Some(data) =>
          if id.Group? then Ok(None)
          else Ok(Some((id.scalar, ImageEntry(id.scalar, title, Field(p, "problem_label"), data))))
  }

  /** The loop body of `process_images`, as a step of a batch. */
  function ImageStep(download: string -> Option<Bytes>): Record -> Result<Option<(Scalar, ImageEntry)>> {
    sub => ImageCandidate(sub, download)
  }

  /** `process_images` over a list of submissions: entries keyed by
      submission id, a later one replacing an earlier one in place. */
  function Images(subs: seq<Record>, download: string -> Option<Bytes>): Result<Dict<Scalar, ImageEntry>> {
    Collect(subs, ImageStep(download))
  }

  /** The result is a well-formed dictionary. */
  lemma ImagesValid(subs: seq<Record>, download: string -> Option<Bytes>)
    requires Images(subs, download).Ok?
    ensures Images(subs, download).value.Valid()
  {
    CollectValid(subs, ImageStep(download));
  }

  /** Every entry comes from a submission that named an image whose download
      succeeded, and sits under that submission's id. */
  lemma ImagesFromCandidates(subs: seq<Record>, download: string -> Option<Bytes>)
    requires Images(subs, download).Ok?
    ensures var d := Images(subs, download).value;
      forall k :: k in d.entries ==>
        d.entries[k].submissionId == k &&
        exists i :: 0 <= i < |subs| && Get(subs[i], "__id") == Leaf(k) && ImageCandidate(subs[i], download) == Ok(Some((k, d.entries[k])))
  {
    var step := ImageStep(download);
    var d := Images(subs, download).value;
    CollectFrom(subs, step);
    forall k | k in d.entries
      ensures d.entries[k].submissionId == k
      ensures exists i :: 0 <= i < |subs| && Get(subs[i], "__id") == Leaf(k) && ImageCandidate(subs[i], download) == Ok(Some((k, d.entries[k])))
    {
      var i :| 0 <= i < |subs| && step(subs[i]) == Ok(Some((k, d.entries[k])));
      assert ImageCandidate(subs[i], download) == Ok(Some((k, d.entries[k])));
    }
  }

  /** A submission that contributes nothing (no image named, a failed
      download) leaves the result exactly as the others make it. */
  lemma SkippedSubmission(subs: seq<Record>, sub: Record, download: string -> Option<Bytes>)
    requires ImageCandidate(sub, download) == Ok(None)
    ensures Images(subs + [sub], download) == Images(subs, download)
  {
    var xs := subs + [sub];
    assert xs[..|xs| - 1] == subs;
    assert ImageStep(download)(xs[|xs| - 1]) == Ok(None);
  }

  // ---------------------------------------------------------------------------
  // The normalisers as loops.

  /** `process_entities`. */
  method ProcessEntities(es: seq<Record>, parseFloat: string -> Option<real>) returns (r: Result<Dict<Scalar, Issue>>)
    ensures r == Entities(es, parseFloat)
  {
    ghost var step := EntityStep(parseFloat);
    var processed: Dict<Scalar, Issue> := EmptyDict();
    var i := 0;
    while i < |es|
      invariant 0 <= i <= |es|
      invariant Collect(es[..i], step) == Ok(processed)
    {
      CollectNext(es, i, step);
      var entity := es[i];
      var issueId := Get(entity, "__id");
      assert step(entity) == EntityEntry(entity, parseFloat);
      if Truthy(issueId) {
        var issue := EntityIssue(entity, parseFloat);
        if issue.Raised? {
          CollectRaisedPrefix(es, i + 1, step);
          return Raised(issue.cause);
        }
        processed := processed.Put(issueId.scalar, issue.value);
      }
      i := i + 1;
    }
    assert es[..i] == es;
    return Ok(processed);
  }

  /** `process_responses`. */
  method ProcessResponses(subs: seq<Record>, download: string -> Option<Bytes>) returns (r: Result<seq<Response>>)
    ensures r == Responses(subs, download)
  {
    ghost var step := ResponseStep(download);
    var processed: seq<Response> := [];
    var i := 0;
    while i < |subs|
      invariant 0 <= i <= |subs|
      invariant MapAll(subs[..i], step) == Ok(processed)
    {
      MapAllNext(subs, i, step);
      var response := ResponseOf(subs[i], download);
      assert step(subs[i]) == response;
      if response.Raised? {
        MapAllRaisedPrefix(subs, i + 1, step);
        return Raised(response.cause);
      }
      processed := processed + [response.value];
      i := i + 1;
    }
    assert subs[..i] == subs;
    return Ok(processed);
  }

  /** `process_images`. */
  method ProcessImages(subs: seq<Record>, download: string -> Option<Bytes>) returns (r: Result<Dict<Scalar, ImageEntry>>)
    ensures r == Images(subs, download)
  {
    ghost var step := ImageStep(download);
    var processed: Dict<Scalar, ImageEntry> := EmptyDict();
    var i := 0;
    while i < |subs|
      invariant 0 <= i <= |subs|
      invariant Collect(subs[..i], step) == Ok(processed)
    {
      CollectNext(subs, i, step);
      var candidate := ImageCandidate(subs[i], download);
      assert step(subs[i]) == candidate;
      if candidate.Raised? {
        CollectRaisedPrefix(subs, i + 1, step);
        return Raised(candidate.cause);
      }
      if candidate.value.Some? {
        var (key, entry) := candidate.value.value;
        processed := processed.Put(key, entry);
      }
      i := i + 1;
    }
    assert subs[..i] == subs;
    return Ok(processed);
  }

  // ---------------------------------------------------------------------------
  // The save loops. Each write runs under the fault planned for its position.

  /** The issue rows a run of `update_issues` writes, in order. */
  function IssueRowsWritten(issues: seq<Issue>, faults: seq<Fault>): seq<IssueRow>
    decreases |issues|
  {
    if issues == [] then []
    else
      var n := |issues| - 1;
      IssueRowsWritten(issues[..n], faults)
        + (if WriteOutcome(FaultAt(faults, n), IssueBinding(issues[n])) == Written then [IssueRowOf(issues[n]).value] else [])
  }

  lemma IssueRowsStep(issues: seq<Issue>, faults: seq<Fault>, i: nat)
    requires i < |issues|
    ensures IssueRowsWritten(issues[..i + 1], faults) == IssueRowsWritten(issues[..i], faults)
      + (if WriteOutcome(FaultAt(faults, i), IssueBinding(issues[i])) == Written then [IssueRowOf(issues[i]).value] else [])
    ensures SavedIssues(issues[..i + 1], faults) == SavedIssues(issues[..i], faults)
      + (if FaultAt(faults, i) != ConnectFails && IssueBinding(issues[i]) != TooWide then [issues[i]] else [])
  {
    assert issues[..i + 1][..i] == issues[..i];
  }

  /** The list `update_issues` returns: every issue whose write did not
      raise, either on connecting or on binding a too-wide integer. */
  function SavedIssues(issues: seq<Issue>, faults: seq<Fault>): seq<Issue>
    decreases |issues|
  {
    if issues == [] then []
    else
      var n := |issues| - 1;
      SavedIssues(issues[..n], faults) + (if FaultAt(faults, n) != ConnectFails && IssueBinding(issues[n]) != TooWide then [issues[n]] else [])
  }

  /** The write of issue `i` did not raise. */
  predicate SaveSurvives(issues: seq<Issue>, faults: seq<Fault>, i: int, x: Issue) {
    0 <= i < |issues| && issues[i] == x && FaultAt(faults, i) != ConnectFails && IssueBinding(issues[i]) != TooWide
  }

  /** The returned list holds exactly the issues whose write did not raise,
      including those whose statement failed and was swallowed. */
  lemma {:induction false} SavedIssuesExactly(issues: seq<Issue>, faults: seq<Fault>)
    ensures forall x :: x in SavedIssues(issues, faults) <==> exists i :: SaveSurvives(issues, faults, i, x)
    decreases |issues|
  {
    if issues != [] {
      var n := |issues| - 1;
      var p := issues[..n];
      SavedIssuesExactly(p, faults);
      forall x | x in SavedIssues(issues, faults) ensures exists i :: SaveSurvives(issues, faults, i, x) {
        if x in SavedIssues(p, faults) {
          var i :| SaveSurvives(p, faults, i, x);
          assert SaveSurvives(issues, faults, i, x);
        } else {
          assert SaveSurvives(issues, faults, n, x);
        }
      }
      forall x | exists i :: SaveSurvives(issues, faults, i, x) ensures x in SavedIssues(issues, faults) {
        var i :| SaveSurvives(issues, faults, i, x);
        if i < n {
          assert SaveSurvives(p, faults, i, x);
        } else {
          assert i == n && issues[n] == x && FaultAt(faults, n) != ConnectFails && IssueBinding(issues[n]) != TooWide;
        }
      }
    }
  }

  /** With no connection failure and no integer too wide to bind, every
      issue is reported, in order. */
  lemma {:induction false} SavedIssuesAll(issues: seq<Issue>, faults: seq<Fault>)
    requires forall i :: 0 <= i < |issues| ==> FaultAt(faults, i) != ConnectFails && IssueBinding(issues[i]) != TooWide
    ensures SavedIssues(issues, faults) == issues
    decreases |issues|
  {
    if issues != [] {
      var n := |issues| - 1;
      SavedIssuesAll(issues[..n], faults);
      assert issues == issues[..n] + [issues[n]];
    }
  }

  /** `update_issues`. */
  method UpdateIssues(store: Store, processed: Dict<Scalar, Issue>, faults: seq<Fault>) returns (saved: seq<Issue>)
    requires store.Valid() && processed.Valid()
    modifies store
    ensures store.Valid()
    ensures saved == SavedIssues(processed.Values(), faults)
    ensures store.issues == UpsertAllAsDeclared(old(store.issues), IssueRowsWritten(processed.Values(), faults), IssueKey)
    ensures store.images == old(store.images) && store.responses == old(store.responses)
  {
    var issues := processed.Values();
    saved := [];
    var i := 0;
    while i < |issues|
      invariant 0 <= i <= |issues|
      invariant store.Valid()
      invariant saved == SavedIssues(issues[..i], faults)
      invariant store.issues == UpsertAllAsDeclared(old(store.issues), IssueRowsWritten(issues[..i], faults), IssueKey)
      invariant store.images == old(store.images) && store.responses == old(store.responses)
    {
      var issue := issues[i];
      IssueRowsStep(issues, faults, i);
      var outcome := store.InsertOrUpdateIssue(issue, FaultAt(faults, i));
      if outcome != Propagated {
        saved := saved + [issue];
      }
      if outcome == Written {
        UpsertAllAsDeclaredSnoc(old(store.issues), IssueRowsWritten(issues[..i], faults), IssueRowOf(issue).value, IssueKey);
      } else {
        assert IssueRowsWritten(issues[..i], faults) + [] == IssueRowsWritten(issues[..i], faults);
      }
      i := i + 1;
    }
    assert issues[..i] == issues;
  }

  /** The image rows a run of `save_images` writes, in order. */
  function ImageRowsWritten(entries: seq<ImageEntry>, faults: seq<Fault>): seq<ImageRow>
    decreases |entries|
  {
    if entries == [] then []
    else
      var n := |entries| - 1;
      var e := entries[n];
      ImageRowsWritten(entries[..n], faults)
        + (if WriteOutcome(FaultAt(faults, n), ImageBinding(e.submissionId, e.title, e.imageLabel)) == Written then [ImageRowOf(e.submissionId, e.title, e.imageLabel, e.imageData)] else [])
  }

  lemma ImageRowsStep(entries: seq<ImageEntry>, faults: seq<Fault>, i: nat)
    requires i < |entries|
    ensures var e := entries[i];
      ImageRowsWritten(entries[..i + 1], faults) == ImageRowsWritten(entries[..i], faults)
        + (if WriteOutcome(FaultAt(faults, i), ImageBinding(e.submissionId, e.title, e.imageLabel)) == Written then [ImageRowOf(e.submissionId, e.title, e.imageLabel, e.imageData)] else [])
  {
    assert entries[..i + 1][..i] == entries[..i];
  }

  /** `save_images`: a failing write skips that image only. */
  method SaveImages(store: Store, processed: Dict<Scalar, ImageEntry>, faults: seq<Fault>)
    requires store.Valid() && processed.Valid()
    modifies store
    ensures store.Valid()
    ensures store.images == InsertAllAsDeclared(old(store.images), ImageRowsWritten(processed.Values(), faults), ImageKey)
    ensures store.issues == old(store.issues) && store.responses == old(store.responses)
  {
    var entries := processed.Values();
    var i := 0;
    while i < |entries|
      invariant 0 <= i <= |entries|
      invariant store.Valid()
      invariant store.images == InsertAllAsDeclared(old(store.images), ImageRowsWritten(entries[..i], faults), ImageKey)
      invariant store.issues == old(store.issues) && store.responses == old(store.responses)
    {
      var e := entries[i];
      ImageRowsStep(entries, faults, i);
      var outcome := store.InsertImage(e.submissionId, e.title, e.imageLabel, e.imageData, FaultAt(faults, i));
      if outcome == Written {
        InsertAllAsDeclaredSnoc(old(store.images), ImageRowsWritten(entries[..i], faults), ImageRowOf(e.submissionId, e.title, e.imageLabel, e.imageData), ImageKey);
      } else {
        assert ImageRowsWritten(entries[..i], faults) + [] == ImageRowsWritten(entries[..i], faults);
      }
      i := i + 1;
    }
    assert entries[..i] == entries;
  }

  /** The response rows a run of `save_responses` writes, in order. */
  function ResponseRowsWritten(responses: seq<Response>, faults: seq<Fault>): seq<ResponseRow>
    decreases |responses|
  {
    if responses == [] then []
    else
      var n := |responses| - 1;
      ResponseRowsWritten(responses[..n], faults)
        + (if WriteOutcome(FaultAt(faults, n), ResponseBinding(responses[n])) == Written then [ResponseRowOf(responses[n])] else [])
  }

  lemma ResponseRowsStep(responses: seq<Response>, faults: seq<Fault>, i: nat)
    requires i < |responses|
    ensures ResponseRowsWritten(responses[..i + 1], faults) == ResponseRowsWritten(responses[..i], faults)
      + (if WriteOutcome(FaultAt(faults, i), ResponseBinding(responses[i])) == Written then [ResponseRowOf(responses[i])] else [])
  {
    assert responses[..i + 1][..i] == responses[..i];
  }

  /** `save_responses`: a failing write skips that response only. */
  method SaveResponses(store: Store, processed: seq<Response>, faults: seq<Fault>)
    requires store.Valid()
    modifies store
    ensures store.Valid()
    ensures store.responses == UpsertAllAsDeclared(old(store.responses), ResponseRowsWritten(processed, faults), ResponseKey)
    ensures store.issues == old(store.issues) && store.images == old(store.images)
  {
    var i := 0;
    while i < |processed|
      invariant 0 <= i <= |processed|
      invariant store.Valid()
      invariant store.responses == UpsertAllAsDeclared(old(store.responses), ResponseRowsWritten(processed[..i], faults), ResponseKey)
      invariant store.issues == old(store.issues) && store.images == old(store.images)
    {
      var response := processed[i];
      ResponseRowsStep(processed, faults, i);
      var outcome := store.InsertResponse(response, FaultAt(faults, i));
      if outcome == Written {
        UpsertAllAsDeclaredSnoc(old(store.responses), ResponseRowsWritten(processed[..i], faults), ResponseRowOf(response), ResponseKey);
      } else {
        assert ResponseRowsWritten(processed[..i], faults) + [] == ResponseRowsWritten(processed[..i], faults);
      }
      i := i + 1;
    }
    assert processed[..i] == processed;
  }

  // ---------------------------------------------------------------------------
  // A sync run: `update_existing_issues_and_responses`.

  /** Everything outside the program that a sync run depends on. */
  datatype Env = Env(
    fetch: string -> Option<seq<Record>>,
    download: string -> Option<Bytes>,
    parseFloat: string -> Option<real>,
    issueFaults: seq<Fault>,
    imageFaults: seq<Fault>,
    responseFaults: seq<Fault>)

  /** The three tables at one moment. */
  datatype Snapshot = Snapshot(issues: seq<IssueRow>, images: seq<ImageRow>, responses: seq<ResponseRow>)

  /** What the run returns: `{'issues': ..., 'images': ...}`. */
  datatype SyncReport = SyncReport(issues: seq<Issue>, images: Dict<Scalar, ImageEntry>)

  /** The entities `get_new_issues` hands to `update_issues`: none when the
      listing cannot be fetched or processed. */
  function IssueDict(env: Env): (d: Dict<Scalar, Issue>)
    ensures d.Valid()
  {
    match env.fetch(ResolveUrl(BaseUrl, EntitiesEndpoint))
    case None => EmptyDict()
    case Some(es) =>
      match Entities(es, env.parseFloat)
      case Raised(_) => EmptyDict()
      case Ok(d) => EntitiesValid(es, env.parseFloat); d
  }

  /** The issues `update_issues` writes, in the order it writes them. */
  function IssueBatch(env: Env): seq<Issue> {
    IssueDict(env).Values()
  }

  /** The images `get_images` saves and returns. */
  function ImageBatch(env: Env): (d: Dict<Scalar, ImageEntry>)
    ensures d.Valid()
  {
    match env.fetch(ResolveUrl(BaseUrl, ImagesEndpoint))
    case None => EmptyDict()
    case Some(subs) =>
      match Images(subs, env.download)
      case Raised(_) => EmptyDict()
      case Ok(d) => ImagesValid(subs, env.download); d
  }

  /** The responses `fetch_responses` saves. */
  function ResponseBatch(env: Env): seq<Response> {
    match env.fetch(ResolveUrl(BaseUrl, ResponsesEndpoint))
    case None => []
    case Some(subs) =>
      match Responses(subs, env.download)
      case Raised(_) => []
      case Ok(rs) => rs
  }

  /** The issue rows a sync run writes. */
  function IssueWrites(env: Env): seq<IssueRow> {
    IssueRowsWritten(IssueBatch(env), env.issueFaults)
  }

  /** The image rows a sync run writes. */
  function ImageWrites(env: Env): seq<ImageRow> {
    ImageRowsWritten(ImageBatch(env).Values(), env.imageFaults)
  }

  /** The response rows a sync run writes. */
  function ResponseWrites(env: Env): seq<ResponseRow> {
    ResponseRowsWritten(ResponseBatch(env), env.responseFaults)
  }

  /** The tables after a sync run, with the key columns as the schema
      declares them: a row with a NULL key is always added. */
  function SyncSpec(s: Snapshot, env: Env): (r: Snapshot)
    ensures NullKeyed(r.issues, IssueKey) == NullKeyed(s.issues, IssueKey)
    ensures NullKeyed(r.images, ImageKey) == NullKeyed(s.images, ImageKey) + NullKeyed(ImageWrites(env), ImageKey)
    ensures NullKeyed(r.responses, ResponseKey) == NullKeyed(s.responses, ResponseKey) + NullKeyed(ResponseWrites(env), ResponseKey)
  {
    IssueWritesKeyed(env);
    UpsertAllAsDeclaredNulls(s.issues, IssueWrites(env), IssueKey);
    InsertAllAsDeclaredNulls(s.images, ImageWrites(env), ImageKey);
    UpsertAllAsDeclaredNulls(s.responses, ResponseWrites(env), ResponseKey);
    Snapshot(
      UpsertAllAsDeclared(s.issues, IssueWrites(env), IssueKey),
      InsertAllAsDeclared(s.images, ImageWrites(env), ImageKey),
      UpsertAllAsDeclared(s.responses, ResponseWrites(env), ResponseKey))
  }

  /** The tables after a sync run if the key columns were NOT NULL: a row
      without a key is refused. */
  function CorrectedSyncSpec(s: Snapshot, env: Env): Snapshot {
    Snapshot(
      UpsertAll(s.issues, IssueWrites(env), IssueKey),
      InsertAll(s.images, ImageWrites(env), ImageKey),
      UpsertAll(s.responses, ResponseWrites(env), ResponseKey))
  }

  /** The entities a sync saves all carry a truthy, so non-null, id. */
  lemma IssueBatchIds(env: Env)
    ensures forall i :: 0 <= i < |IssueBatch(env)| ==> IssueBatch(env)[i].id.Leaf? && IssueBatch(env)[i].id.scalar != Null
  {
    var d := IssueDict(env);
    match env.fetch(ResolveUrl(BaseUrl, EntitiesEndpoint))
    case None =>
    case Some(es) =>
      match Entities(es, env.parseFloat)
      case Raised(_) =>
      case Ok(_) =>
        EntitiesEntries(es, env.parseFloat);
        forall i | 0 <= i < |d.keys| ensures d.Values()[i].id.Leaf? && d.Values()[i].id.scalar != Null {
          assert d.keys[i] in d.entries;
        }
  }

  /** Issues with non-null ids give rows with non-NULL keys. */
  lemma {:induction false} IssueRowsKeyed(issues: seq<Issue>, faults: seq<Fault>)
    requires forall i :: 0 <= i < |issues| ==> issues[i].id.Leaf? && issues[i].id.scalar != Null
    ensures NullKeyed(IssueRowsWritten(issues, faults), IssueKey) == 0
    decreases |issues|
  {
    if issues != [] {
      var n := |issues| - 1;
      var extra := if WriteOutcome(FaultAt(faults, n), IssueBinding(issues[n])) == Written then [IssueRowOf(issues[n]).value] else [];
      IssueRowsKeyed(issues[..n], faults);
      NullKeyedAppend(IssueRowsWritten(issues[..n], faults), extra, IssueKey);
      if extra != [] {
        assert extra[1..] == [];
      }
    }
  }

  /** A sync never writes an issue row without a key. */
  lemma IssueWritesKeyed(env: Env)
    ensures NullKeyed(IssueWrites(env), IssueKey) == 0
  {
    IssueBatchIds(env);
    IssueRowsKeyed(IssueBatch(env), env.issueFaults);
  }

  /** When a sync writes no image or response without a key, the schema as
      declared and the NOT NULL reading give the same tables. */
  lemma SyncAgreesWhenKeyed(s: Snapshot, env: Env)
    requires NullKeyed(ImageWrites(env), ImageKey) == 0 && NullKeyed(ResponseWrites(env), ResponseKey) == 0
    ensures SyncSpec(s, env) == CorrectedSyncSpec(s, env)
  {
    IssueWritesKeyed(env);
    UpsertAllKeyed(s.issues, IssueWrites(env), IssueKey);
    InsertAllKeyed(s.images, ImageWrites(env), ImageKey);
    UpsertAllKeyed(s.responses, ResponseWrites(env), ResponseKey);
  }

  /** With NOT NULL keys, running the same sync twice leaves the tables as
      running it once. */
  lemma CorrectedSyncIdempotent(s: Snapshot, env: Env)
    ensures CorrectedSyncSpec(CorrectedSyncSpec(s, env), env) == CorrectedSyncSpec(s, env)
  {
    UpsertAllIdempotent(s.issues, IssueWrites(env), IssueKey);
    InsertAllIdempotent(s.images, ImageWrites(env), ImageKey);
    UpsertAllIdempotent(s.responses, ResponseWrites(env), ResponseKey);
  }

  /** As written, running the same sync twice leaves the tables as running
      it once exactly when it writes no image and no response without a key;
      each such row is stored again by the replay. */
  lemma SyncIdempotent(s: Snapshot, env: Env)
    ensures SyncSpec(SyncSpec(s, env), env) == SyncSpec(s, env)
      <==> NullKeyed(ImageWrites(env), ImageKey) == 0 && NullKeyed(ResponseWrites(env), ResponseKey) == 0
  {
    if NullKeyed(ImageWrites(env), ImageKey) == 0 && NullKeyed(ResponseWrites(env), ResponseKey) == 0 {
      var once := CorrectedSyncSpec(s, env);
      SyncAgreesWhenKeyed(s, env);
      SyncAgreesWhenKeyed(once, env);
      CorrectedSyncIdempotent(s, env);
    } else {
      var once := SyncSpec(s, env);
      var twice := SyncSpec(once, env);
      assert NullKeyed(twice.images, ImageKey) != NullKeyed(once.images, ImageKey)
          || NullKeyed(twice.responses, ResponseKey) != NullKeyed(once.responses, ResponseKey);
    }
  }

  /** A listing that cannot be fetched leaves its table as it was. */
  lemma FailedFetchKeepsTable(s: Snapshot, env: Env)
    ensures env.fetch(ResolveUrl(BaseUrl, EntitiesEndpoint)).None? ==> SyncSpec(s, env).issues == s.issues
    ensures env.fetch(ResolveUrl(BaseUrl, ImagesEndpoint)).None? ==> SyncSpec(s, env).images == s.images
    ensures env.fetch(ResolveUrl(BaseUrl, ResponsesEndpoint)).None? ==> SyncSpec(s, env).responses == s.responses
  {
    assert IssueRowsWritten([], env.issueFaults) == [];
    assert ImageRowsWritten(EmptyDict<Scalar, ImageEntry>().Values(), env.imageFaults) == [];
    assert ResponseRowsWritten([], env.responseFaults) == [];
  }

  /** The fetch and normalisation half of `get_new_issues`. */
  method NormalisedIssues(env: Env) returns (d: Dict<Scalar, Issue>)
    ensures d == IssueDict(env)
  {
    d := EmptyDict();
    var entities := env.fetch(ResolveUrl(BaseUrl, EntitiesEndpoint));
    if entities.Some? {
      var processed := ProcessEntities(entities.value, env.parseFloat);
      if processed.Ok? {
        d := processed.value;
      }
    }
  }

  /** `get_new_issues`: fetch, normalise and save the entities; a failure
      before the saves yields an empty list and writes nothing. */
  method GetNewIssues(store: Store, env: Env) returns (saved: seq<Issue>)
    requires store.Valid()
    modifies store
    ensures store.Valid()
    ensures saved == SavedIssues(IssueBatch(env), env.issueFaults)
    ensures store.issues == UpsertAllAsDeclared(old(store.issues), IssueRowsWritten(IssueBatch(env), env.issueFaults), IssueKey)
    ensures store.images == old(store.images) && store.responses == old(store.responses)
  {
    var processed := NormalisedIssues(env);
    saved := UpdateIssues(store, processed, env.issueFaults);
  }

  /** The fetch and normalisation half of `get_images`. */
  method NormalisedImages(env: Env) returns (d: Dict<Scalar, ImageEntry>)
    ensures d == ImageBatch(env)
  {
    d := EmptyDict();
    var subs := env.fetch(ResolveUrl(BaseUrl, ImagesEndpoint));
    if subs.Some? {
      var processed := ProcessImages(subs.value, env.download);
      if processed.Ok? {
        d := processed.value;
      }
    }
  }

  /** `get_images`: fetch, normalise and save the image submissions, and
      return what was normalised; a failure before the saves yields nothing. */
  method GetImages(store: Store, env: Env) returns (images: Dict<Scalar, ImageEntry>)
    requires store.Valid()
    modifies store
    ensures store.Valid()
    ensures images == ImageBatch(env)
    ensures store.images == InsertAllAsDeclared(old(store.images), ImageRowsWritten(ImageBatch(env).Values(), env.imageFaults), ImageKey)
    ensures store.issues == old(store.issues) && store.responses == old(store.responses)
  {
    images := NormalisedImages(env);
    SaveImages(store, images, env.imageFaults);
  }

  /** The fetch and normalisation half of `fetch_responses`. */
  method NormalisedResponses(env: Env) returns (rs: seq<Response>)
    ensures rs == ResponseBatch(env)
  {
    rs := [];
    var subs := env.fetch(ResolveUrl(BaseUrl, ResponsesEndpoint));
    if subs.Some? {
      var processed := ProcessResponses(subs.value, env.download);
      if processed.Ok? {
        rs := processed.value;
      }
    }
  }

  /** `fetch_responses`: fetch, normalise and save the response submissions;
      a failure before the saves writes nothing. */
  method FetchResponses(store: Store, env: Env)
    requires store.Valid()
    modifies store
    ensures store.Valid()
    ensures store.responses == UpsertAllAsDeclared(old(store.responses), ResponseRowsWritten(ResponseBatch(env), env.responseFaults), ResponseKey)
    ensures store.issues == old(store.issues) && store.images == old(store.images)
  {
    var processed := NormalisedResponses(env);
    SaveResponses(store, processed, env.responseFaults);
  }

  /** `update_existing_issues_and_responses`: issues, then images, then
      responses; each stage catches its own failure and the next runs. */
  method Sync(store: Store, env: Env) returns (report: SyncReport)
    requires store.Valid()
    modifies store
    ensures store.Valid()
    ensures Snapshot(store.issues, store.images, store.responses)
      == SyncSpec(old(Snapshot(store.issues, store.images, store.responses)), env)
    ensures report == SyncReport(SavedIssues(IssueBatch(env), env.issueFaults), ImageBatch(env))
  {
    var issues := GetNewIssues(store, env);
    var images := GetImages(store, env);
    FetchResponses(store, env);
    report := SyncReport(issues, images);
  }
}
