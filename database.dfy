/** The SQLite store: the `issues`, `images` and `responses` tables, the three
    writes with their conflict policies, and the three read queries. */
module Database {
  import opened Values
  import opened Text
  import opened Dates
  import opened Base64
  import opened Tables
  import opened Records

  // ---------------------------------------------------------------------------
  // Rows. A TEXT column holds NULL or text; a Python integer bound to it is
  // stored as its decimal text.

  datatype IssueRow = IssueRow(
    id: Option<string>,
    issueLabel: Option<string>,
    issueType: Option<string>,
    description: Option<string>,
    severity: Option<string>,
    status: Option<string>,
    timeframe: Option<string>,
    actionTaken: Option<string>,
    costUsd: Option<string>,
    savedUsd: Option<string>,
    recommendedContact: Option<string>,
    updatedAt: Option<string>,
    version: Option<string>,
    latitude: Option<real>,
    longitude: Option<real>,
    createdAt: Option<string>,
    creatorId: Option<string>,
    creatorName: Option<string>)

  datatype ImageRow = ImageRow(submissionId: Option<string>, title: Option<string>, imageLabel: Option<string>, image: Bytes)

  datatype ResponseRow = ResponseRow(
    submissionDate: Option<string>,
    entityProblem: Option<string>,
    actionRole: Option<string>,
    actionStatus: Option<string>,
    actionActionTaken: Option<string>,
    actionImage: Option<Bytes>,
    actionResolutionCostUsd: Option<string>,
    actionResolutionTimeframe: Option<string>,
    actionRecommendedContact: Option<string>,
    key: Option<string>,
    submitterName: Option<string>)

  function IssueKey(r: IssueRow): Option<string> { r.id }
  function ImageKey(r: ImageRow): Option<string> { r.submissionId }
  function ResponseKey(r: ResponseRow): Option<string> { r.key }

  /** A leaf bound to a TEXT parameter. */
  function Cell(x: Scalar): (c: Option<string>)
    ensures c == None <==> x == Null
    ensures x.Text? ==> c == Some(x.s)
  {
    match x
    case Null => None
    case Text(s) => Some(s)
    case Int(i) => Some(IntText(i))
  }

  // ---------------------------------------------------------------------------
  // Parameter binding. sqlite3 binds a statement's parameters in order and
  // stops at the first it cannot bind. A JSON object is refused with a
  // `sqlite3.Error`; a Python integer outside SQLite's 64-bit range makes it
  // raise OverflowError, which is not a `sqlite3.Error`.

  const MinInt64: int := -0x8000_0000_0000_0000
  const MaxInt64: int := 0x7FFF_FFFF_FFFF_FFFF

  /** How one parameter binds. */
  datatype Binding =
    | Binds        // NULL, text, bytes, a float or an integer in the 64-bit range
    | Unsupported  // a JSON object: `sqlite3.ProgrammingError`
    | TooWide      // an integer outside the 64-bit range: OverflowError

  function ScalarBinding(x: Scalar): (b: Binding)
    ensures b != Unsupported
    ensures b == TooWide <==> x.Int? && !(MinInt64 <= x.i <= MaxInt64)
  {
    if x.Int? && !(MinInt64 <= x.i <= MaxInt64) then TooWide else Binds
  }

  function ValueBinding(v: Value): (b: Binding)
    ensures b == Unsupported <==> v.Group?
    ensures v.Leaf? ==> b == ScalarBinding(v.scalar)
  {
    match v
    case Group(_) => Unsupported
    case Leaf(x) => ScalarBinding(x)
  }

  /** A parameter that binds within the 64-bit range. */
  predicate Fits(x: Scalar) {
    !x.Int? || MinInt64 <= x.i <= MaxInt64
  }

  /** Two parameters bound in order: the first that does not bind decides. */
  function Then(a: Binding, b: Binding): (c: Binding)
    ensures c == Binds <==> a == Binds && b == Binds
    ensures a != Binds ==> c == a
  {
    if a != Binds then a else b
  }

  /** Every parameter of the issue binds: each field copied from the entity
      is a leaf, and no integer among them is wider than 64 bits. */
  predicate IssueBindable(i: Issue) {
    && i.id.Leaf? && i.issueLabel.Leaf? && i.issueType.Leaf? && i.description.Leaf? && i.severity.Leaf?
    && i.status.Leaf? && i.timeframe.Leaf? && i.actionTaken.Leaf? && i.costUsd.Leaf?
    && i.savedUsd.Leaf? && i.recommendedContact.Leaf?
    && Fits(i.id.scalar) && Fits(i.issueLabel.scalar) && Fits(i.issueType.scalar) && Fits(i.description.scalar)
    && Fits(i.severity.scalar) && Fits(i.status.scalar) && Fits(i.timeframe.scalar) && Fits(i.actionTaken.scalar)
    && Fits(i.costUsd.scalar) && Fits(i.savedUsd.scalar) && Fits(i.recommendedContact.scalar)
    && Fits(i.creatorId) && Fits(i.creatorName)
  }

  /** `insert_or_update_issue`'s parameters, in column order. The timestamps,
      the version and the coordinates are text or floats and always bind. */
  function IssueBinding(i: Issue): (b: Binding)
    ensures b == Binds <==> IssueBindable(i)
  {
    Then(ValueBinding(i.id), Then(ValueBinding(i.issueLabel), Then(ValueBinding(i.issueType),
    Then(ValueBinding(i.description), Then(ValueBinding(i.severity), Then(ValueBinding(i.status),
    Then(ValueBinding(i.timeframe), Then(ValueBinding(i.actionTaken), Then(ValueBinding(i.costUsd),
    Then(ValueBinding(i.savedUsd), Then(ValueBinding(i.recommendedContact),
    Then(ScalarBinding(i.creatorId), ScalarBinding(i.creatorName)))))))))))))
  }

  /** `insert_image`'s parameters, in column order; the bytes always bind. */
  function ImageBinding(submissionId: Scalar, title: Scalar, imageLabel: Scalar): (b: Binding)
    ensures b != Unsupported
    ensures b == Binds <==> Fits(submissionId) && Fits(title) && Fits(imageLabel)
  {
    Then(ScalarBinding(submissionId), Then(ScalarBinding(title), ScalarBinding(imageLabel)))
  }

  /** A response `insert_response` can bind: its key is a leaf, not a JSON
      object, and no integer parameter is wider than 64 bits. A null key binds
      as NULL, which the key column admits. */
  predicate ResponseBindable(r: Response) {
    && r.key.Leaf? && Fits(r.key.scalar)
    && Fits(r.entityProblem) && Fits(r.actionRole) && Fits(r.actionStatus) && Fits(r.actionActionTaken)
    && Fits(r.actionResolutionCostUsd) && Fits(r.actionResolutionTimeframe) && Fits(r.actionRecommendedContact)
    && Fits(r.submitterName)
  }

  /** `insert_response`'s parameters, in column order. `SubmissionDate` and
      `action_image` are text and bytes and always bind. */
  function ResponseBinding(r: Response): (b: Binding)
    ensures b == Binds <==> ResponseBindable(r)
  {
    Then(ScalarBinding(r.entityProblem), Then(ScalarBinding(r.actionRole), Then(ScalarBinding(r.actionStatus),
    Then(ScalarBinding(r.actionActionTaken), Then(ScalarBinding(r.actionResolutionCostUsd),
    Then(ScalarBinding(r.actionResolutionTimeframe), Then(ScalarBinding(r.actionRecommendedContact),
    Then(ValueBinding(r.key), ScalarBinding(r.submitterName)))))))))
  }

  /** An entity whose `costusd` is 2^63, every earlier parameter a leaf that
      fits: binding raises OverflowError, which reaches the caller, so nothing
      is written even when the database works. */
  lemma CostTooWide(i: Issue)
    requires i.id.Leaf? && i.issueLabel.Leaf? && i.issueType.Leaf? && i.description.Leaf?
    requires i.severity.Leaf? && i.status.Leaf? && i.timeframe.Leaf? && i.actionTaken.Leaf?
    requires Fits(i.id.scalar) && Fits(i.issueLabel.scalar) && Fits(i.issueType.scalar) && Fits(i.description.scalar)
    requires Fits(i.severity.scalar) && Fits(i.status.scalar) && Fits(i.timeframe.scalar) && Fits(i.actionTaken.scalar)
    requires i.costUsd == Leaf(Int(0x8000_0000_0000_0000))
    ensures IssueBinding(i) == TooWide && WriteOutcome(NoFault, IssueBinding(i)) == Propagated
  {
  }

  /** The row `insert_or_update_issue` writes for an issue, when its
      parameters can be bound. */
  function IssueRowOf(i: Issue): (r: Option<IssueRow>)
    ensures r.Some? <==> IssueBindable(i)
    ensures r.Some? ==> r.value.id == Cell(i.id.scalar) && r.value.status == Cell(i.status.scalar)
    ensures r.Some? ==> r.value.createdAt == Some(i.createdAt) && r.value.updatedAt == Some(i.updatedAt)
    ensures r.Some? ==> r.value.latitude == i.latitude && r.value.longitude == i.longitude
  {
    if !IssueBindable(i) then None
    else Some(IssueRow(
      Cell(i.id.scalar), Cell(i.issueLabel.scalar), Cell(i.issueType.scalar), Cell(i.description.scalar),
      Cell(i.severity.scalar), Cell(i.status.scalar), Cell(i.timeframe.scalar),
      Cell(i.actionTaken.scalar), Cell(i.costUsd.scalar), Cell(i.savedUsd.scalar),
      Cell(i.recommendedContact.scalar), Some(i.updatedAt), Some(i.version),
      i.latitude, i.longitude, Some(i.createdAt), Cell(i.creatorId), Cell(i.creatorName)))
  }

  /** The row `insert_image` writes. */
  function ImageRowOf(submissionId: Scalar, title: Scalar, imageLabel: Scalar, image: Bytes): (r: ImageRow)
    ensures r.submissionId == Cell(submissionId) && r.image == image
  {
    ImageRow(Cell(submissionId), Cell(title), Cell(imageLabel), image)
  }


  /** The row `insert_response` writes; every column comes from the key of the
      same name, and an absent image is NULL. */
  function ResponseRowOf(r: Response): (row: ResponseRow)
    requires r.key.Leaf?
    ensures row.key == Cell(r.key.scalar) && row.entityProblem == Cell(r.entityProblem)
    ensures row.submissionDate == Some(r.submissionDate) && row.actionImage == r.actionImage
  {
    ResponseRow(
      Some(r.submissionDate), Cell(r.entityProblem), Cell(r.actionRole), Cell(r.actionStatus),
      Cell(r.actionActionTaken), r.actionImage, Cell(r.actionResolutionCostUsd),
      Cell(r.actionResolutionTimeframe), Cell(r.actionRecommendedContact),
      Cell(r.key.scalar), Cell(r.submitterName))
  }

  // ---------------------------------------------------------------------------
  // Write outcomes. Each write opens its connection outside its `try`, so a
  // connection that cannot be opened raises to the caller, and so does an
  // integer parameter too wide to bind. A statement that fails (a JSON
  // object as a parameter, a constraint, a disk error) is a `sqlite3.Error`,
  // which the write logs and swallows.

  /** What the environment does to one write. */
  datatype Fault = NoFault | ConnectFails | ExecuteFails

  datatype Outcome =
    | Written      // the statement ran and was committed
    | Swallowed    // the statement failed; logged, nothing changed, nothing raised
    | Propagated   // the connection failed or a parameter overflowed; nothing changed and the caller sees an exception

  /** The outcome of a write under fault `f` whose parameters bind as `b`:
      binding happens before the statement runs. */
  function WriteOutcome(f: Fault, b: Binding): (o: Outcome)
    ensures o == Propagated <==> f == ConnectFails || b == TooWide
    ensures o == Written <==> f == NoFault && b == Binds
  {
    match f
    case ConnectFails => Propagated
    case _ =>
      if b == TooWide then Propagated
      else if f == NoFault && b == Binds then Written
      else Swallowed
  }

  /** Position `i` of a write loop's fault plan; positions past its end run
      without faults. */
  function FaultAt(faults: seq<Fault>, i: int): Fault {
    if 0 <= i < |faults| then faults[i] else NoFault
  }

  // ---------------------------------------------------------------------------
  // `get_issues_with_images`.

  /** The query parameters after `get_issues` has normalised them; "" means
      the filter is off. */
  datatype Filters = Filters(search: string, state: string, severity: string, timeframe: string, startDate: string, endDate: string)

  const NoFilters: Filters := Filters("", "", "", "", "", "")

  /** One clause the query text gains. */
  datatype Condition =
    | SearchLike(pattern: string)    // LOWER(label|description|type) LIKE '%pattern%'
    | StatusIs(word: string)         // LOWER(status) = word
    | SeverityIs(word: string)
    | TimeframeIs(word: string)
    | CreatedFrom(bound: string)     // DATE(created_at) >= DATE(bound)
    | CreatedUntil(bound: string)    // DATE(created_at) <= DATE(bound)

  /** `LOWER(col) LIKE '%p%'` with `p` already lower-cased: NULL never matches. */
  predicate Like(col: Option<string>, p: string) {
    col.Some? && Contains(Lower(col.value), p)
  }

  /** `DATE(created_at) >= DATE(bound)`: NULL when either side is not a date,
      and NULL filters the row out. */
  predicate OnOrAfter(createdAt: Option<string>, bound: string) {
    var d := SqlDate(createdAt);
    var b := SqlDate(Some(bound));
    d.Some? && b.Some? && TextLe(b.value, d.value)
  }

  predicate OnOrBefore(createdAt: Option<string>, bound: string) {
    var d := SqlDate(createdAt);
    var b := SqlDate(Some(bound));
    d.Some? && b.Some? && TextLe(d.value, b.value)
  }

  predicate Holds(c: Condition, x: IssueRow) {
    match c
    case SearchLike(p) => Like(x.issueLabel, p) || Like(x.description, p) || Like(x.issueType, p)
    case StatusIs(w) => x.status.Some? && Lower(x.status.value) == w
    case SeverityIs(w) => x.severity.Some? && Lower(x.severity.value) == w
    case TimeframeIs(w) => x.timeframe.Some? && Lower(x.timeframe.value) == w
    case CreatedFrom(b) => OnOrAfter(x.createdAt, b)
    case CreatedUntil(b) => OnOrBefore(x.createdAt, b)
  }

  predicate AllHold(cs: seq<Condition>, x: IssueRow) {
    forall c :: c in cs ==> Holds(c, x)
  }

  /** The clauses `get_issues_with_images` appends to `WHERE 1=1`, one per
      non-empty filter, in order. */
  function Where(f: Filters): (cs: seq<Condition>)
    ensures |cs| <= 6
  {
    When(f.search != "", SearchLike(Lower(f.search)))
    + When(f.state != "", StatusIs(Lower(f.state)))
    + When(f.severity != "", SeverityIs(Lower(f.severity)))
    + When(f.timeframe != "", TimeframeIs(Lower(f.timeframe)))
    + When(f.startDate != "", CreatedFrom(f.startDate))
    + When(f.endDate != "", CreatedUntil(f.endDate))
  }

  /** Case-insensitive: `q` occurs in the column's text. */
  predicate Mentions(col: Option<string>, q: string) {
    col.Some? && Contains(Lower(col.value), Lower(q))
  }

  /** Case-insensitive: the column's text is `w`. */
  predicate SameWord(col: Option<string>, w: string) {
    col.Some? && Lower(col.value) == Lower(w)
  }

  /** No search text, or the text occurs in the label, description or type. */
  predicate SearchOk(f: Filters, x: IssueRow) {
    f.search == "" || Mentions(x.issueLabel, f.search) || Mentions(x.description, f.search) || Mentions(x.issueType, f.search)
  }

  /** An issue is listed when every filter that is set holds of it. */
  predicate Matches(f: Filters, x: IssueRow) {
    && SearchOk(f, x)
    && (f.state == "" || SameWord(x.status, f.state))
    && (f.severity == "" || SameWord(x.severity, f.severity))
    && (f.timeframe == "" || SameWord(x.timeframe, f.timeframe))
    && (f.startDate == "" || OnOrAfter(x.createdAt, f.startDate))
    && (f.endDate == "" || OnOrBefore(x.createdAt, f.endDate))
  }

  /** The clause for a filter, when the filter is set. */
  function When(on: bool, c: Condition): seq<Condition> {
    if on then [c] else []
  }

  lemma AllHoldAppend(a: seq<Condition>, b: seq<Condition>, x: IssueRow)
    ensures AllHold(a + b, x) <==> AllHold(a, x) && AllHold(b, x)
  {
  }

  lemma AllHoldSix(c1: seq<Condition>, c2: seq<Condition>, c3: seq<Condition>, c4: seq<Condition>, c5: seq<Condition>, c6: seq<Condition>, x: IssueRow)
    ensures AllHold(c1 + c2 + c3 + c4 + c5 + c6, x) <==>
      AllHold(c1, x) && AllHold(c2, x) && AllHold(c3, x) && AllHold(c4, x) && AllHold(c5, x) && AllHold(c6, x)
  {
    AllHoldAppend(c1 + c2 + c3 + c4 + c5, c6, x);
    AllHoldAppend(c1 + c2 + c3 + c4, c5, x);
    AllHoldAppend(c1 + c2 + c3, c4, x);
    AllHoldAppend(c1 + c2, c3, x);
    AllHoldAppend(c1, c2, x);
  }

  lemma AllHoldWhen(on: bool, c: Condition, x: IssueRow)
    ensures AllHold(When(on, c), x) <==> (on ==> Holds(c, x))
  {
    if on {
      assert c in When(on, c);
    }
  }

  /** A clause whose meaning is `p`, added when `on` holds. */
  lemma WhenHolds(on: bool, c: Condition, x: IssueRow, p: bool)
    requires Holds(c, x) == p
    ensures AllHold(When(on, c), x) <==> (on ==> p)
  {
    AllHoldWhen(on, c, x);
  }

  lemma SearchClause(f: Filters, x: IssueRow)
    ensures AllHold(When(f.search != "", SearchLike(Lower(f.search))), x) <==> SearchOk(f, x)
  {
    AllHoldWhen(f.search != "", SearchLike(Lower(f.search)), x);
  }

  lemma WordClauses(f: Filters, x: IssueRow)
    ensures AllHold(When(f.state != "", StatusIs(Lower(f.state))), x) <==> (f.state == "" || SameWord(x.status, f.state))
    ensures AllHold(When(f.severity != "", SeverityIs(Lower(f.severity))), x) <==> (f.severity == "" || SameWord(x.severity, f.severity))
    ensures AllHold(When(f.timeframe != "", TimeframeIs(Lower(f.timeframe))), x) <==> (f.timeframe == "" || SameWord(x.timeframe, f.timeframe))
  {
    AllHoldWhen(f.state != "", StatusIs(Lower(f.state)), x);
    AllHoldWhen(f.severity != "", SeverityIs(Lower(f.severity)), x);
    AllHoldWhen(f.timeframe != "", TimeframeIs(Lower(f.timeframe)), x);
  }

  lemma DateClauses(f: Filters, x: IssueRow)
    ensures AllHold(When(f.startDate != "", CreatedFrom(f.startDate)), x) <==> (f.startDate == "" || OnOrAfter(x.createdAt, f.startDate))
    ensures AllHold(When(f.endDate != "", CreatedUntil(f.endDate)), x) <==> (f.endDate == "" || OnOrBefore(x.createdAt, f.endDate))
  {
    StartClause(f, x);
    EndClause(f, x);
  }

  lemma StartClause(f: Filters, x: IssueRow)
    ensures AllHold(When(f.startDate != "", CreatedFrom(f.startDate)), x) <==> (f.startDate == "" || OnOrAfter(x.createdAt, f.startDate))
  {
    var c := CreatedFrom(f.startDate);
    WhenHolds(f.startDate != "", c, x, OnOrAfter(x.createdAt, f.startDate));
  }

  lemma EndClause(f: Filters, x: IssueRow)
    ensures AllHold(When(f.endDate != "", CreatedUntil(f.endDate)), x) <==> (f.endDate == "" || OnOrBefore(x.createdAt, f.endDate))
  {
    var c := CreatedUntil(f.endDate);
    WhenHolds(f.endDate != "", c, x, OnOrBefore(x.createdAt, f.endDate));
  }

  /** The query text keeps a row exactly when every non-empty filter holds. */
  lemma WhereMatches(f: Filters, x: IssueRow)
    ensures AllHold(Where(f), x) <==> Matches(f, x)
  {
    var c1 := When(f.search != "", SearchLike(Lower(f.search)));
    var c2 := When(f.state != "", StatusIs(Lower(f.state)));
    var c3 := When(f.severity != "", SeverityIs(Lower(f.severity)));
    var c4 := When(f.timeframe != "", TimeframeIs(Lower(f.timeframe)));
    var c5 := When(f.startDate != "", CreatedFrom(f.startDate));
    var c6 := When(f.endDate != "", CreatedUntil(f.endDate));
    assert Where(f) == c1 + c2 + c3 + c4 + c5 + c6;
    AllHoldSix(c1, c2, c3, c4, c5, c6, x);
    SearchClause(f, x);
    WordClauses(f, x);
    DateClauses(f, x);
  }

  /** A joined row: the issue's columns and the matching image's blob, or
      NULL when no image matches. */
  datatype JoinRow = JoinRow(issue: IssueRow, image: Option<Bytes>)

  /** The images whose title equals the issue's label, in rowid order; a NULL
      label or title equals nothing. */
  function MatchingImages(x: IssueRow, imgs: seq<ImageRow>): (m: seq<ImageRow>)
    ensures |m| <= |imgs|
    ensures forall g :: g in m <==> g in imgs && x.issueLabel.Some? && g.title == x.issueLabel
  {
    if imgs == [] then []
    else (if x.issueLabel.Some? && imgs[0].title == x.issueLabel then [imgs[0]] else []) + MatchingImages(x, imgs[1..])
  }

  /** The rows `issues LEFT JOIN images ON issues.label = images.title`
      produces for one issue. */
  function Block(x: IssueRow, imgs: seq<ImageRow>): (b: seq<JoinRow>)
  {
    var m := MatchingImages(x, imgs);
    if m == [] then [JoinRow(x, None)]
    else seq(|m|, i requires 0 <= i < |m| => JoinRow(x, Some(m[i].image)))
  }

  /** The left join: an issue appears once per matching image, and once with
      a NULL image when none matches. */
  lemma BlockShape(x: IssueRow, imgs: seq<ImageRow>)
    ensures var m := MatchingImages(x, imgs);
      && |Block(x, imgs)| == (if m == [] then 1 else |m|)
      && (forall r :: r in Block(x, imgs) ==> r.issue == x)
      && (forall r :: r in Block(x, imgs) ==> (r.image.None? <==> m == []))
      && (forall r :: r in Block(x, imgs) && r.image.Some? ==>
            exists g :: g in imgs && g.title == x.issueLabel && r.image == Some(g.image))
  {
    var m := MatchingImages(x, imgs);
    var b := Block(x, imgs);
    forall r | r in b && r.image.Some?
      ensures exists g :: g in imgs && g.title == x.issueLabel && r.image == Some(g.image)
    {
      var i :| 0 <= i < |b| && b[i] == r;
      assert m[i] in m;
    }
  }

  /** The SQL statement: issues in rowid order, each kept when every clause
      holds, expanded by the join. */
  function Select(t: seq<IssueRow>, imgs: seq<ImageRow>, cs: seq<Condition>): (rows: seq<JoinRow>)
  {
    if t == [] then []
    else (if AllHold(cs, t[0]) then Block(t[0], imgs) else []) + Select(t[1..], imgs, cs)
  }

  /** What `get_issues_with_images(f)` fetches. */
  function Query(t: seq<IssueRow>, imgs: seq<ImageRow>, f: Filters): seq<JoinRow> {
    Select(t, imgs, Where(f))
  }

  lemma {:induction false} SelectMembership(t: seq<IssueRow>, imgs: seq<ImageRow>, cs: seq<Condition>, r: JoinRow)
    ensures r in Select(t, imgs, cs) <==> r.issue in t && AllHold(cs, r.issue) && r in Block(r.issue, imgs)
  {
    if t != [] {
      SelectMembership(t[1..], imgs, cs, r);
      BlockShape(t[0], imgs);
      assert t == [t[0]] + t[1..];
    }
  }

  /** A row is returned if and only if its issue is in the table, every
      non-empty filter holds of the issue, and the row is one of the issue's
      join rows. */
  lemma QueryMembership(t: seq<IssueRow>, imgs: seq<ImageRow>, f: Filters, r: JoinRow)
    ensures r in Query(t, imgs, f) <==> r.issue in t && Matches(f, r.issue) && r in Block(r.issue, imgs)
  {
    SelectMembership(t, imgs, Where(f), r);
    WhereMatches(f, r.issue);
  }

  /** With no filter set every issue appears. */
  lemma EveryIssueListed(t: seq<IssueRow>, imgs: seq<ImageRow>, x: IssueRow)
    requires x in t
    ensures exists r :: r in Query(t, imgs, NoFilters) && r.issue == x
  {
    var r := Block(x, imgs)[0];
    BlockShape(x, imgs);
    assert r in Block(x, imgs);
    QueryMembership(t, imgs, NoFilters, r);
  }

  /** How many of `rows` belong to issue `x`. */
  function Occurrences(rows: seq<JoinRow>, x: IssueRow): nat {
    if rows == [] then 0 else (if rows[0].issue == x then 1 else 0) + Occurrences(rows[1..], x)
  }

  lemma {:induction false} OccurrencesAppend(a: seq<JoinRow>, b: seq<JoinRow>, x: IssueRow)
    ensures Occurrences(a + b, x) == Occurrences(a, x) + Occurrences(b, x)
  {
    if a == [] {
      assert a + b == b;
    } else {
      assert (a + b)[1..] == a[1..] + b;
      OccurrencesAppend(a[1..], b, x);
    }
  }

  lemma {:induction false} OccurrencesAll(rows: seq<JoinRow>, x: IssueRow)
    requires forall r :: r in rows ==> r.issue == x
    ensures Occurrences(rows, x) == |rows|
  {
    if rows != [] {
      OccurrencesAll(rows[1..], x);
    }
  }

  lemma {:induction false} OccurrencesNone(rows: seq<JoinRow>, x: IssueRow)
    requires forall r :: r in rows ==> r.issue != x
    ensures Occurrences(rows, x) == 0
  {
    if rows != [] {
      OccurrencesNone(rows[1..], x);
    }
  }

  lemma {:induction false} SelectOccurrences(t: seq<IssueRow>, imgs: seq<ImageRow>, cs: seq<Condition>, x: IssueRow)
    requires forall i, j :: 0 <= i < j < |t| ==> t[i] != t[j]
    ensures Occurrences(Select(t, imgs, cs), x) == if x in t && AllHold(cs, x) then |Block(x, imgs)| else 0
  {
    if t != [] {
      var y := t[0];
      var head := if AllHold(cs, y) then Block(y, imgs) else [];
      assert forall i, j :: 0 <= i < j < |t[1..]| ==> t[1..][i] != t[1..][j] by {
        forall i, j | 0 <= i < j < |t[1..]| ensures t[1..][i] != t[1..][j] {
          assert t[1..][i] == t[i + 1] && t[1..][j] == t[j + 1];
        }
      }
      SelectOccurrences(t[1..], imgs, cs, x);
      OccurrencesAppend(head, Select(t[1..], imgs, cs), x);
      BlockShape(y, imgs);
      if y == x {
        OccurrencesAll(head, x);
        assert x !in t[1..] by {
          forall k | 0 <= k < |t[1..]| ensures t[1..][k] != x {
            assert t[1..][k] == t[k + 1];
          }
        }
      } else {
        OccurrencesNone(head, x);
        assert x in t <==> x in t[1..] by { assert t == [y] + t[1..]; }
      }
    }
  }

  /** An issue whose label matches k >= 1 images appears k times, and once
      when it matches none; an issue filtered out does not appear. */
  lemma QueryCount(t: seq<IssueRow>, imgs: seq<ImageRow>, f: Filters, x: IssueRow)
    requires KeysUnique(t, IssueKey)
    ensures var k := |MatchingImages(x, imgs)|;
      Occurrences(Query(t, imgs, f), x) == if x in t && Matches(f, x) then (if k == 0 then 1 else k) else 0
  {
    forall i, j | 0 <= i < j < |t| ensures t[i] != t[j] {
      assert IssueKey(t[i]) != IssueKey(t[j]);
    }
    SelectOccurrences(t, imgs, Where(f), x);
    WhereMatches(f, x);
    BlockShape(x, imgs);
    if MatchingImages(x, imgs) == [] {
      assert |Block(x, imgs)| == 1;
    }
  }

  /** The date bounds are inclusive and look only at the date: an issue
      created at any time on day `d` passes both `start_date = d` and
      `end_date = d`. */
  lemma DateBoundsInclusive(x: IssueRow, y: Option<string>)
    requires x.createdAt == Some(FormatDate(y))
    ensures var day := FormatDate(y)[..10];
      Matches(Filters("", "", "", "", day, day), x)
  {
    var s := FormatDate(y);
    var day := s[..10];
    SqlDateOfFormatted(y);
    FormatDateCanonical(y);
    assert SqlDate(Some(day)) == Some(day) by {
      assert DateOf(s[..10]).Some?;
    }
    TextLeTotal(day, day);
  }

  /** Two creation times on the same day pass and fail the same bounds. */
  lemma SameDaySameVerdict(x: IssueRow, x': IssueRow, f: Filters)
    requires x' == x.(createdAt := x'.createdAt)
    requires SqlDate(x.createdAt) == SqlDate(x'.createdAt)
    ensures Matches(f, x) <==> Matches(f, x')
  {
  }

  /** `issue['image']`: the blob as base64 text, or None for a NULL or empty
      blob, never the empty text. */
  function ImageText(b: Option<Bytes>): (s: Option<string>)
    ensures s.Some? <==> b.Some? && b.value != []
    ensures s.Some? ==> s.value != "" && s.value == Encode(b.value)
  {
    if b.Some? && b.value != [] then Some(Encode(b.value)) else None
  }

  /** A row as `get_issues_with_images` returns it. */
  datatype IssueView = IssueView(issue: IssueRow, image: Option<string>)

  // ---------------------------------------------------------------------------
  // `get_responses_for_issue`.

  /** `WHERE entity_problem = ?`: comparing with NULL is never true. */
  function ResponsesOf(t: seq<ResponseRow>, id: Option<string>): (m: seq<ResponseRow>)
    ensures forall r :: r in m <==> r in t && id.Some? && r.entityProblem == id
  {
    if t == [] then []
    else (if id.Some? && t[0].entityProblem == id then [t[0]] else []) + ResponsesOf(t[1..], id)
  }

  /** `ORDER BY SubmissionDate DESC`: a row with date `a` may precede one with
      date `b`. NULL sorts below every text, so it comes last. */
  predicate NotBefore(a: Option<string>, b: Option<string>) {
    b.None? || (a.Some? && TextLe(b.value, a.value))
  }

  lemma NotBeforeTotal(a: Option<string>, b: Option<string>)
    ensures NotBefore(a, b) || NotBefore(b, a)
  {
    if a.Some? && b.Some? {
      TextLeTotal(a.value, b.value);
    }
  }

  lemma NotBeforeTransitive(a: Option<string>, b: Option<string>, c: Option<string>)
    requires NotBefore(a, b) && NotBefore(b, c)
    ensures NotBefore(a, c)
  {
    if a.Some? && b.Some? && c.Some? {
      TextLeTransitive(c.value, b.value, a.value);
    }
  }

  predicate SortedDesc(rs: seq<ResponseRow>) {
    forall i, j :: 0 <= i < j < |rs| ==> NotBefore(rs[i].submissionDate, rs[j].submissionDate)
  }

  /** Place `r` before the first row it may precede. */
  function InsertDesc(r: ResponseRow, rs: seq<ResponseRow>): seq<ResponseRow> {
    if rs == [] then [r]
    else if NotBefore(r.submissionDate, rs[0].submissionDate) then [r] + rs
    else [rs[0]] + InsertDesc(r, rs[1..])
  }

  function SortDesc(rs: seq<ResponseRow>): seq<ResponseRow> {
    if rs == [] then [] else InsertDesc(rs[0], SortDesc(rs[1..]))
  }

  lemma {:induction false} InsertDescPermutes(r: ResponseRow, rs: seq<ResponseRow>)
    ensures multiset(InsertDesc(r, rs)) == multiset(rs) + multiset{r}
  {
    if rs != [] && !NotBefore(r.submissionDate, rs[0].submissionDate) {
      InsertDescPermutes(r, rs[1..]);
      assert rs == [rs[0]] + rs[1..];
    }
  }

  lemma SortedTail(rs: seq<ResponseRow>)
    requires SortedDesc(rs) && rs != []
    ensures SortedDesc(rs[1..])
    ensures forall y :: y in rs ==> NotBefore(rs[0].submissionDate, y.submissionDate)
  {
    var tail := rs[1..];
    forall i, j | 0 <= i < j < |tail| ensures NotBefore(tail[i].submissionDate, tail[j].submissionDate) {
      assert tail[i] == rs[i + 1] && tail[j] == rs[j + 1];
    }
    forall y | y in rs ensures NotBefore(rs[0].submissionDate, y.submissionDate) {
      var k :| 0 <= k < |rs| && rs[k] == y;
      if k == 0 {
        NotBeforeTotal(y.submissionDate, y.submissionDate);
      }
    }
  }

  lemma SortedCons(h: ResponseRow, rs: seq<ResponseRow>)
    requires SortedDesc(rs)
    requires forall y :: y in rs ==> NotBefore(h.submissionDate, y.submissionDate)
    ensures SortedDesc([h] + rs)
  {
    var s := [h] + rs;
    forall i, j | 0 <= i < j < |s| ensures NotBefore(s[i].submissionDate, s[j].submissionDate) {
      assert s[j] == rs[j - 1];
      if i > 0 {
        assert s[i] == rs[i - 1];
      }
    }
  }

  lemma {:induction false} InsertDescSorted(r: ResponseRow, rs: seq<ResponseRow>)
    requires SortedDesc(rs)
    ensures SortedDesc(InsertDesc(r, rs))
  {
    if rs == [] {
    } else if NotBefore(r.submissionDate, rs[0].submissionDate) {
      SortedTail(rs);
      forall y | y in rs ensures NotBefore(r.submissionDate, y.submissionDate) {
        NotBeforeTransitive(r.submissionDate, rs[0].submissionDate, y.submissionDate);
      }
      SortedCons(r, rs);
    } else {
      NotBeforeTotal(r.submissionDate, rs[0].submissionDate);
      var tail := rs[1..];
      SortedTail(rs);
      InsertDescSorted(r, tail);
      InsertDescPermutes(r, tail);
      var rest := InsertDesc(r, tail);
      forall y | y in rest ensures NotBefore(rs[0].submissionDate, y.submissionDate) {
        assert y in multiset(rest);
        if y != r {
          assert y in multiset(tail);
          assert y in rs by { assert rs == [rs[0]] + tail; }
        }
      }
      SortedCons(rs[0], rest);
    }
  }

  /** The sort is a permutation into non-increasing date order. */
  lemma {:induction false} SortDescSorted(rs: seq<ResponseRow>)
    ensures multiset(SortDesc(rs)) == multiset(rs)
    ensures SortedDesc(SortDesc(rs))
  {
    if rs != [] {
      SortDescSorted(rs[1..]);
      InsertDescSorted(rs[0], SortDesc(rs[1..]));
      InsertDescPermutes(rs[0], SortDesc(rs[1..]));
      assert rs == [rs[0]] + rs[1..];
    }
  }

  /** What `get_responses_for_issue(id)` fetches. */
  function IssueResponses(t: seq<ResponseRow>, id: Option<string>): seq<ResponseRow> {
    SortDesc(ResponsesOf(t, id))
  }

  /** Exactly the responses naming the issue, each once, newest first; the
      issue need not exist. */
  lemma IssueResponsesSpec(t: seq<ResponseRow>, id: Option<string>)
    ensures multiset(IssueResponses(t, id)) == multiset(ResponsesOf(t, id))
    ensures forall r :: r in IssueResponses(t, id) <==> r in t && id.Some? && r.entityProblem == id
    ensures SortedDesc(IssueResponses(t, id))
  {
    SortDescSorted(ResponsesOf(t, id));
    forall r ensures r in IssueResponses(t, id) <==> r in ResponsesOf(t, id) {
      assert r in IssueResponses(t, id) <==> r in multiset(IssueResponses(t, id));
    }
  }

  /** A row as `get_responses_for_issue` returns it: `action_image` as base64
      text, or None for a NULL or empty blob. */
  datatype ResponseView = ResponseView(row: ResponseRow, actionImage: Option<string>)

  // ---------------------------------------------------------------------------
  // `get_latest_update_time`.

  /** `SELECT MAX(updated_at)`: NULLs are skipped; NULL when every value is. */
  function MaxUpdatedAt(t: seq<IssueRow>): (m: Option<string>)
    ensures m.None? <==> forall x :: x in t ==> x.updatedAt.None?
    ensures m.Some? ==> exists x :: x in t && x.updatedAt == m
  {
    if t == [] then None
    else
      var rest := MaxUpdatedAt(t[1..]);
      var here := t[0].updatedAt;
      if here.None? then rest
      else if rest.None? || TextLe(rest.value, here.value) then here
      else rest
  }

  /** The maximum is at or above every non-NULL value. */
  lemma {:induction false} MaxUpdatedAtIsMax(t: seq<IssueRow>, x: IssueRow)
    requires x in t && x.updatedAt.Some?
    ensures MaxUpdatedAt(t).Some? && TextLe(x.updatedAt.value, MaxUpdatedAt(t).value)
  {
    var rest := MaxUpdatedAt(t[1..]);
    var here := t[0].updatedAt;
    var m := MaxUpdatedAt(t);
    if x == t[0] {
      if m == rest {
        TextLeTotal(rest.value, here.value);
      } else {
        TextLeTotal(here.value, here.value);
      }
    } else {
      assert x in t[1..] by { assert t == [t[0]] + t[1..]; }
      MaxUpdatedAtIsMax(t[1..], x);
      if m != rest {
        TextLeTransitive(x.updatedAt.value, rest.value, here.value);
      }
    }
  }

  /** `get_latest_update_time`: None when no issue has a non-empty
      `updated_at`; otherwise the maximum parsed by `datetime.fromisoformat`,
      which raises ValueError when the maximum is not a timestamp. */
  function LatestUpdateTime(t: seq<IssueRow>): (r: Result<Option<DateTime>>)
    ensures r == Ok(None) <==> forall x :: x in t ==> x.updatedAt == None || x.updatedAt == Some("")
    ensures r.Ok? && r.value.Some? ==> ParseIso(MaxUpdatedAt(t).value) == r.value
    ensures r.Raised? <==> var m := MaxUpdatedAt(t); m.Some? && m.value != "" && ParseIso(m.value).None?
    ensures r.Raised? ==> r.cause == ValueError
  {
    var m := MaxUpdatedAt(t);
    if m.None? || m.value == "" then
      assert forall x :: x in t ==> x.updatedAt == None || x.updatedAt == Some("") by {
        forall x | x in t && x.updatedAt.Some? ensures x.updatedAt == Some("") {
          MaxUpdatedAtIsMax(t, x);
        }
      }
      Ok(None)
    else
      var x :| x in t && x.updatedAt == m;
      match ParseIso(m.value)
      case Some(dt) => Ok(Some(dt))
      case None => Raised(ValueError)
  }

  /** When every `updated_at` is a normalised timestamp, the query never
      raises and yields the latest of them. */
  lemma LatestOfNormalised(t: seq<IssueRow>, x: IssueRow)
    requires forall y :: y in t ==> y.updatedAt.Some? && Canonical(y.updatedAt.value)
    requires x in t
    ensures LatestUpdateTime(t).Ok? && LatestUpdateTime(t).value.Some?
    ensures TextLe(x.updatedAt.value, MaxUpdatedAt(t).value)
  {
    MaxUpdatedAtIsMax(t, x);
    var m := MaxUpdatedAt(t).value;
    var y :| y in t && y.updatedAt == Some(m);
    assert ParseIso(m).Some?;
    assert m != "" by { assert ParseIso("") == None; }
  }

  // ---------------------------------------------------------------------------
  // The store.

  /** The loop of `get_issues_with_images` over the fetched rows: each
      image blob becomes its base64 text, or None when it is NULL or empty. */
  method EncodeIssueImages(rows: seq<JoinRow>) returns (views: seq<IssueView>)
    ensures |views| == |rows|
    ensures forall i :: 0 <= i < |rows| ==> views[i] == IssueView(rows[i].issue, ImageText(rows[i].image))
  {
    views := [];
    var i := 0;
    while i < |rows|
      invariant 0 <= i <= |rows|
      invariant |views| == i
      invariant forall k :: 0 <= k < i ==> views[k] == IssueView(rows[k].issue, ImageText(rows[k].image))
    {
      var image := if rows[i].image.Some? && rows[i].image.value != [] then Some(Encode(rows[i].image.value)) else None;
      views := views + [IssueView(rows[i].issue, image)];
      i := i + 1;
    }
  }

  /** The loop of `get_responses_for_issue` over the fetched rows. */
  method EncodeResponseImages(rows: seq<ResponseRow>) returns (views: seq<ResponseView>)
    ensures |views| == |rows|
    ensures forall i :: 0 <= i < |rows| ==> views[i] == ResponseView(rows[i], ImageText(rows[i].actionImage))
  {
    views := [];
    var i := 0;
    while i < |rows|
      invariant 0 <= i <= |rows|
      invariant |views| == i
      invariant forall k :: 0 <= k < i ==> views[k] == ResponseView(rows[k], ImageText(rows[k].actionImage))
    {
      var image := if rows[i].actionImage.Some? && rows[i].actionImage.value != [] then Some(Encode(rows[i].actionImage.value)) else None;
      views := views + [ResponseView(rows[i], image)];
      i := i + 1;
    }
  }

  class Store {
    var issues: seq<IssueRow>
    var images: seq<ImageRow>
    var responses: seq<ResponseRow>

    /** What the primary keys guarantee as declared: one row per non-NULL
        key. */
    ghost predicate Valid()
      reads this
    {
      KeysDistinct(issues, IssueKey) && KeysDistinct(images, ImageKey) && KeysDistinct(responses, ResponseKey)
    }

    /** `init_db` on a new database file: three empty tables. */
    constructor ()
      ensures Valid()
      ensures issues == [] && images == [] && responses == []
    {
      issues := [];
      images := [];
      responses := [];
    }

    /** `insert_or_update_issue`: INSERT OR REPLACE keyed by `id`. */
    method InsertOrUpdateIssue(issue: Issue, fault: Fault) returns (o: Outcome)
      requires Valid()
      modifies this
      ensures Valid()
      ensures o == WriteOutcome(fault, IssueBinding(issue))
      ensures o == Written ==> issues == UpsertAsDeclared(old(issues), IssueRowOf(issue).value, IssueKey)
      ensures o != Written ==> issues == old(issues)
      ensures images == old(images) && responses == old(responses)
    {
      o := WriteOutcome(fault, IssueBinding(issue));
      if o == Written {
        var row := IssueRowOf(issue).value;
        UpsertAsDeclaredReplaces(issues, row, IssueKey);
        issues := UpsertAsDeclared(issues, row, IssueKey);
      }
    }

    /** `insert_image`: INSERT OR IGNORE keyed by `submission_id`. */
    method InsertImage(submissionId: Scalar, title: Scalar, imageLabel: Scalar, image: Bytes, fault: Fault) returns (o: Outcome)
      requires Valid()
      modifies this
      ensures Valid()
      ensures o == WriteOutcome(fault, ImageBinding(submissionId, title, imageLabel))
      ensures o == Written ==> images == InsertIfAbsentAsDeclared(old(images), ImageRowOf(submissionId, title, imageLabel, image), ImageKey)
      ensures o != Written ==> images == old(images)
      ensures issues == old(issues) && responses == old(responses)
    {
      o := WriteOutcome(fault, ImageBinding(submissionId, title, imageLabel));
      if o == Written {
        var row := ImageRowOf(submissionId, title, imageLabel, image);
        InsertAsDeclaredKeeps(images, row, ImageKey);
        images := InsertIfAbsentAsDeclared(images, row, ImageKey);
      }
    }

    /** `insert_response`: INSERT OR REPLACE keyed by `KEY`. */
    method InsertResponse(r: Response, fault: Fault) returns (o: Outcome)
      requires Valid()
      modifies this
      ensures Valid()
      ensures o == WriteOutcome(fault, ResponseBinding(r))
      ensures o == Written ==> responses == UpsertAsDeclared(old(responses), ResponseRowOf(r), ResponseKey)
      ensures o != Written ==> responses == old(responses)
      ensures issues == old(issues) && images == old(images)
    {
      o := WriteOutcome(fault, ResponseBinding(r));
      if o == Written {
        var row := ResponseRowOf(r);
        UpsertAsDeclaredReplaces(responses, row, ResponseKey);
        responses := UpsertAsDeclared(responses, row, ResponseKey);
      }
    }

    /** `get_issues_with_images`: run the query, then replace each blob by
        its base64 text or None. */
    method GetIssuesWithImages(f: Filters) returns (views: seq<IssueView>)
      ensures |views| == |Query(issues, images, f)|
      ensures forall i :: 0 <= i < |views| ==>
        views[i] == IssueView(Query(issues, images, f)[i].issue, ImageText(Query(issues, images, f)[i].image))
    {
      views := EncodeIssueImages(Select(issues, images, Where(f)));
    }

    /** `get_responses_for_issue`: run the query, then replace each
        `action_image` by its base64 text or None. */
    method GetResponsesForIssue(id: Option<string>) returns (views: seq<ResponseView>)
      ensures |views| == |IssueResponses(responses, id)|
      ensures forall i :: 0 <= i < |views| ==>
        views[i] == ResponseView(IssueResponses(responses, id)[i], ImageText(IssueResponses(responses, id)[i].actionImage))
    {
      views := EncodeResponseImages(SortDesc(ResponsesOf(responses, id)));
    }

    /** `get_latest_update_time`. */
    function LatestUpdate(): (r: Result<Option<DateTime>>)
      reads this
      ensures r == LatestUpdateTime(issues)
      ensures r == Ok(None) <==> forall x :: x in issues ==> x.updatedAt == None || x.updatedAt == Some("")
    {
      LatestUpdateTime(issues)
    }
  }
}
