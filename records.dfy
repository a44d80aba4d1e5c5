/** The dictionaries the synchronisation client builds from upstream records
    and hands to the store: one per issue, per response and per image. A
    field copied from the upstream record unchanged keeps its JSON form
    (`Value` or `Scalar`); a normalised field is text. */
module Records {
  import opened Values

  /** An entry of `process_entities`' result. */
  datatype Issue = Issue(
    id: Value,
    issueLabel: Value,
    issueType: Value,
    description: Value,
    severity: Value,
    status: Value,
    timeframe: Value,
    actionTaken: Value,
    costUsd: Value,
    savedUsd: Value,
    recommendedContact: Value,
    createdAt: string,
    updatedAt: string,
    creatorId: Scalar,
    creatorName: Scalar,
    version: string,
    latitude: Option<real>,
    longitude: Option<real>)

  /** An element of `process_responses`' result; every key is always set. */
  datatype Response = Response(
    submissionDate: string,
    key: Value,
    submitterName: Scalar,
    entityProblem: Scalar,
    actionRole: Scalar,
    actionStatus: Scalar,
    actionActionTaken: Scalar,
    actionResolutionCostUsd: Scalar,
    actionResolutionTimeframe: Scalar,
    actionRecommendedContact: Scalar,
    actionImage: Option<Bytes>)

  /** An entry of `process_images`' result. */
  datatype ImageEntry = ImageEntry(submissionId: Scalar, title: Scalar, imageLabel: Scalar, imageData: Bytes)
}
