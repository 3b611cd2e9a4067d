/** The records the services exchange and store. */
module Domain {

  datatype Option<+T> = None | Some(value: T)

  /** A call's answer: a value, or the text of its error. */
  datatype Result<+T> = Ok(value: T) | Err(error: string)

  /** An instant in nanoseconds; 0 is the zero time, which the stores replace by the clock. */
  type Time = int

  /** A job type other than the two known ones makes the worker fail the job. */
  datatype JobType = Enroll | Verify | Other(name: string)

  datatype Job = Job(txn: string, typ: JobType, image: string, name: string, dob: string, gender: string, callback: string)

  /** A multiple of 1/10000: what every number of a response has been rounded to. */
  type FourPlaces = v: real | (v * 10000.0).Floor as real == v * 10000.0

  /** The embedder's verdict, and what a response says of it. */
  datatype Liveness = Liveness(passed: bool, score: real)
  datatype LivenessDetails = LivenessDetails(passed: bool, score: FourPlaces)

  datatype IdentityMetadata = IdentityMetadata(
    id: string, did: string, demographicHash: string, nameHash: string,
    createdAt: Time, updatedAt: Time, status: string)

  datatype Status = Accepted | Processing | Completed | Failed

  datatype Decision = NewUser | AlreadyExists | PotentialFraud | PartialMatch | Matched | NoMatch

  datatype Response = Response(
    txn: string, id: string, did: string, decision: Decision, confidence: FourPlaces,
    candidate: string, faceSimilarity: FourPlaces, nameSimilarity: FourPlaces, demographicMatch: bool,
    live: LivenessDetails)

  datatype StatusRecord = StatusRecord(
    txn: string, typ: JobType, status: Status, result: Option<Response>, error: string,
    callback: string, createdAt: Time, updatedAt: Time)
}
