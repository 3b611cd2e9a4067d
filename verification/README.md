# Visual identity KYC: model and proofs

A Dafny model of the identity-verification backend: the asynchronous enrol/verify pipeline with its
decisions, the rate limiter in front of it, the two metadata stores, the vector arithmetic and the name
embedding, the hash preimages, the tokens and the publisher. `dafny verify dfyconfig.toml` checks it.

## How the model is laid out

* **The pipeline** (`Pipeline.dfy`) is a step machine. Any number of API requests and workers run at once.
  A step is one call on a shared store, its answer is arbitrary (a failed call may still have taken effect), and a
  process may crash between any two steps. `PipelineStores.dfy`, `PipelineStatus.dfy`, `PipelineAnswers.dfy`
  and `PipelineOrder.dfy` prove what holds at every point of every run, and `PipelineDisorder.dfy` that the conditions of
  the last are needed.
  `PipelineService.dfy` is the imperative form: a class whose fields are the stores and the command log, and whose
  methods are the request handler and the worker; every method takes only steps of the machine, with the other
  processes running between its calls.
* **The decision** (`Scoring.dfy`, `Candidates.dfy`, `Decisions.dfy`) is the arithmetic of the confidence, the
  choice of the best candidate, and the two decision tables. `Preimage.dfy` holds input validation and the text that
  is hashed; `Text.dfy` trimming and case mapping.
* **The stores**: `Metadata.dfy` and `History.dfy` say what a store stands for, `Resp.dfy` is the Redis wire format,
  `RedisStore.dfy` the store on top of it down to the bytes, `JsonStore.dfy` the store in one file, `Codecs.dfy` a
  witness that the laws both ask of the JSON library can be met.
* **Independent parts**: `RateLimiter.dfy`, `Vectors.dfy`, `NameEmbedder.dfy`, `Token.dfy`, `Publisher.dfy`;
  `Decimal.dfy` prints and parses numbers, `Domain.dfy` holds the records.

Scores are exact reals; the numbers of a response are multiples of 1/10000, as the source rounds every one of
them, so that a text can hold a record. Search results are arbitrary lists of hits; the hypothesis that scores
are at most 1 is written where it is used. The keyed hash, the JSON codec, Unicode folding, the digests, the DID of an
identity and the square root are function parameters, with the one law that is needed stated as a hypothesis.

## What turned out differently from what one might expect

* `RateLimiter.IntervalBound` is one admission sharper than twice the limit per window, and
  `RateLimiter.BoundIsReached` shows that it cannot be improved.
* Repeating an enrolment is recognised for all search results exactly when the face threshold is at
  most 1 - 0.00005/0.65 and the name threshold at most 0.9998 (`Decisions.ReenrolRecognisedIff`): above that a
  rounding tie can select another identity.
* A hit above the duplicate threshold does not prevent a new identity (`Decisions.DuplicateHitBlocksIff`). A hit
  prevents one, whatever else is found, exactly when its confidence reaches 0.65 times the threshold plus 0.35005
  (`Decisions.HitBlocksIff`; at thresholds of at most -0.35/0.65 any positive confidence will do), which a perfect hit does
  exactly up to a threshold of 1 - 0.00005/0.65 (`Decisions.PerfectHitBlocksIff`).
* A delivery of a queued job restarts its transaction whatever its status is, so the order of statuses needs three
  things of the queue: no second delivery, no record kept of a publish that reports failure, and no second record of
  one publish. The last can come about without any failure being reported, because the publisher posts again after a
  lost reply or a server error (`kafka_rest.go:44-61`) although the first post may have been stored.
  `PipelineDisorder.EachConditionIsNeeded` gives a run for each.
* The name normal form is stable after one pass only for names that begin and end in a letter or digit
  (`NameEmbedder.NormalizeOnceStableIff`), always after two. A space left at an end costs two n-gram features, and a
  name of punctuation alone is normalised to one space and has none (`NameEmbedder.NgramCount`).
* The single `Read` of a bulk reply loses data when it comes up short (`Resp.ShortReadIff`).
* A token is still accepted in the whole second named by its `exp` claim, where section 4.1.4 of RFC 7519
  asks for rejection on that second; the proofs follow the code.

## Model

| member | source | states |
|---|---|---|
| Scoring.Round4Nearest | api/internal/services/kyc_service.go:242-244 | a non-negative score is rounded to the nearest multiple of 1/10000, ties up |
| Scoring.Round4Negative | api/internal/services/kyc_service.go:242-244 | a negative score is rounded between half a place and one and a half toward zero, or to zero |
| Scoring.Round4StableIff | api/internal/services/kyc_service.go:242-244 | rounding twice is rounding once exactly above -0.00015 |
| Scoring.ConfidenceGrid | api/internal/services/kyc_service.go:234-244 | a confidence is a multiple of 1/10000 between 0 and 1, within 0.00005 of the clamped weighted sum |
| Scoring.ConfidenceIs | api/internal/services/kyc_service.go:234-244 | in numbers: 0.65 of the face, 0.25 of the name and 0.10 for matching demographics, at least 0 and at most 1, to the nearest multiple of 1/10000, ties up |
| Scoring.ConfidenceMonotone | api/internal/services/kyc_service.go:234-240 | a higher face or name score, or a gained demographic match, never lowers the confidence |
| Scoring.FullConfidenceIff | api/internal/services/kyc_service.go:234-244 | exactly which scores round to confidence 1 |
| Candidates.NameScoreIsMax | api/internal/services/kyc_service.go:206-211 | the name score of an identity is the maximum of 0 and all its name hits |
| Candidates.BestIsEarliest | api/internal/services/kyc_service.go:213-231 | the pass picks the earliest eligible face hit of maximal combined confidence, and nobody exactly when none is eligible |
| Candidates.BestCandidate | api/internal/services/kyc_service.go:205-232 | the two loops with their score map compute that choice |
| Candidates.NameOrderIrrelevant | api/internal/services/kyc_service.go:206-211 | permuting the name hits changes nothing |
| Candidates.FaceOrderKeepsConfidence | api/internal/services/kyc_service.go:213-231 | permuting the face hits never changes the best confidence nor whether somebody is found |
| Candidates.IneligibleIrrelevant | api/internal/services/kyc_service.go:216-222 | dropping hits without an identity or without metadata never changes the result |
| Decisions.EnrollTable | api/internal/services/kyc_service.go:65-72 | which of the four enrolment verdicts is given, by which of name and demographics agree with a duplicate face |
| Decisions.VerifyTable | api/internal/services/kyc_service.go:160-167 | exactly when a verification is MATCHED, when a partial match, when nothing, and never anything without liveness |
| Decisions.PerfectHitWins | api/internal/services/kyc_service.go:205-240 | beside a perfect hit only a candidate with matching demographics and scores within the rounding slack is chosen |
| Decisions.ReenrolRecognisedIff | api/internal/services/kyc_service.go:63-72 | a repeated enrolment is ALREADY_EXISTS for all search results exactly under the two threshold bounds |
| Decisions.ReverifyMatchedIff | api/internal/services/kyc_service.go:160-167 | a live verification of an enrolled person is MATCHED for all search results exactly under the two threshold bounds |
| Decisions.HitBlocksIff | api/internal/services/kyc_service.go:63-72 | a hit prevents a new identity in every list containing it exactly when its confidence is out of reach of any rival below the duplicate threshold |
| Decisions.PerfectHitBlocksIff | api/internal/services/kyc_service.go:63-72 | a perfect hit always prevents a new identity exactly when the duplicate threshold is within the rounding slack of 1 |
| Decisions.DuplicateHitBlocksIff | api/internal/services/kyc_service.go:63-72 | passing the duplicate threshold is never enough by itself, wherever a score can pass it |
| Decisions.DecisionConfidenceFloor | api/internal/services/kyc_service.go:65-82 | a duplicate or matched verdict carries at least the confidence its thresholds stand for |
| Preimage.PepperHash | api/internal/security/hash.go:16-25 | the loop hashes the normalised parts joined by a bar |
| Preimage.DateIsNormal | api/internal/services/kyc_service.go:268-270 | a validated date is left alone by normalisation |
| Preimage.DemographicPreimagesEqualIff | api/internal/security/hash.go:10-29 | for validated inputs the preimages are equal exactly when the dates of birth are and the genders differ at most in outer white space and letter case |
| Preimage.DemographicHashesEqualIff | api/internal/security/hash.go:16-29 | without a collision of the keyed hash the stored hashes match exactly when the demographics do |
| Preimage.NormalizeIs | api/internal/security/hash.go:10-12 | a part loses its outer white space and has its capitals made small, character by character |
| Preimage.NormalizeEqualIff | api/internal/security/hash.go:10-12 | two texts are normalised to the same exactly when they differ at most in outer white space and letter case |
| Preimage.HashedTexts | api/internal/security/hash.go:27-33 | what is hashed for a validated input: the date, a bar, the normalised gender; and the normalised name alone |
| Preimage.IsDateIff | api/internal/services/kyc_service.go:268-270 | the accepted dates are exactly the days of the Gregorian calendar in four, two and two digits |
| Preimage.GenderIff | api/internal/services/kyc_service.go:271-277 | a gender passes exactly when it is one of six words in any case and with any white space around it |
| Preimage.ValidInputIff | api/internal/services/kyc_service.go:258-279 | an input is valid exactly with an image, a name that is not blank, an existing date and a known gender, and otherwise the first of these that is missing is reported |
| Preimage.JoinInjective | api/internal/security/hash.go:18-23 | parts without a bar of their own can be read back from the joined text |
| Preimage.JoinNotInjective | api/internal/security/hash.go:18-23 | arbitrary parts cannot |
| PipelineStores.StoresAlwaysNested | api/internal/services/kyc_service.go:97-117 | in every run metadata implies a name vector implies a face vector, and no response and no result of a status record names an unknown identity or a wrong DID |
| PipelineStores.IdentitiesArePermanent | api/internal/services/kyc_service.go:97-117 | over any stretch of any run no vector or identity is lost and no stored metadata altered |
| PipelineStores.VerifyIsReadOnly | api/internal/services/kyc_service.go:138-192 | no step of a verify job changes a vector or an identity |
| PipelineStores.EnrolmentIsRecognised | api/internal/services/kyc_service.go:63-72 | in every run a later job of the same demographics that sees the new identity perfectly, with one such lookup answered, is ALREADY_EXISTS or MATCHED |
| PipelineStores.ResponsesAreConfident | api/internal/services/kyc_service.go:77-95 | in every run every response is the decision its search results call for, with at least the confidence of its thresholds |
| PipelineAnswers.LookupsAreAnswered | api/internal/services/kyc_service.go:215-222 | in every run an answered lookup finds the stored metadata or that there is none, and one that fails finds nothing |
| PipelineAnswers.ResponsesAreExplained | api/internal/services/kyc_service.go:63-192 | in every run every field of a response follows from the search results, the stored identities, the liveness and the thresholds, and no known face hit has a higher confidence than its person |
| PipelineAnswers.StoredResultsAreExplained | api/internal/services/kyc_service.go:246-256 | in every run the stored result of a transaction is the explained response to the job submitted under it |
| PipelineAnswers.IdentitiesAreEnrolled | api/internal/services/kyc_service.go:107-114 | in every run every stored identity carries the hashes and the DID of a validated, submitted enrolment |
| PipelineAnswers.MatchedIsTheSamePerson | api/internal/services/kyc_service.go:160-167 | in every run more than NO_MATCH needs a live person, and MATCHED a stored identity enrolled with the same date of birth and gender whose face and name scores reach the thresholds |
| PipelineStores.StepKeepsInv | api/internal/services/kyc_service.go:39-192 | every step of every process keeps the invariant behind these theorems |
| PipelineStatus.AcceptedOnceAndFirst | api/internal/services/async_service.go:60-68 | in every run, redelivery included, ACCEPTED is the first status written for a transaction and is never written again |
| PipelineStatus.QueuedJobsWereAccepted | api/internal/services/async_service.go:60-64 | a job is on the queue only after its ACCEPTED has been written |
| PipelineStatus.StoredRecordsAreShaped | api/internal/services/kyc_service.go:246-256 | the stored record is the last write, with a result exactly when COMPLETED, an error only when FAILED, the submitted type, and the callback address unless the worker failed it |
| PipelineStatus.AnsweredJobsWereSubmitted | api/cmd/worker/main.go:153-190 | a worker answers exactly the job validated and submitted under the transaction |
| PipelineStatus.SamePersonIsRecognised | api/internal/services/kyc_service.go:63-72 | the recognition theorem, for enrolment and live verification, stated on the submitted date of birth and gender |
| PipelineStatus.StepKeepsWrites | api/cmd/worker/main.go:142-190 | every step keeps the order and shape of the status writes |
| PipelineOrder.StatusNeverFalls | api/cmd/worker/main.go:142-190 | with single delivery, one record per publish and none for a failed one, a stored status only moves forward and a final one never changes, callback failures and lost writes included |
| PipelineOrder.StepKeepsOrder | api/cmd/worker/main.go:135-190 | every orderly step keeps one holder per transaction and the bound on its status |
| PipelineDisorder.AnyDeliveryRestarts | api/cmd/worker/main.go:120-131 | wherever a queued job is delivered its transaction stands at PROCESSING three steps later |
| PipelineDisorder.FinalStatusCanFall | api/cmd/worker/main.go:120-190 | every run with a final status and a record of its job that can be delivered goes on to one in which the status falls |
| PipelineDisorder.EachConditionIsNeeded | api/internal/messaging/kafka_rest.go:44-61 | for each of the three disorders of the queue there is a run with that one alone in which a status falls |
| PipelineService.Backend.Submit | api/internal/services/async_service.go:40-69 | a request is accepted exactly when it is valid and both calls succeed, and then its event is queued; an invalid one changes nothing, a failed publish is recorded as FAILED |
| PipelineService.Backend.ProcessEnroll | api/internal/services/kyc_service.go:39-136 | by steps of the machine only: when it answers and with which error it fails; an answer is explained by what the calls answered, recorded as COMPLETED, and ALREADY_EXISTS for a person perfectly seen; an error is recorded as FAILED, each if its write takes effect |
| PipelineService.Backend.ProcessVerify | api/internal/services/kyc_service.go:138-192 | by steps of the machine only: it answers exactly when embedder and searches do; an answer is explained by what they said, more than NO_MATCH only for a live person, MATCHED only for a stored one that agrees in everything and always for one perfectly seen; records as for enrolment |
| PipelineService.Backend.Store | api/internal/services/kyc_service.go:97-117 | it succeeds exactly when the three writes of a new identity are acknowledged, and then all three stores hold it |
| PipelineService.Backend.ReadAndChoose | api/internal/services/kyc_service.go:205-232 | the lookups of the candidate loop, interleaved with other processes: answered ones miss nobody stored at the beginning, exactly the failed ones find nothing; and the choice over their results |
| PipelineService.Backend.ProcessEvent | api/cmd/worker/main.go:135-190 | an event that opens is worked on; its answer is recorded as COMPLETED or its error as FAILED if the write takes effect, and its process ends |
| PipelineService.Backend.ConsumeBatch | api/cmd/worker/main.go:104-133 | the records of a poll are all delivered, exactly those of another type skipped without any effect, and every answer is one to the job of its record |
| RateLimiter.RateLimiter.Allow | api/internal/httpserver/ratelimit.go:24-39 | the answer and the new buckets are those of the call history |
| RateLimiter.CallsAreCounted | api/internal/httpserver/ratelimit.go:24-39 | the number of calls in an interval is the size of the set of these calls |
| RateLimiter.AdmissionsAreCounted | api/internal/httpserver/ratelimit.go:33-38 | the number of admitted calls likewise, each admitted after the history before it |
| RateLimiter.IntervalBound | api/internal/httpserver/ratelimit.go:24-39 | a closed interval of length L > 0 admits at most limit * (ceil(L/W) + 1) - 1 calls of a key |
| RateLimiter.BoundIsReached | api/internal/httpserver/ratelimit.go:24-39 | some history admits 2 * limit - 1 calls within one window length |
| RateLimiter.RefusalMeansFull | api/internal/httpserver/ratelimit.go:29-35 | a refusal finds exactly `limit` calls admitted since the window opened, at most W ago |
| RateLimiter.SteadyKeyIsNeverRefused | api/internal/httpserver/ratelimit.go:24-39 | a key with at most `limit` calls in every closed interval of length W is never refused |
| RateLimiter.KeysAreIndependent | api/internal/httpserver/ratelimit.go:28-38 | calls of other keys never change a key's bucket or answers |
| Decimal.AtoiItoa | api/internal/storage/redis_metadata.go:124-155 | printed lengths are parsed back |
| Decimal.ItoaUnique | api/internal/storage/redis_metadata.go:124-128 | a printed number is the only numeral of its value without a superfluous zero |
| Decimal.AtoiSigned | api/internal/storage/redis_metadata.go:155-158 | signs are understood up to the bounds of 64 bits, beyond which nothing is parsed |
| Decimal.AtoiReads | api/internal/storage/redis_metadata.go:155-158 | whatever is parsed is a numeral of that value behind at most one sign |
| Resp.WriteResp | api/internal/storage/redis_metadata.go:121-135 | the loop writes the arguments as an array of bulk strings |
| Resp.CommandRoundTrip | api/internal/storage/redis_metadata.go:121-135 | a decoder that refuses superfluous zeros gives back the arguments exactly, for all bytes, and leaves the following bytes |
| Resp.StreamRoundTrip | api/internal/storage/redis_metadata.go:107-118 | commands written one after the other decode to exactly these commands |
| Resp.Reader.ReadResp | api/internal/storage/redis_metadata.go:137-170 | the reader's calls amount to the reply function, with what is left unread |
| Resp.SimpleReplyRoundTrip | api/internal/storage/redis_metadata.go:146-153 | simple strings and integers are read back and exactly consumed |
| Resp.LoneLineFeed | api/internal/storage/redis_metadata.go:142-149 | a line may end in a line feed alone |
| Resp.BadReplies | api/internal/storage/redis_metadata.go:137-169 | a cut-off line, an unknown kind and a length that is no number are errors |
| Resp.ErrorReply | api/internal/storage/redis_metadata.go:150-151 | an error reply is an error with the server's text |
| Resp.NilReply | api/internal/storage/redis_metadata.go:154-161 | the nil bulk is recognised and exactly consumed |
| Resp.BulkReplyRoundTrip | api/internal/storage/redis_metadata.go:154-166 | with a filling read a bulk string of any bytes is read back and exactly consumed |
| Resp.ShortReadIff | api/internal/storage/redis_metadata.go:162-166 | exactly when a short read still gives the right value, and the right rest |
| RedisStore.RedisMetadataStore.SendCommand | api/internal/storage/redis_metadata.go:99-119 | after AUTH the server executes exactly the command sent, and the reader that consumed the AUTH reply reads its reply; a wrong password changes nothing |
| RedisStore.SetIsSave | api/internal/storage/redis_metadata.go:27-63 | under the two prefixes setting a key is saving one record, whatever the ids |
| RedisStore.RedisMetadataStore.SaveIdentity | api/internal/storage/redis_metadata.go:27-38 | a save is the next of the history exactly when the server executed it, and sets the key of the identity under its prefix |
| RedisStore.RedisMetadataStore.GetIdentity | api/internal/storage/redis_metadata.go:40-50 | a lookup returns the latest executed save, or not-found exactly when there is none |
| RedisStore.RedisMetadataStore.SaveStatus | api/internal/storage/redis_metadata.go:52-63 | the same for statuses |
| RedisStore.RedisMetadataStore.GetStatus | api/internal/storage/redis_metadata.go:65-75 | the same for statuses |
| History.ReplayHoldsLatest | api/internal/storage/metadata.go:15-20 | a lookup in the maps after any history finds the latest save of that id and kind |
| History.SavedIsReadBack | api/internal/storage/metadata.go:63-68 | a record is read back with every field as saved but the update time and a missing creation time |
| History.SavingAgainKeepsCreation | api/internal/storage/metadata.go:64-67 | saving again what was read keeps the creation time |
| JsonStore.JSONMetadataStore.LoadLocked | api/internal/storage/metadata.go:107-130 | a durable, readable file replaces the maps in memory, a missing map becoming empty; a missing, unreadable, empty or malformed one leaves them |
| JsonStore.JSONMetadataStore.SaveIdentity | api/internal/storage/metadata.go:59-70 | a successful save is the next of the history, a failed one leaves no trace in the file |
| JsonStore.JSONMetadataStore.SaveStatus | api/internal/storage/metadata.go:83-94 | the same for statuses |
| JsonStore.JSONMetadataStore.GetIdentity | api/internal/storage/metadata.go:72-81 | with a readable file the latest successful save, or nothing when there is none |
| JsonStore.JSONMetadataStore.GetStatus | api/internal/storage/metadata.go:96-105 | the same for statuses |
| JsonStore.Open | api/internal/storage/metadata.go:33-57 | a fresh path becomes durable with the first flush, and reopening gives back the same maps |
| Vectors.Normalize | api/internal/utils/vector.go:5-19 | the loops divide by the root of the sum of squares, and return the zero vector itself |
| Vectors.Cosine | api/internal/utils/vector.go:21-35 | the loop sums give the cosine, 0 for mismatched or zero vectors |
| Vectors.CauchySchwarz | api/internal/utils/vector.go:25-30 | the squared dot product is at most the product of the squared norms |
| Vectors.CosineBounded | api/internal/utils/vector.go:21-35 | the cosine of any two vectors is in [-1, 1] |
| Vectors.CosineSymmetric | api/internal/utils/vector.go:21-35 | the cosine is symmetric |
| Vectors.CosineScaleInvariant | api/internal/utils/vector.go:21-35 | stretching a vector by a positive factor leaves its cosines unchanged |
| Vectors.NormalizedIsUnit | api/internal/utils/vector.go:5-19 | a non-zero vector is normalised to squared norm exactly 1 |
| Vectors.CosineOfNormalized | api/internal/utils/vector.go:5-35 | normalising both vectors does not change their cosine |
| Vectors.CosineOfSelf | api/internal/utils/vector.go:21-35 | a non-zero vector has cosine 1 with its positive multiples |
| Vectors.CosineOfNothing | api/internal/utils/vector.go:22-33 | vectors of different lengths, empty ones and zero vectors have cosine 0 |
| Vectors.LawOfCosines | api/internal/utils/vector.go:21-35 | the cosine times the two lengths is the dot product, and the squared distance obeys the law of cosines |
| Vectors.CosineOneIff | api/internal/utils/vector.go:21-35 | the cosine of non-zero vectors is 1 exactly for positive multiples |
| NameEmbedder.NormalForm | inference/app/name_embedder.py:10-16 | a normalised name has only a-z, 0-9 and single spaces |
| NameEmbedder.NormalizeIs | inference/app/name_embedder.py:10-16 | a normalised name is the runs of letters and digits of the folded one with single spaces between, and one at an end where the stripped name has something else |
| NameEmbedder.TokensAreRuns | inference/app/name_embedder.py:40-40 | the tokens are the maximal runs of letters and digits of the folded name |
| NameEmbedder.WholeText | inference/app/name_embedder.py:40-40 | a normal form is its tokens with single spaces between them and perhaps one at either end |
| NameEmbedder.NormalizeTwice | inference/app/name_embedder.py:10-16 | normalising again is stripping |
| NameEmbedder.NormalizeStable | inference/app/name_embedder.py:10-16 | from the second pass on nothing changes |
| NameEmbedder.NormalizeOnceStableIff | inference/app/name_embedder.py:13-15 | one pass is stable exactly for names that begin and end in a letter or digit |
| NameEmbedder.TokensStable | inference/app/name_embedder.py:40-40 | the tokens are the same after every pass |
| NameEmbedder.NgramCount | inference/app/name_embedder.py:19-25 | a non-empty normal form of length L has 3L + 4 n-gram features less two for each outer space, and the single space none |
| NameEmbedder.NgramIff | inference/app/name_embedder.py:19-25 | the n-gram features are the non-blank pieces of two to four characters of the padded text |
| NameEmbedder.WeightIs | inference/app/name_embedder.py:45-45 | a feature weighs 1 and an eighth for each of its first eight characters |
| NameEmbedder.BucketHolds | inference/app/name_embedder.py:41-53 | a bucket holds the signed weights of the n-grams and tokens that hash there and 0.5 for each position and token that does |
| NameEmbedder.NameEmbedding | inference/app/name_embedder.py:28-58 | the in-place accumulation gives the normalised vector of the bucket sums |
| NameEmbedder.FeatureOrderIrrelevant | inference/app/name_embedder.py:41-47 | the order of the features does not matter |
| NameEmbedder.EmbeddingIsUnit | inference/app/name_embedder.py:55-58 | the embedding is zero or has squared norm exactly 1 |
| Token.EncodeRoundTrip | api/internal/security/jwt.go:56-58 | base64url decodes back for all bytes and contains no dot |
| Token.EncodeExamples | api/internal/security/jwt.go:56-58 | the encoding of the examples of section 10 of RFC 4648 and of its url-safe letters |
| Token.LineBreaksAreSkipped | api/internal/security/jwt.go:42-45 | line breaks do not matter to decoding |
| Token.TokenParts | api/internal/security/jwt.go:20-30 | a signed token splits into exactly its three parts |
| Token.TokenRoundTrip | api/internal/security/jwt.go:32-54 | with its secret a token yields the subject and the two instants in seconds through the whole second of exp and is expired afterwards |
| Token.OtherSecretRefusedIff | api/internal/security/jwt.go:37-41 | another secret is refused exactly when its keyed hash of the signed text differs |
| Token.AcceptedIsSigned | api/internal/security/jwt.go:32-54 | whatever is accepted is signed by the secret and carries its unexpired claims |
| Publisher.ValidateProduceResponse | api/internal/messaging/kafka_rest.go:96-123 | a body passes exactly when it is not of the known form or lists offsets without errors |
| Publisher.OutcomeClasses | api/internal/messaging/kafka_rest.go:44-60 | success is a status of 200 to 299, rejection one of 400 to 499, and all else is tried again |
| Publisher.Publish | api/internal/messaging/kafka_rest.go:24-62 | success exactly when the first decisive outcome is a delivery, with the number of posts, their content, the total wait and the reported failure, for every configured number of retries |

## Left out

- HTTP routing, CORS, multipart parsing, headers, logging, metrics and configuration: plumbing.
- The vector database, embedder, callback and Kafka clients: calls with arbitrary answers. The file publisher of audit events is best effort and leaves no trace the model reads.
- Face detection, inference and liveness: foreign libraries; a liveness verdict is an arbitrary answer.
- AES-GCM, SHA-256, HMAC, BLAKE2b, Unicode normalisation and JSON: parameters with a stated law. A sealed envelope opens to the job sealed in it, or not at all; base64 of the image is part of that.
- IEEE rounding and NaN: exact reals.
- The explanation list of a response, which repeats the decision's inputs against fixed display thresholds, and the message texts of errors.
- Random ids: a transaction id and an identity id are drawn fresh. The model draws an identity id at every decision, the service only for a new identity.
- The content of vectors in the pipeline: only which identities have one, since search results are arbitrary.
- The number of posts of one publish in the pipeline: the machine allows any number of posts that are kept and repeated, the source at most the configured retries.
- Batches of a consumer: the machine delivers record by record in any order; a lost batch is a set of records that are never delivered. Failing polls only delay.
- Timestamps in the pipeline: one clock reading per step serves creation and update.
- Two processes sharing the JSON file: there is no lock, so updates can be lost. The temporary file is not modelled beyond the atomic replacement.
- Resp.Receive: a reply length below -1 makes the client panic; the model reports it as such and proves nothing more about it.
- PipelineService.Backend.Others: stands for any steps of other processes; its body takes none, its contract allows all.
