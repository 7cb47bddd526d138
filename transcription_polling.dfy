/**
 * The polling loop of the audio ingest tool (src/mastra/tools/audio-ingest.ts:123-167):
 * after a transcription is started and its record saved as pending, the
 * provider is asked for the result up to thirty times. A `done` answer
 * completes the record, an `error` answer fails it and throws, and thirty
 * other answers end in a time-out.
 *
 * The provider's answer to the `a`-th query is `respond(a)`; the ten-second
 * wait between queries and the database saves are not part of this model.
 */
module TranscriptionPolling {
  import opened Wrappers

  const MaxAttempts: nat := 30

  datatype RecordStatus = Pending | Completed | Failed

  /** A `status` word other than the two the loop acts on. */
  type OtherWord = w: string | w != "done" && w != "error" witness "queued"

  /** The provider's `status` field: `"done"`, `"error"`, or any other word. */
  datatype ProviderStatus = StatusDone | StatusError | StatusOther(word: OtherWord)

  /** The fields of a provider answer that the loop reads. */
  datatype ProviderResult = ProviderResult(status: ProviderStatus, transcript: string, error: string)

  /** The two errors the loop throws. */
  datatype PollError = TranscriptionFailed(detail: string) | TranscriptionTimedOut

  /** The message each error is thrown with. */
  function ErrorMessage(e: PollError): string
  {
    match e
    case TranscriptionFailed(detail) => "Transcription failed: " + detail
    case TranscriptionTimedOut => "Transcription timed out"
  }

  /** How the tool call ends: a returned summary or a thrown error. */
  datatype Outcome =
    | Returned(transcriptionId: string, status: RecordStatus)
    | Thrown(error: PollError)

  /** A transcription record, updated in place as the answers come in. */
  class TranscriptionRecord {
    var s3Path: string
    var audioUrl: string
    var transcriptionId: string
    var status: RecordStatus
    var transcript: Option<string>
    var metadata: Option<ProviderResult>

    /** A new record is pending, with no transcript and no metadata. */
    constructor(s3Path: string, audioUrl: string, transcriptionId: string)
      ensures this.s3Path == s3Path && this.audioUrl == audioUrl && this.transcriptionId == transcriptionId
      ensures status == Pending && transcript == None && metadata == None
    {
      this.s3Path := s3Path;
      this.audioUrl := audioUrl;
      this.transcriptionId := transcriptionId;
      status := Pending;
      transcript := None;
      metadata := None;
    }

    /** A `done` answer: the record is completed with the answer's transcript, the answer kept as metadata. */
    method Complete(result: ProviderResult)
      modifies this
      ensures status == Completed && transcript == Some(result.transcript) && metadata == Some(result)
      ensures s3Path == old(s3Path) && audioUrl == old(audioUrl) && transcriptionId == old(transcriptionId)
    {
      status := Completed;
      transcript := Some(result.transcript);
      metadata := Some(result);
    }

    /** An `error` answer: the record is failed, the answer kept as metadata, the transcript left alone. */
    method Fail(result: ProviderResult)
      modifies this
      ensures status == Failed && transcript == old(transcript) && metadata == Some(result)
      ensures s3Path == old(s3Path) && audioUrl == old(audioUrl) && transcriptionId == old(transcriptionId)
    {
      status := Failed;
      metadata := Some(result);
    }
  }

  /** An answer that stops the polling. */
  predicate IsDecisive(status: ProviderStatus)
  {
    status.StatusDone? || status.StatusError?
  }

  /** The first query at or after `from` whose answer is decisive, or `MaxAttempts` when none is. */
  function FirstDecisive(respond: nat -> ProviderResult, from: nat): (k: nat)
    requires from <= MaxAttempts
    ensures from <= k <= MaxAttempts
    ensures forall a :: from <= a < k ==> !IsDecisive(respond(a).status)
    ensures k < MaxAttempts ==> IsDecisive(respond(k).status)
    decreases MaxAttempts - from
  {
    if from == MaxAttempts || IsDecisive(respond(from).status) then from
    else FirstDecisive(respond, from + 1)
  }

  /** How the polling settles: on the first decisive answer, or not within the attempts. */
  datatype Settlement =
    | Done(attempt: nat, result: ProviderResult)
    | Errored(attempt: nat, result: ProviderResult)
    | TimedOut

  function Settle(respond: nat -> ProviderResult): (s: Settlement)
    ensures s.Done? || s.Errored? ==> s.attempt < MaxAttempts && s.result == respond(s.attempt)
    ensures s.Done? ==> s.attempt == FirstDecisive(respond, 0) && respond(s.attempt).status == StatusDone
    ensures s.Errored? ==> s.attempt == FirstDecisive(respond, 0) && respond(s.attempt).status == StatusError
    ensures s.TimedOut? <==> FirstDecisive(respond, 0) == MaxAttempts
  {
    var k := FirstDecisive(respond, 0);
    if k == MaxAttempts then TimedOut
    else if respond(k).status == StatusDone then Done(k, respond(k))
    else Errored(k, respond(k))
  }

  /** The number of queries the loop sends. */
  function QueriesSent(respond: nat -> ProviderResult): nat
  {
    match Settle(respond)
    case TimedOut => MaxAttempts
    case Done(a, _) => a + 1
    case Errored(a, _) => a + 1
  }

  /** How the tool call ends. */
  function PollOutcome(transcriptionId: string, respond: nat -> ProviderResult): Outcome
  {
    match Settle(respond)
    case Done(_, _) => Returned(transcriptionId, Completed)
    case Errored(_, r) => Thrown(TranscriptionFailed(r.error))
    case TimedOut => Thrown(TranscriptionTimedOut)
  }

  /**
   * The loop. On `done` the record is completed with the answer's transcript
   * and the answer as metadata; on `error` it is failed with the answer as
   * metadata; on time-out it is left as it was. The other fields never change.
   */
  method AwaitTranscription(rec: TranscriptionRecord, respond: nat -> ProviderResult)
    returns (outcome: Outcome, queries: nat)
    modifies rec
    ensures outcome == PollOutcome(rec.transcriptionId, respond)
    ensures queries == QueriesSent(respond)
    ensures rec.s3Path == old(rec.s3Path) && rec.audioUrl == old(rec.audioUrl)
    ensures rec.transcriptionId == old(rec.transcriptionId)
    ensures Settle(respond).Done? ==>
      && rec.status == Completed
      && rec.transcript == Some(Settle(respond).result.transcript)
      && rec.metadata == Some(Settle(respond).result)
    ensures Settle(respond).Errored? ==>
      && rec.status == Failed
      && rec.transcript == old(rec.transcript)
      && rec.metadata == Some(Settle(respond).result)
    ensures Settle(respond).TimedOut? ==>
      rec.status == old(rec.status) && rec.transcript == old(rec.transcript) && rec.metadata == old(rec.metadata)
  {
    var id := rec.transcriptionId;
    var attempts := 0;
    queries := 0;
    while attempts < MaxAttempts
      invariant attempts <= MaxAttempts && queries == attempts
      invariant forall a :: 0 <= a < attempts ==> !IsDecisive(respond(a).status)
      invariant unchanged(rec)
      decreases MaxAttempts - attempts
    {
      var result := respond(attempts);
      queries := queries + 1;
      if result.status == StatusDone {
        rec.Complete(result);
        DoneCompletes(id, respond, attempts);
        break;
      } else if result.status == StatusError {
        rec.Fail(result);
        ErrorThrows(id, respond, attempts);
        outcome := Thrown(TranscriptionFailed(result.error));
        return;
      }
      attempts := attempts + 1;
    }
    if attempts >= MaxAttempts {
      NoDecisiveTimesOut(id, respond);
      outcome := Thrown(TranscriptionTimedOut);
      return;
    }
    outcome := Returned(rec.transcriptionId, rec.status);
  }

  /** The first decisive answer is the one after a run of indecisive ones. */
  lemma FirstDecisiveIs(respond: nat -> ProviderResult, k: nat)
    requires k <= MaxAttempts
    requires forall a :: 0 <= a < k ==> !IsDecisive(respond(a).status)
    requires k < MaxAttempts ==> IsDecisive(respond(k).status)
    ensures FirstDecisive(respond, 0) == k
  {
  }

  /** A record created for a transcription and polled to the end. */
  method RunTranscription(s3Path: string, audioUrl: string, transcriptionId: string, respond: nat -> ProviderResult)
    returns (rec: TranscriptionRecord, outcome: Outcome)
    ensures fresh(rec)
    ensures outcome == PollOutcome(transcriptionId, respond)
    ensures rec.status == (match Settle(respond)
                           case Done(_, _) => Completed
                           case Errored(_, _) => Failed
                           case TimedOut => Pending)
  {
    rec := new TranscriptionRecord(s3Path, audioUrl, transcriptionId);
    var queries;
    outcome, queries := AwaitTranscription(rec, respond);
  }

  // ---------------------------------------------------------------- properties of the polling

  /** The provider is asked at most thirty times, and at least once. */
  lemma QueriesBounded(respond: nat -> ProviderResult)
    ensures 1 <= QueriesSent(respond) <= MaxAttempts
  {
  }

  /**
   * A `done` answer after only non-decisive ones completes the call, with the
   * record's status reported back; polling stops there.
   */
  lemma DoneCompletes(transcriptionId: string, respond: nat -> ProviderResult, k: nat)
    requires k < MaxAttempts && respond(k).status == StatusDone
    requires forall a :: 0 <= a < k ==> !IsDecisive(respond(a).status)
    ensures Settle(respond) == Done(k, respond(k))
    ensures PollOutcome(transcriptionId, respond) == Returned(transcriptionId, Completed)
    ensures QueriesSent(respond) == k + 1
  {
    FirstDecisiveIs(respond, k);
  }

  /** An `error` answer after only non-decisive ones fails the call with the provider's message. */
  lemma ErrorThrows(transcriptionId: string, respond: nat -> ProviderResult, k: nat)
    requires k < MaxAttempts && respond(k).status == StatusError
    requires forall a :: 0 <= a < k ==> !IsDecisive(respond(a).status)
    ensures Settle(respond) == Errored(k, respond(k))
    ensures PollOutcome(transcriptionId, respond) == Thrown(TranscriptionFailed(respond(k).error))
    ensures ErrorMessage(PollOutcome(transcriptionId, respond).error) == "Transcription failed: " + respond(k).error
    ensures QueriesSent(respond) == k + 1
  {
    FirstDecisiveIs(respond, k);
  }

  /** Thirty answers that are neither `done` nor `error` end in a time-out. */
  lemma NoDecisiveTimesOut(transcriptionId: string, respond: nat -> ProviderResult)
    requires forall a :: 0 <= a < MaxAttempts ==> !IsDecisive(respond(a).status)
    ensures Settle(respond) == TimedOut
    ensures PollOutcome(transcriptionId, respond) == Thrown(TranscriptionTimedOut)
    ensures ErrorMessage(PollOutcome(transcriptionId, respond).error) == "Transcription timed out"
    ensures QueriesSent(respond) == MaxAttempts
  {
    FirstDecisiveIs(respond, MaxAttempts);
  }

  /** Two providers that agree on the first thirty answers have the same first decisive answer. */
  lemma {:induction false} FirstDecisiveAgrees(r1: nat -> ProviderResult, r2: nat -> ProviderResult, from: nat)
    requires from <= MaxAttempts
    requires forall a :: from <= a < MaxAttempts ==> r1(a) == r2(a)
    ensures FirstDecisive(r1, from) == FirstDecisive(r2, from)
    decreases MaxAttempts - from
  {
    if from < MaxAttempts {
      assert r1(from) == r2(from);
      FirstDecisiveAgrees(r1, r2, from + 1);
    }
  }

  /** Only the first thirty answers matter: the loop never looks further. */
  lemma LaterAnswersIgnored(transcriptionId: string, r1: nat -> ProviderResult, r2: nat -> ProviderResult)
    requires forall a :: 0 <= a < MaxAttempts ==> r1(a) == r2(a)
    ensures Settle(r1) == Settle(r2)
    ensures PollOutcome(transcriptionId, r1) == PollOutcome(transcriptionId, r2)
  {
    FirstDecisiveAgrees(r1, r2, 0);
  }
}
