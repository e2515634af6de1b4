/** The session state machine of the page: one status and two optional fields, moved from idle
    through uploading and processing to completed or error by the file-selection handler, and
    back to idle by the reset handler. The page's view is a function of these fields. */
module App {
  import opened Types
  import GeminiService
  import FileUploader

  /** The message shown when a caught error carries no message of its own. */
  const UnexpectedError := "An unexpected error occurred during transcription."

  /** The three state fields at one moment. */
  datatype Snapshot = Snapshot(status: Status, result: Option<TranscriptionResult>, error: Option<string>)

  /** The session invariant: an error is stored exactly in the error state and is never empty,
      and a result is stored exactly in the completed state. */
  predicate Consistent(s: Snapshot) {
    && (s.error.Some? <==> s.status == Error)
    && (s.error.Some? ==> s.error.value != "")
    && (s.result.Some? <==> s.status == Completed)
  }

  /** `err.message || "An unexpected error occurred during transcription."` */
  function CaughtMessage(message: Option<string>): (shown: string)
    ensures shown != ""
    ensures message.Some? && message.value != "" ==> shown == message.value
    ensures message.None? || message.value == "" ==> shown == UnexpectedError
  {
    if message.Some? && message.value != "" then message.value else UnexpectedError
  }

  /** The error banner above the main area, showing the stored error (if any). */
  datatype Banner = NoBanner | ErrorBanner(message: Option<string>)

  /** The main area: the result view, or the uploader told the current status. */
  datatype MainArea = ResultView(result: TranscriptionResult) | UploaderView(status: Status)

  datatype Screen = Screen(banner: Banner, main: MainArea)

  /** The page for a state: the banner exactly in the error state; the result view exactly when
      the status is completed and a result is stored; the uploader otherwise. */
  function Render(s: Snapshot): (screen: Screen)
    ensures screen.banner.ErrorBanner? <==> s.status == Error
    ensures screen.banner.ErrorBanner? ==> screen.banner.message == s.error
    ensures screen.main.ResultView? <==> s.status == Completed && s.result.Some?
    ensures screen.main.ResultView? ==> screen.main.result == s.result.value
    ensures screen.main.UploaderView? ==> screen.main.status == s.status
  {
    var banner := if s.status == Error then ErrorBanner(s.error) else NoBanner;
    if s.status == Completed && s.result.Some? then Screen(banner, ResultView(s.result.value))
    else Screen(banner, UploaderView(s.status))
  }

  /** In a consistent state the page shows exactly one of: the uploader (idle, uploading,
      processing, and under the banner in the error state) or the stored result (completed);
      the banner always has a message. */
  lemma RenderConsistent(s: Snapshot)
    requires Consistent(s)
    ensures Render(s).main.ResultView? <==> s.status == Completed
    ensures Render(s).main.UploaderView? <==> s.status in {Idle, Uploading, Processing, Error}
    ensures Render(s).banner.ErrorBanner? ==> Render(s).banner.message.Some?
    ensures !(Render(s).banner.ErrorBanner? && Render(s).main.ResultView?)
  {
  }

  /** Where a file selection ends, given how the read ended and how the model answers: an
      error with the caught message after a failed read; otherwise completed with the reply
      text and the file's name, or an error with the fixed message when the call fails. It
      is consistent and never a mid-flight state. */
  function FinalState(file: MediaFile, read: GeminiService.ReadOutcome,
                      respond: GeminiService.Request -> GeminiService.Reply): (s: Snapshot)
    ensures Consistent(s) && s.status in {Completed, Error}
    ensures read.ReadFailed? ==> s == Snapshot(Error, None, Some(CaughtMessage(read.message)))
    ensures read.Loaded? ==>
              var reply := respond(GeminiService.RequestFor(read.dataUrl, file.mimeType));
              && (reply.Response? ==>
                    s == Snapshot(Completed, Some(TranscriptionResult(GeminiService.ResponseText(reply.text), file.name)), None))
              && (reply.Rejected? ==> s == Snapshot(Error, None, Some(GeminiService.TranscribeFailed)))
  {
    match read
    case ReadFailed(message) => Snapshot(Error, None, Some(CaughtMessage(message)))
    case Loaded(dataUrl) =>
      match respond(GeminiService.RequestFor(dataUrl, file.mimeType))
      case Response(text) =>
        Snapshot(Completed, Some(TranscriptionResult(GeminiService.ResponseText(text), file.name)), None)
      case Rejected(_) =>
        Snapshot(Error, None, Some(CaughtMessage(Some(GeminiService.TranscribeFailed))))
  }

  /** The browser's event loop as the handlers of one session see it: `suspended` holds the
      session's state at each `await`, where a handler hands control back until the awaited
      work ends. */
  class EventLoop {
    const session: Session
    var suspended: seq<Snapshot>

    constructor (session: Session)
      ensures this.session == session && suspended == []
    {
      this.session := session;
      suspended := [];
    }

    /** An `await` in a handler of the session: its current state is what the page shows meanwhile. */
    method Await()
      modifies this`suspended
      ensures suspended == old(suspended) + [session.State()]
    {
      suspended := suspended + [session.State()];
    }
  }

  /** The state owned by the page component. */
  class Session {
    var status: Status
    var result: Option<TranscriptionResult>
    var error: Option<string>

    function State(): Snapshot
      reads this
    {
      Snapshot(status, result, error)
    }

    predicate Valid()
      reads this
    {
      Consistent(State())
    }

    constructor ()
      ensures Valid() && State() == Snapshot(Idle, None, None)
    {
      status := Idle;
      result := None;
      error := None;
    }

    /** `handleFileSelect`. The file read is given as `read` (how it ended), the remote model as
        `model`, and each `await` hands this session's current state to `loop`, the event loop
        of this session. It is called only from the uploader, so only while the uploader is on
        screen. */
    method HandleFileSelect(file: MediaFile, read: GeminiService.ReadOutcome,
                            model: GeminiService.RemoteModel, loop: EventLoop)
      requires Valid() && Render(State()).main.UploaderView? && loop.session == this
      modifies this, model`log, loop`suspended
      ensures Valid()
      ensures forall k :: |old(loop.suspended)| <= k < |loop.suspended| ==> Consistent(loop.suspended[k])
      // A failed read: the page waits once, uploading with the old error cleared; the model is
      // never called and processing is never reached.
      ensures read.ReadFailed? ==>
                && loop.suspended == old(loop.suspended) + [Snapshot(Uploading, None, None)]
                && model.log == old(model.log)
                && State() == Snapshot(Error, None, Some(CaughtMessage(read.message)))
      // A successful read: the page waits uploading, then processing, and the model receives
      // exactly one request for the file's data and type.
      ensures read.Loaded? ==>
                && loop.suspended == old(loop.suspended) + [Snapshot(Uploading, None, None), Snapshot(Processing, None, None)]
                && model.log == old(model.log) + [GeminiService.RequestFor(read.dataUrl, file.mimeType)]
      ensures read.Loaded? && model.respond(GeminiService.RequestFor(read.dataUrl, file.mimeType)).Response? ==>
                State() == Snapshot(Completed,
                                    Some(TranscriptionResult(GeminiService.ResponseText(
                                      model.respond(GeminiService.RequestFor(read.dataUrl, file.mimeType)).text), file.name)),
                                    None)
      ensures read.Loaded? && model.respond(GeminiService.RequestFor(read.dataUrl, file.mimeType)).Rejected? ==>
                State() == Snapshot(Error, None, Some(GeminiService.TranscribeFailed))
      ensures State() == FinalState(file, read, model.respond)
    {
      status := Uploading;
      error := None;
      loop.Await();
      match read
      case ReadFailed(message) =>
        error := Some(CaughtMessage(message));
        status := Error;
      case Loaded(dataUrl) =>
        status := Processing;
        loop.Await();
        var outcome := GeminiService.TranscribeMedia(dataUrl, file.mimeType, model);
        match outcome
        case Success(text) =>
          result := Some(TranscriptionResult(text, file.name));
          status := Completed;
        case Failure(message) =>
          error := Some(CaughtMessage(Some(message)));
          status := Error;
    }

    /** `handleReset`: from any state, back to idle with nothing stored. The new state does not
        depend on the old one, so resetting twice is resetting once. */
    method HandleReset()
      modifies this
      ensures Valid() && State() == Snapshot(Idle, None, None)
    {
      status := Idle;
      result := None;
      error := None;
    }
  }

  /** The page's wiring of a drop: the uploader is given the session's status and calls the
      session's file handler with what it forwards. A drop the gate rejects or ignores (while a
      transcription is in flight) leaves the session and the model untouched, with the
      rejection reason shown; a forwarded file is one the gate accepted, and its handling ends
      where `FinalState` says. */
  method DropOnUploader(session: Session, uploader: FileUploader.Uploader, files: Option<seq<MediaFile>>,
                        read: GeminiService.ReadOutcome, model: GeminiService.RemoteModel,
                        loop: EventLoop)
    returns (selected: Option<MediaFile>)
    requires session.Valid() && Render(session.State()).main.UploaderView? && loop.session == session
    modifies session, uploader, model`log, loop`suspended
    ensures session.Valid()
    ensures !uploader.isDragging
    ensures FileUploader.IsLoading(old(session.status)) || FileUploader.FirstFile(files).None? ==>
              selected == None && uploader.dragError == None
    ensures !FileUploader.IsLoading(old(session.status)) && FileUploader.FirstFile(files).Some? ==>
              && uploader.dragError == FileUploader.Rejection(FileUploader.FirstFile(files).value)
              && selected == (if uploader.dragError == None then FileUploader.FirstFile(files) else None)
    ensures selected.None? ==>
              && session.State() == old(session.State())
              && model.log == old(model.log) && loop.suspended == old(loop.suspended)
    ensures selected.Some? ==>
              && FileUploader.Rejection(selected.value) == None
              && session.State() == FinalState(selected.value, read, model.respond)
              && (read.ReadFailed? ==>
                    && model.log == old(model.log)
                    && loop.suspended == old(loop.suspended) + [Snapshot(Uploading, None, None)])
              && (read.Loaded? ==>
                    && model.log == old(model.log) + [GeminiService.RequestFor(read.dataUrl, selected.value.mimeType)]
                    && loop.suspended == old(loop.suspended) + [Snapshot(Uploading, None, None), Snapshot(Processing, None, None)])
  {
    selected := uploader.HandleDrop(session.status, files);
    if selected.Some? {
      session.HandleFileSelect(selected.value, read, model, loop);
    }
  }
}
