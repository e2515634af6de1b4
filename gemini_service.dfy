/** The transcription client: cleans the encoded payload, makes one call to the remote model and
    turns its reply into transcript text or one fixed error. The remote model is a parameter. */
module GeminiService {
  import opened Types
  import opened JsStrings

  /** The fixed instruction sent beside the media. */
  const Instruction := "Please transcribe this media file verbatim. Return ONLY the transcription text, no preamble or markdown formatting blocks."

  /** The text returned when a successful reply carries no text. */
  const NoTranscription := "No transcription generated."

  /** The one message every failure of the remote call is reported with. */
  const TranscribeFailed := "Failed to transcribe media. Please ensure the file format is supported and the API key is valid."

  /** One request to the remote model: the inline media (type and base64 data) and the instruction. */
  datatype Request = Request(mimeType: string, data: string, instruction: string)

  /** What the remote model does with a request: reply, with a text field that may be absent,
      or fail (transport, authentication, quota, malformed reply — all alike here). */
  datatype Reply = Response(text: Option<string>) | Rejected(detail: string)

  /** How the browser's file read ended: a data URL, or an error whose `message` may be absent. */
  datatype ReadOutcome = Loaded(dataUrl: string) | ReadFailed(message: Option<string>)

  /** `base64Data.split(',')[1] || base64Data`: the second comma-separated field when there is one
      and it is not empty, otherwise the whole input. Either way the result is the input itself
      or a non-empty string free of commas; `CleanFields` says which part of the input it is. */
  function CleanBase64(base64Data: string): (clean: string)
    ensures clean == base64Data || (clean != "" && ',' !in clean)
  {
    var fields := Split(base64Data, ',');
    if |fields| > 1 && fields[1] != "" then fields[1] else base64Data
  }

  /** Every string with a comma is `header , field tail` with no comma in `header` or `field` and
      `tail` empty or starting at the second comma. Cleaning yields `field` when it is not
      empty and the whole input otherwise. */
  lemma CleanFields(header: string, field: string, tail: string)
    requires ',' !in header && ',' !in field
    requires tail == [] || tail[0] == ','
    ensures CleanBase64(header + [','] + field + tail) ==
              if field != [] then field else header + [','] + field + tail
  {
    var s := header + [','] + field + tail;
    assert s == header + [','] + (field + tail);
    SplitAfterField(header, field + tail, ',');
    if tail == [] {
      assert field + tail == field;
      SplitWithoutSeparator(field, ',');
    } else {
      assert field + tail == field + [','] + tail[1..];
      SplitAfterField(field, tail[1..], ',');
    }
  }

  /** Input with no comma (raw base64) is passed on unchanged. */
  lemma CleanWithoutComma(s: string)
    requires ',' !in s
    ensures CleanBase64(s) == s
  {
    SplitWithoutSeparator(s, ',');
  }

  /** Cleaning twice is cleaning once. */
  lemma CleanIdempotent(s: string)
    ensures CleanBase64(CleanBase64(s)) == CleanBase64(s)
  {
    var r := CleanBase64(s);
    if r != s {
      CleanWithoutComma(r);
    }
  }

  /** The base64 alphabet (section 4 of RFC 4648) with its padding character. */
  predicate IsBase64Char(c: char) {
    ('A' <= c <= 'Z') || ('a' <= c <= 'z') || ('0' <= c <= '9') || c == '+' || c == '/' || c == '='
  }

  predicate IsBase64(s: string) {
    forall i :: 0 <= i < |s| ==> IsBase64Char(s[i])
  }

  /** For a data URL (`data:<mediatype>;base64,<data>`, section 3 of RFC 2397) with a non-empty
      base64 payload, the second comma field is exactly the payload: everything after the
      first comma. */
  lemma CleanDataUrl(header: string, payload: string)
    requires ',' !in header && payload != [] && IsBase64(payload)
    ensures CleanBase64(header + [','] + payload) == payload
  {
    assert ',' !in payload;
    CleanFields(header, payload, []);
    assert header + [','] + payload + [] == header + [','] + payload;
  }

  /** The cases the client is written for, an empty payload, and a payload with a comma, where
      the code keeps only the text between the first and second comma. */
  lemma CleanExamples()
    ensures CleanBase64("data:audio/mp3;base64,AAAA") == "AAAA"
    ensures CleanBase64("AAAA") == "AAAA"
    ensures CleanBase64("data:x;base64,") == "data:x;base64,"
    ensures CleanBase64("a,b,c") == "b"
  {
    CleanFields("data:audio/mp3;base64", "AAAA", "");
    assert "data:audio/mp3;base64" + [','] + "AAAA" + "" == "data:audio/mp3;base64,AAAA";
    CleanWithoutComma("AAAA");
    CleanFields("data:x;base64", "", "");
    assert "data:x;base64" + [','] + "" + "" == "data:x;base64,";
    CleanFields("a", "b", ",c");
    assert "a" + [','] + "b" + ",c" == "a,b,c";
  }

  /** `response.text || "No transcription generated."` */
  function ResponseText(text: Option<string>): (r: string)
    ensures r != ""
    ensures text.Some? && text.value != "" ==> r == text.value
    ensures text.None? || text.value == "" ==> r == NoTranscription
  {
    if text.Some? && text.value != "" then text.value else NoTranscription
  }

  /** The one request `transcribeMedia` makes for a payload and a MIME type. */
  function RequestFor(base64Data: string, mimeType: string): Request {
    Request(mimeType, CleanBase64(base64Data), Instruction)
  }

  /** The remote model: how it answers each request, and every request it has received. */
  class RemoteModel {
    const respond: Request -> Reply
    var log: seq<Request>

    constructor (respond: Request -> Reply)
      ensures this.respond == respond && log == []
    {
      this.respond := respond;
      log := [];
    }

    /** One call to the model: the request is received, and answered as `respond` says. */
    method Generate(request: Request) returns (reply: Reply)
      modifies this`log
      ensures log == old(log) + [request] && reply == respond(request)
    {
      log := log + [request];
      reply := respond(request);
    }
  }

  /** `transcribeMedia(base64Data, mimeType)`: the model receives exactly one request, carrying
      the cleaned payload, the caller's MIME type and the fixed instruction; a reply becomes its
      text (or the fallback); any failure becomes the one fixed error. */
  method TranscribeMedia(base64Data: string, mimeType: string, model: RemoteModel)
    returns (outcome: Result<string, string>)
    modifies model`log
    ensures model.log == old(model.log) + [RequestFor(base64Data, mimeType)]
    ensures outcome.Failure? <==> model.respond(RequestFor(base64Data, mimeType)).Rejected?
    ensures outcome.Failure? ==> outcome.error == TranscribeFailed
    ensures outcome.Success? ==>
              outcome.value == ResponseText(model.respond(RequestFor(base64Data, mimeType)).text)
  {
    var request := RequestFor(base64Data, mimeType);
    var reply := model.Generate(request);
    match reply
    case Response(text) =>
      outcome := Success(ResponseText(text));
    case Rejected(_) =>
      outcome := Failure(TranscribeFailed);
  }
}
