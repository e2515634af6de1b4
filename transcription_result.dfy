/** The result view: the transcript text it copies, downloads and shows, and the download file name. */
module TranscriptionResultPanel {
  import opened Types
  import opened JsStrings

  const TranscriptSuffix := "_transcript.txt"

  /** `fileName.split('.')[0] + "_transcript.txt"`: the name's stem is the longest prefix of it
      without a dot, so the stem is all of the name or is followed in it by a dot. */
  function DownloadName(fileName: string): (name: string)
    ensures |name| >= |TranscriptSuffix| && name[|name| - |TranscriptSuffix|..] == TranscriptSuffix
    ensures var stem := name[..|name| - |TranscriptSuffix|];
            && stem <= fileName
            && '.' !in stem
            && (|stem| < |fileName| ==> fileName[|stem|] == '.')
  {
    SplitHead(fileName, '.');
    var stem := Split(fileName, '.')[0];
    assert (stem + TranscriptSuffix)[..|stem|] == stem;
    stem + TranscriptSuffix
  }

  /** A name without a dot keeps all of it; a name with a dot keeps what precedes the first dot. */
  lemma DownloadNameByFirstDot(fileName: string, i: nat)
    ensures '.' !in fileName ==> DownloadName(fileName) == fileName + TranscriptSuffix
    ensures i < |fileName| && fileName[i] == '.' && '.' !in fileName[..i] ==>
              DownloadName(fileName) == fileName[..i] + TranscriptSuffix
  {
    if '.' !in fileName {
      SplitWithoutSeparator(fileName, '.');
    }
    if i < |fileName| && fileName[i] == '.' && '.' !in fileName[..i] {
      SplitAtFirst(fileName, '.', i);
    }
  }

  /** A dot-free stem followed by a dot is kept, whatever follows the dot. */
  lemma DownloadNameStem(stem: string, rest: string)
    requires '.' !in stem
    ensures DownloadName(stem + "." + rest) == stem + TranscriptSuffix
  {
    var f := stem + "." + rest;
    assert f[..|stem|] == stem;
    DownloadNameByFirstDot(f, |stem|);
  }

  /** One extension keeps the part before it. */
  lemma DownloadNameOneDot()
    ensures DownloadName("clip.mp4") == "clip_transcript.txt"
  {
    DownloadNameStem("clip", "mp4");
    assert "clip.mp4" == "clip" + "." + "mp4";
    assert "clip" + TranscriptSuffix == "clip_transcript.txt";
  }

  /** Several dots keep only the first segment. */
  lemma DownloadNameSeveralDots()
    ensures DownloadName("my.clip.mp4") == "my_transcript.txt"
  {
    DownloadNameStem("my", "clip.mp4");
    assert "my.clip.mp4" == "my" + "." + "clip.mp4";
    assert "my" + TranscriptSuffix == "my_transcript.txt";
  }

  /** A leading dot leaves an empty stem. */
  lemma DownloadNameLeadingDot(rest: string)
    ensures DownloadName("." + rest) == TranscriptSuffix
  {
    DownloadNameByFirstDot("." + rest, 0);
  }

  /** The text file `handleDownload` saves. */
  datatype TextFile = TextFile(name: string, content: string)

  /** The browser services the result view writes to: the system clipboard, and the files it
      has saved through download links, oldest first. */
  class Browser {
    var clipboard: Option<string>
    var saved: seq<TextFile>

    constructor ()
      ensures clipboard == None && saved == []
    {
      clipboard := None;
      saved := [];
    }
  }

  /** The result view for one transcription: the result it shows, whether the copy button shows
      its confirmation, and the text area's content. */
  class ResultPanel {
    const result: TranscriptionResult
    var copied: bool
    var textArea: string

    /** Mounting the view: no confirmation yet, and the text area starts with the transcript. */
    constructor (result: TranscriptionResult)
      ensures this.result == result && !copied && textArea == result.text
    {
      this.result := result;
      copied := false;
      textArea := result.text;
    }

    /** `handleCopy`: the clipboard write is awaited, and `written` says whether it succeeded.
        Only then does the clipboard hold the transcript text and the confirmation show; a
        rejected write (permission denied, no clipboard on the page) changes nothing. */
    method HandleCopy(browser: Browser, written: bool)
      modifies this`copied, browser`clipboard
      ensures written ==> browser.clipboard == Some(result.text) && copied
      ensures !written ==> browser.clipboard == old(browser.clipboard) && copied == old(copied)
    {
      if written {
        browser.clipboard := Some(result.text);
        copied := true;
      }
    }

    /** `handleDownload`: exactly one more file is saved, holding the transcript text under the
        name `DownloadName` gives; what the view shows does not change. */
    method HandleDownload(browser: Browser)
      modifies browser`saved
      ensures browser.saved == old(browser.saved) + [TextFile(DownloadName(result.fileName), result.text)]
    {
      browser.saved := browser.saved + [TextFile(DownloadName(result.fileName), result.text)];
    }
  }
}
