/**
 * The PDF reader page of pages/pdf-to-speech/index.tsx: the playback state
 * machine (speak, pause, stop, seek, next, previous), the utterance
 * callbacks, the keyboard shortcuts, the file checks and the voice filter.
 *
 * The browser's `speechSynthesis` object is not modelled as such: every call
 * the page makes on it is appended to the `device` trace, and the two flags
 * the page reads from it (`speaking`, `pending`) are parameters. The PDF to
 * Markdown conversion is a parameter too: `Some(markdown)` when it succeeds,
 * `None` when it throws.
 */
module PdfToSpeech {
  import opened Strings
  import opened Collections
  import opened VoiceCatalog
  import opened Segmenter

  /** One call on `window.speechSynthesis`. */
  datatype DeviceCall =
    | DeviceCancel
    | DeviceSpeak(chunk: int, text: string, voice: Option<BrowserVoice>)
    | DevicePause
    | DeviceResume

  const NoTextError := "No text to read. Please upload a PDF first."
  const SynthesisError := "An error occurred during speech synthesis."
  const SelectError := "Please select a valid PDF file"
  const DropError := "Please drop a valid PDF file"
  const ExtractError := "Failed to extract text from PDF. Please try another file."
  const PdfType := "application/pdf"

  /** The extracted text and its chunks; only a new file changes them. */
  datatype Document = Document(extractedText: string, chunks: seq<string>)

  /**
   * What the speech controls change: the two playback flags, the current
   * chunk, the cancel flag (`isCancellingRef`), the error banner and the
   * trace of device calls.
   */
  datatype Playback = Playback(
    isSpeaking: bool,
    isPaused: bool,
    currentChunk: int,
    isCancelling: bool,
    error: string,
    device: seq<DeviceCall>)

  /** The whole page state. */
  datatype ReaderState = ReaderState(
    doc: Document,
    voices: seq<BrowserVoice>,
    selectedVoice: nat,
    play: Playback,
    showKeyboardHelp: bool)

  /** What every reachable document satisfies: the chunks are those of the extracted text. */
  ghost predicate ValidDocument(doc: Document) {
    && IsTrimmed(doc.extractedText)
    && (doc.extractedText != "" ==> doc.chunks == Chunks(doc.extractedText))
  }

  function Initial(): ReaderState {
    ReaderState(Document("", []), [], 0, Playback(false, false, 0, false, "", []), false)
  }

  // ----- the voice list -----

  /** The voices the page offers: American English, or Enhanced and Premium ones. */
  predicate IsReaderVoice(v: BrowserVoice) {
    StartsWith(v.lang, "en-US") || v.lang == "en_US" || Contains(v.name, "Enhanced") || Contains(v.name, "Premium")
  }

  function ReaderVoices(available: seq<BrowserVoice>): (r: seq<BrowserVoice>)
    ensures IsSubsequence(r, available)
    ensures forall v :: v in r <==> v in available && IsReaderVoice(v)
    ensures forall v :: multiset(r)[v] == if IsReaderVoice(v) then multiset(available)[v] else 0
  {
    Filter(available, IsReaderVoice)
  }

  /** The voice an utterance gets: the selected one when it exists. */
  function VoiceOf(st: ReaderState): Option<BrowserVoice> {
    if |st.voices| > 0 && st.selectedVoice < |st.voices| then Some(st.voices[st.selectedVoice]) else None
  }

  // ----- speech controls -----

  /**
   * `speakChunk(i)`. A negative index reads `undefined`, which the utterance
   * constructor takes as no text.
   */
  function SpeakChunkEffect(doc: Document, voice: Option<BrowserVoice>, p: Playback, i: int): Playback {
    if i >= |doc.chunks| then p.(isSpeaking := false, isPaused := false, currentChunk := 0)
    else
      var text := if i >= 0 then doc.chunks[i] else "";
      p.(device := p.device + [DeviceCancel, DeviceSpeak(i, text, voice)])
  }

  /** `speak()`, given the device's `speaking` and `pending` flags. */
  function SpeakEffect(doc: Document, voice: Option<BrowserVoice>, p: Playback, deviceSpeaking: bool, devicePending: bool): Playback {
    if doc.extractedText == "" || |doc.chunks| == 0 then p.(error := NoTextError)
    else
      var p1 := if !deviceSpeaking && devicePending then p.(device := p.device + [DeviceCancel]) else p;
      if p1.isPaused then p1.(device := p1.device + [DeviceResume], isPaused := false, isSpeaking := true)
      else SpeakChunkEffect(doc, voice, p1, p1.currentChunk)
  }

  /** `pause()`. */
  function PauseEffect(p: Playback): Playback {
    p.(device := p.device + [DevicePause], isPaused := true, isSpeaking := false)
  }

  /** `stop()`: the cancel is flagged so that the error it raises is not reported. */
  function StopEffect(p: Playback): Playback {
    p.(isCancelling := true, device := p.device + [DeviceCancel], isSpeaking := false, isPaused := false, currentChunk := 0)
  }

  /** `seekToChunk(i)`: while reading, the reading restarts at `i`. */
  function SeekEffect(doc: Document, voice: Option<BrowserVoice>, p: Playback, i: int): Playback {
    if p.isSpeaking || p.isPaused then SpeakChunkEffect(doc, voice, p.(currentChunk := i, isCancelling := true), i)
    else p.(currentChunk := i)
  }

  /** `goToPrevious()`. */
  function PreviousEffect(doc: Document, voice: Option<BrowserVoice>, p: Playback): Playback {
    SeekEffect(doc, voice, p, if p.currentChunk - 1 > 0 then p.currentChunk - 1 else 0)
  }

  /** `goToNext()`. */
  function NextEffect(doc: Document, voice: Option<BrowserVoice>, p: Playback): Playback {
    SeekEffect(doc, voice, p, if |doc.chunks| - 1 < p.currentChunk + 1 then |doc.chunks| - 1 else p.currentChunk + 1)
  }

  // ----- utterance callbacks -----

  function OnStartEffect(p: Playback, i: int): Playback {
    p.(isSpeaking := true, isPaused := false, currentChunk := i)
  }

  function OnEndEffect(doc: Document, voice: Option<BrowserVoice>, p: Playback, i: int): Playback {
    SpeakChunkEffect(doc, voice, p, i + 1)
  }

  /** `onerror`: reported unless a cancel was flagged; the flag is cleared. */
  function OnErrorEffect(p: Playback): Playback {
    p.(error := if p.isCancelling then p.error else SynthesisError,
       isSpeaking := false, isPaused := false, isCancelling := false)
  }

  // ----- keyboard -----

  /** The `key` values the handler distinguishes; any other key is `OtherKey`. */
  datatype Key = SpaceKey | ArrowRightKey | ArrowLeftKey | QuestionKey | EscapeKey | OtherKey

  /** A key press; `inTextField` when its target is an input or a text area. */
  datatype KeyEvent = KeyEvent(key: Key, shift: bool, inTextField: bool)

  function KeyEffect(st: ReaderState, e: KeyEvent, deviceSpeaking: bool, devicePending: bool): ReaderState {
    if e.inTextField then st
    else match e.key
      case SpaceKey =>
        if st.doc.extractedText == "" then st
        else if st.play.isSpeaking then st.(play := PauseEffect(st.play))
        else st.(play := SpeakEffect(st.doc, VoiceOf(st), st.play, deviceSpeaking, devicePending))
      case ArrowRightKey =>
        if st.doc.extractedText != "" && !e.shift then st.(play := NextEffect(st.doc, VoiceOf(st), st.play)) else st
      case ArrowLeftKey =>
        if st.doc.extractedText != "" && !e.shift then st.(play := PreviousEffect(st.doc, VoiceOf(st), st.play)) else st
      case QuestionKey =>
        if e.shift then st.(showKeyboardHelp := !st.showKeyboardHelp) else st
      case EscapeKey =>
        var p := if st.play.isSpeaking || st.play.isPaused then StopEffect(st.play) else st.play;
        st.(play := p, showKeyboardHelp := false)
      case OtherKey => st
  }

  // ----- files -----

  /** The MIME type of a chosen or dropped file. */
  datatype FileInfo = FileInfo(mimeType: string)

  /** What a PDF file does before its text is extracted. */
  function BeginExtraction(st: ReaderState): ReaderState {
    st.(doc := st.doc.(extractedText := ""), play := st.play.(error := "", currentChunk := 0))
  }

  /** `extractTextFromPdf`: `markdown` is the converter's result, `None` when it throws. */
  function ExtractionEffect(st: ReaderState, markdown: Option<string>): ReaderState {
    match markdown
    case None => st.(play := st.play.(error := ExtractError))
    case Some(md) =>
      var text := CleanTextForSpeech(md);
      st.(doc := Document(text, Chunks(text)))
  }

  /** `handleFileChange`: no file does nothing; a non-PDF is refused. */
  function FileChangeEffect(st: ReaderState, f: Option<FileInfo>, markdown: Option<string>): ReaderState {
    if f.None? then st
    else if f.value.mimeType != PdfType then st.(play := st.play.(error := SelectError))
    else ExtractionEffect(BeginExtraction(st), markdown)
  }

  /** `handleDrop`: no file and a non-PDF are both refused. */
  function DropEffect(st: ReaderState, f: Option<FileInfo>, markdown: Option<string>): ReaderState {
    if f.Some? && f.value.mimeType == PdfType then ExtractionEffect(BeginExtraction(st), markdown)
    else st.(play := st.play.(error := DropError))
  }

  // ----- properties -----

  /** A reachable document with some text always has a chunk to read. */
  lemma TextHasChunks(doc: Document)
    requires ValidDocument(doc) && doc.extractedText != ""
    ensures |doc.chunks| >= 1
  {
    TrimOfTrimmed(doc.extractedText);
    assert CleanTextForSpeech(doc.extractedText) == doc.extractedText;
    CleanedTextHasChunk(doc.extractedText);
  }

  /** A successful extraction stores the text's own chunks; a failed one leaves no text behind. */
  lemma FilesKeepDocumentValid(st: ReaderState, f: Option<FileInfo>, markdown: Option<string>)
    requires ValidDocument(st.doc)
    ensures ValidDocument(FileChangeEffect(st, f, markdown).doc)
    ensures ValidDocument(DropEffect(st, f, markdown).doc)
    ensures f.Some? && f.value.mimeType == PdfType && markdown.None? ==>
      var s1 := DropEffect(st, f, markdown);
      s1.doc.extractedText == "" && s1.play.error == ExtractError
  {
  }

  /** Only `onerror` lowers the cancel flag. */
  lemma CancelFlagSticky(doc: Document, voice: Option<BrowserVoice>, p: Playback, i: int, ds: bool, dp: bool)
    requires p.isCancelling
    ensures SpeakEffect(doc, voice, p, ds, dp).isCancelling
    ensures PauseEffect(p).isCancelling && StopEffect(p).isCancelling
    ensures SeekEffect(doc, voice, p, i).isCancelling
    ensures NextEffect(doc, voice, p).isCancelling && PreviousEffect(doc, voice, p).isCancelling
    ensures OnStartEffect(p, i).isCancelling && OnEndEffect(doc, voice, p, i).isCancelling
    ensures !OnErrorEffect(p).isCancelling
  {
  }

  /** A stop hides the one error its cancel raises, and the next error is reported again. */
  lemma StopHidesOneError(p: Playback)
    ensures var p1 := OnErrorEffect(StopEffect(p));
      && p1.error == p.error && !p1.isCancelling && !p1.isSpeaking && p1.currentChunk == 0
      && OnErrorEffect(p1).error == SynthesisError
  {
  }

  /** Without text, speaking only reports the error. */
  lemma SpeakWithoutText(doc: Document, voice: Option<BrowserVoice>, p: Playback, ds: bool, dp: bool)
    requires ValidDocument(doc) && doc.extractedText == ""
    ensures SpeakEffect(doc, voice, p, ds, dp) == p.(error := NoTextError)
  {
  }

  /**
   * From rest, speaking utters the current chunk with the selected voice,
   * after a cancel; a device stuck with a pending utterance gets one more
   * cancel before that.
   */
  lemma SpeakFromRest(doc: Document, voice: Option<BrowserVoice>, p: Playback, ds: bool, dp: bool)
    requires doc.extractedText != "" && !p.isPaused && 0 <= p.currentChunk < |doc.chunks|
    ensures SpeakEffect(doc, voice, p, ds, dp).device ==
      p.device + (if !ds && dp then [DeviceCancel] else [])
      + [DeviceCancel, DeviceSpeak(p.currentChunk, doc.chunks[p.currentChunk], voice)]
  {
  }

  /** The space bar pauses a reading and a second press resumes it where it was. */
  lemma SpaceTogglesPause(st: ReaderState, ds: bool)
    requires ValidDocument(st.doc) && st.doc.extractedText != "" && st.play.isSpeaking
    ensures var space := KeyEvent(SpaceKey, false, false);
      var s1 := KeyEffect(st, space, ds, false);
      var s2 := KeyEffect(s1, space, ds, false);
      && s1.play.isPaused && !s1.play.isSpeaking
      && s2.play.isSpeaking && !s2.play.isPaused && s2.play.currentChunk == st.play.currentChunk
      && s2.play.device == st.play.device + [DevicePause, DeviceResume]
  {
    TextHasChunks(st.doc);
  }

  /** The end of the last chunk ends the reading and rewinds to the first chunk. */
  lemma LastChunkEndsReading(doc: Document, voice: Option<BrowserVoice>, p: Playback)
    requires |doc.chunks| >= 1
    ensures var p1 := OnEndEffect(doc, voice, p, |doc.chunks| - 1);
      !p1.isSpeaking && !p1.isPaused && p1.currentChunk == 0 && p1.device == p.device
  {
  }

  /** The end of any other chunk utters the next one. */
  lemma ChunkEndSpeaksNext(doc: Document, voice: Option<BrowserVoice>, p: Playback, i: nat)
    requires i + 1 < |doc.chunks|
    ensures OnEndEffect(doc, voice, p, i).device == p.device + [DeviceCancel, DeviceSpeak(i + 1, doc.chunks[i + 1], voice)]
  {
  }

  /** Next and previous stay on a chunk, and move by one where they can. */
  lemma NavigationInRange(doc: Document, voice: Option<BrowserVoice>, p: Playback)
    requires ValidDocument(doc) && doc.extractedText != "" && 0 <= p.currentChunk < |doc.chunks|
    ensures var c := NextEffect(doc, voice, p).currentChunk;
      0 <= c < |doc.chunks| && c == if p.currentChunk + 1 < |doc.chunks| then p.currentChunk + 1 else p.currentChunk
    ensures var c := PreviousEffect(doc, voice, p).currentChunk;
      0 <= c < |doc.chunks| && c == if p.currentChunk > 0 then p.currentChunk - 1 else 0
  {
    TextHasChunks(doc);
  }

  /** Away from the last chunk, previous undoes next. */
  lemma NextThenPrevious(doc: Document, voice: Option<BrowserVoice>, p: Playback)
    requires 0 <= p.currentChunk && p.currentChunk + 1 < |doc.chunks|
    ensures PreviousEffect(doc, voice, NextEffect(doc, voice, p)).currentChunk == p.currentChunk
    ensures !p.isSpeaking && !p.isPaused ==> PreviousEffect(doc, voice, NextEffect(doc, voice, p)) == p
  {
  }

  /** Moving while reading restarts the reading at the new chunk, flagging the cancel. */
  lemma NextWhileSpeaking(doc: Document, voice: Option<BrowserVoice>, p: Playback)
    requires p.isSpeaking && 0 <= p.currentChunk && p.currentChunk + 1 < |doc.chunks|
    ensures var p1 := NextEffect(doc, voice, p);
      && p1.isCancelling && p1.currentChunk == p.currentChunk + 1
      && p1.device == p.device + [DeviceCancel, DeviceSpeak(p.currentChunk + 1, doc.chunks[p.currentChunk + 1], voice)]
  {
  }

  /** At rest, seeking only moves the position, to exactly the index given: it does not clamp. */
  lemma SeekAtRestKeepsTarget(doc: Document, voice: Option<BrowserVoice>, p: Playback, i: int)
    requires !p.isSpeaking && !p.isPaused
    ensures SeekEffect(doc, voice, p, i) == p.(currentChunk := i)
  {
  }

  /** Seeking past the last chunk while reading ends the reading at chunk 0 without a device call. */
  lemma SeekPastEndEndsReading(doc: Document, voice: Option<BrowserVoice>, p: Playback, i: int)
    requires (p.isSpeaking || p.isPaused) && i >= |doc.chunks|
    ensures var p1 := SeekEffect(doc, voice, p, i);
      && !p1.isSpeaking && !p1.isPaused && p1.currentChunk == 0 && p1.isCancelling && p1.device == p.device
  {
  }

  /** Escape leaves nothing playing and the help closed. */
  lemma EscapeStops(st: ReaderState, ds: bool, dp: bool)
    ensures var s1 := KeyEffect(st, KeyEvent(EscapeKey, false, false), ds, dp);
      && !s1.play.isSpeaking && !s1.play.isPaused && !s1.showKeyboardHelp && s1.doc == st.doc
  {
  }

  /** Key presses in text fields, and arrows without text or with shift, change nothing. */
  lemma KeysIgnored(st: ReaderState, e: KeyEvent, ds: bool, dp: bool)
    requires e.inTextField || ((e.key == ArrowLeftKey || e.key == ArrowRightKey) && (st.doc.extractedText == "" || e.shift))
    ensures KeyEffect(st, e, ds, dp) == st
  {
  }

  /** Keys never change the document or the voices, and keep a flagged cancel flagged. */
  lemma KeysKeepDocument(st: ReaderState, e: KeyEvent, ds: bool, dp: bool)
    ensures var s1 := KeyEffect(st, e, ds, dp);
      && s1.doc == st.doc && s1.voices == st.voices && s1.selectedVoice == st.selectedVoice
      && (st.play.isCancelling ==> s1.play.isCancelling)
  {
    if st.play.isCancelling {
      CancelFlagSticky(st.doc, VoiceOf(st), st.play, 0, ds, dp);
    }
  }

  /** A file that is not a PDF only sets an error. */
  lemma WrongTypeRefused(st: ReaderState, f: FileInfo, markdown: Option<string>)
    requires f.mimeType != PdfType
    ensures FileChangeEffect(st, Some(f), markdown) == st.(play := st.play.(error := SelectError))
    ensures DropEffect(st, Some(f), markdown) == st.(play := st.play.(error := DropError))
    ensures FileChangeEffect(st, None, markdown) == st
  {
  }

  // ----- the page as an object -----

  /** The page's state hooks and refs, updated in place by its handlers. */
  class Reader {
    var extractedText: string
    var chunks: seq<string>
    var voices: seq<BrowserVoice>
    var selectedVoice: nat
    var isSpeaking: bool
    var isPaused: bool
    var currentChunk: int
    var isCancelling: bool
    var error: string
    var device: seq<DeviceCall>
    var showKeyboardHelp: bool

    function State(): ReaderState
      reads this
    {
      ReaderState(Document(extractedText, chunks), voices, selectedVoice,
                  Playback(isSpeaking, isPaused, currentChunk, isCancelling, error, device), showKeyboardHelp)
    }

    ghost predicate Valid()
      reads this
    {
      ValidDocument(State().doc)
    }

    constructor ()
      ensures State() == Initial() && Valid()
    {
      extractedText, chunks, voices, selectedVoice := "", [], [], 0;
      isSpeaking, isPaused, currentChunk, isCancelling, error, device := false, false, 0, false, "", [];
      showKeyboardHelp := false;
    }

    /** `loadVoices`: keeps the American English, Enhanced and Premium voices. */
    method LoadVoices(available: seq<BrowserVoice>)
      modifies this
      ensures State() == old(State()).(voices := ReaderVoices(available))
    {
      voices := Filter(available, IsReaderVoice);
    }

    method SelectVoice(i: nat)
      modifies this
      ensures State() == old(State()).(selectedVoice := i)
    {
      selectedVoice := i;
    }

    method SpeakChunk(i: int)
      modifies this
      ensures State() == old(State()).(play := SpeakChunkEffect(old(State()).doc, VoiceOf(old(State())), old(State()).play, i))
    {
      if i >= |chunks| {
        isSpeaking, isPaused, currentChunk := false, false, 0;
        return;
      }
      device := device + [DeviceCancel];
      var voice := if |voices| > 0 && selectedVoice < |voices| then Some(voices[selectedVoice]) else None;
      var text := if i >= 0 then chunks[i] else "";
      device := device + [DeviceSpeak(i, text, voice)];
    }

    method Speak(deviceSpeaking: bool, devicePending: bool)
      modifies this
      ensures State() == old(State()).(play := SpeakEffect(old(State()).doc, VoiceOf(old(State())), old(State()).play, deviceSpeaking, devicePending))
    {
      if extractedText == "" || |chunks| == 0 {
        error := NoTextError;
        return;
      }
      if !deviceSpeaking && devicePending {
        device := device + [DeviceCancel];
      }
      if isPaused {
        device := device + [DeviceResume];
        isPaused, isSpeaking := false, true;
        return;
      }
      SpeakChunk(currentChunk);
    }

    method Pause()
      modifies this
      ensures State() == old(State()).(play := PauseEffect(old(State()).play))
    {
      device := device + [DevicePause];
      isPaused, isSpeaking := true, false;
    }

    method Stop()
      modifies this
      ensures State() == old(State()).(play := StopEffect(old(State()).play))
    {
      isCancelling := true;
      device := device + [DeviceCancel];
      isSpeaking, isPaused, currentChunk := false, false, 0;
    }

    method SeekToChunk(i: int)
      modifies this
      ensures State() == old(State()).(play := SeekEffect(old(State()).doc, VoiceOf(old(State())), old(State()).play, i))
    {
      currentChunk := i;
      if isSpeaking || isPaused {
        isCancelling := true;
        SpeakChunk(i);
      }
    }

    method GoToPrevious()
      modifies this
      ensures State() == old(State()).(play := PreviousEffect(old(State()).doc, VoiceOf(old(State())), old(State()).play))
    {
      var target := if currentChunk - 1 > 0 then currentChunk - 1 else 0;
      SeekToChunk(target);
    }

    method GoToNext()
      modifies this
      ensures State() == old(State()).(play := NextEffect(old(State()).doc, VoiceOf(old(State())), old(State()).play))
    {
      var target := if |chunks| - 1 < currentChunk + 1 then |chunks| - 1 else currentChunk + 1;
      SeekToChunk(target);
    }

    method OnStart(i: int)
      modifies this
      ensures State() == old(State()).(play := OnStartEffect(old(State()).play, i))
    {
      isSpeaking, isPaused, currentChunk := true, false, i;
    }

    method OnEnd(i: int)
      modifies this
      ensures State() == old(State()).(play := OnEndEffect(old(State()).doc, VoiceOf(old(State())), old(State()).play, i))
    {
      SpeakChunk(i + 1);
    }

    method OnError()
      modifies this
      ensures State() == old(State()).(play := OnErrorEffect(old(State()).play))
    {
      if !isCancelling {
        error := SynthesisError;
      }
      isSpeaking, isPaused, isCancelling := false, false, false;
    }

    method HandleKeyDown(e: KeyEvent, deviceSpeaking: bool, devicePending: bool)
      modifies this
      ensures State() == KeyEffect(old(State()), e, deviceSpeaking, devicePending)
    {
      if e.inTextField {
        return;
      }
      match e.key {
        case SpaceKey =>
          if extractedText == "" {
            return;
          }
          if isSpeaking {
            Pause();
          } else {
            Speak(deviceSpeaking, devicePending);
          }
        case ArrowRightKey =>
          if extractedText != "" && !e.shift {
            GoToNext();
          }
        case ArrowLeftKey =>
          if extractedText != "" && !e.shift {
            GoToPrevious();
          }
        case QuestionKey =>
          if e.shift {
            showKeyboardHelp := !showKeyboardHelp;
          }
        case EscapeKey =>
          if isSpeaking || isPaused {
            Stop();
          }
          showKeyboardHelp := false;
        case OtherKey =>
      }
    }

    /** `extractTextFromPdf`, after the converter returned `markdown` (or threw). */
    method ExtractText(markdown: Option<string>)
      modifies this
      ensures State() == ExtractionEffect(old(State()), markdown)
    {
      match markdown {
        case None =>
          error := ExtractError;
        case Some(md) =>
          var cleaned := CleanTextForSpeech(md);
          extractedText := cleaned;
          var textChunks := SplitTextIntoChunks(cleaned);
          chunks := textChunks;
      }
    }

    /** What a PDF file does before its text is extracted. */
    method StartExtraction()
      modifies this
      ensures State() == BeginExtraction(old(State()))
    {
      error, extractedText, currentChunk := "", "", 0;
    }

    method HandleFileChange(f: Option<FileInfo>, markdown: Option<string>)
      modifies this
      requires Valid()
      ensures State() == FileChangeEffect(old(State()), f, markdown) && Valid()
    {
      FilesKeepDocumentValid(State(), f, markdown);
      if f.None? {
        return;
      }
      if f.value.mimeType != PdfType {
        error := SelectError;
        return;
      }
      StartExtraction();
      ExtractText(markdown);
    }

    method HandleDrop(f: Option<FileInfo>, markdown: Option<string>)
      modifies this
      requires Valid()
      ensures State() == DropEffect(old(State()), f, markdown) && Valid()
    {
      FilesKeepDocumentValid(State(), f, markdown);
      if f.Some? && f.value.mimeType == PdfType {
        StartExtraction();
        ExtractText(markdown);
      } else {
        error := DropError;
      }
    }
  }
}
