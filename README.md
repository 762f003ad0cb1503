# PDF-to-speech reader, voice catalogue and header, in Dafny

This project models the client-side logic of a personal blog site:

- the **PDF-to-speech reader** (`pages/pdf-to-speech/index.tsx`). It cleans
  the extracted text and cuts it into chunks of three sentences. It drives
  the browser's speech synthesis through speak, pause, resume, stop, seek,
  next and previous. It also handles the utterance callbacks, the keyboard
  shortcuts, the PDF file checks and the list of offered voices;
- the **Apple voice catalogue** (`lib/voices-database.ts`): its queries over
  the voice table, the three-tier matching of a browser voice to a table
  row, the grouping by language and the display name;
- the **voice picker** (`pages/pdf-to-speech/VoiceSelector.tsx`). It enriches
  browser voices with their catalogue row and filters them by language and
  web support. It sorts them in place by quality and name, then picks a
  voice automatically. It also covers the hide-Default filter, the grouping,
  the badges and the dropdown lookup;
- the **fuzzy filter** hook (`hooks/useFuzzyFilter.ts`);
- the **header** (`components/navbar.tsx`). It covers the light/dark theme
  and its persistence, the four stacked sun/moon icons, the post the header
  links to and the URL it copies.

Files and modules:

| file | module | contents |
|---|---|---|
| strings.dfy | `Strings` | `trim`, `join`, `includes`, `startsWith`, ASCII `toLowerCase`, code-point string order |
| collections.dfy | `Collections` | `Option`, `filter`, `find`, `Array.from(new Set(xs)).sort()`, grouping into a dictionary |
| segmenter.dfy | `Segmenter` | `cleanTextForSpeech`, the sentence regular expression, `splitTextIntoChunks` |
| reader.dfy | `PdfToSpeech` | the reader's state machine, as effect functions and as the `Reader` class |
| voices.dfy | `VoiceCatalog` | `VoiceData`, every query, `matchBrowserVoice`, grouping, display name, a table excerpt |
| voice_selector.dfy | `VoiceSelection` | the picker pipeline and the `VoiceSelector` class |
| fuzzy_filter.dfy | `FuzzyFilter` | `filteredItems` of `useFuzzyFilter` |
| navbar.dfy | `Navbar` | theme resolution and toggle, icons, `postToShow`, copied URL, the `Header` class |

The reader is modelled twice, at two levels:

- **Effect functions** such as `SpeakChunkEffect`, `PauseEffect` and
  `KeyEffect` state what each handler does to the page state. The lemmas
  are proved about these functions.
- **The `Reader` class** has one field per state hook and ref. Each method
  updates those fields in place, as the handler does. Its `ensures` ties the
  new state to the effect function of the old state.

The calls the page makes on `window.speechSynthesis` are appended to a
`device` trace. The `speaking` and `pending` flags the page reads from it
are parameters. The PDF-to-Markdown converter is a parameter too:
`Some(markdown)`, or `None` when it throws.

## Model

| member | source | states |
|---|---|---|
| Segmenter.CleanTextForSpeech | pages/pdf-to-speech/index.tsx:120 | the cleaned text is the input with only whitespace cut from each end, and has no whitespace left at either end |
| Segmenter.MatchesCharacterized | pages/pdf-to-speech/index.tsx:123 | the scanner returns exactly one reading of the text: matches of `[^.!?]+[.!?]+` back to back, left to right, after terminators no match can start on and before a tail with no terminator; any list of matches read that way is the scanner's result |
| Segmenter.Sentences | pages/pdf-to-speech/index.tsx:123 | `match(...) \|\| [text]` always yields at least one sentence |
| Segmenter.SplitTextIntoChunks | pages/pdf-to-speech/index.tsx:122-134 | the loop pushing each non-blank group of three returns `Chunks(text)`, which the lemmas below characterise |
| Segmenter.ChunksNonEmptyAndTrimmed | pages/pdf-to-speech/index.tsx:127-131 | every chunk is non-empty and already trimmed |
| Segmenter.ChunkCountBound | pages/pdf-to-speech/index.tsx:124-126 | `n` sentences give at most ⌈n/3⌉ chunks |
| Segmenter.ChunksAreGroupsOfThree | pages/pdf-to-speech/index.tsx:126-132 | when no group starting at `3j` is blank there are exactly ⌈n/3⌉ chunks, and chunk `j` is sentences `3j..3j+2` (fewer at the end) joined by one space and trimmed |
| Segmenter.ChunksOfMatches | pages/pdf-to-speech/index.tsx:123-132 | when the expression matches, no group is dropped: chunk `j` is matches `3j..3j+2` joined and trimmed, and there are ⌈matches/3⌉ chunks |
| Segmenter.SingleSentenceChunks | pages/pdf-to-speech/index.tsx:126-131 | one sentence gives one chunk, its trimmed text, or none when it is blank |
| Segmenter.EmptyTextHasNoChunks | pages/pdf-to-speech/index.tsx:122-134 | the empty text gives no chunks |
| Segmenter.UnpunctuatedTextIsOneChunk | pages/pdf-to-speech/index.tsx:123-131 | text with no `.`, `!` or `?` is one chunk, the trimmed text, or none when it is blank |
| Segmenter.CleanedTextHasChunk | pages/pdf-to-speech/index.tsx:173-176 | cleaned text that is not empty always has at least one chunk |
| Segmenter.ExampleMatches | pages/pdf-to-speech/index.tsx:123 | "Hello. World. Done." matches as "Hello.", " World.", " Done.", each keeping the space before it |
| Segmenter.ThreeSentencesMakeOneChunk | pages/pdf-to-speech/index.tsx:122-134 | "Hello. World. Done." is the single chunk "Hello.  World.  Done." (three sentences, spaces doubled by the join) |
| VoiceCatalog.VoicesByLanguage | lib/voices-database.ts:1416-1422 | an order-preserving subsequence of the table holding exactly the rows with that language code, each as many times as the table holds it |
| VoiceCatalog.VoicesByQuality | lib/voices-database.ts:1427-1431 | a subsequence holding exactly the rows of that quality, each as many times as the table holds it |
| VoiceCatalog.EnglishVoices | lib/voices-database.ts:1436-1440 | a subsequence holding exactly the rows whose code starts with "en-", each as many times as the table holds it |
| VoiceCatalog.USEnglishVoices | lib/voices-database.ts:1445-1447 | a subsequence holding exactly the "en-US" rows, each as many times as the table holds it |
| VoiceCatalog.SiriVoices | lib/voices-database.ts:1452-1456 | a subsequence holding exactly the rows whose description exists and contains "Siri", each as many times as the table holds it |
| VoiceCatalog.PremiumVoices | lib/voices-database.ts:1461-1463 | a subsequence holding exactly the Premium rows, each as many times as the table holds it |
| VoiceCatalog.EnhancedVoices | lib/voices-database.ts:1468-1470 | a subsequence holding exactly the Enhanced rows, each as many times as the table holds it |
| VoiceCatalog.IOSCompatibleVoices | lib/voices-database.ts:1475-1477 | a subsequence holding exactly the rows supporting iOS, each as many times as the table holds it |
| VoiceCatalog.MacOSCompatibleVoices | lib/voices-database.ts:1482-1484 | a subsequence holding exactly the rows supporting macOS, each as many times as the table holds it |
| VoiceCatalog.WebCompatibleVoices | lib/voices-database.ts:1489-1491 | a subsequence holding exactly the rows supporting the web, each as many times as the table holds it |
| VoiceCatalog.AccessibilityRecommendedVoices | lib/voices-database.ts:1559-1566 | a subsequence holding exactly the Enhanced or Premium rows that support the web, each as many times as the table holds it |
| VoiceCatalog.USEnglishWithinEnglish | lib/voices-database.ts:1436-1447 | the US English list is a subsequence of the English list |
| VoiceCatalog.QualityShortcuts | lib/voices-database.ts:1427-1470 | the Premium and Enhanced queries equal the quality query for those qualities |
| VoiceCatalog.LanguageAndQualityCommute | lib/voices-database.ts:1416-1431 | narrowing one language's rows to a quality gives the same list, in the same order, as narrowing that quality's rows to the language |
| VoiceCatalog.VoiceByName | lib/voices-database.ts:1496-1498 | nothing exactly when no row has that name; otherwise the first row with it |
| VoiceCatalog.VoiceByIdentifier | lib/voices-database.ts:1503-1507 | nothing exactly when no row has that identifier; otherwise the first row with it |
| VoiceCatalog.AvailableLanguages | lib/voices-database.ts:1512-1517 | strictly ascending, so free of duplicates, and holding exactly the codes in the table |
| VoiceCatalog.AvailableVoiceNames | lib/voices-database.ts:1522-1525 | strictly ascending and holding exactly the names in the table |
| VoiceCatalog.AvailableLanguagesUnique | lib/voices-database.ts:1512-1517 | any strictly ascending list of exactly the table's codes is the function's result |
| VoiceCatalog.MatchBrowserVoice | lib/voices-database.ts:1531-1554 | the answer is a table row; there is none exactly when no row matches by identifier (either way round) or by name |
| VoiceCatalog.MatchTiers | lib/voices-database.ts:1531-1554 | an identifier match anywhere decides, and the first one is returned; failing that, the first row with the same name and language is returned when there is one; failing both, the first row with the same name; a name-and-language answer means no identifier match exists, and a name-only answer means neither earlier tier matches |
| VoiceCatalog.EmptyURIMatchesFirst | lib/voices-database.ts:1535-1539 | a browser voice with an empty URI matches the first row, since every identifier contains "" |
| VoiceCatalog.VoicesGroupedByLanguage | lib/voices-database.ts:1571-1585 | each language's list is exactly the rows of that language, in table order, and no list is empty; keys appear in first-seen order |
| VoiceCatalog.DisplayNameFrame | lib/voices-database.ts:1590-1599 | the display name starts with the voice's name and ends with " - " and its language |
| VoiceCatalog.DisplayNameShowsQuality | lib/voices-database.ts:1590-1599 | two voices differing only in quality get different display names |
| VoiceCatalog.DanielIsBritish | lib/voices-database.ts:317-340 | in the excerpt, looking up "Daniel" gives the British Default row, the first of several rows with that name |
| PdfToSpeech.ReaderVoices | pages/pdf-to-speech/index.tsx:35-41 | an order-preserving subsequence of the browser's voices holding exactly the "en-US…", "en_US", "Enhanced" and "Premium" ones, each as often as the browser lists it |
| PdfToSpeech.Reader.constructor | pages/pdf-to-speech/index.tsx:8-27 | the first render: no text, no chunks, nothing playing, chunk 0, no error |
| PdfToSpeech.Reader.LoadVoices | pages/pdf-to-speech/index.tsx:31-44 | only the voice list changes, to the offered voices |
| PdfToSpeech.Reader.SelectVoice | pages/pdf-to-speech/index.tsx:549-551 | only the selected index changes |
| PdfToSpeech.Reader.SpeakChunk | pages/pdf-to-speech/index.tsx:192-230 | past the last chunk it ends the reading at chunk 0; otherwise it cancels, then speaks the chunk with the selected voice if it exists |
| PdfToSpeech.Reader.Speak | pages/pdf-to-speech/index.tsx:232-254 | without text only the error is set; a stuck device is cancelled first; a paused reading resumes; otherwise the current chunk is spoken |
| PdfToSpeech.Reader.Pause | pages/pdf-to-speech/index.tsx:256-260 | the device is paused and the state becomes paused, not speaking |
| PdfToSpeech.Reader.Stop | pages/pdf-to-speech/index.tsx:262-268 | the cancel is flagged, the device cancelled, nothing plays and the position returns to 0 |
| PdfToSpeech.Reader.SeekToChunk | pages/pdf-to-speech/index.tsx:270-276 | the position is set; while playing or paused the cancel is flagged and the new chunk spoken |
| PdfToSpeech.Reader.GoToPrevious | pages/pdf-to-speech/index.tsx:278-281 | seeks to `max(0, current - 1)` |
| PdfToSpeech.Reader.GoToNext | pages/pdf-to-speech/index.tsx:283-286 | seeks to `min(chunks - 1, current + 1)` |
| PdfToSpeech.Reader.OnStart | pages/pdf-to-speech/index.tsx:209-213 | speaking, not paused, at the utterance's chunk |
| PdfToSpeech.Reader.OnEnd | pages/pdf-to-speech/index.tsx:215-217 | speaks the next chunk |
| PdfToSpeech.Reader.OnError | pages/pdf-to-speech/index.tsx:219-226 | the error is reported unless a cancel was flagged; playback stops and the flag is cleared |
| PdfToSpeech.Reader.HandleKeyDown | pages/pdf-to-speech/index.tsx:59-98 | the new state is `KeyEffect` of the old one: space, arrows, shift-?, Escape, and nothing in text fields |
| PdfToSpeech.Reader.ExtractText | pages/pdf-to-speech/index.tsx:164-189 | on success the text is cleaned and its chunks stored; on failure only the extraction error is set |
| PdfToSpeech.Reader.StartExtraction | pages/pdf-to-speech/index.tsx:148-152 | the error and the text are cleared and the position returns to 0 |
| PdfToSpeech.Reader.HandleFileChange | pages/pdf-to-speech/index.tsx:137-154 | no file does nothing; a non-PDF only sets the error; a PDF is extracted; the chunks stay those of the text |
| PdfToSpeech.Reader.HandleDrop | pages/pdf-to-speech/index.tsx:288-302 | a PDF is extracted; anything else, no file included, only sets the drop error; the chunks stay those of the text |
| PdfToSpeech.TextHasChunks | pages/pdf-to-speech/index.tsx:173-177 | a document built from extracted text that is not empty has at least one chunk |
| PdfToSpeech.FilesKeepDocumentValid | pages/pdf-to-speech/index.tsx:137-189 | choosing or dropping a file keeps the stored chunks equal to those of the stored text; a failed extraction leaves no text and the extraction error |
| PdfToSpeech.CancelFlagSticky | pages/pdf-to-speech/index.tsx:219-275 | once flagged, the cancel stays flagged through every control and callback except `onerror`, which clears it |
| PdfToSpeech.StopHidesOneError | pages/pdf-to-speech/index.tsx:219-268 | the error raised by a stop's cancel is not reported, and the next error is |
| PdfToSpeech.SpeakWithoutText | pages/pdf-to-speech/index.tsx:233-236 | with no text, speaking only sets the "No text to read" error |
| PdfToSpeech.SpeakFromRest | pages/pdf-to-speech/index.tsx:238-253 | from rest, whatever the device reports, it gets a cancel, then the current chunk with the selected voice; a device stuck with a pending utterance and not speaking gets one extra cancel before that |
| PdfToSpeech.SpaceTogglesPause | pages/pdf-to-speech/index.tsx:67-77 | space pauses a reading, and a second space resumes it at the same chunk through a device pause then resume |
| PdfToSpeech.LastChunkEndsReading | pages/pdf-to-speech/index.tsx:192-217 | the end of the last chunk stops playback at chunk 0 without a device call |
| PdfToSpeech.ChunkEndSpeaksNext | pages/pdf-to-speech/index.tsx:215-217 | the end of any other chunk cancels and speaks the next one |
| PdfToSpeech.NavigationInRange | pages/pdf-to-speech/index.tsx:278-286 | next and previous stay within the chunks, moving by one unless at an end |
| PdfToSpeech.NextThenPrevious | pages/pdf-to-speech/index.tsx:278-286 | away from the last chunk, previous undoes next; at rest it restores the whole playback state |
| PdfToSpeech.NextWhileSpeaking | pages/pdf-to-speech/index.tsx:270-286 | moving on while reading flags the cancel and speaks the next chunk at once |
| PdfToSpeech.SeekAtRestKeepsTarget | pages/pdf-to-speech/index.tsx:270-276 | at rest a seek only sets the position, to the index given, without clamping |
| PdfToSpeech.SeekPastEndEndsReading | pages/pdf-to-speech/index.tsx:270-276 | seeking past the last chunk while reading ends the reading at chunk 0 |
| PdfToSpeech.EscapeStops | pages/pdf-to-speech/index.tsx:93-96 | Escape leaves nothing playing, the help closed and the document untouched |
| PdfToSpeech.KeysIgnored | pages/pdf-to-speech/index.tsx:60-89 | keys in text fields, and arrows without text or with shift, change nothing |
| PdfToSpeech.KeysKeepDocument | pages/pdf-to-speech/index.tsx:59-98 | no key changes the document, the voices or the selection, and a flagged cancel stays flagged |
| PdfToSpeech.WrongTypeRefused | pages/pdf-to-speech/index.tsx:140-146 | a non-PDF only sets the select or drop error; no chosen file changes nothing |
| VoiceSelection.Rank | pages/pdf-to-speech/VoiceSelector.tsx:66-73 | the rank is below Default's exactly for catalogue Premium and Enhanced voices |
| VoiceSelection.OrderedTotal | pages/pdf-to-speech/VoiceSelector.tsx:66-76 | the comparator orders any two voices one way or the other |
| VoiceSelection.OrderedTransitive | pages/pdf-to-speech/VoiceSelector.tsx:66-76 | the comparator's order is transitive |
| VoiceSelection.Enrich | pages/pdf-to-speech/VoiceSelector.tsx:48-52 | one enriched voice per browser voice, in order, carrying `matchBrowserVoice`'s answer |
| VoiceSelection.CandidatesAreKept | pages/pdf-to-speech/VoiceSelector.tsx:48-63 | the candidates are exactly the enriched voices in the language asked for and usable on the web |
| VoiceSelection.CandidateFacts | pages/pdf-to-speech/VoiceSelector.tsx:48-63 | a candidate is a browser voice, in the language asked for, with its catalogue match, and a matched one supports the web |
| VoiceSelection.SortVoices | pages/pdf-to-speech/VoiceSelector.tsx:66-76 | the in-place sort leaves the array ordered by rank then name, as a permutation of its contents, with tied voices in their old order as JavaScript's stable sort keeps them |
| VoiceSelection.SortedCopy | pages/pdf-to-speech/VoiceSelector.tsx:66-77 | the kept list is sorted, a permutation of the candidates, and keeps tied candidates in their order |
| VoiceSelection.TiedIffBothOrdered | pages/pdf-to-speech/VoiceSelector.tsx:66-76 | the comparator returns 0 exactly for voices of equal rank and equal name |
| VoiceSelection.StableSortIsUnique | pages/pdf-to-speech/VoiceSelector.tsx:66-76 | two lists that are sorted, permutations of each other and keep tied voices in the same order are equal, so the sorted list is exactly the one a stable sort returns |
| VoiceSelection.AutoPick | pages/pdf-to-speech/VoiceSelector.tsx:81-88 | the pick is the first recommended voice when there is one, and the first voice otherwise |
| VoiceSelection.AutoPickOfSortedIsFirst | pages/pdf-to-speech/VoiceSelector.tsx:66-88 | on the sorted list the automatic pick is always the first voice |
| VoiceSelection.FilteredVoices | pages/pdf-to-speech/VoiceSelector.tsx:143-147 | an order-preserving subsequence, each kept voice as often as in the list: every voice when all qualities are shown, else exactly the voices that are not catalogue Default voices |
| VoiceSelection.HidingDefaultsDropsOnlyDefaults | pages/pdf-to-speech/VoiceSelector.tsx:143-147 | hiding drops a voice exactly when it is a catalogue Default voice; unmatched and recommended voices stay |
| VoiceSelection.GroupedVoices | pages/pdf-to-speech/VoiceSelector.tsx:149-160 | no grouping when it is off; otherwise each key's list is exactly the voices with that catalogue language (else browser language), in order |
| VoiceSelection.QualityBadgeText | pages/pdf-to-speech/VoiceSelector.tsx:99-124 | a badge exactly when the quality is known |
| VoiceSelection.BadgesNameQuality | pages/pdf-to-speech/VoiceSelector.tsx:99-124 | each badge is an icon followed by its quality's name, so different qualities get different badges |
| VoiceSelection.DownloadIndicator | pages/pdf-to-speech/VoiceSelector.tsx:126-141 | the download mark is shown exactly for catalogue Premium and Enhanced voices |
| VoiceSelection.DownloadIndicatorMeansRanked | pages/pdf-to-speech/VoiceSelector.tsx:126-141 | the mark goes exactly with a rank above Default, and hiding Default voices never drops a marked voice |
| VoiceSelection.OptionLabel | pages/pdf-to-speech/VoiceSelector.tsx:238-240 | a catalogue voice's label is its catalogue display name, which starts with the catalogue name and ends with its language (`DisplayNameFrame`); any other label is the browser name followed by exactly " (", the browser language and ")" |
| VoiceSelection.VoiceWithURI | pages/pdf-to-speech/VoiceSelector.tsx:223-229 | nothing exactly when no listed voice has that URI; otherwise the browser voice of the first listed voice with it |
| VoiceSelection.VoiceSelector.constructor | pages/pdf-to-speech/VoiceSelector.tsx:36-41 | no voices, all three options off, nothing reported |
| VoiceSelection.VoiceSelector.LoadVoices | pages/pdf-to-speech/VoiceSelector.tsx:43-89 | the list becomes the candidates sorted stably by rank and name; with no voice selected and a non-empty list, the automatic pick is reported once |
| VoiceSelection.VoiceSelector.SelectByURI | pages/pdf-to-speech/VoiceSelector.tsx:223-229 | the listed voice with that URI is reported, if there is one |
| VoiceSelection.VoiceSelector.ToggleShowAllQualities | pages/pdf-to-speech/VoiceSelector.tsx:171 | flips the show-all option, nothing else |
| VoiceSelection.VoiceSelector.ToggleGroupByLanguage | pages/pdf-to-speech/VoiceSelector.tsx:177 | flips the grouping option, nothing else |
| VoiceSelection.VoiceSelector.ToggleShowDetails | pages/pdf-to-speech/VoiceSelector.tsx:183 | flips the details option, nothing else |
| FuzzyFilter.SomePropMatchesExists | hooks/useFuzzyFilter.ts:7-10 | `.some` holds exactly when some listed property's value matches |
| FuzzyFilter.FilteredItems | hooks/useFuzzyFilter.ts:6-11 | an order-preserving subsequence of the items holding exactly the matching ones, each as often as the items hold it; none with no listed properties |
| FuzzyFilter.KeptIffSomePropertyMatches | hooks/useFuzzyFilter.ts:6-10 | an item is kept exactly when a listed property is truthy and its lower-cased text contains the lower-cased filter |
| FuzzyFilter.CaseInsensitive | hooks/useFuzzyFilter.ts:9 | filters that lower-case alike give the same result |
| FuzzyFilter.EmptyFilterKeepsTruthy | hooks/useFuzzyFilter.ts:7-9 | the empty filter keeps exactly the items with some truthy listed property |
| FuzzyFilter.NarrowingFilterKeepsSubsequence | hooks/useFuzzyFilter.ts:9 | if one filter occurs in another, the longer one's result is a subsequence of the shorter one's |
| Navbar.Mounted | components/navbar.tsx:50-69 | a saved "dark" gives dark, a saved "light" gives light, anything else the system preference; the class then matches |
| Navbar.Toggled | components/navbar.tsx:78-108 | the theme flips, the class matches it and the new choice is saved |
| Navbar.NoSavedChoiceFollowsSystem | components/navbar.tsx:58-68 | with no usable saved choice, state and class follow the system preference |
| Navbar.ToggledThemeSurvivesReload | components/navbar.tsx:50-108 | after a toggle, the next mount restores the same theme whatever the system preference |
| Navbar.ToggleTwiceRestores | components/navbar.tsx:73-109 | toggling twice restores state, class and saved value when a choice was saved and agreed with the state |
| Navbar.ShownIcon | components/navbar.tsx:200-231 | for each state and hover, exactly one of the four icons is visible |
| Navbar.IconPreviewsToggle | components/navbar.tsx:200-231 | at rest the icon shows the current theme; under the pointer it shows the theme a click would give |
| Navbar.ToggleTitle | components/navbar.tsx:189-193 | the title starts with "Switch to " |
| Navbar.TitleNamesToggledTheme | components/navbar.tsx:189-193 | the title names the theme a click switches to |
| Navbar.PostToShow | components/navbar.tsx:28-46 | nothing when the context hook throws; otherwise the current post if there is one, else the recent post, as combined at line 112 |
| Navbar.RecentPostIsFallback | components/navbar.tsx:112 | the recent post is linked exactly when there is no current post (or it is the same) |
| Navbar.CopiedUrl | components/navbar.tsx:114-120 | a URL is copied exactly when there is a post with a non-empty slug, and it starts with the posts address |
| Navbar.CopiedUrlNamesSlug | components/navbar.tsx:116 | what follows the posts address is the slug, so posts with different slugs copy different URLs |
| Navbar.Header.constructor | components/navbar.tsx:25-26 | both states start false; the class and the saved entry are what the browser holds |
| Navbar.Header.Mount | components/navbar.tsx:49-71 | with a window, the theme becomes `Mounted` of the old one; without one, nothing changes |
| Navbar.Header.ToggleTheme | components/navbar.tsx:73-109 | with a window, the theme becomes `Toggled` of the old one; without one, nothing changes |
| Navbar.Header.SetHovering | components/navbar.tsx:187-188 | only the hover state changes |
| Navbar.Header.VisibleIcon | components/navbar.tsx:200-231 | the drawn icon is the visible one for the current state |

## Left out

- Browser speech synthesis is not modelled. Its calls are recorded in the `device` trace, and its `speaking`/`pending` flags are parameters. Nothing models when the browser fires `onstart`, `onend` or `onerror`: each callback is a method the environment may call.
- The utterance callbacks of the source capture the React state of the render that created them. The model applies each callback to the current state, so it does not model stale closures.
- PdfToSpeech.Reader.HandleKeyDown: the keyboard listener is registered again only when `extractedText`, `isSpeaking`, `isPaused` or `showKeyboardHelp` change (pages/pdf-to-speech/index.tsx:102). Its `goToNext`, `goToPrevious` and `speak` therefore read the `currentChunk` and `selectedVoice` of that render. The model reads the current ones. For example, two ArrowRight presses at rest with three chunks leave the source at chunk 1, because both compute from the stale 0, while the model moves to chunk 2. `KeyEffect` and its lemmas describe a listener that sees the current state.
- PDF-to-Markdown conversion (`pdf2md`, `arrayBuffer`, `Buffer`) is a foreign call. It is the `markdown` parameter: `None` when the conversion throws.
- The rate and pitch sliders, `progress`, `isExtracting`, `totalChunks` and the `file` state are left out. They hold floating-point values or only feed the display.
- The five-second error auto-dismiss timer is left out, and so are `clearError`'s timer handling and `preventDefault`. `clearError` is modelled as clearing the error.
- The header's highlight flash on the "Scripting" text is left out: it is a DOM class removed by an 800 ms timer. The `/about-me` fallback at components/navbar.tsx:36-42 is left out too: it assigns `recentPost` to itself.
- `VoiceCatalog.VoiceDisplayName`: its facts are in the lemmas `DisplayNameFrame` and `DisplayNameShowsQuality`, not in its own contract.
- The full `APPLE_VOICES` table is left out. Every query takes the table as a parameter, and `Excerpt` holds seven of its rows.
- `toLowerCase` is modelled as ASCII case folding. `trim` removes exactly the ECMAScript WhiteSpace and LineTerminator characters, as JavaScript does. `localeCompare` and the default `sort` are modelled as code-point order, since a Dafny `char` is a Unicode scalar value. JavaScript compares UTF-16 code units, and the two orders differ between characters above U+FFFF and characters from U+E000 to U+FFFF: an emoji sorts after U+FF61 here and before it in JavaScript. Full Unicode case mapping and locale collation are not modelled.
- VoiceSelection.VoiceSelector.LoadVoices: `filterLanguage` is a parameter. The component's default of "en-" is not built in. The `onvoiceschanged` subscription is not modelled: a new voice list is a new call.
- The grouped map's key order follows first appearance, as JavaScript objects do for non-numeric keys. Numeric-looking keys are not reordered.
- `useFuzzyFilter` returns `setFilter` and the `filter` state as well. These only store the string, so only the filtering is modelled. `toString` is modelled for strings, integers, booleans, `null` and `undefined`. Other objects and floating-point numbers are left out.
- FuzzyFilter.ToText: a number is written with all its decimal digits. This matches JavaScript only for integers below 10^21 in magnitude that a double holds exactly, that is, up to 2^53. Larger numbers are rounded there, and from 10^21 on they print in exponent form ("1e+21").
- The reader's voice `<select>` is disabled while speaking (pages/pdf-to-speech/index.tsx:553). The model does not enforce this: `SelectVoice` may be called at any time.

## Notes on the code

- **Chunking.** A chunk is three matches of `/[^.!?]+[.!?]+/g` joined by a
  space and trimmed. When nothing matches, the whole text is the one
  sentence. `ThreeSentencesMakeOneChunk` shows "Hello. World. Done."
  becoming a single chunk.
- **Device handling.** Pause and
  resume are the device's own `pause()` and `resume()`. An error is reported
  unless a cancel was flagged.
- **Seeking.** `seekToChunk` does not clamp its target
  (`SeekAtRestKeepsTarget`). Only next and previous clamp, and the slider's
  range keeps its values in bounds.
