# ai-singing, modelled in Dafny

ai-singing turns a MusicXML score into sung audio. It runs in four stages:

- It reads the notes of the requested parts into events: rests, and pitches with their tied sub-notes.
- It joins the syllables of each part into words.
- It has every distinct word spoken once by a speech service, keeping the answers in a cache directory.
- It cuts, stretches and tunes the speech into notes and mixes the parts into one track.

This project models the logic of those stages, which is everything except the audio processing, the network and the files. It proves what that logic promises.

| module | file | models |
|---|---|---|
| `Util` | util.dfy | `not_none`, `s_to_ms`, `strip_word`; `error` as a failure result |
| `Dict` | dict.dfy | the insertion-ordered dictionary the builder fills, keyed by part id |
| `Score` | score.dfy | `events_from_mxml` over an already-parsed tree; `Rest`/`Pitch` |
| `ScoreFacts` | score_props.dfy | what the builder guarantees, and a worked example |
| `Lyrics` | lyrics.dfy | the empty-lyric check and `join_lyrics` |
| `LyricsFacts`, `LyricRuns` | lyrics_props.dfy, lyric_runs.dfy | what `join_lyrics` guarantees |
| `PipelineFacts` | pipeline_props.dfy | what each later stage relies on from the one before: the empty-lyric check and the slicing of joined events |
| `Render` | render.dfy | the sub-duration slice bounds, the note-name table, the mix-down |
| `Speech` | speech.dfy | `tts`, with the cache and the speech service as an object |
| `SpeechFacts`, `SpeechContext` | speech_props.dfy, speech_context.dfy | what `tts` guarantees |

Each stage that the program runs as a loop is a Dafny method with the same loop. The empty-lyric check `CheckLyrics` is proved directly against the property it decides. Every other loop method is proved equal to a function written step by step:

- `BuildEvents` and its loops are proved equal to `EventsFromMxml`.
- `JoinLyrics` is proved equal to `JoinLyricsSpec`. It works in place on an array of events.
- `SliceEvent` is proved equal to `Slices`, and `MixDown` to `MixFrom`.
- `Tts` is proved equal to `TtsSpec`. It runs against a `SpeechService` object.

The properties are proved about those functions, against reference definitions stated independently of the loops:

- for syllables: `WordText`, `WordOf`, `Span`;
- for the mix: `SampleSum`, `Longest`;
- for words: `Seen`, `FirstOccurrence`.

Modelling choices:

- **Errors.** A call of `error(msg)` is `Failure(Fatal(msg))`. A Python exception the code runs into is `Failure(Crash(name))`, for example an `IndexError` or a `KeyError`.
- **Numbers.** Durations are `real` milliseconds. Python's `int(x)` is `Trunc` (truncation toward zero). Python's `% 12` is Dafny's `%` (both non-negative for a positive modulus).
- **Tree and audio.** Integer element texts are given already converted. Samples are `int`s.
- **Speech.** The speech service answers each request with a fixed function `respond` of its text and context. A status other than 200 is a failure. The object keeps a ghost log of the requests it was sent.

On the octave: a written C4 is stored with octave 3, not 4. The code adds `octave_change` to the written octave. That value is fixed at -1, because reading the clef's octave change is commented out (parse_mxml.py:114,120-125). The model follows the code: a written C4 becomes degree 3, octave 3 (`ScoreFacts.ExampleSung`).

## Model

| member | source | states |
|---|---|---|
| Util.NotNone | util.py:10-13 | succeeds exactly when the value is present, and returns it unchanged; fails with "none" otherwise |
| Util.Trunc | util.py:16 | `int(x)`: the integer toward zero within 1 of `x` (floor for non-negative `x`, ceiling for negative `x`) |
| Util.SToMs | util.py:15-16 | `int(s·1000)`: within one millisecond below `s·1000` for non-negative `s` |
| Util.TruncMonotone | util.py:16 | truncation never decreases when its argument grows |
| Util.StripWord | util.py:18-19 | the result is no longer than the word and holds only `a`..`z` |
| Util.StripOfStripped | util.py:19 | a word already made of `a`..`z` strips to itself |
| Util.StripIdempotent | util.py:19 | stripping twice is stripping once |
| Util.StripCaseInsensitive | util.py:19 | two words that agree after ASCII lower-casing strip to the same word |
| Util.StripConcat | util.py:19 | stripping distributes over concatenation |
| Util.StripIsSubsequence | util.py:19 | the stripped word is a subsequence of the lower-cased word |
| Util.StripKeepsLetters | util.py:19 | each letter `a`..`z` occurs as often in the stripped word as in the lower-cased word, and nothing else occurs |
| Dict.Find | parse_mxml.py:112 | finds the position of a key, or reports that the key is absent |
| Dict.Put | parse_mxml.py:112 | `events[k] = v`: keys gain `k`; a new key is appended, an existing one is replaced in place; distinct keys stay distinct |
| Score.StepDegree | parse_mxml.py:155-157 | the step table is defined exactly on A..G, and its degrees are in 0..11 |
| Score.SyllabicIndex | parse_mxml.py:166-174 | the index of the syllabic text among begin, middle, end, single, or no index when it is none of them |
| Score.ReadDuration | parse_mxml.py:140-145 | succeeds exactly when the duration element and its text exist and divisions and tempo are non-zero; "none", "text is None" or ZeroDivisionError otherwise |
| Score.DurationMs | parse_mxml.py:140-145 | duration × divisions × tempo = division count × 60000 |
| Score.ReadPitch | parse_mxml.py:149-162 | degree = (step table + alter) mod 12, in 0..11; octave = written octave − 1; TypeError for an alter without text, "none" for a missing step, KeyError for an unknown step |
| Score.ReadLyric | parse_mxml.py:163-174 | succeeds exactly when text and syllabic exist and the syllabic is one of the four; the position names the syllabic; "none" and ValueError cases |
| Score.NoteStep | parse_mxml.py:139-190 | the duration is read first, and its failure is the note's failure; a rest appends `Rest([d])`; a pitch with a lyric appends a new pitch of one sub-note with the degree and octave read and the lyric text and position read; a note with neither is dropped; a pitch without a lyric is tied onto the last event, with IndexError when there is none and "previous event wasn't a pitch" after a rest; one more event exactly for a rest or lyric pitch, one more sub-duration exactly for a rest or pitch, earlier events untouched |
| Score.NoteStepWellFormed | parse_mxml.py:146-190 | every note keeps every event well formed (equal-length lists of at least one, degrees in 0..11, lyric and position present) |
| Score.Append | parse_mxml.py:146-183 | one event added at the end, one more sub-duration per duration, nothing else changes |
| Score.Tie | parse_mxml.py:184-190 | the last pitch's duration, degree and octave lists each gain the tied note's value at their end, and nothing else changes; the list keeps its length and earlier events |
| Score.MatchedIds | parse_mxml.py:89-98 | the ids of exactly the score parts whose part name is requested, one entry per requested score part, so its length is their count |
| Score.CountRequestedFront | parse_mxml.py:89-98 | the count of requested score parts, read from the first one |
| Score.EventsFromMxml | parse_mxml.py:82-102 | fails with the source's message unless the root is score-partwise, version is 4.0 and a part-list exists; fails with the parts-not-found message unless the number of score parts whose part name is requested equals the number of names |
| Score.ReadTempos | parse_mxml.py:133-138 | the directions loop is the function `ApplyTempos` |
| Score.ReadNotes | parse_mxml.py:139-190 | the notes loop, with the tie updating the last event, is the function `Notes` |
| Score.ReadMeasures | parse_mxml.py:115-190 | the measures loop, with running divisions and tempo, is `Measures` |
| Score.ReadParts | parse_mxml.py:107-112 | the parts loop, with the tempo carried across parts, is `Parts` |
| Score.BuildEvents | parse_mxml.py:74-192 | `events_from_mxml` as written is `EventsFromMxml` |
| ScoreFacts.NotesFacts | parse_mxml.py:139-190 | over a measure: events stay well formed; events = rest and lyric notes; sub-durations = rest and pitch notes |
| ScoreFacts.MeasuresFacts | parse_mxml.py:115-190 | the same over a part's measures |
| ScoreFacts.PartEventsCount | parse_mxml.py:112-190 | a part's events are well formed, one per rest or lyric note, with one sub-duration per rest or pitch note |
| ScoreFacts.DivisionsStayDefined | parse_mxml.py:126-127 | once divisions are defined, no later measure may define them again |
| ScoreFacts.DivisionsExactlyOnce | parse_mxml.py:113-131 | a part reads only if its first measure defines divisions (with text) and no later one does; without them in the first measure it fails with "missing divisions for a part" |
| ScoreFacts.LastTempoCons | parse_mxml.py:133-138 | the last tempo of a list with one more direction in front |
| ScoreFacts.ApplyTemposIsLast | parse_mxml.py:133-138 | reading the directions leaves the tempo of the last one that has a tempo |
| ScoreFacts.MeasureUsesLastTempo | parse_mxml.py:133-145 | every note of a measure is timed at the last tempo among its directions, which also carries on |
| ScoreFacts.DurationTempoRatio | parse_mxml.py:140-145 | durations scale inversely with the tempo |
| ScoreFacts.LastTempoAppend | parse_mxml.py:133-138 | the last tempo over two runs of directions, read one after the other |
| ScoreFacts.MeasuresTempo | parse_mxml.py:115-138 | a part's measures leave the last `sound@tempo` among all their directions, or the tempo they started from |
| ScoreFacts.PartsTempo | parse_mxml.py:107-138 | the tempo is set to 126 once per document and never reset between parts: after the parts loop it is the last `sound@tempo` among all matched parts' directions |
| ScoreFacts.PartsFacts | parse_mxml.py:110-112 | the parts loop adds exactly the ids of the matched parts read to the keys, keeps keys distinct and events well formed |
| ScoreFacts.EventsFromMxmlFacts | parse_mxml.py:89-112 | the result's keys are exactly the ids of the matched parts, once each; every event is well formed; every matched part has a non-empty id |
| ScoreFacts.PartIdsPresent | parse_mxml.py:110-111 | a matched part without an id makes the call fail |
| ScoreFacts.ExampleIds | parse_mxml.py:89-98 | the example's two part names match its two score parts |
| ScoreFacts.ExampleSung | parse_mxml.py:140-183 | a C4 quarter note sung "la" at tempo 60 is 1000 ms, degree 3, octave 3 |
| ScoreFacts.ExampleTied | parse_mxml.py:184-190 | a D4 without a lyric is tied onto it |
| ScoreFacts.ExampleFirstPart | parse_mxml.py:115-190 | the first part of the example, at tempo 60 |
| ScoreFacts.ExampleSecondPart | parse_mxml.py:115-190 | the second part, read at the carried tempo |
| ScoreFacts.ExampleParts | parse_mxml.py:107-112 | both parts, keyed by id in order |
| ScoreFacts.TempoCarriesAcrossParts | parse_mxml.py:107-112 | the tempo set in one part times the next part's notes: a quarter rest of the second part is 1000 ms, not the 476 ms of tempo 126 |
| Lyrics.CheckLyrics | main.py:65-69 | passes exactly when no pitch of any part has a missing or empty lyric; fails with "empty lyric" otherwise |
| Lyrics.SetWord | main.py:59-60 | assigning `lyric_word` changes only that word (on a rest, adds it) |
| Lyrics.Backfill | main.py:59-60 | exactly the events in the range get the word |
| Lyrics.JoinStep | main.py:32-61 | one iteration keeps the event count and the indices in range |
| Lyrics.FillWord | main.py:59-60 | the back-fill loop is `Backfill` |
| Lyrics.JoinLyrics | main.py:28-62 | `join_lyrics` as written, in place on the events, is `JoinLyricsSpec`: same words, same annotated events, same failures |
| LyricsFacts.OpenersMonotone | main.py:37-43 | the number of words begun never decreases |
| LyricsFacts.WordTextBeyond | main.py:37-43 | a word that has not begun yet is empty |
| LyricsFacts.StepShape | main.py:32-61 | begin and single append the stripped syllable as a word, with range 0..len−1; a begin also moves the word start to itself; a single also sets its own `lyric_word` to the syllable; middle and end append the syllable to the last word, starting just after the previous pitch's end; a pitch without a usable lyric changes only `prev`, words included; a rest changes nothing |
| LyricsFacts.StepNotes | main.py:32-61 | one iteration keeps every event a rest or a pitch as it was, with the same durations, degrees and octaves |
| LyricsFacts.JoinFromNotes | main.py:28-62 | `join_lyrics` returns the same notes it was given: rest or pitch, durations, degrees and octaves |
| LyricsFacts.SpanExtends | main.py:47-54 | a range inside a word still picks the same text once the word grows |
| LyricsFacts.StepInv | main.py:32-61 | one iteration keeps the invariant: one word per begin/single, each word the concatenation of its syllables, each range picking its syllable |
| LyricsFacts.JoinLyricsCorrect | main.py:28-62 | on parsed events (every pitch a syllable): what `join_lyrics` reads is unchanged, and so are the rests, pitches, durations, degrees and octaves; one word per begin or single; each word is the in-order concatenation of its stripped syllables; each syllable's range picks exactly that syllable out of its word; it starts at 0 for begin/single, and just after the previous pitch's end for middle/end |
| LyricsFacts.JoinedWordsStripped | main.py:35-54 | a word built from stripped syllables holds only `a`..`z` |
| LyricRuns.BrokenStays | main.py:36-58 | once the syllables break the begin·middle*·end shape, they stay broken |
| LyricRuns.EndBackfill | main.py:53-60 | an end writes the completed word onto every event from the word's begin to itself, rests included, and onto no other event |
| LyricRuns.RunStepInv | main.py:32-61 | on whole-word input every iteration succeeds and keeps every closed word's syllables labelled with it |
| LyricRuns.WholeWordsJoin | main.py:28-62 | when the syllables form whole words, joining succeeds and every syllable carries the word it belongs to |
| LyricRuns.ParsedIsTagged | main.py:33-34 | every parsed pitch has a lyric and a position, as `join_lyrics` expects |
| PipelineFacts.ParsedLyricsChecked | main.py:65-69 | over `events.values()` of a parsed score, every part is ready for `join_lyrics`, and the empty-lyric check fires exactly at a pitch whose lyric text is the empty string |
| Render.PyIndex | main.py:130-143 | Python list indexing: negative indices count from the end; IndexError outside |
| Render.NoteName | main.py:130-143 | the name table is indexed without error exactly for degrees −12..11; a degree 0..11 gives the name at that position |
| Render.NaturalNames | main.py:130-143 | every natural step letter is the name at its own degree |
| Render.NamesDenoteDegrees | main.py:130-143 | the name at each degree 0..11 reads back as that degree |
| Render.ParsedDegreesNamed | main.py:143 | every degree of a parsed pitch indexes the table in bounds |
| Render.PySlice | main.py:123-127 | Python slicing on in-range bounds is the plain slice |
| Render.Clamp | main.py:123-127 | a clamped bound lies within the length and keeps in-range bounds |
| Render.SliceAt | main.py:122-144 | a slice exists exactly when it has a degree, an octave and a named degree, and it is the expected one; IndexError otherwise |
| Render.SliceEvent | main.py:121-151 | the tuning loop is `Slices` |
| Render.SlicesFromOutcome | main.py:122-144 | the remaining slices succeed exactly when each one can be formed |
| Render.SlicePlan | main.py:122-144 | succeeds exactly when there are enough degrees and octaves and each degree is named; one slice per sub-duration; slice k spans [int(Σd[..k]·0.001·sr), int(Σd[..k+1]·0.001·sr)), starting at 0 and contiguous; tuned to `degree[k]` in `octave[k]` |
| Render.ParsedEventSlices | main.py:122-144 | a parsed pitch always slices without failure |
| PipelineFacts.JoinedEventSlices | main.py:114-144 | every pitch of the events `join_lyrics` returns for a parsed part slices without failure |
| Render.SumPrefixGrows | main.py:124-125 | with non-negative durations the prefix sums never decrease |
| Render.SumNonNegative | main.py:124-125 | non-negative durations sum to a non-negative total |
| Render.CutsInOrder | main.py:122-127 | with non-negative durations the cuts are non-negative and in order |
| Render.PySliceJoin | main.py:123-127 | adjacent slices join into one |
| Render.SlicesTile | main.py:121-151 | the first n slices joined are exactly the samples up to the n-th cut |
| Render.Overlay | main.py:167-170 | as long as the base, each sample the base's plus the top's where it lasts |
| Render.MixDown | main.py:167-170 | the mix-down loop is `MixFrom` |
| Render.MixFromSums | main.py:167-170 | the mix keeps the longest length and the per-sample sum of the parts so far |
| Render.SampleSumBeyond | main.py:167-170 | past every part's end the sum is 0 |
| Render.MixKeepsEveryPart | main.py:167-170 | the mix is as long as the longest part, and each sample is the sum of every part's sample there |
| Render.MixTie | main.py:167-170 | on equal lengths the mix so far stays the base, and either order gives the same |
| Speech.Context | tts.py:122-126 | previous is absent exactly for the first word; next is absent exactly for the last word |
| Speech.SpeechService.constructor | tts.py:32-49 | a service over a given cache and answer function, with no requests sent |
| Speech.SpeechService.GetCache | tts.py:35-49 | the cached entry for a word, or none |
| Speech.SpeechService.StreamingTts | tts.py:52-106 | the service's answer to the request; the request is logged; the cache is unchanged |
| Speech.SpeechService.SaveCache | tts.py:130-136 | the cache now maps the word to the entry |
| Speech.Tts | tts.py:109-140 | `tts` as written is `TtsSpec`: the same map, the cache and the requests sent as it says, the same failure |
| SpeechContext.JoinAppend | tts.py:124-125 | joining two non-empty word lists puts one space between them |
| SpeechContext.JoinTail | tts.py:125 | the words from `i` on are word `i`, a space, then the rest |
| SpeechContext.JoinSplit | tts.py:124-125 | the words before `i`, a space, then the words from `i` on make the whole line |
| SpeechContext.ContextRebuildsLine | tts.py:122-126 | previous context, word and next context, spaced, are the part's whole line |
| SpeechContext.FirstWordLine | tts.py:122-126 | the same for the first word |
| SpeechContext.LaterWordLine | tts.py:122-126 | the same for every later word |
| SpeechFacts.SeenStep | tts.py:112-114 | one more position adds exactly its stripped word to the words seen |
| SpeechFacts.SeenNextPart | tts.py:112 | the end of one part is the start of the next |
| SpeechFacts.UnseenIsFirst | tts.py:113-116 | a word not yet seen is at its first occurrence |
| SpeechFacts.SkipKeeps | tts.py:115-116 | a word resolved already is skipped and the invariant is kept |
| SpeechFacts.HitKeeps | tts.py:117-120 | a cache hit is taken from the cache without a request |
| SpeechFacts.CallResolves | tts.py:122-128 | a synthesized word becomes resolved |
| SpeechFacts.CallCaches | tts.py:128-136 | the cache gains exactly the synthesized word |
| SpeechFacts.CallRequests | tts.py:122-128 | the new request is for a word neither resolved nor cached, at its first occurrence, and its answer is what is stored |
| SpeechFacts.WordKeeps | tts.py:113-136 | every word keeps the invariant |
| SpeechFacts.FromKeeps | tts.py:112-136 | what every word and every move to the next part keep holds at the end |
| SpeechFacts.TtsEnd | tts.py:109-140 | the invariant holds after a successful `tts` |
| SpeechFacts.RequestedWord | tts.py:122-126 | each request is for one of the words |
| SpeechFacts.DistinctCount | tts.py:113-116 | distinct requests have as many words as requests |
| SpeechFacts.SubsetCard | tts.py:113-116 | a helper for the request bound: a subset of a finite set is no larger |
| SpeechFacts.RequestBound | tts.py:113-136 | there are no more requests than distinct stripped words |
| SpeechFacts.TtsFacts | tts.py:109-140 | the keys are exactly the stripped words of every part; a cached word comes from the cache and is never requested; no word is requested twice, so there are at most as many requests as distinct words; each request is for its word's first occurrence, across parts in order, with that part's context; its answer is stored under the same key in the result and the cache; the cache keeps what it had and gains exactly the requested words |

## Left out

- XML text parsing by ElementTree (parse_mxml.py:77-80): the input is an already-parsed tree. Integer texts that are not numerals (a `ValueError` from `int`) are not modelled, and neither is an empty text where `or error(...)` would catch it.
- `Pitch.__str__` and `Rest.__str__` (parse_mxml.py:20-21,67-71), and all `print` calls: output only.
- Score.NoteStep: the error message for a tie after a rest leaves out the measure number (parse_mxml.py:187).
- The lyric start and end times (parse_mxml.py:61-65) are never assigned by the core and are not modelled.
- main.py argument checks, file reading, and the try/finally export (main.py:11-25,171-172): I/O.
- The "not registered" check and the crop by character times (main.py:92-107): cache files and audio.
- Loading, resampling, stretching, pitch detection and tuning, silence (main.py:109-165, audio.py): floating-point DSP in foreign libraries. The model keeps their samples as given `int` sequences.
- Render.Overlay: pydub's clipping of summed samples to the sample width is not modelled.
- Render.MixDown: segments are compared by sample count, not by `duration_seconds` in floating point.
- Render.Cut: the product `sum·0.001·44100` is exact real arithmetic, not floating point.
- Speech.SpeechService.GetCache: returns the stored entry itself. The base64 and CSV round trip of a cache read (tts.py:39-46) is not modelled.
- Speech.SpeechService.StreamingTts: the HTTP request, the streamed JSON and base64 decoding (tts.py:53-106) are an answer function `respond`.
- `sleep(0.2)` (tts.py:138): timing only.
- Speech.Tts: the state after a failed request is not specified, because the program exits there.
- Util.StripWord: lower-cases ASCII only. Python's `str.lower` on other characters is not modelled.
- audio.py and test.py as a whole: wrappers over librosa and pydub, and an HTTP smoke script.
