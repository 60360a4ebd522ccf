# Digi-Ellie voice and message core, in Dafny

This project models the core of the Digi-Ellie Discord bot:

- **The voice module** (`VoiceModule`, src/discord_bot/voice.cpp). It buffers each
  speaker's audio and streams it in batches to a speech recogniser. It merges the
  recogniser's partial transcripts into committed and pending text. When a speaker
  has been silent for long enough, it finishes the segment and hands the assembled
  transcript on. It also converts between the WAV and Discord audio formats.
- **The PCM helpers** (src/audio_utils.cpp): stereo to mono, the guards of the
  resampler, and the WAV header written by `savePCMToWav`.
- **The text-channel module** (`MessageModule`, src/discord_bot/message.cpp). It turns a
  message into a prompt, notifies listeners of the reply and posts the reply, split into
  pieces of at most 2000 bytes.
- **The conversation history** (src/conversation.cpp).
- **The system-command test** (src/system_control.cpp).

Modules:

| module | file | models |
|---|---|---|
| `Common` | common.dfy | bytes, 16/32-bit words, little-endian encodings, C++ truncating division |
| `Transcript` | transcript.dfy | `mergePartialTranscript`: the function `Merge`, the loop method and its properties |
| `VoiceSpec` | voice_spec.dfy | the per-speaker state machine as functions of the state, and its properties |
| `Voice` | voice.dfy | the `VoiceModule` class with its three maps, each method proved equal to its `VoiceSpec` function |
| `VoiceAudio` | voice_audio.dfy | `convertToWav` and `convertTTSAudioFormat` |
| `AudioUtils` | audio_utils.dfy | `stereoToMono`, `downsamplePCM` guards, `WavHeader` and `savePCMToWav` |
| `Messages` | messages.dfy | the `MessageModule` class |
| `Conversation` | conversation.dfy | the history as a class holding a sequence of (role, content) entries |
| `SystemControl` | system_control.dfy | `isSystemCommand` |

How the outside world is represented:

- **The speech recogniser** is one oracle, `stt(callsSoFar, call)`. A reply is a text or an
  exception, and every call is logged in order, so "called once" and "called with the whole
  accumulator" are statements about the log.
- **Time** is a number of milliseconds passed in by the caller.
- **`sendVoiceMessage`** appends (speaker, text, guild) to an outbox.
- **The language model** is a function from the history to a reply.
- **Listener callbacks and Discord posts** are appended, in order, to one effect log.

The voice methods are proved against specification functions (`VoiceSpec.ProcessChunk`,
`VoiceSpec.CheckSilence`, `VoiceSpec.PollAll`, ...). The properties of the state machine are
proved about those functions. Three facts are proved invariant under polls and under
chunks that do not throw:

- every accumulator stays below the batch size;
- a speaker who is speaking has audio buffered;
- every transcript sent is non-empty.

The class keeps these as `Valid()`. The `appendStream` call of a chunk (voice.cpp:179) is
outside any `try`. When it throws, the accumulator is not cleared, so that speaker's
accumulator stays at or above the batch size until the next flush. Such a chunk is therefore
left out of the invariant.

Three details of the code that the model keeps:

- The final result of `finishStream` is joined after the merged text; it does not go
  through the merge (voice.cpp:261-273).
- The final text is joined with single spaces between non-empty parts; repeated spaces
  inside the parts are kept.
- The poll checks every speaker with an entry in `user_audio_states`, speaking or not
  (voice.cpp:115-117).

Texts are `string`s, and each `char` stands for one byte of the UTF-8 `std::string`. So
lengths, the 2000 limit and the prefix comparison of the merge count bytes, as the C++ does.

## Model

| member | source | states |
|---|---|---|
| Transcript.CommonPrefixLengthSpec | src/discord_bot/voice.cpp:58-66 | the length found by the prefix loop is a prefix shared by both strings that cannot be extended |
| Transcript.CommonPrefixLengthUnique | src/discord_bot/voice.cpp:58-66 | any shared prefix length that cannot be extended is the one the loop finds |
| Transcript.LastTerminatorSpec | src/discord_bot/voice.cpp:80-81 | `find_last_of(".!?\n")`: no terminator follows the position found, and nothing is found exactly when the string has no terminator |
| Transcript.LastTerminatorAt | src/discord_bot/voice.cpp:80 | a terminator with none after it is the one found |
| Transcript.TrimLeadingSpacesSpec | src/discord_bot/voice.cpp:88-91 | trimming removes a prefix of spaces only and stops at the first other character |
| Transcript.TrimSpaces | src/discord_bot/voice.cpp:89-91 | the erase-front loop removes exactly the leading spaces |
| Transcript.JoinSpelledOut | src/discord_bot/voice.cpp:84-85 | adding a space only when there is text already, then the piece, is `Join` |
| Transcript.JoinExtends | src/discord_bot/voice.cpp:84-85 | joining keeps the existing text as a prefix |
| Transcript.MergePartialTranscript | src/discord_bot/voice.cpp:53-95 | the loop version of the merge computes `Merge` |
| Transcript.MergeInvariants | src/discord_bot/voice.cpp:53-95 | accumulator untouched; an empty partial changes nothing; otherwise `last_partial` becomes the partial and the pending fragment holds no terminator; old committed text is a prefix of the new one; after a commit the fragment does not start with a space |
| Transcript.MergeIdempotent | src/discord_bot/voice.cpp:53-95 | merging the same partial twice in a row changes nothing the second time |
| Transcript.MergeAppendsOnlyNewText | src/discord_bot/voice.cpp:56-77 | without a terminator, exactly the suffix of the partial beyond its common prefix with `last_partial` is appended, and nothing is committed |
| Transcript.NewTextOfExtension | src/discord_bot/voice.cpp:56-66 | a partial extending the previous one contributes exactly the extension |
| Transcript.OverlapDedup | src/discord_bot/voice.cpp:56-77 | when nothing becomes terminated, a partial that extends the previous one appends exactly the extension to the fragment and commits nothing |
| Transcript.OverlapExample | src/discord_bot/voice.cpp:56-77 | "Hello how are" then "Hello how are you doing" appends " you doing" |
| Transcript.MergeConservesText | src/discord_bot/voice.cpp:68-92 | no text is lost: either the fragment grew by the new text, or a terminated prefix was committed and only spaces were dropped after it |
| Transcript.SentenceBoundary | src/discord_bot/voice.cpp:79-92 | from an empty state, a terminated sentence is committed and the tail is kept without leading spaces ("Hello there. How" gives "Hello there." and "How") |
| Transcript.MergeAllCommitMonotone | src/discord_bot/voice.cpp:82-86 | over any sequence of partials the committed text only grows |
| Transcript.MergeAllPendingUnterminated | src/discord_bot/voice.cpp:79-92 | over any sequence of partials the pending fragment never holds a terminator |
| VoiceSpec.AppendAndMergeSpec | src/discord_bot/voice.cpp:178-185 | one `appendStream` call with the whole accumulator. An exception changes nothing else. Otherwise the accumulator is cleared, an empty partial leaves the merge state alone, a non-empty one is merged, and the committed text only grows |
| VoiceSpec.StartSegmentFrame | src/discord_bot/voice.cpp:139-156 | opening a session logs one `startStream` when a recogniser exists. It touches only the speaker's session and stream entries, and keeps accumulators below the batch size |
| VoiceSpec.FeedStreamSpec | src/discord_bot/voice.cpp:169-186 | the chunk joins the accumulator. The recogniser is called at most once, only at or above the batch size, with the session id and whole accumulator. Only the speaker's stream entry changes. Unless it throws, accumulators stay below the batch size |
| VoiceSpec.FirstChunkStartsSegment | src/discord_bot/voice.cpp:133-166 | a first non-empty chunk sets speaking, leaves the buffer equal to the chunk, time now. It calls `startStream` once and first. A non-empty id is stored with a fresh merge state. Nothing is sent |
| VoiceSpec.SpeakingChunkAppends | src/discord_bot/voice.cpp:159-186 | while speaking the chunk is appended at the end of the buffer, time becomes now. No session is started, and `appendStream` is called only at or above the batch size |
| VoiceSpec.ProcessChunkKeepsAccumulatorsBelow | src/discord_bot/voice.cpp:171-185 | unless the recogniser throws, every accumulator stays below the batch size between calls |
| VoiceSpec.ProcessChunkOnlyTouchesSpeaker | src/discord_bot/voice.cpp:123-188 | a chunk changes only its speaker's entries and sends nothing |
| VoiceSpec.ProcessChunkKeepsSpeakingHasAudio | src/discord_bot/voice.cpp:128-166 | after a chunk every speaking speaker has audio buffered |
| VoiceSpec.ProcessChunkKeepsInvariant | src/discord_bot/voice.cpp:123-188 | a chunk that does not throw keeps the module invariant |
| VoiceSpec.JoinAddsPart | src/discord_bot/voice.cpp:266-273 | one guarded "space, then part" step adds one more non-empty part to the space-separated text |
| VoiceSpec.FinalTextIsSpaceSeparated | src/discord_bot/voice.cpp:261-273 | the final text is committed, pending and final result, empty parts skipped, single spaces between; it starts with the committed text and is empty only when all three are |
| VoiceSpec.FlushFrame | src/discord_bot/voice.cpp:246-254 | flushing the leftover accumulator touches only the speaker's stream entry and keeps accumulators below the batch size |
| VoiceSpec.DeliverFrame | src/discord_bot/voice.cpp:262-280 | delivery erases the speaker's stream state and sends at most one non-empty transcript, for that speaker and guild |
| VoiceSpec.TranscribeFrame | src/discord_bot/voice.cpp:234-285 | finishing removes the session id, changes only the speaker's entries, sends at most one non-empty transcript and keeps accumulators below the batch size |
| VoiceSpec.FinalizeWithoutSession | src/discord_bot/voice.cpp:256-280 | with no session, one `audioToText(buffer)` call. Its text, joined after any merged text, is sent when non-empty, and the stream state is erased. An exception sends nothing |
| VoiceSpec.FinalizeWithSession | src/discord_bot/voice.cpp:237-284 | the session id is removed and leftover bytes are flushed before `finishStream`; a throwing flush skips the finish and sends nothing. On success the stream state is erased and the final text of the flushed state is sent exactly when non-empty, starting with the committed text. A throwing finish sends nothing and keeps the flushed state |
| VoiceSpec.FinalizesIffReady | src/discord_bot/voice.cpp:226-230 | finalisation happens iff speaking, silent for more than 1000 ms and at least 32000 bytes buffered; afterwards not speaking and the buffer is empty, whatever the recogniser did |
| VoiceSpec.CheckSilenceIdempotent | src/discord_bot/voice.cpp:226-288 | an immediate second check of the same speaker changes nothing |
| VoiceSpec.ShortSegmentNeverFinalized | src/discord_bot/voice.cpp:226-228 | a speaker with less than 32000 bytes is never finalised |
| VoiceSpec.CheckSilenceKeepsInvariants | src/discord_bot/voice.cpp:218-290 | a check changes only its speaker's entries. It keeps accumulators below the batch size and keeps "speaking implies audio". It sends only non-empty text |
| VoiceSpec.SortedKeysMembers | src/discord_bot/voice.cpp:115-117 | the poll order lists every speaker with an entry exactly once |
| VoiceSpec.SortedKeysAscending | src/discord_bot/voice.cpp:115-117 | the poll visits speakers in strictly ascending id order, as a `std::map` is walked |
| VoiceSpec.PollAllSettles | src/discord_bot/voice.cpp:115-117 | after a poll no polled speaker is ready to be finalised |
| VoiceSpec.PollAllLeavesOthers | src/discord_bot/voice.cpp:115-117 | a poll does not touch speakers it does not visit |
| VoiceSpec.PollAllSettledIsNoop | src/discord_bot/voice.cpp:115-117 | a poll over speakers none of whom is ready changes nothing |
| VoiceSpec.PollAllIdempotent | src/discord_bot/voice.cpp:115-117 | an immediate second poll is a no-op |
| VoiceSpec.PollAllKeepsInvariant | src/discord_bot/voice.cpp:115-117 | a poll keeps the module invariant |
| VoiceSpec.JoinedStates | src/discord_bot/voice.cpp:340-351 | after joining, exactly the channel's members have an entry, each idle with an empty buffer at time now in that guild |
| VoiceSpec.JoinedStatesArePollFixpoint | src/discord_bot/voice.cpp:340-351 | right after joining no one is speaking, so a poll over the members at any time changes nothing |
| Voice.VoiceModule.constructor | src/discord_bot/voice.cpp:11-13 | not connected, not recording, all maps, the call log and the outbox empty; the invariant holds |
| Voice.VoiceModule.StartStreamSession | src/discord_bot/voice.cpp:139-156 | the new state is `StartSegment` of the old |
| Voice.VoiceModule.AppendAndMergeStream | src/discord_bot/voice.cpp:178-185 | the new state and the exception flag are `AppendAndMerge` of the old |
| Voice.VoiceModule.BeginChunk | src/discord_bot/voice.cpp:124-157 | the speaker's state after the idle reset and segment start, and the session opened exactly when a segment starts |
| Voice.VoiceModule.FeedStreamSession | src/discord_bot/voice.cpp:169-186 | the new state and exception flag are `FeedStream` of the old |
| Voice.VoiceModule.ProcessAudioChunk | src/discord_bot/voice.cpp:123-188 | the new state and exception flag are `ProcessChunk` of the old; a chunk that does not throw keeps `Valid()` |
| Voice.VoiceModule.VoiceReceive | src/discord_bot/voice.cpp:39-44 | audio is processed only while connected, otherwise nothing changes; a chunk that does not throw keeps `Valid()` |
| Voice.VoiceModule.SendVoiceMessage | src/discord_bot/voice.cpp:190-216 | the transcript is appended to the outbox and nothing else changes |
| Voice.VoiceModule.FinishAndTranscribe | src/discord_bot/voice.cpp:234-285 | the new state is `Transcribe` of the old |
| Voice.VoiceModule.DeliverTranscript | src/discord_bot/voice.cpp:261-280 | the new state is `Deliver` of the old |
| Voice.VoiceModule.CheckForSilenceAndTranscribe | src/discord_bot/voice.cpp:218-290 | the new state is `CheckSilence` of the old, and `Valid()` is kept |
| Voice.VoiceModule.Poll | src/discord_bot/voice.cpp:111-121 | one pass of the loop is `PollAll` over the speakers in ascending order, and keeps `Valid()` |
| Voice.VoiceModule.HandleJoinVoice | src/discord_bot/voice.cpp:323-354 | when the user can be joined: connected, the audio states are `JoinedStates`, the rest unchanged, `Valid()` kept; otherwise nothing changes |
| Voice.AssembleFinalText | src/discord_bot/voice.cpp:261-273 | the text built by the guarded appends is `FinalText` |
| VoiceAudio.ConvertToWav | src/discord_bot/voice.cpp:357-401 | the result is the 44-byte header for 48 kHz, 2 channels, 16 bits with both size fields mod 2^32, followed by the raw audio |
| VoiceAudio.ConvertedIsPcmWavFile | src/discord_bot/voice.cpp:357-401 | that result is a PCM WAV file: length 44 + n, samples at 44.., the four tags, PCM, 2 channels, 48000 Hz, 192000 B/s, block align 4, 16 bits, sizes n and n + 36 |
| VoiceAudio.StereoFormatFields | src/discord_bot/voice.cpp:359-373 | the literal header bytes between the size fields are the format fields of 48 kHz stereo 16-bit PCM |
| VoiceAudio.TemplateWithSizes | src/discord_bot/voice.cpp:384-398 | the template with both size fields written is that header followed by the audio |
| VoiceAudio.CopyInto | src/discord_bot/voice.cpp:378-382 | the source bytes land at the given offset and nothing else changes |
| VoiceAudio.WriteLe32 | src/discord_bot/voice.cpp:388-398 | the four byte writes put the little-endian word at the offset and nothing else changes |
| VoiceAudio.Midpoint | src/discord_bot/voice.cpp:417 | `(current + next) / 2` truncated toward zero lies between the two samples and fits an `int16_t` |
| VoiceAudio.ConvertTtsAudioFormat | src/discord_bot/voice.cpp:403-428 | n mono samples give 4n - 2 values; each sample but the last gives itself twice and its midpoint with the next twice; the last sample ends the output twice |
| Common.Half | src/audio_utils.cpp:60 | C++ division by 2 truncates toward zero |
| Common.Le32RoundTrip | src/audio_utils.cpp:153 | the four little-endian bytes of a 32-bit field decode back to it |
| Common.SampleRoundTrip | src/audio_utils.cpp:67-69 | an `int16_t` stored as two little-endian bytes reads back unchanged |
| AudioUtils.ClampInt16 | src/audio_utils.cpp:62-64 | the clamp lands in the `int16_t` range and leaves values already in it alone |
| AudioUtils.ClampNeverFires | src/audio_utils.cpp:59-64 | the average of two samples is already in range, so the clamp never alters it |
| AudioUtils.StereoToMono | src/audio_utils.cpp:39-75 | empty for an empty input or a length not a multiple of 4; otherwise half the length, and sample i is (L_i + R_i) / 2 truncated toward zero |
| AudioUtils.DownsamplePcm | src/audio_utils.cpp:77-87 | empty for empty input or a non-positive rate; the input itself for equal rates; otherwise the resampling path |
| AudioUtils.HeaderBytesDecode | src/audio_utils.cpp:18-37 | every header field reads back from its offset in the little-endian struct, which has no padding |
| AudioUtils.WrapAdd | src/audio_utils.cpp:149-150 | adding 36 to a size already reduced mod 2^32 wraps like adding it to the size |
| AudioUtils.PcmWavFileOf | src/audio_utils.cpp:143-156 | a header holding those field values, followed by the samples, is a PCM WAV file of them |
| AudioUtils.SavePcmToWav | src/audio_utils.cpp:128-166 | succeeds iff the file opens and the channel count is 1 or 2. Then it writes a WAV file: block align 2·channels, byte rate rate·block align, data size n, RIFF size 36 + n, all mod 2^32 |
| Messages.SplitChunksSpec | src/discord_bot/message.cpp:82-88 | the pieces join back into the message; there are ceil(len / 2000); each is non-empty and at most 2000 long; all but the last are exactly 2000 |
| Messages.ChunkStep | src/discord_bot/message.cpp:83-85 | each step of the split loop posts the next 2000-byte piece, or the whole rest when it is shorter |
| Messages.Sends | src/discord_bot/message.cpp:73-80 | a message of at most 2000 bytes is posted as itself; in every case the posts join back into the message and none is over 2000 bytes |
| Messages.Runs | src/discord_bot/message.cpp:62-64 | one listener run per registered callback, in order, each with the response and guild |
| Messages.Reply | src/discord_bot/message.cpp:60-70 | a reply causes effects exactly when it is non-empty |
| Messages.MessageModule.constructor | src/discord_bot/message.cpp:9-16 | no listeners and no effects yet |
| Messages.MessageModule.OnResponse | include/discord_bot/message.hpp:21 | the listener is registered after the existing ones |
| Messages.MessageModule.SendMessage | src/discord_bot/message.cpp:73-80 | the effect log grows by the posts of `Sends(message)` |
| Messages.MessageModule.SplitAndSendLongMessage | src/discord_bot/message.cpp:82-88 | the `i += 2000` loop posts exactly `SplitChunks(message)` in order |
| Messages.MessageModule.NotifyListeners | src/discord_bot/message.cpp:62-64 | every listener runs once, in registration order |
| Messages.MessageModule.Respond | src/discord_bot/message.cpp:60-70 | a non-empty reply runs every listener and then posts; an empty one does nothing |
| Messages.MessageModule.HandleMessage | src/discord_bot/message.cpp:18-71 | a bot's message changes nothing. Otherwise one user entry is appended and the model sees the history including it. Listeners run before the reply is posted, and an empty reply causes nothing |
| Conversation.FormatUserInput | src/conversation.cpp:708-709 | the content is "[" + name + "]: " + input |
| Conversation.FormatUserInputInjective | src/conversation.cpp:708-709 | for names without ']', different speakers or inputs give different contents |
| Conversation.ConversationStore.constructor | src/conversation.cpp:7 | the history starts empty |
| Conversation.ConversationStore.InitializeConversation | src/conversation.cpp:9-704 | the script is appended without a reset; its first entry has role system |
| Conversation.ConversationStore.BuildPrompt | src/conversation.cpp:706-719 | exactly one user entry is appended, nothing else changes, and the prompt is the whole history including it |
| Conversation.ConversationStore.AddEllieResponse | src/conversation.cpp:721-727 | exactly one assistant entry holding the reply verbatim is appended |
| Conversation.ConversationStore.ClearHistory | src/conversation.cpp:729-732 | afterwards the history is the opening script, whatever it was before |
| SystemControl.Find | src/system_control.cpp:6 | `find` returns the first position at which the tag occurs, or none when it occurs nowhere |
| SystemControl.SystemCommandIffOccurs | src/system_control.cpp:5-7 | a reply is a system command iff "[SYSTEM]:" occurs in it at some position |
| SystemControl.ShortRepliesAreNotCommands | src/system_control.cpp:6 | replies shorter than the 9 bytes of the tag never match |
| SystemControl.LowerCaseTagIsNotCommand | src/system_control.cpp:6 | the match is case-sensitive: "[system]:" does not match |
| SystemControl.ContainingCommandIsCommand | src/system_control.cpp:6 | any text containing a system command is one |

## Left out

- Threads, the mutex and the timer (voice.cpp:41, 97-121). Each receive callback and each poll is atomic; the lock is held across recogniser calls, so this matches the code. The 100 ms poll interval is not modelled.
- The recogniser, speech synthesiser and language-model clients (src/whisper_client.cpp, src/azure_tts.cpp, src/azure_stt.cpp, src/inference.cpp) are not part of this model. The recogniser is an oracle whose reply may be an exception; `runInference` is a function of the history.
- `speakText` and the `buildPrompt`/`runInference` calls inside `sendVoiceMessage` (voice.cpp:191-215, 292-311): `sendVoiceMessage` is reduced to appending to the outbox.
- The guild lookup, the voice-channel connection and the replies of `handleJoinVoiceCommand` (voice.cpp:326-335, 353-354) are reduced to one `canConnect` flag and the member set; the silence timer is not started.
- AudioUtils.DownsamplePcm: the floating-point resampling loop (audio_utils.cpp:89-125) is represented only by the result `None`.
- AudioUtils.SavePcmToWav: the file is reduced to the bytes written; whether it opens is a parameter, and exceptions from the stream are not modelled.
- `saveFloatToWav` and the rest of audio_utils.cpp beyond line 166 are floating-point or file I/O and are not part of this model.
- `MIN_STREAM_SEND_BYTES` (voice.cpp:178) is declared in no shown header. It is the configuration value `minStreamSendBytes`, and the invariant requires it to be positive.
- `is_recording` is set to false by the constructor and never changed; it is kept as a constant field, so the model also covers the recording branch.
- Time is an integer number of milliseconds given by the caller; `steady_clock` is not modelled.
- VoiceSpec.PollAll: one clock reading per poll. `checkForSilenceAndTranscribe` reads the clock once per speaker (voice.cpp:220), so a speaker checked early in a pass whose silence threshold passes during a later speaker's slow recogniser call is finalised by the C++ in that pass but by the model only in the next one. The per-speaker reading and the recogniser's latency are not modelled.
- Text is bytes, not characters: a `char` stands for one byte of the UTF-8 `std::string`. A 2000-byte cut (message.cpp:83-84) or a byte-wise common prefix (voice.cpp:62) may split a multibyte character, as in the C++; the model does not decode UTF-8, so it makes no claim about characters.
- VoiceAudio.ConvertTtsAudioFormat requires at least one whole sample: with none, `num_samples - 1` wraps around (voice.cpp:410) and the loop reads out of bounds. An odd trailing byte is ignored, as `size() / sizeof(int16_t)` does.
- include/discord_bot/voice.hpp is stale: it types `stt` as `AzureSTT` and lacks `user_stream_session_ids`, `stream_states` and `MIN_STREAM_SEND_BYTES`. The stream-state fields follow voice.cpp:147-151.
- include/conversation.hpp:7 declares `addAssistantResponse`, while the definition is `addEllieResponse` (conversation.cpp:721); the model follows the definition.
- The literal text of the opening script (conversation.cpp:11-703) is a constructor parameter constrained by its shape (133 entries, system first, then alternating user and assistant turns); the JSON serialisation of the history is external, so the prompt is the history itself.
- Messages.MessageModule.HandleMessage: the `addEllieResponse` call inside `runInference` (src/inference.cpp) is not part of this model, so the reply is not added to the history here.
- Logging and configuration (include/logging.hpp, include/config.hpp) are not part of this model.
- Discord user and guild ids are natural numbers.
