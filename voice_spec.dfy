/**
  The per-speaker state machine of the voice module, as functions of the
  state (src/discord_bot/voice.cpp, `processAudioChunk`,
  `checkForSilenceAndTranscribe` and the silence-detection poll).

  Each speaker is idle or speaking. The first non-empty chunk of audio starts
  a segment and opens a streaming session with the speech recogniser; while
  the speaker talks, the chunks are buffered and, in batches of at least
  `minStreamSendBytes`, streamed to the recogniser, whose partial transcripts
  are merged. When a poll finds that a speaker has been silent for more than
  a second and has at least 32000 bytes buffered, the segment is finalised:
  the session is finished, the text is assembled and posted.

  The recogniser is an oracle: its reply to a call may depend on every call
  made before, and a reply may be an exception. Every call is logged.
  Time is a number of milliseconds passed in by the caller.
*/
module VoiceSpec {
  import opened Common
  import opened Transcript

  /** Silence longer than this ends a segment (voice.hpp:61). */
  const SilenceThresholdMs: int := 1000
  /** Shorter segments are never finalised (voice.hpp:63). */
  const MinAudioSize: nat := 32000

  type UserId = nat
  type GuildId = nat

  /** `UserAudioState` (voice.hpp:19-24); a time is in milliseconds. */
  datatype UserAudioState = UserAudioState(
    currentBuffer: seq<Byte>,
    lastAudioTime: int,
    isSpeaking: bool,
    guildId: GuildId
  )

  /** The value-initialised state `user_audio_states[user]` creates for a new speaker. */
  const DefaultAudioState := UserAudioState([], 0, false, 0)

  datatype SttCall =
    | StartStream
    | AppendStream(sessionId: string, audio: seq<Byte>)
    | FinishStream(sessionId: string)
    | AudioToText(audio: seq<Byte>)

  datatype SttReply = Returned(text: string) | Threw

  /** The recogniser: its reply to a call, given every call made before it. */
  type SttOracle = (seq<SttCall>, SttCall) -> SttReply

  /** A transcript handed to `sendVoiceMessage`. */
  datatype VoiceMessage = VoiceMessage(user: UserId, text: string, guild: GuildId)

  /**
    The fixed parts of the module: whether a recogniser client exists, the
    `is_recording` flag, the streaming batch size and the recogniser itself.
  */
  datatype Config = Config(sttPresent: bool, isRecording: bool, minStreamSendBytes: nat, stt: SttOracle)

  /** The three maps of the module, the recogniser call log and the transcripts sent. */
  datatype VoiceState = VoiceState(
    audio: map<UserId, UserAudioState>,
    sessions: map<UserId, string>,
    streams: map<UserId, StreamSessionState>,
    calls: seq<SttCall>,
    sent: seq<VoiceMessage>
  )

  /** A state after an operation, and whether an exception escaped it. */
  datatype Step = Step(state: VoiceState, threw: bool)

  function AudioStateOf(s: VoiceState, user: UserId): UserAudioState {
    if user in s.audio then s.audio[user] else DefaultAudioState
  }

  function StreamStateOf(s: VoiceState, user: UserId): StreamSessionState {
    if user in s.streams then s.streams[user] else EmptyStreamState
  }

  /** One recogniser call: logged, and answered by the oracle. */
  function Call(cfg: Config, s: VoiceState, call: SttCall): (r: (VoiceState, SttReply))
    ensures r.0 == s.(calls := s.calls + [call])
  {
    (s.(calls := s.calls + [call]), cfg.stt(s.calls, call))
  }

  /** voice.cpp:128-131: a speaker with an empty buffer is (re)set to idle at time now. */
  function ResetIfIdle(st: UserAudioState, now: int): UserAudioState {
    if st.currentBuffer == [] then st.(lastAudioTime := now, isSpeaking := false) else st
  }

  /**
    voice.cpp:139-156: opening a streaming session. A non-empty session id is
    stored and the speaker's merge state is reset; an exception is caught.
  */
  function StartSegment(cfg: Config, s: VoiceState, user: UserId): VoiceState {
    if !cfg.sttPresent then s
    else
      var (s1, reply) := Call(cfg, s, StartStream);
      if reply.Returned? && reply.text != [] then
        s1.(sessions := s1.sessions[user := reply.text], streams := s1.streams[user := EmptyStreamState])
      else s1
  }

  /**
    Sending the speaker's accumulated audio to the session and merging the
    partial transcript (voice.cpp:179-184 and 249-253). When the call throws,
    nothing more happens and the exception is reported.
  */
  function AppendAndMerge(cfg: Config, s: VoiceState, user: UserId, sid: string): Step
    requires user in s.streams
  {
    var ss := s.streams[user];
    var (s1, reply) := Call(cfg, s, AppendStream(sid, ss.accumulator));
    match reply
    case Threw => Step(s1, true)
    case Returned(partial) =>
      var cleared := ss.(accumulator := []);
      Step(s1.(streams := s1.streams[user := if partial != [] then Merge(cleared, partial) else cleared]), false)
  }

  /** voice.cpp:169-186: adding a chunk to the open session's accumulator, sending it once large enough. */
  function FeedStream(cfg: Config, s: VoiceState, user: UserId, audio: seq<Byte>): Step {
    if user in s.sessions && cfg.sttPresent then
      var ss := StreamStateOf(s, user);
      var s1 := s.(streams := s.streams[user := ss.(accumulator := ss.accumulator + audio)]);
      if |ss.accumulator + audio| >= cfg.minStreamSendBytes then AppendAndMerge(cfg, s1, user, s.sessions[user])
      else Step(s1, false)
    else Step(s, false)
  }

  /** voice.cpp:134: a non-empty chunk from a speaker who is (after the reset) not speaking starts a segment. */
  predicate StartsSegment(st: UserAudioState, audio: seq<Byte>, now: int) {
    !ResetIfIdle(st, now).isSpeaking && |audio| > 0
  }

  /** The speaker's audio state after a chunk (voice.cpp:128-166). */
  function NextAudioState(isRecording: bool, st: UserAudioState, audio: seq<Byte>, now: int): UserAudioState {
    var st0 := ResetIfIdle(st, now);
    var st1 := if StartsSegment(st, audio, now) then st0.(isSpeaking := true, currentBuffer := []) else st0;
    if isRecording || st1.isSpeaking then st1.(currentBuffer := st1.currentBuffer + audio, lastAudioTime := now)
    else st1
  }

  /** `processAudioChunk` (voice.cpp:123-188) for a chunk received at time now. */
  function ProcessChunk(cfg: Config, s: VoiceState, user: UserId, audio: seq<Byte>, now: int): Step {
    var st := AudioStateOf(s, user);
    var s1 := if StartsSegment(st, audio, now) then StartSegment(cfg, s, user) else s;
    var st2 := NextAudioState(cfg.isRecording, st, audio, now);
    var s2 := s1.(audio := s1.audio[user := st2]);
    if cfg.isRecording || st2.isSpeaking then FeedStream(cfg, s2, user, audio) else Step(s2, false)
  }

  /** voice.cpp:226-228: the condition for finalising a segment at time now. */
  predicate ReadyToFinalize(st: UserAudioState, now: int) {
    st.isSpeaking && now - st.lastAudioTime > SilenceThresholdMs && |st.currentBuffer| >= MinAudioSize
  }

  /** voice.cpp:264-273: committed text, pending fragment and final result, joined by single spaces. */
  function FinalText(ss: StreamSessionState, transcribed: string): string {
    Join(Join(ss.committedText, ss.pendingFragment), transcribed)
  }

  /** voice.cpp:262-280: assembling the text, dropping the stream state, and sending non-empty text. */
  function Deliver(s: VoiceState, user: UserId, guild: GuildId, transcribed: string): VoiceState {
    var text := if user in s.streams then FinalText(s.streams[user], transcribed) else transcribed;
    var s1 := s.(streams := s.streams - {user});
    if text != [] then s1.(sent := s1.sent + [VoiceMessage(user, text, guild)]) else s1
  }

  /** voice.cpp:246-254: flushing what is left in the accumulator before finishing. */
  function Flush(cfg: Config, s: VoiceState, user: UserId, sid: string): Step {
    if user in s.streams && s.streams[user].accumulator != [] then AppendAndMerge(cfg, s, user, sid)
    else Step(s, false)
  }

  /**
    voice.cpp:235-282: finishing the session (or transcribing the whole
    buffer when there is none) and delivering the text. An exception from
    any recogniser call is caught and abandons the rest.
  */
  function Transcribe(cfg: Config, s: VoiceState, user: UserId, st: UserAudioState): VoiceState {
    var sid := if user in s.sessions then s.sessions[user] else [];
    var s0 := s.(sessions := s.sessions - {user});
    if sid != [] then
      var flushed := Flush(cfg, s0, user, sid);
      if flushed.threw then flushed.state
      else
        var (s2, reply) := Call(cfg, flushed.state, FinishStream(sid));
        if reply.Threw? then s2 else Deliver(s2, user, st.guildId, reply.text)
    else
      var (s2, reply) := Call(cfg, s0, AudioToText(st.currentBuffer));
      if reply.Threw? then s2 else Deliver(s2, user, st.guildId, reply.text)
  }

  /** `checkForSilenceAndTranscribe` (voice.cpp:218-290) at time now. */
  function CheckSilence(cfg: Config, s: VoiceState, user: UserId, now: int): VoiceState {
    var st := AudioStateOf(s, user);
    if ReadyToFinalize(st, now) then
      var s1 := if cfg.sttPresent then Transcribe(cfg, s, user, st) else s;
      s1.(audio := s1.audio[user := st.(isSpeaking := false, currentBuffer := [])])
    else
      s.(audio := s.audio[user := st])
  }

  /** One pass of the silence-detection loop over the given speakers, in order (voice.cpp:115-117). */
  function PollAll(cfg: Config, s: VoiceState, users: seq<UserId>, now: int): VoiceState
    decreases |users|
  {
    if users == [] then s else PollAll(cfg, CheckSilence(cfg, s, users[0], now), users[1..], now)
  }

  /** m is the smallest element of ids. */
  predicate IsLeast(ids: set<UserId>, m: UserId) {
    m in ids && forall x :: x in ids ==> m <= x
  }

  /** Some element of a non-empty set of ids is the smallest. */
  lemma {:induction false} LeastExists(ids: set<UserId>)
    requires ids != {}
    ensures exists m :: IsLeast(ids, m)
    decreases |ids|
  {
    var y :| y in ids;
    var rest := ids - {y};
    if rest == {} {
      assert forall x :: x in ids ==> x == y || x in rest;
      assert IsLeast(ids, y);
    } else {
      LeastExists(rest);
      var m :| IsLeast(rest, m);
      LeastStep(ids, y, m);
    }
  }

  /** Adding y back to ids - {y}, whose least element is m, gives the smaller of the two as the least. */
  lemma LeastStep(ids: set<UserId>, y: UserId, m: UserId)
    requires y in ids && IsLeast(ids - {y}, m)
    ensures IsLeast(ids, if y < m then y else m)
  {
    forall x | x in ids
      ensures (if y < m then y else m) <= x
    {
      if x != y {
        assert x in ids - {y};
      }
    }
  }

  /** The smallest id of a non-empty set. */
  function MinOf(ids: set<UserId>): (m: UserId)
    requires ids != {}
    ensures IsLeast(ids, m)
  {
    LeastExists(ids);
    var m :| IsLeast(ids, m);
    m
  }

  /** The ids in ascending order, the order in which a `std::map` is walked. */
  function SortedKeys(ids: set<UserId>): seq<UserId>
    decreases |ids|
  {
    if ids == {} then [] else [MinOf(ids)] + SortedKeys(ids - {MinOf(ids)})
  }

  /** The poll visits every speaker: the keys in the list are exactly the ids, each once. */
  lemma {:induction false} SortedKeysMembers(ids: set<UserId>)
    ensures var r := SortedKeys(ids);
            && |r| == |ids|
            && (forall i :: 0 <= i < |r| ==> r[i] in ids)
            && (forall x :: x in ids ==> x in r)
    decreases |ids|
  {
    if ids != {} {
      var m := MinOf(ids);
      var rest := ids - {m};
      SortedKeysMembers(rest);
      var t := SortedKeys(rest);
      var r := SortedKeys(ids);
      assert r[1..] == t;
      forall x | x in ids
        ensures x in r
      {
        if x != m {
          assert x in rest;
        }
      }
    }
  }

  /** The poll visits the speakers in strictly ascending order of id. */
  lemma {:induction false} SortedKeysAscending(ids: set<UserId>)
    ensures var r := SortedKeys(ids);
            forall i :: 0 <= i < |r| - 1 ==> r[i] < r[i + 1]
    decreases |ids|
  {
    if ids != {} {
      var m := MinOf(ids);
      var rest := ids - {m};
      SortedKeysAscending(rest);
      var t := SortedKeys(rest);
      assert forall j :: 0 <= j < |SortedKeys(rest)| - 1 ==> SortedKeys(rest)[j] < SortedKeys(rest)[j + 1];
      var r := SortedKeys(ids);
      assert r == [m] + t;
      forall i | 0 <= i < |r| - 1
        ensures r[i] < r[i + 1]
      {
        if i == 0 {
          SortedKeysMembers(rest);
          assert r[1] == t[0] && t[0] in rest;
          assert t[0] in ids && t[0] != m;
        } else {
          assert r[i] == t[i - 1] && r[i + 1] == t[i];
        }
      }
    }
  }

  // Properties of one chunk of audio.

  /** No call in the list opens a session. */
  predicate NoStartStream(calls: seq<SttCall>) {
    forall k :: 0 <= k < |calls| ==> !calls[k].StartStream?
  }

  /** Between two calls to the recogniser, no speaker's accumulator reaches the batch size. */
  predicate AccumulatorsBelow(cfg: Config, s: VoiceState) {
    forall u :: u in s.streams ==> |s.streams[u].accumulator| < cfg.minStreamSendBytes
  }

  /** Every speaker who is speaking has audio buffered. */
  predicate SpeakingHasAudio(s: VoiceState) {
    forall u :: u in s.audio && s.audio[u].isSpeaking ==> s.audio[u].currentBuffer != []
  }

  /** Every transcript sent so far is non-empty. */
  predicate SentNonEmpty(s: VoiceState) {
    forall k :: 0 <= k < |s.sent| ==> s.sent[k].text != []
  }

  /** Outside the speaker's entries, the three maps of s and t are the same. */
  predicate SameElsewhere(s: VoiceState, t: VoiceState, user: UserId) {
    && s.audio - {user} == t.audio - {user}
    && s.sessions - {user} == t.sessions - {user}
    && s.streams - {user} == t.streams - {user}
  }

  /**
    What holds between the module's operations: the batch size is positive,
    every speaker who is speaking has audio buffered, every accumulator is
    below the batch size, and every transcript sent is non-empty.
  */
  predicate Invariant(cfg: Config, s: VoiceState) {
    && cfg.minStreamSendBytes > 0
    && SpeakingHasAudio(s)
    && AccumulatorsBelow(cfg, s)
    && SentNonEmpty(s)
  }

  /** Speaker u's entries in the three maps are the same in s and t. */
  predicate Untouched(s: VoiceState, t: VoiceState, u: UserId) {
    && (u in s.audio <==> u in t.audio) && (u in s.audio ==> s.audio[u] == t.audio[u])
    && (u in s.sessions <==> u in t.sessions) && (u in s.sessions ==> s.sessions[u] == t.sessions[u])
    && (u in s.streams <==> u in t.streams) && (u in s.streams ==> s.streams[u] == t.streams[u])
  }

  /**
    One batch sent to the session (voice.cpp:179-184, 249-253): exactly one
    `appendStream` call with the whole accumulator. An exception changes
    nothing else; otherwise the accumulator is empty, an empty partial
    leaves the merge state as it was, a non-empty one is merged and the
    committed text only grows. Nothing outside the speaker's stream state
    changes.
  */
  lemma AppendAndMergeSpec(cfg: Config, s: VoiceState, user: UserId, sid: string)
    requires user in s.streams
    ensures var r := AppendAndMerge(cfg, s, user, sid);
            var ss := s.streams[user];
            var call := AppendStream(sid, ss.accumulator);
            var reply := cfg.stt(s.calls, call);
            && r.state.calls == s.calls + [call]
            && r.state.audio == s.audio && r.state.sessions == s.sessions && r.state.sent == s.sent
            && (r.threw <==> reply.Threw?)
            && (r.threw ==> r.state.streams == s.streams)
            && (!r.threw ==>
                  && user in r.state.streams
                  && r.state.streams == s.streams[user := r.state.streams[user]]
                  && r.state.streams[user].accumulator == []
                  && (reply.text == [] ==> r.state.streams[user] == ss.(accumulator := []))
                  && (reply.text != [] ==> r.state.streams[user].lastPartial == reply.text
                                           && NoTerminator(r.state.streams[user].pendingFragment))
                  && r.state.streams[user].committedText[..|ss.committedText|] == ss.committedText)
  {
    var ss := s.streams[user];
    var reply := cfg.stt(s.calls, AppendStream(sid, ss.accumulator));
    if reply.Returned? {
      MergeInvariants(ss.(accumulator := []), reply.text);
    }
  }

  /**
    Opening a session touches only the speaker's session and stream state,
    logs one `startStream` call when a recogniser exists, and gives the new
    session an empty accumulator.
  */
  lemma StartSegmentFrame(cfg: Config, s: VoiceState, user: UserId)
    ensures var r := StartSegment(cfg, s, user);
            && r.audio == s.audio && r.sent == s.sent
            && r.calls == (if cfg.sttPresent then s.calls + [StartStream] else s.calls)
            && SameElsewhere(s, r, user)
            && (cfg.minStreamSendBytes > 0 && AccumulatorsBelow(cfg, s) ==> AccumulatorsBelow(cfg, r))
  {
  }

  /**
    Feeding a chunk to the speaker's session (voice.cpp:169-186) touches
    only the speaker's stream state. The recogniser is called at most once,
    with the speaker's session and the whole accumulator, and only when that
    holds at least `minStreamSendBytes` bytes; unless it throws, every
    accumulator stays below that size.
  */
  lemma FeedStreamSpec(cfg: Config, s: VoiceState, user: UserId, audio: seq<Byte>)
    ensures var r := FeedStream(cfg, s, user, audio);
            var acc := StreamStateOf(s, user).accumulator + audio;
            var sends := user in s.sessions && cfg.sttPresent && |acc| >= cfg.minStreamSendBytes;
            && r.state.audio == s.audio && r.state.sessions == s.sessions && r.state.sent == s.sent
            && SameElsewhere(s, r.state, user)
            && (sends ==> r.state.calls == s.calls + [AppendStream(s.sessions[user], acc)])
            && (!sends ==> r.state.calls == s.calls && !r.threw)
            && (!sends && user in s.sessions && cfg.sttPresent ==>
                  r.state.streams == s.streams[user := StreamStateOf(s, user).(accumulator := acc)])
            && (!(user in s.sessions && cfg.sttPresent) ==> r.state == s)
            && (cfg.minStreamSendBytes > 0 && AccumulatorsBelow(cfg, s) && !r.threw ==> AccumulatorsBelow(cfg, r.state))
  {
    if user in s.sessions && cfg.sttPresent {
      var ss := StreamStateOf(s, user);
      var s1 := s.(streams := s.streams[user := ss.(accumulator := ss.accumulator + audio)]);
      if |ss.accumulator + audio| >= cfg.minStreamSendBytes {
        AppendAndMergeSpec(cfg, s1, user, s.sessions[user]);
      }
    }
  }

  /**
    The first non-empty chunk of a speaker who is not speaking (voice.cpp:133-157):
    afterwards the speaker is speaking, the buffer is exactly that chunk and the
    last audio time is now. With a recogniser, exactly one session is
    requested, first; a non-empty id becomes the speaker's session, with a
    fresh merge state that has received only this chunk. Nothing is sent.
  */
  lemma FirstChunkStartsSegment(cfg: Config, s: VoiceState, user: UserId, audio: seq<Byte>, now: int)
    requires |audio| > 0
    requires !AudioStateOf(s, user).isSpeaking || AudioStateOf(s, user).currentBuffer == []
    ensures var r := ProcessChunk(cfg, s, user, audio, now).state;
            var reply := cfg.stt(s.calls, StartStream);
            var started := cfg.sttPresent && reply.Returned? && reply.text != [];
            && AudioStateOf(r, user) == AudioStateOf(s, user).(isSpeaking := true, currentBuffer := audio, lastAudioTime := now)
            && r.sent == s.sent
            && (!cfg.sttPresent ==> r.calls == s.calls && r.sessions == s.sessions)
            && (cfg.sttPresent ==> |r.calls| > |s.calls| && r.calls[..|s.calls| + 1] == s.calls + [StartStream]
                                   && NoStartStream(r.calls[|s.calls| + 1..]))
            && (started ==> r.sessions == s.sessions[user := reply.text])
            && (started && |audio| < cfg.minStreamSendBytes ==> r.streams[user] == EmptyStreamState.(accumulator := audio))
            && (started && |audio| >= cfg.minStreamSendBytes ==>
                  r.calls == s.calls + [StartStream, AppendStream(reply.text, audio)])
            && (cfg.sttPresent && !started ==> r.sessions == s.sessions)
  {
    var s1 := StartSegment(cfg, s, user);
    var s2 := s1.(audio := s1.audio[user := NextAudioState(cfg.isRecording, AudioStateOf(s, user), audio, now)]);
    assert [] + audio == audio;
    StartSegmentFrame(cfg, s, user);
    FeedStreamSpec(cfg, s2, user, audio);
  }

  /**
    A chunk from a speaker who is already speaking (voice.cpp:159-186): the
    chunk is appended to the end of the buffer and the last audio time
    becomes now; no session is started and the session map is unchanged.
    The recogniser is called at most once, with the speaker's session and
    the whole accumulator, and only when that holds at least
    `minStreamSendBytes` bytes.
  */
  lemma SpeakingChunkAppends(cfg: Config, s: VoiceState, user: UserId, audio: seq<Byte>, now: int)
    requires AudioStateOf(s, user).isSpeaking && AudioStateOf(s, user).currentBuffer != []
    ensures var r := ProcessChunk(cfg, s, user, audio, now).state;
            var st := AudioStateOf(s, user);
            var acc := StreamStateOf(s, user).accumulator + audio;
            var sends := user in s.sessions && cfg.sttPresent && |acc| >= cfg.minStreamSendBytes;
            && AudioStateOf(r, user) == st.(currentBuffer := st.currentBuffer + audio, lastAudioTime := now)
            && r.sessions == s.sessions && r.sent == s.sent
            && (sends ==> r.calls == s.calls + [AppendStream(s.sessions[user], acc)])
            && (!sends ==> r.calls == s.calls)
  {
    var s2 := s.(audio := s.audio[user := NextAudioState(cfg.isRecording, AudioStateOf(s, user), audio, now)]);
    FeedStreamSpec(cfg, s2, user, audio);
  }

  /**
    Unless the recogniser throws, a chunk leaves every accumulator below the
    batch size: a batch that reaches it is sent and cleared at once.
  */
  lemma ProcessChunkKeepsAccumulatorsBelow(cfg: Config, s: VoiceState, user: UserId, audio: seq<Byte>, now: int)
    requires cfg.minStreamSendBytes > 0
    requires AccumulatorsBelow(cfg, s)
    ensures var r := ProcessChunk(cfg, s, user, audio, now);
            !r.threw ==> AccumulatorsBelow(cfg, r.state)
  {
    var st := AudioStateOf(s, user);
    var s1 := if StartsSegment(st, audio, now) then StartSegment(cfg, s, user) else s;
    var s2 := s1.(audio := s1.audio[user := NextAudioState(cfg.isRecording, st, audio, now)]);
    StartSegmentFrame(cfg, s, user);
    FeedStreamSpec(cfg, s2, user, audio);
  }

  /** A chunk changes only its own speaker's entries, and sends nothing. */
  lemma ProcessChunkOnlyTouchesSpeaker(cfg: Config, s: VoiceState, user: UserId, audio: seq<Byte>, now: int)
    ensures var r := ProcessChunk(cfg, s, user, audio, now).state;
            && r.sent == s.sent
            && SameElsewhere(s, r, user)
  {
    var st := AudioStateOf(s, user);
    var s1 := if StartsSegment(st, audio, now) then StartSegment(cfg, s, user) else s;
    var s2 := s1.(audio := s1.audio[user := NextAudioState(cfg.isRecording, st, audio, now)]);
    StartSegmentFrame(cfg, s, user);
    FeedStreamSpec(cfg, s2, user, audio);
  }

  /** A chunk keeps the invariant, unless an exception leaves an accumulator full. */
  lemma ProcessChunkKeepsInvariant(cfg: Config, s: VoiceState, user: UserId, audio: seq<Byte>, now: int)
    ensures var r := ProcessChunk(cfg, s, user, audio, now);
            Invariant(cfg, s) && !r.threw ==> Invariant(cfg, r.state)
  {
    if Invariant(cfg, s) {
      ProcessChunkKeepsSpeakingHasAudio(cfg, s, user, audio, now);
      ProcessChunkKeepsAccumulatorsBelow(cfg, s, user, audio, now);
      ProcessChunkOnlyTouchesSpeaker(cfg, s, user, audio, now);
    }
  }

  /** A chunk keeps "speaking implies audio buffered": the buffer of a new segment holds its non-empty first chunk. */
  lemma ProcessChunkKeepsSpeakingHasAudio(cfg: Config, s: VoiceState, user: UserId, audio: seq<Byte>, now: int)
    requires SpeakingHasAudio(s)
    ensures SpeakingHasAudio(ProcessChunk(cfg, s, user, audio, now).state)
  {
    var st := AudioStateOf(s, user);
    var s1 := if StartsSegment(st, audio, now) then StartSegment(cfg, s, user) else s;
    var s2 := s1.(audio := s1.audio[user := NextAudioState(cfg.isRecording, st, audio, now)]);
    StartSegmentFrame(cfg, s, user);
    FeedStreamSpec(cfg, s2, user, audio);
    assert forall u :: u in s2.audio && s2.audio[u].isSpeaking ==> s2.audio[u].currentBuffer != [];
  }

  // Properties of finalisation.

  /** The non-empty strings of a list, in order. */
  function NonEmptyParts(parts: seq<string>): (r: seq<string>)
    ensures |r| <= |parts|
    ensures forall k :: 0 <= k < |r| ==> r[k] != []
  {
    if parts == [] then []
    else if parts[0] == [] then NonEmptyParts(parts[1..])
    else [parts[0]] + NonEmptyParts(parts[1..])
  }

  /** The strings of a list with one space between neighbours. */
  function SpaceSeparated(parts: seq<string>): string {
    if parts == [] then []
    else if |parts| == 1 then parts[0]
    else parts[0] + " " + SpaceSeparated(parts[1..])
  }

  /** Dropping empty strings commutes with appending one more string. */
  lemma {:induction false} NonEmptyPartsSnoc(parts: seq<string>, x: string)
    ensures NonEmptyParts(parts + [x]) == NonEmptyParts(parts) + (if x == [] then [] else [x])
    decreases |parts|
  {
    if parts != [] {
      assert (parts + [x])[1..] == parts[1..] + [x];
      NonEmptyPartsSnoc(parts[1..], x);
    }
  }

  /** Appending one more string adds it after a space, unless it is the first. */
  lemma {:induction false} SpaceSeparatedSnoc(parts: seq<string>, x: string)
    ensures SpaceSeparated(parts + [x]) == if parts == [] then x else SpaceSeparated(parts) + " " + x
    decreases |parts|
  {
    if |parts| >= 2 {
      assert (parts + [x])[1..] == parts[1..] + [x];
      SpaceSeparatedSnoc(parts[1..], x);
    } else if |parts| == 1 {
      assert (parts + [x])[1..] == [x];
    }
  }

  /** Non-empty strings separated by spaces give the empty string only when there are none. */
  lemma SpaceSeparatedEmpty(parts: seq<string>)
    requires forall k :: 0 <= k < |parts| ==> parts[k] != []
    ensures SpaceSeparated(parts) == [] <==> parts == []
  {
    if |parts| >= 2 {
      assert |SpaceSeparated(parts)| >= |parts[0]|;
    }
  }

  /** `Join` (one step of voice.cpp:264-273) extends the space-separated non-empty parts by one more. */
  lemma JoinAddsPart(parts: seq<string>, x: string)
    ensures Join(SpaceSeparated(NonEmptyParts(parts)), x) == SpaceSeparated(NonEmptyParts(parts + [x]))
  {
    var n := NonEmptyParts(parts);
    NonEmptyPartsSnoc(parts, x);
    SpaceSeparatedEmpty(n);
    if x == [] {
      assert n + [] == n;
    } else {
      SpaceSeparatedSnoc(n, x);
    }
  }

  /**
    The final text is the committed text, the pending fragment and the
    recogniser's final result, with empty parts skipped and one space between
    the others (voice.cpp:262-273). It keeps the committed text at its start,
    and is empty only when all three parts are.
  */
  lemma FinalTextIsSpaceSeparated(ss: StreamSessionState, t: string)
    ensures FinalText(ss, t) == SpaceSeparated(NonEmptyParts([ss.committedText, ss.pendingFragment, t]))
    ensures |ss.committedText| <= |FinalText(ss, t)| && FinalText(ss, t)[..|ss.committedText|] == ss.committedText
    ensures FinalText(ss, t) == [] <==> ss.committedText == [] && ss.pendingFragment == [] && t == []
  {
    var c, p := ss.committedText, ss.pendingFragment;
    JoinAddsPart([], c);
    assert [] + [c] == [c];
    JoinAddsPart([c], p);
    assert [c] + [p] == [c, p];
    JoinAddsPart([c, p], t);
    assert [c, p] + [t] == [c, p, t];
    JoinExtends(c, p);
    JoinExtends(Join(c, p), t);
    assert FinalText(ss, t)[..|c|] == FinalText(ss, t)[..|Join(c, p)|][..|c|];
  }

  /** Flushing touches only the speaker's stream state, and keeps the accumulators below the batch size. */
  lemma FlushFrame(cfg: Config, s: VoiceState, user: UserId, sid: string)
    ensures var r := Flush(cfg, s, user, sid).state;
            && r.audio == s.audio && r.sessions == s.sessions && r.sent == s.sent
            && SameElsewhere(s, r, user)
            && (cfg.minStreamSendBytes > 0 && AccumulatorsBelow(cfg, s) ==> AccumulatorsBelow(cfg, r))
  {
    if user in s.streams && s.streams[user].accumulator != [] {
      AppendAndMergeSpec(cfg, s, user, sid);
    }
  }

  /** The log after is the log before, or that and one non-empty transcript of the speaker in the guild. */
  predicate SendsAtMostOne(before: seq<VoiceMessage>, after: seq<VoiceMessage>, user: UserId, guild: GuildId) {
    || after == before
    || (|after| == |before| + 1 && after == before + [after[|before|]]
        && after[|before|].user == user && after[|before|].guild == guild && after[|before|].text != [])
  }

  /** Delivering drops the speaker's stream state and sends at most one, non-empty, transcript. */
  lemma DeliverFrame(s: VoiceState, user: UserId, guild: GuildId, t: string)
    ensures var r := Deliver(s, user, guild, t);
            && r.audio == s.audio && r.sessions == s.sessions && r.calls == s.calls
            && r.streams == s.streams - {user}
            && SendsAtMostOne(s.sent, r.sent, user, guild)
  {
  }

  /**
    Finishing a segment touches only the speaker's entries: the session id
    is removed, the audio states are left to the caller, at most one
    non-empty transcript is sent, for this speaker and guild, and the
    accumulators stay below the batch size.
  */
  lemma TranscribeFrame(cfg: Config, s: VoiceState, user: UserId, st: UserAudioState)
    ensures var r := Transcribe(cfg, s, user, st);
            && r.audio == s.audio
            && r.sessions == s.sessions - {user}
            && SameElsewhere(s, r, user)
            && SendsAtMostOne(s.sent, r.sent, user, st.guildId)
            && (cfg.minStreamSendBytes > 0 && AccumulatorsBelow(cfg, s) ==> AccumulatorsBelow(cfg, r))
  {
    var sid := if user in s.sessions then s.sessions[user] else [];
    var s0 := s.(sessions := s.sessions - {user});
    assert SameElsewhere(s, s0, user);
    var s1 := if sid != [] then Flush(cfg, s0, user, sid).state else s0;
    FlushFrame(cfg, s0, user, sid);
    var call := if sid != [] then FinishStream(sid) else AudioToText(st.currentBuffer);
    var s2 := s1.(calls := s1.calls + [call]);
    var reply := cfg.stt(s1.calls, call);
    if reply.Returned? {
      DeliverFrame(s2, user, st.guildId, reply.text);
      assert SameElsewhere(s2, Deliver(s2, user, st.guildId, reply.text), user);
    }
  }

  /**
    With no session, the whole buffer goes to the one-shot recogniser
    (voice.cpp:256-259); its result, joined after any merged text, is sent
    when non-empty, and the stream state is dropped. An exception sends
    nothing.
  */
  lemma FinalizeWithoutSession(cfg: Config, s: VoiceState, user: UserId, now: int)
    requires ReadyToFinalize(AudioStateOf(s, user), now) && cfg.sttPresent
    requires user !in s.sessions || s.sessions[user] == []
    ensures var r := CheckSilence(cfg, s, user, now);
            var st := AudioStateOf(s, user);
            var reply := cfg.stt(s.calls, AudioToText(st.currentBuffer));
            var text := if reply.Threw? then [] else if user in s.streams then FinalText(s.streams[user], reply.text) else reply.text;
            && r.calls == s.calls + [AudioToText(st.currentBuffer)]
            && r.sessions == s.sessions - {user}
            && (reply.Threw? ==> r.sent == s.sent && r.streams == s.streams)
            && (reply.Returned? ==> r.streams == s.streams - {user}
                                    && r.sent == s.sent + (if text == [] then [] else [VoiceMessage(user, text, st.guildId)]))
  {
  }

  /**
    With a session (voice.cpp:237-284): the id is removed, so the session is
    finished at most once; bytes left in the accumulator are sent first; then
    the session is finished, unless that flush threw. On success the stream
    state is dropped and the final text of the flushed stream state, which
    starts with the committed text, is sent exactly when it is non-empty. An
    exception from the finish sends nothing and keeps the flushed state.
  */
  lemma FinalizeWithSession(cfg: Config, s: VoiceState, user: UserId, now: int)
    requires ReadyToFinalize(AudioStateOf(s, user), now) && cfg.sttPresent
    requires user in s.sessions && s.sessions[user] != []
    ensures var r := CheckSilence(cfg, s, user, now);
            var sid := s.sessions[user];
            var leftover := user in s.streams && s.streams[user].accumulator != [];
            var flush := if leftover then [AppendStream(sid, s.streams[user].accumulator)] else [];
            var flushed := Flush(cfg, s.(sessions := s.sessions - {user}), user, sid);
            var reply := cfg.stt(s.calls + flush, FinishStream(sid));
            var said := if reply.Returned? then reply.text else [];
            var text := if user in flushed.state.streams then FinalText(flushed.state.streams[user], said) else said;
            && r.sessions == s.sessions - {user}
            && (flushed.threw <==> leftover && cfg.stt(s.calls, flush[0]).Threw?)
            && (!leftover ==> flushed.state.streams == s.streams)
            && (flushed.threw ==> r.calls == s.calls + flush && r.sent == s.sent)
            && (!flushed.threw ==> r.calls == s.calls + flush + [FinishStream(sid)])
            && (!flushed.threw && reply.Threw? ==> r.sent == s.sent && r.streams == flushed.state.streams)
            && (!flushed.threw && reply.Returned? ==>
                  && user !in r.streams
                  && r.sent == s.sent + (if text == [] then [] else [VoiceMessage(user, text, AudioStateOf(s, user).guildId)])
                  && (user in s.streams ==>
                        |s.streams[user].committedText| <= |text|
                        && text[..|s.streams[user].committedText|] == s.streams[user].committedText))
  {
    var sid := s.sessions[user];
    var s0 := s.(sessions := s.sessions - {user});
    if user in s0.streams && s0.streams[user].accumulator != [] {
      AppendAndMergeSpec(cfg, s0, user, sid);
    }
    var flushed := Flush(cfg, s0, user, sid);
    assert s.calls + [] == s.calls;
    if !flushed.threw {
      var reply := cfg.stt(flushed.state.calls, FinishStream(sid));
      if reply.Returned? && user in flushed.state.streams {
        var ss := flushed.state.streams[user];
        FinalTextIsSpaceSeparated(ss, reply.text);
        if user in s.streams {
          var c := s.streams[user].committedText;
          var text := FinalText(ss, reply.text);
          assert text[..|c|] == text[..|ss.committedText|][..|c|];
        }
      }
    }
  }

  /**
    Finalisation happens exactly when the speaker is speaking, has been
    silent for more than a second and has at least 32000 bytes buffered
    (voice.cpp:226-228). Then, whatever the recogniser does, the speaker is
    no longer speaking and the buffer is empty; otherwise nothing changes
    but that the speaker has an entry.
  */
  lemma FinalizesIffReady(cfg: Config, s: VoiceState, user: UserId, now: int)
    ensures var r := CheckSilence(cfg, s, user, now);
            var st := AudioStateOf(s, user);
            && user in r.audio
            && (r.audio[user] == st <==> !ReadyToFinalize(st, now))
            && (ReadyToFinalize(st, now) ==> r.audio[user] == st.(isSpeaking := false, currentBuffer := []))
            && (!ReadyToFinalize(st, now) ==> r == s.(audio := s.audio[user := st]))
  {
  }

  /** A second poll at the same time does nothing: the first one left the speaker not ready. */
  lemma CheckSilenceIdempotent(cfg: Config, s: VoiceState, user: UserId, now: int)
    ensures var r := CheckSilence(cfg, s, user, now);
            CheckSilence(cfg, r, user, now) == r
  {
    var r := CheckSilence(cfg, s, user, now);
    FinalizesIffReady(cfg, s, user, now);
    assert !ReadyToFinalize(AudioStateOf(r, user), now);
    assert r.audio[user := r.audio[user]] == r.audio;
  }

  /** A speaker with less than 32000 bytes buffered is never finalised, however long the silence. */
  lemma ShortSegmentNeverFinalized(cfg: Config, s: VoiceState, user: UserId, now: int)
    requires |AudioStateOf(s, user).currentBuffer| < MinAudioSize
    ensures CheckSilence(cfg, s, user, now) == s.(audio := s.audio[user := AudioStateOf(s, user)])
  {
    FinalizesIffReady(cfg, s, user, now);
  }

  /**
    A poll of one speaker changes only that speaker's entries, keeps the
    recogniser's accumulators below the batch size, keeps "speaking implies
    audio buffered", and sends only non-empty transcripts.
  */
  lemma CheckSilenceKeepsInvariants(cfg: Config, s: VoiceState, user: UserId, now: int)
    ensures var r := CheckSilence(cfg, s, user, now);
            && SameElsewhere(s, r, user)
            && (cfg.minStreamSendBytes > 0 && AccumulatorsBelow(cfg, s) ==> AccumulatorsBelow(cfg, r))
            && (SpeakingHasAudio(s) ==> SpeakingHasAudio(r))
            && (SentNonEmpty(s) ==> SentNonEmpty(r))
  {
    var st := AudioStateOf(s, user);
    if ReadyToFinalize(st, now) && cfg.sttPresent {
      TranscribeFrame(cfg, s, user, st);
    }
    var r := CheckSilence(cfg, s, user, now);
    if SentNonEmpty(s) && r.sent != s.sent {
      forall k | 0 <= k < |r.sent|
        ensures r.sent[k].text != []
      {
        if k < |s.sent| {
          assert r.sent[k] == s.sent[k];
        }
      }
    }
  }

  // Properties of a whole poll.

  /** After a poll at time now, no polled speaker is ready to be finalised. */
  lemma {:induction false} PollAllSettles(cfg: Config, s: VoiceState, users: seq<UserId>, now: int)
    ensures var r := PollAll(cfg, s, users, now);
            forall k :: 0 <= k < |users| ==> users[k] in r.audio && !ReadyToFinalize(r.audio[users[k]], now)
    decreases |users|
  {
    if users != [] {
      var s1 := CheckSilence(cfg, s, users[0], now);
      FinalizesIffReady(cfg, s, users[0], now);
      PollAllSettles(cfg, s1, users[1..], now);
      if users[0] !in users[1..] {
        PollAllLeavesOthers(cfg, s1, users[1..], now, users[0]);
      }
      forall k | 0 <= k < |users|
        ensures users[k] in PollAll(cfg, s, users, now).audio
        ensures !ReadyToFinalize(PollAll(cfg, s, users, now).audio[users[k]], now)
      {
        if k > 0 {
          assert users[k] == users[1..][k - 1];
        } else if users[0] in users[1..] {
          var j :| 0 <= j < |users[1..]| && users[1..][j] == users[0];
        }
      }
    }
  }

  /** A poll leaves the entries of a speaker it does not visit as they were. */
  lemma {:induction false} PollAllLeavesOthers(cfg: Config, s: VoiceState, users: seq<UserId>, now: int, u: UserId)
    requires u !in users
    ensures Untouched(s, PollAll(cfg, s, users, now), u)
    decreases |users|
  {
    if users != [] {
      var s1 := CheckSilence(cfg, s, users[0], now);
      CheckSilenceKeepsInvariants(cfg, s, users[0], now);
      SameElsewhereUntouched(s, s1, users[0], u);
      PollAllLeavesOthers(cfg, s1, users[1..], now, u);
    }
  }

  /** What "the same elsewhere" says about one other speaker. */
  lemma SameElsewhereUntouched(s: VoiceState, t: VoiceState, user: UserId, u: UserId)
    requires SameElsewhere(s, t, user) && u != user
    ensures Untouched(s, t, u)
  {
    assert u in s.audio <==> u in s.audio - {user};
    assert u in t.audio <==> u in t.audio - {user};
    assert u in s.sessions <==> u in s.sessions - {user};
    assert u in t.sessions <==> u in t.sessions - {user};
    assert u in s.streams <==> u in s.streams - {user};
    assert u in t.streams <==> u in t.streams - {user};
  }

  /** A poll over speakers none of whom is ready changes nothing. */
  lemma {:induction false} PollAllSettledIsNoop(cfg: Config, s: VoiceState, users: seq<UserId>, now: int)
    requires forall k :: 0 <= k < |users| ==> users[k] in s.audio && !ReadyToFinalize(s.audio[users[k]], now)
    ensures PollAll(cfg, s, users, now) == s
    decreases |users|
  {
    if users != [] {
      FinalizesIffReady(cfg, s, users[0], now);
      assert s.audio[users[0] := s.audio[users[0]]] == s.audio;
      assert forall k :: 0 <= k < |users[1..]| ==> users[1..][k] == users[k + 1];
      PollAllSettledIsNoop(cfg, s, users[1..], now);
    }
  }

  /** An immediate second poll does nothing (voice.cpp:226-230, 288). */
  lemma PollAllIdempotent(cfg: Config, s: VoiceState, users: seq<UserId>, now: int)
    ensures var r := PollAll(cfg, s, users, now);
            PollAll(cfg, r, users, now) == r
  {
    PollAllSettles(cfg, s, users, now);
    PollAllSettledIsNoop(cfg, PollAll(cfg, s, users, now), users, now);
  }

  /** A poll keeps the invariant. */
  lemma {:induction false} PollAllKeepsInvariant(cfg: Config, s: VoiceState, users: seq<UserId>, now: int)
    requires Invariant(cfg, s)
    ensures Invariant(cfg, PollAll(cfg, s, users, now))
    decreases |users|
  {
    if users != [] {
      CheckSilenceKeepsInvariants(cfg, s, users[0], now);
      PollAllKeepsInvariant(cfg, CheckSilence(cfg, s, users[0], now), users[1..], now);
    }
  }

  /** The audio states `handleJoinVoiceCommand` sets up (voice.cpp:340-351): every member idle at now, with an empty buffer. */
  function JoinedStates(members: set<UserId>, guild: GuildId, now: int): (r: map<UserId, UserAudioState>)
    ensures r.Keys == members
    ensures forall u :: u in r ==> r[u] == UserAudioState([], now, false, guild)
  {
    map u | u in members :: UserAudioState([], now, false, guild)
  }

  /** Right after joining, no speaker is speaking, so a poll at any time does nothing. */
  lemma JoinedStatesArePollFixpoint(cfg: Config, s: VoiceState, members: set<UserId>, guild: GuildId, joined: int, now: int)
    ensures var j := s.(audio := JoinedStates(members, guild, joined));
            && SpeakingHasAudio(j)
            && PollAll(cfg, j, SortedKeys(members), now) == j
  {
    var j := s.(audio := JoinedStates(members, guild, joined));
    SortedKeysMembers(members);
    PollAllSettledIsNoop(cfg, j, SortedKeys(members), now);
  }
}
