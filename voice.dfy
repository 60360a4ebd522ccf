/**
  The voice module itself (`VoiceModule`, src/discord_bot/voice.cpp): the
  three per-speaker maps, updated in place by `processAudioChunk` and
  `checkForSilenceAndTranscribe`, and one pass of the silence-detection loop.

  Each method is proved against the function of the state that specifies it
  (module VoiceSpec), where the properties of the state machine are proved.
  Besides the maps, the object records every call made to the speech
  recogniser and every transcript handed on to `sendVoiceMessage`.
*/
module Voice {
  import opened Common
  import opened Transcript
  import opened VoiceSpec

  class VoiceModule {
    /** The speech recogniser, whether the client was created, and the streaming batch size. */
    const stt: SttOracle
    const sttPresent: bool
    const minStreamSendBytes: nat
    /** `is_recording` is set to false by the constructor and never changed (voice.cpp:12). */
    const isRecording: bool

    var voiceConnected: bool
    var userAudioStates: map<UserId, UserAudioState>
    var userStreamSessionIds: map<UserId, string>
    var streamStates: map<UserId, StreamSessionState>
    var sttCalls: seq<SttCall>
    var sent: seq<VoiceMessage>

    function Cfg(): Config {
      Config(sttPresent, isRecording, minStreamSendBytes, stt)
    }

    function State(): VoiceState
      reads this
    {
      VoiceState(userAudioStates, userStreamSessionIds, streamStates, sttCalls, sent)
    }

    /** What holds between the module's operations (VoiceSpec.Invariant). */
    predicate Valid()
      reads this
    {
      Invariant(Cfg(), State())
    }

    /** The constructor (voice.cpp:11-13): not connected, not recording, all maps empty. */
    constructor(stt: SttOracle, sttPresent: bool, minStreamSendBytes: nat)
      requires minStreamSendBytes > 0
      ensures this.stt == stt && this.sttPresent == sttPresent && this.minStreamSendBytes == minStreamSendBytes
      ensures !voiceConnected && !isRecording
      ensures State() == VoiceState(map[], map[], map[], [], [])
      ensures Valid()
    {
      this.stt := stt;
      this.sttPresent := sttPresent;
      this.minStreamSendBytes := minStreamSendBytes;
      isRecording := false;
      voiceConnected := false;
      userAudioStates := map[];
      userStreamSessionIds := map[];
      streamStates := map[];
      sttCalls := [];
      sent := [];
    }

    /** One call to the recogniser, logged. */
    method CallStt(call: SttCall) returns (reply: SttReply)
      modifies this
      ensures (State(), reply) == Call(Cfg(), old(State()), call)
      ensures voiceConnected == old(voiceConnected)
    {
      reply := stt(sttCalls, call);
      sttCalls := sttCalls + [call];
    }

    /** voice.cpp:139-156: `startStream`, storing a non-empty id and resetting the merge state. */
    method StartStreamSession(user: UserId)
      modifies this
      ensures State() == StartSegment(Cfg(), old(State()), user)
      ensures voiceConnected == old(voiceConnected)
    {
      if sttPresent {
        var reply := CallStt(StartStream);
        if reply.Returned? && reply.text != [] {
          userStreamSessionIds := userStreamSessionIds[user := reply.text];
          streamStates := streamStates[user := EmptyStreamState];
        }
      }
    }

    /**
      `appendStream` with the speaker's accumulator, then clearing it and
      merging a non-empty partial transcript (voice.cpp:179-184, 249-253).
      `threw` reports an exception from the recogniser.
    */
    method AppendAndMergeStream(user: UserId, sid: string) returns (threw: bool)
      requires user in streamStates
      modifies this
      ensures Step(State(), threw) == AppendAndMerge(Cfg(), old(State()), user, sid)
      ensures voiceConnected == old(voiceConnected)
    {
      var sstate := streamStates[user];
      var reply := CallStt(AppendStream(sid, sstate.accumulator));
      if reply.Threw? {
        return true;
      }
      sstate := sstate.(accumulator := []);
      if reply.text != [] {
        sstate := MergePartialTranscript(sstate, reply.text);
      }
      streamStates := streamStates[user := sstate];
      threw := false;
    }

    /**
      `processAudioChunk` (voice.cpp:123-188). `threw` reports an exception
      from `appendStream` at voice.cpp:179, which is not caught there.
    */
    method ProcessAudioChunk(user: UserId, audio: seq<Byte>, now: int) returns (threw: bool)
      modifies this
      ensures Step(State(), threw) == ProcessChunk(Cfg(), old(State()), user, audio, now)
      ensures voiceConnected == old(voiceConnected)
      ensures old(Valid()) && !threw ==> Valid()
    {
      ghost var s := State();
      var state := BeginChunk(user, audio, now);
      if isRecording || state.isSpeaking {
        state := state.(currentBuffer := state.currentBuffer + audio, lastAudioTime := now);
        userAudioStates := userAudioStates[user := state];
        threw := FeedStreamSession(user, audio);
      } else {
        userAudioStates := userAudioStates[user := state];
        threw := false;
      }
      ProcessChunkKeepsInvariant(Cfg(), s, user, audio, now);
    }

    /**
      voice.cpp:128-157: the speaker's state (a fresh one for a new speaker),
      reset when its buffer is empty, and a new segment with its streaming
      session when a non-empty chunk arrives while not speaking.
    */
    method BeginChunk(user: UserId, audio: seq<Byte>, now: int) returns (state: UserAudioState)
      modifies this
      ensures var st := AudioStateOf(old(State()), user);
              && State() == (if StartsSegment(st, audio, now) then StartSegment(Cfg(), old(State()), user) else old(State()))
              && state == (if StartsSegment(st, audio, now) then ResetIfIdle(st, now).(isSpeaking := true, currentBuffer := []) else ResetIfIdle(st, now))
      ensures voiceConnected == old(voiceConnected)
    {
      state := if user in userAudioStates then userAudioStates[user] else DefaultAudioState;
      if state.currentBuffer == [] {
        state := state.(lastAudioTime := now, isSpeaking := false);
      }
      if !state.isSpeaking && |audio| > 0 {
        state := state.(isSpeaking := true, currentBuffer := []);
        StartStreamSession(user);
      }
    }

    /** voice.cpp:169-186: the chunk joins the session's accumulator, which is sent once large enough. */
    method FeedStreamSession(user: UserId, audio: seq<Byte>) returns (threw: bool)
      modifies this
      ensures Step(State(), threw) == FeedStream(Cfg(), old(State()), user, audio)
      ensures voiceConnected == old(voiceConnected)
    {
      threw := false;
      if user in userStreamSessionIds && sttPresent {
        var sstate := if user in streamStates then streamStates[user] else EmptyStreamState;
        sstate := sstate.(accumulator := sstate.accumulator + audio);
        streamStates := streamStates[user := sstate];
        if |sstate.accumulator| >= minStreamSendBytes {
          threw := AppendAndMergeStream(user, userStreamSessionIds[user]);
        }
      }
    }

    /** The voice receive handler (voice.cpp:39-44): audio is processed only while connected. */
    method VoiceReceive(user: UserId, audio: seq<Byte>, now: int) returns (threw: bool)
      modifies this
      ensures voiceConnected ==> Step(State(), threw) == ProcessChunk(Cfg(), old(State()), user, audio, now)
      ensures !voiceConnected ==> State() == old(State()) && !threw
      ensures voiceConnected == old(voiceConnected)
      ensures old(Valid()) && !threw ==> Valid()
    {
      threw := false;
      if voiceConnected {
        threw := ProcessAudioChunk(user, audio, now);
      }
    }

    /** `sendVoiceMessage` (voice.cpp:190-216), reduced to handing the transcript on. */
    method SendVoiceMessage(user: UserId, text: string, guild: GuildId)
      modifies this
      ensures State() == old(State()).(sent := old(sent) + [VoiceMessage(user, text, guild)])
      ensures voiceConnected == old(voiceConnected)
    {
      sent := sent + [VoiceMessage(user, text, guild)];
    }

    /**
      The body of the `try` in `checkForSilenceAndTranscribe` (voice.cpp:235-281)
      for a speaker whose segment is being finalised.
    */
    method FinishAndTranscribe(user: UserId, state: UserAudioState)
      requires sttPresent
      modifies this
      ensures State() == Transcribe(Cfg(), old(State()), user, state)
      ensures voiceConnected == old(voiceConnected)
    {
      var sid: string := [];
      if user in userStreamSessionIds {
        sid := userStreamSessionIds[user];
        userStreamSessionIds := userStreamSessionIds - {user};
      }
      var reply: SttReply;
      if sid != [] {
        if user in streamStates && streamStates[user].accumulator != [] {
          var threw := AppendAndMergeStream(user, sid);
          if threw {
            return;
          }
        }
        reply := CallStt(FinishStream(sid));
      } else {
        reply := CallStt(AudioToText(state.currentBuffer));
      }
      if reply.Threw? {
        return;
      }
      DeliverTranscript(user, state.guildId, reply.text);
    }

    /** voice.cpp:262-280: the final text is assembled, the stream state dropped, and a non-empty text sent. */
    method DeliverTranscript(user: UserId, guild: GuildId, transcribed: string)
      modifies this
      ensures State() == Deliver(old(State()), user, guild, transcribed)
      ensures voiceConnected == old(voiceConnected)
    {
      var finalText := transcribed;
      if user in streamStates {
        finalText := AssembleFinalText(streamStates[user], transcribed);
        streamStates := streamStates - {user};
      }
      if finalText != [] {
        SendVoiceMessage(user, finalText, guild);
      }
    }

    /** `checkForSilenceAndTranscribe` (voice.cpp:218-290) at time now. */
    method CheckForSilenceAndTranscribe(user: UserId, now: int)
      modifies this
      ensures State() == CheckSilence(Cfg(), old(State()), user, now)
      ensures voiceConnected == old(voiceConnected)
      ensures old(Valid()) ==> Valid()
    {
      ghost var s := State();
      var state := if user in userAudioStates then userAudioStates[user] else DefaultAudioState;
      if state.isSpeaking && now - state.lastAudioTime > SilenceThresholdMs && |state.currentBuffer| >= MinAudioSize {
        if sttPresent {
          FinishAndTranscribe(user, state);
        }
        userAudioStates := userAudioStates[user := state.(isSpeaking := false, currentBuffer := [])];
      } else {
        userAudioStates := userAudioStates[user := state];
      }
      CheckSilenceKeepsInvariants(Cfg(), s, user, now);
    }

    /**
      One pass of the silence-detection loop (voice.cpp:115-117): every
      speaker with an entry, in ascending order of id, is checked at time now.
      A second pass at the same time would change nothing (VoiceSpec.PollAllIdempotent).
    */
    method Poll(now: int)
      modifies this
      ensures State() == PollAll(Cfg(), old(State()), SortedKeys(old(userAudioStates).Keys), now)
      ensures voiceConnected == old(voiceConnected)
      ensures old(Valid()) ==> Valid()
    {
      ghost var s := State();
      var users := SortedKeys(userAudioStates.Keys);
      for i := 0 to |users|
        invariant voiceConnected == old(voiceConnected)
        invariant PollAll(Cfg(), State(), users[i..], now) == PollAll(Cfg(), s, users, now)
      {
        assert users[i..][1..] == users[i + 1..];
        CheckForSilenceAndTranscribe(users[i], now);
      }
      assert users[|users|..] == [];
      if Invariant(Cfg(), s) {
        PollAllKeepsInvariant(Cfg(), s, users, now);
      }
    }

    /**
      The state set-up of `handleJoinVoiceCommand` (voice.cpp:321-354). When
      the guild is not found or the issuing user is in no voice channel
      (`canConnect` false) nothing changes; otherwise the module is connected
      and every member of the channel starts idle with an empty buffer.
      The session and stream maps are not cleared.
    */
    method HandleJoinVoice(guild: GuildId, members: set<UserId>, canConnect: bool, now: int)
      modifies this
      ensures !canConnect ==> State() == old(State()) && voiceConnected == old(voiceConnected)
      ensures canConnect ==> voiceConnected && State() == old(State()).(audio := JoinedStates(members, guild, now))
      ensures old(Valid()) ==> Valid()
    {
      if !canConnect {
        return;
      }
      voiceConnected := true;
      var states: map<UserId, UserAudioState> := map[];
      var remaining := members;
      while remaining != {}
        invariant remaining <= members
        invariant states.Keys == members - remaining
        invariant forall u :: u in states ==> states[u] == UserAudioState([], now, false, guild)
        decreases |remaining|
      {
        var u :| u in remaining;
        states := states[u := UserAudioState([], now, false, guild)];
        remaining := remaining - {u};
      }
      assert states == JoinedStates(members, guild, now);
      userAudioStates := states;
      JoinedStatesArePollFixpoint(Cfg(), old(State()), members, guild, now, now);
    }
  }

  /**
    voice.cpp:262-273: the committed text, then the pending fragment and the
    final result, each added after a space when there is already text and
    skipped when empty.
  */
  method AssembleFinalText(ss: StreamSessionState, transcribed: string) returns (finalText: string)
    ensures finalText == FinalText(ss, transcribed)
  {
    finalText := ss.committedText;
    if ss.pendingFragment != [] {
      if finalText != [] {
        finalText := finalText + " ";
      }
      finalText := finalText + ss.pendingFragment;
      JoinSpelledOut(ss.committedText, ss.pendingFragment);
    }
    ghost var joined := finalText;
    if transcribed != [] {
      if finalText != [] {
        finalText := finalText + " ";
      }
      finalText := finalText + transcribed;
      JoinSpelledOut(joined, transcribed);
    }
  }
}
