/**
  The text-channel side of the bot (`MessageModule`, src/discord_bot/message.cpp).

  A message from a person is turned into a prompt, the language model
  answers, every registered response listener hears the answer, and the
  answer is posted back to the channel, cut into pieces of at most 2000
  bytes when it is longer than that (a `char` here stands for one byte
  of the UTF-8 `std::string`).

  The language model is a function from the prompt (the conversation
  history) to its reply. A listener is identified by its registration
  number, and everything the module does to the outside world (a listener
  run, a posted message) is appended, in order, to one effect log.
*/
module Messages {
  import opened Conversation

  /** Discord's limit on the length of one message (message.hpp:28). */
  const MaxMessageLength: nat := 2000

  type ChannelId = nat
  type GuildId = nat
  type CallbackId = nat

  datatype IncomingMessage = IncomingMessage(
    authorIsBot: bool,
    authorName: string,
    content: string,
    channel: ChannelId,
    guild: GuildId
  )

  datatype Effect =
    | CallbackRun(callback: CallbackId, response: string, guild: GuildId)
    | Posted(channel: ChannelId, content: string)

  /** The pieces of an over-long message, in order (message.cpp:82-88). */
  function SplitChunks(m: string): seq<string>
    decreases |m|
  {
    if m == [] then []
    else if |m| <= MaxMessageLength then [m]
    else [m[..MaxMessageLength]] + SplitChunks(m[MaxMessageLength..])
  }

  /** The pieces put back together. */
  function Concat(chunks: seq<string>): string {
    if chunks == [] then [] else chunks[0] + Concat(chunks[1..])
  }

  /**
    Splitting loses nothing and adds nothing: the pieces join back into the
    message, there are ceil(|m| / 2000) of them, each is non-empty and at
    most 2000 long, and all but the last are exactly 2000 long.
  */
  lemma {:induction false} SplitChunksSpec(m: string)
    ensures var chunks := SplitChunks(m);
            && Concat(chunks) == m
            && |chunks| == (|m| + MaxMessageLength - 1) / MaxMessageLength
            && (forall i :: 0 <= i < |chunks| ==> 0 < |chunks[i]| <= MaxMessageLength)
            && (forall i :: 0 <= i < |chunks| - 1 ==> |chunks[i]| == MaxMessageLength)
    decreases |m|
  {
    if |m| > MaxMessageLength {
      var rest := m[MaxMessageLength..];
      SplitChunksSpec(rest);
      assert SplitChunks(m)[1..] == SplitChunks(rest);
      assert m == m[..MaxMessageLength] + rest;
    }
  }

  /**
    What `sendMessage` posts (message.cpp:73-80): the message itself when it
    fits, the pieces otherwise; either way the posts join back into it.
  */
  function Sends(m: string): (posts: seq<string>)
    ensures Concat(posts) == m
    ensures |m| <= MaxMessageLength ==> posts == [m]
    ensures forall i :: 0 <= i < |posts| ==> |posts[i]| <= MaxMessageLength
  {
    SplitChunksSpec(m);
    if |m| > MaxMessageLength then SplitChunks(m) else [m]
  }

  /** Posting each piece to one channel. */
  function Posts(channel: ChannelId, pieces: seq<string>): (r: seq<Effect>)
    ensures |r| == |pieces|
    ensures forall i :: 0 <= i < |r| ==> r[i] == Posted(channel, pieces[i])
  {
    seq(|pieces|, i requires 0 <= i < |pieces| => Posted(channel, pieces[i]))
  }

  /** Running each listener once, in registration order (message.cpp:62-64). */
  function Runs(callbacks: seq<CallbackId>, response: string, guild: GuildId): (r: seq<Effect>)
    ensures |r| == |callbacks|
    ensures forall i :: 0 <= i < |r| ==> r[i] == CallbackRun(callbacks[i], response, guild)
  {
    seq(|callbacks|, i requires 0 <= i < |callbacks| => CallbackRun(callbacks[i], response, guild))
  }

  /** What the module does with the model's reply: nothing when it is empty, else every listener runs and then the reply is posted. */
  function Reply(callbacks: seq<CallbackId>, response: string, channel: ChannelId, guild: GuildId): (r: seq<Effect>)
    ensures response == [] <==> r == []
  {
    if response == [] then [] else Runs(callbacks, response, guild) + Posts(channel, Sends(response))
  }

  class MessageModule {
    var responseCallbacks: seq<CallbackId>
    var effects: seq<Effect>

    constructor()
      ensures responseCallbacks == [] && effects == []
    {
      responseCallbacks := [];
      effects := [];
    }

    /** `onResponse` (message.hpp:21): registers a listener after the existing ones. */
    method OnResponse(callback: CallbackId)
      modifies this
      ensures responseCallbacks == old(responseCallbacks) + [callback]
      ensures effects == old(effects)
    {
      responseCallbacks := responseCallbacks + [callback];
    }

    /** `sendMessage` (message.cpp:73-80). */
    method SendMessage(channel: ChannelId, message: string)
      modifies this
      ensures effects == old(effects) + Posts(channel, Sends(message))
      ensures responseCallbacks == old(responseCallbacks)
    {
      if |message| > MaxMessageLength {
        SplitAndSendLongMessage(channel, message);
      } else {
        effects := effects + [Posted(channel, message)];
      }
    }

    /** `splitAndSendLongMessage` (message.cpp:82-88): one post per 2000-byte step. */
    method SplitAndSendLongMessage(channel: ChannelId, message: string)
      modifies this
      ensures effects == old(effects) + Posts(channel, SplitChunks(message))
      ensures responseCallbacks == old(responseCallbacks)
    {
      var i := 0;
      while i < |message|
        invariant 0 <= i
        invariant responseCallbacks == old(responseCallbacks)
        invariant effects + Posts(channel, SplitChunks(Rest(message, i)))
                  == old(effects) + Posts(channel, SplitChunks(message))
      {
        var end := if i + MaxMessageLength < |message| then i + MaxMessageLength else |message|;
        var chunk := message[i..end];
        ChunkStep(channel, message[i..]);
        if end == |message| {
          assert chunk == message[i..] && Rest(message, i + MaxMessageLength) == [];
        } else {
          assert chunk == message[i..][..MaxMessageLength];
          assert Rest(message, i + MaxMessageLength) == message[i..][MaxMessageLength..];
        }
        assert effects + ([Posted(channel, chunk)] + Posts(channel, SplitChunks(Rest(message, i + MaxMessageLength))))
            == (effects + [Posted(channel, chunk)]) + Posts(channel, SplitChunks(Rest(message, i + MaxMessageLength)));
        effects := effects + [Posted(channel, chunk)];
        i := i + MaxMessageLength;
      }
    }

    /**
      `handleMessage` (message.cpp:18-71): a person's message becomes a
      prompt; a non-empty reply is heard by every listener and then posted.
    */
    method HandleMessage(event: IncomingMessage, conversation: ConversationStore, inference: seq<Entry> -> string)
      modifies this, conversation
      ensures event.authorIsBot ==>
        conversation.history == old(conversation.history) && effects == old(effects)
      ensures !event.authorIsBot ==>
        conversation.history == old(conversation.history) + [Entry(User, FormatUserInput(event.authorName, event.content))]
      ensures !event.authorIsBot ==>
        effects == old(effects) + Reply(responseCallbacks, inference(conversation.history), event.channel, event.guild)
      ensures responseCallbacks == old(responseCallbacks)
    {
      if event.authorIsBot {
        return;
      }
      var prompt := conversation.BuildPrompt(event.content, event.authorName);
      var response := inference(prompt);
      Respond(response, event.channel, event.guild);
    }

    /** message.cpp:61-67: a non-empty reply is heard by every listener and then posted. */
    method Respond(response: string, channel: ChannelId, guild: GuildId)
      modifies this
      ensures effects == old(effects) + Reply(responseCallbacks, response, channel, guild)
      ensures responseCallbacks == old(responseCallbacks)
    {
      if response != [] {
        ghost var before := effects;
        NotifyListeners(response, guild);
        SendMessage(channel, response);
        assert before + (Runs(responseCallbacks, response, guild) + Posts(channel, Sends(response)))
            == (before + Runs(responseCallbacks, response, guild)) + Posts(channel, Sends(response));
      }
    }

    /** message.cpp:62-64: every listener hears the reply, in registration order. */
    method NotifyListeners(response: string, guild: GuildId)
      modifies this
      ensures effects == old(effects) + Runs(responseCallbacks, response, guild)
      ensures responseCallbacks == old(responseCallbacks)
    {
      var i := 0;
      while i < |responseCallbacks|
        invariant 0 <= i <= |responseCallbacks|
        invariant responseCallbacks == old(responseCallbacks)
        invariant effects == old(effects) + Runs(responseCallbacks[..i], response, guild)
      {
        effects := effects + [CallbackRun(responseCallbacks[i], response, guild)];
        assert Runs(responseCallbacks[..i + 1], response, guild)
            == Runs(responseCallbacks[..i], response, guild) + [CallbackRun(responseCallbacks[i], response, guild)];
        i := i + 1;
      }
      assert responseCallbacks[..i] == responseCallbacks;
    }
  }

  /** What the splitting loop has still to post once it reaches position i. */
  function Rest(m: string, i: nat): string {
    if i < |m| then m[i..] else []
  }

  /** One step of the splitting loop: a long rest yields a full piece first, a short one is the last piece. */
  lemma ChunkStep(channel: ChannelId, rest: string)
    requires rest != []
    ensures |rest| <= MaxMessageLength ==> Posts(channel, SplitChunks(rest)) == [Posted(channel, rest)]
    ensures |rest| > MaxMessageLength ==>
      Posts(channel, SplitChunks(rest))
        == [Posted(channel, rest[..MaxMessageLength])] + Posts(channel, SplitChunks(rest[MaxMessageLength..]))
  {
  }
}
