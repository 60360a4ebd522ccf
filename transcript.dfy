/**
  The partial-transcript merger of the voice module
  (`VoiceModule::mergePartialTranscript`, src/discord_bot/voice.cpp).

  A streaming recogniser re-sends its whole growing hypothesis with every
  partial result. The merger drops the part of a new partial that it shares
  with the previous one, appends the rest to the pending fragment, and moves
  everything up to the last sentence terminator into the committed text.

  A `char` stands for one byte of the UTF-8 `std::string`: the common prefix
  is found byte by byte, as the C++ loop compares.
*/
module Transcript {
  import opened Common

  /** Per-speaker streaming state (the fields used at voice.cpp:147-151). */
  datatype StreamSessionState = StreamSessionState(
    accumulator: seq<Byte>,   // audio not yet sent to appendStream
    committedText: string,    // text that will not change any more
    pendingFragment: string,  // text after the last sentence terminator
    lastPartial: string       // the previous raw partial, the overlap baseline
  )

  const EmptyStreamState := StreamSessionState([], [], [], [])

  /** The characters searched for by `find_last_of(".!?\n")`. */
  predicate IsTerminator(c: char) {
    c == '.' || c == '!' || c == '?' || c == '\n'
  }

  predicate NoTerminator(s: string) {
    forall i :: 0 <= i < |s| ==> !IsTerminator(s[i])
  }

  predicate AllSpaces(s: string) {
    forall i :: 0 <= i < |s| ==> s[i] == ' '
  }

  /** Length of the longest common prefix of a and b. */
  function CommonPrefixLength(a: string, b: string): (n: nat)
    ensures n <= |a| && n <= |b|
  {
    if |a| == 0 || |b| == 0 || a[0] != b[0] then 0
    else 1 + CommonPrefixLength(a[1..], b[1..])
  }

  /** The common prefix really is common, and it cannot be extended. */
  lemma {:induction false} CommonPrefixLengthSpec(a: string, b: string)
    ensures var n := CommonPrefixLength(a, b);
            && a[..n] == b[..n]
            && (n < |a| && n < |b| ==> a[n] != b[n])
  {
    if |a| > 0 && |b| > 0 && a[0] == b[0] {
      CommonPrefixLengthSpec(a[1..], b[1..]);
      var m := CommonPrefixLength(a[1..], b[1..]);
      assert a[..m + 1] == [a[0]] + a[1..][..m];
      assert b[..m + 1] == [b[0]] + b[1..][..m];
    }
  }

  /** Index of the last sentence terminator in s, if any (`find_last_of`). */
  function LastTerminator(s: string): (r: Option<nat>)
    ensures r.Some? ==> r.value < |s| && IsTerminator(s[r.value])
  {
    if |s| == 0 then None
    else if IsTerminator(s[|s| - 1]) then Some(|s| - 1)
    else LastTerminator(s[..|s| - 1])
  }

  /** No terminator follows the one found, and none is found exactly when s has none. */
  lemma {:induction false} LastTerminatorSpec(s: string)
    ensures var r := LastTerminator(s);
            && (r.Some? ==> NoTerminator(s[r.value + 1..]))
            && (r.None? <==> NoTerminator(s))
  {
    if |s| > 0 && !IsTerminator(s[|s| - 1]) {
      var init := s[..|s| - 1];
      LastTerminatorSpec(init);
      var r := LastTerminator(init);
      if r.Some? {
        assert s[r.value + 1..] == init[r.value + 1..] + [s[|s| - 1]];
      } else {
        assert forall i :: 0 <= i < |init| ==> s[i] == init[i];
      }
    }
  }

  /** s without its leading spaces. */
  function TrimLeadingSpaces(s: string): (r: string)
    ensures |r| <= |s|
  {
    if |s| > 0 && s[0] == ' ' then TrimLeadingSpaces(s[1..]) else s
  }

  /** Trimming removes a prefix made only of spaces, and stops at the first other character. */
  lemma {:induction false} TrimLeadingSpacesSpec(s: string)
    ensures var r := TrimLeadingSpaces(s);
            && r == s[|s| - |r|..]
            && AllSpaces(s[..|s| - |r|])
            && (r == [] || r[0] != ' ')
  {
    if |s| > 0 && s[0] == ' ' {
      TrimLeadingSpacesSpec(s[1..]);
      var r := TrimLeadingSpaces(s[1..]);
      assert s[1..][..|s| - 1 - |r|] == s[1..|s| - |r|];
    }
  }

  /** Appends `piece` to `text`, with one separating space when both are non-empty. */
  function Join(text: string, piece: string): string
  {
    if piece == [] then text
    else if text == [] then piece
    else text + " " + piece
  }

  /** The part of `partial` that `lastPartial` has not already shown (voice.cpp:56-66). */
  function NewText(lastPartial: string, partial: string): string
  {
    partial[CommonPrefixLength(lastPartial, partial)..]
  }

  /** The merge, as a function of the old state and the new partial (voice.cpp:53-95). */
  function Merge(st: StreamSessionState, partial: string): StreamSessionState
  {
    if partial == [] then st
    else
      var pending := st.pendingFragment + NewText(st.lastPartial, partial);
      match LastTerminator(pending)
      case None =>
        st.(pendingFragment := pending, lastPartial := partial)
      case Some(i) =>
        st.(committedText := Join(st.committedText, pending[..i + 1]),
            pendingFragment := TrimLeadingSpaces(pending[i + 1..]),
            lastPartial := partial)
  }

  /**
    What every merge keeps: the audio accumulator is untouched, an empty
    partial changes nothing, the committed text is only extended, the pending
    fragment holds no terminator afterwards, and after a commit it does not
    start with a space.
  */
  lemma MergeInvariants(st: StreamSessionState, partial: string)
    ensures var r := Merge(st, partial);
            && r.accumulator == st.accumulator
            && (partial == [] ==> r == st)
            && (partial != [] ==> r.lastPartial == partial && NoTerminator(r.pendingFragment))
            && |st.committedText| <= |r.committedText|
            && r.committedText[..|st.committedText|] == st.committedText
            && (r.committedText != st.committedText ==> r.pendingFragment == [] || r.pendingFragment[0] != ' ')
  {
    if partial != [] {
      var newText := NewText(st.lastPartial, partial);
      var pending := st.pendingFragment + newText;
      var last := LastTerminator(pending);
      LastTerminatorSpec(pending);
      MergeUnfold(st, partial, newText, last);
      if last.Some? {
        TrimKeepsUnterminated(pending[last.value + 1..]);
        JoinExtends(st.committedText, pending[..last.value + 1]);
      }
    }
  }

  /** Trimming an unterminated string leaves it unterminated. */
  lemma TrimKeepsUnterminated(s: string)
    requires NoTerminator(s)
    ensures var t := TrimLeadingSpaces(s);
            NoTerminator(t) && (t == [] || t[0] != ' ')
  {
    TrimLeadingSpacesSpec(s);
    var t := TrimLeadingSpaces(s);
    assert forall k :: 0 <= k < |t| ==> t[k] == s[|s| - |t| + k];
  }

  /** Join keeps the text it extends as a prefix. */
  lemma JoinExtends(text: string, piece: string)
    ensures |text| <= |Join(text, piece)| && Join(text, piece)[..|text|] == text
  {
    if piece != [] && text != [] {
      assert (text + " " + piece)[..|text|] == text;
    }
  }

  /** The merger run over a whole sequence of partials, in order. */
  function MergeAll(st: StreamSessionState, partials: seq<string>): StreamSessionState
    decreases |partials|
  {
    if partials == [] then st else MergeAll(Merge(st, partials[0]), partials[1..])
  }

  /**
    The loop-based merge, as voice.cpp:53-95 writes it: a while loop finds
    the common prefix, the fragment grows, and a second loop trims the spaces
    left after the committed sentence.
  */
  method MergePartialTranscript(st: StreamSessionState, partialText: string) returns (r: StreamSessionState)
    ensures r == Merge(st, partialText)
  {
    if partialText == [] {
      return st;
    }
    var newText := partialText;
    if st.lastPartial != [] {
      var prefix := 0;
      var maxLen := if |st.lastPartial| < |newText| then |st.lastPartial| else |newText|;
      while prefix < maxLen && st.lastPartial[prefix] == newText[prefix]
        invariant prefix <= maxLen
        invariant st.lastPartial[..prefix] == newText[..prefix]
      {
        prefix := prefix + 1;
      }
      CommonPrefixLengthUnique(st.lastPartial, newText, prefix);
      newText := newText[prefix..];
    }
    assert newText == NewText(st.lastPartial, partialText);
    // The three branches of voice.cpp:69-77 all append newText.
    var pending := st.pendingFragment + newText;
    var committed := st.committedText;
    var lastTerm := LastTerminator(pending);
    if lastTerm.Some? {
      var toCommit := pending[..lastTerm.value + 1];
      if committed != [] {
        committed := committed + " ";
      }
      committed := committed + toCommit;
      JoinSpelledOut(st.committedText, toCommit);
      pending := TrimSpaces(pending[lastTerm.value + 1..]);
    }
    r := st.(committedText := committed, pendingFragment := pending, lastPartial := partialText);
    MergeUnfold(st, partialText, newText, lastTerm);
  }

  /** Merge with its lets named, for the method above. */
  lemma MergeUnfold(st: StreamSessionState, partial: string, newText: string, lastTerm: Option<nat>)
    requires partial != [] && newText == NewText(st.lastPartial, partial)
    requires lastTerm == LastTerminator(st.pendingFragment + newText)
    ensures lastTerm.None? ==> Merge(st, partial) == st.(pendingFragment := st.pendingFragment + newText, lastPartial := partial)
    ensures lastTerm.Some? ==>
      Merge(st, partial) == st.(committedText := Join(st.committedText, (st.pendingFragment + newText)[..lastTerm.value + 1]),
             pendingFragment := TrimLeadingSpaces((st.pendingFragment + newText)[lastTerm.value + 1..]),
             lastPartial := partial)
  {
  }

  /** Join written as voice.cpp:84-85 writes it. */
  lemma JoinSpelledOut(text: string, piece: string)
    requires piece != []
    ensures (if text != [] then text + " " else text) + piece == Join(text, piece)
  {
  }

  /** The erase-front loop of voice.cpp:89-91. */
  method TrimSpaces(s: string) returns (r: string)
    ensures r == TrimLeadingSpaces(s)
  {
    r := s;
    while r != [] && r[0] == ' '
      invariant TrimLeadingSpaces(r) == TrimLeadingSpaces(s)
    {
      r := r[1..];
    }
  }

  /** The longest common prefix is the only prefix length that cannot be extended. */
  lemma CommonPrefixLengthUnique(a: string, b: string, n: nat)
    requires n <= |a| && n <= |b| && a[..n] == b[..n]
    requires n == |a| || n == |b| || a[n] != b[n]
    ensures CommonPrefixLength(a, b) == n
  {
    CommonPrefixLengthSpec(a, b);
  }

  /** When a partial extends the previous one, exactly the extension is new. */
  lemma NewTextOfExtension(last: string, extension: string)
    ensures NewText(last, last + extension) == extension
  {
    assert (last + extension)[..|last|] == last;
    CommonPrefixLengthUnique(last, last + extension, |last|);
  }

  /** The last terminator is the one with no terminator after it. */
  lemma LastTerminatorAt(s: string, i: nat)
    requires i < |s| && IsTerminator(s[i]) && NoTerminator(s[i + 1..])
    ensures LastTerminator(s) == Some(i)
  {
    LastTerminatorSpec(s);
  }

  lemma {:induction false} CommonPrefixOfItself(p: string)
    ensures CommonPrefixLength(p, p) == |p|
  {
    if |p| > 0 {
      CommonPrefixOfItself(p[1..]);
    }
  }

  /** Merging the same partial twice in a row changes nothing the second time. */
  lemma MergeIdempotent(st: StreamSessionState, partial: string)
    ensures Merge(Merge(st, partial), partial) == Merge(st, partial)
  {
    if partial != [] {
      var r := Merge(st, partial);
      MergeInvariants(st, partial);
      LastTerminatorSpec(r.pendingFragment);
      CommonPrefixOfItself(partial);
      assert NewText(r.lastPartial, partial) == [];
      assert r.pendingFragment + [] == r.pendingFragment;
    }
  }

  /**
    Overlap removal: when nothing in the fragment is terminated, the merge
    appends exactly the suffix of the partial beyond its common prefix with
    the previous partial, and the committed text stays as it was.
  */
  lemma MergeAppendsOnlyNewText(st: StreamSessionState, partial: string)
    requires partial != []
    requires NoTerminator(st.pendingFragment + NewText(st.lastPartial, partial))
    ensures Merge(st, partial).pendingFragment == st.pendingFragment + partial[CommonPrefixLength(st.lastPartial, partial)..]
    ensures Merge(st, partial).committedText == st.committedText
  {
    LastTerminatorSpec(st.pendingFragment + NewText(st.lastPartial, partial));
  }

  /**
    The merge cut `pending` after its j-th character: that prefix was
    committed, and after it come only spaces and then the new fragment.
  */
  ghost predicate CommittedCut(committed: string, pending: string, committed': string, pending': string, j: nat) {
    && 0 < j <= |pending| - |pending'|
    && IsTerminator(pending[j - 1])
    && committed' == Join(committed, pending[..j])
    && AllSpaces(pending[j..|pending| - |pending'|])
    && pending[|pending| - |pending'|..] == pending'
  }

  /**
    No text is lost: either the fragment grew by the new text and nothing was
    committed, or a terminated prefix of the grown fragment was committed.
  */
  lemma MergeConservesText(st: StreamSessionState, partial: string)
    requires partial != []
    ensures var pending := st.pendingFragment + NewText(st.lastPartial, partial);
            var r := Merge(st, partial);
            || (r.committedText == st.committedText && r.pendingFragment == pending)
            || exists j :: CommittedCut(st.committedText, pending, r.committedText, r.pendingFragment, j)
  {
    var pending := st.pendingFragment + NewText(st.lastPartial, partial);
    var last := LastTerminator(pending);
    MergeUnfold(st, partial, NewText(st.lastPartial, partial), last);
    if last.Some? {
      CommitAt(st.committedText, pending, last.value + 1);
    }
  }

  /** Committing `pending` up to position j is a cut at j. */
  lemma CommitAt(committed: string, pending: string, j: nat)
    requires 0 < j <= |pending| && IsTerminator(pending[j - 1])
    ensures CommittedCut(committed, pending, Join(committed, pending[..j]), TrimLeadingSpaces(pending[j..]), j)
  {
    TrimmedTail(pending, j);
  }

  /** Trimming the tail after position j removes only spaces. */
  lemma TrimmedTail(s: string, j: nat)
    requires j <= |s|
    ensures var t := TrimLeadingSpaces(s[j..]);
            && j <= |s| - |t|
            && AllSpaces(s[j..|s| - |t|])
            && s[|s| - |t|..] == t
  {
    var rest := s[j..];
    TrimLeadingSpacesSpec(rest);
    var t := TrimLeadingSpaces(rest);
    var m := |s| - |t|;
    assert s[m..] == t by {
      assert t == rest[|rest| - |t|..];
    }
    assert AllSpaces(s[j..m]) by {
      assert AllSpaces(rest[..|rest| - |t|]);
      assert s[j..m] == rest[..|rest| - |t|];
    }
  }

  /** Committed text only ever grows, over any sequence of partials. */
  lemma {:induction false} MergeAllCommitMonotone(st: StreamSessionState, partials: seq<string>)
    ensures |st.committedText| <= |MergeAll(st, partials).committedText|
    ensures MergeAll(st, partials).committedText[..|st.committedText|] == st.committedText
    decreases |partials|
  {
    if partials != [] {
      var next := Merge(st, partials[0]);
      MergeInvariants(st, partials[0]);
      MergeAllCommitMonotone(next, partials[1..]);
      var last := MergeAll(next, partials[1..]).committedText;
      assert last[..|st.committedText|] == last[..|next.committedText|][..|st.committedText|];
    }
  }

  /** After any non-empty partial the fragment holds no terminator, so it only grows by merging. */
  lemma {:induction false} MergeAllPendingUnterminated(st: StreamSessionState, partials: seq<string>)
    requires NoTerminator(st.pendingFragment)
    ensures NoTerminator(MergeAll(st, partials).pendingFragment)
    decreases |partials|
  {
    if partials != [] {
      MergeInvariants(st, partials[0]);
      MergeAllPendingUnterminated(Merge(st, partials[0]), partials[1..]);
    }
  }

  /**
    A partial that extends the previous one by `extension` appends exactly
    `extension` to the fragment (so "Hello how are" then
    "Hello how are you doing" appends " you doing").
  */
  lemma OverlapDedup(st: StreamSessionState, extension: string)
    requires st.lastPartial + extension != []
    requires NoTerminator(st.pendingFragment + extension)
    ensures Merge(st, st.lastPartial + extension).pendingFragment == st.pendingFragment + extension
    ensures Merge(st, st.lastPartial + extension).committedText == st.committedText
  {
    NewTextOfExtension(st.lastPartial, extension);
    MergeAppendsOnlyNewText(st, st.lastPartial + extension);
  }

  /**
    From an empty state, a partial made of a terminated sentence and an
    unterminated tail commits the sentence and keeps the tail without its
    leading spaces (so "Hello there. How" commits "Hello there." and keeps "How").
  */
  lemma SentenceBoundary(sentence: string, tail: string)
    requires sentence != [] && IsTerminator(sentence[|sentence| - 1])
    requires NoTerminator(tail)
    ensures Merge(EmptyStreamState, sentence + tail).committedText == sentence
    ensures Merge(EmptyStreamState, sentence + tail).pendingFragment == TrimLeadingSpaces(tail)
  {
    var p := sentence + tail;
    var st := EmptyStreamState;
    assert NewText(st.lastPartial, p) == p;
    assert st.pendingFragment + p == p;
    assert p[|sentence|..] == tail;
    LastTerminatorAt(p, |sentence| - 1);
    MergeUnfold(st, p, p, Some(|sentence| - 1));
    assert p[..|sentence|] == sentence;
  }

  lemma OverlapExample()
    ensures Merge(StreamSessionState([], [], [], "Hello how are"), "Hello how are you doing").pendingFragment
            == " you doing"
  {
    assert "Hello how are" + " you doing" == "Hello how are you doing";
    OverlapDedup(StreamSessionState([], [], [], "Hello how are"), " you doing");
  }
}
