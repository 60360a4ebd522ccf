/**
  Recognition of system commands in a model reply
  (`isSystemCommand`, src/system_control.cpp): a reply is a system command
  when it contains the tag "[SYSTEM]:" anywhere, compared byte by
  byte (so case matters).
*/
module SystemControl {
  import opened Common

  const SystemTag: string := "[SYSTEM]:"

  /** p occurs in s starting at position i. */
  predicate OccursAt(s: string, p: string, i: nat) {
    i + |p| <= |s| && s[i..i + |p|] == p
  }

  /** `std::string::find`: the first position at which p occurs in s, if any. */
  function Find(s: string, p: string): (r: Option<nat>)
    ensures r.Some? ==> OccursAt(s, p, r.value)
    ensures r.Some? ==> forall j :: 0 <= j < r.value ==> !OccursAt(s, p, j)
    ensures r.None? ==> forall j :: 0 <= j ==> !OccursAt(s, p, j)
    decreases |s|
  {
    if |s| < |p| then None
    else if s[..|p|] == p then Some(0)
    else
      var r := Find(s[1..], p);
      forall j | 1 <= j
        ensures OccursAt(s, p, j) <==> OccursAt(s[1..], p, j - 1)
      {
        OccursShift(s, p, j);
      }
      if r.None? then None else Some(r.value + 1)
  }

  /** An occurrence after position 0 is an occurrence in the tail, one place earlier. */
  lemma OccursShift(s: string, p: string, j: nat)
    requires 1 <= j && 1 <= |s|
    ensures OccursAt(s, p, j) <==> OccursAt(s[1..], p, j - 1)
  {
    if j + |p| <= |s| {
      SliceOfTail(s, j - 1, j - 1 + |p|);
      assert s[j..j + |p|] == s[1..][j - 1..j - 1 + |p|];
    }
  }

  /** A slice of the tail is the slice one place further along. */
  lemma SliceOfTail(s: string, i: nat, k: nat)
    requires 1 <= |s| && i <= k <= |s| - 1
    ensures s[1..][i..k] == s[i + 1..k + 1]
  {
  }

  /** `isSystemCommand` (system_control.cpp:5-7). */
  predicate IsSystemCommand(response: string) {
    Find(response, SystemTag).Some?
  }

  /** A reply is a system command exactly when the tag occurs in it somewhere. */
  lemma SystemCommandIffOccurs(response: string)
    ensures IsSystemCommand(response) <==> exists i :: OccursAt(response, SystemTag, i)
  {
    var r := Find(response, SystemTag);
    if r.Some? {
      assert OccursAt(response, SystemTag, r.value);
    }
  }

  /** Nine bytes are needed to hold the tag. */
  lemma ShortRepliesAreNotCommands(response: string)
    requires |response| < |SystemTag|
    ensures !IsSystemCommand(response)
  {
  }

  /** The comparison is case-sensitive: the lower-case tag is not a command. */
  lemma LowerCaseTagIsNotCommand()
    ensures !IsSystemCommand("[system]:")
  {
    assert "[system]:"[1] != SystemTag[1];
    assert "[system]:"[..9] != SystemTag;
  }

  /** Any text around a system command keeps it a system command. */
  lemma ContainingCommandIsCommand(before: string, response: string, after: string)
    requires IsSystemCommand(response)
    ensures IsSystemCommand(before + response + after)
  {
    var i := Find(response, SystemTag).value;
    var s := before + response + after;
    assert s[|before| + i..|before| + i + |SystemTag|] == response[i..i + |SystemTag|];
    assert OccursAt(s, SystemTag, |before| + i);
    SystemCommandIffOccurs(s);
  }
}
