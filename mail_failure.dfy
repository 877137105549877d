/**
 * How the handlers that mail through SendGrid turn a failed send into the
 * `error` text of their 500 reply: the messages of the provider's error list
 * joined with ", ", or the handler's own fixed text when the failure carries
 * no such list.
 */
module MailFailure {
  import opened Wrappers

  /** A failed send; `errors` is `error.response.body.errors` mapped to their messages, when present. */
  datatype SendFailure = SendFailure(errors: Option<seq<string>>)

  /** `parts.join(sep)` */
  function JoinWith(parts: seq<string>, sep: string): (r: string)
    ensures |parts| == 1 ==> r == parts[0]
    decreases |parts|
  {
    if parts == [] then ""
    else if |parts| == 1 then parts[0]
    else parts[0] + sep + JoinWith(parts[1..], sep)
  }

  /** The reply text for a failed send. */
  function FailureText(f: SendFailure, fallback: string): (r: string)
    ensures f.errors.None? ==> r == fallback
    ensures f.errors.Some? ==> r == JoinWith(f.errors.value, ", ")
  {
    if f.errors.Some? then JoinWith(f.errors.value, ", ") else fallback
  }

  /** Where message `i` starts in the joined text: after every earlier message, each followed by one separator. */
  function MessageStart(parts: seq<string>, sep: string, i: nat): nat
    requires i <= |parts|
  {
    if i == 0 then 0 else MessageStart(parts, sep, i - 1) + |parts[i - 1]| + |sep|
  }

  /** Counting from the second message on: the first message and a separator come first. */
  lemma {:induction false} MessageStartAfterFirst(parts: seq<string>, sep: string, i: nat)
    requires 0 < i <= |parts|
    ensures MessageStart(parts, sep, i) == |parts[0]| + |sep| + MessageStart(parts[1..], sep, i - 1)
  {
    if i > 1 {
      MessageStartAfterFirst(parts, sep, i - 1);
      assert parts[1..][i - 2] == parts[i - 1];
    }
  }

  /** Every provider message appears in the reply text, in order: message `i` starts exactly after
      the messages before it and one separator after each. */
  lemma {:induction false} JoinedKeepsEachMessage(parts: seq<string>, sep: string, i: nat)
    requires i < |parts|
    ensures MessageStart(parts, sep, i) + |parts[i]| <= |JoinWith(parts, sep)|
    ensures JoinWith(parts, sep)[MessageStart(parts, sep, i)..MessageStart(parts, sep, i) + |parts[i]|] == parts[i]
    decreases |parts|
  {
    var r := JoinWith(parts, sep);
    if i == 0 {
      if |parts| > 1 {
        assert r == parts[0] + sep + JoinWith(parts[1..], sep);
      }
      assert r[0..|parts[0]|] == parts[0];
    } else {
      JoinedKeepsEachMessage(parts[1..], sep, i - 1);
      MessageStartAfterFirst(parts, sep, i);
      var j := MessageStart(parts[1..], sep, i - 1);
      var rest := JoinWith(parts[1..], sep);
      var off := |parts[0]| + |sep|;
      assert r == parts[0] + sep + rest;
      assert r[off + j..off + j + |parts[i]|] == rest[j..j + |parts[i]|];
    }
  }
}
