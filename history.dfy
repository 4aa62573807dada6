/**
  The history store: the conversation as an ordered list of messages, the
  first-match search the delete button uses, and the plain-text transcript the
  download button produces.
 */
module History {
  import opened Text

  datatype Sender = User | Bot

  datatype Message = Message(text: string, sender: Sender, timestamp: string)

  /** The identity a delete button compares by: text and sender, not timestamp. */
  predicate IsMessage(m: Message, text: string, sender: Sender) {
    m.text == text && m.sender == sender
  }

  /** The search of the delete button: the first position holding a message
      with this text and sender, or -1 when no message matches. */
  method FindIndex(history: seq<Message>, text: string, sender: Sender) returns (index: int)
    ensures -1 <= index < |history|
    ensures index == -1 <==> forall j :: 0 <= j < |history| ==> !IsMessage(history[j], text, sender)
    ensures index >= 0 ==> IsMessage(history[index], text, sender)
    ensures forall j :: 0 <= j < index ==> !IsMessage(history[j], text, sender)
  {
    index := 0;
    while index < |history|
      invariant 0 <= index <= |history|
      invariant forall j :: 0 <= j < index ==> !IsMessage(history[j], text, sender)
    {
      if IsMessage(history[index], text, sender) {
        return;
      }
      index := index + 1;
    }
    index := -1;
  }

  /** The history after deleting the first message with this text and sender. */
  function RemoveFirst(history: seq<Message>, text: string, sender: Sender): seq<Message> {
    if history == [] then []
    else if IsMessage(history[0], text, sender) then history[1..]
    else [history[0]] + RemoveFirst(history[1..], text, sender)
  }

  /** Deleting cuts out exactly the first match; the rest keep their order. */
  lemma {:induction false} RemoveFirstAt(history: seq<Message>, text: string, sender: Sender, i: nat)
    requires i < |history| && IsMessage(history[i], text, sender)
    requires forall j :: 0 <= j < i ==> !IsMessage(history[j], text, sender)
    ensures RemoveFirst(history, text, sender) == history[..i] + history[i + 1..]
  {
    if i > 0 {
      RemoveFirstAt(history[1..], text, sender, i - 1);
      assert history[1..][..i - 1] == history[1..i];
      assert history[1..][i..] == history[i + 1..];
      assert history[..i] == [history[0]] + history[1..i];
    }
  }

  /** Deleting a message that is not there leaves the history as it was. */
  lemma {:induction false} RemoveFirstAbsent(history: seq<Message>, text: string, sender: Sender)
    requires forall j :: 0 <= j < |history| ==> !IsMessage(history[j], text, sender)
    ensures RemoveFirst(history, text, sender) == history
  {
    if history != [] {
      RemoveFirstAbsent(history[1..], text, sender);
      assert history == [history[0]] + history[1..];
    }
  }

  /** One delete removes one message when some message matches, even when
      several do, and none otherwise. */
  lemma RemoveFirstLength(history: seq<Message>, text: string, sender: Sender)
    ensures (exists j :: 0 <= j < |history| && IsMessage(history[j], text, sender)) ==>
              |RemoveFirst(history, text, sender)| == |history| - 1
    ensures (forall j :: 0 <= j < |history| ==> !IsMessage(history[j], text, sender)) ==>
              RemoveFirst(history, text, sender) == history
    ensures multiset(RemoveFirst(history, text, sender)) <= multiset(history)
  {
    RemoveFirstDrops(history, text, sender);
    if forall j :: 0 <= j < |history| ==> !IsMessage(history[j], text, sender) {
      RemoveFirstAbsent(history, text, sender);
    }
  }

  lemma {:induction false} RemoveFirstDrops(history: seq<Message>, text: string, sender: Sender)
    ensures (exists j :: 0 <= j < |history| && IsMessage(history[j], text, sender)) ==>
              |RemoveFirst(history, text, sender)| == |history| - 1
    ensures multiset(RemoveFirst(history, text, sender)) <= multiset(history)
  {
    if history != [] {
      var tail := history[1..];
      RemoveFirstDrops(tail, text, sender);
      assert history == [history[0]] + tail;
      if !IsMessage(history[0], text, sender) {
        var r := RemoveFirst(tail, text, sender);
        assert RemoveFirst(history, text, sender) == [history[0]] + r;
        assert multiset([history[0]] + r) == multiset{history[0]} + multiset(r);
        if exists j :: 0 <= j < |history| && IsMessage(history[j], text, sender) {
          var j :| 0 <= j < |history| && IsMessage(history[j], text, sender);
          assert IsMessage(tail[j - 1], text, sender);
        }
      } else {
        assert multiset(history) == multiset{history[0]} + multiset(tail);
      }
    }
  }

  /** The title line of the download and the rule beneath it. */
  const Title := "Driah AI Chat History\n"
  const Underline := "=====================\n\n"
  const Header := Title + Underline

  function Speaker(sender: Sender): string {
    match sender
    case User => "You"
    case Bot => "Driah AI"
  }

  function Line(m: Message): string {
    Speaker(m.sender) + ": " + m.text + "\n\n"
  }

  /** The blocks that block gives for each message, joined in order. */
  function Joined(block: Message -> string, history: seq<Message>): string {
    if history == [] then "" else block(history[0]) + Joined(block, history[1..])
  }

  /** The downloaded text: the header, then one block per message in order. */
  function TranscriptOf(history: seq<Message>): string {
    Header + Joined(Line, history)
  }

  lemma JoinedCons(block: Message -> string, m: Message, tail: seq<Message>)
    ensures Joined(block, [m] + tail) == block(m) + Joined(block, tail)
  {
    var whole := [m] + tail;
    assert whole[0] == m && whole[1..] == tail;
  }

  lemma JoinedStep(block: Message -> string, front: seq<Message>, back: seq<Message>)
    requires front != []
    ensures Joined(block, front + back) == block(front[0]) + Joined(block, front[1..] + back)
  {
    assert (front + back)[0] == front[0];
    assert (front + back)[1..] == front[1..] + back;
  }

  lemma {:induction false} JoinedAppend(block: Message -> string, front: seq<Message>, back: seq<Message>)
    ensures Joined(block, front + back) == Joined(block, front) + Joined(block, back)
  {
    if front != [] {
      JoinedAppend(block, front[1..], back);
      JoinedStep(block, front, back);
    } else {
      assert front + back == back;
    }
  }

  lemma SplitAround(history: seq<Message>, i: nat)
    requires i < |history|
    ensures history == history[..i] + ([history[i]] + history[i + 1..])
  {
  }

  lemma JoinedAt(block: Message -> string, history: seq<Message>, i: nat)
    requires i < |history|
    ensures Joined(block, history) == Joined(block, history[..i]) + (block(history[i]) + Joined(block, history[i + 1..]))
  {
    SplitAround(history, i);
    JoinedAppend(block, history[..i], [history[i]] + history[i + 1..]);
    JoinedCons(block, history[i], history[i + 1..]);
  }

  /** Every message contributes its own block, at its own place. */
  lemma TranscriptBlock(history: seq<Message>, i: nat)
    requires i < |history|
    ensures TranscriptOf(history) == Header + Joined(Line, history[..i]) + Line(history[i]) + Joined(Line, history[i + 1..])
  {
    PrefixedAt(Header, history, i);
  }

  lemma PrefixedAt(prefix: string, history: seq<Message>, i: nat)
    requires i < |history|
    ensures prefix + Joined(Line, history) == prefix + Joined(Line, history[..i]) + Line(history[i]) + Joined(Line, history[i + 1..])
  {
    JoinedAt(Line, history, i);
    var front, here, back := Joined(Line, history[..i]), Line(history[i]), Joined(Line, history[i + 1..]);
    Regroup(prefix, front, here, back);
  }

  lemma Regroup(a: string, b: string, c: string, d: string)
    ensures a + (b + (c + d)) == a + b + c + d
  {
  }

  /** One more block at the end. */
  lemma JoinedGrow(block: Message -> string, history: seq<Message>, i: nat)
    requires i < |history|
    ensures Joined(block, history[..i + 1]) == Joined(block, history[..i]) + block(history[i])
  {
    assert history[..i + 1] == history[..i] + [history[i]];
    JoinedAppend(block, history[..i], [history[i]]);
    JoinedCons(block, history[i], []);
    assert [history[i]] + [] == [history[i]];
  }

  /** A block is labelled "You" exactly for the user's messages; every other
      message is labelled "Driah AI". */
  lemma LineSpeaker(m: Message)
    ensures StartsWith(Line(m), "You: ") <==> m.sender == User
    ensures m.sender != User ==> StartsWith(Line(m), "Driah AI: ")
  {
    var line := Line(m);
    if m.sender == User {
      assert line[..5] == "You: ";
    } else {
      assert line[..10] == "Driah AI: ";
      assert line[0] == 'D';
    }
  }

  lemma PrefixedGrow(prefix: string, history: seq<Message>, i: nat)
    requires i < |history|
    ensures prefix + Joined(Line, history[..i]) + Line(history[i]) == prefix + Joined(Line, history[..i + 1])
  {
    JoinedGrow(Line, history, i);
  }

  /** The forEach loop of downloadChatHistory that builds the text. */
  method ExportTranscript(history: seq<Message>) returns (text: string)
    ensures text == TranscriptOf(history)
  {
    text := Title;
    text := text + Underline;
    assert history[..0] == [];
    var i := 0;
    while i < |history|
      invariant 0 <= i <= |history|
      invariant text == Header + Joined(Line, history[..i])
    {
      var line := Speaker(history[i].sender) + ": " + history[i].text + "\n\n";
      PrefixedGrow(Header, history, i);
      text := text + line;
      i := i + 1;
    }
    assert history[..i] == history;
  }
}
