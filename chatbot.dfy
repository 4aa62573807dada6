/**
  The running chat application: the dictionary and the chat history it keeps in
  memory, the copies it writes to browser storage after every change, and the
  typing flag that holds back a second message while a reply is pending. Each
  operation of the page that changes this state is a method.
 */
module Chatbot {
  import opened Wrappers
  import opened Text
  import opened Dictionary
  import opened History
  import opened Engine
  import opened Cascade

  const WelcomeText := "Hello! I'm Driah AI, your friendly chatbot assistant. How can I help you today?"
  const NothingToDownload := "There's no chat history to download yet!"
  const Downloaded := "Chat history downloaded successfully!"

  class ChatApp {
    var dictionary: Dict
    var chatHistory: seq<Message>
    /** True from a sent message until its reply arrives. */
    var isTyping: bool
    /** The message whose reply is pending while isTyping holds. */
    var pending: string
    /** What browser storage holds under the dictionary key, and under the
        history key (None: nothing was ever written there). */
    var storedDictionary: Option<Dict>
    var storedHistory: Option<seq<Message>>

    /** Storage is written through: it always holds the state in memory, except
        that the history key stays unwritten until the first message. */
    ghost predicate Valid()
      reads this
    {
      && storedDictionary == Some(dictionary)
      && (storedHistory == Some(chatHistory) || (storedHistory.None? && chatHistory == []))
      && (isTyping ==> pending != "")
    }

    /** init's loading steps: the stored history, if any, and the stored
        dictionary, or else the seed, which is then saved. */
    constructor(savedHistory: Option<seq<Message>>, savedDictionary: Option<Dict>)
      ensures Valid()
      ensures savedHistory.Some? ==> chatHistory == savedHistory.value
      ensures savedHistory.None? ==> chatHistory == []
      ensures savedDictionary.Some? ==> dictionary == savedDictionary.value
      ensures savedDictionary.None? ==> dictionary == Seed && |dictionary| == 5
      ensures !isTyping
    {
      chatHistory := match savedHistory
        case Some(h) => h
        case None => [];
      storedHistory := savedHistory;
      dictionary := LoadDictionary(savedDictionary);
      storedDictionary := Some(dictionary);
      isTyping := false;
      pending := "";
      SeedEntries();
    }

    /** addMessage: the message goes at the end of the history, stamped with the
        time it was added, and the history is saved. */
    method AddMessage(text: string, sender: Sender, now: string)
      requires Valid()
      modifies this
      ensures Valid()
      ensures chatHistory == old(chatHistory) + [Message(text, sender, now)]
      ensures |chatHistory| == |old(chatHistory)| + 1
      ensures forall i :: 0 <= i < |old(chatHistory)| ==> chatHistory[i] == old(chatHistory)[i]
      ensures dictionary == old(dictionary) && isTyping == old(isTyping) && pending == old(pending)
    {
      chatHistory := chatHistory + [Message(text, sender, now)];
      storedHistory := Some(chatHistory);
    }

    /** displayWelcomeMessage: a greeting from the bot, only into an empty chat. */
    method DisplayWelcomeMessage(now: string)
      requires Valid()
      modifies this
      ensures Valid()
      ensures old(chatHistory) == [] ==> chatHistory == [Message(WelcomeText, Bot, now)]
      ensures old(chatHistory) != [] ==> chatHistory == old(chatHistory)
      ensures dictionary == old(dictionary) && isTyping == old(isTyping) && pending == old(pending)
    {
      if |chatHistory| == 0 {
        AddMessage(WelcomeText, Bot, now);
      }
    }

    /** addNewWord: the dictionary form. A blank term or meaning changes nothing;
        otherwise the entry is stored under the trimmed, lower-cased term and the
        bot confirms with one message. */
    method AddNewWord(word: string, meaning: string, example: string, now: string)
      requires Valid()
      modifies this
      ensures Valid()
      ensures IsBlank(word) || IsBlank(meaning) ==>
                dictionary == old(dictionary) && chatHistory == old(chatHistory)
      ensures !IsBlank(word) && !IsBlank(meaning) ==>
                var key := Lower(Trim(word));
                && dictionary.Keys == old(dictionary).Keys + {key}
                && dictionary[key] == Entry(Trim(meaning), if IsBlank(example) then Placeholder else Trim(example))
                && (forall k :: k in old(dictionary) && k != key ==> dictionary[k] == old(dictionary)[k])
                && chatHistory == old(chatHistory) + [Message(LearnedReply(key), Bot, now)]
      ensures isTyping == old(isTyping) && pending == old(pending)
    {
      var form := FormEntry(word, meaning, example);
      if form.Some? {
        FormReads(word, meaning, example);
        var (key, entry) := form.value;
        dictionary := Upsert(dictionary, key, entry);
        storedDictionary := Some(dictionary);
        AddMessage(LearnedReply(key), Bot, now);
      }
    }

    /** sendMessage: a message that is blank after trimming, or sent while a
        reply is pending, is ignored; otherwise the user's message is added and
        a reply is awaited. */
    method SendMessage(input: string, now: string)
      requires Valid()
      modifies this
      ensures Valid()
      ensures IsBlank(input) || old(isTyping) ==>
                chatHistory == old(chatHistory) && isTyping == old(isTyping) && pending == old(pending)
      ensures !IsBlank(input) && !old(isTyping) ==>
                && chatHistory == old(chatHistory) + [Message(Trim(input), User, now)]
                && isTyping && pending == Trim(input)
      ensures dictionary == old(dictionary)
    {
      var message := Trim(input);
      TrimEmptyIffBlank(input);
      if message != "" && !isTyping {
        AddMessage(message, User, now);
        isTyping := true;
        pending := message;
      }
    }

    /** The delayed half of sendMessage: the reply to the pending message is
        generated, from the dictionary as it is now, and added as the bot's
        message; a learn sentence also changes and saves the dictionary. */
    method ReceiveReply(draw: real, now: string)
      requires Valid()
      requires isTyping
      requires 0.0 <= draw < 1.0
      modifies this
      ensures Valid()
      ensures !isTyping
      ensures var r := GenerateResponse(old(pending), old(dictionary), draw);
                && dictionary == r.dictionary
                && chatHistory == old(chatHistory) + [Message(r.reply, Bot, now)]
      ensures old(dictionary).Keys <= dictionary.Keys
      ensures !IsLearnSentence(old(pending)) ==> dictionary == old(dictionary)
    {
      isTyping := false;
      var r := GenerateResponse(pending, dictionary, draw);
      OnlyLearnChangesDictionary(pending, dictionary, draw);
      dictionary := r.dictionary;
      storedDictionary := Some(dictionary);
      AddMessage(r.reply, Bot, now);
    }

    /** The delete button of a message: the first message with the same text
        and sender is cut out of the history, which is saved; when there is
        none, nothing changes. */
    method DeleteMessage(text: string, sender: Sender)
      requires Valid()
      modifies this
      ensures Valid()
      ensures chatHistory == RemoveFirst(old(chatHistory), text, sender)
      ensures (exists j :: 0 <= j < |old(chatHistory)| && IsMessage(old(chatHistory)[j], text, sender)) ==>
                |chatHistory| == |old(chatHistory)| - 1
      ensures (forall j :: 0 <= j < |old(chatHistory)| ==> !IsMessage(old(chatHistory)[j], text, sender)) ==>
                chatHistory == old(chatHistory)
      ensures dictionary == old(dictionary) && isTyping == old(isTyping) && pending == old(pending)
    {
      RemoveFirstLength(chatHistory, text, sender);
      var index := FindIndex(chatHistory, text, sender);
      if index != -1 {
        RemoveFirstAt(chatHistory, text, sender, index);
        chatHistory := chatHistory[..index] + chatHistory[index + 1..];
        storedHistory := Some(chatHistory);
      } else {
        RemoveFirstAbsent(chatHistory, text, sender);
      }
    }

    /** downloadChatHistory: with an empty history the bot says there is nothing
        to download and no file is produced; otherwise the file holds the
        transcript of the history as it was, and the bot confirms. */
    method DownloadChatHistory(now: string) returns (file: Option<string>)
      requires Valid()
      modifies this
      ensures Valid()
      ensures old(chatHistory) == [] ==>
                file.None? && chatHistory == [Message(NothingToDownload, Bot, now)]
      ensures old(chatHistory) != [] ==>
                && file == Some(TranscriptOf(old(chatHistory)))
                && chatHistory == old(chatHistory) + [Message(Downloaded, Bot, now)]
      ensures dictionary == old(dictionary) && isTyping == old(isTyping) && pending == old(pending)
    {
      if |chatHistory| == 0 {
        AddMessage(NothingToDownload, Bot, now);
        file := None;
        return;
      }
      var text := ExportTranscript(chatHistory);
      file := Some(text);
      AddMessage(Downloaded, Bot, now);
    }

    /** renderDictionary's order: every known term once, ascending. */
    ghost function ListedWords(): (words: seq<string>)
      reads this
      ensures StrictlySorted(words)
      ensures forall w :: w in words <==> w in dictionary
      ensures |words| == |dictionary|
    {
      SortedWords(dictionary.Keys)
    }
  }
}
