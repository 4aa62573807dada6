# Driah AI chatbot, modelled in Dafny

Driah AI is a browser chatbot. The user types a message and the bot answers it
with `generateResponse`. That function is a first-match-wins chain of tests on
the lower-cased message. The tests come in this order:

- fixed phrases (identity, creator, feelings, the name's meaning, sadness,
  happiness, a joke);
- a definition query against a user-extensible dictionary;
- the dictionary-size question;
- the `learn term:meaning[:example]` sentence, which teaches the dictionary;
- three emoji classes;
- greeting, farewell and thanks prefixes;
- a random generic reply.

The dictionary and the conversation history are kept in browser storage. The
dictionary can also be taught through a form. Any message can be deleted. The
conversation can be downloaded as a plain-text transcript.

The model has seven modules:

- `Wrappers`: `Option`.
- `Text`: the JavaScript string operations the code relies on: `trim`, the
  `\s` class, `toLowerCase`, `includes`, `startsWith`, `split`, the
  `[?.,!]` removal, decimal formatting of a count, and the order that `sort()`
  uses.
- `Dictionary`: the seed, the update `dictionary[word] = entry`, the two teach
  syntaxes, and the sorted list of terms.
- `History`: messages, the first-match delete, and the transcript text.
- `Engine`: `generateResponse` as the same if-chain, as a function, with the
  emoji tests as evidently intended (see Findings).
  - It returns a `Response`: the reply and the dictionary as the reply
    leaves it.
  - The value of `Math.random()` is a parameter `draw` in [0, 1). The pool
    index is `Pick(n, draw)`, the floor of `draw * n`, as in the source.
- `Cascade`: the same chain as an ordered table of rules.
  - Each rule has `Applies` (its test) and `Fire` (its response).
    `Winner` is the first applicable rule.
  - `ChainIsTable` proves that the if-chain answers every message as the
    table's winner does.
  - `FirstMatchWins` proves that a rule which applies, with no earlier rule
    applying, gives exactly its own response.
  - The order properties (which intent wins, where a failed query falls
    through) are proved on this table.
- `Chatbot`: the page state as a class `ChatApp`.
  - Its fields are the dictionary, the history, the typing flag, and the
    copies in storage (`Option` snapshots).
  - One method per operation of the page that changes them.
  - The invariant `Valid` says that storage is written through after every
    change.

Four behaviours of `script.js` that a reader might not expect, each modelled as
the code has it:

- The two ways of teaching differ. The form rejects a blank term or meaning
  (script.js:297), but the learn sentence only checks that the text holds a
  colon (script.js:643), so it stores a blank term or meaning
  (`Dictionary.LearnAcceptsBlank`). For a blank third part the learn sentence
  stores the empty example (script.js:655), where the form stores "No example
  provided." (script.js:303; `Dictionary.LearnKeepsBlankExample`). They agree
  for non-blank parts (`Dictionary.LearnAgreesWithForm`).
- The learn text is split on every colon (script.js:641). Only the first three
  pieces are read, and everything after the third colon is ignored
  (`Dictionary.LearnThreePieces`).
- A definition query for an unknown term has no reply of its own
  (script.js:615-621). The chain goes on to the next test that applies, which
  can only be the size question or the generic reply: the lowered message
  begins with 'd' or 'w', so the learn, emoji, greeting, farewell and thanks
  tests all fail on it (`Cascade.DefinitionMissFallsThrough`). Unless the
  message also asks about the dictionary, the answer is a generic reply
  (`Cascade.DefinitionMissGeneric`).
- Stored data is read with `JSON.parse` without a `try` (script.js:73, 89), so
  malformed data throws and nothing falls back to the seed (see Left out).

## Model

| member | source | states |
|---|---|---|
| Text.Lower | script.js:531 | toLowerCase keeps the length of the text |
| Text.LowerAt | script.js:531 | toLowerCase lowers each character in its own place |
| Text.LowerIsLowercase | script.js:531 | toLowerCase leaves no upper-case letter |
| Text.LowerKeeps | script.js:531 | toLowerCase changes nothing in a string without upper-case letters |
| Text.LowerAppend | script.js:531 | toLowerCase works character by character: it distributes over concatenation |
| Text.TrimStart | script.js:289 | the leading white space, and only that, is removed: the result is a suffix, everything cut off is white space, and the result does not start with white space |
| Text.TrimEnd | script.js:289 | the trailing white space, and only that, is removed: the result is a prefix, everything cut off is white space, and the result does not end with white space |
| Text.Trim | script.js:353 | a trimmed string is no longer than the input and neither starts nor ends with white space |
| Text.TrimSlice | script.js:353 | what trim keeps is one contiguous stretch of the input |
| Text.TrimEmptyIffBlank | script.js:297 | a trimmed field is falsy (empty) exactly when the input is all white space |
| Text.StripPunctuation | script.js:611 | the result holds no ?, ., , or !, and a text without them is returned as it is |
| Text.StripPunctuationAppend | script.js:611 | the removal works on each part of a text on its own, so the kept characters stay in their order |
| Text.StripPunctuationCounts | script.js:611 | every character other than ?, ., , and ! is kept as often as the input had it |
| Text.Contains | script.js:537 | includes: the part occurs at some position of the text (a predicate; its uses are stated by the Cascade lemmas) |
| Text.LowercaseAppend | script.js:531 | two texts without upper-case letters joined have none |
| Text.Split | script.js:641 | split yields at least one piece, no piece holds the separator, and there are two or more pieces exactly when the separator occurs |
| Text.JoinSplit | script.js:641 | joining the pieces of split with the separator gives back the text |
| Text.SplitJoin | script.js:641 | splitting separator-free pieces joined by the separator gives back the pieces |
| Text.SplitAfterHead | script.js:641 | a separator-free head is glued onto the first piece of what follows |
| Text.Decimal | script.js:631 | the count is written as digits without a leading zero |
| Text.DecimalRoundTrip | script.js:631 | the digits of the count read back as the count |
| Text.BelowReflexive | script.js:255 | the sort order relates every string to itself |
| Text.BelowTotal | script.js:255 | the sort order compares every two strings |
| Text.BelowAntisymmetric | script.js:255 | two strings each sorting no later than the other are equal |
| Text.BelowTransitive | script.js:255 | the sort order is transitive |
| Dictionary.LoadDictionary | script.js:83-141 | the stored dictionary if there is one, else the seed (its contents are stated by Dictionary.SeedEntries) |
| Dictionary.SeedEntries | script.js:83-141 | with nothing stored the dictionary holds exactly the five terms hello, goodbye, artificial intelligence, chatbot and driah; a stored dictionary is used as it is |
| Dictionary.Upsert | script.js:661-667 | after dictionary[word] = entry the word maps to the entry, no key is lost, every other key keeps its entry, and the size grows by one exactly for a new word |
| Dictionary.FormEntry | script.js:289-303 | the form is rejected exactly when term or meaning is blank; an accepted term is non-empty and lower-case, and the stored meaning and example are non-empty |
| Dictionary.FormReads | script.js:289-303 | an accepted form stores the trimmed lower-cased term with the trimmed meaning and the trimmed example, or the placeholder for a blank example |
| Dictionary.LearnEntry | script.js:641-657 | the learn text yields an entry exactly when it holds a colon, and the term is lower-case |
| Dictionary.LearnTwoPieces | script.js:641-657 | "a:b" with colon-free a and b teaches a (trimmed, lower-cased) meaning b (trimmed) with the placeholder example |
| Dictionary.LearnThreePieces | script.js:641-657 | "a:b:c..." takes the trimmed c as the example and ignores everything after the third colon |
| Dictionary.LearnAgreesWithForm | script.js:289-303 | for a non-blank colon-free term and meaning and no example, the learn sentence and the form store the same entry |
| Dictionary.LearnAcceptsBlank | script.js:643 | the learn sentence teaches a blank term or meaning that the form rejects |
| Dictionary.LearnKeepsBlankExample | script.js:653-657 | a blank third part is stored as the empty example by the learn sentence, where the form stores the placeholder |
| Dictionary.SortedWords | script.js:255 | Object.keys(dictionary).sort() lists every key exactly once, in strictly ascending order |
| History.RemoveFirst | script.js:419-425 | the findIndex and splice of a delete (specified by History.RemoveFirstAt, History.RemoveFirstAbsent and History.RemoveFirstLength) |
| History.FindIndex | script.js:419 | findIndex returns the first position whose message has the given text and sender, or -1 exactly when there is none |
| History.RemoveFirstAt | script.js:419-425 | the splice removes exactly the first matching message and keeps the others in order |
| History.RemoveFirstAbsent | script.js:421 | with no matching message the history is unchanged |
| History.RemoveFirstLength | script.js:419-425 | a delete removes exactly one message when some message matches, even when several do, and none otherwise; it never adds a message |
| History.TranscriptOf | script.js:799-811 | the transcript text (specified by History.TranscriptBlock and History.LineSpeaker) |
| History.TranscriptBlock | script.js:799-811 | the transcript is the header, then the block of every message at its own place, in history order |
| History.LineSpeaker | script.js:807-809 | a block starts with "You: " exactly for the user's messages, and with "Driah AI: " for every other one |
| History.ExportTranscript | script.js:799-811 | the forEach loop builds exactly the transcript of the history |
| Engine.Pick | script.js:601 | Math.floor(Math.random() * length) is a valid index of the pool |
| Engine.PickReachesEvery | script.js:765 | every index of a pool is picked by some draw |
| Engine.EmojiReply | script.js:687-707 | the three whole-message emoji tests in order (specified by Engine.EmojiClassesAnswered) |
| Engine.EmojiClassesAnswered | script.js:687-707 | each listed emoji, sent alone, gets the reply of its own class (intended emoji sets; see Findings) |
| Engine.WrittenEmojiReply | script.js:687-707 | the three emoji tests with the literals as the source stores them (specified by Engine.WrittenEmojiMissEveryEmoji) |
| Engine.WrittenEmojiMissEveryEmoji | script.js:687-707 | with the emoji literals as stored, none of the listed emoji, sent alone, matches any of the three tests, and one stored literal is in both the happy and the love pattern |
| Engine.DefinitionTerm | script.js:611 | the extracted term has no white space at either end and holds no ?, ., , or ! |
| Engine.DefinitionTermOf | script.js:609-611 | for a keyword, one space and a trimmed term without ?, ., , or !, the text is a definition query and the extracted term is exactly that term |
| Engine.LoweredQueryOf | script.js:531-611 | the same holds for the message as typed when the term has no upper-case letter |
| Engine.KeywordLength | script.js:609-611 | the text before the cut is one of the three keywords define, what is, what are, and a space follows it |
| Engine.SizeReplyCounts | script.js:629-631 | the size reply spells, in decimal digits, a number equal to the count |
| Engine.GenerateResponse | script.js:527-767 | the if-chain itself (specified by Cascade.ChainIsTable and Cascade.FirstMatchWins) |
| Cascade.Rank | script.js:537-765 | every rule has one position in the order, and the rule at that position is itself |
| Cascade.NoneBeforeMeans | script.js:537-765 | testing the rules one by one in order finds none before position k exactly when no rule ranked before k applies |
| Cascade.Winner | script.js:537-765 | the answering rule applies and no rule before it does |
| Cascade.WinnerUnique | script.js:537-765 | a rule that applies with none before it applying is the answering rule |
| Cascade.FirstMatchWins | script.js:527-767 | when a rule applies and no earlier rule does, generateResponse gives exactly that rule's response |
| Cascade.ChainIsTable | script.js:527-767 | on every message and dictionary, the if-chain answers as the first applicable rule of the table |
| Cascade.OnlyLearnChangesDictionary | script.js:639-681 | no reply loses a term, and every message that is not a learn sentence leaves the dictionary unchanged |
| Cascade.IdentityQuestionWins | script.js:537-541 | a message containing "what's your name" or "who are you" gets the identity reply, whatever else it says, even when it is also a definition query |
| Cascade.SadOutranksHappy | script.js:569-581 | a message containing "i'm sad" is never answered by a rule after the sad one (so never by the happy one); it gets the sad reply unless one of the four earlier questions takes it |
| Cascade.DictionarySizeReported | script.js:627-633 | when it is reached, the size question is answered with the number of keys in the dictionary, and nothing changes |
| Cascade.JokeFromPool | script.js:585-601 | when it is reached, the joke request is answered with the joke the draw picks from the five, and nothing changes |
| Cascade.JokeReachesEvery | script.js:585-601 | each of the five jokes is the answer for some draw |
| Cascade.FallbackFromPool | script.js:743-765 | when no earlier rule applies, the answer is the generic reply the draw picks from the eight, and nothing changes |
| Cascade.FallbackReachesEvery | script.js:743-765 | each of the eight generic replies is the answer for some draw |
| Cascade.DefinitionHit | script.js:609-619 | a definition query for a known term answers "term: meaning", a blank line and "Example: example", and changes nothing |
| Cascade.DefinitionQueryLooksUp | script.js:609-619 | "define driah", "what is driah" or "what are driah", when reached, answers with the stored meaning and example of driah; the same for any stored lower-case term |
| Cascade.DefinitionKeepsDictionary | script.js:609-621 | a definition query never changes the dictionary |
| Cascade.DefinitionMissFallsThrough | script.js:609-765 | an unknown term produces no reply of its own: the answer is that of the first later rule that applies, and that rule is the size question or the generic reply |
| Cascade.DefinitionQuerySkipsLateRules | script.js:639-737 | the learn, emoji, greeting, farewell and thanks tests all fail on a definition query |
| Cascade.DefinitionMissWinner | script.js:609-765 | the rule that answers a definition query for an unknown term is the size question or the generic reply |
| Cascade.DefinitionMissGeneric | script.js:609-765 | an unknown term in a message that does not ask about the dictionary gets the generic reply the draw picks |
| Cascade.LearnTeaches | script.js:639-681 | a learn sentence, when reached, stores the entry read from the text after "learn ", keeps every other term, and confirms with the learned term |
| Cascade.LearnTwoPartSentence | script.js:639-681 | "learn a:b", when reached, stores a (trimmed, lower-cased) with meaning b (trimmed) and the placeholder, and confirms |
| Cascade.LearnWithoutColon | script.js:639-681 | "learn ..." without a colon teaches nothing and is answered by some other rule |
| Cascade.ShortMessagesSkipPhrases | script.js:537-681 | a message shorter than six characters passes every phrase, definition, size and learn test |
| Cascade.EmojiRuleFirst | script.js:687-707 | a listed emoji sent alone is taken by the rule of its own class, with no earlier rule applying (intended emoji sets; see Findings) |
| Cascade.EmojiAnswered | script.js:687-707 | a listed emoji sent alone gets its class's reply (intended emoji sets; see Findings) |
| Cascade.GreetingPrefixNotWord | script.js:713-717 | the greeting test looks only at the first letters: a short message starting with "hi" in any case, a word such as "Hive" included, is taken by the greeting rule |
| Cascade.TyIsNoGreeting | script.js:713-727 | a message starting with "ty" is neither a greeting nor a farewell |
| Cascade.ThanksPrefixNotWord | script.js:733-737 | a short message starting with "ty", such as "Type", is taken by the thanks rule |
| Chatbot.ChatApp.constructor | script.js:67-141 | the stored history is loaded, or the history is empty; the stored dictionary is loaded, or the five-entry seed is used and saved |
| Chatbot.ChatApp.AddMessage | script.js:449-475 | the message is appended with its timestamp, the length grows by one, every earlier message is unchanged, and the history is saved |
| Chatbot.ChatApp.DisplayWelcomeMessage | script.js:335-347 | the welcome message is added only to an empty chat; the dictionary and the typing state are unchanged |
| Chatbot.ChatApp.AddNewWord | script.js:287-331 | a blank term or meaning changes neither dictionary nor history; otherwise the trimmed lower-cased term gets the trimmed meaning and the example or the placeholder, every other term is kept, the dictionary is saved, and exactly one confirmation is appended; the typing state is unchanged |
| Chatbot.ChatApp.SendMessage | script.js:351-369 | a blank message, or one sent while a reply is pending, is ignored; an ignored message changes neither the history nor the typing state; otherwise the trimmed message is appended as the user's and a reply is awaited |
| Chatbot.ChatApp.ReceiveReply | script.js:371-379 | the reply to the pending message is appended as the bot's; the dictionary becomes the one the reply leaves, which keeps every term and is unchanged unless the message was a learn sentence |
| Chatbot.ChatApp.DeleteMessage | script.js:417-429 | the first message with that text and sender is removed and the history saved; the length drops by one when one matches and nothing changes otherwise; the dictionary and the typing state are unchanged |
| Chatbot.ChatApp.DownloadChatHistory | script.js:787-845 | an empty history gives no file and one notice from the bot; otherwise the file is the transcript of the history as it was, and the bot confirms; the dictionary and the typing state are unchanged |
| Chatbot.ChatApp.ListedWords | script.js:251-283 | the dictionary view lists every known term once, in ascending order |

## Left out

- The DOM is left out: message bubbles, the typing-indicator element, the dictionary view's HTML, scrolling, event wiring, dark mode and its toggle. Of the dictionary view only the order of its terms is modelled.
- `localStorage` is an `Option` snapshot per key, held in the fields `storedDictionary` and `storedHistory`. `JSON.stringify` and `JSON.parse` are identity. Malformed stored data is not modelled: `JSON.parse` would throw, and the code has no recovery.
- `setTimeout` is not modelled. A reply is split into `SendMessage` and `ReceiveReply`, and the typing flag keeps them paired. The delay length (itself random) is not modelled.
- `Math.random()` is the parameter `draw`, a real in [0, 1). Floating-point rounding of `draw * length` is not modelled.
- `new Date().toISOString()` is the parameter `now` of the methods that add a message.
- The Blob, object URL and anchor click of the download are left out. Only the transcript text is modelled.
- JavaScript object prototype keys (`dictionary["constructor"]` is truthy in the source) are left out. The dictionary is a plain map, and a definition query matches exactly the terms it holds. The model treats `dictionary[term]` as truthy exactly when the term is a key, because every stored entry is a non-null object.
- Strings are sequences of Unicode code points, not UTF-16 code units.
- Text.Lower: toLowerCase is modelled for the ASCII letters A-Z only. Other upper-case letters are left unchanged. One consequence is not captured: every stored emoji literal except the two heart and frowning-face ones holds U+0178 (Ÿ), which toLowerCase maps to U+00FF, so in JavaScript those literals can never match a lowered message.
- Text.Below: the order compares code points, which matches JavaScript's UTF-16 code-unit order only below U+10000. Beyond that, two characters can compare differently.
- Chatbot.ChatApp.DisplayWelcomeMessage: the welcome message is added at once, not 500 ms later. The empty-history test is made at call time, as in the source.
- Chatbot.ChatApp.ListedWords is a ghost function. It states the order the view lists terms in but does not compute it at run time.
- Engine.EmojiReply: the emoji tests use the emoji as evidently intended. The literals as stored are kept in `Engine.WrittenEmojiReply` (see Findings).
- Engine.GenerateResponse: its emoji step is `Engine.EmojiReply`, so it answers the listed emoji as intended, which the stored source does not.
- Cascade.EmojiRuleFirst: it is stated for the intended emoji sets, not for the literals as stored.
- Cascade.EmojiAnswered: it is stated for the intended emoji sets, not for the literals as stored.

## Findings

| source | as written | input that shows it | evidently intended | confidence | as-written member | corrected member |
|---|---|---|---|---|---|---|
| script.js:687-707 | The emoji literals in the three patterns are stored as their UTF-8 bytes read as Windows-1252 characters (for example the characters ð, Ÿ, ˜, Š in place of U+1F60A). Two different emoji (U+1F601 in the happy pattern, U+1F60D in the love pattern) have collapsed into the same stored literal. | The message consisting of U+1F60A (smiling face with smiling eyes) matches none of the three patterns, so it gets whatever later rule applies, here a generic reply. | Each listed emoji, sent alone, gets the reply of its class. | not executed | Engine.WrittenEmojiMissEveryEmoji | Engine.EmojiClassesAnswered |
