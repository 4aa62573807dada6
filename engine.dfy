/**
  The response engine (generateResponse): a first-match-wins chain of tests on the
  lower-cased message. It answers with a reply and the dictionary as the reply
  leaves it; only the "learn" sentence changes the dictionary. Math.random() is
  the parameter draw, a real in [0, 1).
 */
module Engine {
  import opened Wrappers
  import opened Text
  import opened Dictionary

  datatype Response = Response(reply: string, dictionary: Dict)

  /** The fixed replies of generateResponse, by the test that gives them. */
  datatype Canned =
    | IdentityReply | CreatorReply | FeelingsReply | NameReply | SadReply | HappyReply
    | HappyFaceReply | SadFaceReply | LoveFaceReply
    | GreetingReply | FarewellReply | ThanksReply

  function Say(c: Canned): string {
    match c
    case IdentityReply => "I'm Driah AI, a chatbot created to assist and chat with you."
    case CreatorReply => "I was created by Omare Emmanuel, also known as Omar Lainz."
    case FeelingsReply => "As an AI, I don't have feelings in the human sense, but I'm functioning well and ready to assist you!"
    case NameReply => "My name comes from Gift Sumaiya, the girlfriend of my creator Omare Emmanuel. Driah is her nickname."
    case SadReply => "I'm sorry to hear that you're feeling sad. Remember that it's okay to feel this way sometimes, and things will get better. Is there anything specific that's bothering you that you'd like to talk about?"
    case HappyReply => "That's wonderful to hear! It's great that you're feeling happy. What's contributing to your good mood today?"
    case HappyFaceReply => "I'm glad you're happy! How can I help you today?"
    case SadFaceReply => "I'm sorry you're feeling down. Is there something I can do to help?"
    case LoveFaceReply => "Thank you for the love! I appreciate your kindness."
    case GreetingReply => "Hello there! How can I assist you today?"
    case FarewellReply => "Goodbye! Feel free to chat with me again anytime."
    case ThanksReply => "You're welcome! Is there anything else I can help you with?"
  }

  const JokeCount := 5

  /** The jokes array, by index. */
  function JokeText(k: nat): string
    requires k < JokeCount
  {
    if k == 0 then "Why don't scientists trust atoms? Because they make up everything!"
    else if k == 1 then "Why was the math book sad? Because it had too many problems."
    else if k == 2 then "What do you call a fake noodle? An impasta!"
    else if k == 3 then "How does a computer get drunk? It takes screenshots!"
    else "Why did the scarecrow win an award? Because he was outstanding in his field!"
  }

  const GenericCount := 8

  /** The genericResponses array, by index. */
  function GenericText(k: nat): string
    requires k < GenericCount
  {
    if k == 0 then "That's interesting! Tell me more about it."
    else if k == 1 then "I'm still learning about many topics. Could you tell me more?"
    else if k == 2 then "I understand what you're saying. How can I help you with that?"
    else if k == 3 then "That's a great point! Would you like to discuss it further?"
    else if k == 4 then "I'm here to chat with you about anything you'd like to talk about."
    else if k == 5 then "That's fascinating! I'd love to learn more about your perspective."
    else if k == 6 then "I appreciate you sharing that with me. What else would you like to talk about?"
    else "I'm not fully trained on that topic yet, but I'm eager to learn more. Can you elaborate?"
  }

  /** The index drawn from a pool of count entries: the floor of the draw scaled
      by count. */
  function Pick(count: nat, draw: real): (k: nat)
    requires count > 0
    requires 0.0 <= draw < 1.0
    ensures k < count
  {
    var x := draw * count as real;
    Scaled(draw, count as real);
    FloorBelow(x, count);
    x.Floor
  }

  lemma Scaled(draw: real, n: real)
    requires 0.0 <= draw < 1.0 && n > 0.0
    ensures 0.0 <= draw * n < n
  {
  }

  lemma FloorBelow(x: real, count: nat)
    requires 0.0 <= x < count as real
    ensures 0 <= x.Floor < count
  {
  }

  /** Every index of a pool is drawn for some draw. */
  lemma PickReachesEvery(count: nat, k: nat)
    requires k < count
    ensures 0.0 <= k as real / count as real < 1.0
    ensures Pick(count, k as real / count as real) == k
  {
    var n := count as real;
    var draw := k as real / n;
    Fraction(k as real, n);
    assert (draw * n).Floor == k;
  }

  lemma Fraction(a: real, n: real)
    requires 0.0 <= a < n
    ensures 0.0 <= a / n < 1.0
    ensures (a / n) * n == a
  {
  }

  // The three emoji classes, as the characters they were written with. The
  // stored source holds these literals double-encoded; see WrittenEmojiReply.
  const HappyEmoji: set<string> := {
    "\U{1F60A}", "\U{1F603}", "\U{1F604}", "\U{1F601}", "\U{1F642}", "\U{1F600}"
  }
  const SadEmoji: set<string> := {
    "\U{1F622}", "\U{1F62D}", "\U{1F614}", "\U{2639}\U{FE0F}", "\U{1F641}", "\U{1F61E}"
  }
  const LoveEmoji: set<string> := {
    "\U{2764}\U{FE0F}", "\U{1F495}", "\U{1F60D}", "\U{1F970}", "\U{1F496}", "\U{1F497}"
  }

  /** The three /^(...)$/ emoji tests, in order: the whole message must be one
      of the listed emoji. */
  function EmojiReply(low: string): Option<Canned> {
    if low in HappyEmoji then Some(HappyFaceReply)
    else if low in SadEmoji then Some(SadFaceReply)
    else if low in LoveEmoji then Some(LoveFaceReply)
    else None
  }

  /** No listed emoji holds a letter, so lower-casing keeps it. */
  lemma EmojiLowercase(e: string)
    requires e in HappyEmoji + SadEmoji + LoveEmoji
    ensures IsLowercase(e) && |e| <= 2
  {
    assert |e| <= 2 && forall i :: 0 <= i < |e| ==> e[i] > 'Z';
  }

  lemma EmojiLength(e: string)
    ensures e in HappyEmoji + SadEmoji + LoveEmoji ==> 1 <= |e| <= 2 && e[0] > 'z'
  {
  }

  /** A text that begins with an ASCII character is none of the emoji. */
  lemma NotAnEmoji(s: string)
    requires s != [] && s[0] <= 'z'
    ensures s !in HappyEmoji && s !in SadEmoji && s !in LoveEmoji
  {
    EmojiLength(s);
  }

  lemma EmojiKeptByLower(e: string)
    requires e in HappyEmoji + SadEmoji + LoveEmoji
    ensures Lower(e) == e && |e| <= 2
  {
    EmojiLowercase(e);
    LowerKeeps(e);
  }

  lemma EmojiClassesDisjoint(e: string)
    ensures e in HappyEmoji ==> EmojiReply(e) == Some(HappyFaceReply)
    ensures e in SadEmoji ==> EmojiReply(e) == Some(SadFaceReply)
    ensures e in LoveEmoji ==> EmojiReply(e) == Some(LoveFaceReply)
  {
    assert HappyEmoji !! SadEmoji && HappyEmoji !! LoveEmoji && SadEmoji !! LoveEmoji;
  }

  /** Each listed emoji, sent alone, gets the reply of its own class. */
  lemma EmojiClassesAnswered(e: string)
    ensures e in HappyEmoji ==> EmojiReply(Lower(e)) == Some(HappyFaceReply)
    ensures e in SadEmoji ==> EmojiReply(Lower(e)) == Some(SadFaceReply)
    ensures e in LoveEmoji ==> EmojiReply(Lower(e)) == Some(LoveFaceReply)
  {
    if e in HappyEmoji + SadEmoji + LoveEmoji {
      EmojiKeptByLower(e);
      EmojiClassesDisjoint(e);
    }
  }

  // The same literals as the bytes of the stored source spell them: each emoji's
  // UTF-8 bytes read as Windows-1252 characters, the bytes that code page leaves
  // undefined dropped.
  const WrittenHappyEmoji: set<string> := {
    "\U{F0}\U{178}\U{2DC}\U{160}", "\U{F0}\U{178}\U{2DC}\U{192}", "\U{F0}\U{178}\U{2DC}\U{201E}",
    "\U{F0}\U{178}\U{2DC}", "\U{F0}\U{178}\U{2122}\U{201A}", "\U{F0}\U{178}\U{2DC}\U{20AC}"
  }
  const WrittenSadEmoji: set<string> := {
    "\U{F0}\U{178}\U{2DC}\U{A2}", "\U{F0}\U{178}\U{2DC}\U{AD}", "\U{F0}\U{178}\U{2DC}\U{201D}",
    "\U{E2}\U{2DC}\U{B9}\U{EF}\U{B8}", "\U{F0}\U{178}\U{2122}", "\U{F0}\U{178}\U{2DC}\U{17E}"
  }
  const WrittenLoveEmoji: set<string> := {
    "\U{E2}\U{A4}\U{EF}\U{B8}", "\U{F0}\U{178}\U{2019}\U{2022}", "\U{F0}\U{178}\U{2DC}",
    "\U{F0}\U{178}\U{A5}\U{B0}", "\U{F0}\U{178}\U{2019}\U{2013}", "\U{F0}\U{178}\U{2019}\U{2014}"
  }

  /** The emoji tests with the literals as stored. */
  function WrittenEmojiReply(low: string): Option<Canned> {
    if low in WrittenHappyEmoji then Some(HappyFaceReply)
    else if low in WrittenSadEmoji then Some(SadFaceReply)
    else if low in WrittenLoveEmoji then Some(LoveFaceReply)
    else None
  }

  /** As stored, none of the listed emoji is recognised, and the heart-eyes and
      grinning faces have collapsed into one literal that the happy test takes
      before the love test can see it. */
  lemma WrittenEmojiMissEveryEmoji(e: string)
    requires e in HappyEmoji + SadEmoji + LoveEmoji
    ensures WrittenEmojiReply(Lower(e)) == None
    ensures "\U{F0}\U{178}\U{2DC}" in WrittenHappyEmoji * WrittenLoveEmoji
  {
    EmojiKeptByLower(e);
    WrittenEmojiMiss(e);
  }

  lemma WrittenEmojiMiss(e: string)
    requires e in HappyEmoji + SadEmoji + LoveEmoji
    ensures WrittenEmojiReply(e) == None
  {
    assert |e| <= 2;
    assert forall w :: w in WrittenHappyEmoji + WrittenSadEmoji + WrittenLoveEmoji ==> |w| >= 3;
  }

  predicate IsDefinitionQuery(low: string) {
    StartsWith(low, "define ") || StartsWith(low, "what is ") || StartsWith(low, "what are ")
  }

  /** The term of a definition query: the text after the keyword, with the
      white space after the keyword, every ?, ., , and ! and the surrounding
      white space removed. */
  function DefinitionTerm(low: string): (term: string)
    requires IsDefinitionQuery(low)
    ensures term == [] || (!IsSpace(term[0]) && !IsSpace(term[|term| - 1]))
    ensures forall i :: 0 <= i < |term| ==> !IsQueryPunctuation(term[i])
  {
    TermAfter(low[KeywordLength(low)..])
  }

  /** The length of the keyword of a definition query, without the space
      after it. */
  function KeywordLength(low: string): (n: nat)
    requires IsDefinitionQuery(low)
    ensures n < |low| && low[n] == ' '
    ensures low[..n] == "define" || low[..n] == "what is" || low[..n] == "what are"
  {
    if StartsWith(low, "define ") then 6
    else if StartsWith(low, "what is ") then 7
    else 8
  }

  /** What remains of the text after the keyword. */
  function TermAfter(rest: string): (term: string)
    ensures term == [] || (!IsSpace(term[0]) && !IsSpace(term[|term| - 1]))
    ensures forall i :: 0 <= i < |term| ==> !IsQueryPunctuation(term[i])
  {
    var stripped := StripPunctuation(TrimStart(rest));
    TrimKeepsUnpunctuated(stripped);
    Trim(stripped)
  }

  /** A keyword, one space and a term without query punctuation or surrounding
      white space: the term is what the query looks up. */
  lemma DefinitionTermOf(keyword: string, term: string)
    requires keyword == "define" || keyword == "what is" || keyword == "what are"
    requires term == [] || (!IsSpace(term[0]) && !IsSpace(term[|term| - 1]))
    requires forall i :: 0 <= i < |term| ==> !IsQueryPunctuation(term[i])
    ensures IsDefinitionQuery(keyword + " " + term)
    ensures DefinitionTerm(keyword + " " + term) == term
  {
    var low := keyword + " " + term;
    KeywordOf(keyword, term);
    assert low[|keyword|..] == " " + term;
    TermAfterSpace(term);
  }

  /** The same holds for the message as typed when the term has no upper-case
      letter, since lower-casing then changes nothing. */
  lemma LoweredQueryOf(keyword: string, term: string)
    requires keyword == "define" || keyword == "what is" || keyword == "what are"
    requires term == [] || (!IsSpace(term[0]) && !IsSpace(term[|term| - 1]))
    requires forall i :: 0 <= i < |term| ==> !IsQueryPunctuation(term[i])
    requires IsLowercase(term)
    ensures IsDefinitionQuery(Lower(keyword + " " + term))
    ensures DefinitionTerm(Lower(keyword + " " + term)) == term
  {
    assert IsLowercase(keyword + " ");
    LowercaseAppend(keyword + " ", term);
    LowerKeeps(keyword + " " + term);
    DefinitionTermOf(keyword, term);
  }

  lemma KeywordOf(keyword: string, term: string)
    requires keyword == "define" || keyword == "what is" || keyword == "what are"
    ensures IsDefinitionQuery(keyword + " " + term)
    ensures KeywordLength(keyword + " " + term) == |keyword|
  {
    var low := keyword + " " + term;
    assert low[..|keyword| + 1] == keyword + " ";
  }

  lemma TermAfterSpace(term: string)
    requires term == [] || (!IsSpace(term[0]) && !IsSpace(term[|term| - 1]))
    requires forall i :: 0 <= i < |term| ==> !IsQueryPunctuation(term[i])
    ensures TermAfter(" " + term) == term
  {
    assert (" " + term)[1..] == term;
    assert TrimStart(" " + term) == term;
    assert StripPunctuation(term) == term;
    assert TrimEnd(term) == term;
  }

  function DefinitionReply(term: string, entry: Entry): string {
    term + ": " + entry.meaning + "\n\nExample: " + entry.example
  }

  function SizeReply(count: nat): string {
    "I currently know " + Decimal(count)
      + " words and phrases. You can view them by clicking the Dictionary button at the top of the screen."
  }

  /** The size reply spells the count in decimal digits that read back as the
      count. */
  lemma SizeReplyCounts(count: nat)
    ensures exists digits :: IsDigits(digits) && DecimalValue(digits) == count
              && SizeReply(count) == "I currently know " + digits
                   + " words and phrases. You can view them by clicking the Dictionary button at the top of the screen."
  {
    DecimalRoundTrip(count);
  }

  /** "learn " (in any case) followed by text holding a colon: the one sentence
      that can teach the dictionary a word. */
  predicate IsLearnSentence(message: string) {
    |message| >= 6 && StartsWith(Lower(message), "learn ") && ':' in message[6..]
  }

  /** generateResponse(message), with the dictionary it reads and the draw that
      Math.random() would return. */
  function GenerateResponse(message: string, dictionary: Dict, draw: real): Response
    requires 0.0 <= draw < 1.0
  {
    var low := Lower(message);
    if Contains(low, "what's your name") || Contains(low, "who are you") then
      Response(Say(IdentityReply), dictionary)
    else if Contains(low, "who created you") || Contains(low, "who made you") then
      Response(Say(CreatorReply), dictionary)
    else if Contains(low, "how do you feel") || Contains(low, "how are you feeling") then
      Response(Say(FeelingsReply), dictionary)
    else if Contains(low, "what does your name mean") || Contains(low, "why are you called driah") then
      Response(Say(NameReply), dictionary)
    else if Contains(low, "i'm sad") || Contains(low, "feeling down") || Contains(low, "i am sad") then
      Response(Say(SadReply), dictionary)
    else if Contains(low, "i'm happy") || Contains(low, "feeling good") || Contains(low, "i am happy") then
      Response(Say(HappyReply), dictionary)
    else if Contains(low, "tell me a joke") then
      Response(JokeText(Pick(JokeCount, draw)), dictionary)
    else if IsDefinitionQuery(low) && DefinitionTerm(low) in dictionary then
      var term := DefinitionTerm(low);
      Response(DefinitionReply(term, dictionary[term]), dictionary)
    else if Contains(low, "show me your dictionary") || Contains(low, "what words do you know") then
      Response(SizeReply(|dictionary|), dictionary)
    else if StartsWith(low, "learn ") && LearnEntry(message[6..]).Some? then
      var (word, entry) := LearnEntry(message[6..]).value;
      Response(LearnedReply(word), Upsert(dictionary, word, entry))
    else if EmojiReply(low).Some? then
      Response(Say(EmojiReply(low).value), dictionary)
    else if StartsWith(low, "hi") || StartsWith(low, "hello") || StartsWith(low, "hey") || StartsWith(low, "greetings") then
      Response(Say(GreetingReply), dictionary)
    else if StartsWith(low, "goodbye") || StartsWith(low, "bye") || StartsWith(low, "see you") || StartsWith(low, "farewell") then
      Response(Say(FarewellReply), dictionary)
    else if StartsWith(low, "thanks") || StartsWith(low, "thank you") || StartsWith(low, "ty") then
      Response(Say(ThanksReply), dictionary)
    else
      Response(GenericText(Pick(GenericCount, draw)), dictionary)
  }
}
