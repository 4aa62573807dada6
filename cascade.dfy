/**
  The priority order of generateResponse made explicit: a table of rules, each
  with the test that makes it apply and the response it gives, searched in
  order. The if-chain of Engine.GenerateResponse is proved to answer exactly as
  the first applicable rule of this table, and the order properties of the
  chatbot (which intent wins when several match, when a query falls through)
  are read off the table.
 */
module Cascade {
  import opened Wrappers
  import opened Text
  import opened Dictionary
  import opened Engine

  datatype Rule =
    | Identity | Creator | Feelings | NameMeaning | Sad | Happy | Joke
    | Define | DictionarySize | Learn
    | HappyFace | SadFace | LoveFace
    | Greeting | Farewell | Thanks
    | Fallback

  const RuleCount := 17

  /** The rules in the order generateResponse tries them: Nth(k) is tried k-th. */
  function Nth(k: nat): Rule
    requires k < RuleCount
  {
    if k == 0 then Identity else if k == 1 then Creator else if k == 2 then Feelings
    else if k == 3 then NameMeaning else if k == 4 then Sad else if k == 5 then Happy
    else if k == 6 then Joke else if k == 7 then Define else if k == 8 then DictionarySize
    else if k == 9 then Learn else if k == 10 then HappyFace else if k == 11 then SadFace
    else if k == 12 then LoveFace else if k == 13 then Greeting else if k == 14 then Farewell
    else if k == 15 then Thanks else Fallback
  }

  /** The position of a rule in the order; every rule has exactly one. */
  function Rank(rule: Rule): (k: nat)
    ensures k < RuleCount && Nth(k) == rule
  {
    match rule
    case Identity => 0
    case Creator => 1
    case Feelings => 2
    case NameMeaning => 3
    case Sad => 4
    case Happy => 5
    case Joke => 6
    case Define => 7
    case DictionarySize => 8
    case Learn => 9
    case HappyFace => 10
    case SadFace => 11
    case LoveFace => 12
    case Greeting => 13
    case Farewell => 14
    case Thanks => 15
    case Fallback => 16
  }

  /** The phrases whose occurrence anywhere in the message triggers a rule. */
  function Phrases(rule: Rule): seq<string> {
    match rule
    case Identity => ["what's your name", "who are you"]
    case Creator => ["who created you", "who made you"]
    case Feelings => ["how do you feel", "how are you feeling"]
    case NameMeaning => ["what does your name mean", "why are you called driah"]
    case Sad => ["i'm sad", "feeling down", "i am sad"]
    case Happy => ["i'm happy", "feeling good", "i am happy"]
    case Joke => ["tell me a joke"]
    case DictionarySize => ["show me your dictionary", "what words do you know"]
    case _ => []
  }

  /** The words a message must begin with to trigger a rule. */
  function Prefixes(rule: Rule): seq<string> {
    match rule
    case Greeting => ["hi", "hello", "hey", "greetings"]
    case Farewell => ["goodbye", "bye", "see you", "farewell"]
    case Thanks => ["thanks", "thank you", "ty"]
    case _ => []
  }

  predicate MentionsAny(low: string, phrases: seq<string>) {
    exists i :: 0 <= i < |phrases| && Contains(low, phrases[i])
  }

  predicate StartsWithAny(low: string, prefixes: seq<string>) {
    exists i :: 0 <= i < |prefixes| && StartsWith(low, prefixes[i])
  }

  /** Whether a rule applies to a message, given the dictionary it would consult. */
  predicate Applies(rule: Rule, message: string, dictionary: Dict) {
    var low := Lower(message);
    match rule
    case Define => IsDefinitionQuery(low) && DefinitionTerm(low) in dictionary
    case Learn => IsLearnSentence(message)
    case HappyFace => low in HappyEmoji
    case SadFace => low in SadEmoji
    case LoveFace => low in LoveEmoji
    case Greeting => StartsWithAny(low, Prefixes(rule))
    case Farewell => StartsWithAny(low, Prefixes(rule))
    case Thanks => StartsWithAny(low, Prefixes(rule))
    case Fallback => true
    case _ => MentionsAny(low, Phrases(rule))
  }

  /** The response a rule gives when it fires. */
  function Fire(rule: Rule, message: string, dictionary: Dict, draw: real): Response
    requires 0.0 <= draw < 1.0
    requires Applies(rule, message, dictionary)
  {
    var low := Lower(message);
    match rule
    case Identity => Response(Say(IdentityReply), dictionary)
    case Creator => Response(Say(CreatorReply), dictionary)
    case Feelings => Response(Say(FeelingsReply), dictionary)
    case NameMeaning => Response(Say(NameReply), dictionary)
    case Sad => Response(Say(SadReply), dictionary)
    case Happy => Response(Say(HappyReply), dictionary)
    case Joke => Response(JokeText(Pick(JokeCount, draw)), dictionary)
    case Define =>
      var term := DefinitionTerm(low);
      Response(DefinitionReply(term, dictionary[term]), dictionary)
    case DictionarySize => Response(SizeReply(|dictionary|), dictionary)
    case Learn =>
      var (word, entry) := LearnEntry(message[6..]).value;
      Response(LearnedReply(word), Upsert(dictionary, word, entry))
    case HappyFace => Response(Say(HappyFaceReply), dictionary)
    case SadFace => Response(Say(SadFaceReply), dictionary)
    case LoveFace => Response(Say(LoveFaceReply), dictionary)
    case Greeting => Response(Say(GreetingReply), dictionary)
    case Farewell => Response(Say(FarewellReply), dictionary)
    case Thanks => Response(Say(ThanksReply), dictionary)
    case Fallback => Response(GenericText(Pick(GenericCount, draw)), dictionary)
  }

  lemma NthRank(k: nat)
    requires k < RuleCount
    ensures Rank(Nth(k)) == k
  {
  }

  /** No rule ranked before k applies, checked rule by rule as the search does. */
  predicate NoneBefore(k: nat, message: string, dictionary: Dict)
    requires k <= RuleCount
  {
    k == 0 || (NoneBefore(k - 1, message, dictionary) && !Applies(Nth(k - 1), message, dictionary))
  }

  /** The stepwise test says what its name says. */
  lemma {:induction false} NoneBeforeMeans(k: nat, message: string, dictionary: Dict)
    requires k <= RuleCount
    ensures NoneBefore(k, message, dictionary) <==> forall rule :: Rank(rule) < k ==> !Applies(rule, message, dictionary)
  {
    if k > 0 {
      NoneBeforeMeans(k - 1, message, dictionary);
      NthRank(k - 1);
    }
  }

  /** The first applicable rule at position k or later, when none before k applies. */
  function FirstApplicable(message: string, dictionary: Dict, k: nat): (rule: Rule)
    requires k < RuleCount
    requires NoneBefore(k, message, dictionary)
    ensures Applies(rule, message, dictionary)
    ensures NoneBefore(Rank(rule), message, dictionary)
    decreases RuleCount - k
  {
    NthRank(k);
    if Applies(Nth(k), message, dictionary) || k == RuleCount - 1 then
      Nth(k)
    else
      FirstApplicable(message, dictionary, k + 1)
  }

  /** The rule that answers a message. */
  function Winner(message: string, dictionary: Dict): (rule: Rule)
    ensures Applies(rule, message, dictionary)
    ensures NoneBefore(Rank(rule), message, dictionary)
  {
    FirstApplicable(message, dictionary, 0)
  }

  /** Only one rule applies with none before it. */
  lemma WinnerUnique(rule: Rule, message: string, dictionary: Dict)
    ensures Applies(rule, message, dictionary) && NoneBefore(Rank(rule), message, dictionary) ==>
              rule == Winner(message, dictionary)
  {
    var w := Winner(message, dictionary);
    if Applies(rule, message, dictionary) && NoneBefore(Rank(rule), message, dictionary) {
      NoneBeforeMeans(Rank(rule), message, dictionary);
      NoneBeforeMeans(Rank(w), message, dictionary);
      assert Rank(w) == Rank(rule);
    }
  }

  lemma MentionsTwo(low: string, a: string, b: string)
    ensures MentionsAny(low, [a, b]) <==> Contains(low, a) || Contains(low, b)
  {
    if Contains(low, a) {
      assert [a, b][0] == a;
    }
    if Contains(low, b) {
      assert [a, b][1] == b;
    }
  }

  lemma MentionsThree(low: string, a: string, b: string, c: string)
    ensures MentionsAny(low, [a, b, c]) <==> Contains(low, a) || Contains(low, b) || Contains(low, c)
  {
    if Contains(low, a) {
      assert [a, b, c][0] == a;
    }
    if Contains(low, b) {
      assert [a, b, c][1] == b;
    }
    if Contains(low, c) {
      assert [a, b, c][2] == c;
    }
  }

  lemma StartsWithThree(low: string, a: string, b: string, c: string)
    ensures StartsWithAny(low, [a, b, c]) <==> StartsWith(low, a) || StartsWith(low, b) || StartsWith(low, c)
  {
    if StartsWith(low, a) {
      assert [a, b, c][0] == a;
    }
    if StartsWith(low, b) {
      assert [a, b, c][1] == b;
    }
    if StartsWith(low, c) {
      assert [a, b, c][2] == c;
    }
  }

  lemma StartsWithFour(low: string, a: string, b: string, c: string, d: string)
    ensures StartsWithAny(low, [a, b, c, d]) <==> StartsWith(low, a) || StartsWith(low, b) || StartsWith(low, c) || StartsWith(low, d)
  {
    if StartsWith(low, a) {
      assert [a, b, c, d][0] == a;
    }
    if StartsWith(low, b) {
      assert [a, b, c, d][1] == b;
    }
    if StartsWith(low, c) {
      assert [a, b, c, d][2] == c;
    }
    if StartsWith(low, d) {
      assert [a, b, c, d][3] == d;
    }
  }

  /** The table tests of the phrase rules, in the form the if-chain writes them. */
  lemma EarlyConditions(message: string, dictionary: Dict)
    ensures var low := Lower(message);
      && (Applies(Identity, message, dictionary) <==> Contains(low, "what's your name") || Contains(low, "who are you"))
      && (Applies(Creator, message, dictionary) <==> Contains(low, "who created you") || Contains(low, "who made you"))
      && (Applies(Feelings, message, dictionary) <==> Contains(low, "how do you feel") || Contains(low, "how are you feeling"))
      && (Applies(NameMeaning, message, dictionary) <==> Contains(low, "what does your name mean") || Contains(low, "why are you called driah"))
  {
    var low := Lower(message);
    MentionsTwo(low, "what's your name", "who are you");
    MentionsTwo(low, "who created you", "who made you");
    MentionsTwo(low, "how do you feel", "how are you feeling");
    MentionsTwo(low, "what does your name mean", "why are you called driah");
  }

  lemma MoodConditions(message: string, dictionary: Dict)
    ensures var low := Lower(message);
      && (Applies(Sad, message, dictionary) <==> Contains(low, "i'm sad") || Contains(low, "feeling down") || Contains(low, "i am sad"))
      && (Applies(Happy, message, dictionary) <==> Contains(low, "i'm happy") || Contains(low, "feeling good") || Contains(low, "i am happy"))
      && (Applies(Joke, message, dictionary) <==> Contains(low, "tell me a joke"))
      && (Applies(DictionarySize, message, dictionary) <==> Contains(low, "show me your dictionary") || Contains(low, "what words do you know"))
  {
    var low := Lower(message);
    MentionsThree(low, "i'm sad", "feeling down", "i am sad");
    MentionsThree(low, "i'm happy", "feeling good", "i am happy");
    assert Phrases(Joke)[0] == "tell me a joke";
    MentionsTwo(low, "show me your dictionary", "what words do you know");
  }

  /** The learn rule's test, in the form the if-chain writes it. */
  lemma LearnCondition(message: string, dictionary: Dict)
    requires StartsWith(Lower(message), "learn ")
    ensures Applies(Learn, message, dictionary) <==> LearnEntry(message[6..]).Some?
  {
  }

  lemma PrefixConditions(message: string, dictionary: Dict)
    ensures var low := Lower(message);
      && (Applies(Greeting, message, dictionary) <==> StartsWith(low, "hi") || StartsWith(low, "hello") || StartsWith(low, "hey") || StartsWith(low, "greetings"))
      && (Applies(Farewell, message, dictionary) <==> StartsWith(low, "goodbye") || StartsWith(low, "bye") || StartsWith(low, "see you") || StartsWith(low, "farewell"))
      && (Applies(Thanks, message, dictionary) <==> StartsWith(low, "thanks") || StartsWith(low, "thank you") || StartsWith(low, "ty"))
  {
    var low := Lower(message);
    StartsWithFour(low, "hi", "hello", "hey", "greetings");
    StartsWithFour(low, "goodbye", "bye", "see you", "farewell");
    StartsWithThree(low, "thanks", "thank you", "ty");
  }

  /** The phrase tests ranked before k, in the form the if-chain writes them, fail. */
  lemma PhraseTestsFail(k: nat, message: string, dictionary: Dict)
    requires k <= RuleCount
    requires NoneBefore(k, message, dictionary)
    ensures var low := Lower(message);
      && (k > 0 ==> !(Contains(low, "what's your name") || Contains(low, "who are you")))
      && (k > 1 ==> !(Contains(low, "who created you") || Contains(low, "who made you")))
      && (k > 2 ==> !(Contains(low, "how do you feel") || Contains(low, "how are you feeling")))
      && (k > 3 ==> !(Contains(low, "what does your name mean") || Contains(low, "why are you called driah")))
  {
    NoneBeforeMeans(k, message, dictionary);
    EarlyConditions(message, dictionary);
    assert k > 0 ==> !Applies(Identity, message, dictionary);
    assert k > 1 ==> !Applies(Creator, message, dictionary);
    assert k > 2 ==> !Applies(Feelings, message, dictionary);
    assert k > 3 ==> !Applies(NameMeaning, message, dictionary);
  }

  lemma MoodTestsFail(k: nat, message: string, dictionary: Dict)
    requires k <= RuleCount
    requires NoneBefore(k, message, dictionary)
    ensures var low := Lower(message);
      && (k > 4 ==> !(Contains(low, "i'm sad") || Contains(low, "feeling down") || Contains(low, "i am sad")))
      && (k > 5 ==> !(Contains(low, "i'm happy") || Contains(low, "feeling good") || Contains(low, "i am happy")))
      && (k > 6 ==> !Contains(low, "tell me a joke"))
      && (k > 8 ==> !(Contains(low, "show me your dictionary") || Contains(low, "what words do you know")))
  {
    NoneBeforeMeans(k, message, dictionary);
    MoodConditions(message, dictionary);
    assert k > 4 ==> !Applies(Sad, message, dictionary);
    assert k > 5 ==> !Applies(Happy, message, dictionary);
    assert k > 6 ==> !Applies(Joke, message, dictionary);
    assert k > 8 ==> !Applies(DictionarySize, message, dictionary);
  }

  lemma DefineTestFails(k: nat, message: string, dictionary: Dict)
    requires k <= RuleCount
    requires NoneBefore(k, message, dictionary)
    ensures var low := Lower(message);
      k > 7 ==> !(IsDefinitionQuery(low) && DefinitionTerm(low) in dictionary)
  {
    NoneBeforeMeans(k, message, dictionary);
    assert k > 7 ==> !Applies(Define, message, dictionary);
  }

  lemma LearnTestFails(k: nat, message: string, dictionary: Dict)
    requires k <= RuleCount
    requires NoneBefore(k, message, dictionary)
    ensures var low := Lower(message);
      k > 9 ==> !(StartsWith(low, "learn ") && LearnEntry(message[6..]).Some?)
  {
    NoneBeforeMeans(k, message, dictionary);
    assert k > 9 ==> !Applies(Learn, message, dictionary);
  }

  lemma EmojiTestsFail(k: nat, message: string, dictionary: Dict)
    requires k <= RuleCount
    requires NoneBefore(k, message, dictionary)
    ensures k > 12 ==> EmojiReply(Lower(message)).None?
  {
    NoneBeforeMeans(k, message, dictionary);
    assert k > 12 ==> !Applies(HappyFace, message, dictionary);
    assert k > 12 ==> !Applies(SadFace, message, dictionary);
    assert k > 12 ==> !Applies(LoveFace, message, dictionary);
  }

  lemma PrefixTestsFail(k: nat, message: string, dictionary: Dict)
    requires k <= RuleCount
    requires NoneBefore(k, message, dictionary)
    ensures var low := Lower(message);
      && (k > 13 ==> !(StartsWith(low, "hi") || StartsWith(low, "hello") || StartsWith(low, "hey") || StartsWith(low, "greetings")))
      && (k > 14 ==> !(StartsWith(low, "goodbye") || StartsWith(low, "bye") || StartsWith(low, "see you") || StartsWith(low, "farewell")))
      && (k > 15 ==> !(StartsWith(low, "thanks") || StartsWith(low, "thank you") || StartsWith(low, "ty")))
  {
    NoneBeforeMeans(k, message, dictionary);
    PrefixConditions(message, dictionary);
    assert k > 13 ==> !Applies(Greeting, message, dictionary);
    assert k > 14 ==> !Applies(Farewell, message, dictionary);
    assert k > 15 ==> !Applies(Thanks, message, dictionary);
  }

  /** First match wins: when a rule applies and no earlier rule does,
      generateResponse gives exactly that rule's response. */
  lemma FirstMatchWins(rule: Rule, message: string, dictionary: Dict, draw: real)
    requires 0.0 <= draw < 1.0
    requires Applies(rule, message, dictionary)
    requires NoneBefore(Rank(rule), message, dictionary)
    ensures GenerateResponse(message, dictionary, draw) == Fire(rule, message, dictionary, draw)
  {
    if Rank(rule) < 10 {
      EarlyRuleWins(rule, message, dictionary, draw);
    } else {
      LateRuleWins(rule, message, dictionary, draw);
    }
  }

  lemma RuleWins(rule: Rule, message: string, dictionary: Dict, draw: real)
    requires 0.0 <= draw < 1.0
    ensures Applies(rule, message, dictionary) && NoneBefore(Rank(rule), message, dictionary) ==>
              GenerateResponse(message, dictionary, draw) == Fire(rule, message, dictionary, draw)
  {
    if Applies(rule, message, dictionary) && NoneBefore(Rank(rule), message, dictionary) {
      FirstMatchWins(rule, message, dictionary, draw);
    }
  }

  lemma EarlyRuleWins(rule: Rule, message: string, dictionary: Dict, draw: real)
    requires 0.0 <= draw < 1.0
    requires Rank(rule) < 10
    requires Applies(rule, message, dictionary)
    requires NoneBefore(Rank(rule), message, dictionary)
    ensures GenerateResponse(message, dictionary, draw) == Fire(rule, message, dictionary, draw)
  {
    var low := Lower(message);
    PhraseTestsFail(Rank(rule), message, dictionary);
    MoodTestsFail(Rank(rule), message, dictionary);
    DefineTestFails(Rank(rule), message, dictionary);
    LearnTestFails(Rank(rule), message, dictionary);
    EmojiTestsFail(Rank(rule), message, dictionary);
    match rule
    case Identity =>
      assert Contains(low, "what's your name") || Contains(low, "who are you") by { EarlyConditions(message, dictionary); }
    case Creator =>
      assert Contains(low, "who created you") || Contains(low, "who made you") by { EarlyConditions(message, dictionary); }
    case Feelings =>
      assert Contains(low, "how do you feel") || Contains(low, "how are you feeling") by { EarlyConditions(message, dictionary); }
    case NameMeaning =>
      assert Contains(low, "what does your name mean") || Contains(low, "why are you called driah") by { EarlyConditions(message, dictionary); }
    case Sad =>
      assert Contains(low, "i'm sad") || Contains(low, "feeling down") || Contains(low, "i am sad") by { MoodConditions(message, dictionary); }
    case Happy =>
      assert Contains(low, "i'm happy") || Contains(low, "feeling good") || Contains(low, "i am happy") by { MoodConditions(message, dictionary); }
    case Joke =>
      assert Contains(low, "tell me a joke") by { MoodConditions(message, dictionary); }
    case Define =>
    case DictionarySize =>
      assert Contains(low, "show me your dictionary") || Contains(low, "what words do you know") by { MoodConditions(message, dictionary); }
    case Learn =>
      LearnCondition(message, dictionary);
  }

  lemma LateRuleWins(rule: Rule, message: string, dictionary: Dict, draw: real)
    requires 0.0 <= draw < 1.0
    requires Rank(rule) >= 10
    requires Applies(rule, message, dictionary)
    requires NoneBefore(Rank(rule), message, dictionary)
    ensures GenerateResponse(message, dictionary, draw) == Fire(rule, message, dictionary, draw)
  {
    PhraseTestsFail(Rank(rule), message, dictionary);
    MoodTestsFail(Rank(rule), message, dictionary);
    DefineTestFails(Rank(rule), message, dictionary);
    LearnTestFails(Rank(rule), message, dictionary);
    if Rank(rule) < 13 {
      EmojiRuleWins(rule, message, dictionary, draw);
    } else {
      PrefixRuleWins(rule, message, dictionary, draw);
    }
  }

  /** The first ten tests of the if-chain, as it writes them, all fail. */
  predicate FirstTenFail(message: string, dictionary: Dict) {
    var low := Lower(message);
    && !(Contains(low, "what's your name") || Contains(low, "who are you"))
    && !(Contains(low, "who created you") || Contains(low, "who made you"))
    && !(Contains(low, "how do you feel") || Contains(low, "how are you feeling"))
    && !(Contains(low, "what does your name mean") || Contains(low, "why are you called driah"))
    && !(Contains(low, "i'm sad") || Contains(low, "feeling down") || Contains(low, "i am sad"))
    && !(Contains(low, "i'm happy") || Contains(low, "feeling good") || Contains(low, "i am happy"))
    && !Contains(low, "tell me a joke")
    && !(IsDefinitionQuery(low) && DefinitionTerm(low) in dictionary)
    && !(Contains(low, "show me your dictionary") || Contains(low, "what words do you know"))
    && !(StartsWith(low, "learn ") && |message| >= 6 && LearnEntry(message[6..]).Some?)
  }

  lemma EmojiRuleWins(rule: Rule, message: string, dictionary: Dict, draw: real)
    requires 0.0 <= draw < 1.0
    requires 10 <= Rank(rule) < 13
    requires Applies(rule, message, dictionary)
    requires NoneBefore(Rank(rule), message, dictionary)
    requires FirstTenFail(message, dictionary)
    ensures GenerateResponse(message, dictionary, draw) == Fire(rule, message, dictionary, draw)
  {
  }

  lemma PrefixRuleWins(rule: Rule, message: string, dictionary: Dict, draw: real)
    requires 0.0 <= draw < 1.0
    requires Rank(rule) >= 13
    requires Applies(rule, message, dictionary)
    requires NoneBefore(Rank(rule), message, dictionary)
    requires FirstTenFail(message, dictionary)
    ensures GenerateResponse(message, dictionary, draw) == Fire(rule, message, dictionary, draw)
  {
    var low := Lower(message);
    EmojiTestsFail(Rank(rule), message, dictionary);
    PrefixTestsFail(Rank(rule), message, dictionary);
    match rule
    case Greeting =>
      assert StartsWith(low, "hi") || StartsWith(low, "hello") || StartsWith(low, "hey") || StartsWith(low, "greetings") by { PrefixConditions(message, dictionary); }
    case Farewell =>
      assert StartsWith(low, "goodbye") || StartsWith(low, "bye") || StartsWith(low, "see you") || StartsWith(low, "farewell") by { PrefixConditions(message, dictionary); }
    case Thanks =>
      assert StartsWith(low, "thanks") || StartsWith(low, "thank you") || StartsWith(low, "ty") by { PrefixConditions(message, dictionary); }
    case Fallback =>
  }

  /** The if-chain and the table agree on every message. */
  lemma ChainIsTable(message: string, dictionary: Dict, draw: real)
    requires 0.0 <= draw < 1.0
    ensures GenerateResponse(message, dictionary, draw) == Fire(Winner(message, dictionary), message, dictionary, draw)
  {
    FirstMatchWins(Winner(message, dictionary), message, dictionary, draw);
  }

  /** Only the learn sentence changes the dictionary, and it never loses a term. */
  lemma OnlyLearnChangesDictionary(message: string, dictionary: Dict, draw: real)
    requires 0.0 <= draw < 1.0
    ensures dictionary.Keys <= GenerateResponse(message, dictionary, draw).dictionary.Keys
    ensures !IsLearnSentence(message) ==> GenerateResponse(message, dictionary, draw).dictionary == dictionary
  {
    var w := Winner(message, dictionary);
    FirstMatchWins(w, message, dictionary, draw);
    if w == Learn {
      var (word, entry) := LearnEntry(message[6..]).value;
      assert Fire(w, message, dictionary, draw).dictionary == Upsert(dictionary, word, entry);
    }
  }

  /** A question about the bot's identity is answered as such whatever else the
      message holds, even when it also starts as a definition query. */
  lemma IdentityQuestionWins(message: string, dictionary: Dict, draw: real)
    requires 0.0 <= draw < 1.0
    requires Contains(Lower(message), "what's your name") || Contains(Lower(message), "who are you")
    ensures GenerateResponse(message, dictionary, draw) == Response(Say(IdentityReply), dictionary)
  {
    EarlyConditions(message, dictionary);
    FirstMatchWins(Identity, message, dictionary, draw);
  }

  /** Sadness outranks happiness: a message saying "i'm sad" is never answered
      by the happy rule, whatever else it says; it gets the sad reply unless an
      earlier question (identity, creator, feelings, name) takes it. */
  lemma SadOutranksHappy(message: string, dictionary: Dict, draw: real)
    requires 0.0 <= draw < 1.0
    requires Contains(Lower(message), "i'm sad")
    ensures Rank(Winner(message, dictionary)) <= Rank(Sad)
    ensures exists c :: c in [IdentityReply, CreatorReply, FeelingsReply, NameReply, SadReply]
              && GenerateResponse(message, dictionary, draw).reply == Say(c)
    ensures NoneBefore(Rank(Sad), message, dictionary) ==>
              GenerateResponse(message, dictionary, draw).reply == Say(SadReply)
  {
    var w := Winner(message, dictionary);
    assert Applies(Sad, message, dictionary) by { MoodConditions(message, dictionary); }
    assert Rank(w) <= Rank(Sad) by { NoneBeforeMeans(Rank(w), message, dictionary); }
    FirstMatchWins(w, message, dictionary, draw);
    var c := match w
      case Identity => IdentityReply
      case Creator => CreatorReply
      case Feelings => FeelingsReply
      case NameMeaning => NameReply
      case _ => SadReply;
    assert GenerateResponse(message, dictionary, draw).reply == Say(c);
    if NoneBefore(Rank(Sad), message, dictionary) {
      WinnerUnique(Sad, message, dictionary);
    }
  }

  /** The dictionary-size question is answered with the size reply for the
      number of known terms, and changes nothing. */
  lemma DictionarySizeReported(message: string, dictionary: Dict, draw: real)
    requires 0.0 <= draw < 1.0
    requires Contains(Lower(message), "show me your dictionary") || Contains(Lower(message), "what words do you know")
    requires NoneBefore(Rank(DictionarySize), message, dictionary)
    ensures GenerateResponse(message, dictionary, draw) == Response(SizeReply(|dictionary|), dictionary)
  {
    MoodConditions(message, dictionary);
    RuleWins(DictionarySize, message, dictionary, draw);
  }

  /** The joke request answers with the joke the draw picks ... */
  lemma JokeFromPool(message: string, dictionary: Dict, draw: real)
    requires 0.0 <= draw < 1.0
    requires Contains(Lower(message), "tell me a joke")
    requires NoneBefore(Rank(Joke), message, dictionary)
    ensures GenerateResponse(message, dictionary, draw) == Response(JokeText(Pick(JokeCount, draw)), dictionary)
  {
    MoodConditions(message, dictionary);
    FirstMatchWins(Joke, message, dictionary, draw);
  }

  /** ... and each of the five jokes is the answer for some draw. */
  lemma JokeReachesEvery(message: string, dictionary: Dict, k: nat)
    requires k < JokeCount
    requires Contains(Lower(message), "tell me a joke")
    requires NoneBefore(Rank(Joke), message, dictionary)
    ensures GenerateResponse(message, dictionary, k as real / JokeCount as real).reply == JokeText(k)
  {
    PickReachesEvery(JokeCount, k);
    JokeFromPool(message, dictionary, k as real / JokeCount as real);
  }

  /** When no rule before the fallback applies, the answer is the generic
      response the draw picks and nothing changes ... */
  lemma FallbackFromPool(message: string, dictionary: Dict, draw: real)
    requires 0.0 <= draw < 1.0
    requires NoneBefore(Rank(Fallback), message, dictionary)
    ensures GenerateResponse(message, dictionary, draw) == Response(GenericText(Pick(GenericCount, draw)), dictionary)
  {
    FirstMatchWins(Fallback, message, dictionary, draw);
  }

  /** ... and each of the eight is the answer for some draw. */
  lemma FallbackReachesEvery(message: string, dictionary: Dict, k: nat)
    requires k < GenericCount
    requires NoneBefore(Rank(Fallback), message, dictionary)
    ensures GenerateResponse(message, dictionary, k as real / GenericCount as real).reply == GenericText(k)
  {
    PickReachesEvery(GenericCount, k);
    FirstMatchWins(Fallback, message, dictionary, k as real / GenericCount as real);
  }

  /** A definition query for a known term answers "<term>: <meaning>" and the
      example, and changes nothing. */
  lemma DefinitionHit(message: string, dictionary: Dict, draw: real)
    requires 0.0 <= draw < 1.0
    requires IsDefinitionQuery(Lower(message))
    requires DefinitionTerm(Lower(message)) in dictionary
    requires NoneBefore(Rank(Define), message, dictionary)
    ensures var term := DefinitionTerm(Lower(message));
      GenerateResponse(message, dictionary, draw) ==
        Response(term + ": " + dictionary[term].meaning + "\n\nExample: " + dictionary[term].example, dictionary)
  {
    FirstMatchWins(Define, message, dictionary, draw);
  }

  /** "define driah", "what is driah" or "what are driah" looks up "driah": a
      keyword, one space and a stored lower-case term without query punctuation
      or surrounding white space, when no earlier rule applies, is answered with
      that term's meaning and example. */
  lemma DefinitionQueryLooksUp(keyword: string, term: string, dictionary: Dict, draw: real)
    requires 0.0 <= draw < 1.0
    requires keyword == "define" || keyword == "what is" || keyword == "what are"
    requires term == [] || (!IsSpace(term[0]) && !IsSpace(term[|term| - 1]))
    requires forall i :: 0 <= i < |term| ==> !IsQueryPunctuation(term[i])
    requires IsLowercase(term) && term in dictionary
    requires NoneBefore(Rank(Define), keyword + " " + term, dictionary)
    ensures GenerateResponse(keyword + " " + term, dictionary, draw) ==
      Response(term + ": " + dictionary[term].meaning + "\n\nExample: " + dictionary[term].example, dictionary)
  {
    LoweredQueryOf(keyword, term);
    DefinitionHit(keyword + " " + term, dictionary, draw);
  }

  /** A definition query never changes the dictionary. */
  lemma DefinitionKeepsDictionary(message: string, dictionary: Dict, draw: real)
    requires 0.0 <= draw < 1.0
    requires IsDefinitionQuery(Lower(message))
    ensures GenerateResponse(message, dictionary, draw).dictionary == dictionary
  {
    var low := Lower(message);
    assert !IsLearnSentence(message) by {
      assert low[0] == 'd' || low[0] == 'w';
    }
    OnlyLearnChangesDictionary(message, dictionary, draw);
  }

  /** For an unknown term a definition query produces no reply of its own: the
      answer is that of the first later rule that applies, and that can only be
      the size question or a generic reply. */
  lemma DefinitionMissFallsThrough(message: string, dictionary: Dict, draw: real)
    requires 0.0 <= draw < 1.0
    requires IsDefinitionQuery(Lower(message))
    requires DefinitionTerm(Lower(message)) !in dictionary
    requires NoneBefore(Rank(Define), message, dictionary)
    ensures Rank(Winner(message, dictionary)) > Rank(Define)
    ensures Winner(message, dictionary) == DictionarySize || Winner(message, dictionary) == Fallback
    ensures GenerateResponse(message, dictionary, draw) == Fire(Winner(message, dictionary), message, dictionary, draw)
  {
    DefinitionMissWinner(message, dictionary);
    FirstMatchWins(Winner(message, dictionary), message, dictionary, draw);
  }

  lemma DefinitionMissWinner(message: string, dictionary: Dict)
    requires IsDefinitionQuery(Lower(message))
    requires DefinitionTerm(Lower(message)) !in dictionary
    requires NoneBefore(Rank(Define), message, dictionary)
    ensures Rank(Winner(message, dictionary)) > Rank(Define)
    ensures Winner(message, dictionary) == DictionarySize || Winner(message, dictionary) == Fallback
  {
    assert !Applies(Define, message, dictionary);
    NoneBeforeMeans(Rank(Define), message, dictionary);
    DefinitionQuerySkipsLateRules(message, dictionary);
  }

  /** So an unknown term gets one of the generic replies unless the message
      also asks about the dictionary. */
  lemma DefinitionMissGeneric(message: string, dictionary: Dict, draw: real)
    requires 0.0 <= draw < 1.0
    requires IsDefinitionQuery(Lower(message))
    requires DefinitionTerm(Lower(message)) !in dictionary
    requires NoneBefore(Rank(Define), message, dictionary)
    requires !Contains(Lower(message), "show me your dictionary") && !Contains(Lower(message), "what words do you know")
    ensures GenerateResponse(message, dictionary, draw) == Response(GenericText(Pick(GenericCount, draw)), dictionary)
  {
    MentionsTwo(Lower(message), "show me your dictionary", "what words do you know");
    DefinitionMissWinner(message, dictionary);
    FallbackFromPool(message, dictionary, draw);
  }

  /** A definition query begins with 'd' or 'w', so the learn, emoji, greeting,
      farewell and thanks tests all fail on it. */
  lemma DefinitionQuerySkipsLateRules(message: string, dictionary: Dict)
    requires IsDefinitionQuery(Lower(message))
    ensures forall rule :: Rank(rule) > Rank(DictionarySize) && rule != Fallback ==> !Applies(rule, message, dictionary)
  {
    var low := Lower(message);
    assert low[0] == 'd' || low[0] == 'w';
    EmojiRulesSkipText(message, dictionary);
    forall rule | rule == Greeting || rule == Farewell || rule == Thanks
      ensures !StartsWithAny(low, Prefixes(rule))
    {
      forall i | 0 <= i < |Prefixes(rule)| ensures !StartsWith(low, Prefixes(rule)[i]) {
        assert Prefixes(rule)[i][0] != 'd' && Prefixes(rule)[i][0] != 'w';
      }
    }
  }

  /** "learn <rest>" with a colon in rest teaches the term LearnEntry reads from
      rest, replies with the confirmation, and leaves every other term alone. */
  lemma LearnTeaches(message: string, dictionary: Dict, draw: real)
    requires 0.0 <= draw < 1.0
    requires IsLearnSentence(message)
    requires NoneBefore(Rank(Learn), message, dictionary)
    ensures var (word, entry) := LearnEntry(message[6..]).value;
      var r := GenerateResponse(message, dictionary, draw);
      && r.reply == LearnedReply(word)
      && r.dictionary.Keys == dictionary.Keys + {word}
      && r.dictionary[word] == entry
      && forall k :: k in dictionary && k != word ==> r.dictionary[k] == dictionary[k]
  {
    FirstMatchWins(Learn, message, dictionary, draw);
  }

  /** "learn a:b" with colon-free a and b is a learn sentence, read as the
      term a (trimmed, lower-cased) meaning b (trimmed) ... */
  lemma LearnTwoPartReading(a: string, b: string)
    requires ':' !in a && ':' !in b
    ensures IsLearnSentence("learn " + a + ":" + b)
    ensures ("learn " + a + ":" + b)[6..] == a + ":" + b
    ensures LearnEntry(a + ":" + b) == Some((Lower(Trim(a)), Entry(Trim(b), Placeholder)))
  {
    var message := "learn " + a + ":" + b;
    assert message[6..] == a + ":" + b;
    assert message == "learn " + (a + ":" + b);
    LowerAppend("learn ", a + ":" + b);
    LowerKeeps("learn ");
    assert Lower(message)[..6] == "learn ";
    assert message[6..][|a|] == ':';
    LearnTwoPieces(a, b);
  }

  /** ... and, when no earlier rule takes it, teaches exactly that. */
  lemma LearnTwoPartSentence(a: string, b: string, dictionary: Dict, draw: real)
    requires 0.0 <= draw < 1.0
    requires ':' !in a && ':' !in b
    requires NoneBefore(Rank(Learn), "learn " + a + ":" + b, dictionary)
    ensures GenerateResponse("learn " + a + ":" + b, dictionary, draw) ==
              Response(LearnedReply(Lower(Trim(a))), Upsert(dictionary, Lower(Trim(a)), Entry(Trim(b), Placeholder)))
  {
    LearnTwoPartReading(a, b);
    FirstMatchWins(Learn, "learn " + a + ":" + b, dictionary, draw);
  }

  /** "learn ..." without a colon teaches nothing and is answered by a later rule. */
  lemma LearnWithoutColon(message: string, dictionary: Dict, draw: real)
    requires 0.0 <= draw < 1.0
    requires StartsWith(Lower(message), "learn ") && ':' !in message[6..]
    ensures GenerateResponse(message, dictionary, draw).dictionary == dictionary
    ensures Winner(message, dictionary) != Learn
  {
    OnlyLearnChangesDictionary(message, dictionary, draw);
  }

  /** A message of fewer than six characters can match none of the phrase,
      definition, size or learn tests. */
  lemma ShortMessagesSkipPhrases(message: string, dictionary: Dict)
    requires |message| < 6
    ensures NoneBefore(Rank(HappyFace), message, dictionary)
  {
    var low := Lower(message);
    forall rule | Rank(rule) < Rank(HappyFace) ensures !Applies(rule, message, dictionary) {
      if rule != Define && rule != Learn {
        var phrases := Phrases(rule);
        forall i | 0 <= i < |phrases| ensures !Contains(low, phrases[i]) {
          assert |phrases[i]| > |low|;
        }
      }
    }
    NoneBeforeMeans(Rank(HappyFace), message, dictionary);
  }

  /** The search moves past a rule that does not apply. */
  lemma NoneBeforeNext(rule: Rule, message: string, dictionary: Dict)
    ensures NoneBefore(Rank(rule), message, dictionary) && !Applies(rule, message, dictionary) ==>
              NoneBefore(Rank(rule) + 1, message, dictionary)
  {
  }

  lemma EmojiRulesSkipText(message: string, dictionary: Dict)
    requires Lower(message) != [] && Lower(message)[0] <= 'z'
    ensures !Applies(HappyFace, message, dictionary)
    ensures !Applies(SadFace, message, dictionary)
    ensures !Applies(LoveFace, message, dictionary)
  {
    NotAnEmoji(Lower(message));
  }

  /** A listed emoji, sent alone, is taken by the rule of its own class. */
  lemma EmojiRuleFirst(message: string, dictionary: Dict)
    requires message in HappyEmoji + SadEmoji + LoveEmoji
    ensures message in HappyEmoji ==> Applies(HappyFace, message, dictionary) && NoneBefore(Rank(HappyFace), message, dictionary)
    ensures message in SadEmoji ==> Applies(SadFace, message, dictionary) && NoneBefore(Rank(SadFace), message, dictionary)
    ensures message in LoveEmoji ==> Applies(LoveFace, message, dictionary) && NoneBefore(Rank(LoveFace), message, dictionary)
  {
    EmojiKeptByLower(message);
    EmojiClassesDisjoint(message);
    ShortMessagesSkipPhrases(message, dictionary);
    if message !in HappyEmoji {
      NoneBeforeNext(HappyFace, message, dictionary);
      if message !in SadEmoji {
        NoneBeforeNext(SadFace, message, dictionary);
      }
    }
  }

  /** Each listed emoji, sent alone, gets its class's reply. */
  lemma EmojiAnswered(message: string, dictionary: Dict, draw: real)
    requires 0.0 <= draw < 1.0
    requires message in HappyEmoji + SadEmoji + LoveEmoji
    ensures message in HappyEmoji ==> GenerateResponse(message, dictionary, draw).reply == Say(HappyFaceReply)
    ensures message in SadEmoji ==> GenerateResponse(message, dictionary, draw).reply == Say(SadFaceReply)
    ensures message in LoveEmoji ==> GenerateResponse(message, dictionary, draw).reply == Say(LoveFaceReply)
  {
    EmojiClassesDisjoint(message);
    EmojiRuleFirst(message, dictionary);
    var rule := if message in HappyEmoji then HappyFace else if message in SadEmoji then SadFace else LoveFace;
    FirstMatchWins(rule, message, dictionary, draw);
  }

  /** A short message that begins with an ASCII character passes every test
      ranked before the greeting. */
  lemma ShortTextPassesEarlyRules(message: string, dictionary: Dict)
    requires |message| < 6
    requires Lower(message) != [] && Lower(message)[0] <= 'z'
    ensures NoneBefore(Rank(Greeting), message, dictionary)
  {
    EmojiRulesSkipText(message, dictionary);
    ShortMessagesSkipPhrases(message, dictionary);
    NoneBeforeNext(HappyFace, message, dictionary);
    NoneBeforeNext(SadFace, message, dictionary);
    NoneBeforeNext(LoveFace, message, dictionary);
  }

  /** The greeting test looks at the first letters only: a message of fewer
      than six characters that begins with "hi" in any case, a word such as
      "Hive" included, is answered by the greeting rule (and so, by
      FirstMatchWins, with the greeting reply). */
  lemma GreetingPrefixNotWord(message: string, dictionary: Dict)
    requires |message| < 6 && StartsWith(Lower(message), "hi")
    ensures Applies(Greeting, message, dictionary)
    ensures NoneBefore(Rank(Greeting), message, dictionary)
  {
    assert Lower(message)[0] == 'h';
    ShortTextPassesEarlyRules(message, dictionary);
    PrefixConditions(message, dictionary);
  }

  /** A message that begins with "ty" is neither a greeting nor a farewell. */
  lemma TyIsNoGreeting(message: string, dictionary: Dict)
    requires StartsWith(Lower(message), "ty")
    ensures !Applies(Greeting, message, dictionary)
    ensures !Applies(Farewell, message, dictionary)
  {
    var low := Lower(message);
    assert low[0] == 't';
    forall i | 0 <= i < |Prefixes(Greeting)| ensures !StartsWith(low, Prefixes(Greeting)[i]) {
      assert Prefixes(Greeting)[i][0] != 't';
    }
    forall i | 0 <= i < |Prefixes(Farewell)| ensures !StartsWith(low, Prefixes(Farewell)[i]) {
      assert Prefixes(Farewell)[i][0] != 't';
    }
  }

  /** Likewise the thanks test: a message of fewer than six characters that
      begins with "ty", such as "Type", is answered by the thanks rule. */
  lemma ThanksPrefixNotWord(message: string, dictionary: Dict)
    requires |message| < 6 && StartsWith(Lower(message), "ty")
    ensures Applies(Thanks, message, dictionary)
    ensures NoneBefore(Rank(Thanks), message, dictionary)
  {
    assert Lower(message)[0] == 't';
    ShortTextPassesEarlyRules(message, dictionary);
    TyIsNoGreeting(message, dictionary);
    NoneBeforeNext(Greeting, message, dictionary);
    NoneBeforeNext(Farewell, message, dictionary);
    PrefixConditions(message, dictionary);
  }
}
