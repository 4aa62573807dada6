/**
  The dictionary store: lower-case term to meaning and example. It is seeded
  with five entries when nothing is stored, updated by two teach operations (the
  dictionary form and the "learn term:meaning[:example]" sentence), and listed
  in sorted key order.
 */
module Dictionary {
  import opened Wrappers
  import opened Text

  datatype Entry = Entry(meaning: string, example: string)

  type Dict = map<string, Entry>

  /** The example stored when the teacher gives none. */
  const Placeholder := "No example provided."

  /** The built-in entries used when no dictionary is stored. */
  const Seed: Dict := map[
    "hello" := Entry(
      "A greeting used when meeting someone.",
      "Hello, how are you today?"),
    "goodbye" := Entry(
      "A farewell used when parting ways with someone.",
      "I have to go now, goodbye!"),
    "artificial intelligence" := Entry(
      "The simulation of human intelligence in machines programmed to think and learn like humans.",
      "Driah AI uses artificial intelligence to understand and respond to messages."),
    "chatbot" := Entry(
      "A computer program designed to simulate conversation with human users.",
      "Driah is a chatbot that can have conversations with users."),
    "driah" := Entry(
      "The nickname of Gift Sumaiya, the girlfriend of Omare Emmanuel (Omar Lainz).",
      "Driah AI was named after Gift Sumaiya, whose nickname is Driah.")
  ]

  /** loadDictionary: the stored dictionary if there is one, else the seed. */
  function LoadDictionary(stored: Option<Dict>): Dict {
    match stored
    case Some(d) => d
    case None => Seed
  }

  /** With nothing stored the store holds exactly the five built-in terms. */
  lemma SeedEntries()
    ensures LoadDictionary(None).Keys == {"hello", "goodbye", "artificial intelligence", "chatbot", "driah"}
    ensures |LoadDictionary(None)| == 5
    ensures forall stored: Dict :: LoadDictionary(Some(stored)) == stored
  {
    var keys := {"hello", "goodbye", "artificial intelligence", "chatbot", "driah"};
    assert Seed.Keys == keys;
    assert "hello"[0] != "driah"[0];
    assert "goodbye"[0] != "chatbot"[0];
    assert |keys| == 5;
  }

  /** Storing an entry under a word: the word now maps to the entry, no key is
      lost and every other key keeps its entry. */
  function Upsert(d: Dict, word: string, entry: Entry): (r: Dict)
    ensures r.Keys == d.Keys + {word}
    ensures word in r && r[word] == entry
    ensures forall k :: k in d && k != word ==> r[k] == d[k]
    ensures |r| == if word in d then |d| else |d| + 1
  {
    var r := d[word := entry];
    assert r.Keys == d.Keys + {word};
    assert word in d ==> r.Keys == d.Keys;
    r
  }

  /** The confirmation both teach operations give. */
  function LearnedReply(word: string): string {
    "I've learned the word \"" + word + "\"! Thank you for teaching me."
  }

  /** The dictionary form (addNewWord): term trimmed and lower-cased, meaning and
      example trimmed; rejected when term or meaning is blank; a blank example
      becomes the placeholder. */
  function FormEntry(word: string, meaning: string, example: string): (r: Option<(string, Entry)>)
    ensures r.None? <==> IsBlank(word) || IsBlank(meaning)
    ensures r.Some? ==> r.value.0 != "" && IsLowercase(r.value.0)
    ensures r.Some? ==> r.value.1.meaning != "" && r.value.1.example != ""
  {
    TrimEmptyIffBlank(word);
    TrimEmptyIffBlank(meaning);
    LowerIsLowercase(Trim(word));
    var w := Lower(Trim(word));
    var m := Trim(meaning);
    var e := Trim(example);
    if w != "" && m != "" then Some((w, Entry(m, if e != "" then e else Placeholder))) else None
  }

  /** What the form stores for a term and meaning that are not blank. */
  lemma FormReads(word: string, meaning: string, example: string)
    requires !IsBlank(word) && !IsBlank(meaning)
    ensures FormEntry(word, meaning, example) ==
              Some((Lower(Trim(word)), Entry(Trim(meaning), if IsBlank(example) then Placeholder else Trim(example))))
  {
    TrimEmptyIffBlank(word);
    TrimEmptyIffBlank(meaning);
    TrimEmptyIffBlank(example);
  }

  /** The "learn" sentence: the text after "learn " is split on every colon; with at
      least two pieces the first (trimmed, lower-cased) is the term, the second
      (trimmed) the meaning, the third (trimmed) if present the example. */
  function LearnEntry(rest: string): (r: Option<(string, Entry)>)
    ensures r.Some? <==> ':' in rest
    ensures r.Some? ==> IsLowercase(r.value.0)
  {
    var parts := Split(rest, ':');
    if |parts| >= 2 then
      LowerIsLowercase(Trim(parts[0]));
      Some((Lower(Trim(parts[0])), Entry(Trim(parts[1]), if |parts| >= 3 then Trim(parts[2]) else Placeholder)))
    else None
  }

  lemma SplitAtSeparator(head: string, tail: string, sep: char)
    requires sep !in head
    ensures Split(head + [sep] + tail, sep) == [head] + Split(tail, sep)
  {
    var after := [sep] + tail;
    assert head + [sep] + tail == head + after;
    SplitAfterHead(head, after, sep);
    assert after[0] == sep && after[1..] == tail;
    assert Split(after, sep) == [""] + Split(tail, sep);
    assert head + "" == head;
  }

  lemma SplitWithoutSeparator(s: string, sep: char)
    requires sep !in s
    ensures Split(s, sep) == [s]
  {
    SplitAfterHead(s, [], sep);
    assert s + [] == s && s + "" == s;
  }

  /** "learn a:b" with colon-free a and b teaches a with meaning b and the placeholder. */
  lemma LearnTwoPieces(a: string, b: string)
    requires ':' !in a && ':' !in b
    ensures LearnEntry(a + ":" + b) == Some((Lower(Trim(a)), Entry(Trim(b), Placeholder)))
  {
    var s := a + ":" + b;
    assert s == a + [':'] + b;
    SplitAtSeparator(a, b, ':');
    SplitWithoutSeparator(b, ':');
    assert Split(s, ':') == [a, b];
  }

  /** "learn a:b:c..." with colon-free a, b and c takes c as the example, whatever
      follows the third colon. */
  lemma LearnThreePieces(a: string, b: string, c: string, more: string)
    requires ':' !in a && ':' !in b && ':' !in c
    requires more == "" || more[0] == ':'
    ensures LearnEntry(a + ":" + b + ":" + c + more) == Some((Lower(Trim(a)), Entry(Trim(b), Trim(c))))
  {
    ThreePieces(a, b, c, more);
  }

  lemma ThreePieces(a: string, b: string, c: string, more: string)
    requires ':' !in a && ':' !in b && ':' !in c
    requires more == "" || more[0] == ':'
    ensures var parts := Split(a + ":" + b + ":" + c + more, ':');
      |parts| >= 3 && parts[0] == a && parts[1] == b && parts[2] == c
  {
    ColonGroups(a, b, c, more);
    SplitAtSeparator(a, b + [':'] + (c + more), ':');
    SplitAtSeparator(b, c + more, ':');
    LastPiece(c, more);
  }

  lemma ColonGroups(a: string, b: string, c: string, more: string)
    ensures a + ":" + b + ":" + c + more == a + [':'] + (b + [':'] + (c + more))
  {
  }

  lemma LastPiece(c: string, more: string)
    requires ':' !in c
    requires more == "" || more[0] == ':'
    ensures Split(c + more, ':')[0] == c
  {
    SplitAfterHead(c, more, ':');
    assert Split(more, ':')[0] == "";
    assert c + "" == c;
  }

  /** The two teach operations agree on a colon-free term and meaning that are
      not blank and no example. */
  lemma LearnAgreesWithForm(a: string, b: string)
    requires ':' !in a && ':' !in b
    requires !IsBlank(a) && !IsBlank(b)
    ensures LearnEntry(a + ":" + b) == FormEntry(a, b, "")
  {
    LearnTwoPieces(a, b);
    TrimEmptyIffBlank(a);
    TrimEmptyIffBlank(b);
    assert Trim("") == "";
  }

  /** Where they differ: the sentence teaches a blank term or meaning that the
      form rejects ... */
  lemma LearnAcceptsBlank(a: string, b: string, example: string)
    requires ':' !in a && ':' !in b
    requires IsBlank(a) || IsBlank(b)
    ensures LearnEntry(a + ":" + b).Some? && FormEntry(a, b, example).None?
  {
    LearnTwoPieces(a, b);
  }

  /** ... and a blank third piece is stored as the empty example where the form
      stores the placeholder. */
  lemma LearnKeepsBlankExample(a: string, b: string, c: string)
    requires ':' !in a && ':' !in b && ':' !in c
    requires !IsBlank(a) && !IsBlank(b) && IsBlank(c)
    ensures LearnEntry(a + ":" + b + ":" + c).value.1.example == ""
    ensures FormEntry(a, b, c).value.1.example == Placeholder
  {
    LearnThreePieces(a, b, c, "");
    assert a + ":" + b + ":" + c + "" == a + ":" + b + ":" + c;
    TrimEmptyIffBlank(c);
  }

  predicate StrictlySorted(words: seq<string>) {
    forall i, j :: 0 <= i < j < |words| ==> Below(words[i], words[j]) && words[i] != words[j]
  }

  lemma {:induction false} HasLeast(keys: set<string>)
    requires keys != {}
    ensures exists least :: least in keys && forall k :: k in keys ==> Below(least, k)
    decreases |keys|
  {
    var x :| x in keys;
    if keys == {x} {
      BelowReflexive(x);
      assert forall k :: k in keys ==> k == x;
    } else {
      var rest := keys - {x};
      HasLeast(rest);
      var least :| least in rest && forall k :: k in rest ==> Below(least, k);
      var m := LeastWith(x, least, rest);
      assert keys == rest + {x};
    }
  }

  /** Adding x to a set whose least element is least: the smaller of the two
      is the least of the whole. */
  lemma LeastWith(x: string, least: string, rest: set<string>) returns (m: string)
    requires least in rest && forall k :: k in rest ==> Below(least, k)
    ensures m in rest + {x}
    ensures forall k :: k in rest + {x} ==> Below(m, k)
  {
    BelowTotal(x, least);
    BelowReflexive(x);
    BelowReflexive(least);
    if Below(x, least) {
      m := x;
      forall k | k in rest ensures Below(x, k) {
        BelowTransitive(x, least, k);
      }
    } else {
      m := least;
    }
  }

  /** The keys in the order the dictionary view lists them: every key once,
      ascending. */
  ghost function SortedWords(keys: set<string>): (words: seq<string>)
    ensures StrictlySorted(words)
    ensures forall w :: w in words <==> w in keys
    ensures |words| == |keys|
    decreases |keys|
  {
    if keys == {} then []
    else
      HasLeast(keys);
      var least :| least in keys && forall k :: k in keys ==> Below(least, k);
      var rest := SortedWords(keys - {least});
      SortedCons(least, rest, keys);
      [least] + rest
  }

  /** The least key followed by the others in order is in order. */
  lemma SortedCons(least: string, rest: seq<string>, keys: set<string>)
    requires StrictlySorted(rest)
    requires forall w :: w in rest <==> w in keys - {least}
    requires forall k :: k in keys ==> Below(least, k)
    ensures StrictlySorted([least] + rest)
    ensures forall w :: w in [least] + rest <==> w in keys - {least} + {least}
  {
    var words := [least] + rest;
    forall i, j | 0 <= i < j < |words| ensures Below(words[i], words[j]) && words[i] != words[j] {
      if i == 0 {
        assert words[j] == rest[j - 1] && rest[j - 1] in rest;
      } else {
        assert words[i] == rest[i - 1] && words[j] == rest[j - 1];
      }
    }
  }
}
