/**
  The string primitives the chatbot relies on, with the meaning JavaScript gives
  them: trim, the regular-expression class \s, toLowerCase (ASCII letters only),
  includes, startsWith, split on one character, the removal of a character class,
  decimal formatting of a count, and the code-unit order that sort() uses.
 */
module Text {

  /** The white-space and line-terminator characters that String.prototype.trim
      strips and that the regular-expression class \s matches. */
  predicate IsSpace(c: char) {
    || c == ' ' || c == '\t' || c == '\n' || c == '\r' || c == '\U{000B}' || c == '\U{000C}'
    || c == '\U{00A0}' || c == '\U{1680}' || ('\U{2000}' <= c <= '\U{200A}')
    || c == '\U{2028}' || c == '\U{2029}' || c == '\U{202F}' || c == '\U{205F}'
    || c == '\U{3000}' || c == '\U{FEFF}'
  }

  predicate IsUpper(c: char) {
    'A' <= c <= 'Z'
  }

  /** toLowerCase on one character, restricted to the ASCII letters. */
  function LowerChar(c: char): char {
    if IsUpper(c) then (c as int - 'A' as int + 'a' as int) as char else c
  }

  /** toLowerCase, character by character. */
  function Lower(s: string): (r: string)
    ensures |r| == |s|
  {
    if s == [] then [] else [LowerChar(s[0])] + Lower(s[1..])
  }

  lemma {:induction false} LowerAt(s: string, i: nat)
    requires i < |s|
    ensures Lower(s)[i] == LowerChar(s[i])
  {
    if i > 0 {
      LowerAt(s[1..], i - 1);
    }
  }

  lemma {:induction false} LowerAppend(a: string, b: string)
    ensures Lower(a + b) == Lower(a) + Lower(b)
  {
    if a != [] {
      assert (a + b)[1..] == a[1..] + b;
      LowerAppend(a[1..], b);
    } else {
      assert a + b == b;
    }
  }

  predicate IsLowercase(s: string) {
    forall i :: 0 <= i < |s| ==> !IsUpper(s[i])
  }

  /** Lower-casing leaves no upper-case letter ... */
  lemma LowerIsLowercase(s: string)
    ensures IsLowercase(Lower(s))
  {
    forall i | 0 <= i < |s| ensures !IsUpper(Lower(s)[i]) {
      LowerAt(s, i);
    }
  }

  /** ... and changes nothing in a string that has none. */
  lemma {:induction false} LowerKeeps(s: string)
    requires IsLowercase(s)
    ensures Lower(s) == s
  {
    if s != [] {
      LowerKeeps(s[1..]);
      assert s == [s[0]] + s[1..];
    }
  }

  /** Joining two texts without upper-case letters gives one without them. */
  lemma LowercaseAppend(a: string, b: string)
    requires IsLowercase(a) && IsLowercase(b)
    ensures IsLowercase(a + b)
  {
    forall i | 0 <= i < |a + b| ensures !IsUpper((a + b)[i]) {
      if i >= |a| {
        assert (a + b)[i] == b[i - |a|];
      }
    }
  }

  predicate StartsWith(s: string, prefix: string) {
    |prefix| <= |s| && s[..|prefix|] == prefix
  }

  predicate OccursAt(s: string, part: string, i: nat) {
    i + |part| <= |s| && s[i..i + |part|] == part
  }

  /** String.prototype.includes. */
  predicate Contains(s: string, part: string) {
    exists i: nat | i <= |s| :: OccursAt(s, part, i)
  }

  /** String.prototype.trim, first half: the white space at the front goes. */
  function TrimStart(s: string): (r: string)
    ensures |r| <= |s| && r == s[|s| - |r|..]
    ensures forall i :: 0 <= i < |s| - |r| ==> IsSpace(s[i])
    ensures r == [] || !IsSpace(r[0])
  {
    if |s| > 0 && IsSpace(s[0]) then
      var r := TrimStart(s[1..]);
      assert forall i :: 0 < i < |s| - |r| ==> s[i] == s[1..][i - 1];
      r
    else s
  }

  /** String.prototype.trim, second half: the white space at the back goes. */
  function TrimEnd(s: string): (r: string)
    ensures |r| <= |s| && r == s[..|r|]
    ensures forall i :: |r| <= i < |s| ==> IsSpace(s[i])
    ensures r == [] || !IsSpace(r[|r| - 1])
  {
    if |s| > 0 && IsSpace(s[|s| - 1]) then TrimEnd(s[..|s| - 1]) else s
  }

  function Trim(s: string): (r: string)
    ensures |r| <= |s|
    ensures r == [] || (!IsSpace(r[0]) && !IsSpace(r[|r| - 1]))
  {
    TrimEnd(TrimStart(s))
  }

  /** What trim keeps is one stretch of the original. */
  lemma TrimSlice(s: string)
    ensures |s| - |TrimStart(s)| + |Trim(s)| <= |s|
    ensures Trim(s) == s[|s| - |TrimStart(s)|..][..|Trim(s)|]
  {
  }

  predicate IsBlank(s: string) {
    forall i :: 0 <= i < |s| ==> IsSpace(s[i])
  }

  /** A string trims to "" exactly when it is all white space; this is the
      truthiness test the teach operations apply to a trimmed field. */
  lemma TrimEmptyIffBlank(s: string)
    ensures Trim(s) == [] <==> IsBlank(s)
  {
    if Trim(s) == [] {
      assert TrimStart(s) == [];
    }
  }

  predicate IsQueryPunctuation(c: char) {
    c == '?' || c == '.' || c == ',' || c == '!'
  }

  /** The removal of query punctuation: every question mark, full stop, comma and
      exclamation mark is deleted and every other character is kept, as often
      as it occurred. */
  function StripPunctuation(s: string): (r: string)
    ensures |r| <= |s|
    ensures forall i :: 0 <= i < |r| ==> !IsQueryPunctuation(r[i])
    ensures (forall i :: 0 <= i < |s| ==> !IsQueryPunctuation(s[i])) ==> r == s
  {
    if s == [] then []
    else
      var rest := StripPunctuation(s[1..]);
      assert s == [s[0]] + s[1..];
      if IsQueryPunctuation(s[0]) then rest else [s[0]] + rest
  }

  /** The removal works on each part of a text on its own, so the characters
      kept stay in their order. */
  lemma {:induction false} StripPunctuationAppend(a: string, b: string)
    ensures StripPunctuation(a + b) == StripPunctuation(a) + StripPunctuation(b)
  {
    if a != [] {
      var c, more := a[0], a[1..];
      var kept := if IsQueryPunctuation(c) then [] else [c];
      assert a + b == [c] + (more + b) && a == [c] + more;
      StripCons(c, more + b);
      StripCons(c, more);
      StripPunctuationAppend(more, b);
      Associative(kept, StripPunctuation(more), StripPunctuation(b));
    } else {
      assert a + b == b;
    }
  }

  /** Every character other than query punctuation is kept as often as it occurred. */
  lemma {:induction false} StripPunctuationCounts(s: string, c: char)
    requires !IsQueryPunctuation(c)
    ensures multiset(StripPunctuation(s))[c] == multiset(s)[c]
  {
    if s != [] {
      var d, more := s[0], s[1..];
      assert s == [d] + more;
      StripCons(d, more);
      StripPunctuationCounts(more, c);
      assert multiset(s) == multiset{d} + multiset(more);
      var kept := if IsQueryPunctuation(d) then [] else [d];
      assert multiset(StripPunctuation(s)) == multiset(kept) + multiset(StripPunctuation(more));
    }
  }

  lemma StripCons(c: char, tail: string)
    ensures StripPunctuation([c] + tail) == (if IsQueryPunctuation(c) then [] else [c]) + StripPunctuation(tail)
  {
    assert ([c] + tail)[1..] == tail;
  }

  lemma Associative(a: string, b: string, c: string)
    ensures a + (b + c) == (a + b) + c
  {
  }

  /** Trimming a text free of query punctuation leaves it free of it. */
  lemma TrimKeepsUnpunctuated(s: string)
    requires forall i :: 0 <= i < |s| ==> !IsQueryPunctuation(s[i])
    ensures forall i :: 0 <= i < |Trim(s)| ==> !IsQueryPunctuation(Trim(s)[i])
  {
    TrimSlice(s);
    var k := |s| - |TrimStart(s)|;
    forall i | 0 <= i < |Trim(s)| ensures !IsQueryPunctuation(Trim(s)[i]) {
      assert Trim(s)[i] == s[k + i];
    }
  }

  /** split(sep): the pieces between separators, empty ones included. */
  function Split(s: string, sep: char): (parts: seq<string>)
    ensures |parts| >= 1
    ensures forall i :: 0 <= i < |parts| ==> sep !in parts[i]
    ensures |parts| >= 2 <==> sep in s
  {
    if s == [] then [""]
    else
      var rest := Split(s[1..], sep);
      assert s == [s[0]] + s[1..];
      if s[0] == sep then [""] + rest
      else [[s[0]] + rest[0]] + rest[1..]
  }

  /** join(sep), the inverse of Split. */
  function Join(parts: seq<string>, sep: char): string
    requires |parts| >= 1
  {
    if |parts| == 1 then parts[0] else parts[0] + [sep] + Join(parts[1..], sep)
  }

  lemma {:induction false} JoinSplit(s: string, sep: char)
    ensures Join(Split(s, sep), sep) == s
  {
    if s != [] {
      var rest := Split(s[1..], sep);
      JoinSplit(s[1..], sep);
      if s[0] != sep && |rest| > 1 {
        assert rest == [rest[0]] + rest[1..];
      }
    }
  }

  /** Splitting a separator-free head followed by more text: the head is
      glued onto the first piece of the rest. */
  lemma {:induction false} SplitAfterHead(head: string, tail: string, sep: char)
    requires sep !in head
    ensures Split(head + tail, sep) == [head + Split(tail, sep)[0]] + Split(tail, sep)[1..]
  {
    var rest := Split(tail, sep);
    if head == [] {
      assert head + tail == tail && head + rest[0] == rest[0];
      assert rest == [rest[0]] + rest[1..];
    } else {
      var more := head[1..];
      assert head + tail == [head[0]] + (more + tail);
      SplitCons(head[0], more + tail, sep);
      SplitAfterHead(more, tail, sep);
      assert [head[0]] + more == head;
      ConsAppend(head[0], more, rest[0]);
    }
  }

  lemma ConsAppend(c: char, a: string, b: string)
    ensures [c] + (a + b) == ([c] + a) + b
  {
  }

  /** One step of Split over a character that is not the separator. */
  lemma SplitCons(c: char, tail: string, sep: char)
    requires c != sep
    ensures Split([c] + tail, sep) == [[c] + Split(tail, sep)[0]] + Split(tail, sep)[1..]
  {
    assert ([c] + tail)[1..] == tail;
  }

  lemma {:induction false} SplitJoin(parts: seq<string>, sep: char)
    requires |parts| >= 1
    requires forall i :: 0 <= i < |parts| ==> sep !in parts[i]
    ensures Split(Join(parts, sep), sep) == parts
  {
    if |parts| == 1 {
      SplitAfterHead(parts[0], [], sep);
      assert parts[0] + [] == parts[0] && Split([], sep) == [""];
      assert parts == [parts[0]];
    } else {
      var tail := Join(parts[1..], sep);
      SplitJoin(parts[1..], sep);
      assert parts[0] + [sep] + tail == parts[0] + ([sep] + tail);
      SplitAfterHead(parts[0], [sep] + tail, sep);
      var after := [sep] + tail;
      assert after[0] == sep && after[1..] == tail;
      assert Split(after, sep) == [""] + parts[1..];
      assert parts[0] + "" == parts[0];
      assert parts == [parts[0]] + parts[1..];
    }
  }

  function DigitChar(d: nat): char
    requires d < 10
  {
    ('0' as int + d) as char
  }

  predicate IsDigits(s: string) {
    forall i :: 0 <= i < |s| ==> '0' <= s[i] <= '9'
  }

  /** The decimal text a template literal gives a non-negative integer. */
  function Decimal(n: nat): (s: string)
    ensures |s| >= 1 && IsDigits(s)
    ensures |s| == 1 || s[0] != '0'
  {
    if n < 10 then [DigitChar(n)] else Decimal(n / 10) + [DigitChar(n % 10)]
  }

  function DecimalValue(s: string): nat
    requires IsDigits(s)
  {
    if s == [] then 0 else DecimalValue(s[..|s| - 1]) * 10 + (s[|s| - 1] as int - '0' as int)
  }

  lemma {:induction false} DecimalRoundTrip(n: nat)
    ensures DecimalValue(Decimal(n)) == n
  {
    if n >= 10 {
      var s := Decimal(n);
      assert s[..|s| - 1] == Decimal(n / 10);
      DecimalRoundTrip(n / 10);
    }
  }

  /** a sorts no later than b in the order sort() uses: character by character,
      a proper prefix first. */
  predicate Below(a: string, b: string)
    decreases |a|
  {
    a == [] || (b != [] && (a[0] < b[0] || (a[0] == b[0] && Below(a[1..], b[1..]))))
  }

  lemma {:induction false} BelowReflexive(a: string)
    ensures Below(a, a)
  {
    if a != [] {
      BelowReflexive(a[1..]);
    }
  }

  lemma {:induction false} BelowTotal(a: string, b: string)
    ensures Below(a, b) || Below(b, a)
    decreases |a|
  {
    if a != [] && b != [] && a[0] == b[0] {
      BelowTotal(a[1..], b[1..]);
    }
  }

  lemma {:induction false} BelowAntisymmetric(a: string, b: string)
    requires Below(a, b) && Below(b, a)
    ensures a == b
    decreases |a|
  {
    if a != [] {
      BelowAntisymmetric(a[1..], b[1..]);
      assert a == [a[0]] + a[1..] && b == [b[0]] + b[1..];
    }
  }

  lemma {:induction false} BelowTransitive(a: string, b: string, c: string)
    requires Below(a, b) && Below(b, c)
    ensures Below(a, c)
    decreases |a|
  {
    if a != [] && a[0] == b[0] && b[0] == c[0] {
      BelowTransitive(a[1..], b[1..], c[1..]);
    }
  }
}
