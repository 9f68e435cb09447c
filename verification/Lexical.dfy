/** Scanning pieces shared by the decimal datatypes: whitespace collapse and digit splitting (datatype.go). */
module Lexical {
  import opened Wrappers
  import opened DecimalText

  // ----- whitespace collapse

  predicate IsXMLWhitespace(c: char) {
    c == ' ' || c == '\t' || c == '\n' || c == '\r'
  }

  predicate NoWhitespace(s: string) {
    forall i :: 0 <= i < |s| ==> !IsXMLWhitespace(s[i])
  }

  predicate IsWord(s: string) {
    s != "" && NoWhitespace(s)
  }

  /** True when the last character of `s` belongs to a word. */
  predicate EndsInWord(s: string) {
    s != "" && !IsXMLWhitespace(s[|s| - 1])
  }

  /** The maximal whitespace-free pieces of `s`, in order. */
  function Words(s: string): (words: seq<string>)
    ensures forall i :: 0 <= i < |words| ==> IsWord(words[i])
    ensures EndsInWord(s) ==> words != []
  {
    if s == "" then []
    else
      var front, last := s[..|s| - 1], s[|s| - 1];
      var words := Words(front);
      if IsXMLWhitespace(last) then words
      else if EndsInWord(front) then words[..|words| - 1] + [words[|words| - 1] + [last]]
      else words + [[last]]
  }

  function Join(words: seq<string>): string {
    if |words| == 0 then ""
    else if |words| == 1 then words[0]
    else Join(words[..|words| - 1]) + " " + words[|words| - 1]
  }

  /** XML whitespace collapse: the words of the text, one space apart. */
  function Collapse(s: string): string {
    Join(Words(s))
  }

  lemma {:induction false} JoinEndsInWord(words: seq<string>)
    requires forall i :: 0 <= i < |words| ==> IsWord(words[i])
    ensures words == [] <==> Join(words) == ""
    ensures words != [] ==> EndsInWord(Join(words))
  {
    if words != [] {
      assert IsWord(words[|words| - 1]);
    }
  }

  lemma JoinExtendLast(words: seq<string>, c: char)
    requires words != []
    ensures Join(words[..|words| - 1] + [words[|words| - 1] + [c]]) == Join(words) + [c]
  {
    var extended := words[..|words| - 1] + [words[|words| - 1] + [c]];
    assert extended[..|words| - 1] == words[..|words| - 1];
    if |words| > 1 {
      var head := Join(words[..|words| - 1]) + " ";
      assert head + (words[|words| - 1] + [c]) == head + words[|words| - 1] + [c];
    }
  }

  lemma JoinAppend(words: seq<string>, word: string)
    ensures Join(words + [word]) == if words == [] then word else Join(words) + " " + word
  {
    assert (words + [word])[..|words|] == words;
  }

  method CollapseXMLWhitespace(input: string) returns (output: string)
    ensures output == Collapse(input)
  {
    output := "";
    var pendingSpace := false;
    for index := 0 to |input|
      invariant output == Collapse(input[..index])
      invariant pendingSpace <==> output != "" && !EndsInWord(input[..index])
    {
      ghost var before, after := input[..index], input[..index + 1];
      assert after[..index] == before;
      JoinEndsInWord(Words(before));
      JoinEndsInWord(Words(after));
      if IsXMLWhitespace(input[index]) {
        if |output| > 0 {
          pendingSpace := true;
        }
        continue;
      }
      if EndsInWord(before) {
        JoinExtendLast(Words(before), input[index]);
      } else {
        JoinAppend(Words(before), [input[index]]);
      }
      if pendingSpace {
        output := output + " ";
        pendingSpace := false;
      }
      output := output + [input[index]];
    }
    assert input[..|input|] == input;
  }

  lemma {:induction false} WordsOfWord(s: string)
    requires IsWord(s)
    ensures Words(s) == [s]
  {
    var front := s[..|s| - 1];
    if front != "" {
      WordsOfWord(front);
      assert front + [s[|s| - 1]] == s;
    } else {
      assert s == [s[0]];
    }
  }

  lemma CollapseKeepsWord(s: string)
    requires NoWhitespace(s)
    ensures Collapse(s) == s
  {
    if s != "" {
      WordsOfWord(s);
    }
  }

  /** The words of a text followed by a space and one more word. */
  lemma {:induction false} WordsAppend(s: string, word: string)
    requires IsWord(word)
    ensures Words(s + " " + word) == Words(s) + [word]
    decreases |word|
  {
    var t := s + " " + word;
    var front, shorter := t[..|t| - 1], word[..|word| - 1];
    assert front == s + " " + shorter;
    if shorter == "" {
      assert front == s + " ";
      assert front[..|s|] == s;
      assert word == [word[0]];
    } else {
      WordsAppend(s, shorter);
      assert shorter + [word[|word| - 1]] == word;
    }
  }

  lemma {:induction false} WordsOfJoin(words: seq<string>)
    requires forall i :: 0 <= i < |words| ==> IsWord(words[i])
    ensures Words(Join(words)) == words
  {
    hide Words;
    if words != [] {
      var front, last := words[..|words| - 1], words[|words| - 1];
      assert words == front + [last];
      assert IsWord(last);
      JoinAppend(front, last);
      if front == [] {
        WordsOfWord(last);
      } else {
        WordsOfJoin(front);
        WordsAppend(Join(front), last);
      }
    } else {
      WordsOfNothing();
    }
  }

  lemma WordsOfNothing()
    ensures Words("") == []
  {
  }

  /** Collapsing twice changes nothing more, and keeps the words. */
  lemma CollapseIsIdempotent(s: string)
    ensures Words(Collapse(s)) == Words(s)
    ensures Collapse(Collapse(s)) == Collapse(s)
  {
    WordsOfJoin(Words(s));
  }

  // ----- digits and the decimal point

  /** The first position holding a character of `wanted`, or the length. */
  function IndexAny(s: string, wanted: set<char>): (i: nat)
    ensures i <= |s|
    ensures forall j :: 0 <= j < i ==> s[j] !in wanted
    ensures i < |s| ==> s[i] in wanted
  {
    if s == "" || s[0] in wanted then 0 else 1 + IndexAny(s[1..], wanted)
  }

  predicate AllASCIIDigits(s: string) {
    s != "" && AllDigits(s)
  }

  datatype Split = Split(integerDigits: string, fractionDigits: string, hasPoint: bool)

  function SplitDecimalDigits(numeral: string): Option<Split> {
    var point := IndexAny(numeral, {'.'});
    if point == |numeral| then
      if AllASCIIDigits(numeral) then Some(Split(numeral, "", false)) else None
    else
      var integerDigits, fractionDigits := numeral[..point], numeral[point + 1..];
      if IndexAny(fractionDigits, {'.'}) < |fractionDigits| then None
      else if integerDigits == "" && fractionDigits == "" then None
      else if integerDigits != "" && !AllASCIIDigits(integerDigits) then None
      else if fractionDigits != "" && !AllASCIIDigits(fractionDigits) then None
      else Some(Split(integerDigits, fractionDigits, true))
  }

  /** A number's digits with an optional point. */
  function DigitsText(split: Split): string {
    split.integerDigits + (if split.hasPoint then "." else "") + split.fractionDigits
  }

  predicate WellFormedSplit(split: Split) {
    && AllDigits(split.integerDigits) && AllDigits(split.fractionDigits)
    && split.integerDigits + split.fractionDigits != ""
    && (!split.hasPoint ==> split.fractionDigits == "")
  }

  lemma DigitIsNotPoint(s: string)
    requires AllDigits(s)
    ensures IndexAny(s, {'.'}) == |s|
  {
    assert forall i :: 0 <= i < |s| ==> s[i] != '.';
  }

  /** Splitting accepts exactly the digit strings with at most one point and at least one digit. */
  lemma SplitOfText(split: Split)
    requires WellFormedSplit(split)
    ensures SplitDecimalDigits(DigitsText(split)) == Some(split)
  {
    var numeral := DigitsText(split);
    var point := IndexAny(numeral, {'.'});
    if split.hasPoint {
      assert numeral[|split.integerDigits|] == '.';
      assert forall i :: 0 <= i < |split.integerDigits| ==> numeral[i] == split.integerDigits[i] != '.';
      assert numeral[..point] == split.integerDigits;
      assert numeral[point + 1..] == split.fractionDigits;
      DigitIsNotPoint(split.fractionDigits);
    } else {
      assert numeral == split.integerDigits;
      DigitIsNotPoint(numeral);
    }
  }

  lemma TextOfSplit(numeral: string)
    requires SplitDecimalDigits(numeral).Some?
    ensures WellFormedSplit(SplitDecimalDigits(numeral).value)
    ensures DigitsText(SplitDecimalDigits(numeral).value) == numeral
  {
  }
}
