/** The attribute lists that the recogniser accepts, as a grammar (instance.go). */
module DoctypeAttributes {
  import opened Wrappers
  import opened DoctypeModels
  import opened DoctypeDeclarations
  import opened DoctypeGrammar
  import opened DoctypeValues

  // ----- the grammar, after sections 3.3 to 3.3.2 of XML 1.0

  /** A later token of a list, with the space before and after its bar. */
  datatype Item = Item(before: string, after: string, token: string)

  datatype TokenList = TokenList(open: string, first: string, more: seq<Item>, close: string)

  datatype AttType =
    | Keyword(word: string)
    | NotationType(space: string, names: TokenList)
    | Enumeration(tokens: TokenList)

  datatype Default = Required | Implied | Fixed(space: string, value: string) | Value(value: string)

  /** An attribute, with the space before it, its type and its default. */
  datatype Attribute = Attribute(before: string, name: string, beforeType: string, attType: AttType,
    beforeDefault: string, default: Default)

  datatype Attlist = Attlist(name: string, attributes: seq<Attribute>, close: string)

  function SpellItems(items: seq<Item>, tail: string): string {
    if items == [] then tail
    else Then(items[0].before, Then("|", Then(items[0].after, Then(items[0].token, SpellItems(items[1..], tail)))))
  }

  function SpellList(list: TokenList, tail: string): string {
    Then("(", Then(list.open, Then(list.first, SpellItems(list.more, Then(list.close, Then(")", tail))))))
  }

  function SpellType(t: AttType, tail: string): string {
    match t
    case Keyword(word) => Then(word, tail)
    case NotationType(space, names) => Then("NOTATION", Then(space, SpellList(names, tail)))
    case Enumeration(tokens) => SpellList(tokens, tail)
  }

  function SpellDefault(d: Default, tail: string): string {
    match d
    case Required => Then("#REQUIRED", tail)
    case Implied => Then("#IMPLIED", tail)
    case Fixed(space, value) => Then("#FIXED", Then(space, Then(value, tail)))
    case Value(value) => Then(value, tail)
  }

  function SpellAttribute(a: Attribute, tail: string): string {
    Then(a.before, Then(a.name, Then(a.beforeType, SpellType(a.attType, Then(a.beforeDefault,
      SpellDefault(a.default, tail))))))
  }

  function SpellAttributes(attributes: seq<Attribute>, tail: string): string {
    if attributes == [] then tail else SpellAttribute(attributes[0], SpellAttributes(attributes[1..], tail))
  }

  function SpellAttlist(a: Attlist, tail: string): string {
    Then(a.name, SpellAttributes(a.attributes, Then(a.close, Then(">", tail))))
  }

  predicate WellFormedToken(token: string, names: bool) {
    if names then ValidNCName(token) else IsNmtoken(token)
  }

  predicate WellFormedItem(item: Item, names: bool) {
    AllSpace(item.before) && AllSpace(item.after) && WellFormedToken(item.token, names)
  }

  predicate WellFormedList(list: TokenList, names: bool) {
    && AllSpace(list.open) && WellFormedToken(list.first, names) && AllSpace(list.close)
    && forall i :: 0 <= i < |list.more| ==> WellFormedItem(list.more[i], names)
  }

  predicate Spaces(space: string) {
    space != "" && AllSpace(space)
  }

  predicate WellFormedType(t: AttType) {
    match t
    case Keyword(word) =>
      || word == "CDATA" || word == "ID" || word == "IDREF" || word == "IDREFS" || word == "ENTITY"
      || word == "ENTITIES" || word == "NMTOKEN" || word == "NMTOKENS"
    case NotationType(space, names) => Spaces(space) && WellFormedList(names, true)
    case Enumeration(tokens) => WellFormedList(tokens, false)
  }

  ghost predicate WellFormedDefault(d: Default) {
    match d
    case Fixed(space, value) => Spaces(space) && IsAttributeValue(value)
    case Value(value) => IsAttributeValue(value)
    case _ => true
  }

  ghost predicate WellFormedAttribute(a: Attribute) {
    && Spaces(a.before) && ValidXMLName(a.name) && Spaces(a.beforeType) && WellFormedType(a.attType)
    && Spaces(a.beforeDefault) && WellFormedDefault(a.default)
  }

  ghost predicate WellFormedAttlist(a: Attlist) {
    && ValidXMLName(a.name) && AllSpace(a.close)
    && forall i :: 0 <= i < |a.attributes| ==> WellFormedAttribute(a.attributes[i])
  }

  /** The text after a keyword: nothing, space, or the end of the declaration. */
  predicate Ends(text: string) {
    text == "" || IsSpace(text[0]) || text[0] == '>'
  }

  // ----- lists

  lemma SpaceStarts(space: string, rest: string)
    requires Spaces(space)
    ensures Then(space, rest) != "" && IsSpace(Then(space, rest)[0]) && Ends(Then(space, rest))
    ensures NoTokenFirst(Then(space, rest))
  {
    SpaceEndsName(space, rest);
    assert Then(space, rest)[0] == space[0];
  }

  lemma TokenStarts(token: string, names: bool, rest: string)
    requires WellFormedToken(token, names)
    ensures Then(token, rest) != "" && IsTokenChar(Then(token, rest)[0]) && NoSpaceFirst(Then(token, rest))
  {
    if names {
      NCNamesAreTokens(token);
    }
    assert Then(token, rest)[0] == token[0] && token[0] in token;
    NotSpace(token[0]);
  }

  lemma ItemsDelimited(items: seq<Item>, names: bool, close: string, rest: string)
    requires (forall i :: 0 <= i < |items| ==> WellFormedItem(items[i], names)) && AllSpace(close)
    ensures Delimited(SpellItems(items, Then(close, Then(")", rest))))
    ensures NoTokenFirst(SpellItems(items, Then(close, Then(")", rest))))
  {
    hide WellFormedToken, Then;
    if items == [] {
      DelimitedSpace(close, ")", rest);
    } else {
      assert WellFormedItem(items[0], names);
      DelimitedSpace(items[0].before, "|",
        Then(items[0].after, Then(items[0].token, SpellItems(items[1..], Then(close, Then(")", rest))))));
    }
    DelimitedEnds(SpellItems(items, Then(close, Then(")", rest))));
  }

  lemma PlainMarks()
    ensures !IsSpace('|') && !IsSpace(')') && !IsSpace('>') && !IsSpace('(')
  {
  }

  lemma ItemAt(body: string, i: nat, item: Item, names: bool, tail: string)
    requires WellFormedItem(item, names) && NoTokenFirst(tail)
    requires From(body, i, Then(item.before, Then("|", Then(item.after, Then(item.token, tail)))))
    ensures i <= |body|
    ensures var bar := SkipSpace(body, i);
      && bar < |body| && body[bar] == '|'
      && var end := ListTokenEnd(body, SkipSpace(body, bar + 1), names);
         end.Some? && From(body, end.value, tail)
  {
    PlainMarks();
    hide WellFormedToken, IsTokenChar, ListTokenEnd, SkipSpace, AllSpace, From, Then, NoSpaceFirst, NoTokenFirst,
      IsSpace;
    SpaceCharAt(body, i, item.before, "|", Then(item.after, Then(item.token, tail)));
    var start := SkipSpace(body, i) + 1;
    TokenStarts(item.token, names, tail);
    SpaceAt(body, start, item.after, Then(item.token, tail));
    TokenAtText(body, start + |item.after|, item.token, names, tail);
  }

  lemma TokenAtText(body: string, i: nat, token: string, names: bool, rest: string)
    requires From(body, i, Then(token, rest)) && NoTokenFirst(rest) && WellFormedToken(token, names)
    ensures i <= |body| && ListTokenEnd(body, i, names) == Some(i + |token|) && From(body, i + |token|, rest)
  {
    ListTokenAt(body, i, token, names, rest);
  }

  lemma {:induction false} ItemsAt(body: string, i: nat, items: seq<Item>, names: bool, close: string, rest: string)
    requires (forall k :: 0 <= k < |items| ==> WellFormedItem(items[k], names)) && AllSpace(close)
    requires From(body, i, SpellItems(items, Then(close, Then(")", rest))))
    ensures i <= |body|
    ensures ListRestEnd(body, i, names).Some? && From(body, ListRestEnd(body, i, names).value, rest)
    decreases |items|
  {
    hide ListTokenEnd, SkipSpace, WellFormedItem, AllSpace, Delimited, NoTokenFirst, From, Then;
    if items == [] {
      PlainMarks();
      SpaceCharAt(body, i, close, ")", rest);
    } else {
      ItemsDelimited(items[1..], names, close, rest);
      ItemAt(body, i, items[0], names, SpellItems(items[1..], Then(close, Then(")", rest))));
      var next := ListTokenEnd(body, SkipSpace(body, SkipSpace(body, i) + 1), names).value;
      ItemsAt(body, next, items[1..], names, close, rest);
    }
  }

  lemma ListAt(body: string, i: nat, list: TokenList, names: bool, rest: string)
    requires WellFormedList(list, names) && From(body, i, SpellList(list, rest))
    ensures i < |body| && body[i] == '(' && ListEnd(body, i, names).Some? &&
      From(body, ListEnd(body, i, names).value, rest)
  {
    hide ListTokenEnd, ListRestEnd, SkipSpace, WellFormedItem, WellFormedToken, AllSpace, NoTokenFirst, NoSpaceFirst,
      From, Then, SpellItems;
    var items := SpellItems(list.more, Then(list.close, Then(")", rest)));
    CharAt(body, i, "(", Then(list.open, Then(list.first, items)));
    TokenStarts(list.first, names, items);
    SpaceAt(body, i + 1, list.open, Then(list.first, items));
    ItemsDelimited(list.more, names, list.close, rest);
    TokenAtText(body, i + 1 + |list.open|, list.first, names, items);
    ItemsAt(body, i + 1 + |list.open| + |list.first|, list.more, names, list.close, rest);
  }

  lemma ItemFound(body: string, i: nat, names: bool, bar: nat, next: nat) returns (item: Item)
    requires i <= bar < |body| && bar == SkipSpace(body, i) && body[bar] == '|'
    requires ListTokenEnd(body, SkipSpace(body, bar + 1), names) == Some(next)
    ensures WellFormedItem(item, names)
    ensures body[i..] == Then(item.before, Then("|", Then(item.after, Then(item.token, body[next..]))))
  {
    hide ListTokenEnd, SkipSpace, AllSpace, Then;
    var k := SkipSpace(body, bar + 1);
    SpaceThenChar(body, i, bar);
    SpaceBefore(body, bar + 1);
    ListTokenFound(body, k, names);
    item := Item(body[i..bar], body[bar + 1..k], body[k..next]);
  }

  lemma SpellOneMoreItem(item: Item, more: seq<Item>, tail: string)
    ensures SpellItems([item] + more, tail) ==
      Then(item.before, Then("|", Then(item.after, Then(item.token, SpellItems(more, tail)))))
  {
    assert ([item] + more)[1..] == more;
  }

  lemma SpellNoItems(tail: string)
    ensures SpellItems([], tail) == tail
  {
  }

  lemma {:induction false} ItemsFound(body: string, i: nat, names: bool) returns (items: seq<Item>, close: string)
    requires i <= |body| && ListRestEnd(body, i, names).Some?
    ensures AllSpace(close) && forall k :: 0 <= k < |items| ==> WellFormedItem(items[k], names)
    ensures body[i..] == SpellItems(items, Then(close, Then(")", body[ListRestEnd(body, i, names).value..])))
    decreases |body| - i
  {
    hide ListTokenEnd, SkipSpace, AllSpace, WellFormedItem, Then, SpellItems;
    var k := SkipSpace(body, i);
    if body[k] == ')' {
      SpaceThenChar(body, i, k);
      items, close := [], body[i..k];
      SpellNoItems(Then(close, Then(")", body[k + 1..])));
    } else {
      var next := ListTokenEnd(body, SkipSpace(body, k + 1), names).value;
      var item := ItemFound(body, i, names, k, next);
      var more, c := ItemsFound(body, next, names);
      items, close := [item] + more, c;
      SpellOneMoreItem(item, more, Then(c, Then(")", body[ListRestEnd(body, i, names).value..])));
    }
  }

  lemma ListFound(body: string, i: nat, names: bool) returns (list: TokenList)
    requires i <= |body| && ListEnd(body, i, names).Some?
    ensures WellFormedList(list, names) && body[i..] == SpellList(list, body[ListEnd(body, i, names).value..])
  {
    hide ListTokenEnd, ListRestEnd, SkipSpace, AllSpace, WellFormedItem, Then, SpellItems;
    var k := SkipSpace(body, i + 1);
    var first := ListTokenEnd(body, k, names).value;
    FirstCharText(body, i);
    SpaceBefore(body, i + 1);
    ListTokenFound(body, k, names);
    var more, close := ItemsFound(body, first, names);
    list := TokenList(body[i + 1..k], body[k..first], more, close);
  }

  // ----- type keywords

  predicate UpperCase(word: string) {
    forall c <- word :: 'A' <= c <= 'Z'
  }

  lemma TypesAreKeywords(word: string)
    ensures word in TYPES <==> WellFormedType(Keyword(word))
    ensures word in TYPES ==> word != "" && UpperCase(word)
  {
    if word in TYPES {
      var k :| 0 <= k < |TYPES| && TYPES[k] == word;
    }
    assert TYPES[0] == "CDATA" && TYPES[1] == "ID" && TYPES[2] == "IDREF" && TYPES[3] == "IDREFS" &&
      TYPES[4] == "ENTITY" && TYPES[5] == "ENTITIES" && TYPES[6] == "NMTOKEN" && TYPES[7] == "NMTOKENS";
  }

  lemma LetterGoesOn(body: string, i: nat, word: string, k: nat)
    requires StartsAt(body, i, word) && UpperCase(word) && k < |word|
    ensures i + k <= |body| && KeywordEnd(body, i + k).None?
  {
    assert body[i..i + |word|][k] == body[i + k] && word[k] in word;
  }

  lemma OneKeyword(body: string, i: nat, one: string, other: string)
    requires StartsAt(body, i, one) && StartsAt(body, i, other) && UpperCase(one) && UpperCase(other)
    requires i + |one| <= |body| && i + |other| <= |body|
    requires KeywordEnd(body, i + |one|).Some? && KeywordEnd(body, i + |other|).Some?
    ensures |one| == |other|
  {
    hide KeywordEnd, UpperCase;
    if |one| < |other| {
      LetterGoesOn(body, i, other, |one|);
    } else if |other| < |one| {
      LetterGoesOn(body, i, one, |other|);
    }
  }

  lemma {:induction false} KeywordFound(body: string, i: nat, words: seq<string>) returns (word: string)
    requires i <= |body| && KeywordOf(body, i, words).Some?
    ensures word in words && StartsAt(body, i, word) && KeywordOf(body, i, words) == Some(i + |word|)
    ensures KeywordEnd(body, i + |word|).Some?
  {
    hide KeywordEnd;
    if StartsAt(body, i, words[0]) && KeywordEnd(body, i + |words[0]|).Some? {
      word := words[0];
    } else {
      word := KeywordFound(body, i, words[1..]);
    }
  }

  lemma {:induction false} KeywordExists(body: string, i: nat, words: seq<string>, word: string)
    requires i <= |body| && word in words && StartsAt(body, i, word) && KeywordEnd(body, i + |word|).Some?
    ensures KeywordOf(body, i, words).Some?
  {
    hide StartsAt, KeywordEnd;
    if word != words[0] {
      KeywordExists(body, i, words[1..], word);
    }
  }

  lemma EndsKeyword(body: string, i: nat)
    requires i <= |body|
    ensures KeywordEnd(body, i).Some? <==> Ends(body[i..])
  {
  }

  lemma KeywordAt(body: string, i: nat, word: string, rest: string)
    requires WellFormedType(Keyword(word)) && From(body, i, Then(word, rest)) && Ends(rest)
    ensures i <= |body| && AttTypeEnd(body, i) == Some(i + |word|) && From(body, i + |word|, rest)
  {
    TypesAreKeywords(word);
    PieceAt(body, i, word, rest);
    EndsKeyword(body, i + |word|);
    hide WellFormedType, Then, Ends, StartsAt, KeywordEnd, UpperCase;
    KeywordExists(body, i, TYPES, word);
    var found := KeywordFound(body, i, TYPES);
    TypesAreKeywords(found);
    OneKeyword(body, i, word, found);
  }

  /** No type keyword starts with an opening parenthesis, or like NOTATION. */
  lemma NoKeyword(body: string, i: nat)
    requires i < |body| && (body[i] == '(' || StartsAt(body, i, "NOTATION"))
    ensures KeywordOf(body, i, TYPES).None?
  {
    hide KeywordOf, KeywordEnd;
    LettersStand(body, i, "NOTATION");
    if KeywordOf(body, i, TYPES).Some? {
      var word := KeywordFound(body, i, TYPES);
      FirstLetters(word);
      LettersStand(body, i, word);
    }
  }

  lemma FirstLetters(word: string)
    requires word in TYPES
    ensures |word| >= 2 && word[0] != '(' && (word[0] != 'N' || word[1] != 'O')
  {
    TypesAreKeywords(word);
  }

  lemma LettersStand(body: string, i: nat, word: string)
    requires |word| >= 2
    ensures StartsAt(body, i, word) ==> i + |word| <= |body| && body[i] == word[0] && body[i + 1] == word[1]
  {
    if StartsAt(body, i, word) {
      assert body[i..i + |word|][0] == body[i] && body[i..i + |word|][1] == body[i + 1];
    }
  }

  // ----- types

  lemma TypeAt(body: string, i: nat, t: AttType, tail: string)
    requires WellFormedType(t) && From(body, i, SpellType(t, tail)) && (t.Keyword? ==> Ends(tail))
    ensures i <= |body|
    ensures AttTypeEnd(body, i).Some? && From(body, AttTypeEnd(body, i).value, tail)
  {
    hide KeywordOf, ListEnd, SkipSpace, AllSpace, WellFormedList, SpellList, From, Then, Ends, AttTypeEnd;
    match t
    case Keyword(word) =>
      KeywordAt(body, i, word, tail);
    case NotationType(space, names) =>
      NotationTypeAt(body, i, space, names, tail);
    case Enumeration(tokens) =>
      EnumerationAt(body, i, tokens, tail);
  }

  lemma EnumerationAt(body: string, i: nat, tokens: TokenList, tail: string)
    requires WellFormedList(tokens, false) && From(body, i, SpellList(tokens, tail))
    ensures i <= |body|
    ensures AttTypeEnd(body, i).Some? && From(body, AttTypeEnd(body, i).value, tail)
  {
    hide KeywordOf, ListEnd, SkipSpace, WellFormedList, SpellList, From;
    ListAt(body, i, tokens, false, tail);
    NoKeyword(body, i);
    LettersStand(body, i, "NOTATION");
  }

  lemma NotationTypeAt(body: string, i: nat, space: string, names: TokenList, tail: string)
    requires Spaces(space) && WellFormedList(names, true)
    requires From(body, i, Then("NOTATION", Then(space, SpellList(names, tail))))
    ensures i <= |body|
    ensures AttTypeEnd(body, i).Some? && From(body, AttTypeEnd(body, i).value, tail)
  {
    hide KeywordOf, ListEnd, SkipSpace, AllSpace, WellFormedList, From, Then, NoSpaceFirst, StartsAt;
    ListStarts(names, tail);
    PieceAt(body, i, "NOTATION", Then(space, SpellList(names, tail)));
    InBody(body, i, Then("NOTATION", Then(space, SpellList(names, tail))));
    NotationLetters(body, i);
    NoKeyword(body, i);
    SpaceAt(body, i + 8, space, SpellList(names, tail));
    ListAt(body, i + 8 + |space|, names, true, tail);
  }

  lemma NotationLetters(body: string, i: nat)
    requires StartsAt(body, i, "NOTATION")
    ensures i + 8 <= |body|
  {
  }

  lemma ListStarts(list: TokenList, tail: string)
    ensures SpellList(list, tail) != "" && SpellList(list, tail)[0] == '(' && NoSpaceFirst(SpellList(list, tail))
  {
    hide SpellItems;
  }

  lemma TypeFound(body: string, i: nat) returns (t: AttType)
    requires i <= |body| && AttTypeEnd(body, i).Some?
    ensures WellFormedType(t) && body[i..] == SpellType(t, body[AttTypeEnd(body, i).value..])
    ensures t.Keyword? ==> Ends(body[AttTypeEnd(body, i).value..])
  {
    hide KeywordOf, ListEnd, SkipSpace, AllSpace, WellFormedList, SpellList, KeywordEnd;
    if KeywordOf(body, i, TYPES).Some? {
      var word := KeywordFound(body, i, TYPES);
      TypesAreKeywords(word);
      PieceText(body, i, word);
      EndsKeyword(body, i + |word|);
      t := Keyword(word);
    } else if StartsAt(body, i, "NOTATION") {
      var k := SkipSpace(body, i + 8);
      PieceText(body, i, "NOTATION");
      SpaceBefore(body, i + 8);
      var names := ListFound(body, k, true);
      t := NotationType(body[i + 8..k], names);
    } else {
      var tokens := ListFound(body, i, false);
      t := Enumeration(tokens);
    }
  }

  /** Types are accepted exactly as spelled; a keyword has to end there. */
  lemma TypesAreExactlyTheGrammar(body: string, i: nat, j: nat)
    requires i <= |body|
    ensures AttTypeEnd(body, i) == Some(j) <==>
      j <= |body| && exists t ::
        WellFormedType(t) && body[i..] == SpellType(t, body[j..]) && (t.Keyword? ==> Ends(body[j..]))
  {
    hide AttTypeEnd, WellFormedType, SpellType, Ends;
    if AttTypeEnd(body, i) == Some(j) {
      var t := TypeFound(body, i);
    }
    if j <= |body| {
      forall t | WellFormedType(t) && body[i..] == SpellType(t, body[j..]) && (t.Keyword? ==> Ends(body[j..]))
        ensures AttTypeEnd(body, i) == Some(j)
      {
        TypeAt(body, i, t, body[j..]);
        SameRest(body, AttTypeEnd(body, i).value, j);
      }
    }
  }

  lemma SameRest(body: string, i: nat, j: nat)
    requires j <= |body| && From(body, i, body[j..])
    ensures i == j
  {
    assert |body[i..]| == |body[j..]|;
  }

  // ----- defaults

  /** A keyword has to end where it ends; a value ends itself. */
  predicate EndsDefault(d: Default, rest: string) {
    d.Required? || d.Implied? ==> Ends(rest)
  }

  lemma HashWords(body: string, i: nat)
    requires i <= |body|
    ensures StartsAt(body, i, "#REQUIRED") || StartsAt(body, i, "#IMPLIED") || StartsAt(body, i, "#FIXED") ==>
      i < |body| && body[i] == '#'
    ensures StartsAt(body, i, "#REQUIRED") ==> !StartsAt(body, i, "#IMPLIED") && !StartsAt(body, i, "#FIXED")
    ensures StartsAt(body, i, "#IMPLIED") ==> !StartsAt(body, i, "#FIXED")
  {
    LettersStand(body, i, "#REQUIRED");
    LettersStand(body, i, "#IMPLIED");
    LettersStand(body, i, "#FIXED");
  }

  lemma ValueStarts(value: string, rest: string)
    requires IsAttributeValue(value)
    ensures Then(value, rest) != "" && IsQuote(Then(value, rest)[0]) && NoSpaceFirst(Then(value, rest))
  {
    NotEmpty(value);
    hide IsAttributeValue;
    assert Then(value, rest)[0] == value[0];
  }

  lemma DefaultKeywordAt(body: string, i: nat, word: string, rest: string)
    requires word == "#REQUIRED" || word == "#IMPLIED"
    requires From(body, i, Then(word, rest)) && Ends(rest)
    ensures i <= |body| && DefaultEnd(body, i) == Some(i + |word|) && From(body, i + |word|, rest)
  {
    PieceAt(body, i, word, rest);
    EndsKeyword(body, i + |word|);
    HashWords(body, i);
    hide KeywordEnd, Ends, Then, AttributeValueEnd, SkipSpace;
  }

  lemma FixedAt(body: string, i: nat, space: string, value: string, rest: string)
    requires Spaces(space) && IsAttributeValue(value)
    requires From(body, i, Then("#FIXED", Then(space, Then(value, rest))))
    ensures i <= |body|
    ensures DefaultEnd(body, i).Some? && From(body, DefaultEnd(body, i).value, rest)
  {
    hide KeywordEnd, Then, AttributeValueEnd, SkipSpace, From, IsAttributeValue, NoSpaceFirst, AllSpace;
    PieceAt(body, i, "#FIXED", Then(space, Then(value, rest)));
    HashWords(body, i);
    ValueStarts(value, rest);
    InBody(body, i + 6, Then(space, Then(value, rest)));
    SpaceAt(body, i + 6, space, Then(value, rest));
    AttributeValueAt(body, i + 6 + |space|, value, rest);
  }

  lemma QuoteIsNotHash(c: char)
    requires IsQuote(c)
    ensures c != '#'
  {
  }

  lemma ValueAt(body: string, i: nat, value: string, rest: string)
    requires IsAttributeValue(value) && From(body, i, Then(value, rest))
    ensures i <= |body|
    ensures DefaultEnd(body, i).Some? && From(body, DefaultEnd(body, i).value, rest)
  {
    hide KeywordEnd, Then, AttributeValueEnd, SkipSpace, From, IsAttributeValue, NoSpaceFirst, StartsAt, IsQuote;
    ValueStarts(value, rest);
    InBody(body, i, Then(value, rest));
    QuoteIsNotHash(body[i]);
    AttributeValueAt(body, i, value, rest);
  }

  lemma DefaultAt(body: string, i: nat, d: Default, tail: string)
    requires WellFormedDefault(d) && From(body, i, SpellDefault(d, tail)) && EndsDefault(d, tail)
    ensures i <= |body|
    ensures DefaultEnd(body, i).Some? && From(body, DefaultEnd(body, i).value, tail)
  {
    hide DefaultEnd, Then, From, IsAttributeValue, Spaces, Ends;
    match d
    case Required => DefaultKeywordAt(body, i, "#REQUIRED", tail);
    case Implied => DefaultKeywordAt(body, i, "#IMPLIED", tail);
    case Fixed(space, value) => FixedAt(body, i, space, value, tail);
    case Value(value) => ValueAt(body, i, value, tail);
  }

  lemma AttributeValueFound(body: string, i: nat)
    requires i <= |body| && AttributeValueEnd(body, i).Some?
    ensures var j := AttributeValueEnd(body, i).value;
      IsAttributeValue(body[i..j]) && body[i..] == Then(body[i..j], body[j..])
  {
    var j := AttributeValueEnd(body, i).value;
    AttributeValueIs(body, i, j);
    SplitAt(body, i, j);
  }

  lemma DefaultFound(body: string, i: nat) returns (d: Default)
    requires i <= |body| && DefaultEnd(body, i).Some?
    ensures WellFormedDefault(d) && body[i..] == SpellDefault(d, body[DefaultEnd(body, i).value..])
    ensures EndsDefault(d, body[DefaultEnd(body, i).value..])
  {
    hide AttributeValueEnd, SkipSpace, KeywordEnd, IsAttributeValue, AllSpace, Then, Ends;
    if body[i] != '#' {
      AttributeValueFound(body, i);
      d := Value(body[i..AttributeValueEnd(body, i).value]);
    } else if StartsAt(body, i, "#REQUIRED") {
      PieceText(body, i, "#REQUIRED");
      EndsKeyword(body, i + 9);
      KeywordEndIs(body, i + 9);
      d := Required;
    } else if StartsAt(body, i, "#IMPLIED") {
      PieceText(body, i, "#IMPLIED");
      EndsKeyword(body, i + 8);
      KeywordEndIs(body, i + 8);
      d := Implied;
    } else {
      var k := SkipSpace(body, i + 6);
      PieceText(body, i, "#FIXED");
      SpaceBefore(body, i + 6);
      AttributeValueFound(body, k);
      d := Fixed(body[i + 6..k], body[k..AttributeValueEnd(body, k).value]);
    }
  }

  lemma KeywordEndIs(body: string, i: nat)
    requires i <= |body| && KeywordEnd(body, i).Some?
    ensures KeywordEnd(body, i) == Some(i)
  {
  }

  /** Defaults are accepted exactly as spelled; a keyword has to end there. */
  lemma DefaultsAreExactlyTheGrammar(body: string, i: nat, j: nat)
    requires i <= |body|
    ensures DefaultEnd(body, i) == Some(j) <==>
      j <= |body| && exists d ::
        WellFormedDefault(d) && body[i..] == SpellDefault(d, body[j..]) && EndsDefault(d, body[j..])
  {
    hide DefaultEnd, WellFormedDefault, SpellDefault, EndsDefault;
    if DefaultEnd(body, i) == Some(j) {
      var d := DefaultFound(body, i);
    }
    if j <= |body| {
      forall d | WellFormedDefault(d) && body[i..] == SpellDefault(d, body[j..]) && EndsDefault(d, body[j..])
        ensures DefaultEnd(body, i) == Some(j)
      {
        DefaultAt(body, i, d, body[j..]);
        SameRest(body, DefaultEnd(body, i).value, j);
      }
    }
  }

  // ----- attributes and their list

  lemma TypeStarts(t: AttType, tail: string)
    requires WellFormedType(t)
    ensures SpellType(t, tail) != "" && NoSpaceFirst(SpellType(t, tail))
  {
    hide WellFormedList;
    match t
    case Keyword(word) =>
      TypesAreKeywords(word);
      assert word[0] in word && Then(word, tail)[0] == word[0];
    case NotationType(space, names) =>
      assert SpellType(t, tail)[0] == "NOTATION"[0];
    case Enumeration(tokens) =>
      ListStarts(tokens, tail);
  }

  lemma DefaultStarts(d: Default, tail: string)
    requires WellFormedDefault(d)
    ensures SpellDefault(d, tail) != "" && NoSpaceFirst(SpellDefault(d, tail))
  {
    hide IsAttributeValue;
    match d
    case Required => assert SpellDefault(d, tail)[0] == '#';
    case Implied => assert SpellDefault(d, tail)[0] == '#';
    case Fixed(_, _) => assert SpellDefault(d, tail)[0] == '#';
    case Value(value) => ValueStarts(value, tail);
  }

  /** An attribute behind its space. */
  lemma AttributeAt(body: string, i: nat, a: Attribute, tail: string)
    requires WellFormedAttribute(a) && Ends(tail) && From(body, i, SpellAttribute(a, tail))
    ensures i <= |body| && SkipSpace(body, i) > i && SkipSpace(body, i) < |body| && body[SkipSpace(body, i)] != '>'
    ensures var end := AttributeEnd(body, SkipSpace(body, i)); end.Some? && From(body, end.value, tail)
  {
    hide ValidXMLName, IsTokenChar, QName, SkipSpace, AllSpace, From, Then, NoSpaceFirst, NoTokenFirst, AttTypeEnd,
      DefaultEnd, SpellType, SpellDefault, WellFormedType, WellFormedDefault, Ends, IsSpace;
    var default := SpellDefault(a.default, tail);
    var attType := SpellType(a.attType, Then(a.beforeDefault, default));
    var name := Then(a.name, Then(a.beforeType, attType));
    DefaultStarts(a.default, tail);
    TypeStarts(a.attType, Then(a.beforeDefault, default));
    NameStarts(a.name, Then(a.beforeType, attType));
    SpaceStarts(a.beforeType, attType);
    SpaceStarts(a.beforeDefault, default);
    InBody(body, i, Then(a.before, name));
    SpaceAt(body, i, a.before, name);
    var k := i + |a.before|;
    InBody(body, k, name);
    NotSpace(name[0]);
    NameAt(body, k, a.name, Then(a.beforeType, attType));
    var m := k + |a.name|;
    SpaceAt(body, m, a.beforeType, attType);
    TypeAt(body, m + |a.beforeType|, a.attType, Then(a.beforeDefault, default));
    var n := AttTypeEnd(body, m + |a.beforeType|).value;
    SpaceAt(body, n, a.beforeDefault, default);
    DefaultAt(body, n + |a.beforeDefault|, a.default, tail);
  }

  lemma AttributesEndText(attributes: seq<Attribute>, close: string, tail: string)
    requires (forall i :: 0 <= i < |attributes| ==> WellFormedAttribute(attributes[i])) && AllSpace(close)
    ensures Ends(SpellAttributes(attributes, Then(close, Then(">", tail))))
    ensures NoTokenFirst(SpellAttributes(attributes, Then(close, Then(">", tail))))
  {
    if attributes == [] {
      hide WellFormedAttribute;
      EndsDeclaration(close, tail);
      DelimitersEndNames(Then(close, Then(">", tail))[0]);
    } else {
      var a := attributes[0];
      assert WellFormedAttribute(a);
      hide WellFormedAttribute, SpellType, SpellDefault, Then;
      SpaceStarts(a.before, Then(a.name, Then(a.beforeType, SpellType(a.attType, Then(a.beforeDefault,
        SpellDefault(a.default, SpellAttributes(attributes[1..], Then(close, Then(">", tail)))))))));
    }
  }

  lemma {:induction false} AttributesAt(body: string, i: nat, attributes: seq<Attribute>, close: string, tail: string)
    requires (forall k :: 0 <= k < |attributes| ==> WellFormedAttribute(attributes[k])) && AllSpace(close)
    requires From(body, i, SpellAttributes(attributes, Then(close, Then(">", tail))))
    ensures i <= |body| && AttributesEnd(body, i).Some? && From(body, AttributesEnd(body, i).value, tail)
    decreases |attributes|
  {
    hide WellFormedAttribute, AttributeEnd, SkipSpace, From, Then, AllSpace, SpellAttribute, Ends, NoTokenFirst,
      IsSpace;
    if attributes == [] {
      PlainMarks();
      SpaceCharAt(body, i, close, ">", tail);
      SpaceTwice(body, i);
    } else {
      AttributesEndText(attributes[1..], close, tail);
      AttributeAt(body, i, attributes[0], SpellAttributes(attributes[1..], Then(close, Then(">", tail))));
      AttributesAt(body, AttributeEnd(body, SkipSpace(body, i)).value, attributes[1..], close, tail);
    }
  }

  lemma AttlistAt(body: string, i: nat, a: Attlist, tail: string)
    requires WellFormedAttlist(a) && From(body, i, SpellAttlist(a, tail))
    ensures i <= |body| && AttlistEnd(body, i).Some? && From(body, AttlistEnd(body, i).value, tail)
  {
    hide ValidXMLName, QName, AttributesEnd, WellFormedAttribute, SpellAttributes, From, Then, AllSpace, NoTokenFirst,
      Ends;
    var rest := SpellAttributes(a.attributes, Then(a.close, Then(">", tail)));
    AttributesEndText(a.attributes, a.close, tail);
    InBody(body, i, Then(a.name, rest));
    NameAt(body, i, a.name, rest);
    AttributesAt(body, i + |a.name|, a.attributes, a.close, tail);
  }

  lemma AttributeFound(body: string, i: nat) returns (a: Attribute)
    requires i <= |body| && SkipSpace(body, i) > i && AttributeEnd(body, SkipSpace(body, i)).Some?
    ensures WellFormedAttribute(a)
    ensures body[i..] == SpellAttribute(a, body[AttributeEnd(body, SkipSpace(body, i)).value..])
  {
    hide ValidXMLName, QName, SkipSpace, AllSpace, Then, AttTypeEnd, DefaultEnd, SpellType, SpellDefault,
      WellFormedType, WellFormedDefault, Ends, EndsDefault;
    var k := SkipSpace(body, i);
    var name := QName(body, k).value;
    var m := SkipSpace(body, name);
    var typeEnd := AttTypeEnd(body, m).value;
    var n := SkipSpace(body, typeEnd);
    SpaceBefore(body, i);
    QNameBefore(body, k);
    SpaceBefore(body, name);
    var attType := TypeFound(body, m);
    SpaceBefore(body, typeEnd);
    var default := DefaultFound(body, n);
    a := Attribute(body[i..k], body[k..name], body[name..m], attType, body[typeEnd..n], default);
  }

  lemma SpellOneMoreAttribute(a: Attribute, more: seq<Attribute>, tail: string)
    ensures SpellAttributes([a] + more, tail) == SpellAttribute(a, SpellAttributes(more, tail))
  {
    assert ([a] + more)[1..] == more;
  }

  lemma SpellNoAttributes(tail: string)
    ensures SpellAttributes([], tail) == tail
  {
  }

  lemma {:induction false} AttributesFound(body: string, i: nat) returns (attributes: seq<Attribute>, close: string)
    requires i <= |body| && AttributesEnd(body, i).Some?
    ensures AllSpace(close) && forall k :: 0 <= k < |attributes| ==> WellFormedAttribute(attributes[k])
    ensures body[i..] == SpellAttributes(attributes, Then(close, Then(">", body[AttributesEnd(body, i).value..])))
    decreases |body| - i
  {
    hide AttributeEnd, SkipSpace, AllSpace, WellFormedAttribute, Then, SpellAttributes, SpellAttribute;
    var k := SkipSpace(body, i);
    SpaceTwice(body, i);
    if k == i || k == |body| || body[k] == '>' {
      SpaceThenChar(body, i, k);
      attributes, close := [], body[i..k];
      SpellNoAttributes(Then(close, Then(">", body[k + 1..])));
    } else {
      var a := AttributeFound(body, i);
      var more, c := AttributesFound(body, AttributeEnd(body, k).value);
      attributes, close := [a] + more, c;
      SpellOneMoreAttribute(a, more, Then(c, Then(">", body[AttributesEnd(body, i).value..])));
    }
  }

  lemma AttlistFound(body: string, i: nat) returns (a: Attlist)
    requires i <= |body| && AttlistEnd(body, i).Some?
    ensures WellFormedAttlist(a) && body[i..] == SpellAttlist(a, body[AttlistEnd(body, i).value..])
  {
    hide ValidXMLName, QName, AttributesEnd, WellFormedAttribute, SpellAttributes, Then, AllSpace;
    QNameBefore(body, i);
    var name := QName(body, i).value;
    var attributes, close := AttributesFound(body, name);
    a := Attlist(body[i..name], attributes, close);
  }

  /** Between the keyword and the end, attribute lists are accepted exactly as the grammar spells them. */
  lemma AttlistsAreExactlyTheGrammar(body: string, i: nat, j: nat)
    requires i <= |body|
    ensures AttlistEnd(body, i) == Some(j) <==>
      j <= |body| && exists a :: WellFormedAttlist(a) && body[i..] == SpellAttlist(a, body[j..])
  {
    hide AttlistEnd, WellFormedAttlist, SpellAttlist;
    if AttlistEnd(body, i) == Some(j) {
      var a := AttlistFound(body, i);
    }
    if j <= |body| {
      forall a | WellFormedAttlist(a) && body[i..] == SpellAttlist(a, body[j..])
        ensures AttlistEnd(body, i) == Some(j)
      {
        AttlistAt(body, i, a, body[j..]);
        SameRest(body, AttlistEnd(body, i).value, j);
      }
    }
  }
}
