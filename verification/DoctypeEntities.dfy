/** The entity and notation declarations that the recogniser accepts, as a grammar (instance.go). */
module DoctypeEntities {
  import opened Wrappers
  import opened DoctypeModels
  import opened DoctypeDeclarations
  import opened DoctypeGrammar
  import opened DoctypeValues
  import opened DoctypeAttributes

  // ----- the grammar, after sections 4.2 and 4.7 of XML 1.0

  datatype ExternalID =
    | SystemID(space: string, system: string)
    | PublicID(space: string, pubid: string, between: string, system: string)

  /** The notation of an unparsed entity. */
  datatype Data = Data(before: string, after: string, notation: string)

  datatype Definition = Internal(value: string) | External(id: ExternalID, data: Option<Data>)

  /** An entity; a parameter entity has a percent sign and space before its name. */
  datatype Entity = Entity(parameter: Option<string>, name: string, space: string, definition: Definition,
    close: string)

  datatype NotationID = Identified(id: ExternalID) | PublicOnly(space: string, pubid: string)

  datatype NotationDecl = NotationDecl(name: string, space: string, id: NotationID, close: string)

  function SpellExternal(id: ExternalID, tail: string): string {
    match id
    case SystemID(space, system) => Then("SYSTEM", Then(space, Then(system, tail)))
    case PublicID(space, pubid, between, system) =>
      Then("PUBLIC", Then(space, Then(pubid, Then(between, Then(system, tail)))))
  }

  function SpellData(data: Option<Data>, tail: string): string {
    if data.None? then tail
    else Then(data.value.before, Then("NDATA", Then(data.value.after, Then(data.value.notation, tail))))
  }

  function SpellDefinition(d: Definition, tail: string): string {
    match d
    case Internal(value) => Then(value, tail)
    case External(id, data) => SpellExternal(id, SpellData(data, tail))
  }

  function SpellNamed(e: Entity, tail: string): string {
    Then(e.name, Then(e.space, SpellDefinition(e.definition, Then(e.close, Then(">", tail)))))
  }

  function SpellEntity(e: Entity, tail: string): string {
    if e.parameter.Some? then Then("%", Then(e.parameter.value, SpellNamed(e, tail))) else SpellNamed(e, tail)
  }

  function SpellNotationID(id: NotationID, tail: string): string {
    match id
    case Identified(external) => SpellExternal(external, tail)
    case PublicOnly(space, pubid) => Then("PUBLIC", Then(space, Then(pubid, tail)))
  }

  function SpellNotation(n: NotationDecl, tail: string): string {
    Then(n.name, Then(n.space, SpellNotationID(n.id, Then(n.close, Then(">", tail)))))
  }

  predicate WellFormedExternal(id: ExternalID) {
    match id
    case SystemID(space, system) => Spaces(space) && IsLiteral(system, false)
    case PublicID(space, pubid, between, system) =>
      Spaces(space) && IsLiteral(pubid, true) && Spaces(between) && IsLiteral(system, false)
  }

  predicate WellFormedData(data: Option<Data>) {
    data.Some? ==> Spaces(data.value.before) && Spaces(data.value.after) && ValidNCName(data.value.notation)
  }

  ghost predicate WellFormedDefinition(d: Definition) {
    match d
    case Internal(value) => IsEntityValue(value)
    case External(id, data) => WellFormedExternal(id) && WellFormedData(data)
  }

  /** A parameter entity has no notation. */
  ghost predicate WellFormedEntity(e: Entity) {
    && (e.parameter.Some? ==> Spaces(e.parameter.value))
    && ValidNCName(e.name) && Spaces(e.space) && WellFormedDefinition(e.definition) && AllSpace(e.close)
    && (e.parameter.Some? && e.definition.External? ==> e.definition.data.None?)
  }

  predicate WellFormedNotationID(id: NotationID) {
    match id
    case Identified(external) => WellFormedExternal(external)
    case PublicOnly(space, pubid) => Spaces(space) && IsLiteral(pubid, true)
  }

  predicate WellFormedNotation(n: NotationDecl) {
    ValidNCName(n.name) && Spaces(n.space) && WellFormedNotationID(n.id) && AllSpace(n.close)
  }

  // ----- literals and external identifiers

  lemma LiteralStarts(literal: string, pubid: bool, rest: string)
    requires IsLiteral(literal, pubid)
    ensures Then(literal, rest) != "" && IsQuote(Then(literal, rest)[0]) && NoSpaceFirst(Then(literal, rest))
  {
    assert Then(literal, rest)[0] == literal[0];
  }

  lemma SpacedLiteralAt(body: string, i: nat, space: string, literal: string, pubid: bool, rest: string)
    requires Spaces(space) && IsLiteral(literal, pubid) && From(body, i, Then(space, Then(literal, rest)))
    ensures i <= |body|
    ensures SpacedLiteralEnd(body, i, pubid).Some? && From(body, SpacedLiteralEnd(body, i, pubid).value, rest)
  {
    hide LiteralEnd, SkipSpace, AllSpace, IsLiteral, From, Then, NoSpaceFirst;
    LiteralStarts(literal, pubid, rest);
    InBody(body, i, Then(space, Then(literal, rest)));
    SpaceAt(body, i, space, Then(literal, rest));
    LiteralAt(body, i + |space|, literal, pubid, rest);
  }

  lemma SpacedLiteralFound(body: string, i: nat, pubid: bool) returns (space: string, literal: string)
    requires i <= |body| && SpacedLiteralEnd(body, i, pubid).Some?
    ensures Spaces(space) && IsLiteral(literal, pubid)
    ensures body[i..] == Then(space, Then(literal, body[SpacedLiteralEnd(body, i, pubid).value..]))
  {
    hide LiteralEnd, SkipSpace, AllSpace, IsLiteral, Then;
    var k := SkipSpace(body, i);
    var j := LiteralEnd(body, k, pubid).value;
    SpaceBefore(body, i);
    LiteralIs(body, k, j, pubid);
    SplitAt(body, k, j);
    space, literal := body[i..k], body[k..j];
  }

  lemma {:induction false} ExternalWordIs(body: string, i: nat, end: nat)
    requires i <= end <= |body| && (end == |body| || IsSpace(body[end]) || body[end] == '[')
    requires forall k :: i <= k < end ==> !IsSpace(body[k]) && body[k] != '['
    ensures ExternalWordEnd(body, i) == end
    decreases end - i
  {
    hide IsSpace;
    if i < end {
      ExternalWordIs(body, i + 1, end);
    }
  }

  lemma KeywordLetters(word: string)
    requires word == "SYSTEM" || word == "PUBLIC"
    ensures forall k :: 0 <= k < |word| ==> !IsSpace(word[k]) && word[k] != '['
  {
  }

  lemma ExternalWordAt(body: string, i: nat, word: string, rest: string)
    requires word == "SYSTEM" || word == "PUBLIC"
    requires From(body, i, Then(word, rest)) && rest != "" && IsSpace(rest[0])
    ensures i + |word| <= |body| && ExternalWordEnd(body, i) == i + |word| && body[i..i + |word|] == word
    ensures From(body, i + |word|, rest)
  {
    KeywordLetters(word);
    hide Then, From, IsSpace;
    Standing(body, i, word, rest);
    InBody(body, i + |word|, rest);
    assert forall k :: i <= k < i + |word| ==> body[k] == body[i..i + |word|][k - i];
    ExternalWordIs(body, i, i + |word|);
  }

  lemma ExternalAt(body: string, i: nat, id: ExternalID, tail: string)
    requires WellFormedExternal(id) && From(body, i, SpellExternal(id, tail))
    ensures i <= |body|
    ensures ExternalIDEnd(body, i).Some? && From(body, ExternalIDEnd(body, i).value, tail)
  {
    hide SpacedLiteralEnd, ExternalWordEnd, From, Then, IsLiteral, Spaces;
    match id
    case SystemID(space, system) =>
      SpaceStarts(space, Then(system, tail));
      ExternalWordAt(body, i, "SYSTEM", Then(space, Then(system, tail)));
      SpacedLiteralAt(body, i + 6, space, system, false, tail);
    case PublicID(space, pubid, between, system) =>
      var rest := Then(between, Then(system, tail));
      SpaceStarts(space, Then(pubid, rest));
      ExternalWordAt(body, i, "PUBLIC", Then(space, Then(pubid, rest)));
      SpacedLiteralAt(body, i + 6, space, pubid, true, rest);
      SpacedLiteralAt(body, SpacedLiteralEnd(body, i + 6, true).value, between, system, false, tail);
  }

  lemma ExternalFound(body: string, i: nat) returns (id: ExternalID)
    requires i <= |body| && ExternalIDEnd(body, i).Some?
    ensures WellFormedExternal(id) && body[i..] == SpellExternal(id, body[ExternalIDEnd(body, i).value..])
  {
    hide SpacedLiteralEnd, ExternalWordEnd, Then, IsLiteral, Spaces;
    var end := ExternalWordEnd(body, i);
    SplitAt(body, i, end);
    var space, literal := SpacedLiteralFound(body, end, body[i..end] == "PUBLIC");
    if body[i..end] == "SYSTEM" {
      id := SystemID(space, literal);
    } else {
      var between, system := SpacedLiteralFound(body, SpacedLiteralEnd(body, end, true).value, false);
      id := PublicID(space, literal, between, system);
    }
  }

  /** External identifiers are accepted exactly as the grammar spells them. */
  lemma ExternalIDsAreExactlyTheGrammar(body: string, i: nat, j: nat)
    requires i <= |body|
    ensures ExternalIDEnd(body, i) == Some(j) <==>
      j <= |body| && exists id :: WellFormedExternal(id) && body[i..] == SpellExternal(id, body[j..])
  {
    hide ExternalIDEnd, WellFormedExternal, SpellExternal;
    if ExternalIDEnd(body, i) == Some(j) {
      var id := ExternalFound(body, i);
    }
    if j <= |body| {
      forall id | WellFormedExternal(id) && body[i..] == SpellExternal(id, body[j..])
        ensures ExternalIDEnd(body, i) == Some(j)
      {
        ExternalAt(body, i, id, body[j..]);
        SameRest(body, ExternalIDEnd(body, i).value, j);
      }
    }
  }

  // ----- names and ends

  /** A name and the space after it. */
  lemma SpacedNameAt(body: string, i: nat, name: string, space: string, rest: string)
    requires ValidNCName(name) && Spaces(space) && NoSpaceFirst(rest)
    requires From(body, i, Then(name, Then(space, rest)))
    ensures i < |body| && IsTokenChar(body[i])
    ensures SpacedNameEnd(body, i) == Some(i + |name| + |space|) && From(body, i + |name| + |space|, rest)
  {
    hide ValidNCName, IsTokenChar, TokenEnd, SkipSpace, AllSpace, From, Then, NoSpaceFirst, NoTokenFirst;
    SpaceStarts(space, rest);
    TokenStarts(name, true, Then(space, rest));
    InBody(body, i, Then(name, Then(space, rest)));
    ListTokenAt(body, i, name, true, Then(space, rest));
    SpaceAt(body, i + |name|, space, rest);
  }

  lemma SpacedNameFound(body: string, i: nat) returns (name: string, space: string)
    requires i <= |body| && SpacedNameEnd(body, i).Some?
    ensures ValidNCName(name) && Spaces(space)
    ensures body[i..] == Then(name, Then(space, body[SpacedNameEnd(body, i).value..]))
  {
    hide ValidNCName, TokenEnd, SkipSpace, AllSpace, Then;
    var end := NameEnd(body, i).value;
    ListTokenFound(body, i, true);
    SpaceBefore(body, end);
    name, space := body[i..end], body[end..SkipSpace(body, end)];
  }

  lemma CloseAt(body: string, i: nat, close: string, tail: string)
    requires AllSpace(close) && From(body, i, Then(close, Then(">", tail)))
    ensures i <= |body| && MarkupEnd(body, i).Some? && From(body, MarkupEnd(body, i).value, tail)
    ensures SkipSpace(body, i) < |body| && body[SkipSpace(body, i)] == '>'
  {
    PlainMarks();
    hide SkipSpace, AllSpace, From, Then, IsSpace;
    SpaceCharAt(body, i, close, ">", tail);
  }

  lemma CloseFound(body: string, i: nat) returns (close: string)
    requires i <= |body| && MarkupEnd(body, i).Some?
    ensures AllSpace(close) && body[i..] == Then(close, Then(">", body[MarkupEnd(body, i).value..]))
  {
    hide SkipSpace, AllSpace, Then;
    SpaceThenChar(body, i, SkipSpace(body, i));
    close := body[i..SkipSpace(body, i)];
  }

  // ----- notation data

  lemma WordLetters(body: string, i: nat, word: string)
    requires word == "NDATA" || word == "PUBLIC"
    ensures StartsAt(body, i, word) ==> i < |body| && body[i] == word[0] && IsTokenChar(body[i])
  {
    LettersStand(body, i, word);
  }

  lemma NoDataAt(body: string, i: nat, close: string, tail: string)
    requires AllSpace(close) && From(body, i, Then(close, Then(">", tail)))
    ensures i <= |body| && NotationDataEnd(body, i).Some? && From(body, NotationDataEnd(body, i).value, tail)
  {
    CloseAt(body, i, close, tail);
    WordLetters(body, SkipSpace(body, i), "NDATA");
    hide SkipSpace, MarkupEnd, From, Then, StartsAt, NameEnd, AllSpace;
  }

  lemma WordAt(body: string, i: nat, word: string, rest: string)
    requires From(body, i, Then(word, rest)) && rest != "" && IsSpace(rest[0])
    ensures i <= |body| && WordEnd(body, i, word) == Some(i + |word|) && From(body, i + |word|, rest)
  {
    hide From, Then, StartsAt;
    PieceAt(body, i, word, rest);
    InBody(body, i + |word|, rest);
  }

  lemma DataAt(body: string, i: nat, data: Data, close: string, tail: string)
    requires WellFormedData(Some(data)) && AllSpace(close)
    requires From(body, i, SpellData(Some(data), Then(close, Then(">", tail))))
    ensures i <= |body| && NotationDataEnd(body, i).Some? && From(body, NotationDataEnd(body, i).value, tail)
  {
    hide ValidNCName, IsTokenChar, TokenEnd, SkipSpace, AllSpace, From, Then, NoSpaceFirst, NoTokenFirst, MarkupEnd,
      WordEnd, IsSpace, Ends;
    var rest := Then(close, Then(">", tail));
    var named := Then(data.notation, rest);
    TokenStarts(data.notation, true, rest);
    SpaceStarts(data.after, named);
    DataStarts(data, named);
    InBody(body, i, Then(data.before, Then("NDATA", Then(data.after, named))));
    SpaceAt(body, i, data.before, Then("NDATA", Then(data.after, named)));
    var k := i + |data.before|;
    WordAt(body, k, "NDATA", Then(data.after, named));
    SpaceAt(body, k + 5, data.after, named);
    CloseEndsToken(close, tail);
    ListTokenAt(body, k + 5 + |data.after|, data.notation, true, rest);
    CloseAt(body, k + 5 + |data.after| + |data.notation|, close, tail);
  }

  lemma DataStarts(data: Data, named: string)
    ensures NoSpaceFirst(Then("NDATA", Then(data.after, named)))
  {
    assert Then("NDATA", Then(data.after, named))[0] == 'N';
  }

  lemma CloseEndsToken(close: string, tail: string)
    requires AllSpace(close)
    ensures NoTokenFirst(Then(close, Then(">", tail)))
  {
    EndsDeclaration(close, tail);
    DelimitersEndNames(Then(close, Then(">", tail))[0]);
  }

  lemma DataFound(body: string, i: nat) returns (data: Option<Data>, close: string)
    requires i <= |body| && NotationDataEnd(body, i).Some?
    ensures WellFormedData(data) && AllSpace(close)
    ensures body[i..] == SpellData(data, Then(close, Then(">", body[NotationDataEnd(body, i).value..])))
  {
    hide ValidNCName, TokenEnd, SkipSpace, AllSpace, Then, MarkupEnd;
    var k := SkipSpace(body, i);
    if k == i || WordEnd(body, k, "NDATA").None? {
      data := None;
      close := CloseFound(body, i);
    } else {
      var m := SkipSpace(body, k + 5);
      var name := NameEnd(body, m).value;
      SpaceBefore(body, i);
      PieceText(body, k, "NDATA");
      SpaceBefore(body, k + 5);
      ListTokenFound(body, m, true);
      close := CloseFound(body, name);
      data := Some(Data(body[i..k], body[k + 5..m], body[m..name]));
    }
  }

  // ----- entities

  lemma ExternalStarts(id: ExternalID, tail: string)
    ensures var text := SpellExternal(id, tail);
      text != "" && (text[0] == 'S' || text[0] == 'P') && NoSpaceFirst(text) && !IsQuote(text[0])
  {
    match id
    case SystemID(_, _) => assert SpellExternal(id, tail)[0] == "SYSTEM"[0];
    case PublicID(_, _, _, _) => assert SpellExternal(id, tail)[0] == "PUBLIC"[0];
  }

  lemma EntityValueStarts(value: string, rest: string)
    requires IsEntityValue(value)
    ensures Then(value, rest) != "" && IsQuote(Then(value, rest)[0]) && NoSpaceFirst(Then(value, rest))
  {
    NotEmpty(value);
    hide IsEntityValue;
    assert Then(value, rest)[0] == value[0];
  }

  /** What stands behind the name of an entity, from its definition on. */
  function DefinitionEnd(body: string, k: nat, parameter: bool): (j: Option<nat>)
    requires k <= |body|
    ensures j.Some? ==> j.value <= |body|
  {
    if k < |body| && IsQuote(body[k]) then
      var value := EntityValueEnd(body, k);
      if value.None? then None else MarkupEnd(body, value.value)
    else
      var external := ExternalIDEnd(body, k);
      if external.None? then None
      else if parameter then MarkupEnd(body, external.value) else NotationDataEnd(body, external.value)
  }

  lemma EntityParts(body: string, i: nat)
    requires i <= |body|
    ensures EntityEnd(body, i) ==
      var parameter := i < |body| && body[i] == '%';
      var start := if parameter then SkipSpace(body, i + 1) else i;
      var name := SpacedNameEnd(body, start);
      if (parameter && start == i + 1) || name.None? then None else DefinitionEnd(body, name.value, parameter)
  {
    hide SkipSpace, SpacedNameEnd, EntityValueEnd, ExternalIDEnd, MarkupEnd, NotationDataEnd;
  }

  lemma DefinitionAt(body: string, k: nat, parameter: bool, d: Definition, close: string, tail: string)
    requires WellFormedDefinition(d) && AllSpace(close) && (parameter && d.External? ==> d.data.None?)
    requires From(body, k, SpellDefinition(d, Then(close, Then(">", tail))))
    ensures k <= |body|
    ensures DefinitionEnd(body, k, parameter).Some? && From(body, DefinitionEnd(body, k, parameter).value, tail)
  {
    hide EntityValueEnd, ExternalIDEnd, MarkupEnd, NotationDataEnd, From, Then, IsEntityValue, WellFormedExternal,
      WellFormedData, SpellExternal, SpellData, AllSpace, NoSpaceFirst, IsQuote;
    var rest := Then(close, Then(">", tail));
    match d
    case Internal(value) =>
      EntityValueStarts(value, rest);
      InBody(body, k, Then(value, rest));
      EntityValueAt(body, k, value, rest);
      CloseAt(body, k + |value|, close, tail);
    case External(id, data) =>
      ExternalStarts(id, SpellData(data, rest));
      InBody(body, k, SpellExternal(id, SpellData(data, rest)));
      ExternalAt(body, k, id, SpellData(data, rest));
      var end := ExternalIDEnd(body, k).value;
      if data.None? {
        NoDataText(rest);
        CloseAt(body, end, close, tail);
        NoDataAt(body, end, close, tail);
      } else {
        DataAt(body, end, data.value, close, tail);
      }
  }

  lemma NoDataText(rest: string)
    ensures SpellData(None, rest) == rest
  {
  }

  lemma DefinitionFound(body: string, k: nat, parameter: bool) returns (d: Definition, close: string)
    requires k <= |body| && DefinitionEnd(body, k, parameter).Some?
    ensures WellFormedDefinition(d) && AllSpace(close) && (parameter && d.External? ==> d.data.None?)
    ensures body[k..] == SpellDefinition(d, Then(close, Then(">", body[DefinitionEnd(body, k, parameter).value..])))
  {
    hide EntityValueEnd, ExternalIDEnd, MarkupEnd, NotationDataEnd, Then, IsEntityValue, WellFormedExternal,
      WellFormedData, SpellExternal, SpellData, AllSpace;
    if k < |body| && IsQuote(body[k]) {
      var j := EntityValueEnd(body, k).value;
      EntityValueIs(body, k, j);
      SplitAt(body, k, j);
      close := CloseFound(body, j);
      d := Internal(body[k..j]);
    } else {
      var id := ExternalFound(body, k);
      var end := ExternalIDEnd(body, k).value;
      if parameter {
        close := CloseFound(body, end);
        NoDataText(Then(close, Then(">", body[MarkupEnd(body, end).value..])));
        NoDataIsWellFormed();
        d := External(id, None);
      } else {
        var data;
        data, close := DataFound(body, end);
        d := External(id, data);
      }
    }
  }

  lemma NoDataIsWellFormed()
    ensures WellFormedData(None)
  {
  }

  lemma DefinitionStarts(d: Definition, tail: string)
    requires WellFormedDefinition(d)
    ensures SpellDefinition(d, tail) != "" && NoSpaceFirst(SpellDefinition(d, tail))
  {
    hide IsEntityValue, SpellExternal, SpellData;
    match d
    case Internal(value) => EntityValueStarts(value, tail);
    case External(id, data) => ExternalStarts(id, SpellData(data, tail));
  }

  lemma NamedStarts(e: Entity, tail: string)
    requires ValidNCName(e.name)
    ensures var text := SpellNamed(e, tail); text != "" && NoSpaceFirst(text) && text[0] != '%'
  {
    hide SpellDefinition;
    TokenStarts(e.name, true, Then(e.space, SpellDefinition(e.definition, Then(e.close, Then(">", tail)))));
  }

  lemma NamedAt(body: string, start: nat, e: Entity, tail: string)
    requires WellFormedEntity(e) && From(body, start, SpellNamed(e, tail))
    ensures start < |body| && body[start] != '%' && SpacedNameEnd(body, start).Some?
    ensures var end := DefinitionEnd(body, SpacedNameEnd(body, start).value, e.parameter.Some?);
      end.Some? && From(body, end.value, tail)
  {
    hide ValidNCName, IsTokenChar, SpacedNameEnd, DefinitionEnd, WellFormedDefinition, SpellDefinition, AllSpace, From,
      Then, NoSpaceFirst;
    NamedStarts(e, tail);
    InBody(body, start, SpellNamed(e, tail));
    var rest := Then(e.close, Then(">", tail));
    DefinitionStarts(e.definition, rest);
    SpacedNameAt(body, start, e.name, e.space, SpellDefinition(e.definition, rest));
    DefinitionAt(body, start + |e.name| + |e.space|, e.parameter.Some?, e.definition, e.close, tail);
  }

  lemma EntityAt(body: string, i: nat, e: Entity, tail: string)
    requires WellFormedEntity(e) && From(body, i, SpellEntity(e, tail))
    ensures i <= |body| && EntityEnd(body, i).Some? && From(body, EntityEnd(body, i).value, tail)
  {
    hide WellFormedEntity, SpellNamed, SpacedNameEnd, DefinitionEnd, SkipSpace, AllSpace, From, Then, NoSpaceFirst,
      EntityEnd;
    if e.parameter.Some? {
      CharAt(body, i, "%", Then(e.parameter.value, SpellNamed(e, tail)));
      ParameterStarts(e, tail);
      InBody(body, i + 1, Then(e.parameter.value, SpellNamed(e, tail)));
      SpaceAt(body, i + 1, e.parameter.value, SpellNamed(e, tail));
      NamedAt(body, i + 1 + |e.parameter.value|, e, tail);
    } else {
      NamedAt(body, i, e, tail);
    }
    EntityParts(body, i);
  }

  lemma ParameterStarts(e: Entity, tail: string)
    requires WellFormedEntity(e) && e.parameter.Some?
    ensures Spaces(e.parameter.value) && NoSpaceFirst(SpellNamed(e, tail))
  {
    NamedStarts(e, tail);
  }

  lemma EntityFound(body: string, i: nat) returns (e: Entity)
    requires i <= |body| && EntityEnd(body, i).Some?
    ensures WellFormedEntity(e) && body[i..] == SpellEntity(e, body[EntityEnd(body, i).value..])
  {
    EntityParts(body, i);
    hide ValidNCName, SpacedNameEnd, DefinitionEnd, SkipSpace, WellFormedDefinition, SpellDefinition, AllSpace, Then,
      EntityEnd;
    var parameter := i < |body| && body[i] == '%';
    var start := if parameter then SkipSpace(body, i + 1) else i;
    var name, space := SpacedNameFound(body, start);
    var definition, close := DefinitionFound(body, SpacedNameEnd(body, start).value, parameter);
    if parameter {
      FirstCharText(body, i);
      SpaceBefore(body, i + 1);
      e := Entity(Some(body[i + 1..start]), name, space, definition, close);
    } else {
      e := Entity(None, name, space, definition, close);
    }
  }

  /** Between the keyword and the end, entity declarations are accepted exactly as the grammar spells them. */
  lemma EntitiesAreExactlyTheGrammar(body: string, i: nat, j: nat)
    requires i <= |body|
    ensures EntityEnd(body, i) == Some(j) <==>
      j <= |body| && exists e :: WellFormedEntity(e) && body[i..] == SpellEntity(e, body[j..])
  {
    hide EntityEnd, WellFormedEntity, SpellEntity;
    if EntityEnd(body, i) == Some(j) {
      var e := EntityFound(body, i);
    }
    if j <= |body| {
      forall e | WellFormedEntity(e) && body[i..] == SpellEntity(e, body[j..])
        ensures EntityEnd(body, i) == Some(j)
      {
        EntityAt(body, i, e, body[j..]);
        SameRest(body, EntityEnd(body, i).value, j);
      }
    }
  }

  // ----- notations

  /** What stands behind the name of a notation. */
  function NotationIDEnd(body: string, k: nat): (j: Option<nat>)
    requires k <= |body|
    ensures j.Some? ==> j.value <= |body|
  {
    var word := WordEnd(body, k, "PUBLIC");
    if word.Some? then PublicNotationEnd(body, word.value)
    else
      var external := ExternalIDEnd(body, k);
      if external.None? then None else MarkupEnd(body, external.value)
  }

  lemma PublicOnlyAt(body: string, k: nat, space: string, pubid: string, close: string, tail: string)
    requires Spaces(space) && IsLiteral(pubid, true) && AllSpace(close)
    requires From(body, k, Then(space, Then(pubid, Then(close, Then(">", tail)))))
    ensures k <= |body| && PublicNotationEnd(body, k).Some? && From(body, PublicNotationEnd(body, k).value, tail)
  {
    assert !IsQuote('>');
    hide SpacedLiteralEnd, SkipSpace, MarkupEnd, From, Then, IsLiteral, AllSpace, IsQuote;
    SpacedLiteralAt(body, k, space, pubid, true, Then(close, Then(">", tail)));
    CloseAt(body, SpacedLiteralEnd(body, k, true).value, close, tail);
  }

  lemma PublicBothAt(body: string, k: nat, space: string, pubid: string, between: string, system: string, close: string,
                     tail: string)
    requires Spaces(space) && IsLiteral(pubid, true) && Spaces(between) && IsLiteral(system, false) && AllSpace(close)
    requires From(body, k, Then(space, Then(pubid, Then(between, Then(system, Then(close, Then(">", tail)))))))
    ensures k <= |body| && PublicNotationEnd(body, k).Some? && From(body, PublicNotationEnd(body, k).value, tail)
  {
    hide LiteralEnd, SkipSpace, MarkupEnd, From, Then, IsLiteral, AllSpace, IsQuote, SpacedLiteralEnd, NoSpaceFirst;
    var rest := Then(close, Then(">", tail));
    SpacedLiteralAt(body, k, space, pubid, true, Then(between, Then(system, rest)));
    var m := SpacedLiteralEnd(body, k, true).value;
    LiteralStarts(system, false, rest);
    InBody(body, m, Then(between, Then(system, rest)));
    SpaceAt(body, m, between, Then(system, rest));
    InBody(body, m + |between|, Then(system, rest));
    SpacedLiteralAt(body, m, between, system, false, rest);
    CloseAt(body, SpacedLiteralEnd(body, m, false).value, close, tail);
  }

  lemma NotPublic(body: string, k: nat)
    requires k < |body| && body[k] == 'S'
    ensures WordEnd(body, k, "PUBLIC").None?
  {
    WordLetters(body, k, "PUBLIC");
  }

  lemma NotationIDAt(body: string, k: nat, id: NotationID, close: string, tail: string)
    requires WellFormedNotationID(id) && AllSpace(close)
    requires From(body, k, SpellNotationID(id, Then(close, Then(">", tail))))
    ensures k <= |body| && NotationIDEnd(body, k).Some? && From(body, NotationIDEnd(body, k).value, tail)
  {
    hide ExternalIDEnd, PublicNotationEnd, MarkupEnd, WordEnd, From, Then, IsLiteral, Spaces, AllSpace, IsSpace, Ends,
      NoTokenFirst;
    var rest := Then(close, Then(">", tail));
    match id
    case PublicOnly(space, pubid) =>
      SpaceStarts(space, Then(pubid, rest));
      WordAt(body, k, "PUBLIC", Then(space, Then(pubid, rest)));
      PublicOnlyAt(body, k + 6, space, pubid, close, tail);
    case Identified(external) =>
      if external.PublicID? {
        var both := Then(external.pubid, Then(external.between, Then(external.system, rest)));
        SpaceStarts(external.space, both);
        WordAt(body, k, "PUBLIC", Then(external.space, both));
        PublicBothAt(body, k + 6, external.space, external.pubid, external.between, external.system, close, tail);
      } else {
        SystemStarts(external, rest);
        InBody(body, k, SpellExternal(external, rest));
        NotPublic(body, k);
        ExternalAt(body, k, external, rest);
        CloseAt(body, ExternalIDEnd(body, k).value, close, tail);
      }
  }

  lemma SystemStarts(id: ExternalID, tail: string)
    requires id.SystemID?
    ensures SpellExternal(id, tail) != "" && SpellExternal(id, tail)[0] == 'S'
  {
    assert SpellExternal(id, tail)[0] == "SYSTEM"[0];
  }

  lemma NotationIDFound(body: string, k: nat) returns (id: NotationID, close: string)
    requires k <= |body| && NotationIDEnd(body, k).Some?
    ensures WellFormedNotationID(id) && AllSpace(close)
    ensures body[k..] == SpellNotationID(id, Then(close, Then(">", body[NotationIDEnd(body, k).value..])))
  {
    hide ExternalIDEnd, SpacedLiteralEnd, MarkupEnd, SkipSpace, Then, IsLiteral, AllSpace, IsQuote;
    if WordEnd(body, k, "PUBLIC").Some? {
      PieceText(body, k, "PUBLIC");
      var space, pubid := SpacedLiteralFound(body, k + 6, true);
      var m := SpacedLiteralEnd(body, k + 6, true).value;
      var q := SkipSpace(body, m);
      if q == |body| || !IsQuote(body[q]) {
        close := CloseFound(body, m);
        id := PublicOnly(space, pubid);
      } else {
        var between, system := SpacedLiteralFound(body, m, false);
        close := CloseFound(body, SpacedLiteralEnd(body, m, false).value);
        id := Identified(PublicID(space, pubid, between, system));
      }
    } else {
      var external := ExternalFound(body, k);
      close := CloseFound(body, ExternalIDEnd(body, k).value);
      id := Identified(external);
    }
  }

  lemma NotationIDStarts(id: NotationID, tail: string)
    ensures SpellNotationID(id, tail) != "" && NoSpaceFirst(SpellNotationID(id, tail))
  {
    match id
    case Identified(external) => ExternalStarts(external, tail);
    case PublicOnly(_, _) => assert SpellNotationID(id, tail)[0] == "PUBLIC"[0];
  }

  lemma NotationParts(body: string, i: nat)
    requires i <= |body|
    ensures NotationEnd(body, i) ==
      var name := SpacedNameEnd(body, i); if name.None? then None else NotationIDEnd(body, name.value)
  {
    hide SpacedNameEnd, WordEnd, PublicNotationEnd, ExternalIDEnd, MarkupEnd;
  }

  /** Between the keyword and the end, notation declarations are accepted exactly as the grammar spells them. */
  lemma NotationsAreExactlyTheGrammar(body: string, i: nat, j: nat)
    requires i <= |body|
    ensures NotationEnd(body, i) == Some(j) <==>
      j <= |body| && exists n :: WellFormedNotation(n) && body[i..] == SpellNotation(n, body[j..])
  {
    hide NotationEnd, WellFormedNotation, SpellNotation;
    if NotationEnd(body, i) == Some(j) {
      var n := NotationFound(body, i);
    }
    if j <= |body| {
      forall n | WellFormedNotation(n) && body[i..] == SpellNotation(n, body[j..])
        ensures NotationEnd(body, i) == Some(j)
      {
        NotationAt(body, i, n, body[j..]);
        SameRest(body, NotationEnd(body, i).value, j);
      }
    }
  }

  lemma NotationAt(body: string, i: nat, n: NotationDecl, tail: string)
    requires WellFormedNotation(n) && From(body, i, SpellNotation(n, tail))
    ensures i <= |body| && NotationEnd(body, i).Some? && From(body, NotationEnd(body, i).value, tail)
  {
    hide ValidNCName, SpacedNameEnd, NotationIDEnd, WellFormedNotationID, SpellNotationID, AllSpace, From, Then,
      NoSpaceFirst, NotationEnd, IsTokenChar;
    var text := SpellNotationID(n.id, Then(n.close, Then(">", tail)));
    NotationIDStarts(n.id, Then(n.close, Then(">", tail)));
    SpacedNameAt(body, i, n.name, n.space, text);
    NotationIDAt(body, i + |n.name| + |n.space|, n.id, n.close, tail);
    NotationParts(body, i);
  }

  lemma NotationFound(body: string, i: nat) returns (n: NotationDecl)
    requires i <= |body| && NotationEnd(body, i).Some?
    ensures WellFormedNotation(n) && body[i..] == SpellNotation(n, body[NotationEnd(body, i).value..])
  {
    NotationParts(body, i);
    hide ValidNCName, SpacedNameEnd, NotationIDEnd, WellFormedNotationID, SpellNotationID, AllSpace, Then, NotationEnd;
    var name, space := SpacedNameFound(body, i);
    var id, close := NotationIDFound(body, SpacedNameEnd(body, i).value);
    n := NotationDecl(name, space, id, close);
  }
}
