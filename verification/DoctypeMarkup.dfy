/** The items of an internal subset as a grammar: comments, instructions, references and declarations (instance.go). */
module DoctypeMarkup {
  import opened Wrappers
  import opened DoctypeModels
  import opened DoctypeDeclarations
  import opened DoctypeGrammar
  import opened DoctypeValues
  import opened DoctypeAttributes
  import opened DoctypeEntities
  import opened DoctypeSubset

  // ----- markup declarations, after section 2.8 of XML 1.0

  datatype Declared =
    | ElementDecl(declaration: Declaration)
    | AttlistDecl(attlist: Attlist)
    | EntityDecl(entity: Entity)
    | NotationMarkup(notation: NotationDecl)

  /** A declaration behind its keyword and the space after that. */
  datatype Markup = Markup(space: string, declared: Declared)

  function Keyword(d: Declared): string {
    match d
    case ElementDecl(_) => "ELEMENT"
    case AttlistDecl(_) => "ATTLIST"
    case EntityDecl(_) => "ENTITY"
    case NotationMarkup(_) => "NOTATION"
  }

  function SpellDeclared(d: Declared, tail: string): string {
    match d
    case ElementDecl(declaration) => SpellDeclaration(declaration, tail)
    case AttlistDecl(attlist) => SpellAttlist(attlist, tail)
    case EntityDecl(entity) => SpellEntity(entity, tail)
    case NotationMarkup(notation) => SpellNotation(notation, tail)
  }

  function SpellMarkup(m: Markup, tail: string): string {
    Then("<!", Then(Keyword(m.declared), Then(m.space, SpellDeclared(m.declared, tail))))
  }

  ghost predicate WellFormedDeclared(d: Declared) {
    match d
    case ElementDecl(declaration) => WellFormedDeclaration(declaration)
    case AttlistDecl(attlist) => WellFormedAttlist(attlist)
    case EntityDecl(entity) => WellFormedEntity(entity)
    case NotationMarkup(notation) => WellFormedNotation(notation)
  }

  ghost predicate WellFormedMarkup(m: Markup) {
    Spaces(m.space) && WellFormedDeclared(m.declared)
  }

  /** What the keyword chooses, from the declaration on. */
  function DeclaredEnd(keyword: string, body: string, i: nat): (j: Option<nat>)
    requires i <= |body|
    ensures j.Some? ==> i < j.value <= |body|
  {
    if keyword == "ELEMENT" then ElementEnd(body, i)
    else if keyword == "ATTLIST" then AttlistEnd(body, i)
    else if keyword == "ENTITY" then EntityEnd(body, i)
    else if keyword == "NOTATION" then NotationEnd(body, i)
    else None
  }

  lemma DeclaredAt(body: string, i: nat, d: Declared, tail: string)
    requires WellFormedDeclared(d) && From(body, i, SpellDeclared(d, tail))
    ensures i <= |body|
    ensures var end := DeclaredEnd(Keyword(d), body, i); end.Some? && From(body, end.value, tail)
  {
    hide ElementEnd, AttlistEnd, EntityEnd, NotationEnd, WellFormedDeclaration, WellFormedAttlist, WellFormedEntity,
      WellFormedNotation, SpellDeclaration, SpellAttlist, SpellEntity, SpellNotation, From;
    match d
    case ElementDecl(declaration) => DeclarationAt(body, i, declaration, tail);
    case AttlistDecl(attlist) => AttlistAt(body, i, attlist, tail);
    case EntityDecl(entity) => EntityAt(body, i, entity, tail);
    case NotationMarkup(notation) => NotationAt(body, i, notation, tail);
  }

  lemma DeclaredFound(keyword: string, body: string, i: nat) returns (d: Declared)
    requires i <= |body| && DeclaredEnd(keyword, body, i).Some?
    ensures Keyword(d) == keyword && WellFormedDeclared(d)
    ensures body[i..] == SpellDeclared(d, body[DeclaredEnd(keyword, body, i).value..])
  {
    hide ElementEnd, AttlistEnd, EntityEnd, NotationEnd, WellFormedDeclaration, WellFormedAttlist, WellFormedEntity,
      WellFormedNotation, SpellDeclaration, SpellAttlist, SpellEntity, SpellNotation;
    if keyword == "ELEMENT" {
      var declaration := DeclarationFound(body, i);
      d := ElementDecl(declaration);
    } else if keyword == "ATTLIST" {
      var attlist := AttlistFound(body, i);
      d := AttlistDecl(attlist);
    } else if keyword == "ENTITY" {
      var entity := EntityFound(body, i);
      d := EntityDecl(entity);
    } else {
      var notation := NotationFound(body, i);
      d := NotationMarkup(notation);
    }
  }

  lemma DeclaredStarts(d: Declared, tail: string)
    requires WellFormedDeclared(d)
    ensures NoSpaceFirst(SpellDeclared(d, tail))
  {
    hide SpellDefinition, SpellNotationID, SpellAttributes, SpellContent, WellFormedAttribute, WellFormedDefinition;
    match d
    case ElementDecl(declaration) =>
      NameStarts(declaration.name, Then(declaration.before,
        SpellContent(declaration.content, Then(declaration.after, Then(">", tail)))));
    case AttlistDecl(attlist) =>
      NameStarts(attlist.name, SpellAttributes(attlist.attributes, Then(attlist.close, Then(">", tail))));
    case EntityDecl(entity) =>
      EntityStarts(entity, tail);
    case NotationMarkup(notation) =>
      TokenStarts(notation.name, true, Then(notation.space,
        SpellNotationID(notation.id, Then(notation.close, Then(">", tail)))));
  }

  lemma EntityStarts(e: Entity, tail: string)
    requires WellFormedEntity(e)
    ensures NoSpaceFirst(SpellEntity(e, tail))
  {
    NamedStarts(e, tail);
    hide SpellNamed;
    if e.parameter.Some? {
      assert SpellEntity(e, tail)[0] == '%';
    }
  }

  lemma {:induction false} UppercaseEndIs(body: string, i: nat, end: nat)
    requires i <= end <= |body| && (end == |body| || !('A' <= body[end] <= 'Z'))
    requires forall k :: i <= k < end ==> 'A' <= body[k] <= 'Z'
    ensures UppercaseEnd(body, i) == end
    decreases end - i
  {
    if i < end {
      UppercaseEndIs(body, i + 1, end);
    }
  }

  lemma KeywordStands(body: string, i: nat, d: Declared, rest: string)
    requires From(body, i, Then(Keyword(d), rest)) && rest != "" && IsSpace(rest[0])
    ensures i <= |body| && Keyword(d) != "" && UppercaseEnd(body, i) == i + |Keyword(d)| <= |body|
    ensures body[i..i + |Keyword(d)|] == Keyword(d) && From(body, i + |Keyword(d)|, rest)
    ensures i < |body| && body[i] != '-'
  {
    KeywordLetters(d);
    hide Then, From, UppercaseEnd, Keyword, IsSpace;
    Standing(body, i, Keyword(d), rest);
    InBody(body, i + |Keyword(d)|, rest);
    SpaceIsNoLetter(rest[0]);
    forall k | i <= k < i + |Keyword(d)|
      ensures 'A' <= body[k] <= 'Z'
    {
      assert body[k] == body[i..i + |Keyword(d)|][k - i];
    }
    UppercaseEndIs(body, i, i + |Keyword(d)|);
  }

  lemma KeywordLetters(d: Declared)
    ensures Keyword(d) != "" && forall k :: 0 <= k < |Keyword(d)| ==> 'A' <= Keyword(d)[k] <= 'Z'
  {
  }

  lemma SpaceIsNoLetter(c: char)
    requires IsSpace(c)
    ensures !('A' <= c <= 'Z')
  {
  }

  lemma MarkupParts(body: string, i: nat)
    requires StartsAt(body, i, "<!")
    ensures MarkupDeclarationEnd(body, i) ==
      var end := UppercaseEnd(body, i + 2);
      var start := SkipSpace(body, end);
      if start == end then None else DeclaredEnd(body[i + 2..end], body, start)
  {
    hide ElementEnd, AttlistEnd, EntityEnd, NotationEnd, SkipSpace, UppercaseEnd;
  }

  lemma MarkupAt(body: string, i: nat, m: Markup, tail: string)
    requires WellFormedMarkup(m) && From(body, i, SpellMarkup(m, tail))
    ensures StartsAt(body, i, "<!") && !StartsAt(body, i, "<!--") && !StartsAt(body, i, "<?")
    ensures MarkupDeclarationEnd(body, i).Some? && From(body, MarkupDeclarationEnd(body, i).value, tail)
  {
    hide DeclaredEnd, WellFormedDeclared, SpellDeclared, SkipSpace, UppercaseEnd, AllSpace, From, Then, NoSpaceFirst,
      Ends, NoTokenFirst, IsSpace, MarkupDeclarationEnd, Keyword, StartsAt;
    var text := SpellDeclared(m.declared, tail);
    DeclaredStarts(m.declared, tail);
    SpaceStarts(m.space, text);
    PieceAt(body, i, "<!", Then(Keyword(m.declared), Then(m.space, text)));
    KeywordStands(body, i + 2, m.declared, Then(m.space, text));
    OtherOpenings(body, i);
    MarkupParts(body, i);
    var end := i + 2 + |Keyword(m.declared)|;
    SpaceAt(body, end, m.space, text);
    DeclaredAt(body, end + |m.space|, m.declared, tail);
  }

  lemma OtherOpenings(body: string, i: nat)
    requires StartsAt(body, i, "<!")
    ensures !StartsAt(body, i, "<?")
    ensures StartsAt(body, i, "<!--") ==> i + 2 < |body| && body[i + 2] == '-'
  {
    assert body[i..i + 2][1] == '!';
    if StartsAt(body, i, "<!--") {
      assert body[i..i + 4][2] == body[i + 2];
    }
  }

  lemma MarkupFound(body: string, i: nat) returns (m: Markup)
    requires StartsAt(body, i, "<!") && MarkupDeclarationEnd(body, i).Some?
    ensures WellFormedMarkup(m) && body[i..] == SpellMarkup(m, body[MarkupDeclarationEnd(body, i).value..])
  {
    MarkupParts(body, i);
    hide DeclaredEnd, WellFormedDeclared, SpellDeclared, SkipSpace, UppercaseEnd, AllSpace, Then, MarkupDeclarationEnd,
      Keyword;
    var end := UppercaseEnd(body, i + 2);
    var start := SkipSpace(body, end);
    PieceText(body, i, "<!");
    SplitAt(body, i + 2, end);
    SpaceBefore(body, end);
    var d := DeclaredFound(body[i + 2..end], body, start);
    m := Markup(body[end..start], d);
  }

  ghost predicate MarkupStands(body: string, i: nat, j: nat) {
    i <= |body| && j <= |body| && exists m :: WellFormedMarkup(m) && body[i..] == SpellMarkup(m, body[j..])
  }

  /** Declarations are accepted exactly as the grammar spells them. */
  lemma MarkupIsExactlyTheGrammar(body: string, i: nat, j: nat)
    requires StartsAt(body, i, "<!")
    ensures MarkupDeclarationEnd(body, i) == Some(j) <==> MarkupStands(body, i, j)
  {
    hide MarkupDeclarationEnd, WellFormedMarkup, SpellMarkup;
    if MarkupDeclarationEnd(body, i) == Some(j) {
      var m := MarkupFound(body, i);
    }
    if j <= |body| {
      forall m | WellFormedMarkup(m) && body[i..] == SpellMarkup(m, body[j..])
        ensures MarkupDeclarationEnd(body, i) == Some(j)
      {
        MarkupAt(body, i, m, body[j..]);
        SameRest(body, MarkupDeclarationEnd(body, i).value, j);
      }
    }
  }

  // ----- items

  ghost predicate CommentStands(body: string, i: nat, j: nat) {
    && StartsAt(body, i, "<!--") && i + 7 <= j <= |body| && StartsAt(body, j - 3, "-->")
    && CommentText(body[i + 4..j - 3])
  }

  ghost predicate InstructionStands(body: string, i: nat, j: nat) {
    StartsAt(body, i, "<?") && exists nameEnd: nat :: InstructionAt(body, i, nameEnd, j)
  }

  ghost predicate ParameterReferenceStands(body: string, i: nat, j: nat) {
    i + 2 <= j <= |body| && body[i] == '%' && body[j - 1] == ';' && ValidNCName(body[i + 1..j - 1])
  }

  lemma MarkupOpens(body: string, i: nat, j: nat)
    requires MarkupStands(body, i, j)
    ensures StartsAt(body, i, "<!") && !StartsAt(body, i, "<!--") && !StartsAt(body, i, "<?")
    ensures i < |body| && body[i] == '<'
  {
    hide SpellMarkup, WellFormedMarkup;
    var m :| WellFormedMarkup(m) && body[i..] == SpellMarkup(m, body[j..]);
    MarkupAt(body, i, m, body[j..]);
    LettersStand(body, i, "<!");
  }

  /** An item is a comment, an instruction, a parameter reference or a declaration, as XML 1.0 spells it. */
  lemma ItemsAreExactlyTheGrammar(body: string, i: nat, j: nat)
    requires i < |body|
    ensures ItemEnd(body, i) == Some(j) <==>
      CommentStands(body, i, j) || InstructionStands(body, i, j) || ParameterReferenceStands(body, i, j) ||
      MarkupStands(body, i, j)
  {
    LettersStand(body, i, "<!--");
    LettersStand(body, i, "<?");
    LettersStand(body, i, "<!");
    if MarkupStands(body, i, j) {
      MarkupOpens(body, i, j);
    }
    hide MarkupStands, CommentEnd, InstructionEnd, ParameterReferenceEnd, MarkupDeclarationEnd, CommentText,
      ValidNCName, InstructionAt;
    if StartsAt(body, i, "<!--") {
      CommentsAreExactlyTheGrammar(body, i, j);
    } else if StartsAt(body, i, "<?") {
      InstructionsAreExactlyTheGrammar(body, i, j);
    } else if body[i] == '%' {
      ParameterReferencesAreExactlyTheGrammar(body, i, j);
    } else if StartsAt(body, i, "<!") {
      MarkupIsExactlyTheGrammar(body, i, j);
    }
  }

  ghost predicate ItemStands(body: string, i: nat, j: nat) {
    i < |body| && (CommentStands(body, i, j) || InstructionStands(body, i, j) || ParameterReferenceStands(body, i, j) ||
      MarkupStands(body, i, j))
  }

  /** One item, no closing bracket, leads over space to the next place. */
  ghost predicate StandsBetween(body: string, from: nat, to: nat) {
    && from < |body| && body[from] != ']'
    && exists j: nat :: ItemStands(body, from, j) && j <= |body| && to == SkipSpace(body, j)
  }

  ghost predicate Listed(body: string, i: nat, places: seq<nat>)
    requires i <= |body|
  {
    && places != [] && places[0] == SkipSpace(body, i)
    && (forall k :: 0 <= k < |places| ==> places[k] < |body|)
    && (forall k :: 0 <= k < |places| - 1 ==> StandsBetween(body, places[k], places[k + 1]))
    && body[places[|places| - 1]] == ']' && SkipSpace(body, places[|places| - 1] + 1) == |body|
  }

  lemma BetweenIs(body: string, from: nat, to: nat)
    requires from < |body|
    ensures ItemBetween(body, from, to) <==> StandsBetween(body, from, to)
  {
    hide ItemEnd, CommentStands, InstructionStands, ParameterReferenceStands, MarkupStands, SkipSpace;
    if ItemEnd(body, from).Some? {
      var j := ItemEnd(body, from).value;
      ItemsAreExactlyTheGrammar(body, from, j);
      assert ItemStands(body, from, j);
    }
    forall j: nat | ItemStands(body, from, j)
      ensures ItemEnd(body, from) == Some(j)
    {
      ItemsAreExactlyTheGrammar(body, from, j);
    }
  }

  /** A subset is accepted exactly when items of the grammar stand in it up to a bracket that only space follows. */
  lemma SubsetsAreExactlyTheGrammar(body: string, i: nat)
    requires i <= |body|
    ensures Rest(body, i) <==> exists places :: Listed(body, i, places)
  {
    SubsetsAreExactlyItemLists(body, i);
    hide Rest, SkipSpace, ItemBetween, StandsBetween;
    forall places: seq<nat>
      ensures Itemised(body, i, places) <==> Listed(body, i, places)
    {
      forall k | 0 <= k < |places| - 1 && (forall m :: 0 <= m < |places| ==> places[m] < |body|)
        ensures ItemBetween(body, places[k], places[k + 1]) <==> StandsBetween(body, places[k], places[k + 1])
      {
        BetweenIs(body, places[k], places[k + 1]);
      }
    }
  }
}
