/** The element type declarations that the recogniser accepts, as a grammar (instance.go). */
module DoctypeGrammar {
  import opened Wrappers
  import opened DoctypeModels

  // ----- the grammar

  /** An alternative of mixed content, with the space before and after its bar. */
  datatype Alternative = Alternative(before: string, after: string, name: string)

  datatype Particle = Named(name: string, occurs: string) | Nested(model: Model)

  /** A later particle of a group, with the space before and after its separator. */
  datatype Member = Member(before: string, after: string, particle: Particle)

  datatype Model =
    | Mixed(open: string, names: seq<Alternative>, close: string, starred: bool)
    | Group(open: string, first: Particle, separator: char, members: seq<Member>, close: string, occurs: string)

  // Each spelling is written in front of the text that follows it.

  function Then(piece: string, rest: string): string {
    piece + rest
  }

  function SpellNames(names: seq<Alternative>, tail: string): string {
    if names == [] then tail
    else Then(names[0].before, Then("|", Then(names[0].after, Then(names[0].name, SpellNames(names[1..], tail)))))
  }

  function Spell(model: Model, tail: string): string
    decreases model
  {
    match model
    case Mixed(open, names, close, starred) =>
      Then("(", Then(open, Then(PCDATA,
        SpellNames(names, Then(close, Then(")", Then(if starred then "*" else "", tail)))))))
    case Group(open, first, separator, members, close, occurs) =>
      Then("(", Then(open,
        SpellParticle(first, SpellMembers(separator, members, Then(close, Then(")", Then(occurs, tail)))))))
  }

  function SpellParticle(particle: Particle, tail: string): string
    decreases particle
  {
    match particle
    case Named(name, occurs) => Then(name, Then(occurs, tail))
    case Nested(model) => Spell(model, tail)
  }

  function SpellMembers(separator: char, members: seq<Member>, tail: string): string
    decreases members
  {
    if members == [] then tail
    else
      Then(members[0].before, Then([separator], Then(members[0].after,
        SpellParticle(members[0].particle, SpellMembers(separator, members[1..], tail)))))
  }

  predicate WellFormedOccurs(occurs: string) {
    occurs == "" || (|occurs| == 1 && IsOccurs(occurs[0]))
  }

  predicate WellFormedName(name: Alternative) {
    AllSpace(name.before) && AllSpace(name.after) && ValidXMLName(name.name)
  }

  predicate WellFormed(model: Model) {
    match model
    case Mixed(open, names, close, starred) =>
      && AllSpace(open) && AllSpace(close) && (names != [] ==> starred)
      && forall i :: 0 <= i < |names| ==> WellFormedName(names[i])
    case Group(open, first, separator, members, close, occurs) =>
      && AllSpace(open) && AllSpace(close) && WellFormedOccurs(occurs)
      && (separator == ',' || separator == '|')
      && WellFormedParticle(first) && WellFormedMembers(members)
  }

  predicate WellFormedMembers(members: seq<Member>) {
    forall k :: 0 <= k < |members| ==>
      AllSpace(members[k].before) && AllSpace(members[k].after) && WellFormedParticle(members[k].particle)
  }

  predicate WellFormedParticle(particle: Particle) {
    match particle
    case Named(name, occurs) => ValidXMLName(name) && WellFormedOccurs(occurs)
    case Nested(model) => WellFormed(model)
  }

  /** The models of sections 3.2.1 and 3.2.2 of XML 1.0: mixed content is never nested. */
  predicate Standard(model: Model) {
    WellFormed(model) && (model.Group? ==> ElementsOnly(model))
  }

  predicate ElementsOnly(model: Model) {
    && model.Group?
    && (model.first.Nested? ==> ElementsOnly(model.first.model))
    && forall i :: 0 <= i < |model.members| ==>
         model.members[i].particle.Nested? ==> ElementsOnly(model.members[i].particle.model)
  }

  /** The text after a model cannot be taken for its occurrence indicator. */
  predicate Stops(model: Model, rest: string) {
    match model
    case Mixed(_, _, _, starred) => starred || rest == "" || rest[0] != '*'
    case Group(_, _, _, _, _, occurs) => occurs != "" || rest == "" || !IsOccurs(rest[0])
  }

  // ----- consuming a piece that stands at an index

  /** The body from an index on. */
  ghost predicate From(body: string, i: nat, text: string) {
    i <= |body| && body[i..] == text
  }

  predicate NoSpaceFirst(text: string) {
    text == "" || !IsSpace(text[0])
  }

  predicate NoTokenFirst(text: string) {
    text == "" || !IsTokenChar(text[0])
  }

  /** Text that may follow a name: nothing, or a delimiter. */
  predicate Delimited(text: string) {
    text == "" || IsDelimiter(text[0])
  }

  /** Text that cannot extend a particle before it. */
  predicate Closes(text: string) {
    text != "" && IsDelimiter(text[0]) && text[0] != '*'
  }

  lemma InBody(body: string, i: nat, text: string)
    requires From(body, i, text)
    ensures i <= |body| && (text == "" <==> i == |body|)
    ensures text != "" ==> body[i] == text[0]
  {
    assert text != "" ==> body[i..][0] == body[i];
  }

  lemma PieceAt(body: string, i: nat, piece: string, rest: string)
    requires From(body, i, Then(piece, rest))
    ensures From(body, i + |piece|, rest) && StartsAt(body, i, piece)
    ensures forall k :: 0 <= k < |piece| ==> body[i + k] == piece[k]
  {
    assert |body[i..]| == |piece| + |rest|;
    forall k | 0 <= k < |piece|
      ensures body[i + k] == piece[k]
    {
      assert body[i..][k] == piece[k];
    }
    assert body[i + |piece|..] == body[i..][|piece|..];
  }

  /** One character of its own. */
  lemma CharAt(body: string, i: nat, c: string, rest: string)
    requires From(body, i, Then(c, rest)) && |c| == 1
    ensures i < |body| && body[i] == c[0] && From(body, i + 1, rest)
  {
    PieceAt(body, i, c, rest);
    assert body[i + 0] == c[0];
  }

  lemma {:induction false} SpaceAt(body: string, i: nat, space: string, rest: string)
    requires From(body, i, Then(space, rest)) && AllSpace(space) && NoSpaceFirst(rest)
    ensures i + |space| <= |body| && SkipSpace(body, i) == i + |space| && From(body, i + |space|, rest)
    decreases |space|
  {
    PieceAt(body, i, space, rest);
    InBody(body, i + |space|, rest);
    if space != "" {
      assert body[i] == space[0];
      assert body[i + 1..] == body[i..][1..] == Then(space[1..], rest);
      SpaceAt(body, i + 1, space[1..], rest);
    }
  }

  lemma {:induction false} TokenAt(body: string, i: nat, token: string, rest: string)
    requires From(body, i, Then(token, rest)) && (forall c <- token :: IsTokenChar(c)) && NoTokenFirst(rest)
    ensures i + |token| <= |body| && TokenEnd(body, i) == i + |token| && From(body, i + |token|, rest)
    decreases |token|
  {
    hide IsTokenChar;
    PieceAt(body, i, token, rest);
    InBody(body, i + |token|, rest);
    if token != "" {
      assert body[i] == token[0];
      assert body[i + 1..] == body[i..][1..] == Then(token[1..], rest);
      TokenAt(body, i + 1, token[1..], rest);
    }
  }

  lemma NameAt(body: string, i: nat, name: string, rest: string)
    requires From(body, i, Then(name, rest)) && ValidXMLName(name) && NoTokenFirst(rest)
    ensures i + |name| <= |body| && QName(body, i) == Some(i + |name|) && From(body, i + |name|, rest)
  {
    hide ValidXMLName, IsTokenChar;
    NamesAreTokens(name);
    TokenAt(body, i, name, rest);
    PieceAt(body, i, name, rest);
  }

  lemma OccursAt(body: string, i: nat, occurs: string, rest: string)
    requires From(body, i, Then(occurs, rest)) && WellFormedOccurs(occurs)
    requires occurs != "" || rest == "" || !IsOccurs(rest[0])
    ensures i + |occurs| <= |body| && OccursEnd(body, i) == i + |occurs| && From(body, i + |occurs|, rest)
  {
    PieceAt(body, i, occurs, rest);
    InBody(body, i + |occurs|, rest);
    if occurs != "" {
      assert body[i + 0] == occurs[0];
    }
  }

  /** Space, and a character of its own after it. */
  lemma SpaceCharAt(body: string, i: nat, space: string, c: string, rest: string)
    requires From(body, i, Then(space, Then(c, rest))) && AllSpace(space) && |c| == 1 && !IsSpace(c[0])
    ensures i <= |body|
    ensures var k := SkipSpace(body, i);
      k < |body| && body[k] == c[0] && From(body, k + 1, rest)
  {
    assert NoSpaceFirst(Then(c, rest));
    hide Then, NoSpaceFirst, AllSpace, From;
    InBody(body, i, Then(space, Then(c, rest)));
    SpaceAt(body, i, space, Then(c, rest));
    CharAt(body, i + |space|, c, rest);
  }

  // ----- what may follow what

  lemma DelimitedSpace(space: string, c: string, rest: string)
    requires AllSpace(space) && |c| == 1 && IsDelimiter(c[0])
    ensures Delimited(Then(space, Then(c, rest)))
    ensures c != "*" ==> Closes(Then(space, Then(c, rest)))
  {
    if space != "" {
      assert Then(space, Then(c, rest))[0] == space[0];
    } else {
      assert Then(space, Then(c, rest))[0] == c[0];
    }
  }

  lemma DelimitedEnds(rest: string)
    requires Delimited(rest)
    ensures NoTokenFirst(rest)
  {
    if rest != "" {
      DelimitersEndNames(rest[0]);
    }
  }

  lemma ClosesEnds(occurs: string, rest: string)
    requires Closes(rest) && WellFormedOccurs(occurs)
    ensures NoTokenFirst(Then(occurs, rest)) && rest != "" && !IsOccurs(rest[0])
  {
    if occurs == "" {
      DelimitersEndNames(rest[0]);
      assert Then(occurs, rest) == rest;
    } else {
      DelimitersEndNames(occurs[0]);
      assert Then(occurs, rest)[0] == occurs[0];
    }
  }

  lemma NotSpace(c: char)
    requires IsTokenChar(c) || c == '(' || c == '#'
    ensures !IsSpace(c) && c != ')' && c != ',' && c != '|' && c != '>'
    ensures IsTokenChar(c) ==> c != '(' && c != '#'
  {
  }

  lemma NameStarts(name: string, rest: string)
    requires ValidXMLName(name)
    ensures Then(name, rest) != "" && IsTokenChar(Then(name, rest)[0]) && NoSpaceFirst(Then(name, rest))
  {
    NamesAreTokens(name);
    assert Then(name, rest)[0] == name[0];
    NotSpace(name[0]);
  }

  lemma DelimitedNames(names: seq<Alternative>, close: string, rest: string)
    requires (forall i :: 0 <= i < |names| ==> WellFormedName(names[i])) && AllSpace(close)
    ensures Delimited(SpellNames(names, Then(close, Then(")", rest))))
  {
    hide ValidXMLName, Then;
    if names == [] {
      DelimitedSpace(close, ")", rest);
    } else {
      assert WellFormedName(names[0]);
      DelimitedSpace(names[0].before, "|",
                     Then(names[0].after, Then(names[0].name, SpellNames(names[1..], Then(close, Then(")", rest))))));
    }
  }

  /** A particle's text starts with a name character or an opening parenthesis. */
  lemma ParticleStarts(particle: Particle, tail: string)
    requires WellFormedParticle(particle)
    ensures var text := SpellParticle(particle, tail);
      text != "" && NoSpaceFirst(text) && text[0] != '#' && (text[0] == '(' <==> particle.Nested?)
  {
    if particle.Named? {
      hide ValidXMLName, Then;
      NameStarts(particle.name, Then(particle.occurs, tail));
      NotSpace(Then(particle.name, Then(particle.occurs, tail))[0]);
    }
  }

  lemma MembersClose(separator: char, members: seq<Member>, close: string, rest: string)
    requires separator == ',' || separator == '|'
    requires AllSpace(close) && WellFormedMembers(members)
    ensures Closes(SpellMembers(separator, members, Then(close, Then(")", rest))))
  {
    hide Then, Closes, WellFormedParticle;
    if members == [] {
      DelimitedSpace(close, ")", rest);
    } else {
      DelimitedSpace(members[0].before, [separator], Then(members[0].after,
        SpellParticle(members[0].particle, SpellMembers(separator, members[1..], Then(close, Then(")", rest))))));
    }
  }

  // ----- completeness: what the grammar spells is recognised

  /** One alternative. */
  lemma AlternativeAt(body: string, i: nat, name: Alternative, tail: string)
    requires WellFormedName(name) && Delimited(tail)
    requires From(body, i, Then(name.before, Then("|", Then(name.after, Then(name.name, tail)))))
    ensures i <= |body|
    ensures var bar := SkipSpace(body, i);
      && bar < |body| && body[bar] == '|'
      && var end := QName(body, SkipSpace(body, bar + 1));
         end.Some? && From(body, end.value, tail)
  {
    hide ValidXMLName, IsTokenChar, QName, SkipSpace, AllSpace, From, Then, NoSpaceFirst, NoTokenFirst, Delimited;
    SpaceCharAt(body, i, name.before, "|", Then(name.after, Then(name.name, tail)));
    var start := SkipSpace(body, i) + 1;
    NameStarts(name.name, tail);
    SpaceAt(body, start, name.after, Then(name.name, tail));
    DelimitedEnds(tail);
    NameAt(body, start + |name.after|, name.name, tail);
  }

  /** The alternatives, up to the closing parenthesis. */
  lemma {:induction false} NamesAt(body: string, i: nat, names: seq<Alternative>, close: string, rest: string)
    requires (forall k :: 0 <= k < |names| ==> WellFormedName(names[k])) && AllSpace(close)
    requires From(body, i, SpellNames(names, Then(close, Then(")", rest))))
    ensures i <= |body|
    ensures var start := SkipSpace(body, i);
      var end := NamesEnd(body, start);
      && end.Some? && From(body, end.value, Then(")", rest)) && (names != [] <==> start < end.value)
    decreases |names|
  {
    hide QName, SkipSpace, WellFormedName, AllSpace, Delimited, From, Then;
    if names == [] {
      assert !IsSpace(')');
      NoSpaceBefore(")", rest);
      InBody(body, i, Then(close, Then(")", rest)));
      SpaceAt(body, i, close, Then(")", rest));
      SpaceCharAt(body, i, close, ")", rest);
    } else {
      DelimitedNames(names[1..], close, rest);
      AlternativeAt(body, i, names[0], SpellNames(names[1..], Then(close, Then(")", rest))));
      NamesAt(body, QName(body, SkipSpace(body, SkipSpace(body, i) + 1)).value, names[1..], close, rest);
    }
  }

  lemma NoSpaceBefore(c: string, rest: string)
    requires |c| == 1 && !IsSpace(c[0])
    ensures NoSpaceFirst(Then(c, rest))
  {
  }

  /** The opening of mixed content. */
  lemma MixedOpens(body: string, i: nat, open: string, names: string)
    requires AllSpace(open) && Delimited(names)
    requires From(body, i, Then("(", Then(open, Then(PCDATA, names))))
    ensures i < |body| && body[i] == '('
    ensures var k := SkipSpace(body, i + 1);
      && StartsAt(body, k, PCDATA) && From(body, k + |PCDATA|, names)
      && (k + |PCDATA| < |body| ==> IsDelimiter(body[k + |PCDATA|]))
  {
    hide SkipSpace, AllSpace, From;
    CharAt(body, i, "(", Then(open, Then(PCDATA, names)));
    assert Then(PCDATA, names)[0] == '#';
    hide Then;
    SpaceAt(body, i + 1, open, Then(PCDATA, names));
    PieceAt(body, i + 1 + |open|, PCDATA, names);
    InBody(body, i + 1 + |open| + |PCDATA|, names);
  }

  /** The closing of mixed content. */
  lemma MixedCloses(body: string, close: nat, star: string, tail: string)
    requires star == "*" || (star == "" && (tail == "" || tail[0] != '*'))
    requires From(body, close, Then(")", Then(star, tail)))
    ensures close < |body| && body[close] == ')'
    ensures close + 1 < |body| && body[close + 1] == '*' <==> star == "*"
    ensures From(body, if star == "*" then close + 2 else close + 1, tail)
  {
    hide From, Then;
    CharAt(body, close, ")", Then(star, tail));
    PieceAt(body, close + 1, star, tail);
    InBody(body, close + 1 + |star|, tail);
    if star == "*" {
      assert body[close + 1 + 0] == star[0];
    }
  }

  /** Where mixed content ends, by its parts. */
  lemma MixedEndOf(body: string, i: nat, close: nat, starred: bool)
    requires i < |body|
    requires var k := SkipSpace(body, i + 1);
      && StartsAt(body, k, PCDATA)
      && (k + |PCDATA| < |body| ==> IsDelimiter(body[k + |PCDATA|]))
      && var start := SkipSpace(body, k + |PCDATA|);
         NamesEnd(body, start) == Some(close) && (close > start ==> starred)
    requires close < |body| && body[close] == ')'
    requires starred <==> close + 1 < |body| && body[close + 1] == '*'
    ensures ModelEnd(body, i) == Some(if starred then close + 2 else close + 1)
  {
    hide SkipSpace, NamesEnd, IsDelimiter;
  }

  lemma MixedAt(body: string, i: nat, model: Model, tail: string)
    requires model.Mixed? && WellFormed(model) && Stops(model, tail)
    requires From(body, i, Spell(model, tail))
    ensures i < |body| && body[i] == '('
    ensures ModelEnd(body, i).Some? && From(body, ModelEnd(body, i).value, tail)
  {
    hide SkipSpace, NamesEnd, WellFormedName, SpellNames, AllSpace, IsDelimiter, StartsAt, ModelEnd, From, Then;
    var star := if model.starred then "*" else "";
    DelimitedNames(model.names, model.close, Then(star, tail));
    MixedOpens(body, i, model.open, SpellNames(model.names, Then(model.close, Then(")", Then(star, tail)))));
    var end := SkipSpace(body, i + 1) + |PCDATA|;
    NamesAt(body, end, model.names, model.close, Then(star, tail));
    var close := NamesEnd(body, SkipSpace(body, end)).value;
    MixedCloses(body, close, star, tail);
    MixedEndOf(body, i, close, model.starred);
  }

  lemma NamedAt(body: string, i: nat, particle: Particle, tail: string)
    requires particle.Named? && WellFormedParticle(particle) && Closes(tail)
    requires From(body, i, SpellParticle(particle, tail))
    ensures i <= |body|
    ensures ParticleEnd(body, i).Some? && From(body, ParticleEnd(body, i).value, tail)
  {
    hide ValidXMLName, IsTokenChar, QName, From, Then, NoTokenFirst, OccursEnd;
    var rest := Then(particle.occurs, tail);
    ClosesEnds(particle.occurs, tail);
    NameStarts(particle.name, rest);
    NotSpace(Then(particle.name, rest)[0]);
    InBody(body, i, Then(particle.name, rest));
    NameAt(body, i, particle.name, rest);
    OccursAt(body, i + |particle.name|, particle.occurs, tail);
  }

  lemma {:induction false} ParticleAt(body: string, i: nat, particle: Particle, tail: string)
    requires WellFormedParticle(particle) && Closes(tail)
    requires From(body, i, SpellParticle(particle, tail))
    ensures i <= |body|
    ensures ParticleEnd(body, i).Some? && From(body, ParticleEnd(body, i).value, tail)
    decreases particle, 0
  {
    match particle
    case Named(_, _) => NamedAt(body, i, particle, tail);
    case Nested(model) => ModelAt(body, i, model, tail);
  }

  /** Space, one character and the start of a particle. */
  lemma BeforeParticle(body: string, i: nat, before: string, c: string, after: string, particle: Particle, tail: string)
    requires AllSpace(before) && |c| == 1 && !IsSpace(c[0]) && AllSpace(after) && WellFormedParticle(particle)
    requires From(body, i, Then(before, Then(c, Then(after, SpellParticle(particle, tail)))))
    ensures i <= |body|
    ensures var k := SkipSpace(body, i);
      && k < |body| && body[k] == c[0]
      && From(body, SkipSpace(body, k + 1), SpellParticle(particle, tail))
  {
    hide SkipSpace, AllSpace, SpellParticle, WellFormedParticle, From, Then, NoSpaceFirst;
    SpaceCharAt(body, i, before, c, Then(after, SpellParticle(particle, tail)));
    ParticleStarts(particle, tail);
    SpaceAt(body, SkipSpace(body, i) + 1, after, SpellParticle(particle, tail));
  }

  /** One step of the members, by its parts. */
  lemma MembersStep(body: string, i: nat, separator: char, known: Option<char>, next: nat)
    requires i <= |body| && (separator == ',' || separator == '|') && (known == None || known == Some(separator))
    requires var k := SkipSpace(body, i);
      k < |body| && body[k] == separator && ParticleEnd(body, SkipSpace(body, k + 1)) == Some(next)
    ensures next <= |body| && MembersEnd(body, i, known) == MembersEnd(body, next, Some(separator))
  {
    hide SkipSpace, ParticleEnd;
  }

  lemma MembersLast(body: string, i: nat, known: Option<char>)
    requires i <= |body| && SkipSpace(body, i) < |body| && body[SkipSpace(body, i)] == ')'
    ensures MembersEnd(body, i, known) == Some(SkipSpace(body, i))
  {
  }

  lemma {:induction false} MembersAt(body: string, i: nat, separator: char, known: Option<char>, members: seq<Member>,
                                     close: string, rest: string)
    requires separator == ',' || separator == '|'
    requires known == None || known == Some(separator)
    requires AllSpace(close) && WellFormedMembers(members)
    requires From(body, i, SpellMembers(separator, members, Then(close, Then(")", rest))))
    ensures i <= |body|
    ensures var end := MembersEnd(body, i, known);
      end.Some? && From(body, end.value, Then(")", rest))
    decreases members, 1
  {
    hide SkipSpace, ParticleEnd, MembersEnd, SpellParticle, WellFormedParticle, AllSpace, Closes, From, Then;
    if members == [] {
      assert !IsSpace(')');
      NoSpaceBefore(")", rest);
      SpaceCharAt(body, i, close, ")", rest);
      SpaceAt(body, i, close, Then(")", rest));
      MembersLast(body, i, known);
    } else {
      var member, tail := members[0], SpellMembers(separator, members[1..], Then(close, Then(")", rest)));
      assert !IsSpace(separator);
      BeforeParticle(body, i, member.before, [separator], member.after, member.particle, tail);
      MembersClose(separator, members[1..], close, rest);
      var start := SkipSpace(body, SkipSpace(body, i) + 1);
      ParticleAt(body, start, member.particle, tail);
      var next := ParticleEnd(body, start).value;
      MembersStep(body, i, separator, known, next);
      MembersAt(body, next, separator, Some(separator), members[1..], close, rest);
    }
  }

  /** Every model of the grammar is recognised, and the recogniser stops exactly at its end. */
  lemma {:induction false} ModelAt(body: string, i: nat, model: Model, tail: string)
    requires WellFormed(model) && Stops(model, tail)
    requires From(body, i, Spell(model, tail))
    ensures i < |body| && body[i] == '('
    ensures ModelEnd(body, i).Some? && From(body, ModelEnd(body, i).value, tail)
    decreases model, 1
  {
    if model.Mixed? {
      MixedAt(body, i, model, tail);
    } else {
      GroupAt(body, i, model, tail);
    }
  }

  /** Where a group ends, by its parts. */
  lemma GroupEndOf(body: string, i: nat, first: nat, close: nat)
    requires i < |body| && !StartsAt(body, SkipSpace(body, i + 1), PCDATA)
    requires ParticleEnd(body, SkipSpace(body, i + 1)) == Some(first)
    requires MembersEnd(body, first, None) == Some(close) && close < |body| && body[close] == ')'
    ensures ModelEnd(body, i) == Some(OccursEnd(body, close + 1))
  {
    hide SkipSpace, ParticleEnd, MembersEnd, OccursEnd, StartsAt;
  }

  /** The opening of a group, and its first particle. */
  lemma GroupOpens(body: string, i: nat, open: string, first: Particle, tail: string)
    requires AllSpace(open) && WellFormedParticle(first)
    requires From(body, i, Then("(", Then(open, SpellParticle(first, tail))))
    ensures i < |body| && body[i] == '('
    ensures var k := SkipSpace(body, i + 1);
      From(body, k, SpellParticle(first, tail)) && !StartsAt(body, k, PCDATA)
  {
    hide SkipSpace, SpellParticle, WellFormedParticle, AllSpace, From, StartsAt, Then, NoSpaceFirst;
    var text := SpellParticle(first, tail);
    CharAt(body, i, "(", Then(open, text));
    ParticleStarts(first, tail);
    SpaceAt(body, i + 1, open, text);
    InBody(body, i + 1 + |open|, text);
    HashStarts(body, i + 1 + |open|);
  }

  lemma HashStarts(body: string, k: nat)
    ensures StartsAt(body, k, PCDATA) ==> k < |body| && body[k] == '#'
  {
    assert StartsAt(body, k, PCDATA) ==> body[k] == body[k..k + |PCDATA|][0];
  }

  lemma {:induction false} GroupAt(body: string, i: nat, model: Model, tail: string)
    requires model.Group? && WellFormed(model) && Stops(model, tail)
    requires From(body, i, Spell(model, tail))
    ensures i < |body| && body[i] == '('
    ensures ModelEnd(body, i).Some? && From(body, ModelEnd(body, i).value, tail)
    decreases model, 0
  {
    hide SkipSpace, ParticleEnd, MembersEnd, SpellParticle, SpellMembers, WellFormedParticle, OccursEnd, AllSpace,
      Closes;
    hide ModelEnd, StartsAt, From, Then;
    var members := SpellMembers(model.separator, model.members, Then(model.close, Then(")", Then(model.occurs, tail))));
    GroupOpens(body, i, model.open, model.first, members);
    var k := SkipSpace(body, i + 1);
    MembersClose(model.separator, model.members, model.close, Then(model.occurs, tail));
    ParticleAt(body, k, model.first, members);
    var next := ParticleEnd(body, k).value;
    MembersAt(body, next, model.separator, None, model.members, model.close, Then(model.occurs, tail));
    var close := MembersEnd(body, next, None).value;
    CharAt(body, close, ")", Then(model.occurs, tail));
    OccursAt(body, close + 1, model.occurs, tail);
    GroupEndOf(body, i, next, close);
  }

  // ----- soundness: what is recognised, the grammar spells

  lemma SplitAt(body: string, i: nat, k: nat)
    requires i <= k <= |body|
    ensures body[i..] == Then(body[i..k], body[k..])
  {
  }

  lemma {:induction false} SpaceBefore(body: string, i: nat)
    requires i <= |body|
    ensures var k := SkipSpace(body, i);
      AllSpace(body[i..k]) && body[i..] == Then(body[i..k], body[k..])
    decreases |body| - i
  {
    SplitAt(body, i, SkipSpace(body, i));
    hide Then;
    if i < |body| && IsSpace(body[i]) {
      SpaceBefore(body, i + 1);
      var k := SkipSpace(body, i);
      assert body[i..k] == [body[i]] + body[i + 1..k];
    }
  }

  lemma FirstCharText(body: string, i: nat)
    requires i < |body|
    ensures body[i..] == Then([body[i]], body[i + 1..])
  {
  }

  lemma OccursBefore(body: string, i: nat)
    requires i <= |body|
    ensures var k := OccursEnd(body, i);
      && WellFormedOccurs(body[i..k]) && body[i..] == Then(body[i..k], body[k..])
      && (body[i..k] != "" || body[k..] == "" || !IsOccurs(body[k..][0]))
  {
  }

  lemma QNameBefore(body: string, i: nat)
    requires i <= |body| && QName(body, i).Some?
    ensures var k := QName(body, i).value;
      ValidXMLName(body[i..k]) && body[i..] == Then(body[i..k], body[k..])
  {
    hide ValidXMLName;
  }

  lemma PieceText(body: string, k: nat, piece: string)
    requires StartsAt(body, k, piece)
    ensures body[k..] == Then(piece, body[k + |piece|..])
  {
    assert body[k..] == body[k..k + |piece|] + body[k + |piece|..];
  }

  lemma SpaceThenChar(body: string, i: nat, k: nat)
    requires i <= k < |body| && k == SkipSpace(body, i)
    ensures AllSpace(body[i..k]) && body[i..] == Then(body[i..k], Then([body[k]], body[k + 1..]))
  {
    hide SkipSpace, AllSpace, Then;
    SpaceBefore(body, i);
    FirstCharText(body, k);
  }

  /** One alternative, found after its bar. */
  lemma AlternativeFound(body: string, i: nat, bar: nat, next: nat) returns (name: Alternative)
    requires i <= bar < |body| && bar == SkipSpace(body, i) && body[bar] == '|'
    requires QName(body, SkipSpace(body, bar + 1)) == Some(next)
    ensures WellFormedName(name)
    ensures body[i..] == Then(name.before, Then("|", Then(name.after, Then(name.name, body[next..]))))
  {
    hide ValidXMLName, QName, SkipSpace, AllSpace, Then;
    var k := SkipSpace(body, bar + 1);
    SpaceThenChar(body, i, bar);
    SpaceBefore(body, bar + 1);
    QNameBefore(body, k);
    name := Alternative(body[i..bar], body[bar + 1..k], body[k..next]);
  }

  /** The alternatives found, in front of the space and parenthesis that close them. */
  lemma {:induction false} NamesFound(body: string, i: nat) returns (names: seq<Alternative>, close: string)
    requires i <= |body|
    requires var end := NamesEnd(body, SkipSpace(body, i));
      end.Some? && end.value < |body| && body[end.value] == ')'
    ensures var start := SkipSpace(body, i);
      var end := NamesEnd(body, start).value;
      && AllSpace(close) && (forall k :: 0 <= k < |names| ==> WellFormedName(names[k]))
      && body[i..] == SpellNames(names, Then(close, Then(")", body[end + 1..])))
      && (names != [] <==> start < end)
    decreases |body| - i
  {
    hide QName, SkipSpace, AllSpace, WellFormedName, Then, SpellNames;
    var start := SkipSpace(body, i);
    if start < |body| && body[start] == '|' {
      var next := QName(body, SkipSpace(body, start + 1)).value;
      var name := AlternativeFound(body, i, start, next);
      var more, c := NamesFound(body, next);
      names, close := [name] + more, c;
      SpellOneMore(name, more, Then(c, Then(")", body[NamesEnd(body, start).value + 1..])));
    } else {
      SpaceThenChar(body, i, start);
      names, close := [], body[i..start];
      SpellNoMore(Then(close, Then(")", body[start + 1..])));
    }
  }

  lemma SpellOneMore(name: Alternative, more: seq<Alternative>, tail: string)
    ensures SpellNames([name] + more, tail) ==
      Then(name.before, Then("|", Then(name.after, Then(name.name, SpellNames(more, tail)))))
  {
    assert ([name] + more)[1..] == more;
  }

  lemma SpellNoMore(tail: string)
    ensures SpellNames([], tail) == tail
  {
  }

  lemma MixedFound(body: string, i: nat) returns (model: Model)
    requires i < |body| && body[i] == '(' && ModelEnd(body, i).Some?
    requires StartsAt(body, SkipSpace(body, i + 1), PCDATA)
    ensures var j := ModelEnd(body, i).value;
      model.Mixed? && WellFormed(model) && Stops(model, body[j..]) && body[i..] == Spell(model, body[j..])
  {
    hide SkipSpace, NamesEnd, WellFormedName, AllSpace, IsDelimiter, SpellNames, Then;
    var k := SkipSpace(body, i + 1);
    var end := k + |PCDATA|;
    var names, close := NamesFound(body, end);
    var c := NamesEnd(body, SkipSpace(body, end)).value;
    var starred := c + 1 < |body| && body[c + 1] == '*';
    MixedEndOf(body, i, c, starred);
    hide ModelEnd, MixedEnd, StartsAt;
    model := Mixed(body[i + 1..k], names, close, starred);
    FirstCharText(body, i);
    SpaceBefore(body, i + 1);
    PieceText(body, k, PCDATA);
    StarText(body, c, starred);
  }

  lemma StarText(body: string, c: nat, starred: bool)
    requires c < |body| && (starred <==> c + 1 < |body| && body[c + 1] == '*')
    ensures body[c + 1..] == Then(if starred then "*" else "", body[if starred then c + 2 else c + 1..])
    ensures starred || body[c + 1..] == "" || body[c + 1..][0] != '*'
  {
  }

  lemma {:induction false} ParticleFound(body: string, i: nat) returns (particle: Particle)
    requires i <= |body| && ParticleEnd(body, i).Some?
    ensures var j := ParticleEnd(body, i).value;
      WellFormedParticle(particle) && body[i..] == SpellParticle(particle, body[j..])
    decreases |body| - i, 1
  {
    if i < |body| && body[i] == '(' {
      hide Spell, ModelEnd, WellFormed, Stops;
      var model := ModelFound(body, i);
      particle := Nested(model);
    } else {
      hide ValidXMLName, QName, OccursEnd, Then, WellFormedOccurs;
      var next := QName(body, i).value;
      QNameBefore(body, i);
      OccursBefore(body, next);
      particle := Named(body[i..next], body[next..OccursEnd(body, next)]);
    }
  }

  /** One later particle, found after its separator. */
  lemma {:induction false} MemberFound(body: string, i: nat, k: nat) returns (member: Member)
    requires i <= k < |body| && k == SkipSpace(body, i)
    requires ParticleEnd(body, SkipSpace(body, k + 1)).Some?
    ensures AllSpace(member.before) && AllSpace(member.after) && WellFormedParticle(member.particle)
    ensures body[i..] == Then(member.before, Then([body[k]], Then(member.after,
      SpellParticle(member.particle, body[ParticleEnd(body, SkipSpace(body, k + 1)).value..]))))
    decreases |body| - i, 0
  {
    hide SkipSpace, AllSpace, ParticleEnd, SpellParticle, WellFormedParticle, Then;
    var start := SkipSpace(body, k + 1);
    SpaceThenChar(body, i, k);
    SpaceBefore(body, k + 1);
    var particle := ParticleFound(body, start);
    member := Member(body[i..k], body[k + 1..start], particle);
  }

  /** Members either end at once or go on with one more. */
  lemma MembersGoOn(body: string, i: nat, known: Option<char>)
    requires i <= |body| && MembersEnd(body, i, known).Some?
    requires MembersEnd(body, i, known).value < |body|
    ensures var k := SkipSpace(body, i);
      && k < |body|
      && (body[k] == ')' ==> MembersEnd(body, i, known) == Some(k))
      && (body[k] != ')' ==>
          && (body[k] == ',' || body[k] == '|') && (known == None || known == Some(body[k]))
          && var next := ParticleEnd(body, SkipSpace(body, k + 1));
             && next.Some? && i < next.value <= |body|
             && MembersEnd(body, i, known) == MembersEnd(body, next.value, Some(body[k])))
  {
    hide ParticleEnd, SkipSpace;
  }

  lemma {:induction false} MembersFound(body: string, i: nat, known: Option<char>)
    returns (separator: char, members: seq<Member>, close: string)
    requires i <= |body| && (known.Some? ==> known.value == ',' || known.value == '|')
    requires var end := MembersEnd(body, i, known);
      end.Some? && end.value < |body| && body[end.value] == ')'
    ensures var end := MembersEnd(body, i, known).value;
      && (separator == ',' || separator == '|') && (known.Some? ==> separator == known.value)
      && AllSpace(close) && WellFormedMembers(members)
      && body[i..] == SpellMembers(separator, members, Then(close, Then(")", body[end + 1..])))
    decreases |body| - i, 1
  {
    hide SkipSpace, ParticleEnd, MembersEnd, SpellParticle, SpellMembers, WellFormedParticle, AllSpace, Then;
    MembersGoOn(body, i, known);
    var k := SkipSpace(body, i);
    if body[k] == ')' {
      SpaceThenChar(body, i, k);
      separator, members, close := if known.Some? then known.value else ',', [], body[i..k];
      SpellNoMoreMembers(separator, Then(close, Then(")", body[k + 1..])));
    } else {
      var member := MemberFound(body, i, k);
      var next := ParticleEnd(body, SkipSpace(body, k + 1)).value;
      var s, more, c := MembersFound(body, next, Some(body[k]));
      separator, members, close := s, [member] + more, c;
      SpellOneMoreMember(s, member, more, Then(c, Then(")", body[MembersEnd(body, i, known).value + 1..])));
    }
  }

  lemma SpellNoMoreMembers(separator: char, tail: string)
    ensures SpellMembers(separator, [], tail) == tail
  {
  }

  lemma SpellOneMoreMember(separator: char, member: Member, more: seq<Member>, tail: string)
    ensures SpellMembers(separator, [member] + more, tail)
         == Then(member.before, Then([separator], Then(member.after,
              SpellParticle(member.particle, SpellMembers(separator, more, tail)))))
  {
    assert ([member] + more)[1..] == more;
  }

  /** How a recognised group divides. */
  lemma GroupParts(body: string, i: nat)
    requires i < |body| && ModelEnd(body, i).Some? && !StartsAt(body, SkipSpace(body, i + 1), PCDATA)
    ensures var first := ParticleEnd(body, SkipSpace(body, i + 1));
      && first.Some?
      && var close := MembersEnd(body, first.value, None);
         && close.Some? && close.value < |body| && body[close.value] == ')'
         && ModelEnd(body, i) == Some(OccursEnd(body, close.value + 1))
  {
    hide SkipSpace, ParticleEnd, MembersEnd, OccursEnd, StartsAt;
  }

  lemma {:induction false} GroupFound(body: string, i: nat) returns (model: Model)
    requires i < |body| && body[i] == '(' && ModelEnd(body, i).Some?
    requires !StartsAt(body, SkipSpace(body, i + 1), PCDATA)
    ensures var j := ModelEnd(body, i).value;
      model.Group? && WellFormed(model) && Stops(model, body[j..]) && body[i..] == Spell(model, body[j..])
    decreases |body| - i, 0, 0
  {
    hide SkipSpace, ParticleEnd, MembersEnd, SpellParticle, SpellMembers, WellFormedParticle, OccursEnd, AllSpace,
      StartsAt;
    hide ModelEnd, WellFormedOccurs, WellFormedMembers, Then;
    GroupParts(body, i);
    var k := SkipSpace(body, i + 1);
    FirstCharText(body, i);
    SpaceBefore(body, i + 1);
    var first := ParticleFound(body, k);
    var next := ParticleEnd(body, k).value;
    var separator, members, close := MembersFound(body, next, None);
    var end := MembersEnd(body, next, None).value;
    OccursBefore(body, end + 1);
    model := Group(body[i + 1..k], first, separator, members, close, body[end + 1..OccursEnd(body, end + 1)]);
  }

  /** Whatever is recognised as a model spells one of the grammar, up to where the recogniser stopped. */
  lemma {:induction false} ModelFound(body: string, i: nat) returns (model: Model)
    requires i < |body| && body[i] == '(' && ModelEnd(body, i).Some?
    ensures var j := ModelEnd(body, i).value;
      WellFormed(model) && Stops(model, body[j..]) && body[i..] == Spell(model, body[j..])
    decreases |body| - i, 0, 1
  {
    if StartsAt(body, SkipSpace(body, i + 1), PCDATA) {
      model := MixedFound(body, i);
    } else {
      model := GroupFound(body, i);
    }
  }

  // ----- the language of element declarations

  /** The recogniser accepts a model exactly when the grammar spells it, and stops exactly at its end. */
  lemma ModelsAreExactlyTheGrammar(body: string, i: nat, j: nat)
    requires i < |body| && body[i] == '('
    ensures ModelEnd(body, i) == Some(j) <==>
      j <= |body|
      && exists model :: WellFormed(model) && Stops(model, body[j..]) && body[i..] == Spell(model, body[j..])
  {
    hide ModelEnd, WellFormed, Stops, Spell;
    if ModelEnd(body, i) == Some(j) {
      var model := ModelFound(body, i);
    }
    if j <= |body| {
      forall model | WellFormed(model) && Stops(model, body[j..]) && body[i..] == Spell(model, body[j..])
        ensures ModelEnd(body, i) == Some(j)
      {
        ModelAt(body, i, model, body[j..]);
        assert |body[ModelEnd(body, i).value..]| == |body[j..]|;
      }
    }
  }

  /** Every content model of XML 1.0 is recognised wherever it stands, exactly up to its end. */
  lemma StandardModelsAreRecognised(before: string, model: Model, after: string)
    requires Standard(model) && Stops(model, after)
    ensures var body := before + Spell(model, after);
      |before| < |body| && ModelEnd(body, |before|) == Some(|body| - |after|)
  {
    var body := before + Spell(model, after);
    assert body[|before|..] == Spell(model, after);
    hide ModelEnd, Spell, WellFormed, Stops;
    ModelAt(body, |before|, model, after);
    assert |body[ModelEnd(body, |before|).value..]| == |after|;
  }

  /** The content of an element declaration. */
  datatype Content = Empty | Any | Modelled(model: Model)

  function SpellContent(content: Content, tail: string): string {
    match content
    case Empty => Then("EMPTY", tail)
    case Any => Then("ANY", tail)
    case Modelled(model) => Spell(model, tail)
  }

  predicate WellFormedContent(content: Content) {
    content.Modelled? ==> WellFormed(content.model)
  }

  datatype Declaration = Declaration(name: string, before: string, content: Content, after: string)

  predicate WellFormedDeclaration(d: Declaration) {
    ValidXMLName(d.name) && AllSpace(d.before) && d.before != "" && WellFormedContent(d.content) && AllSpace(d.after)
  }

  function SpellDeclaration(d: Declaration, tail: string): string {
    Then(d.name, Then(d.before, SpellContent(d.content, Then(d.after, Then(">", tail)))))
  }

  lemma ContentStarts(content: Content, tail: string)
    requires WellFormedContent(content)
    ensures var text := SpellContent(content, tail);
      && text != "" && NoSpaceFirst(text)
      && (content.Modelled? <==> text[0] == '(')
  {
  }

  /** Space and the end of a declaration stop every kind of content. */
  lemma ContentAt(body: string, i: nat, content: Content, tail: string)
    requires WellFormedContent(content) && Closes(tail) && (IsSpace(tail[0]) || tail[0] == '>')
    requires From(body, i, SpellContent(content, tail))
    ensures i <= |body|
    ensures ContentSpecEnd(body, i).Some? && From(body, ContentSpecEnd(body, i).value, tail)
  {
    hide ModelEnd, Spell, WellFormed, From, Then;
    ContentStarts(content, tail);
    InBody(body, i, SpellContent(content, tail));
    match content
    case Empty =>
      PieceAt(body, i, "EMPTY", tail);
      InBody(body, i + 5, tail);
    case Any =>
      PieceAt(body, i, "ANY", tail);
      InBody(body, i + 3, tail);
      assert body[i + 0] == "ANY"[0];
    case Modelled(model) =>
      ModelAt(body, i, model, tail);
  }

  lemma ContentFound(body: string, i: nat) returns (content: Content)
    requires i <= |body| && ContentSpecEnd(body, i).Some?
    ensures WellFormedContent(content)
    ensures body[i..] == SpellContent(content, body[ContentSpecEnd(body, i).value..])
  {
    hide ModelEnd, Spell, WellFormed, Stops;
    if StartsAt(body, i, "EMPTY") {
      PieceText(body, i, "EMPTY");
      content := Empty;
    } else if StartsAt(body, i, "ANY") {
      PieceText(body, i, "ANY");
      content := Any;
    } else {
      var model := ModelFound(body, i);
      content := Modelled(model);
    }
  }

  lemma DeclarationAt(body: string, i: nat, d: Declaration, tail: string)
    requires WellFormedDeclaration(d)
    requires From(body, i, SpellDeclaration(d, tail))
    ensures i <= |body|
    ensures ElementEnd(body, i).Some? && From(body, ElementEnd(body, i).value, tail)
  {
    hide ValidXMLName, IsTokenChar, QName, SkipSpace, ContentSpecEnd, SpellContent, WellFormedContent, AllSpace;
    hide From, Then, NoSpaceFirst, NoTokenFirst, Closes;
    var rest := Then(d.after, Then(">", tail));
    var text := SpellContent(d.content, rest);
    EndsDeclaration(d.after, tail);
    ContentStarts(d.content, rest);
    SpaceEndsName(d.before, text);
    InBody(body, i, Then(d.name, Then(d.before, text)));
    NameAt(body, i, d.name, Then(d.before, text));
    SpaceAt(body, i + |d.name|, d.before, text);
    var k := i + |d.name| + |d.before|;
    ContentAt(body, k, d.content, rest);
    assert !IsSpace('>');
    SpaceCharAt(body, ContentSpecEnd(body, k).value, d.after, ">", tail);
  }

  lemma EndsDeclaration(space: string, tail: string)
    requires AllSpace(space)
    ensures var text := Then(space, Then(">", tail));
      text != "" && Closes(text) && (IsSpace(text[0]) || text[0] == '>')
  {
    DelimitedSpace(space, ">", tail);
    if space != "" {
      assert Then(space, Then(">", tail))[0] == space[0];
    }
  }

  lemma SpaceEndsName(space: string, rest: string)
    requires AllSpace(space) && space != ""
    ensures NoTokenFirst(Then(space, rest))
  {
    assert Then(space, rest)[0] == space[0];
    DelimitersEndNames(space[0]);
  }

  lemma DeclarationFound(body: string, i: nat) returns (d: Declaration)
    requires i <= |body| && ElementEnd(body, i).Some?
    ensures WellFormedDeclaration(d) && body[i..] == SpellDeclaration(d, body[ElementEnd(body, i).value..])
  {
    hide ValidXMLName, QName, SkipSpace, ContentSpecEnd, SpellContent, WellFormedContent, AllSpace, Then;
    var name := QName(body, i).value;
    var k := SkipSpace(body, name);
    var end := ContentSpecEnd(body, k).value;
    QNameBefore(body, i);
    SpaceBefore(body, name);
    var content := ContentFound(body, k);
    var close := SkipSpace(body, end);
    SpaceThenChar(body, end, close);
    d := Declaration(body[i..name], body[name..k], content, body[end..close]);
  }

  /** Between the keyword and the end, element declarations are accepted exactly as the grammar spells them. */
  lemma DeclarationsAreExactlyTheGrammar(body: string, i: nat, j: nat)
    requires i <= |body|
    ensures ElementEnd(body, i) == Some(j) <==>
      j <= |body| && exists d :: WellFormedDeclaration(d) && body[i..] == SpellDeclaration(d, body[j..])
  {
    hide ElementEnd, WellFormedDeclaration, SpellDeclaration;
    if ElementEnd(body, i) == Some(j) {
      var d := DeclarationFound(body, i);
    }
    if j <= |body| {
      forall d | WellFormedDeclaration(d) && body[i..] == SpellDeclaration(d, body[j..])
        ensures ElementEnd(body, i) == Some(j)
      {
        DeclarationAt(body, i, d, body[j..]);
        assert |body[ElementEnd(body, i).value..]| == |body[j..]|;
      }
    }
  }

  // ----- which recognised models are models of XML 1.0

  predicate HasHash(text: string) {
    '#' in text
  }

  lemma HashThen(piece: string, rest: string)
    ensures HasHash(Then(piece, rest)) <==> HasHash(piece) || HasHash(rest)
  {
    var all := Then(piece, rest);
    if HasHash(piece) {
      var k :| 0 <= k < |piece| && piece[k] == '#';
      assert all[k] == '#';
    }
    if HasHash(rest) {
      var k :| 0 <= k < |rest| && rest[k] == '#';
      assert all[|piece| + k] == '#';
    }
  }

  lemma SpaceHasNoHash(space: string)
    requires AllSpace(space)
    ensures !HasHash(space)
  {
  }

  lemma NameHasNoHash(name: string)
    requires ValidXMLName(name)
    ensures !HasHash(name)
  {
    NamesAreTokens(name);
    if HasHash(name) {
      NotSpace('#');
      DelimitersEndNames('#');
    }
  }

  lemma OccursHasNoHash(occurs: string)
    requires WellFormedOccurs(occurs)
    ensures !HasHash(occurs)
  {
  }

  lemma PlainHasNoHash()
    ensures !HasHash("(") && !HasHash(")") && !HasHash("|") && !HasHash(",") && !HasHash("*") && !HasHash("")
  {
  }

  lemma SeparatorHasNoHash(separator: char)
    requires separator == ',' || separator == '|'
    ensures !HasHash([separator])
  {
  }

  lemma {:induction false} NamesHash(names: seq<Alternative>, tail: string)
    requires forall i :: 0 <= i < |names| ==> WellFormedName(names[i])
    ensures HasHash(SpellNames(names, tail)) <==> HasHash(tail)
    decreases |names|
  {
    hide HasHash, Then, ValidXMLName, AllSpace;
    if names != [] {
      var name, rest := names[0], SpellNames(names[1..], tail);
      assert WellFormedName(name);
      NamesHash(names[1..], tail);
      PlainHasNoHash();
      SpaceHasNoHash(name.before);
      SpaceHasNoHash(name.after);
      NameHasNoHash(name.name);
      HashThen(name.name, rest);
      HashThen(name.after, Then(name.name, rest));
      HashThen("|", Then(name.after, Then(name.name, rest)));
      HashThen(name.before, Then("|", Then(name.after, Then(name.name, rest))));
    }
  }

  /** Before the tail, a model's text has a hash sign exactly when it holds mixed content. */
  lemma {:induction false} ModelHash(model: Model, tail: string)
    requires WellFormed(model)
    ensures HasHash(Spell(model, tail)) <==> HasHash(tail) || !ElementsOnly(model)
    decreases model, 1
  {
    hide HasHash, Then, AllSpace, WellFormedOccurs;
    PlainHasNoHash();
    SpaceHasNoHash(model.open);
    match model
    case Mixed(open, names, close, starred) =>
      var rest := SpellNames(names, Then(close, Then(")", Then(if starred then "*" else "", tail))));
      assert HasHash(PCDATA) by { PCDATAHasHash(); }
      HashThen(PCDATA, rest);
      HashThen(open, Then(PCDATA, rest));
      HashThen("(", Then(open, Then(PCDATA, rest)));
    case Group(open, first, separator, members, close, occurs) =>
      SpaceHasNoHash(close);
      OccursHasNoHash(occurs);
      var end := Then(close, Then(")", Then(occurs, tail)));
      HashThen(occurs, tail);
      HashThen(")", Then(occurs, tail));
      HashThen(close, Then(")", Then(occurs, tail)));
      MembersHash(separator, members, end);
      var rest := SpellMembers(separator, members, end);
      ParticleHash(first, rest);
      HashThen(open, SpellParticle(first, rest));
      HashThen("(", Then(open, SpellParticle(first, rest)));
  }

  lemma PCDATAHasHash()
    ensures HasHash(PCDATA) && !HasHash(PCDATA[1..])
  {
    assert PCDATA[0] == '#';
  }

  predicate ParticleElementsOnly(particle: Particle) {
    particle.Nested? ==> ElementsOnly(particle.model)
  }

  lemma {:induction false} ParticleHash(particle: Particle, tail: string)
    requires WellFormedParticle(particle)
    ensures HasHash(SpellParticle(particle, tail)) <==> HasHash(tail) || !ParticleElementsOnly(particle)
    decreases particle, 0
  {
    hide HasHash, Then, ValidXMLName, WellFormedOccurs;
    match particle
    case Named(name, occurs) =>
      NameHasNoHash(name);
      OccursHasNoHash(occurs);
      HashThen(occurs, tail);
      HashThen(name, Then(occurs, tail));
    case Nested(model) => ModelHash(model, tail);
  }

  lemma {:induction false} MembersHash(separator: char, members: seq<Member>, tail: string)
    requires (separator == ',' || separator == '|') && WellFormedMembers(members)
    ensures HasHash(SpellMembers(separator, members, tail)) <==>
      HasHash(tail) || exists i :: 0 <= i < |members| && !ParticleElementsOnly(members[i].particle)
    decreases members, 1
  {
    hide HasHash, Then, AllSpace, WellFormedParticle, ParticleElementsOnly, SpellParticle;
    if members != [] {
      var member, more := members[0], members[1..];
      var rest := SpellMembers(separator, more, tail);
      MembersHash(separator, more, tail);
      SeparatorHasNoHash(separator);
      SpaceHasNoHash(member.before);
      SpaceHasNoHash(member.after);
      ParticleHash(member.particle, rest);
      var text := SpellParticle(member.particle, rest);
      HashThen(member.after, text);
      HashThen([separator], Then(member.after, text));
      HashThen(member.before, Then([separator], Then(member.after, text)));
      assert forall i :: 0 <= i < |more| ==> more[i] == members[i + 1];
      if exists i :: 0 <= i < |members| && !ParticleElementsOnly(members[i].particle) {
        var i :| 0 <= i < |members| && !ParticleElementsOnly(members[i].particle);
        assert i == 0 || more[i - 1] == members[i];
      }
    }
  }

  // A spelling in front of a tail is the spelling, then the tail.

  lemma ThenAppend(piece: string, rest: string, tail: string)
    ensures Then(piece, rest + tail) == Then(piece, rest) + tail
  {
  }

  lemma {:induction false} NamesAppend(names: seq<Alternative>, rest: string, tail: string)
    ensures SpellNames(names, rest + tail) == SpellNames(names, rest) + tail
    decreases |names|
  {
    hide Then;
    if names != [] {
      var name, more := names[0], SpellNames(names[1..], rest);
      NamesAppend(names[1..], rest, tail);
      ThenAppend(name.name, more, tail);
      ThenAppend(name.after, Then(name.name, more), tail);
      ThenAppend("|", Then(name.after, Then(name.name, more)), tail);
      ThenAppend(name.before, Then("|", Then(name.after, Then(name.name, more))), tail);
    }
  }

  lemma {:induction false} ModelAppend(model: Model, rest: string, tail: string)
    ensures Spell(model, rest + tail) == Spell(model, rest) + tail
    decreases model, 1
  {
    hide Then;
    match model
    case Mixed(open, names, close, starred) =>
      var star := if starred then "*" else "";
      var end := Then(close, Then(")", Then(star, rest)));
      ThenAppend(star, rest, tail);
      ThenAppend(")", Then(star, rest), tail);
      ThenAppend(close, Then(")", Then(star, rest)), tail);
      NamesAppend(names, end, tail);
      ThenAppend(PCDATA, SpellNames(names, end), tail);
      ThenAppend(open, Then(PCDATA, SpellNames(names, end)), tail);
      ThenAppend("(", Then(open, Then(PCDATA, SpellNames(names, end))), tail);
    case Group(open, first, separator, members, close, occurs) =>
      var end := Then(close, Then(")", Then(occurs, rest)));
      ThenAppend(occurs, rest, tail);
      ThenAppend(")", Then(occurs, rest), tail);
      ThenAppend(close, Then(")", Then(occurs, rest)), tail);
      MembersAppend(separator, members, end, tail);
      ParticleAppend(first, SpellMembers(separator, members, end), tail);
      ThenAppend(open, SpellParticle(first, SpellMembers(separator, members, end)), tail);
      ThenAppend("(", Then(open, SpellParticle(first, SpellMembers(separator, members, end))), tail);
  }

  lemma {:induction false} ParticleAppend(particle: Particle, rest: string, tail: string)
    ensures SpellParticle(particle, rest + tail) == SpellParticle(particle, rest) + tail
    decreases particle, 0
  {
    hide Then;
    match particle
    case Named(name, occurs) =>
      ThenAppend(occurs, rest, tail);
      ThenAppend(name, Then(occurs, rest), tail);
    case Nested(model) => ModelAppend(model, rest, tail);
  }

  lemma {:induction false} MembersAppend(separator: char, members: seq<Member>, rest: string, tail: string)
    ensures SpellMembers(separator, members, rest + tail) == SpellMembers(separator, members, rest) + tail
    decreases members, 1
  {
    hide Then;
    if members != [] {
      var member, more := members[0], SpellMembers(separator, members[1..], rest);
      MembersAppend(separator, members[1..], rest, tail);
      ParticleAppend(member.particle, more, tail);
      var text := SpellParticle(member.particle, more);
      ThenAppend(member.after, text, tail);
      ThenAppend([separator], Then(member.after, text), tail);
      ThenAppend(member.before, Then([separator], Then(member.after, text)), tail);
    }
  }

  /** A model spells the body from `i` to `j`. */
  ghost predicate SpellsFromTo(model: Model, body: string, i: nat, j: nat) {
    i <= j <= |body| && body[i..j] == Spell(model, "")
  }

  lemma SpellsBefore(model: Model, body: string, i: nat, j: nat)
    requires i <= j <= |body|
    ensures SpellsFromTo(model, body, i, j) <==> body[i..] == Spell(model, body[j..])
  {
    ModelAppend(model, "", body[j..]);
    assert "" + body[j..] == body[j..];
    assert body[i..] == body[i..j] + body[j..];
    hide Spell;
    if body[i..] == Spell(model, "") + body[j..] {
      assert |body[i..]| == |Spell(model, "")| + |body[j..]|;
      assert body[i..j] == body[i..][..j - i];
    }
  }

  /** Where the opening parenthesis and the space after it end. */
  lemma GroupHashPlace(model: Model, body: string, i: nat, j: nat)
    requires model.Group? && WellFormed(model) && SpellsFromTo(model, body, i, j)
    ensures i < |body|
    ensures var k := SkipSpace(body, i + 1);
      k < j && (HasHash(body[k + 1..j]) <==> !ElementsOnly(model))
  {
    hide SkipSpace, SpellParticle, SpellMembers, WellFormedParticle, AllSpace, ElementsOnly, From, Then, HasHash,
      StartsAt;
    PlainHasNoHash();
    ModelHash(model, "");
    SpellsBefore(model, body, i, j);
    var members := SpellMembers(model.separator, model.members,
      Then(model.close, Then(")", Then(model.occurs, body[j..]))));
    var first := FirstText(model, body[j..]);
    assert body[i..] == Then("(", Then(model.open, first));
    assert From(body, i, body[i..]) by { FromHere(body, i); }
    ParticleStarts(model.first, members);
    GroupOpens(body, i, model.open, model.first, members);
    var k := SkipSpace(body, i + 1);
    InBody(body, k, first);
    SpaceBefore(body, i + 1);
    SpaceHasNoHash(body[i + 1..k]);
    BeyondOpening(model, body, j, k);
    HashAfter(body, i, k, j);
  }

  lemma FromHere(body: string, i: nat)
    requires i <= |body|
    ensures From(body, i, body[i..])
  {
  }

  lemma NoHashAt(body: string, i: nat, k: nat, m: nat)
    requires i <= m < k <= |body| && !HasHash(body[i..k])
    ensures body[m] != '#'
  {
    assert body[i..k][m - i] == body[m];
  }

  lemma HashAfter(body: string, i: nat, k: nat, j: nat)
    requires i < k < j <= |body| && body[i] != '#' && body[k] != '#' && !HasHash(body[i + 1..k])
    ensures HasHash(body[i..j]) <==> HasHash(body[k + 1..j])
  {
    if HasHash(body[i..j]) {
      var m :| 0 <= m < j - i && body[i..j][m] == '#';
      assert body[i + m] == '#';
      if i + m < k {
        NoHashAt(body, i + 1, k, i + m);
      }
      assert body[k + 1..j][i + m - k - 1] == '#';
    }
    if HasHash(body[k + 1..j]) {
      var m :| 0 <= m < j - k - 1 && body[k + 1..j][m] == '#';
      assert body[i..j][k + 1 + m - i] == '#';
    }
  }

  /** The text of a group from its first particle on. */
  function FirstText(model: Model, tail: string): string
    requires model.Group?
  {
    SpellParticle(model.first,
      SpellMembers(model.separator, model.members, Then(model.close, Then(")", Then(model.occurs, tail)))))
  }

  lemma FirstTextAppend(model: Model, tail: string)
    requires model.Group?
    ensures FirstText(model, tail) == FirstText(model, "") + tail
  {
    hide Then;
    var end := Then(model.close, Then(")", Then(model.occurs, "")));
    assert "" + tail == tail;
    ThenAppend(model.occurs, "", tail);
    ThenAppend(")", Then(model.occurs, ""), tail);
    ThenAppend(model.close, Then(")", Then(model.occurs, "")), tail);
    MembersAppend(model.separator, model.members, end, tail);
    ParticleAppend(model.first, SpellMembers(model.separator, model.members, end), tail);
  }

  /** The first particle of a group begins before the group ends. */
  lemma BeyondOpening(model: Model, body: string, j: nat, k: nat)
    requires model.Group? && WellFormed(model) && j <= |body| && From(body, k, FirstText(model, body[j..]))
    ensures k < j
  {
    FirstTextAppend(model, body[j..]);
    var end := Then(model.close, Then(")", Then(model.occurs, "")));
    ParticleStarts(model.first, SpellMembers(model.separator, model.members, end));
    assert |body[k..]| == |FirstText(model, "")| + |body[j..]|;
  }

  /** Mixed content has its one hash sign right after the opening. */
  lemma MixedHashPlace(model: Model, body: string, i: nat, j: nat)
    requires model.Mixed? && WellFormed(model) && SpellsFromTo(model, body, i, j)
    ensures i < |body|
    ensures var k := SkipSpace(body, i + 1);
      k < j && !HasHash(body[k + 1..j])
  {
    hide SkipSpace, SpellNames, AllSpace, From, Then, HasHash, StartsAt, WellFormedName, IsDelimiter;
    SpellsBefore(model, body, i, j);
    var star := if model.starred then "*" else "";
    var end := Then(model.close, Then(")", Then(star, "")));
    var names := SpellNames(model.names, Then(model.close, Then(")", Then(star, body[j..]))));
    var short := SpellNames(model.names, end);
    assert "" + body[j..] == body[j..];
    ThenAppend(star, "", body[j..]);
    ThenAppend(")", Then(star, ""), body[j..]);
    ThenAppend(model.close, Then(")", Then(star, "")), body[j..]);
    NamesAppend(model.names, end, body[j..]);
    DelimitedNames(model.names, model.close, Then(star, body[j..]));
    FromHere(body, i);
    MixedOpens(body, i, model.open, names);
    var k := SkipSpace(body, i + 1);
    MixedRest(body, k, j, names, short);
    assert !HasHash(short) by {
      PlainHasNoHash();
      SpaceHasNoHash(model.close);
      HashThen(star, "");
      HashThen(")", Then(star, ""));
      HashThen(model.close, Then(")", Then(star, "")));
      NamesHash(model.names, end);
    }
    PCDATAHasHash();
    HashThen(PCDATA[1..], short);
  }

  lemma MixedRest(body: string, k: nat, j: nat, names: string, short: string)
    requires StartsAt(body, k, PCDATA) && From(body, k + |PCDATA|, names)
    requires j <= |body| && names == short + body[j..]
    ensures k < j && body[k + 1..j] == Then(PCDATA[1..], short)
  {
    var p := k + |PCDATA|;
    assert |body[p..]| == |short| + |body[j..]|;
    assert body[p..j] == body[p..][..|short|] == short;
    assert body[k + 1..p] == body[k..p][1..];
    assert body[k + 1..j] == body[k + 1..p] + body[p..j];
  }

  lemma HashPlace(model: Model, body: string, i: nat, j: nat)
    requires WellFormed(model) && SpellsFromTo(model, body, i, j)
    ensures i < |body|
    ensures var k := SkipSpace(body, i + 1);
      k < j && (HasHash(body[k + 1..j]) <==> !Standard(model))
  {
    hide SkipSpace, HasHash, WellFormed, SpellsFromTo;
    if model.Mixed? {
      MixedHashPlace(model, body, i, j);
    } else {
      GroupHashPlace(model, body, i, j);
    }
  }

  /** A recognised model is one of XML 1.0 exactly when no hash sign follows its first character. */
  lemma StandardExactlyWithoutHash(body: string, i: nat, j: nat)
    requires i < |body| && body[i] == '(' && ModelEnd(body, i) == Some(j)
    ensures var k := SkipSpace(body, i + 1);
      && k < j
      && ((exists model :: Standard(model) && SpellsFromTo(model, body, i, j)) <==> !HasHash(body[k + 1..j]))
  {
    hide SkipSpace, HasHash, ModelEnd, Spell, Stops, ElementsOnly, WellFormed, SpellsFromTo;
    var found := ModelFound(body, i);
    SpellsBefore(found, body, i, j);
    HashPlace(found, body, i, j);
    forall model | Standard(model) && SpellsFromTo(model, body, i, j)
      ensures !HasHash(body[SkipSpace(body, i + 1) + 1..j])
    {
      HashPlace(model, body, i, j);
    }
  }

  lemma WholeModel(model: Model)
    requires WellFormed(model)
    ensures var body := Spell(model, "");
      body != "" && ModelEnd(body, 0) == Some(|body|)
  {
    hide ModelEnd, Spell, WellFormed;
    var body := Spell(model, "");
    assert body[0..] == body;
    ModelAt(body, 0, model, "");
    InBody(body, ModelEnd(body, 0).value, "");
  }

  const NESTED_MIXED: Model := Group("", Nested(Mixed("", [], "", false)), ',', [Member("", "", Named("a", ""))], "",
    "")

  lemma NestedMixedIsWellFormed()
    ensures WellFormed(NESTED_MIXED) && !Standard(NESTED_MIXED)
  {
    ValidName();
    assert WellFormed(NESTED_MIXED.first.model);
  }

  lemma NestedMixedText()
    ensures Spell(NESTED_MIXED, "") == "((#PCDATA),a)"
  {
    var members := SpellMembers(',', NESTED_MIXED.members, ")");
    MemberText(")");
    MixedText(members);
    assert Then("", Then(")", Then("", ""))) == ")";
    assert Spell(NESTED_MIXED, "") == Then("(", Then("", Spell(NESTED_MIXED.first.model, members)));
    hide Spell, SpellMembers;
    assert "(" + ("(#PCDATA)" + ",a)") == "((#PCDATA),a)";
  }

  /** More than XML 1.0 is accepted: a group may hold mixed content. */
  lemma NestedMixedIsAccepted()
    ensures !Standard(NESTED_MIXED) && ModelEnd("((#PCDATA),a)", 0) == Some(13)
  {
    NestedMixedIsWellFormed();
    NestedMixedText();
    hide Spell, Standard, WellFormed, ModelEnd;
    WholeModel(NESTED_MIXED);
  }

  lemma MixedText(tail: string)
    ensures Spell(Mixed("", [], "", false), tail) == "(#PCDATA)" + tail
  {
    assert SpellNames([], Then("", Then(")", Then("", tail)))) == ")" + tail;
  }

  lemma MemberText(tail: string)
    ensures SpellMembers(',', [Member("", "", Named("a", ""))], tail) == ",a" + tail
  {
    var members := [Member("", "", Named("a", ""))];
    assert members[1..] == [];
    assert SpellMembers(',', members[1..], tail) == tail;
    assert SpellParticle(members[0].particle, tail) == "a" + tail;
  }

  lemma ValidName()
    ensures ValidXMLName("a")
  {
    assert IndexOfColon("a"[1..]) == 0;
  }
}
