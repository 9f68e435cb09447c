/** The recogniser of element type declarations in document type declarations (instance.go, schema_build.go). */
module DoctypeModels {
  import opened Wrappers
  import Lexical

  // ----- characters and names

  predicate InRange(c: char, first: int, last: int) {
    first <= c as int <= last
  }

  predicate IsNameStart(c: char) {
    || c == '_' || 'A' <= c <= 'Z' || 'a' <= c <= 'z'
    || InRange(c, 0xC0, 0xD6) || InRange(c, 0xD8, 0xF6) || InRange(c, 0xF8, 0x2FF) || InRange(c, 0x370, 0x37D)
    || InRange(c, 0x37F, 0x1FFF) || InRange(c, 0x200C, 0x200D) || InRange(c, 0x2070, 0x218F)
    || InRange(c, 0x2C00, 0x2FEF) || InRange(c, 0x3001, 0xD7FF) || InRange(c, 0xF900, 0xFDCF)
    || InRange(c, 0xFDF0, 0xFFFD) || InRange(c, 0x10000, 0xEFFFF)
  }

  predicate IsNameChar(c: char) {
    || IsNameStart(c) || c == '-' || c == '.' || '0' <= c <= '9' || c as int == 0xB7
    || InRange(c, 0x300, 0x36F) || InRange(c, 0x203F, 0x2040)
  }

  predicate IsTokenChar(c: char) {
    c == ':' || IsNameChar(c)
  }

  predicate ValidNCName(value: string) {
    value != "" && IsNameStart(value[0]) && forall c <- value :: IsNameChar(c)
  }

  function IndexOfColon(value: string): (i: nat)
    ensures i <= |value| && (i < |value| ==> value[i] == ':')
    ensures forall k :: 0 <= k < i ==> value[k] != ':'
  {
    if value == "" || value[0] == ':' then 0 else 1 + IndexOfColon(value[1..])
  }

  /** One unprefixed name, or a prefix and a local part around the only colon. */
  predicate ValidXMLName(value: string) {
    var separator := IndexOfColon(value);
    if separator == |value| then ValidNCName(value)
    else ValidNCName(value[..separator]) && ValidNCName(value[separator + 1..])
  }

  predicate IsSpace(c: char) {
    Lexical.IsXMLWhitespace(c)
  }

  predicate AllSpace(s: string) {
    forall c <- s :: IsSpace(c)
  }

  predicate IsDelimiter(c: char) {
    IsSpace(c) || c == '>' || c == ')' || c == '|' || c == ',' || c == '*'
  }

  predicate IsOccurs(c: char) {
    c == '?' || c == '*' || c == '+'
  }

  lemma DelimitersEndNames(c: char)
    requires IsDelimiter(c) || IsOccurs(c) || c == '(' || c == '#'
    ensures !IsTokenChar(c)
  {
  }

  lemma NamesAreTokens(name: string)
    requires ValidXMLName(name)
    ensures name != "" && forall c <- name :: IsTokenChar(c)
  {
    hide IsNameStart, IsNameChar;
    var separator := IndexOfColon(name);
    forall k | 0 <= k < |name|
      ensures IsTokenChar(name[k])
    {
      if separator < |name| && k < separator {
        assert name[..separator][k] == name[k];
      } else if separator < |name| && k > separator {
        assert name[separator + 1..][k - separator - 1] == name[k];
      }
    }
  }

  // ----- what the recogniser consumes: the index after it, if any

  predicate StartsAt(body: string, i: nat, word: string) {
    i + |word| <= |body| && body[i..i + |word|] == word
  }

  function SkipSpace(body: string, i: nat): (j: nat)
    requires i <= |body|
    ensures i <= j <= |body|
    decreases |body| - i
  {
    if i < |body| && IsSpace(body[i]) then SkipSpace(body, i + 1) else i
  }

  function TokenEnd(body: string, i: nat): (j: nat)
    requires i <= |body|
    ensures i <= j <= |body|
    decreases |body| - i
  {
    if i < |body| && IsTokenChar(body[i]) then TokenEnd(body, i + 1) else i
  }

  function QName(body: string, i: nat): (j: Option<nat>)
    requires i <= |body|
    ensures j.Some? ==> i < j.value <= |body|
  {
    var end := TokenEnd(body, i);
    if end == i || !ValidXMLName(body[i..end]) then None else Some(end)
  }

  function OccursEnd(body: string, i: nat): (j: nat)
    requires i <= |body|
    ensures i <= j <= |body|
  {
    if i < |body| && IsOccurs(body[i]) then i + 1 else i
  }

  const PCDATA: string := "#PCDATA"

  function ModelEnd(body: string, i: nat): (j: Option<nat>)
    requires i < |body|
    ensures j.Some? ==> i < j.value <= |body|
    decreases |body| - i, 0
  {
    var k := SkipSpace(body, i + 1);
    if StartsAt(body, k, PCDATA) then MixedEnd(body, k) else ChildrenEnd(body, k)
  }

  function MixedEnd(body: string, i: nat): (j: Option<nat>)
    requires StartsAt(body, i, PCDATA)
    ensures j.Some? ==> i < j.value <= |body|
  {
    var end := i + |PCDATA|;
    if end < |body| && !IsDelimiter(body[end]) then None
    else
      var start := SkipSpace(body, end);
      var names := NamesEnd(body, start);
      if names.None? then None
      else
        var close := names.value;
        if close >= |body| || body[close] != ')' then None
        else if close > start && (close + 1 >= |body| || body[close + 1] != '*') then None
        else Some(if close + 1 < |body| && body[close + 1] == '*' then close + 2 else close + 1)
  }

  function NamesEnd(body: string, i: nat): (j: Option<nat>)
    requires i <= |body|
    ensures j.Some? ==> i <= j.value <= |body|
    decreases |body| - i
  {
    if i < |body| && body[i] == '|' then
      var name := QName(body, SkipSpace(body, i + 1));
      if name.None? then None else NamesEnd(body, SkipSpace(body, name.value))
    else Some(i)
  }

  function ChildrenEnd(body: string, i: nat): (j: Option<nat>)
    requires i <= |body|
    ensures j.Some? ==> i < j.value <= |body|
    decreases |body| - i, 2
  {
    var first := ParticleEnd(body, i);
    if first.None? then None
    else
      var close := MembersEnd(body, first.value, None);
      if close.None? || close.value >= |body| || body[close.value] != ')' then None
      else Some(OccursEnd(body, close.value + 1))
  }

  function MembersEnd(body: string, i: nat, separator: Option<char>): (j: Option<nat>)
    requires i <= |body|
    ensures j.Some? ==> i <= j.value <= |body|
    decreases |body| - i, 0
  {
    var k := SkipSpace(body, i);
    if k >= |body| || body[k] == ')' then Some(k)
    else if body[k] != ',' && body[k] != '|' then None
    else if separator.Some? && separator.value != body[k] then None
    else
      var particle := ParticleEnd(body, SkipSpace(body, k + 1));
      if particle.None? then None else MembersEnd(body, particle.value, Some(body[k]))
  }

  function ParticleEnd(body: string, i: nat): (j: Option<nat>)
    requires i <= |body|
    ensures j.Some? ==> i < j.value <= |body|
    decreases |body| - i, 1
  {
    if i < |body| && body[i] == '(' then ModelEnd(body, i)
    else
      var name := QName(body, i);
      if name.None? then None else Some(OccursEnd(body, name.value))
  }

  function ContentSpecEnd(body: string, i: nat): (j: Option<nat>)
    requires i <= |body|
    ensures j.Some? ==> i < j.value <= |body|
  {
    if StartsAt(body, i, "EMPTY") then KeywordEnd(body, i + 5)
    else if StartsAt(body, i, "ANY") then KeywordEnd(body, i + 3)
    else if i >= |body| || body[i] != '(' then None
    else ModelEnd(body, i)
  }

  function KeywordEnd(body: string, end: nat): (j: Option<nat>)
    requires end <= |body|
    ensures j.Some? ==> j.value == end
  {
    if end == |body| || IsSpace(body[end]) || body[end] == '>' then Some(end) else None
  }

  function MarkupEnd(body: string, i: nat): (j: Option<nat>)
    requires i <= |body|
    ensures j.Some? ==> i < j.value <= |body|
  {
    var k := SkipSpace(body, i);
    if k >= |body| || body[k] != '>' then None else Some(k + 1)
  }

  /** From the element name to the closing angle bracket. */
  function ElementEnd(body: string, i: nat): (j: Option<nat>)
    requires i <= |body|
    ensures j.Some? ==> i < j.value <= |body|
  {
    var name := QName(body, i);
    if name.None? then None
    else
      var k := SkipSpace(body, name.value);
      if k == name.value then None
      else
        var content := ContentSpecEnd(body, k);
        if content.None? then None else MarkupEnd(body, content.value)
  }

  // ----- the recogniser, advancing an index

  method ConsumeSpace(body: string, index: nat) returns (end: nat, consumed: bool)
    requires index <= |body|
    ensures end == SkipSpace(body, index) && consumed == (end != index)
  {
    end := index;
    while end < |body| && IsSpace(body[end])
      invariant index <= end <= |body| && SkipSpace(body, end) == SkipSpace(body, index)
    {
      end := end + 1;
    }
    consumed := end != index;
  }

  method ConsumeQName(body: string, index: nat) returns (end: nat, ok: bool)
    requires index <= |body|
    ensures ok == QName(body, index).Some? && (ok ==> end == QName(body, index).value)
  {
    hide IsTokenChar, ValidXMLName;
    end := index;
    while end < |body| && IsTokenChar(body[end])
      invariant index <= end <= |body| && TokenEnd(body, end) == TokenEnd(body, index)
    {
      end := end + 1;
    }
    ok := end != index && ValidXMLName(body[index..end]);
  }

  method ConsumeModel(body: string, start: nat) returns (index: nat, ok: bool)
    requires start < |body|
    ensures ok == ModelEnd(body, start).Some? && (ok ==> index == ModelEnd(body, start).value)
    decreases |body| - start, 0
  {
    var spaced;
    index, spaced := ConsumeSpace(body, start + 1);
    if StartsAt(body, index, PCDATA) {
      index, ok := ConsumeMixedModel(body, index);
    } else {
      index, ok := ConsumeChildrenModel(body, index);
    }
  }

  method ConsumeMixedModel(body: string, start: nat) returns (index: nat, ok: bool)
    requires StartsAt(body, start, PCDATA)
    ensures ok == MixedEnd(body, start).Some? && (ok ==> index == MixedEnd(body, start).value)
  {
    hide IsDelimiter, QName, SkipSpace;
    index := start + |PCDATA|;
    if index < |body| && !IsDelimiter(body[index]) {
      return index, false;
    }
    var spaced;
    index, spaced := ConsumeSpace(body, index);
    ghost var first := index;
    var nameCount := 0;
    while index < |body| && body[index] == '|'
      invariant first <= index <= |body| && NamesEnd(body, index) == NamesEnd(body, first)
      invariant nameCount > 0 <==> index > first
      decreases |body| - index
    {
      index, spaced := ConsumeSpace(body, index + 1);
      index, ok := ConsumeQName(body, index);
      if !ok {
        return;
      }
      nameCount := nameCount + 1;
      index, spaced := ConsumeSpace(body, index);
    }
    if index >= |body| || body[index] != ')' {
      return index, false;
    }
    index := index + 1;
    if nameCount > 0 && (index >= |body| || body[index] != '*') {
      return index, false;
    }
    if index < |body| && body[index] == '*' {
      index := index + 1;
    }
    ok := true;
  }

  method ConsumeChildrenModel(body: string, start: nat) returns (index: nat, ok: bool)
    requires start <= |body|
    ensures ok == ChildrenEnd(body, start).Some? && (ok ==> index == ChildrenEnd(body, start).value)
    decreases |body| - start, 2
  {
    index, ok := ConsumeContentParticle(body, start);
    if !ok {
      return;
    }
    index, ok := ConsumeModelMembers(body, index);
    if !ok {
      return;
    }
    if index >= |body| || body[index] != ')' {
      return index, false;
    }
    index := index + 1;
    if index < |body| && IsOccurs(body[index]) {
      index := index + 1;
    }
  }

  method ConsumeModelMembers(body: string, start: nat) returns (index: nat, ok: bool)
    requires start <= |body|
    ensures ok == MembersEnd(body, start, None).Some? && (ok ==> index == MembersEnd(body, start, None).value)
    decreases |body| - start, 2
  {
    hide SkipSpace, ParticleEnd;
    var separator: Option<char> := None;
    index := start;
    while true
      invariant start <= index <= |body| && MembersEnd(body, index, separator) == MembersEnd(body, start, None)
      decreases |body| - index
    {
      ghost var before := index;
      var spaced;
      index, spaced := ConsumeSpace(body, index);
      if index >= |body| || body[index] == ')' {
        return index, true;
      }
      if body[index] != ',' && body[index] != '|' {
        return index, false;
      }
      if separator.None? {
        separator := Some(body[index]);
      }
      if Some(body[index]) != separator {
        return index, false;
      }
      index, spaced := ConsumeSpace(body, index + 1);
      index, ok := ConsumeContentParticle(body, index);
      if !ok {
        return;
      }
    }
  }

  method ConsumeContentParticle(body: string, start: nat) returns (index: nat, ok: bool)
    requires start <= |body|
    ensures ok == ParticleEnd(body, start).Some? && (ok ==> index == ParticleEnd(body, start).value)
    decreases |body| - start, 1
  {
    hide QName;
    if start < |body| && body[start] == '(' {
      index, ok := ConsumeModel(body, start);
      return;
    }
    index, ok := ConsumeQName(body, start);
    if ok && index < |body| && IsOccurs(body[index]) {
      index := index + 1;
    }
  }

  method ConsumeElement(body: string, start: nat) returns (index: nat, ok: bool)
    requires start <= |body|
    ensures ok == ElementEnd(body, start).Some? && (ok ==> index == ElementEnd(body, start).value)
  {
    hide QName, SkipSpace;
    index, ok := ConsumeQName(body, start);
    if !ok {
      return;
    }
    index, ok := ConsumeSpace(body, index);
    if !ok {
      return;
    }
    index, ok := ConsumeContentSpec(body, index);
    if !ok {
      return;
    }
    var spaced;
    index, spaced := ConsumeSpace(body, index);
    ok := index < |body| && body[index] == '>';
    index := index + 1;
  }

  method ConsumeContentSpec(body: string, start: nat) returns (index: nat, ok: bool)
    requires start <= |body|
    ensures ok == ContentSpecEnd(body, start).Some? && (ok ==> index == ContentSpecEnd(body, start).value)
  {
    var keywords := ["EMPTY", "ANY"];
    for k := 0 to 2
      invariant k > 0 ==> !StartsAt(body, start, "EMPTY")
      invariant k > 1 ==> !StartsAt(body, start, "ANY")
    {
      if StartsAt(body, start, keywords[k]) {
        index := start + |keywords[k]|;
        ok := index == |body| || IsSpace(body[index]) || body[index] == '>';
        return;
      }
    }
    if start >= |body| || body[start] != '(' {
      return start, false;
    }
    index, ok := ConsumeModel(body, start);
  }
}
