/** The recognisers of attribute list, entity and notation declarations (instance.go). */
module DoctypeDeclarations {
  import opened Wrappers
  import opened DoctypeModels

  // ----- names and words: the index after them, if any

  function NameEnd(body: string, i: nat): (j: Option<nat>)
    requires i <= |body|
    ensures j.Some? ==> i < j.value <= |body|
  {
    var end := TokenEnd(body, i);
    if end == i || !ValidNCName(body[i..end]) then None else Some(end)
  }

  function NmtokenEnd(body: string, i: nat): (j: Option<nat>)
    requires i <= |body|
    ensures j.Some? ==> i < j.value <= |body|
  {
    var end := TokenEnd(body, i);
    if end == i then None else Some(end)
  }

  function WordEnd(body: string, i: nat, word: string): (j: Option<nat>)
    requires i <= |body|
    ensures j.Some? ==> j.value == i + |word| <= |body|
  {
    var end := i + |word|;
    if !StartsAt(body, i, word) || (end < |body| && !IsDelimiter(body[end])) then None else Some(end)
  }

  predicate IsQuote(c: char) {
    c == '\'' || c == '"'
  }

  // ----- references

  predicate IsReferenceDigit(c: char, hexadecimal: bool) {
    '0' <= c <= '9' || (hexadecimal && ('a' <= c <= 'f' || 'A' <= c <= 'F'))
  }

  function DigitValue(c: char): (n: nat)
    requires IsReferenceDigit(c, true)
    ensures n < 16
  {
    if '0' <= c <= '9' then c as int - '0' as int
    else if 'a' <= c <= 'f' then c as int - 'a' as int + 10
    else c as int - 'A' as int + 10
  }

  function CodePoint(digits: string, base: nat): nat
    requires forall c <- digits :: IsReferenceDigit(c, true)
  {
    if digits == "" then 0
    else CodePoint(digits[..|digits| - 1], base) * base + DigitValue(digits[|digits| - 1])
  }

  /** A character of XML 1.0, section 2.2. */
  predicate ValidCharacter(code: nat) {
    || code in {0x9, 0xA, 0xD} || 0x20 <= code <= 0xD7FF || 0xE000 <= code <= 0xFFFD || 0x10000 <= code <= 0x10FFFF
  }

  predicate ValidDigits(digits: string, hexadecimal: bool) {
    && digits != "" && (forall c <- digits :: IsReferenceDigit(c, hexadecimal))
    && ValidCharacter(CodePoint(digits, if hexadecimal then 16 else 10))
  }

  function DigitsEnd(body: string, i: nat, hexadecimal: bool): (j: nat)
    requires i <= |body|
    ensures i <= j <= |body| && forall k :: i <= k < j ==> IsReferenceDigit(body[k], hexadecimal)
    ensures j < |body| ==> !IsReferenceDigit(body[j], hexadecimal)
    decreases |body| - i
  {
    if i < |body| && IsReferenceDigit(body[i], hexadecimal) then DigitsEnd(body, i + 1, hexadecimal) else i
  }

  function CharReferenceEnd(body: string, i: nat): (j: Option<nat>)
    requires i < |body|
    ensures j.Some? ==> i < j.value <= |body|
  {
    var hexadecimal := i + 1 < |body| && body[i + 1] == 'x';
    var start := if hexadecimal then i + 2 else i + 1;
    var end := DigitsEnd(body, start, hexadecimal);
    if end >= |body| || body[end] != ';' || !ValidDigits(body[start..end], hexadecimal) then None else Some(end + 1)
  }

  function ReferenceEnd(body: string, i: nat): (j: Option<nat>)
    requires i < |body| && body[i] == '&'
    ensures j.Some? ==> i < j.value <= |body|
  {
    if i + 1 < |body| && body[i + 1] == '#' then CharReferenceEnd(body, i + 1)
    else
      var name := NameEnd(body, i + 1);
      if name.None? || name.value >= |body| || body[name.value] != ';' then None else Some(name.value + 1)
  }

  // ----- literals

  /** Quoted text of references and other characters, of which one is refused. */
  function TextEnd(body: string, i: nat, quote: char, refused: char): (j: Option<nat>)
    requires i <= |body|
    ensures j.Some? ==> i < j.value <= |body|
    decreases |body| - i
  {
    if i == |body| then None
    else if body[i] == quote then Some(i + 1)
    else if body[i] == '&' then
      var reference := ReferenceEnd(body, i);
      if reference.None? then None else TextEnd(body, reference.value, quote, refused)
    else if body[i] == refused then None
    else TextEnd(body, i + 1, quote, refused)
  }

  function EntityValueEnd(body: string, i: nat): (j: Option<nat>)
    requires i <= |body|
    ensures j.Some? ==> i < j.value <= |body|
  {
    if i == |body| || !IsQuote(body[i]) then None else TextEnd(body, i + 1, body[i], '%')
  }

  /** As the source scans it: the character after a reference is passed over unless it starts another one. */
  function ValueTextEnd(body: string, i: nat, quote: char): (j: Option<nat>)
    requires i <= |body|
    ensures j.Some? ==> i < j.value <= |body|
    decreases |body| - i
  {
    if i == |body| then None
    else if body[i] == quote then Some(i + 1)
    else if body[i] == '<' then None
    else if body[i] == '&' then
      var reference := ReferenceEnd(body, i);
      if reference.None? then None else ValueTextEnd(body, AfterReference(body, reference.value), quote)
    else ValueTextEnd(body, i + 1, quote)
  }

  function AfterReference(body: string, i: nat): (j: nat)
    requires i <= |body|
    ensures i <= j <= |body|
  {
    if i < |body| && body[i] != '&' then i + 1 else i
  }

  function AttributeValueEnd(body: string, i: nat): (j: Option<nat>)
    requires i <= |body|
    ensures j.Some? ==> i < j.value <= |body|
  {
    if i == |body| || !IsQuote(body[i]) then None else ValueTextEnd(body, i + 1, body[i])
  }

  function QuoteEnd(body: string, i: nat, quote: char): (j: nat)
    requires i <= |body|
    ensures i <= j <= |body| && (j < |body| ==> body[j] == quote)
    decreases |body| - i
  {
    if i < |body| && body[i] != quote then QuoteEnd(body, i + 1, quote) else i
  }

  predicate IsPubidChar(c: char) {
    || c == ' ' || c == '\r' || c == '\n' || 'a' <= c <= 'z' || 'A' <= c <= 'Z' || '0' <= c <= '9'
    || c in "-'()+,./:=?;!*#@$_%"
  }

  function LiteralEnd(body: string, i: nat, pubid: bool): (j: Option<nat>)
    requires i <= |body|
    ensures j.Some? ==> i < j.value <= |body|
  {
    if i == |body| || !IsQuote(body[i]) then None
    else
      var end := QuoteEnd(body, i + 1, body[i]);
      if end == |body| || (pubid && exists c <- body[i + 1..end] :: !IsPubidChar(c)) then None else Some(end + 1)
  }

  function ExternalWordEnd(body: string, i: nat): (j: nat)
    requires i <= |body|
    ensures i <= j <= |body|
    decreases |body| - i
  {
    if i < |body| && !IsSpace(body[i]) && body[i] != '[' then ExternalWordEnd(body, i + 1) else i
  }

  /** A literal with space before it. */
  function SpacedLiteralEnd(body: string, i: nat, pubid: bool): (j: Option<nat>)
    requires i <= |body|
    ensures j.Some? ==> i < j.value <= |body|
  {
    var k := SkipSpace(body, i);
    if k == i then None else LiteralEnd(body, k, pubid)
  }

  function ExternalIDEnd(body: string, i: nat): (j: Option<nat>)
    requires i <= |body|
    ensures j.Some? ==> i < j.value <= |body|
  {
    var end := ExternalWordEnd(body, i);
    var keyword := body[i..end];
    if keyword == "SYSTEM" then SpacedLiteralEnd(body, end, false)
    else if keyword == "PUBLIC" then
      var pubid := SpacedLiteralEnd(body, end, true);
      if pubid.None? then None else SpacedLiteralEnd(body, pubid.value, false)
    else None
  }

  // ----- attribute lists

  /** The first of the words that stands here and ends at space, a bracket or the end. */
  function KeywordOf(body: string, i: nat, words: seq<string>): (j: Option<nat>)
    requires i <= |body|
    ensures j.Some? ==> i <= j.value <= |body|
  {
    if words == [] then None
    else if StartsAt(body, i, words[0]) && KeywordEnd(body, i + |words[0]|).Some? then Some(i + |words[0]|)
    else KeywordOf(body, i, words[1..])
  }

  const TYPES: seq<string> := ["CDATA", "ID", "IDREF", "IDREFS", "ENTITY", "ENTITIES", "NMTOKEN", "NMTOKENS"]

  function ListTokenEnd(body: string, i: nat, names: bool): (j: Option<nat>)
    requires i <= |body|
    ensures j.Some? ==> i < j.value <= |body|
  {
    if names then NameEnd(body, i) else NmtokenEnd(body, i)
  }

  function ListRestEnd(body: string, i: nat, names: bool): (j: Option<nat>)
    requires i <= |body|
    ensures j.Some? ==> i < j.value <= |body|
    decreases |body| - i
  {
    var k := SkipSpace(body, i);
    if k == |body| then None
    else if body[k] == ')' then Some(k + 1)
    else if body[k] != '|' then None
    else
      var token := ListTokenEnd(body, SkipSpace(body, k + 1), names);
      if token.None? then None else ListRestEnd(body, token.value, names)
  }

  /** A parenthesised list of names, or of name tokens. */
  function ListEnd(body: string, i: nat, names: bool): (j: Option<nat>)
    requires i <= |body|
    ensures j.Some? ==> i < j.value <= |body|
  {
    if i == |body| || body[i] != '(' then None
    else
      var token := ListTokenEnd(body, SkipSpace(body, i + 1), names);
      if token.None? then None else ListRestEnd(body, token.value, names)
  }

  function AttTypeEnd(body: string, i: nat): (j: Option<nat>)
    requires i <= |body|
    ensures j.Some? ==> i <= j.value <= |body|
  {
    var keyword := KeywordOf(body, i, TYPES);
    if keyword.Some? then keyword
    else if StartsAt(body, i, "NOTATION") then
      var k := SkipSpace(body, i + 8);
      if k == i + 8 then None else ListEnd(body, k, true)
    else ListEnd(body, i, false)
  }

  function DefaultEnd(body: string, i: nat): (j: Option<nat>)
    requires i <= |body|
    ensures j.Some? ==> i <= j.value <= |body|
  {
    if i == |body| then None
    else if body[i] != '#' then AttributeValueEnd(body, i)
    else if StartsAt(body, i, "#REQUIRED") then KeywordEnd(body, i + 9)
    else if StartsAt(body, i, "#IMPLIED") then KeywordEnd(body, i + 8)
    else if !StartsAt(body, i, "#FIXED") then None
    else
      var k := SkipSpace(body, i + 6);
      if k == i + 6 then None else AttributeValueEnd(body, k)
  }

  /** One attribute: its name, type and default, with space between them. */
  function AttributeEnd(body: string, i: nat): (j: Option<nat>)
    requires i <= |body|
    ensures j.Some? ==> i < j.value <= |body|
  {
    var name := QName(body, i);
    if name.None? then None
    else
      var k := SkipSpace(body, name.value);
      if k == name.value then None
      else
        var attType := AttTypeEnd(body, k);
        if attType.None? then None
        else
          var m := SkipSpace(body, attType.value);
          if m == attType.value then None else DefaultEnd(body, m)
  }

  function AttributesEnd(body: string, i: nat): (j: Option<nat>)
    requires i <= |body|
    ensures j.Some? ==> i < j.value <= |body|
    decreases |body| - i
  {
    var k := SkipSpace(body, i);
    if k == i || k == |body| || body[k] == '>' then MarkupEnd(body, k)
    else
      var attribute := AttributeEnd(body, k);
      if attribute.None? then None else AttributesEnd(body, attribute.value)
  }

  function AttlistEnd(body: string, i: nat): (j: Option<nat>)
    requires i <= |body|
    ensures j.Some? ==> i < j.value <= |body|
  {
    var name := QName(body, i);
    if name.None? then None else AttributesEnd(body, name.value)
  }

  // ----- entities and notations

  /** A name with space after it. */
  function SpacedNameEnd(body: string, i: nat): (j: Option<nat>)
    requires i <= |body|
    ensures j.Some? ==> i < j.value <= |body|
  {
    var name := NameEnd(body, i);
    if name.None? || SkipSpace(body, name.value) == name.value then None else Some(SkipSpace(body, name.value))
  }

  function NotationDataEnd(body: string, i: nat): (j: Option<nat>)
    requires i <= |body|
    ensures j.Some? ==> i < j.value <= |body|
  {
    var k := SkipSpace(body, i);
    var word := WordEnd(body, k, "NDATA");
    if k == i || word.None? then MarkupEnd(body, i)
    else
      var m := SkipSpace(body, word.value);
      if m == word.value then None
      else
        var name := NameEnd(body, m);
        if name.None? then None else MarkupEnd(body, name.value)
  }

  function EntityEnd(body: string, i: nat): (j: Option<nat>)
    requires i <= |body|
    ensures j.Some? ==> i < j.value <= |body|
  {
    var parameter := i < |body| && body[i] == '%';
    var start := if parameter then SkipSpace(body, i + 1) else i;
    var name := SpacedNameEnd(body, start);
    if (parameter && start == i + 1) || name.None? then None
    else
      var k := name.value;
      if k < |body| && IsQuote(body[k]) then
        var value := EntityValueEnd(body, k);
        if value.None? then None else MarkupEnd(body, value.value)
      else
        var external := ExternalIDEnd(body, k);
        if external.None? then None
        else if parameter then MarkupEnd(body, external.value)
        else NotationDataEnd(body, external.value)
  }

  /** What follows PUBLIC in a notation: a public identifier, and possibly a system literal. */
  function PublicNotationEnd(body: string, i: nat): (j: Option<nat>)
    requires i <= |body|
    ensures j.Some? ==> i < j.value <= |body|
  {
    var pubid := SpacedLiteralEnd(body, i, true);
    if pubid.None? then None
    else
      var k := SkipSpace(body, pubid.value);
      if k == |body| || !IsQuote(body[k]) then MarkupEnd(body, pubid.value)
      else
        var system := SpacedLiteralEnd(body, pubid.value, false);
        if system.None? then None else MarkupEnd(body, system.value)
  }

  function NotationEnd(body: string, i: nat): (j: Option<nat>)
    requires i <= |body|
    ensures j.Some? ==> i < j.value <= |body|
  {
    var name := SpacedNameEnd(body, i);
    if name.None? then None
    else
      var word := WordEnd(body, name.value, "PUBLIC");
      if word.Some? then PublicNotationEnd(body, word.value)
      else
        var external := ExternalIDEnd(body, name.value);
        if external.None? then None else MarkupEnd(body, external.value)
  }

  // ----- the recognisers, advancing an index

  method ConsumeToken(body: string, start: nat) returns (index: nat)
    requires start <= |body|
    ensures index == TokenEnd(body, start)
  {
    hide IsTokenChar;
    index := start;
    while index < |body| && IsTokenChar(body[index])
      invariant start <= index <= |body| && TokenEnd(body, index) == TokenEnd(body, start)
    {
      index := index + 1;
    }
  }

  method ConsumeName(body: string, start: nat) returns (index: nat, ok: bool)
    requires start <= |body|
    ensures ok == NameEnd(body, start).Some? && (ok ==> index == NameEnd(body, start).value)
  {
    index := ConsumeToken(body, start);
    ok := index != start && ValidNCName(body[start..index]);
  }

  method ConsumeNmtoken(body: string, start: nat) returns (index: nat, ok: bool)
    requires start <= |body|
    ensures ok == NmtokenEnd(body, start).Some? && (ok ==> index == NmtokenEnd(body, start).value)
  {
    index := ConsumeToken(body, start);
    ok := index != start;
  }

  method ConsumeCharReference(body: string, start: nat) returns (index: nat, ok: bool)
    requires start < |body|
    ensures ok == CharReferenceEnd(body, start).Some? && (ok ==> index == CharReferenceEnd(body, start).value)
  {
    hide ValidDigits, IsReferenceDigit;
    index := start + 1;
    var hexadecimal := false;
    if index < |body| && body[index] == 'x' {
      hexadecimal := true;
      index := index + 1;
    }
    var digitStart := index;
    while index < |body| && IsReferenceDigit(body[index], hexadecimal)
      invariant digitStart <= index <= |body|
      invariant DigitsEnd(body, index, hexadecimal) == DigitsEnd(body, digitStart, hexadecimal)
    {
      index := index + 1;
    }
    ok := index < |body| && body[index] == ';' && ValidDigits(body[digitStart..index], hexadecimal);
    index := index + 1;
  }

  method ConsumeReference(body: string, start: nat) returns (index: nat, ok: bool)
    requires start < |body| && body[start] == '&'
    ensures ok == ReferenceEnd(body, start).Some? && (ok ==> index == ReferenceEnd(body, start).value)
  {
    hide NameEnd, CharReferenceEnd;
    if start + 1 < |body| && body[start + 1] == '#' {
      index, ok := ConsumeCharReference(body, start + 1);
      return;
    }
    index, ok := ConsumeName(body, start + 1);
    ok := ok && index < |body| && body[index] == ';';
    index := index + 1;
  }

  method ConsumeEntityValue(body: string, start: nat) returns (index: nat, ok: bool)
    requires start <= |body|
    ensures ok == EntityValueEnd(body, start).Some? && (ok ==> index == EntityValueEnd(body, start).value)
  {
    hide ReferenceEnd;
    if start >= |body| || !IsQuote(body[start]) {
      return start, false;
    }
    var quote := body[start];
    index := start + 1;
    while index < |body|
      invariant start < index <= |body| && TextEnd(body, index, quote, '%') == TextEnd(body, start + 1, quote, '%')
      decreases |body| - index
    {
      if body[index] == quote {
        return index + 1, true;
      }
      if body[index] == '&' {
        index, ok := ConsumeReference(body, index);
        if !ok {
          return;
        }
        continue;
      }
      if body[index] == '%' {
        return index, false;
      }
      index := index + 1;
    }
    return index, false;
  }

  method ConsumeAttributeValue(body: string, start: nat) returns (index: nat, ok: bool)
    requires start <= |body|
    ensures ok == AttributeValueEnd(body, start).Some? && (ok ==> index == AttributeValueEnd(body, start).value)
  {
    hide ReferenceEnd;
    if start >= |body| || !IsQuote(body[start]) {
      return start, false;
    }
    var quote := body[start];
    index := start + 1;
    while index < |body|
      invariant start < index <= |body| && ValueTextEnd(body, index, quote) == ValueTextEnd(body, start + 1, quote)
      decreases |body| - index
    {
      if body[index] == quote {
        return index + 1, true;
      }
      if body[index] == '<' {
        return index, false;
      }
      if body[index] == '&' {
        index, ok := ConsumeReference(body, index);
        if !ok {
          return;
        }
      }
      // The program makes no bounds check here; the body may have ended after a reference.
      if index < |body| && body[index] != '&' {
        index := index + 1;
      }
    }
    return index, false;
  }

  method ConsumeLiteral(body: string, start: nat, pubid: bool) returns (index: nat, ok: bool)
    requires start <= |body|
    ensures ok == LiteralEnd(body, start, pubid).Some? && (ok ==> index == LiteralEnd(body, start, pubid).value)
  {
    hide IsPubidChar;
    if start >= |body| || !IsQuote(body[start]) {
      return start, false;
    }
    var quote := body[start];
    index := start + 1;
    while index < |body| && body[index] != quote
      invariant start < index <= |body| && QuoteEnd(body, index, quote) == QuoteEnd(body, start + 1, quote)
    {
      index := index + 1;
    }
    ok := index < |body| && !(pubid && exists c <- body[start + 1..index] :: !IsPubidChar(c));
    index := index + 1;
  }

  method ConsumeSpacedLiteral(body: string, start: nat, pubid: bool) returns (index: nat, ok: bool)
    requires start <= |body|
    ensures ok == SpacedLiteralEnd(body, start, pubid).Some?
    ensures ok ==> index == SpacedLiteralEnd(body, start, pubid).value
  {
    hide LiteralEnd;
    index, ok := ConsumeSpace(body, start);
    if ok {
      index, ok := ConsumeLiteral(body, index, pubid);
    }
  }

  method ConsumeExternalID(body: string, start: nat) returns (index: nat, ok: bool)
    requires start <= |body|
    ensures ok == ExternalIDEnd(body, start).Some? && (ok ==> index == ExternalIDEnd(body, start).value)
  {
    hide SpacedLiteralEnd;
    index := start;
    while index < |body| && !IsSpace(body[index]) && body[index] != '['
      invariant start <= index <= |body| && ExternalWordEnd(body, index) == ExternalWordEnd(body, start)
    {
      index := index + 1;
    }
    var keyword := body[start..index];
    if keyword != "SYSTEM" && keyword != "PUBLIC" {
      return index, false;
    }
    index, ok := ConsumeSpacedLiteral(body, index, keyword == "PUBLIC");
    if ok && keyword == "PUBLIC" {
      index, ok := ConsumeSpacedLiteral(body, index, false);
    }
  }

  /** The list of names and the list of name tokens, which the source writes out twice. */
  method ConsumeList(body: string, start: nat, names: bool) returns (index: nat, ok: bool)
    requires start <= |body|
    ensures ok == ListEnd(body, start, names).Some? && (ok ==> index == ListEnd(body, start, names).value)
  {
    hide NameEnd, NmtokenEnd, SkipSpace;
    if start >= |body| || body[start] != '(' {
      return start, false;
    }
    var spaced;
    index, spaced := ConsumeSpace(body, start + 1);
    index, ok := ConsumeListToken(body, index, names);
    if !ok {
      return;
    }
    ghost var first := index;
    while true
      invariant start < index <= |body| && ListRestEnd(body, index, names) == ListRestEnd(body, first, names)
      decreases |body| - index
    {
      index, spaced := ConsumeSpace(body, index);
      if index >= |body| || body[index] == ')' {
        break;
      }
      if body[index] != '|' {
        return index, false;
      }
      index, spaced := ConsumeSpace(body, index + 1);
      index, ok := ConsumeListToken(body, index, names);
      if !ok {
        return;
      }
    }
    ok := index < |body|;
    index := index + 1;
  }

  method ConsumeListToken(body: string, start: nat, names: bool) returns (index: nat, ok: bool)
    requires start <= |body|
    ensures ok == ListTokenEnd(body, start, names).Some? && (ok ==> index == ListTokenEnd(body, start, names).value)
  {
    hide NameEnd, NmtokenEnd;
    if names {
      index, ok := ConsumeName(body, start);
    } else {
      index, ok := ConsumeNmtoken(body, start);
    }
  }

  method ConsumeAttType(body: string, start: nat) returns (index: nat, ok: bool)
    requires start <= |body|
    ensures ok == AttTypeEnd(body, start).Some? && (ok ==> index == AttTypeEnd(body, start).value)
  {
    hide ListEnd, SkipSpace;
    var keywords := TYPES;
    for k := 0 to |keywords|
      invariant KeywordOf(body, start, keywords[k..]) == KeywordOf(body, start, TYPES)
    {
      if StartsAt(body, start, keywords[k]) {
        var end := start + |keywords[k]|;
        if end == |body| || IsSpace(body[end]) || body[end] == '>' {
          return end, true;
        }
      }
    }
    if StartsAt(body, start, "NOTATION") {
      index, ok := ConsumeSpace(body, start + 8);
      if ok {
        index, ok := ConsumeList(body, index, true);
      }
      return;
    }
    index, ok := ConsumeList(body, start, false);
  }

  method ConsumeDefault(body: string, start: nat) returns (index: nat, ok: bool)
    requires start <= |body|
    ensures ok == DefaultEnd(body, start).Some? && (ok ==> index == DefaultEnd(body, start).value)
  {
    hide AttributeValueEnd, SkipSpace;
    if start >= |body| {
      return start, false;
    }
    if body[start] != '#' {
      index, ok := ConsumeAttributeValue(body, start);
      return;
    }
    var keywords := ["#REQUIRED", "#IMPLIED"];
    for k := 0 to 2
      invariant k > 0 ==> !StartsAt(body, start, "#REQUIRED")
      invariant k > 1 ==> !StartsAt(body, start, "#IMPLIED")
    {
      if StartsAt(body, start, keywords[k]) {
        index := start + |keywords[k]|;
        ok := index == |body| || IsSpace(body[index]) || body[index] == '>';
        return;
      }
    }
    if !StartsAt(body, start, "#FIXED") {
      return start, false;
    }
    index, ok := ConsumeSpace(body, start + 6);
    if ok {
      index, ok := ConsumeAttributeValue(body, index);
    }
  }

  method ConsumeAttribute(body: string, start: nat) returns (index: nat, ok: bool)
    requires start <= |body|
    ensures ok == AttributeEnd(body, start).Some? && (ok ==> index == AttributeEnd(body, start).value)
  {
    hide QName, AttTypeEnd, DefaultEnd, SkipSpace;
    index, ok := ConsumeQName(body, start);
    if !ok {
      return;
    }
    index, ok := ConsumeSpace(body, index);
    if !ok {
      return;
    }
    index, ok := ConsumeAttType(body, index);
    if !ok {
      return;
    }
    index, ok := ConsumeSpace(body, index);
    if !ok {
      return;
    }
    index, ok := ConsumeDefault(body, index);
  }

  method ConsumeAttlist(body: string, start: nat) returns (index: nat, ok: bool)
    requires start <= |body|
    ensures ok == AttlistEnd(body, start).Some? && (ok ==> index == AttlistEnd(body, start).value)
  {
    hide QName, AttributeEnd, MarkupEnd, SkipSpace;
    index, ok := ConsumeQName(body, start);
    if !ok {
      return;
    }
    ghost var first := index;
    while true
      invariant start < index <= |body| && AttributesEnd(body, index) == AttributesEnd(body, first)
      decreases |body| - index
    {
      var spaced;
      index, spaced := ConsumeSpace(body, index);
      if !spaced || index >= |body| || body[index] == '>' {
        index, ok := ConsumeMarkupEnd(body, index);
        return;
      }
      index, ok := ConsumeAttribute(body, index);
      if !ok {
        return;
      }
    }
  }

  method ConsumeMarkupEnd(body: string, start: nat) returns (index: nat, ok: bool)
    requires start <= |body|
    ensures ok == MarkupEnd(body, start).Some? && (ok ==> index == MarkupEnd(body, start).value)
  {
    var spaced;
    index, spaced := ConsumeSpace(body, start);
    ok := index < |body| && body[index] == '>';
    index := index + 1;
  }

  method ConsumeSpacedName(body: string, start: nat) returns (index: nat, ok: bool)
    requires start <= |body|
    ensures ok == SpacedNameEnd(body, start).Some? && (ok ==> index == SpacedNameEnd(body, start).value)
  {
    hide NameEnd;
    index, ok := ConsumeName(body, start);
    if ok {
      index, ok := ConsumeSpace(body, index);
    }
  }

  method ConsumeEntity(body: string, start: nat) returns (index: nat, ok: bool)
    requires start <= |body|
    ensures ok == EntityEnd(body, start).Some? && (ok ==> index == EntityEnd(body, start).value)
  {
    hide SpacedNameEnd, EntityValueEnd, ExternalIDEnd, NotationDataEnd, MarkupEnd, SkipSpace;
    var parameter := false;
    index := start;
    if index < |body| && body[index] == '%' {
      parameter := true;
      index, ok := ConsumeSpace(body, index + 1);
      if !ok {
        return;
      }
    }
    index, ok := ConsumeSpacedName(body, index);
    if !ok {
      return;
    }
    if index < |body| && IsQuote(body[index]) {
      index, ok := ConsumeEntityValue(body, index);
      if ok {
        index, ok := ConsumeMarkupEnd(body, index);
      }
      return;
    }
    index, ok := ConsumeExternalID(body, index);
    if !ok {
      return;
    }
    if parameter {
      index, ok := ConsumeMarkupEnd(body, index);
    } else {
      index, ok := ConsumeExternalEntityEnd(body, index);
    }
  }

  method ConsumeExternalEntityEnd(body: string, start: nat) returns (index: nat, ok: bool)
    requires start <= |body|
    ensures ok == NotationDataEnd(body, start).Some? && (ok ==> index == NotationDataEnd(body, start).value)
  {
    hide NameEnd, MarkupEnd, SkipSpace;
    index, ok := ConsumeSpace(body, start);
    if !ok || WordEnd(body, index, "NDATA").None? {
      index, ok := ConsumeMarkupEnd(body, start);
      return;
    }
    index, ok := ConsumeSpace(body, WordEnd(body, index, "NDATA").value);
    if !ok {
      return;
    }
    index, ok := ConsumeName(body, index);
    if ok {
      index, ok := ConsumeMarkupEnd(body, index);
    }
  }

  method ConsumeNotation(body: string, start: nat) returns (index: nat, ok: bool)
    requires start <= |body|
    ensures ok == NotationEnd(body, start).Some? && (ok ==> index == NotationEnd(body, start).value)
  {
    hide SpacedNameEnd, LiteralEnd, ExternalIDEnd, MarkupEnd, SkipSpace;
    index, ok := ConsumeSpacedName(body, start);
    if !ok {
      return;
    }
    if WordEnd(body, index, "PUBLIC").Some? {
      index, ok := ConsumeSpacedLiteral(body, WordEnd(body, index, "PUBLIC").value, true);
      if !ok {
        return;
      }
      var publicEnd, hasSpace := index, false;
      index, hasSpace := ConsumeSpace(body, index);
      if index >= |body| || !IsQuote(body[index]) {
        index, ok := ConsumeMarkupEnd(body, publicEnd);
        return;
      }
      if !hasSpace {
        return index, false;
      }
      index, ok := ConsumeLiteral(body, index, false);
    } else {
      index, ok := ConsumeExternalID(body, index);
    }
    if ok {
      index, ok := ConsumeMarkupEnd(body, index);
    }
  }

  // ----- what the loops accept

  /** Where the item before the `k`-th ended. */
  function Before(i: nat, ends: seq<nat>, k: nat): nat
    requires k <= |ends|
  {
    if k == 0 then i else ends[k - 1]
  }

  /** The ends lie inside the body, and each item leads to the next. */
  ghost predicate Sequence(body: string, i: nat, ends: seq<nat>, item: (nat, nat) -> bool) {
    && i <= |body| && (forall k :: 0 <= k < |ends| ==> ends[k] <= |body|)
    && forall k :: 0 <= k < |ends| ==> item(Before(i, ends, k), ends[k])
  }

  lemma SequenceOfNone(body: string, i: nat, item: (nat, nat) -> bool)
    requires i <= |body|
    ensures Sequence(body, i, [], item) && Before(i, [], 0) == i
  {
  }

  lemma SequenceOfMore(body: string, i: nat, end: nat, more: seq<nat>, item: (nat, nat) -> bool)
    requires i <= |body| && end <= |body| && item(i, end) && Sequence(body, end, more, item)
    ensures Sequence(body, i, [end] + more, item)
    ensures Before(i, [end] + more, |more| + 1) == Before(end, more, |more|)
  {
    var ends := [end] + more;
    forall k | 0 <= k < |ends|
      ensures item(Before(i, ends, k), ends[k])
    {
      if k > 0 {
        assert item(Before(end, more, k - 1), more[k - 1]);
      }
    }
  }

  lemma SequenceOfRest(body: string, i: nat, ends: seq<nat>, item: (nat, nat) -> bool)
    requires ends != [] && Sequence(body, i, ends, item)
    ensures i <= |body| && ends[0] <= |body| && item(i, ends[0]) && Sequence(body, ends[0], ends[1..], item)
    ensures Before(i, ends, |ends|) == Before(ends[0], ends[1..], |ends| - 1)
  {
    assert item(Before(i, ends, 0), ends[0]);
    var rest := ends[1..];
    forall k | 0 <= k < |rest|
      ensures item(Before(ends[0], rest, k), rest[k])
    {
      assert item(Before(i, ends, k + 1), ends[k + 1]);
    }
  }

  /** Space and one attribute. */
  function AttributeItem(body: string): (nat, nat) -> bool {
    (from: nat, to: nat) =>
      from <= |body| && SkipSpace(body, from) > from && AttributeEnd(body, SkipSpace(body, from)) == Some(to)
  }

  /** A bar and one token, with space around the bar. */
  function TokenItem(body: string, names: bool): (nat, nat) -> bool {
    (from: nat, to: nat) =>
      && from <= |body| && SkipSpace(body, from) < |body| && body[SkipSpace(body, from)] == '|'
      && ListTokenEnd(body, SkipSpace(body, SkipSpace(body, from) + 1), names) == Some(to)
  }

  lemma AttributeStarts(body: string, i: nat)
    requires i <= |body| && AttributeEnd(body, i).Some?
    ensures i < |body| && body[i] != '>'
  {
    hide ValidXMLName, SkipSpace, AttTypeEnd, DefaultEnd;
    if i < |body| && body[i] == '>' {
      DelimitersEndNames('>');
    }
  }

  lemma {:induction false} AttributesListed(body: string, i: nat) returns (ends: seq<nat>)
    requires i <= |body| && AttributesEnd(body, i).Some?
    ensures Sequence(body, i, ends, AttributeItem(body))
    ensures Before(i, ends, |ends|) <= |body| && MarkupEnd(body, Before(i, ends, |ends|)) == AttributesEnd(body, i)
    decreases |body| - i
  {
    hide AttributeEnd, SkipSpace, Sequence, Before;
    var k := SkipSpace(body, i);
    if k == i || k == |body| || body[k] == '>' {
      ends := [];
      SpaceTwice(body, i);
      SequenceOfNone(body, i, AttributeItem(body));
    } else {
      var end := AttributeEnd(body, k).value;
      var more := AttributesListed(body, end);
      SequenceOfMore(body, i, end, more, AttributeItem(body));
      ends := [end] + more;
    }
  }

  lemma {:induction false} SpaceTwice(body: string, i: nat)
    requires i <= |body|
    ensures SkipSpace(body, SkipSpace(body, i)) == SkipSpace(body, i)
    decreases |body| - i
  {
    if i < |body| && IsSpace(body[i]) {
      SpaceTwice(body, i + 1);
    }
  }

  lemma {:induction false} ListedAttributes(body: string, i: nat, ends: seq<nat>, j: nat)
    requires i <= |body| && Sequence(body, i, ends, AttributeItem(body))
    requires Before(i, ends, |ends|) <= |body| && MarkupEnd(body, Before(i, ends, |ends|)) == Some(j)
    ensures AttributesEnd(body, i) == Some(j)
    decreases |ends|
  {
    hide AttributeEnd, SkipSpace, Sequence, Before;
    SpaceTwice(body, i);
    if ends != [] {
      SequenceOfRest(body, i, ends, AttributeItem(body));
      AttributeStarts(body, SkipSpace(body, i));
      ListedAttributes(body, ends[0], ends[1..], j);
    } else {
      SequenceOfNone(body, i, AttributeItem(body));
    }
  }

  /** The loop accepts exactly attributes, each after space, up to the closing bracket. */
  lemma AttributesAreExactlyLists(body: string, i: nat, j: nat)
    requires i <= |body|
    ensures AttributesEnd(body, i) == Some(j) <==> exists ends ::
      && Sequence(body, i, ends, AttributeItem(body))
      && Before(i, ends, |ends|) <= |body| && MarkupEnd(body, Before(i, ends, |ends|)) == Some(j)
  {
    hide AttributesEnd, Sequence, Before, MarkupEnd;
    if AttributesEnd(body, i) == Some(j) {
      var ends := AttributesListed(body, i);
    }
    forall ends |
      && Sequence(body, i, ends, AttributeItem(body))
      && Before(i, ends, |ends|) <= |body| && MarkupEnd(body, Before(i, ends, |ends|)) == Some(j)
      ensures AttributesEnd(body, i) == Some(j)
    {
      ListedAttributes(body, i, ends, j);
    }
  }

  /** A closing parenthesis after space. */
  predicate ClosesList(body: string, i: nat, j: nat) {
    i <= |body| && SkipSpace(body, i) < |body| && body[SkipSpace(body, i)] == ')' && j == SkipSpace(body, i) + 1
  }

  lemma {:induction false} TokensListed(body: string, i: nat, names: bool) returns (ends: seq<nat>)
    requires i <= |body| && ListRestEnd(body, i, names).Some?
    ensures Sequence(body, i, ends, TokenItem(body, names))
    ensures ClosesList(body, Before(i, ends, |ends|), ListRestEnd(body, i, names).value)
    decreases |body| - i
  {
    hide ListTokenEnd, SkipSpace, Sequence, Before;
    var k := SkipSpace(body, i);
    if body[k] == ')' {
      ends := [];
      SequenceOfNone(body, i, TokenItem(body, names));
    } else {
      var end := ListTokenEnd(body, SkipSpace(body, k + 1), names).value;
      var more := TokensListed(body, end, names);
      SequenceOfMore(body, i, end, more, TokenItem(body, names));
      ends := [end] + more;
    }
  }

  lemma {:induction false} ListedTokens(body: string, i: nat, names: bool, ends: seq<nat>, j: nat)
    requires i <= |body| && Sequence(body, i, ends, TokenItem(body, names))
    requires ClosesList(body, Before(i, ends, |ends|), j)
    ensures ListRestEnd(body, i, names) == Some(j)
    decreases |ends|
  {
    hide ListTokenEnd, SkipSpace, Sequence, Before;
    if ends != [] {
      SequenceOfRest(body, i, ends, TokenItem(body, names));
      ListedTokens(body, ends[0], names, ends[1..], j);
    } else {
      SequenceOfNone(body, i, TokenItem(body, names));
    }
  }

  /** After its first token a list goes on exactly with bars and tokens up to its closing parenthesis. */
  lemma TokensAreExactlyLists(body: string, i: nat, names: bool, j: nat)
    requires i <= |body|
    ensures ListRestEnd(body, i, names) == Some(j) <==> exists ends ::
      && Sequence(body, i, ends, TokenItem(body, names))
      && ClosesList(body, Before(i, ends, |ends|), j)
  {
    hide ListRestEnd, Sequence, Before, ClosesList;
    if ListRestEnd(body, i, names) == Some(j) {
      var ends := TokensListed(body, i, names);
    }
    forall ends |
      && Sequence(body, i, ends, TokenItem(body, names))
      && ClosesList(body, Before(i, ends, |ends|), j)
      ensures ListRestEnd(body, i, names) == Some(j)
    {
      ListedTokens(body, i, names, ends, j);
    }
  }
}
