/** Quoted values and literals of declarations as texts, each accepted exactly where its text stands (instance.go). */
module DoctypeValues {
  import opened Wrappers
  import opened DoctypeModels
  import opened DoctypeDeclarations
  import opened DoctypeGrammar
  import DoctypeLiterals

  predicate IsNmtoken(text: string) {
    text != "" && forall c <- text :: IsTokenChar(c)
  }

  /** An entity value: references and other characters but percent signs, between quotes. */
  ghost predicate IsEntityValue(text: string) {
    |text| >= 2 && IsQuote(text[0]) && exists pieces ::
      DoctypeLiterals.WellFormed(pieces, text[0], '%') && text[1..] == DoctypeLiterals.Spell(pieces) + [text[0]]
  }

  /** An attribute value as the scan takes it. */
  ghost predicate IsAttributeValue(text: string) {
    |text| >= 2 && IsQuote(text[0]) && DoctypeLiterals.IsScanned(text[1..], text[0])
  }

  /** A literal between quotes, which do not occur in it; a public identifier has characters of its own. */
  predicate IsLiteral(text: string, pubid: bool) {
    && |text| >= 2 && IsQuote(text[0]) && text[|text| - 1] == text[0]
    && (forall k :: 0 < k < |text| - 1 ==> text[k] != text[0])
    && (pubid ==> forall k :: 0 < k < |text| - 1 ==> IsPubidChar(text[k]))
  }

  lemma TailOfSlice(body: string, i: nat, j: nat)
    requires i < j <= |body|
    ensures body[i..j][0] == body[i] && body[i..j][1..] == body[i + 1..j]
  {
  }

  lemma EntityValueIs(body: string, i: nat, j: nat)
    requires i <= |body|
    ensures EntityValueEnd(body, i) == Some(j) <==> i < j <= |body| && IsEntityValue(body[i..j])
  {
    DoctypeLiterals.EntityValuesAreExactlyTheGrammar(body, i, j);
    hide EntityValueEnd, DoctypeLiterals.WellFormed;
    if i < j <= |body| {
      TailOfSlice(body, i, j);
    }
  }

  lemma AttributeValueIs(body: string, i: nat, j: nat)
    requires i <= |body|
    ensures AttributeValueEnd(body, i) == Some(j) <==> i < j <= |body| && IsAttributeValue(body[i..j])
  {
    hide ValueTextEnd, DoctypeLiterals.IsScanned;
    if i < |body| && IsQuote(body[i]) {
      DoctypeLiterals.ValuesAreExactlyScanned(body, i + 1, j, body[i]);
    }
    if i < j <= |body| {
      TailOfSlice(body, i, j);
    }
  }

  lemma {:induction false} QuoteEndIs(body: string, i: nat, quote: char, end: nat)
    requires i <= end < |body| && body[end] == quote && forall k :: i <= k < end ==> body[k] != quote
    ensures QuoteEnd(body, i, quote) == end
    decreases end - i
  {
    if i < end {
      QuoteEndIs(body, i + 1, quote, end);
    }
  }

  lemma {:induction false} QuoteRun(body: string, i: nat, quote: char)
    requires i <= |body|
    ensures forall k :: i <= k < QuoteEnd(body, i, quote) ==> body[k] != quote
    decreases |body| - i
  {
    if i < |body| && body[i] != quote {
      QuoteRun(body, i + 1, quote);
    }
  }

  lemma PubidCharacters(body: string, i: nat, j: nat)
    requires i <= j <= |body|
    ensures (exists c <- body[i..j] :: !IsPubidChar(c)) <==> exists k :: i <= k < j && !IsPubidChar(body[k])
  {
    hide IsPubidChar;
    var inner := body[i..j];
    if k :| i <= k < j && !IsPubidChar(body[k]) {
      assert inner[k - i] == body[k] && inner[k - i] in inner;
    }
    if c :| c in inner && !IsPubidChar(c) {
      var k :| 0 <= k < |inner| && inner[k] == c;
      assert body[i + k] == c;
    }
  }

  lemma LiteralIs(body: string, i: nat, j: nat, pubid: bool)
    requires i <= |body|
    ensures LiteralEnd(body, i, pubid) == Some(j) <==> i < j <= |body| && IsLiteral(body[i..j], pubid)
  {
    hide IsPubidChar, QuoteEnd;
    if i < |body| && IsQuote(body[i]) {
      QuoteRun(body, i + 1, body[i]);
      var end := QuoteEnd(body, i + 1, body[i]);
      PubidCharacters(body, i + 1, end);
      if i + 1 < j <= |body| {
        LiteralText(body, i, j, pubid);
        if IsLiteral(body[i..j], pubid) {
          QuoteEndIs(body, i + 1, body[i], j - 1);
        }
      }
    }
  }

  lemma LiteralText(body: string, i: nat, j: nat, pubid: bool)
    requires i + 2 <= j <= |body| && IsQuote(body[i])
    ensures IsLiteral(body[i..j], pubid) <==>
      && body[j - 1] == body[i] && (forall k :: i < k < j - 1 ==> body[k] != body[i])
      && (pubid ==> forall k :: i < k < j - 1 ==> IsPubidChar(body[k]))
  {
    hide IsPubidChar;
    var text := body[i..j];
    assert forall k :: i <= k < j ==> text[k - i] == body[k];
    assert forall k :: 0 <= k < |text| ==> text[k] == body[i + k];
  }

  // ----- pieces that stand in front of a rest

  lemma Standing(body: string, i: nat, piece: string, rest: string)
    requires From(body, i, Then(piece, rest))
    ensures i + |piece| <= |body| && body[i..i + |piece|] == piece && From(body, i + |piece|, rest)
  {
    PieceAt(body, i, piece, rest);
  }

  lemma EntityValueAt(body: string, i: nat, value: string, rest: string)
    requires From(body, i, Then(value, rest)) && IsEntityValue(value)
    ensures i <= |body| && EntityValueEnd(body, i) == Some(i + |value|) && From(body, i + |value|, rest)
  {
    hide From, Then, IsEntityValue;
    Standing(body, i, value, rest);
    EntityValueIs(body, i, i + |value|);
    NotEmpty(value);
  }

  lemma NotEmpty(value: string)
    ensures IsEntityValue(value) || IsAttributeValue(value) || IsLiteral(value, false) ==>
      value != "" && IsQuote(value[0])
  {
    hide DoctypeLiterals.IsScanned;
  }

  lemma AttributeValueAt(body: string, i: nat, value: string, rest: string)
    requires From(body, i, Then(value, rest)) && IsAttributeValue(value)
    ensures i <= |body| && AttributeValueEnd(body, i) == Some(i + |value|) && From(body, i + |value|, rest)
  {
    hide From, Then, IsAttributeValue;
    Standing(body, i, value, rest);
    AttributeValueIs(body, i, i + |value|);
    NotEmpty(value);
  }

  lemma LiteralAt(body: string, i: nat, literal: string, pubid: bool, rest: string)
    requires From(body, i, Then(literal, rest)) && IsLiteral(literal, pubid)
    ensures i <= |body| && LiteralEnd(body, i, pubid) == Some(i + |literal|) && From(body, i + |literal|, rest)
  {
    assert IsLiteral(literal, false);
    hide From, Then, IsLiteral;
    Standing(body, i, literal, rest);
    LiteralIs(body, i, i + |literal|, pubid);
    NotEmpty(literal);
  }

  lemma NCNamesAreTokens(name: string)
    requires ValidNCName(name)
    ensures IsNmtoken(name)
  {
  }

  /** A name, or a name token, that nothing extends. */
  lemma ListTokenAt(body: string, i: nat, token: string, names: bool, rest: string)
    requires From(body, i, Then(token, rest)) && NoTokenFirst(rest)
    requires if names then ValidNCName(token) else IsNmtoken(token)
    ensures i <= |body| && ListTokenEnd(body, i, names) == Some(i + |token|) && From(body, i + |token|, rest)
  {
    if names {
      NCNamesAreTokens(token);
    }
    hide From, Then, NoTokenFirst, ValidNCName;
    TokenAt(body, i, token, rest);
    Standing(body, i, token, rest);
  }

  lemma ListTokenFound(body: string, i: nat, names: bool)
    requires i <= |body| && ListTokenEnd(body, i, names).Some?
    ensures var j := ListTokenEnd(body, i, names).value;
      && (if names then ValidNCName(body[i..j]) else IsNmtoken(body[i..j]))
      && body[i..] == Then(body[i..j], body[j..])
  {
    DoctypeLiterals.TokenRun(body, i);
    var j := ListTokenEnd(body, i, names).value;
    SplitAt(body, i, j);
    hide ValidNCName, IsTokenChar, Then;
    forall c | c in body[i..j]
      ensures IsTokenChar(c)
    {
      var k :| 0 <= k < j - i && body[i..j][k] == c;
      assert body[i + k] == c;
    }
  }
}
