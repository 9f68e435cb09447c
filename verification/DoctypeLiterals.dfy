/** References and quoted values in document type declarations, against the grammar of XML 1.0 (instance.go). */
module DoctypeLiterals {
  import opened Wrappers
  import opened DoctypeModels
  import opened DoctypeDeclarations

  // ----- references

  /** A character or entity reference as sections 4.1 and 2.2 of XML 1.0 have it, with an unprefixed name. */
  predicate IsReference(text: string) {
    && |text| >= 3 && text[0] == '&' && text[|text| - 1] == ';'
    && var inner := text[1..|text| - 1];
       if inner[0] != '#' then ValidNCName(inner)
       else if |inner| > 1 && inner[1] == 'x' then ValidDigits(inner[2..], true)
       else ValidDigits(inner[1..], false)
  }

  lemma {:induction false} TokenEndIs(body: string, i: nat, end: nat)
    requires i <= end <= |body| && (forall k :: i <= k < end ==> IsTokenChar(body[k]))
    requires end < |body| ==> !IsTokenChar(body[end])
    ensures TokenEnd(body, i) == end
    decreases end - i
  {
    hide IsTokenChar;
    if i < end {
      TokenEndIs(body, i + 1, end);
    }
  }

  lemma {:induction false} TokenRun(body: string, i: nat)
    requires i <= |body|
    ensures forall k :: i <= k < TokenEnd(body, i) ==> IsTokenChar(body[k])
    decreases |body| - i
  {
    hide IsTokenChar;
    if i < |body| && IsTokenChar(body[i]) {
      TokenRun(body, i + 1);
    }
  }

  lemma DigitsEndIs(body: string, i: nat, end: nat, hexadecimal: bool)
    requires i <= end < |body| && body[end] == ';'
    requires forall k :: i <= k < end ==> IsReferenceDigit(body[k], hexadecimal)
    ensures DigitsEnd(body, i, hexadecimal) == end
  {
  }

  lemma NameBefore(body: string, i: nat, end: nat)
    requires i <= end < |body| && body[end] == ';'
    ensures NameEnd(body, i) == Some(end) <==> ValidNCName(body[i..end])
  {
    if ValidNCName(body[i..end]) {
      assert forall k :: i <= k < end ==> body[k] == body[i..end][k - i];
      TokenEndIs(body, i, end);
    }
  }

  lemma DigitsBefore(body: string, i: nat, end: nat, hexadecimal: bool)
    requires i <= end < |body| && body[end] == ';' && ValidDigits(body[i..end], hexadecimal)
    ensures DigitsEnd(body, i, hexadecimal) == end
  {
    assert forall k :: i <= k < end ==> body[k] == body[i..end][k - i];
    hide IsReferenceDigit, ValidCharacter;
    DigitsEndIs(body, i, end, hexadecimal);
  }

  lemma CharReferencesAreExactlyTheGrammar(body: string, i: nat, j: nat)
    requires i < |body| && body[i] == '#'
    ensures CharReferenceEnd(body, i) == Some(j) <==>
      && i + 2 <= j <= |body| && body[j - 1] == ';'
      && if i + 2 < j && body[i + 1] == 'x' then ValidDigits(body[i + 2..j - 1], true)
         else ValidDigits(body[i + 1..j - 1], false)
  {
    hide ValidDigits;
    if i + 2 <= j <= |body| && body[j - 1] == ';' {
      if i + 2 < j && body[i + 1] == 'x' {
        if ValidDigits(body[i + 2..j - 1], true) { DigitsBefore(body, i + 2, j - 1, true); }
      } else if ValidDigits(body[i + 1..j - 1], false) {
        NoDigits(body, i + 1, j - 1);
        DigitsBefore(body, i + 1, j - 1, false);
      }
    }
  }

  lemma NoDigits(body: string, i: nat, end: nat)
    requires i <= end < |body| && ValidDigits(body[i..end], false)
    ensures i < end && body[i] != 'x'
  {
    var digits := body[i..end];
    assert digits != "" && body[i] == digits[0] && digits[0] in digits;
  }

  /** References are accepted exactly as the grammar spells them. */
  lemma ReferencesAreExactlyTheGrammar(body: string, i: nat, j: nat)
    requires i < |body| && body[i] == '&'
    ensures ReferenceEnd(body, i) == Some(j) <==> i < j <= |body| && IsReference(body[i..j])
  {
    hide CharReferenceEnd, NameEnd, ValidNCName, ValidDigits;
    if i + 1 < |body| && body[i + 1] == '#' {
      CharReferencesAreExactlyTheGrammar(body, i + 1, j);
      if i + 3 <= j <= |body| {
        CharReferenceText(body, i, j);
      }
    } else {
      if ReferenceEnd(body, i) == Some(j) {
        NameBefore(body, i + 1, j - 1);
        NameText(body, i, j);
      }
      if i + 3 <= j <= |body| && IsReference(body[i..j]) {
        NameText(body, i, j);
        NameBefore(body, i + 1, j - 1);
      }
    }
  }

  lemma SliceOfSlice(body: string, i: nat, j: nat, a: nat, b: nat)
    requires i <= j <= |body| && a <= b <= j - i
    ensures body[i..j][a..b] == body[i + a..i + b]
  {
    var one, other := body[i..j][a..b], body[i + a..i + b];
    assert forall k :: 0 <= k < b - a ==> one[k] == body[i..j][a + k] == body[i + a + k] == other[k];
  }

  lemma NameText(body: string, i: nat, j: nat)
    requires i + 2 <= j <= |body| && body[i] == '&' && body[i + 1] != '#'
    ensures IsReference(body[i..j]) <==> body[j - 1] == ';' && ValidNCName(body[i + 1..j - 1])
  {
    var text := body[i..j];
    SliceOfSlice(body, i, j, 1, j - i - 1);
    if j > i + 2 {
      assert text[1..|text| - 1][0] == body[i + 1];
    }
  }

  lemma CharReferenceText(body: string, i: nat, j: nat)
    requires i + 3 <= j <= |body| && body[i] == '&' && body[i + 1] == '#'
    ensures IsReference(body[i..j]) <==>
      && body[j - 1] == ';'
      && if i + 3 < j && body[i + 2] == 'x' then ValidDigits(body[i + 3..j - 1], true)
         else ValidDigits(body[i + 2..j - 1], false)
  {
    hide ValidDigits;
    var text := body[i..j];
    var inner := text[1..|text| - 1];
    SliceOfSlice(body, i, j, 1, j - i - 1);
    SliceOfSlice(body, i + 1, j - 1, 1, j - i - 2);
    if |inner| > 1 {
      SliceOfSlice(body, i + 1, j - 1, 2, j - i - 2);
      assert inner[1] == body[i + 2];
    }
  }

  // ----- quoted text as pieces

  datatype Piece = Plain(c: char) | Reference(text: string)

  function Text(piece: Piece): string {
    match piece
    case Plain(c) => [c]
    case Reference(text) => text
  }

  function Spell(pieces: seq<Piece>): string {
    if pieces == [] then "" else Text(pieces[0]) + Spell(pieces[1..])
  }

  predicate WellFormed(pieces: seq<Piece>, quote: char, refused: char) {
    forall piece <- pieces ::
      match piece
      case Plain(c) => c != quote && c != '&' && c != refused
      case Reference(text) => IsReference(text)
  }

  /** The text stands at an index. */
  predicate At(body: string, i: nat, text: string) {
    i + |text| <= |body| && body[i..i + |text|] == text
  }

  lemma AtParts(body: string, i: nat, first: string, rest: string)
    requires At(body, i, first + rest)
    ensures At(body, i, first) && At(body, i + |first|, rest)
  {
    var all := first + rest;
    assert body[i..i + |first|] == body[i..i + |all|][..|first|] == first;
    assert body[i + |first|..i + |all|] == body[i..i + |all|][|first|..] == rest;
  }

  lemma Reassociate(a: string, b: string, c: string)
    ensures (a + b) + c == a + (b + c)
  {
  }

  lemma AtPiece(body: string, i: nat, pieces: seq<Piece>, quote: char)
    requires pieces != [] && At(body, i, Spell(pieces) + [quote])
    ensures At(body, i, Text(pieces[0])) && At(body, i + |Text(pieces[0])|, Spell(pieces[1..]) + [quote])
  {
    hide At, Text;
    var first, rest := Text(pieces[0]), Spell(pieces[1..]);
    Reassociate(first, rest, [quote]);
    AtParts(body, i, first, rest + [quote]);
  }

  lemma WellFormedRest(pieces: seq<Piece>, quote: char, refused: char)
    requires WellFormed(pieces, quote, refused) && pieces != []
    ensures pieces[0] in pieces && WellFormed(pieces[1..], quote, refused)
  {
    hide IsReference;
    assert forall piece <- pieces[1..] :: piece in pieces;
  }

  /** A reference that stands here is consumed. */
  lemma ReferenceAt(body: string, i: nat, text: string)
    requires At(body, i, text) && IsReference(text)
    ensures i < |body| && body[i] == '&' && ReferenceEnd(body, i) == Some(i + |text|)
  {
    assert body[i] == text[0];
    ReferencesAreExactlyTheGrammar(body, i, i + |text|);
  }

  lemma CharAt(body: string, i: nat, c: char)
    requires At(body, i, [c])
    ensures i < |body| && body[i] == c
  {
  }

  lemma {:induction false} TextRecognised(body: string, i: nat, pieces: seq<Piece>, quote: char, refused: char)
    requires quote != '&' && WellFormed(pieces, quote, refused) && At(body, i, Spell(pieces) + [quote])
    ensures TextEnd(body, i, quote, refused) == Some(i + |Spell(pieces)| + 1)
    decreases |pieces|
  {
    hide IsReference, ReferenceEnd, At;
    if pieces == [] {
      assert Spell(pieces) + [quote] == [quote];
      CharAt(body, i, quote);
    } else {
      AtPiece(body, i, pieces, quote);
      WellFormedRest(pieces, quote, refused);
      match pieces[0] {
        case Plain(c) => CharAt(body, i, c);
        case Reference(text) => ReferenceAt(body, i, text);
      }
      TextRecognised(body, i + |Text(pieces[0])|, pieces[1..], quote, refused);
    }
  }

  lemma SpellOneMore(piece: Piece, pieces: seq<Piece>)
    ensures Spell([piece] + pieces) == Text(piece) + Spell(pieces)
  {
    assert ([piece] + pieces)[1..] == pieces;
  }

  lemma {:induction false} TextSpelled(body: string, i: nat, quote: char, refused: char) returns (pieces: seq<Piece>)
    requires i <= |body| && TextEnd(body, i, quote, refused).Some?
    ensures WellFormed(pieces, quote, refused)
    ensures body[i..TextEnd(body, i, quote, refused).value] == Spell(pieces) + [quote]
    decreases |body| - i
  {
    hide IsReference, ReferenceEnd;
    var j := TextEnd(body, i, quote, refused).value;
    if body[i] == quote {
      pieces := [];
    } else {
      var k := if body[i] == '&' then ReferenceEnd(body, i).value else i + 1;
      var rest := TextSpelled(body, k, quote, refused);
      var piece := if body[i] == '&' then Reference(body[i..k]) else Plain(body[i]);
      if body[i] == '&' {
        ReferencesAreExactlyTheGrammar(body, i, k);
      }
      pieces := [piece] + rest;
      SpellOneMore(piece, rest);
      assert body[i..k] == Text(piece);
      assert body[i..j] == body[i..k] + body[k..j];
    }
  }

  /** Quoted text is accepted exactly as the grammar spells it. */
  lemma TextsAreExactlyTheGrammar(body: string, i: nat, j: nat, quote: char, refused: char)
    requires i <= |body| && quote != '&'
    ensures TextEnd(body, i, quote, refused) == Some(j) <==>
      i < j <= |body| && exists pieces ::
        WellFormed(pieces, quote, refused) && body[i..j] == Spell(pieces) + [quote]
  {
    hide IsReference, TextEnd, WellFormed;
    if TextEnd(body, i, quote, refused) == Some(j) {
      var pieces := TextSpelled(body, i, quote, refused);
    }
    if i < j <= |body| {
      forall pieces | WellFormed(pieces, quote, refused) && body[i..j] == Spell(pieces) + [quote]
        ensures TextEnd(body, i, quote, refused) == Some(j)
      {
        assert |body[i..j]| == |Spell(pieces)| + 1;
        TextRecognised(body, i, pieces, quote, refused);
      }
    }
  }

  /** Entity values are accepted exactly as section 2.3 of XML 1.0 spells them, without parameter references. */
  lemma EntityValuesAreExactlyTheGrammar(body: string, i: nat, j: nat)
    requires i <= |body|
    ensures EntityValueEnd(body, i) == Some(j) <==>
      i + 1 < j <= |body| && IsQuote(body[i]) && exists pieces ::
        WellFormed(pieces, body[i], '%') && body[i + 1..j] == Spell(pieces) + [body[i]]
  {
    hide TextEnd, WellFormed;
    if i < |body| && IsQuote(body[i]) {
      TextsAreExactlyTheGrammar(body, i + 1, j, body[i], '%');
    }
  }

  // ----- attribute values

  /** How the source scans an attribute value: after a reference comes another, or any character at all. */
  predicate Scanned(pieces: seq<Piece>, quote: char, after: bool) {
    if pieces == [] then !after
    else
      match pieces[0]
      case Reference(text) => IsReference(text) && Scanned(pieces[1..], quote, true)
      case Plain(c) => c != '&' && (after || (c != quote && c != '<')) && Scanned(pieces[1..], quote, false)
  }

  /** The scan from an index, possibly directly after a reference. */
  function ScanEnd(body: string, i: nat, quote: char, after: bool): Option<nat>
    requires i <= |body|
  {
    ValueTextEnd(body, if after then AfterReference(body, i) else i, quote)
  }

  lemma {:induction false} ScanRecognised(body: string, i: nat, pieces: seq<Piece>, quote: char, after: bool)
    requires quote != '&' && Scanned(pieces, quote, after) && At(body, i, Spell(pieces) + [quote])
    ensures ScanEnd(body, i, quote, after) == Some(i + |Spell(pieces)| + 1)
    decreases |pieces|
  {
    hide IsReference, ReferenceEnd, At;
    if pieces == [] {
      assert Spell(pieces) + [quote] == [quote];
      CharAt(body, i, quote);
    } else {
      AtPiece(body, i, pieces, quote);
      match pieces[0] {
        case Plain(c) =>
          CharAt(body, i, c);
          ScanRecognised(body, i + 1, pieces[1..], quote, false);
        case Reference(text) =>
          ReferenceAt(body, i, text);
          ReferenceIsNotQuote(body, i, quote);
          ScanRecognised(body, i + |text|, pieces[1..], quote, true);
      }
    }
  }

  lemma ReferenceIsNotQuote(body: string, i: nat, quote: char)
    requires i < |body| && body[i] == '&' && quote != '&'
    ensures AfterReference(body, i) == i
    ensures ReferenceEnd(body, i).Some? ==>
      ValueTextEnd(body, i, quote) == ScanEnd(body, ReferenceEnd(body, i).value, quote, true)
  {
    hide ReferenceEnd;
  }

  /** One step of the scan: the piece it takes, where it goes on, and whether that is after a reference. */
  lemma ScanStep(body: string, i: nat, quote: char, after: bool) returns (piece: Piece, k: nat)
    requires i <= |body| && quote != '&' && ScanEnd(body, i, quote, after).Some?
    ensures i < |body|
    ensures body[i] == '&' || after || body[i] != quote ==>
      && i < k <= |body| && body[i..k] == Text(piece)
      && ScanEnd(body, k, quote, piece.Reference?) == ScanEnd(body, i, quote, after)
      && match piece
         case Reference(text) => IsReference(text)
         case Plain(c) => c != '&' && (after || (c != quote && c != '<'))
    ensures body[i] != '&' && !after && body[i] == quote ==> ScanEnd(body, i, quote, after) == Some(i + 1)
  {
    hide IsReference, ReferenceEnd;
    if body[i] == '&' {
      ReferenceIsNotQuote(body, i, quote);
      k := ReferenceEnd(body, i).value;
      ReferencesAreExactlyTheGrammar(body, i, k);
      piece := Reference(body[i..k]);
    } else {
      k := i + 1;
      piece := Plain(body[i]);
    }
  }

  lemma {:induction false} ScanSpelled(body: string, i: nat, quote: char, after: bool) returns (pieces: seq<Piece>)
    requires i <= |body| && quote != '&' && ScanEnd(body, i, quote, after).Some?
    ensures Scanned(pieces, quote, after)
    ensures i < ScanEnd(body, i, quote, after).value <= |body|
    ensures body[i..ScanEnd(body, i, quote, after).value] == Spell(pieces) + [quote]
    decreases |body| - i
  {
    hide IsReference, ScanEnd, Text;
    var piece, k := ScanStep(body, i, quote, after);
    if body[i] != '&' && !after && body[i] == quote {
      pieces := [];
    } else {
      var rest := ScanSpelled(body, k, quote, piece.Reference?);
      pieces := PieceThen(body, i, k, ScanEnd(body, i, quote, after).value, piece, rest, quote);
    }
  }

  lemma PieceThen(body: string, i: nat, k: nat, j: nat, piece: Piece, rest: seq<Piece>, quote: char)
    returns (pieces: seq<Piece>)
    requires i <= k <= j <= |body| && body[i..k] == Text(piece) && body[k..j] == Spell(rest) + [quote]
    ensures pieces == [piece] + rest && pieces[0] == piece && pieces[1..] == rest
    ensures body[i..j] == Spell(pieces) + [quote]
  {
    pieces := [piece] + rest;
    SpellOneMore(piece, rest);
    assert body[i..j] == body[i..k] + body[k..j];
  }

  /** Pieces as the scan of an attribute value takes them, and the quote that ends them. */
  ghost predicate IsScanned(text: string, quote: char) {
    exists pieces :: Scanned(pieces, quote, false) && text == Spell(pieces) + [quote]
  }

  /** What the scan of an attribute value accepts, exactly. */
  lemma ValuesAreExactlyScanned(body: string, i: nat, j: nat, quote: char)
    requires i <= |body| && quote != '&'
    ensures ValueTextEnd(body, i, quote) == Some(j) <==>
      i < j <= |body| && IsScanned(body[i..j], quote)
  {
    hide IsReference, ValueTextEnd, Scanned;
    assert ScanEnd(body, i, quote, false) == ValueTextEnd(body, i, quote);
    if ValueTextEnd(body, i, quote) == Some(j) {
      var pieces := ScanSpelled(body, i, quote, false);
    }
    if i < j <= |body| {
      forall pieces | Scanned(pieces, quote, false) && body[i..j] == Spell(pieces) + [quote]
        ensures ValueTextEnd(body, i, quote) == Some(j)
      {
        assert |body[i..j]| == |Spell(pieces)| + 1;
        ScanRecognised(body, i, pieces, quote, false);
      }
    }
  }

  predicate EndsInReference(pieces: seq<Piece>) {
    pieces != [] && pieces[|pieces| - 1].Reference?
  }

  /** A value of the standard is scanned as it is unless it ends in a reference. */
  lemma {:induction false} StandardScanned(pieces: seq<Piece>, quote: char, after: bool)
    requires WellFormed(pieces, quote, '<')
    ensures Scanned(pieces, quote, after) <==> if pieces == [] then !after else !EndsInReference(pieces)
    decreases |pieces|
  {
    hide IsReference;
    if pieces != [] {
      WellFormedRest(pieces, quote, '<');
      StandardScanned(pieces[1..], quote, pieces[0].Reference?);
      assert |pieces| > 1 ==> pieces[1..][|pieces| - 2] == pieces[|pieces| - 1];
    }
  }

  lemma PlainIsOrdinary(pieces: seq<Piece>, quote: char)
    requires WellFormed(pieces, quote, '<') && pieces != []
    ensures match pieces[0]
            case Plain(c) => c != quote && c != '&' && c != '<'
            case Reference(text) => IsReference(text)
  {
    hide IsReference;
    assert pieces[0] in pieces;
  }

  /** Past the closing quote the scan of a value that ends in a reference goes on. */
  lemma {:induction false} ScanPassesQuote(body: string, i: nat, pieces: seq<Piece>, quote: char, after: bool)
    requires quote != '&' && WellFormed(pieces, quote, '<') && At(body, i, Spell(pieces) + [quote])
    requires if pieces == [] then after else EndsInReference(pieces)
    ensures i + |Spell(pieces)| + 1 <= |body|
    ensures ScanEnd(body, i, quote, after) == ValueTextEnd(body, i + |Spell(pieces)| + 1, quote)
    decreases |pieces|
  {
    hide IsReference, ReferenceEnd, At, WellFormed;
    if pieces == [] {
      assert Spell(pieces) + [quote] == [quote];
      CharAt(body, i, quote);
    } else {
      AtPiece(body, i, pieces, quote);
      WellFormedRest(pieces, quote, '<');
      assert |pieces| > 1 ==> pieces[1..][|pieces| - 2] == pieces[|pieces| - 1];
      PlainIsOrdinary(pieces, quote);
      match pieces[0] {
        case Plain(c) =>
          CharAt(body, i, c);
          ScanPassesQuote(body, i + 1, pieces[1..], quote, false);
        case Reference(text) =>
          ReferenceAt(body, i, text);
          ReferenceIsNotQuote(body, i, quote);
          ScanPassesQuote(body, i + |text|, pieces[1..], quote, true);
      }
    }
  }

  /**
   * An attribute value as section 2.3 of XML 1.0 spells it is accepted up to
   * its closing quote exactly when it does not end in a reference.
   */
  lemma StandardValuesExactly(body: string, i: nat, pieces: seq<Piece>, quote: char)
    requires quote != '&' && WellFormed(pieces, quote, '<') && At(body, i, Spell(pieces) + [quote])
    ensures ValueTextEnd(body, i, quote) == Some(i + |Spell(pieces)| + 1) <==> !EndsInReference(pieces)
  {
    hide WellFormed, ValueTextEnd;
    StandardScanned(pieces, quote, false);
    assert ScanEnd(body, i, quote, false) == ValueTextEnd(body, i, quote);
    if EndsInReference(pieces) {
      ScanPassesQuote(body, i, pieces, quote, false);
    } else {
      ScanRecognised(body, i, pieces, quote, false);
    }
  }

  /** A value that ends in a reference is refused, and a bracket directly after one is accepted. */
  lemma ReferencesHideCharacters()
    ensures AttributeValueEnd("'&a;'", 0) == None && EntityValueEnd("'&a;'", 0) == Some(5)
    ensures AttributeValueEnd("'&a;<'", 0) == Some(6)
  {
    var ended, bracket := "'&a;'", "'&a;<'";
    assert IsReference("&a;") by {
      assert "&a;"[1..2] == "a";
    }
    ReferenceAt(ended, 1, "&a;");
    ReferenceAt(bracket, 1, "&a;");
    hide ReferenceEnd;
    assert TextEnd(ended, 4, '\'', '%') == Some(5);
    assert AfterReference(ended, 4) == 5 && ValueTextEnd(ended, 5, '\'') == None;
    assert AfterReference(bracket, 4) == 5 && ValueTextEnd(bracket, 5, '\'') == Some(6);
  }
}
