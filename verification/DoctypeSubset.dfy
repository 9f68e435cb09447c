/** The loop over the internal subset of a document type declaration (instance.go). */
module DoctypeSubset {
  import opened Wrappers
  import opened DoctypeModels
  import opened DoctypeDeclarations

  // ----- the items of a subset

  /** The first place of a word from an index on. */
  function Find(body: string, i: nat, word: string): (j: Option<nat>)
    requires i <= |body|
    ensures j.Some? ==> i <= j.value && StartsAt(body, j.value, word)
    ensures j.Some? ==> forall k :: i <= k < j.value ==> !StartsAt(body, k, word)
    ensures j.None? ==> forall k :: i <= k <= |body| ==> !StartsAt(body, k, word)
    decreases |body| - i
  {
    if StartsAt(body, i, word) then Some(i)
    else if i == |body| then None
    else Find(body, i + 1, word)
  }

  /** No two hyphens in a row, and none at the end. */
  predicate CommentText(text: string) {
    (forall k :: 0 <= k < |text| - 1 ==> !(text[k] == '-' && text[k + 1] == '-')) &&
      (text != "" ==> text[|text| - 1] != '-')
  }

  function CommentEnd(body: string, i: nat): (j: Option<nat>)
    requires StartsAt(body, i, "<!--")
    ensures j.Some? ==> i < j.value <= |body|
  {
    var end := Find(body, i + 4, "-->");
    if end.None? || !CommentText(body[i + 4..end.value]) then None else Some(end.value + 3)
  }

  function TargetEnd(body: string, i: nat): (j: nat)
    requires i <= |body|
    ensures i <= j <= |body|
    decreases |body| - i
  {
    if i < |body| && !IsSpace(body[i]) && body[i] != '?' && body[i] != '>' then TargetEnd(body, i + 1) else i
  }

  predicate IsXMLInAnyCase(name: string) {
    |name| == 3 && name[0] in {'x', 'X'} && name[1] in {'m', 'M'} && name[2] in {'l', 'L'}
  }

  function InstructionEnd(body: string, i: nat): (j: Option<nat>)
    requires StartsAt(body, i, "<?")
    ensures j.Some? ==> i < j.value <= |body|
  {
    var nameEnd := TargetEnd(body, i + 2);
    var name := body[i + 2..nameEnd];
    if !ValidNCName(name) || IsXMLInAnyCase(name) || nameEnd == |body| then None
    else if body[nameEnd] == '?' then
      if nameEnd + 1 >= |body| || body[nameEnd + 1] != '>' then None else Some(nameEnd + 2)
    else if !IsSpace(body[nameEnd]) then None
    else
      var end := Find(body, nameEnd, "?>");
      if end.None? then None else Some(end.value + 2)
  }

  function ParameterReferenceEnd(body: string, i: nat): (j: Option<nat>)
    requires i < |body|
    ensures j.Some? ==> i < j.value <= |body|
  {
    var end := Find(body, i + 1, ";");
    if end.None? || !ValidNCName(body[i + 1..end.value]) then None else Some(end.value + 1)
  }

  function UppercaseEnd(body: string, i: nat): (j: nat)
    requires i <= |body|
    ensures i <= j <= |body|
    decreases |body| - i
  {
    if i < |body| && 'A' <= body[i] <= 'Z' then UppercaseEnd(body, i + 1) else i
  }

  function MarkupDeclarationEnd(body: string, i: nat): (j: Option<nat>)
    requires StartsAt(body, i, "<!")
    ensures j.Some? ==> i < j.value <= |body|
  {
    var end := UppercaseEnd(body, i + 2);
    var keyword := body[i + 2..end];
    var start := SkipSpace(body, end);
    if keyword == "" || start == end then None
    else if keyword == "ELEMENT" then ElementEnd(body, start)
    else if keyword == "ATTLIST" then AttlistEnd(body, start)
    else if keyword == "ENTITY" then EntityEnd(body, start)
    else if keyword == "NOTATION" then NotationEnd(body, start)
    else None
  }

  /** One item of the subset: it ends strictly later, inside the body. */
  function ItemEnd(body: string, i: nat): (j: Option<nat>)
    requires i < |body|
    ensures j.Some? ==> i < j.value <= |body|
  {
    if StartsAt(body, i, "<!--") then CommentEnd(body, i)
    else if StartsAt(body, i, "<?") then InstructionEnd(body, i)
    else if body[i] == '%' then ParameterReferenceEnd(body, i)
    else if StartsAt(body, i, "<!") then MarkupDeclarationEnd(body, i)
    else None
  }

  // ----- the subset

  /** The subset goes on from an index to its bracket, and only space follows that. */
  predicate Rest(body: string, i: nat)
    requires i <= |body|
    decreases |body| - i
  {
    var k := SkipSpace(body, i);
    if k == |body| then false
    else if body[k] == ']' then SkipSpace(body, k + 1) == |body|
    else
      var next := ItemEnd(body, k);
      next.Some? && Rest(body, next.value)
  }

  method ConsumeItem(body: string, start: nat) returns (next: nat, ok: bool)
    requires start < |body|
    ensures ok == ItemEnd(body, start).Some? && (ok ==> next == ItemEnd(body, start).value)
  {
    hide ElementEnd, AttlistEnd, EntityEnd, NotationEnd, SkipSpace, UppercaseEnd;
    var end: Option<nat> := None;
    if StartsAt(body, start, "<!--") {
      end := CommentEnd(body, start);
    } else if StartsAt(body, start, "<?") {
      next, ok := ConsumeInstruction(body, start);
      return;
    } else if body[start] == '%' {
      end := ParameterReferenceEnd(body, start);
    } else if StartsAt(body, start, "<!") {
      next, ok := ConsumeMarkup(body, start);
      return;
    }
    ok := end.Some?;
    next := if ok then end.value else start;
  }

  method ConsumeInstruction(body: string, start: nat) returns (next: nat, ok: bool)
    requires StartsAt(body, start, "<?")
    ensures ok == InstructionEnd(body, start).Some? && (ok ==> next == InstructionEnd(body, start).value)
  {
    hide ValidNCName, Find;
    next := start + 2;
    while next < |body| && !IsSpace(body[next]) && body[next] != '?' && body[next] != '>'
      invariant start + 2 <= next <= |body| && TargetEnd(body, next) == TargetEnd(body, start + 2)
    {
      next := next + 1;
    }
    var name := body[start + 2..next];
    if !ValidNCName(name) || IsXMLInAnyCase(name) || next == |body| {
      return next, false;
    }
    if body[next] == '?' {
      ok := next + 1 < |body| && body[next + 1] == '>';
      next := next + 2;
      return;
    }
    if !IsSpace(body[next]) {
      return next, false;
    }
    var end := Find(body, next, "?>");
    ok := end.Some?;
    next := if ok then end.value + 2 else next;
  }

  method ConsumeMarkup(body: string, start: nat) returns (next: nat, ok: bool)
    requires StartsAt(body, start, "<!")
    ensures ok == MarkupDeclarationEnd(body, start).Some?
    ensures ok ==> next == MarkupDeclarationEnd(body, start).value
  {
    hide ElementEnd, AttlistEnd, EntityEnd, NotationEnd, SkipSpace;
    next := start + 2;
    while next < |body| && 'A' <= body[next] <= 'Z'
      invariant start + 2 <= next <= |body| && UppercaseEnd(body, next) == UppercaseEnd(body, start + 2)
    {
      next := next + 1;
    }
    var keyword := body[start + 2..next];
    var spaced;
    next, spaced := ConsumeSpace(body, next);
    if keyword == "" || !spaced {
      return next, false;
    }
    if keyword == "ELEMENT" {
      next, ok := ConsumeElement(body, next);
      return;
    }
    if keyword == "ATTLIST" {
      next, ok := ConsumeAttlist(body, next);
      return;
    }
    if keyword == "ENTITY" {
      next, ok := ConsumeEntity(body, next);
      return;
    }
    if keyword == "NOTATION" {
      next, ok := ConsumeNotation(body, next);
      return;
    }
    return next, false;
  }

  /** The subset loop, from its opening bracket on. */
  method ValidateSubset(body: string, start: nat) returns (valid: bool)
    requires start <= |body|
    ensures valid <==> start < |body| && body[start] == '[' && Rest(body, start + 1)
  {
    hide ItemEnd, SkipSpace;
    if start >= |body| || body[start] != '[' {
      return false;
    }
    var index := start + 1;
    while index < |body|
      invariant start < index <= |body|
      invariant Rest(body, index) == Rest(body, start + 1)
      decreases |body| - index
    {
      var after, spaced := ConsumeSpace(body, index);
      SpaceThenRest(body, index);
      index := after;
      if spaced {
        continue;
      }
      if body[index] == ']' {
        index, spaced := ConsumeSpace(body, index + 1);
        return index == |body|;
      }
      var ok;
      index, ok := ConsumeItem(body, index);
      if !ok {
        return false;
      }
    }
    NothingLeft(body);
    return false;
  }

  lemma SpaceThenRest(body: string, i: nat)
    requires i <= |body|
    ensures Rest(body, SkipSpace(body, i)) == Rest(body, i)
  {
    SkipTwice(body, i);
    hide SkipSpace, ItemEnd;
  }

  lemma {:induction false} SkipTwice(body: string, i: nat)
    requires i <= |body|
    ensures SkipSpace(body, SkipSpace(body, i)) == SkipSpace(body, i)
    decreases |body| - i
  {
    if i < |body| && IsSpace(body[i]) {
      SkipTwice(body, i + 1);
    }
  }

  lemma NothingLeft(body: string)
    ensures !Rest(body, |body|)
  {
  }

  // ----- a subset is a list of items

  /** Items stand at these places, one after the other with space between, up to the closing bracket. */
  ghost predicate Itemised(body: string, i: nat, places: seq<nat>)
    requires i <= |body|
  {
    && places != [] && places[0] == SkipSpace(body, i)
    && (forall k :: 0 <= k < |places| ==> places[k] < |body|)
    && (forall k :: 0 <= k < |places| - 1 ==> ItemBetween(body, places[k], places[k + 1]))
    && body[places[|places| - 1]] == ']' && SkipSpace(body, places[|places| - 1] + 1) == |body|
  }

  /** An item from one place leads to the next. */
  ghost predicate ItemBetween(body: string, from: nat, to: nat)
    requires from < |body|
  {
    body[from] != ']' && ItemEnd(body, from).Some? && to == SkipSpace(body, ItemEnd(body, from).value)
  }

  lemma {:induction false} RestIsItemised(body: string, i: nat) returns (places: seq<nat>)
    requires i <= |body| && Rest(body, i)
    ensures Itemised(body, i, places)
    decreases |body| - i
  {
    hide SkipSpace, ItemEnd;
    var k := SkipSpace(body, i);
    if body[k] == ']' {
      places := [k];
    } else {
      var more := RestIsItemised(body, ItemEnd(body, k).value);
      places := [k] + more;
      forall n | 0 <= n < |places| - 1
        ensures ItemBetween(body, places[n], places[n + 1])
      {
        if n > 0 { assert ItemBetween(body, more[n - 1], more[n]); }
      }
    }
  }

  lemma {:induction false} ItemisedIsRest(body: string, i: nat, places: seq<nat>)
    requires i <= |body| && Itemised(body, i, places)
    ensures Rest(body, i)
    decreases |places|
  {
    hide SkipSpace, ItemEnd;
    if |places| > 1 {
      assert ItemBetween(body, places[0], places[1]);
      var rest := places[1..];
      forall n | 0 <= n < |rest| - 1
        ensures ItemBetween(body, rest[n], rest[n + 1])
      {
        assert ItemBetween(body, places[n + 1], places[n + 2]);
      }
      ItemisedIsRest(body, ItemEnd(body, places[0]).value, rest);
    }
  }

  /** The loop accepts exactly a bracketed list of items with nothing but space after it. */
  lemma SubsetsAreExactlyItemLists(body: string, i: nat)
    requires i <= |body|
    ensures Rest(body, i) <==> exists places :: Itemised(body, i, places)
  {
    hide Rest, Itemised;
    if Rest(body, i) {
      var places := RestIsItemised(body, i);
    }
    forall places | Itemised(body, i, places)
      ensures Rest(body, i)
    {
      ItemisedIsRest(body, i, places);
    }
  }

  /** Comments are accepted exactly as section 2.5 of XML 1.0 spells them. */
  lemma CommentsAreExactlyTheGrammar(body: string, i: nat, j: nat)
    requires StartsAt(body, i, "<!--")
    ensures CommentEnd(body, i) == Some(j) <==>
      i + 7 <= j <= |body| && StartsAt(body, j - 3, "-->") && CommentText(body[i + 4..j - 3])
  {
    if i + 7 <= j <= |body| && StartsAt(body, j - 3, "-->") && CommentText(body[i + 4..j - 3]) {
      var text := body[i + 4..j - 3];
      forall k | i + 4 <= k < j - 3
        ensures !StartsAt(body, k, "-->")
      {
        TwoHyphens(body, k);
        assert text[k - (i + 4)] == body[k];
        if k + 1 < j - 3 {
          assert text[k + 1 - (i + 4)] == body[k + 1];
        }
      }
      FindIs(body, i + 4, "-->", j - 3);
    }
  }

  /** Instructions are accepted exactly as section 2.6 of XML 1.0 spells them, with an unprefixed target. */
  lemma InstructionsAreExactlyTheGrammar(body: string, i: nat, j: nat)
    requires StartsAt(body, i, "<?")
    ensures InstructionEnd(body, i) == Some(j) <==>
      exists nameEnd: nat :: InstructionAt(body, i, nameEnd, j)
  {
    hide Find, ValidNCName, IsXMLInAnyCase, IsSpace;
    var end := TargetEnd(body, i + 2);
    if InstructionEnd(body, i) == Some(j) {
      if body[end] == '?' {
        assert StartsAt(body, end, "?>");
      }
      XMLInAnyCase(body[i + 2..end]);
      assert InstructionAt(body, i, end, j);
    }
    forall nameEnd: nat | InstructionAt(body, i, nameEnd, j)
      ensures InstructionEnd(body, i) == Some(j)
    {
      NoSpaceInName(body, i + 2, nameEnd);
      XMLInAnyCase(body[i + 2..nameEnd]);
      QuestionAt(body, j - 2);
      QuestionIsNotSpace();
      TargetEndIs(body, i + 2, nameEnd);
      if nameEnd < j - 2 {
        FindIs(body, nameEnd, "?>", j - 2);
      }
    }
  }

  /** A target, then the closing mark at once or after space and text without another such mark. */
  ghost predicate InstructionAt(body: string, i: nat, nameEnd: nat, j: nat) {
    && i + 2 <= nameEnd <= j - 2 && j <= |body|
    && ValidNCName(body[i + 2..nameEnd])
    && body[i + 2..nameEnd] !in {"xml", "xmL", "xMl", "xML", "Xml", "XmL", "XMl", "XML"}
    && StartsAt(body, j - 2, "?>")
    && (nameEnd < j - 2 ==> IsSpace(body[nameEnd]) && forall k :: nameEnd <= k < j - 2 ==> !StartsAt(body, k, "?>"))
  }

  lemma XMLInAnyCase(name: string)
    ensures IsXMLInAnyCase(name) <==> name in {"xml", "xmL", "xMl", "xML", "Xml", "XmL", "XMl", "XML"}
  {
    if IsXMLInAnyCase(name) {
      assert name == [name[0], name[1], name[2]];
    }
  }

  lemma QuestionIsNotSpace()
    ensures !IsSpace('?')
  {
  }

  lemma QuestionAt(body: string, k: nat)
    requires StartsAt(body, k, "?>")
    ensures k + 1 < |body| && body[k] == '?' && body[k + 1] == '>'
  {
    assert body[k] == body[k..k + 2][0] && body[k + 1] == body[k..k + 2][1];
  }

  lemma NoSpaceInName(body: string, i: nat, end: nat)
    requires i <= end <= |body| && ValidNCName(body[i..end])
    ensures forall k :: i <= k < end ==> !IsSpace(body[k]) && body[k] != '?' && body[k] != '>' && body[k] != ';'
  {
    forall k | i <= k < end
      ensures !IsSpace(body[k]) && body[k] != '?' && body[k] != '>' && body[k] != ';'
    {
      var name := body[i..end];
      assert name[k - i] == body[k] && name[k - i] in name;
      NameCharIsPlain(body[k]);
    }
  }

  lemma NameCharIsPlain(c: char)
    requires IsNameChar(c)
    ensures !IsSpace(c) && c != '?' && c != '>' && c != ';'
  {
  }

  lemma {:induction false} TargetEndIs(body: string, i: nat, end: nat)
    requires i <= end < |body| && (IsSpace(body[end]) || body[end] == '?')
    requires forall k :: i <= k < end ==> !IsSpace(body[k]) && body[k] != '?' && body[k] != '>'
    ensures TargetEnd(body, i) == end
    decreases end - i
  {
    hide IsSpace;
    if i < end {
      TargetEndIs(body, i + 1, end);
    }
  }

  /** Parameter references are accepted exactly as section 4.1 of XML 1.0 spells them, with an unprefixed name. */
  lemma ParameterReferencesAreExactlyTheGrammar(body: string, i: nat, j: nat)
    requires i < |body|
    ensures ParameterReferenceEnd(body, i) == Some(j) <==>
      i + 2 <= j <= |body| && body[j - 1] == ';' && ValidNCName(body[i + 1..j - 1])
  {
    hide Find, ValidNCName;
    SemicolonAt(body);
    if i + 2 <= j <= |body| && body[j - 1] == ';' && ValidNCName(body[i + 1..j - 1]) {
      NoSpaceInName(body, i + 1, j - 1);
      FindIs(body, i + 1, ";", j - 1);
    }
  }

  lemma SemicolonAt(body: string)
    ensures forall k: nat :: StartsAt(body, k, ";") <==> k < |body| && body[k] == ';'
  {
    forall k: nat | k < |body|
      ensures body[k..k + 1] == [body[k]]
    {
    }
  }

  lemma TwoHyphens(body: string, k: nat)
    ensures StartsAt(body, k, "-->") ==> k + 1 < |body| && body[k] == '-' && body[k + 1] == '-'
  {
    assert StartsAt(body, k, "-->") ==> body[k] == body[k..k + 3][0] && body[k + 1] == body[k..k + 3][1];
  }

  lemma FindIs(body: string, i: nat, word: string, j: nat)
    requires i <= j <= |body| && StartsAt(body, j, word) && forall k :: i <= k < j ==> !StartsAt(body, k, word)
    ensures Find(body, i, word) == Some(j)
  {
    hide StartsAt;
    var found := Find(body, i, word);
    assert found.Some?;
  }
}
