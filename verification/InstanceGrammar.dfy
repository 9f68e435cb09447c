/** The documents the element-stack decoder accepts, as a grammar (instance.go). */
module InstanceGrammar {
  import opened Wrappers
  import opened InstanceDocument
  import Lexical

  // ----- the grammar

  /** A spelled element: its start tag and what stands before the end tag of the same name. */
  datatype Source = Source(start: Token, content: seq<Item>)

  datatype Item = Sub(source: Source) | Single(token: Token)

  function Spell(source: Source): seq<Token> {
    [source.start] + SpellItems(source.content)
    + [EndTag(if source.start.StartTag? then source.start.rawName else "")]
  }

  function SpellItems(items: seq<Item>): seq<Token> {
    if items == [] then [] else SpellItems(items[..|items| - 1]) + SpellItem(items[|items| - 1])
  }

  function SpellItem(item: Item): seq<Token> {
    match item
    case Sub(source) => Spell(source)
    case Single(token) => [token]
  }

  predicate Aside(token: Token) {
    (token.Comment? || token.Instruction?) && token.wellFormed
  }

  /** What a start tag below a scope opens. */
  function Opens(env: Environment, start: Token, around: Option<Scope>): Option<OpenElement> {
    if !start.StartTag? || !start.wellFormed then None
    else
      var scope := env.childScope(around, start.attributes);
      if scope.None? then None
      else
        var name := env.resolve(start.rawName, scope.value, false);
        var attributes := env.attributes(start.attributes, scope.value, false);
        if name.None? || attributes.None? then None
        else Some(OpenElement(name.value, attributes.value, start.rawName, scope.value, []))
  }

  /** The tree a spelled element means in a scope, when it means one. */
  function Meaning(env: Environment, source: Source, around: Option<Scope>): Option<Tree> {
    var element := Opens(env, source.start, around);
    if element.None? then None
    else
      var children := ContentMeaning(env, source.content, element.value.scope);
      if children.None? then None else Some(Tree(element.value.name, element.value.attributes, children.value))
  }

  function ContentMeaning(env: Environment, items: seq<Item>, scope: Scope): Option<seq<TreeNode>> {
    if items == [] then Some([])
    else
      var before := ContentMeaning(env, items[..|items| - 1], scope);
      var last := ItemMeaning(env, items[|items| - 1], scope);
      if before.None? || last.None? then None else Some(before.value + last.value)
  }

  function ItemMeaning(env: Environment, item: Item, scope: Scope): Option<seq<TreeNode>> {
    match item
    case Sub(source) =>
      var tree := Meaning(env, source, Some(scope));
      if tree.None? then None else Some([Branch(tree.value)])
    case Single(token) =>
      if Aside(token) then Some([])
      else if token.CharacterData? then Some(if token.data == "" then [] else [Leaf(token.data)])
      else None
  }

  /** The white space of XML 1.0, section 2.3. */
  predicate Blank(text: string) {
    forall i :: 0 <= i < |text| ==> text[i] in {' ', '\t', '\n', '\r'}
  }

  /** Space that is written out, and not spelled by references. */
  predicate Written(data: string, raw: string) {
    Blank(data) && Blank(raw) && raw != ""
  }

  const MARK: string := "\U{FEFF}"

  /** The text behind a byte-order mark, if it starts with one. */
  function Unmarked(text: string): string {
    if MARK <= text then text[1..] else text
  }

  lemma BlankIs(text: string)
    ensures Blank(text) <==> OnlyWhitespace(text)
  {
    if Blank(text) {
      forall c | c in text
        ensures Lexical.IsXMLWhitespace(c)
      {
        var i :| 0 <= i < |text| && text[i] == c;
      }
    }
    if OnlyWhitespace(text) {
      forall i | 0 <= i < |text|
        ensures text[i] in {' ', '\t', '\n', '\r'}
      {
        assert text[i] in text;
      }
    }
  }

  lemma WrittenIs(data: string, raw: string)
    ensures Written(data, raw) <==> LiteralWhitespace(data, raw)
  {
    BlankIs(data);
    BlankIs(raw);
  }

  lemma UnmarkedIs(text: string)
    ensures MARK <= text <==> HasBOM(text)
    ensures Unmarked(text) == TrimBOM(text)
    ensures text == MARK <==> HasBOM(text) && TrimBOM(text) == ""
  {
  }

  lemma PrologIs(token: Token, first: bool)
    requires token.CharacterData?
    ensures OnlyBOM(token) <==> HasBOM(token.data) && TrimBOM(token.data) == ""
    ensures InProlog(token, first) <==>
      || (first && HasBOM(token.data)
          && (OnlyBOM(token) || LiteralWhitespace(TrimBOM(token.data), TrimBOM(token.raw))))
      || LiteralWhitespace(token.data, token.raw)
  {
    UnmarkedIs(token.data);
    UnmarkedIs(token.raw);
    WrittenIs(token.data, token.raw);
    WrittenIs(TrimBOM(token.data), TrimBOM(token.raw));
  }

  /** A byte-order mark alone. */
  predicate OnlyBOM(token: Token) {
    token.CharacterData? && token.data == MARK
  }

  predicate Begun(tokens: seq<Token>) {
    exists t <- tokens :: !OnlyBOM(t)
  }

  /** May stand before the root; `first` when nothing but byte-order marks came before. */
  predicate InProlog(token: Token, first: bool) {
    || Aside(token)
    || (token.Declaration? && first && token.wellFormed && token.lowercase && token.acceptable)
    || (token.CharacterData? && first && MARK <= token.data
        && (OnlyBOM(token) || Written(Unmarked(token.data), Unmarked(token.raw))))
    || (token.CharacterData? && Written(token.data, token.raw))
  }

  predicate Prolog(tokens: seq<Token>) {
    tokens == []
    || var before := tokens[..|tokens| - 1]; Prolog(before) && InProlog(tokens[|tokens| - 1], !Begun(before))
  }

  predicate Epilog(tokens: seq<Token>) {
    forall t <- tokens :: Aside(t) || (t.CharacterData? && Written(t.data, t.raw))
  }

  /** One root element between a prolog and an epilog, meaning the tree. */
  ghost predicate IsDocument(env: Environment, tokens: seq<Token>, prolog: seq<Token>, root: Source, epilog: seq<Token>,
                             tree: Tree)
  {
    && Prolog(prolog) && Epilog(epilog)
    && tokens == prolog + Spell(root) + epilog
    && Meaning(env, root, None) == Some(tree)
  }

  // ----- every document of the grammar is decoded

  predicate Within(s: State, scope: Scope) {
    s.open != [] && s.open[|s.open| - 1].scope == scope && s.finished.None? && !s.unsupported && !s.unbound &&
      s.seenToken
  }

  function AddChildren(s: State, children: seq<TreeNode>): State
    requires s.open != []
  {
    var last := s.open[|s.open| - 1];
    s.(open := s.open[..|s.open| - 1] + [last.(children := last.children + children)])
  }

  lemma AddChildrenTwice(s: State, first: seq<TreeNode>, second: seq<TreeNode>)
    requires s.open != []
    ensures AddChildren(AddChildren(s, first), second) == AddChildren(s, first + second)
  {
    var last := s.open[|s.open| - 1];
    assert last.children + first + second == last.children + (first + second);
    assert AddChildren(s, first).open[..|s.open| - 1] == s.open[..|s.open| - 1];
  }

  lemma AddNoChildren(s: State)
    requires s.open != []
    ensures AddChildren(s, []) == s
  {
    var last := s.open[|s.open| - 1];
    assert last.children + [] == last.children;
  }

  lemma {:induction false} RunContent(env: Environment, s: State, items: seq<Item>, scope: Scope)
    requires Within(s, scope) && ContentMeaning(env, items, scope).Some?
    ensures Run(env, s, SpellItems(items)) == Ok(AddChildren(s, ContentMeaning(env, items, scope).value))
    decreases items, 0
  {
    hide Step, Meaning, Spell, Run;
    if items == [] {
      RunNothing(env, s);
      AddNoChildren(s);
    } else {
      var before := items[..|items| - 1];
      var last := items[|items| - 1];
      RunContent(env, s, before, scope);
      var middle := AddChildren(s, ContentMeaning(env, before, scope).value);
      RunItem(env, middle, last, scope);
      RunConcat(env, s, SpellItems(before), SpellItem(last));
      AddChildrenTwice(s, ContentMeaning(env, before, scope).value, ItemMeaning(env, last, scope).value);
    }
  }

  lemma RunNothing(env: Environment, s: State)
    ensures Run(env, s, []) == Ok(s)
  {
  }

  lemma {:induction false} RunItem(env: Environment, s: State, item: Item, scope: Scope)
    requires Within(s, scope) && ItemMeaning(env, item, scope).Some?
    ensures Run(env, s, SpellItem(item)) == Ok(AddChildren(s, ItemMeaning(env, item, scope).value))
    decreases item, 1
  {
    hide Meaning, Spell, Run, Walk;
    match item
    case Sub(source) =>
      RunElement(env, s, source);
      var tree := Meaning(env, source, Some(scope)).value;
      assert AddChildren(s, [Branch(tree)]) == s.(open := AddChild(s.open, Branch(tree)));
    case Single(token) =>
      RunOne(env, s, token);
      AddNoChildren(s);
      if token.CharacterData? && token.data != "" {
        assert AddChildren(s, [Leaf(token.data)]) == s.(open := AddChild(s.open, Leaf(token.data)));
      }
  }

  /** Around a state, an element runs to itself as one more child, or as the root. */
  function Enclosed(s: State, tree: Tree): State {
    if s.open == [] then s.(finished := Some(tree), seenToken := true) else s.(open := AddChild(s.open, Branch(tree)))
  }

  lemma {:induction false} RunElement(env: Environment, s: State, source: Source)
    requires s.finished.None? && !s.unsupported && !s.unbound && (s.open != [] ==> s.seenToken)
    requires Meaning(env, source, CurrentScope(s.open)).Some?
    ensures Run(env, s, Spell(source)) == Ok(Enclosed(s, Meaning(env, source, CurrentScope(s.open)).value))
    decreases source, 2
  {
    hide Run, SpellItems, ContentMeaning, Walk;
    var element := Opens(env, source.start, CurrentScope(s.open)).value;
    var inside := s.(open := s.open + [element], seenToken := true);
    assert Step(env, s, source.start) == Ok(inside);
    RunOne(env, s, source.start);
    var children := ContentMeaning(env, source.content, element.scope).value;
    RunContent(env, inside, source.content, element.scope);
    RunConcat(env, s, [source.start], SpellItems(source.content));
    var full := AddChildren(inside, children);
    RunEnd(env, s, element, children, full);
    RunOne(env, full, EndTag(element.rawName));
    RunConcat(env, s, [source.start] + SpellItems(source.content), [EndTag(element.rawName)]);
  }

  lemma RunEnd(env: Environment, s: State, element: OpenElement, children: seq<TreeNode>, full: State)
    requires element.children == [] && s.finished.None? && !s.unbound
    requires env.resolve(element.rawName, element.scope, false) == Some(element.name)
    requires (s.open != [] ==> s.seenToken)
    requires full == AddChildren(s.(open := s.open + [element], seenToken := true), children)
    ensures Step(env, full, EndTag(element.rawName))
         == Ok(Enclosed(s, Tree(element.name, element.attributes, children)))
  {
    assert (s.open + [element])[..|s.open|] == s.open;
    var last := full.open[|s.open|];
    assert last.children == children;
    assert full.open[..|full.open| - 1] == s.open;
  }

  function AfterProlog(tokens: seq<Token>): State {
    INITIAL.(seenToken := Begun(tokens))
  }

  lemma BegunExtends(tokens: seq<Token>, token: Token)
    ensures Begun(tokens + [token]) == (Begun(tokens) || !OnlyBOM(token))
  {
    var all := tokens + [token];
    if Begun(tokens) {
      var t :| t in tokens && !OnlyBOM(t);
      assert t in all;
    }
    assert token in all;
  }

  lemma {:induction false} RunProlog(env: Environment, tokens: seq<Token>)
    requires Prolog(tokens)
    ensures Run(env, INITIAL, tokens) == Ok(AfterProlog(tokens))
  {
    hide Begun;
    if tokens == [] {
      NothingBegun();
    } else {
      var before := tokens[..|tokens| - 1];
      var token := tokens[|tokens| - 1];
      RunProlog(env, before);
      assert tokens == before + [token];
      BegunExtends(before, token);
      PrologStep(env, Begun(before), token);
    }
  }

  lemma NothingBegun()
    ensures !Begun([])
  {
  }

  /** Before the root a token is accepted exactly when a prolog may go on with it, document types aside. */
  lemma PrologStep(env: Environment, begun: bool, token: Token)
    requires !token.StartTag? && !token.Doctype?
    ensures var s := INITIAL.(seenToken := begun);
      if InProlog(token, !begun) then Step(env, s, token) == Ok(s.(seenToken := begun || !OnlyBOM(token)))
      else Step(env, s, token).Err?
  {
    if token.CharacterData? {
      PrologIs(token, !begun);
      hide InProlog, OnlyBOM, Written, Unmarked;
      if HasBOM(token.data) {
        assert BOM in token.data;
      }
    }
  }

  lemma {:induction false} RunEpilog(env: Environment, s: State, tokens: seq<Token>)
    requires s.open == [] && s.finished.Some? && s.seenToken && !s.unsupported && Epilog(tokens)
    ensures Run(env, s, tokens) == Ok(s)
  {
    if tokens != [] {
      var last := tokens[|tokens| - 1];
      RunEpilog(env, s, tokens[..|tokens| - 1]);
      assert last in tokens;
      if last.CharacterData? {
        WrittenIs(last.data, last.raw);
      }
    }
  }

  lemma GrammarIsDecoded(env: Environment, tokens: seq<Token>, prolog: seq<Token>, root: Source, epilog: seq<Token>,
                         tree: Tree)
    requires IsDocument(env, tokens, prolog, root, epilog, tree)
    ensures Decoded(env, tokens) == Ok(tree)
  {
    hide Run, Step, Prolog, Epilog, Spell, Meaning, Begun;
    RunProlog(env, prolog);
    RunElement(env, AfterProlog(prolog), root);
    RunConcat(env, INITIAL, prolog, Spell(root));
    RunEpilog(env, Enclosed(AfterProlog(prolog), tree), epilog);
    RunConcat(env, INITIAL, prolog + Spell(root), epilog);
  }

  // ----- every decoded document is in the grammar

  datatype OpenSource = OpenSource(start: Token, content: seq<Item>)

  function SpellOpen(opens: seq<OpenSource>): seq<Token> {
    if opens == [] then []
    else
      var last := opens[|opens| - 1];
      SpellOpen(opens[..|opens| - 1]) + ([last.start] + SpellItems(last.content))
  }

  /** How the tokens so far divide. */
  datatype Parts = Parts(prolog: seq<Token>, opens: seq<OpenSource>, root: Option<Source>, epilog: seq<Token>) {
    function Tokens(): seq<Token> {
      prolog + SpellOpen(opens) + (if root.Some? then Spell(root.value) else []) + epilog
    }
  }

  /** The open sources mean the open elements. */
  ghost predicate Means(env: Environment, opens: seq<OpenSource>, open: seq<OpenElement>) {
    && |opens| == |open|
    && forall i :: 0 <= i < |opens| ==> MeansAt(env, opens[i], open[i], CurrentScope(open[..i]))
  }

  ghost predicate MeansAt(env: Environment, source: OpenSource, element: OpenElement, around: Option<Scope>) {
    var children := ContentMeaning(env, source.content, element.scope);
    && Opens(env, source.start, around) == Some(element.(children := []))
    && children == Some(element.children)
  }

  ghost predicate Divides(env: Environment, parts: Parts, s: State) {
    && Prolog(parts.prolog) && Epilog(parts.epilog)
    && Means(env, parts.opens, s.open)
    && (parts.root.Some? <==> s.finished.Some?)
    && (parts.root.Some? ==> Meaning(env, parts.root.value, None) == s.finished && s.open == [])
    && (parts.epilog != [] ==> parts.root.Some?)
    && s.seenToken == (s.RootSeen() || Begun(parts.prolog))
    && !s.unsupported && !s.unbound
  }

  lemma SpellAppend(items: seq<Item>, last: Item)
    ensures SpellItems(items + [last]) == SpellItems(items) + SpellItem(last)
  {
    assert (items + [last])[..|items|] == items;
  }

  function AddItem(opens: seq<OpenSource>, item: Item): seq<OpenSource>
    requires opens != []
  {
    var last := opens[|opens| - 1];
    opens[..|opens| - 1] + [last.(content := last.content + [item])]
  }

  lemma SpellAddItem(opens: seq<OpenSource>, item: Item)
    requires opens != []
    ensures SpellOpen(AddItem(opens, item)) == SpellOpen(opens) + SpellItem(item)
  {
    hide SpellItems, SpellItem;
    var last := opens[|opens| - 1];
    assert AddItem(opens, item)[..|opens| - 1] == opens[..|opens| - 1];
    SpellAppend(last.content, item);
  }

  lemma ContentAppend(env: Environment, items: seq<Item>, last: Item, scope: Scope)
    requires ContentMeaning(env, items, scope).Some? && ItemMeaning(env, last, scope).Some?
    ensures ContentMeaning(env, items + [last], scope)
         == Some(ContentMeaning(env, items, scope).value + ItemMeaning(env, last, scope).value)
  {
    assert (items + [last])[..|items|] == items;
  }

  /** One more item in the innermost element. */
  lemma MeansAddItem(env: Environment, opens: seq<OpenSource>, open: seq<OpenElement>, item: Item, added: seq<TreeNode>)
    requires Means(env, opens, open) && open != []
    requires ItemMeaning(env, item, open[|open| - 1].scope) == Some(added)
    ensures var last := open[|open| - 1];
      Means(env, AddItem(opens, item), open[..|open| - 1] + [last.(children := last.children + added)])
  {
    hide ContentMeaning, ItemMeaning, Opens;
    var last := open[|open| - 1];
    var after := open[..|open| - 1] + [last.(children := last.children + added)];
    assert MeansAt(env, opens[|open| - 1], last, CurrentScope(open[..|open| - 1]));
    ContentAppend(env, opens[|open| - 1].content, item, last.scope);
    assert after[..|open| - 1] == open[..|open| - 1];
    forall i | 0 <= i < |after|
      ensures MeansAt(env, AddItem(opens, item)[i], after[i], CurrentScope(after[..i]))
    {
      assert after[..i] == open[..i];
      assert MeansAt(env, opens[i], open[i], CurrentScope(open[..i]));
    }
  }

  lemma MeansPush(env: Environment, opens: seq<OpenSource>, open: seq<OpenElement>, start: Token, element: OpenElement)
    requires Means(env, opens, open) && Opens(env, start, CurrentScope(open)) == Some(element)
    ensures Means(env, opens + [OpenSource(start, [])], open + [element])
  {
    hide Opens;
    var after := open + [element];
    assert element.children == [] by { OpensBare(env, start, CurrentScope(open)); }
    forall i | 0 <= i < |after|
      ensures MeansAt(env, (opens + [OpenSource(start, [])])[i], after[i], CurrentScope(after[..i]))
    {
      assert after[..i] == open[..i];
      if i < |open| {
        assert MeansAt(env, opens[i], open[i], CurrentScope(open[..i]));
      } else {
        assert open[..i] == open;
      }
    }
  }

  lemma OpensBare(env: Environment, start: Token, around: Option<Scope>)
    ensures var element := Opens(env, start, around);
      element.Some? ==> element.value.children == [] && start.StartTag? && element.value.rawName == start.rawName
  {
  }

  lemma MeansPrefix(env: Environment, opens: seq<OpenSource>, open: seq<OpenElement>)
    requires Means(env, opens, open) && open != []
    ensures Means(env, opens[..|open| - 1], open[..|open| - 1])
  {
    var rest := open[..|open| - 1];
    forall i | 0 <= i < |rest|
      ensures MeansAt(env, opens[i], rest[i], CurrentScope(rest[..i]))
    {
      assert rest[..i] == open[..i];
      assert MeansAt(env, opens[i], open[i], CurrentScope(open[..i]));
    }
  }

  /** A closed source means the tree of the element it opened. */
  lemma ClosedMeaning(env: Environment, source: OpenSource, element: OpenElement, around: Option<Scope>)
    requires MeansAt(env, source, element, around)
    ensures Meaning(env, Source(source.start, source.content), around) == Some(TreeOfOpen(element))
  {
  }

  lemma StartDivides(env: Environment, parts: Parts, s: State, token: Token) returns (after: Parts)
    requires Divides(env, parts, s) && token.StartTag? && Step(env, s, token).Ok?
    ensures Divides(env, after, Step(env, s, token).value) && after.Tokens() == parts.Tokens() + [token]
  {
    hide Prolog, Epilog, Begun, Means, Meaning, Spell, SpellItems;
    after := parts.(opens := parts.opens + [OpenSource(token, [])]);
    var t := Step(env, s, token).value;
    MeansPush(env, parts.opens, s.open, token, t.open[|s.open|]);
    assert after.opens[..|parts.opens|] == parts.opens;
    assert SpellItems([]) == [] by { SpellNothing(); }
  }

  lemma SpellNothing()
    ensures SpellItems([]) == []
  {
  }

  /** A token that is an item of its own inside the innermost element. */
  lemma ItemDivides(env: Environment, parts: Parts, s: State, item: Item, added: seq<TreeNode>) returns (after: Parts)
    requires Divides(env, parts, s) && s.open != []
    requires ItemMeaning(env, item, s.open[|s.open| - 1].scope) == Some(added)
    ensures Divides(env, after, AddChildren(s, added)) && after.Tokens() == parts.Tokens() + SpellItem(item)
  {
    hide Prolog, Epilog, Begun, Means, Meaning, Spell, SpellItem, ItemMeaning, SpellOpen;
    assert |parts.opens| == |s.open| by { MeansLength(env, parts.opens, s.open); }
    assert parts.epilog == [] && parts.root.None?;
    after := parts.(opens := AddItem(parts.opens, item));
    MeansAddItem(env, parts.opens, s.open, item, added);
    SpellAddItem(parts.opens, item);
  }

  lemma MeansLength(env: Environment, opens: seq<OpenSource>, open: seq<OpenElement>)
    requires Means(env, opens, open)
    ensures |opens| == |open|
    ensures open != [] ==> MeansAt(env, opens[|open| - 1], open[|open| - 1], CurrentScope(open[..|open| - 1]))
  {
  }

  lemma EndDivides(env: Environment, parts: Parts, s: State, token: Token) returns (after: Parts)
    requires Divides(env, parts, s) && token.EndTag? && Step(env, s, token).Ok?
    ensures Divides(env, after, Step(env, s, token).value) && after.Tokens() == parts.Tokens() + [token]
  {
    hide Prolog, Epilog, Begun, Means, Meaning, SpellItems, SpellItem, ItemMeaning, ContentMeaning, Opens, SpellOpen;
    var n := |s.open| - 1;
    MeansLength(env, parts.opens, s.open);
    var last := parts.opens[n];
    var source := Source(last.start, last.content);
    assert parts.epilog == [] && parts.root.None?;
    assert parts.Tokens() == parts.prolog + SpellOpen(parts.opens);
    ClosedMeaning(env, last, s.open[n], CurrentScope(s.open[..n]));
    OpensBare(env, last.start, CurrentScope(s.open[..n]));
    SpellClosed(parts.opens, last);
    var outer := parts.(opens := parts.opens[..n]);
    assert token == EndTag(last.start.rawName);
    assert parts.Tokens() + [token] == parts.prolog + (SpellOpen(parts.opens) + [token]);
    MeansPrefix(env, parts.opens, s.open);
    if n == 0 {
      after := outer.(root := Some(source));
      assert CurrentScope(s.open[..n]) == None;
      assert outer.opens == [];
      assert SpellOpen([]) == [] by { SpellNothingOpen(); }
    } else {
      var rest := s.(open := s.open[..n]);
      assert Divides(env, outer, rest);
      var tree := TreeOfOpen(s.open[n]);
      ItemMeansBranch(env, source, rest.open[n - 1].scope, tree);
      after := ItemDivides(env, outer, rest, Sub(source), [Branch(tree)]);
      assert AddChildren(rest, [Branch(tree)]) == Step(env, s, token).value;
    }
  }

  lemma SpellNothingOpen()
    ensures SpellOpen([]) == []
  {
  }

  lemma ItemMeansBranch(env: Environment, source: Source, scope: Scope, tree: Tree)
    requires Meaning(env, source, Some(scope)) == Some(tree)
    ensures ItemMeaning(env, Sub(source), scope) == Some([Branch(tree)])
    ensures SpellItem(Sub(source)) == Spell(source)
  {
  }

  lemma {:induction false} SpellClosed(opens: seq<OpenSource>, last: OpenSource)
    requires opens != [] && last == opens[|opens| - 1] && last.start.StartTag?
    ensures SpellOpen(opens) + [EndTag(last.start.rawName)]
         == SpellOpen(opens[..|opens| - 1]) + Spell(Source(last.start, last.content))
  {
    assert SpellOpen(opens) == SpellOpen(opens[..|opens| - 1]) + ([last.start] + SpellItems(last.content));
    assert Spell(Source(last.start, last.content))
        == [last.start] + SpellItems(last.content) + [EndTag(last.start.rawName)];
  }

  lemma SingleMeans(env: Environment, token: Token, scope: Scope)
    requires Aside(token) || token.CharacterData?
    ensures ItemMeaning(env, Single(token), scope)
         == Some(if token.CharacterData? && token.data != "" then [Leaf(token.data)] else [])
    ensures SpellItem(Single(token)) == [token]
  {
  }

  /** Comments, instructions and text inside the innermost element. */
  lemma InsideDivides(env: Environment, parts: Parts, s: State, token: Token) returns (after: Parts)
    requires Divides(env, parts, s) && s.open != [] && !token.StartTag? && !token.EndTag? && Step(env, s, token).Ok?
    ensures Divides(env, after, Step(env, s, token).value) && after.Tokens() == parts.Tokens() + [token]
  {
    hide Divides;
    assert s.seenToken && !s.unsupported by { DividesInside(env, parts, s); }
    SingleMeans(env, token, s.open[|s.open| - 1].scope);
    var added := if token.CharacterData? && token.data != "" then [Leaf(token.data)] else [];
    after := ItemDivides(env, parts, s, Single(token), added);
    AddNoChildren(s);
    if added != [] {
      assert AddChildren(s, added) == s.(open := AddChild(s.open, Leaf(token.data)));
    }
  }

  lemma DividesInside(env: Environment, parts: Parts, s: State)
    requires Divides(env, parts, s) && s.open != []
    ensures s.seenToken && !s.unsupported && s.finished.None?
  {
  }

  /** Comments, instructions, declarations and white space around the root. */
  lemma OutsideDivides(env: Environment, parts: Parts, s: State, token: Token) returns (after: Parts)
    requires Divides(env, parts, s) && s.open == [] && !token.StartTag? && !token.EndTag? && !token.Doctype?
    requires Step(env, s, token).Ok?
    ensures Divides(env, after, Step(env, s, token).value) && after.Tokens() == parts.Tokens() + [token]
  {
    hide Divides, Step;
    if parts.root.Some? {
      after := parts.(epilog := parts.epilog + [token]);
      EpilogDivides(env, parts, s, token);
    } else {
      after := parts.(prolog := parts.prolog + [token]);
      PrologDivides(env, parts, s, token);
    }
  }

  lemma EpilogDivides(env: Environment, parts: Parts, s: State, token: Token)
    requires Divides(env, parts, s) && s.open == [] && !token.StartTag? && !token.EndTag? && !token.Doctype?
    requires Step(env, s, token).Ok? && parts.root.Some?
    ensures var after := parts.(epilog := parts.epilog + [token]);
      Divides(env, after, Step(env, s, token).value) && after.Tokens() == parts.Tokens() + [token]
  {
    hide Begun, Meaning, Spell, Prolog, Written, OnlyBOM;
    if token.CharacterData? {
      WrittenIs(token.data, token.raw);
    }
  }

  lemma PrologDivides(env: Environment, parts: Parts, s: State, token: Token)
    requires Divides(env, parts, s) && s.open == [] && !token.StartTag? && !token.EndTag? && !token.Doctype?
    requires Step(env, s, token).Ok? && parts.root.None?
    ensures var after := parts.(prolog := parts.prolog + [token]);
      Divides(env, after, Step(env, s, token).value) && after.Tokens() == parts.Tokens() + [token]
  {
    hide Begun, Meaning, Spell, Step, InProlog, OnlyBOM, Epilog;
    var after := parts.(prolog := parts.prolog + [token]);
    assert after.prolog[..|parts.prolog|] == parts.prolog;
    PrologStep(env, Begun(parts.prolog), token);
    BegunExtends(parts.prolog, token);
    assert s == INITIAL.(seenToken := Begun(parts.prolog));
    assert SpellOpen([]) == [];
  }

  lemma SupportedBefore(env: Environment, s: State, token: Token)
    requires Step(env, s, token).Ok? && !Step(env, s, token).value.unsupported
    ensures !s.unsupported && !token.Doctype?
  {
  }

  lemma {:induction false} RunDivides(env: Environment, tokens: seq<Token>) returns (parts: Parts)
    requires Run(env, INITIAL, tokens).Ok? && !Run(env, INITIAL, tokens).value.unsupported
    ensures Divides(env, parts, Run(env, INITIAL, tokens).value) && parts.Tokens() == tokens
  {
    hide Step;
    if tokens == [] {
      parts := Parts([], [], None, []);
      NothingBegun();
    } else {
      var before := tokens[..|tokens| - 1];
      var token := tokens[|tokens| - 1];
      var s := Run(env, INITIAL, before).value;
      SupportedBefore(env, s, token);
      parts := RunDivides(env, before);
      hide Divides;
      if token.StartTag? {
        parts := StartDivides(env, parts, s, token);
      } else if token.EndTag? {
        parts := EndDivides(env, parts, s, token);
      } else if s.open == [] {
        parts := OutsideDivides(env, parts, s, token);
      } else {
        parts := InsideDivides(env, parts, s, token);
      }
      assert tokens == before + [token];
    }
  }

  lemma DecodedIsGrammar(env: Environment, tokens: seq<Token>, tree: Tree)
    returns (prolog: seq<Token>, root: Source, epilog: seq<Token>)
    requires Decoded(env, tokens) == Ok(tree)
    ensures IsDocument(env, tokens, prolog, root, epilog, tree)
  {
    hide Run, Prolog, Epilog, Spell, Meaning, Begun, Means;
    var parts := RunDivides(env, tokens);
    MeansLength(env, parts.opens, Run(env, INITIAL, tokens).value.open);
    assert SpellOpen([]) == [] by { SpellNothingOpen(); }
    prolog, root, epilog := parts.prolog, parts.root.value, parts.epilog;
  }

  /** The decoder accepts exactly the documents of the grammar, with exactly their trees. */
  lemma DecodedExactlyGrammar(env: Environment, tokens: seq<Token>, tree: Tree)
    ensures Decoded(env, tokens) == Ok(tree)
      <==> exists prolog, root, epilog :: IsDocument(env, tokens, prolog, root, epilog, tree)
  {
    hide Decoded, IsDocument;
    if Decoded(env, tokens) == Ok(tree) {
      var prolog, root, epilog := DecodedIsGrammar(env, tokens, tree);
    }
    forall prolog, root, epilog | IsDocument(env, tokens, prolog, root, epilog, tree)
      ensures Decoded(env, tokens) == Ok(tree)
    {
      GrammarIsDecoded(env, tokens, prolog, root, epilog, tree);
    }
  }

  /** The tree walked in order is the tags and text of the tokens, in their order. */
  lemma WalkIsTokenSequence(env: Environment, tokens: seq<Token>)
    requires Decoded(env, tokens).Ok?
    ensures Walk(Decoded(env, tokens).value) == Read(env, tokens).events && Read(env, tokens).scopes == []
  {
    RunReads(env, tokens);
  }
}
