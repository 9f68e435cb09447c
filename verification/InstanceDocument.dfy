/** What an instance document is: token by token, as a grammar, and as a sequence of events (instance.go). */
module InstanceDocument {
  import opened Wrappers
  import Lexical

  datatype Name = Name(namespace: string, local: string)

  datatype Attribute = Attribute(name: Name, value: string)

  /** Namespace bindings in force, by prefix. */
  type Scope = map<string, string>

  /** Tokens of the XML tokenizer, with the verdicts of the lexical checks on their raw text. */
  datatype Token =
    | StartTag(rawName: string, attributes: string, wellFormed: bool, references: bool)
    | EndTag(rawName: string)
    | CharacterData(data: string, raw: string, references: bool)
    | Comment(wellFormed: bool)
    | Instruction(wellFormed: bool)
    | Declaration(wellFormed: bool, lowercase: bool, acceptable: bool)
    | Doctype(wellFormed: bool, suppliesNamespaces: bool)
    | OtherDirective

  /** Namespace processing; the boolean is whether unbound prefixes are allowed. */
  datatype Environment = Environment(
    childScope: (Option<Scope>, string) -> Option<Scope>,
    resolve: (string, Scope, bool) -> Option<Name>,
    attributes: (string, Scope, bool) -> Option<seq<Attribute>>)

  datatype Problem = MoreThanOneRoot | MalformedTag | BadReference | BadScope | UnresolvedName | BadAttributes
    | UnexpectedEnd | Mismatch | DataBeforeRoot | DataAfterRoot | MalformedComment | MalformedInstruction
    | DeclarationNotFirst | BadDeclaration | LateDoctype | RepeatedDoctype | BadDoctype | BadDirective
    | Unclosed | NoRoot | UnsupportedDoctype

  datatype Event = Start(name: Name, attributes: seq<Attribute>) | End(name: Name) | Chars(data: string)

  // ----- trees and their event sequences

  datatype Tree = Tree(name: Name, attributes: seq<Attribute>, children: seq<TreeNode>)

  datatype TreeNode = Branch(tree: Tree) | Leaf(data: string)

  /** The in-order walk of a tree. */
  function Walk(tree: Tree): seq<Event> {
    [Start(tree.name, tree.attributes)] + WalkNodes(tree.children) + [End(tree.name)]
  }

  function WalkNodes(nodes: seq<TreeNode>): seq<Event> {
    if nodes == [] then [] else WalkNodes(nodes[..|nodes| - 1]) + WalkNode(nodes[|nodes| - 1])
  }

  function WalkNode(node: TreeNode): seq<Event> {
    match node
    case Branch(tree) => Walk(tree)
    case Leaf(data) => [Chars(data)]
  }

  /** An element still open, with its finished children. */
  datatype OpenElement = OpenElement(
    name: Name, attributes: seq<Attribute>, rawName: string, scope: Scope, children: seq<TreeNode>)

  function WalkOpen(open: seq<OpenElement>): seq<Event> {
    if open == [] then []
    else
      var last := open[|open| - 1];
      WalkOpen(open[..|open| - 1]) + ([Start(last.name, last.attributes)] + WalkNodes(last.children))
  }

  function AddChild(open: seq<OpenElement>, child: TreeNode): seq<OpenElement>
    requires open != []
  {
    var last := open[|open| - 1];
    open[..|open| - 1] + [last.(children := last.children + [child])]
  }

  lemma WalkAppend(nodes: seq<TreeNode>, last: TreeNode)
    ensures WalkNodes(nodes + [last]) == WalkNodes(nodes) + WalkNode(last)
  {
    assert (nodes + [last])[..|nodes|] == nodes;
  }

  lemma WalkText(data: string)
    ensures WalkNode(Leaf(data)) == [Chars(data)]
  {
  }

  lemma WalkAddChild(open: seq<OpenElement>, child: TreeNode)
    requires open != []
    ensures WalkOpen(AddChild(open, child)) == WalkOpen(open) + WalkNode(child)
  {
    hide WalkNodes, WalkNode;
    var last := open[|open| - 1];
    var added := AddChild(open, child);
    assert added[..|open| - 1] == open[..|open| - 1];
    WalkAppend(last.children, child);
  }

  lemma WalkPush(open: seq<OpenElement>, element: OpenElement)
    requires element.children == []
    ensures WalkOpen(open + [element]) == WalkOpen(open) + [Start(element.name, element.attributes)]
  {
    assert (open + [element])[..|open|] == open;
  }

  function TreeOfOpen(open: OpenElement): Tree {
    Tree(open.name, open.attributes, open.children)
  }

  /** Closing the innermost element adds its end and makes it a finished child. */
  lemma WalkPop(open: seq<OpenElement>)
    requires open != []
    ensures var last := open[|open| - 1];
      var rest := open[..|open| - 1];
      var tree := TreeOfOpen(last);
      WalkOpen(open) + [End(last.name)] == if rest == [] then Walk(tree) else WalkOpen(AddChild(rest, Branch(tree)))
  {
    var last := open[|open| - 1];
    var rest := open[..|open| - 1];
    var tree := TreeOfOpen(last);
    if rest != [] {
      WalkAddChild(rest, Branch(tree));
    }
    hide WalkNodes;
    assert WalkOpen(rest) + ([Start(last.name, last.attributes)] + WalkNodes(last.children)) + [End(last.name)]
        == WalkOpen(rest) + Walk(tree);
  }

  // ----- one token at a time

  datatype State = State(
    open: seq<OpenElement>, finished: Option<Tree>, seenToken: bool, unsupported: bool, unbound: bool)
  {
    predicate RootSeen() {
      open != [] || finished.Some?
    }

    /** The elements and text of the document so far. */
    function Events(): seq<Event> {
      if finished.Some? then Walk(finished.value) else WalkOpen(open)
    }
  }

  const INITIAL := State([], None, false, false, false)

  function CurrentScope(open: seq<OpenElement>): Option<Scope> {
    if open == [] then None else Some(open[|open| - 1].scope)
  }

  const BOM: char := '\U{FEFF}'

  predicate HasBOM(data: string) {
    data != "" && data[0] == BOM
  }

  function TrimBOM(data: string): string {
    if HasBOM(data) then data[1..] else data
  }

  predicate OnlyWhitespace(data: string) {
    forall c <- data :: Lexical.IsXMLWhitespace(c)
  }

  /** Whitespace that is written out, not spelled by references. */
  predicate LiteralWhitespace(data: string, raw: string) {
    OnlyWhitespace(data) && raw != "" && OnlyWhitespace(raw)
  }

  function StepStart(env: Environment, s: State, token: Token): Result<State, Problem>
    requires token.StartTag?
  {
    if s.finished.Some? then Err(MoreThanOneRoot)
    else if !token.wellFormed then Err(MalformedTag)
    else if s.unsupported && !token.references then Err(BadReference)
    else
      var scope := env.childScope(CurrentScope(s.open), token.attributes);
      if scope.None? then Err(BadScope)
      else
        var name := env.resolve(token.rawName, scope.value, s.unbound);
        if name.None? then Err(UnresolvedName)
        else
          var attributes := env.attributes(token.attributes, scope.value, s.unbound);
          if attributes.None? then Err(BadAttributes)
          else
            var element := OpenElement(name.value, attributes.value, token.rawName, scope.value, []);
            Ok(s.(open := s.open + [element], seenToken := true))
  }

  /** The innermost element becomes a child of the one around it, or the root. */
  function CloseInnermost(s: State): State
    requires s.open != []
  {
    var tree := TreeOfOpen(s.open[|s.open| - 1]);
    var rest := s.open[..|s.open| - 1];
    if rest == [] then s.(open := [], finished := Some(tree)) else s.(open := AddChild(rest, Branch(tree)))
  }

  function StepEnd(env: Environment, s: State, token: Token): Result<State, Problem>
    requires token.EndTag?
  {
    if s.open == [] then Err(UnexpectedEnd)
    else
      var last := s.open[|s.open| - 1];
      if token.rawName != last.rawName then Err(Mismatch)
      else
        var name := env.resolve(token.rawName, last.scope, s.unbound);
        if name.None? then Err(UnresolvedName)
        else if name.value != last.name then Err(Mismatch)
        else Ok(CloseInnermost(s))
  }

  function StepOutside(s: State, token: Token): Result<State, Problem>
    requires token.CharacterData?
  {
    var first := !s.RootSeen() && !s.seenToken && HasBOM(token.data);
    var data := if first then TrimBOM(token.data) else token.data;
    var raw := if first then TrimBOM(token.raw) else token.raw;
    if first && data == "" then Ok(s)
    else if LiteralWhitespace(data, raw) then Ok(s.(seenToken := true))
    else Err(if s.finished.Some? then DataAfterRoot else DataBeforeRoot)
  }

  function StepData(s: State, token: Token): Result<State, Problem>
    requires token.CharacterData?
  {
    if s.unsupported && !token.references then Err(BadReference)
    else if s.open == [] then StepOutside(s, token)
    else if token.data == "" then Ok(s)
    else Ok(s.(open := AddChild(s.open, Leaf(token.data)), seenToken := true))
  }

  function StepDoctype(s: State, token: Token): Result<State, Problem>
    requires token.Doctype?
  {
    if s.RootSeen() then Err(LateDoctype)
    else if s.unsupported then Err(RepeatedDoctype)
    else if !token.wellFormed then Err(BadDoctype)
    else Ok(s.(unsupported := true, unbound := token.suppliesNamespaces, seenToken := true))
  }

  function Step(env: Environment, s: State, token: Token): Result<State, Problem> {
    match token
    case StartTag(_, _, _, _) => StepStart(env, s, token)
    case EndTag(_) => StepEnd(env, s, token)
    case CharacterData(_, _, _) => StepData(s, token)
    case Comment(wellFormed) => if wellFormed then Ok(s.(seenToken := true)) else Err(MalformedComment)
    case Instruction(wellFormed) => if wellFormed then Ok(s.(seenToken := true)) else Err(MalformedInstruction)
    case Declaration(wellFormed, lowercase, acceptable) =>
      if !wellFormed then Err(MalformedInstruction)
      else if !lowercase || s.seenToken then Err(DeclarationNotFirst)
      else if !acceptable then Err(BadDeclaration)
      else Ok(s.(seenToken := true))
    case Doctype(_, _) => StepDoctype(s, token)
    case OtherDirective => Err(BadDirective)
  }

  /** All tokens in order, up to the first problem. */
  function Run(env: Environment, s: State, tokens: seq<Token>): Result<State, Problem> {
    if tokens == [] then Ok(s)
    else
      var before := Run(env, s, tokens[..|tokens| - 1]);
      if before.Err? then before else Step(env, before.value, tokens[|tokens| - 1])
  }

  function AtEOF(s: State): Result<Tree, Problem> {
    if s.open != [] then Err(Unclosed)
    else if s.finished.None? then Err(NoRoot)
    else if s.unsupported then Err(UnsupportedDoctype)
    else Ok(s.finished.value)
  }

  function Decoded(env: Environment, tokens: seq<Token>): Result<Tree, Problem> {
    var end := Run(env, INITIAL, tokens);
    if end.Err? then Err(end.error) else AtEOF(end.value)
  }

  lemma {:induction false} RunConcat(env: Environment, s: State, first: seq<Token>, second: seq<Token>)
    ensures var middle := Run(env, s, first);
      Run(env, s, first + second) == if middle.Err? then middle else Run(env, middle.value, second)
    decreases |second|
  {
    hide Step;
    if second == [] {
      assert first + second == first;
    } else {
      var rest := second[..|second| - 1];
      RunConcat(env, s, first, rest);
      assert (first + second)[..|first + second| - 1] == first + rest;
    }
  }

  lemma RunOne(env: Environment, s: State, token: Token)
    ensures Run(env, s, [token]) == Step(env, s, token)
  {
    hide Step;
    assert [token][..0] == [];
    assert Run(env, s, []) == Ok(s);
  }

  // ----- the events are those of the tokens

  /** The events of a token list and the scopes of its open elements, read from tags alone. */
  datatype Reading = Reading(events: seq<Event>, scopes: seq<Scope>, unbound: bool)

  const NO_NAME := Name("", "")

  function GetOr<T>(option: Option<T>, default: T): T {
    if option.Some? then option.value else default
  }

  /** Each start tag under its new scope, each end tag under the innermost scope, each piece of text in an element. */
  function ReadStep(env: Environment, r: Reading, token: Token): Reading {
    var depth := |r.scopes|;
    match token
    case StartTag(rawName, attributes, _, _) =>
      var scope := GetOr(env.childScope(if depth == 0 then None else Some(r.scopes[depth - 1]), attributes), map[]);
      var name := GetOr(env.resolve(rawName, scope, r.unbound), NO_NAME);
      r.(events := r.events + [Start(name, GetOr(env.attributes(attributes, scope, r.unbound), []))],
         scopes := r.scopes + [scope])
    case EndTag(rawName) =>
      if depth == 0 then r
      else
        var name := GetOr(env.resolve(rawName, r.scopes[depth - 1], r.unbound), NO_NAME);
        r.(events := r.events + [End(name)], scopes := r.scopes[..depth - 1])
    case CharacterData(data, _, _) =>
      if depth == 0 || data == "" then r else r.(events := r.events + [Chars(data)])
    case Doctype(_, suppliesNamespaces) => r.(unbound := suppliesNamespaces)
    case _ => r
  }

  function Read(env: Environment, tokens: seq<Token>): Reading {
    if tokens == [] then Reading([], [], false)
    else ReadStep(env, Read(env, tokens[..|tokens| - 1]), tokens[|tokens| - 1])
  }

  function Scopes(open: seq<OpenElement>): seq<Scope> {
    seq(|open|, i requires 0 <= i < |open| => open[i].scope)
  }

  ghost predicate Reads(r: Reading, s: State) {
    && r.events == s.Events() && r.scopes == Scopes(s.open) && r.unbound == s.unbound
    && (s.finished.Some? ==> s.open == [])
  }

  lemma AddChildKeepsScopes(open: seq<OpenElement>, child: TreeNode)
    requires open != []
    ensures Scopes(AddChild(open, child)) == Scopes(open)
  {
  }

  lemma StartReads(env: Environment, r: Reading, s: State, token: Token)
    requires Reads(r, s) && token.StartTag? && Step(env, s, token).Ok?
    ensures Reads(ReadStep(env, r, token), Step(env, s, token).value)
  {
    hide Walk, WalkOpen;
    var t := Step(env, s, token).value;
    WalkPush(s.open, t.open[|s.open|]);
    assert Scopes(t.open) == Scopes(s.open) + [t.open[|s.open|].scope];
  }

  lemma EndReads(env: Environment, r: Reading, s: State, token: Token)
    requires Reads(r, s) && token.EndTag? && Step(env, s, token).Ok?
    ensures Reads(ReadStep(env, r, token), Step(env, s, token).value)
  {
    hide Walk, WalkOpen, AddChild;
    var rest := s.open[..|s.open| - 1];
    WalkPop(s.open);
    if rest != [] {
      AddChildKeepsScopes(rest, Branch(TreeOfOpen(s.open[|s.open| - 1])));
    }
    assert Scopes(rest) == Scopes(s.open)[..|s.open| - 1];
  }

  lemma DataReads(env: Environment, r: Reading, s: State, token: Token)
    requires Reads(r, s) && token.CharacterData? && Step(env, s, token).Ok?
    ensures Reads(ReadStep(env, r, token), Step(env, s, token).value)
  {
    hide Walk, WalkOpen, WalkNode, AddChild;
    if s.open != [] && token.data != "" {
      WalkAddChild(s.open, Leaf(token.data));
      WalkText(token.data);
      AddChildKeepsScopes(s.open, Leaf(token.data));
    }
  }

  lemma OtherReads(env: Environment, r: Reading, s: State, token: Token)
    requires Reads(r, s) && !token.StartTag? && !token.EndTag? && !token.CharacterData? && Step(env, s, token).Ok?
    ensures Reads(ReadStep(env, r, token), Step(env, s, token).value)
  {
  }

  /** Whatever is accepted, the document holds exactly the tags and text read, in their order. */
  lemma {:induction false} RunReads(env: Environment, tokens: seq<Token>)
    requires Run(env, INITIAL, tokens).Ok?
    ensures Reads(Read(env, tokens), Run(env, INITIAL, tokens).value)
  {
    hide Step, ReadStep;
    if tokens == [] {
      assert Scopes([]) == [];
    } else {
      hide Reads;
      var before := tokens[..|tokens| - 1];
      var token := tokens[|tokens| - 1];
      RunReads(env, before);
      var r, s := Read(env, before), Run(env, INITIAL, before).value;
      if token.StartTag? {
        StartReads(env, r, s, token);
      } else if token.EndTag? {
        EndReads(env, r, s, token);
      } else if token.CharacterData? {
        DataReads(env, r, s, token);
      } else {
        OtherReads(env, r, s, token);
      }
    }
  }
}
