/** The element-stack decoder of XML instances, building its tree on the heap or streaming it (instance.go). */
module InstanceDecoder {
  import opened Wrappers
  import opened InstanceDocument

  /** The consumer of streamed events: whether it wants the tree kept, and whether the last of its calls failed. */
  datatype Observer = Observer(retains: Event -> bool, fails: seq<Event> -> bool)

  datatype Node = Child(element: Element) | Text(data: string)

  datatype Document = Retained(root: Element) | Streamed

  datatype Failure = Failure(problem: Option<Problem>, semantic: bool)

  class Element {
    const name: Name
    const attributes: seq<Attribute>
    var children: seq<Node>

    constructor (name: Name, attributes: seq<Attribute>)
      ensures this.name == name && this.attributes == attributes && children == []
    {
      this.name, this.attributes, children := name, attributes, [];
    }
  }

  datatype Frame = Frame(element: Element?, name: Name, rawName: string, scope: Scope)

  /** The frames carry the names and scopes of the open elements. */
  predicate Match(stack: seq<Frame>, open: seq<OpenElement>) {
    && |stack| == |open|
    && forall i :: 0 <= i < |stack| ==>
         stack[i].name == open[i].name && stack[i].rawName == open[i].rawName && stack[i].scope == open[i].scope
  }

  lemma MatchTop(stack: seq<Frame>, open: seq<OpenElement>)
    requires Match(stack, open)
    ensures |stack| == |open|
    ensures stack != [] ==>
      var frame := stack[|stack| - 1];
      var last := open[|open| - 1];
      frame.name == last.name && frame.rawName == last.rawName && frame.scope == last.scope
  {
  }

  lemma MatchPush(stack: seq<Frame>, open: seq<OpenElement>, after: seq<Frame>, element: OpenElement)
    requires Match(stack, open) && |after| == |stack| + 1 && after[..|stack|] == stack
    requires var top := after[|stack|];
      top.name == element.name && top.rawName == element.rawName && top.scope == element.scope
    ensures Match(after, open + [element])
  {
  }

  lemma MatchAddChild(stack: seq<Frame>, open: seq<OpenElement>, child: TreeNode)
    requires Match(stack, open) && open != []
    ensures Match(stack, AddChild(open, child))
  {
  }

  lemma MatchPop(stack: seq<Frame>, s: State)
    requires Match(stack, s.open) && s.open != []
    ensures Match(stack[..|stack| - 1], CloseInnermost(s).open)
  {
  }

  // ----- what elements on the heap stand for

  /** The trees that closed elements stand for. */
  type Values = map<Element, Tree>

  ghost predicate NodeStands(node: Node, value: TreeNode, values: Values) {
    match node
    case Text(data) => value == Leaf(data)
    case Child(element) => element in values && value == Branch(values[element])
  }

  ghost predicate Stand(nodes: seq<Node>, trees: seq<TreeNode>, values: Values) {
    |nodes| == |trees| && forall i :: 0 <= i < |nodes| ==> NodeStands(nodes[i], trees[i], values)
  }

  /** A closed element stands for its name and attributes over what its closed children stand for. */
  ghost predicate StandsFor(e: Element, tree: Tree, values: Values)
    reads e`children
  {
    tree.name == e.name && tree.attributes == e.attributes && Stand(e.children, tree.children, values)
  }

  /** Closing one more element leaves what stood before standing. */
  lemma StandGrows(nodes: seq<Node>, trees: seq<TreeNode>, values: Values, element: Element, tree: Tree)
    requires Stand(nodes, trees, values) && element !in values
    ensures Stand(nodes, trees, values[element := tree])
  {
    forall i | 0 <= i < |nodes|
      ensures NodeStands(nodes[i], trees[i], values[element := tree])
    {
      assert NodeStands(nodes[i], trees[i], values);
    }
  }

  /** The element and everything below it spell the tree, using elements of the set only. */
  ghost predicate Shows(e: Element, tree: Tree, elements: set<Element>)
    reads elements
    decreases tree
  {
    && e in elements && e.name == tree.name && e.attributes == tree.attributes
    && |e.children| == |tree.children|
    && forall i :: 0 <= i < |e.children| ==>
         match tree.children[i]
         case Leaf(data) => e.children[i] == Text(data)
         case Branch(child) => e.children[i].Child? && Shows(e.children[i].element, child, elements)
  }

  lemma {:induction false} ClosedShows(e: Element, values: Values)
    requires e in values && forall x <- values :: StandsFor(x, values[x], values)
    ensures Shows(e, values[e], values.Keys)
    decreases values[e]
  {
    assert StandsFor(e, values[e], values);
    forall i | 0 <= i < |e.children|
      ensures match values[e].children[i]
              case Leaf(data) => e.children[i] == Text(data)
              case Branch(child) => e.children[i].Child? && Shows(e.children[i].element, child, values.Keys)
    {
      assert NodeStands(e.children[i], values[e].children[i], values);
      if e.children[i].Child? {
        ClosedShows(e.children[i].element, values);
      }
    }
  }

  /** Children standing for the trees, and after them the element still open among them, if any. */
  ghost predicate Holds(nodes: seq<Node>, next: Element?, trees: seq<TreeNode>, values: Values) {
    if next == null then Stand(nodes, trees, values)
    else
      && nodes != [] && nodes[|nodes| - 1] == Child(next)
      && Stand(nodes[..|nodes| - 1], trees, values)
  }

  /** Closing the open element among the children makes it one more child that stands. */
  lemma HoldsClosed(nodes: seq<Node>, next: Element, trees: seq<TreeNode>, values: Values, element: Element, tree: Tree)
    requires Holds(nodes, next, trees, values) && element !in values
    ensures Holds(nodes, next, trees, values[element := tree])
    ensures next == element ==> Holds(nodes, null, trees + [Branch(tree)], values[element := tree])
  {
    var done := nodes[..|nodes| - 1];
    StandGrows(done, trees, values, element, tree);
    assert nodes == done + [Child(next)];
  }

  lemma HoldsAll(e: Element, tree: Tree, values: Values)
    requires Holds(e.children, null, tree.children, values) && tree.name == e.name && tree.attributes == e.attributes
    ensures StandsFor(e, tree, values)
  {
  }

  lemma StandsForGrows(e: Element, own: Tree, values: Values, element: Element, tree: Tree)
    requires StandsFor(e, own, values) && element !in values
    ensures StandsFor(e, own, values[element := tree])
  {
    StandGrows(e.children, own.children, values, element, tree);
  }

  // ----- what an observer hears

  /** An observer hears everything, or only the first start when it asks for the tree. */
  function Heard(observer: Option<Observer>, events: seq<Event>): seq<Event> {
    if observer.None? || events == [] then []
    else if observer.value.retains(events[0]) then events[..1]
    else events
  }

  ghost predicate Failed(observer: Option<Observer>, heard: seq<Event>) {
    observer.Some? && exists k :: 0 < k <= |heard| && observer.value.fails(heard[..k])
  }

  lemma HeardExtends(observer: Option<Observer>, events: seq<Event>, event: Event)
    ensures (events + [event])[0] == if events == [] then event else events[0]
    ensures Heard(observer, events + [event])
         == if observer.None? || (events != [] && observer.value.retains(events[0])) then Heard(observer, events)
            else Heard(observer, events) + [event]
  {
    if events == [] {
      assert (events + [event])[..1] == [event];
    } else {
      assert (events + [event])[..1] == events[..1];
    }
  }

  lemma HeardNothing(observer: Option<Observer>)
    ensures Heard(observer, []) == []
  {
  }

  lemma FailedExtends(observer: Observer, heard: seq<Event>, event: Event)
    ensures Failed(Some(observer), heard + [event]) <==>
      Failed(Some(observer), heard) || observer.fails(heard + [event])
  {
    var all := heard + [event];
    assert all[..|all|] == all;
    forall k | 0 < k <= |heard|
      ensures all[..k] == heard[..k]
    {
    }
    if Failed(Some(observer), heard) {
      var k :| 0 < k <= |heard| && observer.fails(heard[..k]);
      assert observer.fails(all[..k]);
    }
  }

  // ----- how one token adds to the events

  lemma EventsBegin(s: State)
    ensures s.RootSeen() <==> s.Events() != []
  {
  }

  lemma StartEvents(s: State, element: OpenElement)
    requires s.finished.None? && element.children == []
    ensures s.(open := s.open + [element]).Events() == s.Events() + [Start(element.name, element.attributes)]
  {
    WalkPush(s.open, element);
  }

  lemma EndEvents(s: State)
    requires s.open != [] && s.finished.None?
    ensures CloseInnermost(s).Events() == s.Events() + [End(s.open[|s.open| - 1].name)]
  {
    WalkPop(s.open);
  }

  lemma DataEvents(s: State, data: string)
    requires s.open != [] && s.finished.None?
    ensures s.(open := AddChild(s.open, Leaf(data))).Events() == s.Events() + [Chars(data)]
  {
    WalkAddChild(s.open, Leaf(data));
    WalkText(data);
  }

  lemma SeenTokenKeepsEvents(s: State, seen: bool)
    ensures s.(seenToken := seen).Events() == s.Events()
  {
  }

  lemma Closing(s: State)
    requires s.open != [] && s.finished.None?
    ensures var t := CloseInnermost(s);
      var rest := s.open[..|s.open| - 1];
      var tree := TreeOfOpen(s.open[|s.open| - 1]);
      && t == s.(open := t.open, finished := t.finished)
      && t.RootSeen()
      && if rest == [] then t.open == [] && t.finished == Some(tree)
         else t.open == AddChild(rest, Branch(tree)) && t.open != [] && t.finished == None
  {
  }

  class Decoder {
    const env: Environment
    const observer: Option<Observer>
    var root: Element?
    var stack: seq<Frame>
    var rootSeen: bool
    var rootClosed: bool
    var seenToken: bool
    var unsupported: bool
    var semantic: bool
    var observerChosen: bool
    var streaming: bool
    var allowUnbound: bool
    /** The calls made to the observer. */
    var observed: seq<Event>
    ghost var state: State
    /** The elements made so far, and the trees of the closed ones. */
    ghost var elements: set<Element>
    ghost var values: Values

    ghost predicate Agrees()
      reads this
    {
      && Match(stack, state.open)
      && rootSeen == state.RootSeen() && rootClosed == state.finished.Some?
      && (rootClosed ==> stack == [])
      && seenToken == state.seenToken && unsupported == state.unsupported && allowUnbound == state.unbound
    }

    /** The observer has heard what it should of these events. */
    ghost predicate Hearing(events: seq<Event>)
      reads this`observed, this`observerChosen, this`streaming, this`semantic
    {
      && observed == Heard(observer, events)
      && observerChosen == (observer.Some? && events != [])
      && streaming == (observerChosen && !observer.value.retains(events[0]))
      && semantic == Failed(observer, observed)
    }

    /** Open element `i` holds the finished children of its value, then the next open element. */
    ghost predicate OpenStands(i: nat, open: seq<OpenElement>)
      requires i < |stack| == |open|
      reads this`stack, this`values, this`elements, elements`children
    {
      && stack[i].element in elements && stack[i].element !in values
      && stack[i].element.name == open[i].name && stack[i].element.attributes == open[i].attributes
      && Holds(stack[i].element.children, NextOpen(i), open[i].children, values)
    }

    ghost function NextOpen(i: nat): Element?
      reads this`stack
    {
      if i + 1 < |stack| then stack[i + 1].element else null
    }

    /** While the tree is kept: open and closed elements on the heap stand for those of the state. */
    ghost predicate Retaining(open: seq<OpenElement>, finished: Option<Tree>)
      reads this`stack, this`values, this`root, this`elements, elements`children
    {
      && |stack| == |open| && values.Keys <= elements
      && (forall i :: 0 <= i < |stack| ==> OpenStands(i, open))
      && (forall i, j :: 0 <= i < j < |stack| ==> stack[i].element != stack[j].element)
      && (forall e <- values :: StandsFor(e, values[e], values))
      && (finished.None? ==> (root == null <==> stack == []) && (stack != [] ==> root == stack[0].element))
      && (finished.Some? ==> stack == [] && root != null && root in values && values[root] == finished.value)
    }

    ghost predicate Valid()
      reads this, elements`children
    {
      Agrees() && Hearing(state.Events()) && (!streaming ==> Retaining(state.open, state.finished))
    }

    constructor (env: Environment, observer: Option<Observer>)
      ensures this.env == env && this.observer == observer
      ensures Valid() && state == INITIAL && elements == {}
    {
      this.env, this.observer := env, observer;
      root, stack, rootSeen, rootClosed, seenToken := null, [], false, false, false;
      unsupported, semantic, observerChosen, streaming, allowUnbound := false, false, false, false, false;
      observed, state, values, elements := [], INITIAL, map[], {};
    }

    /** Makes a retained element below the innermost open one, or as the root, and opens it. */
    method PushRetained(name: Name, attributes: seq<Attribute>, rawName: string, scope: Scope,
                        ghost open: seq<OpenElement>)
      requires Retaining(open, None)
      modifies this`stack, this`root, this`elements, elements`children
      ensures Retaining(open + [OpenElement(name, attributes, rawName, scope, [])], None)
      ensures |stack| == |old(stack)| + 1 && stack[..|old(stack)|] == old(stack)
      ensures var top := stack[|old(stack)|];
        top.name == name && top.rawName == rawName && top.scope == scope
      ensures fresh(elements - old(elements))
    {
      ghost var n := |stack|;
      ghost var after := open + [OpenElement(name, attributes, rawName, scope, [])];
      assert n > 0 ==> OpenStands(n - 1, open);
      var element := new Element(name, attributes);
      elements := elements + {element};
      if root == null {
        root := element;
      }
      if root != element {
        var parent := stack[|stack| - 1].element;
        parent.children := parent.children + [Child(element)];
      }
      stack := stack + [Frame(element, name, rawName, scope)];
      forall e <- values
        ensures StandsFor(e, values[e], values)
      {
        assert old(StandsFor(e, values[e], values));
      }
      forall i | 0 <= i < |stack|
        ensures OpenStands(i, after)
      {
        if i < n {
          assert old(OpenStands(i, open));
        }
      }
    }

    method AddRetainedText(data: string, ghost open: seq<OpenElement>)
      requires Retaining(open, None) && stack != []
      modifies elements`children
      ensures Retaining(AddChild(open, Leaf(data)), None)
    {
      ghost var after := AddChild(open, Leaf(data));
      assert OpenStands(|stack| - 1, open);
      var element := stack[|stack| - 1].element;
      element.children := element.children + [Text(data)];
      forall e <- values
        ensures StandsFor(e, values[e], values)
      {
        assert old(StandsFor(e, values[e], values));
      }
      forall i | 0 <= i < |stack|
        ensures OpenStands(i, after)
      {
        assert old(OpenStands(i, open));
      }
    }

    method PopRetained(ghost open: seq<OpenElement>)
      requires Retaining(open, None) && stack != []
      modifies this`stack, this`values
      ensures stack == old(stack)[..|old(stack)| - 1]
      ensures var tree := TreeOfOpen(open[|open| - 1]);
        var rest := open[..|open| - 1];
        if rest == [] then Retaining([], Some(tree)) else Retaining(AddChild(rest, Branch(tree)), None)
    {
      hide Holds, Stand, StandsFor;
      ghost var n := |stack| - 1;
      ghost var element := stack[n].element;
      ghost var before := values;
      ghost var tree := TreeOfOpen(open[n]);
      ghost var rest := open[..n];
      ghost var after := if rest == [] then [] else AddChild(rest, Branch(tree));
      assert OpenStands(n, open);
      values := values[element := tree];
      stack := stack[..|stack| - 1];
      HoldsAll(element, tree, before);
      StandsForGrows(element, tree, before, element, tree);
      forall e <- values
        ensures StandsFor(e, values[e], values)
      {
        if e != element {
          assert StandsFor(e, before[e], before);
          StandsForGrows(e, before[e], before, element, tree);
        }
      }
      forall i | 0 <= i < |stack|
        ensures OpenStands(i, after)
      {
        assert old(OpenStands(i, open) && OpenStands(i + 1, open));
        HoldsClosed(stack[i].element.children, old(stack)[i + 1].element, open[i].children, before, element, tree);
      }
    }

    /** Calls the observer and records its failure; it counts as chosen from its first call on. */
    method Notify(event: Event)
      requires observer.Some?
      requires semantic == Failed(observer, observed)
      modifies this`observed, this`semantic
      ensures observed == old(observed) + [event]
      ensures semantic == Failed(observer, observed)
    {
      FailedExtends(observer.value, observed, event);
      observed := observed + [event];
      semantic := semantic || observer.value.fails(observed);
    }

    method ObserveStartElement(event: Event, ghost events: seq<Event>)
      requires Hearing(events)
      modifies this`observed, this`semantic, this`observerChosen, this`streaming
      ensures Hearing(events + [event]) && (old(streaming) ==> streaming)
    {
      hide Failed, Heard;
      HeardExtends(observer, events, event);
      HeardNothing(observer);
      if observer.None? {
        return;
      }
      if observerChosen {
        if streaming {
          Notify(event);
        }
        return;
      }
      Notify(event);
      observerChosen := true;
      streaming := !observer.value.retains(event);
    }

    /** Ends and text are told only while streaming. */
    method ObserveInside(event: Event, ghost events: seq<Event>)
      requires Hearing(events) && events != []
      modifies this`observed, this`semantic
      ensures Hearing(events + [event])
    {
      hide Failed, Heard;
      HeardExtends(observer, events, event);
      if streaming {
        Notify(event);
      }
    }

    method Place(name: Name, attributes: seq<Attribute>, rawName: string, scope: Scope, ghost open: seq<OpenElement>)
      requires Match(stack, open) && (!streaming ==> Retaining(open, None))
      modifies this`stack, this`root, this`elements, elements`children
      ensures var after := open + [OpenElement(name, attributes, rawName, scope, [])];
        Match(stack, after) && (!streaming ==> Retaining(after, None))
      ensures stack != [] && fresh(elements - old(elements))
    {
      hide Retaining, Match;
      if streaming {
        stack := stack + [Frame(null, name, rawName, scope)];
      } else {
        PushRetained(name, attributes, rawName, scope, open);
      }
      MatchPush(old(stack), open, stack, OpenElement(name, attributes, rawName, scope, []));
    }

    /** Tells the observer, then opens the element on the stack and, unless streaming, in the tree. */
    method Enter(name: Name, attributes: seq<Attribute>, rawName: string, scope: Scope)
      requires Valid() && !rootClosed
      modifies this, elements`children
      ensures Valid()
      ensures state == old(state).(
        open := old(state).open + [OpenElement(name, attributes, rawName, scope, [])], seenToken := true)
      ensures fresh(elements - old(elements))
    {
      hide Retaining, Hearing, Match, Walk, WalkOpen, WalkNodes;
      rootSeen := true;
      ghost var element := OpenElement(name, attributes, rawName, scope, []);
      StartEvents(state, element);
      ObserveStartElement(Start(name, attributes), state.Events());
      Place(name, attributes, rawName, scope, state.open);
      seenToken := true;
      state := state.(open := state.open + [element], seenToken := true);
      SeenTokenKeepsEvents(old(state).(open := old(state).open + [element]), true);
    }

    method StartElement(token: Token) returns (verdict: Outcome<Problem>)
      requires token.StartTag? && Valid()
      modifies this, elements`children
      ensures Valid() && Follows(old(state), token, verdict)
      ensures fresh(elements - old(elements))
    {
      hide Hearing, Retaining;
      if rootClosed {
        return Fail(MoreThanOneRoot);
      }
      if !token.wellFormed {
        return Fail(MalformedTag);
      }
      if unsupported && !token.references {
        return Fail(BadReference);
      }
      var scope := env.childScope(if stack == [] then None else Some(stack[|stack| - 1].scope), token.attributes);
      if scope.None? {
        return Fail(BadScope);
      }
      var name := env.resolve(token.rawName, scope.value, allowUnbound);
      if name.None? {
        return Fail(UnresolvedName);
      }
      var attributes := env.attributes(token.attributes, scope.value, allowUnbound);
      if attributes.None? {
        return Fail(BadAttributes);
      }
      Enter(name.value, attributes.value, token.rawName, scope.value);
      verdict := Pass;
    }

    /** The state moves as the token says, or stays with the problem reported. */
    ghost predicate Follows(before: State, token: Token, verdict: Outcome<Problem>)
      reads this
    {
      match Step(env, before, token)
      case Ok(after) => verdict == Pass && state == after
      case Err(problem) => verdict == Fail(problem) && state == before
    }

    method EndElement(token: Token) returns (verdict: Outcome<Problem>)
      requires token.EndTag? && Valid()
      modifies this
      ensures Valid() && Follows(old(state), token, verdict)
      ensures elements == old(elements)
    {
      hide Hearing, Retaining;
      if stack == [] {
        return Fail(UnexpectedEnd);
      }
      var frame := stack[|stack| - 1];
      if token.rawName != frame.rawName {
        return Fail(Mismatch);
      }
      var name := env.resolve(token.rawName, frame.scope, allowUnbound);
      if name.None? {
        return Fail(UnresolvedName);
      }
      if name.value != frame.name {
        return Fail(Mismatch);
      }
      Leave(name.value);
      verdict := Pass;
    }

    /** Takes the innermost element off the stack and tells the observer while streaming. */
    method Leave(name: Name)
      requires Valid() && stack != [] && stack[|stack| - 1].name == name
      modifies this
      ensures Valid() && state == CloseInnermost(old(state))
      ensures elements == old(elements)
    {
      hide Hearing, Retaining, Match, CloseInnermost, Walk, WalkOpen;
      MatchTop(stack, state.open);
      EndEvents(state);
      MatchPop(stack, state);
      Closing(state);
      ghost var events := state.Events();
      EventsBegin(state);
      if streaming {
        stack := stack[..|stack| - 1];
      } else {
        PopRetained(state.open);
      }
      state := CloseInnermost(state);
      ObserveInside(End(name), events);
      if stack == [] {
        rootClosed := true;
      }
    }

    method CharacterData(token: Token) returns (verdict: Outcome<Problem>)
      requires token.CharacterData? && Valid()
      modifies this, elements`children
      ensures Valid() && Follows(old(state), token, verdict)
      ensures elements == old(elements)
    {
      hide Hearing, Retaining;
      if unsupported && !token.references {
        return Fail(BadReference);
      }
      if stack == [] {
        verdict := CharacterDataOutside(token);
      } else {
        if token.data != "" {
          CharacterDataInside(token.data);
        }
        verdict := Pass;
      }
    }

    method CharacterDataInside(data: string)
      requires Valid() && stack != [] && data != ""
      modifies this, elements`children
      ensures Valid() && elements == old(elements)
      ensures state == old(state).(open := AddChild(old(state).open, Leaf(data)), seenToken := true)
    {
      hide Hearing, Retaining, Match, AddChild;
      MatchTop(stack, state.open);
      DataEvents(state, data);
      MatchAddChild(stack, state.open, Leaf(data));
      EventsBegin(state);
      ghost var events := state.Events();
      if !streaming {
        AddRetainedText(data, state.open);
      }
      ObserveInside(Chars(data), events);
      seenToken := true;
      state := state.(open := AddChild(state.open, Leaf(data)), seenToken := true);
      SeenTokenKeepsEvents(old(state).(open := AddChild(old(state).open, Leaf(data))), true);
    }

    method CharacterDataOutside(token: Token) returns (verdict: Outcome<Problem>)
      requires token.CharacterData? && Valid() && stack == [] && !(unsupported && !token.references)
      modifies this`seenToken, this`state
      ensures Valid() && Follows(old(state), token, verdict)
    {
      hide Hearing, Retaining;
      var data, raw := token.data, token.raw;
      if !rootSeen && !seenToken {
        if HasBOM(data) {
          data, raw := TrimBOM(data), TrimBOM(raw);
          if data == "" {
            return Pass;
          }
        }
      }
      if LiteralWhitespace(data, raw) {
        NoteToken();
        return Pass;
      }
      verdict := Fail(if rootClosed then DataAfterRoot else DataBeforeRoot);
    }

    method NoteToken()
      requires Valid()
      modifies this`seenToken, this`state
      ensures Valid() && state == old(state).(seenToken := true)
    {
      hide Hearing, Retaining;
      seenToken := true;
      state := state.(seenToken := true);
    }

    method DocumentType(token: Token) returns (verdict: Outcome<Problem>)
      requires token.Doctype? && Valid()
      modifies this`seenToken, this`unsupported, this`allowUnbound, this`state
      ensures Valid() && Follows(old(state), token, verdict)
    {
      hide Hearing, Retaining;
      if rootSeen || stack != [] || rootClosed {
        return Fail(LateDoctype);
      }
      if unsupported {
        return Fail(RepeatedDoctype);
      }
      if !token.wellFormed {
        return Fail(BadDoctype);
      }
      unsupported, allowUnbound, seenToken := true, token.suppliesNamespaces, true;
      state := state.(unsupported := true, unbound := token.suppliesNamespaces, seenToken := true);
      verdict := Pass;
    }

    method HandleToken(token: Token) returns (verdict: Outcome<Problem>)
      requires Valid()
      modifies this, elements`children
      ensures Valid() && Follows(old(state), token, verdict)
      ensures fresh(elements - old(elements))
    {
      hide Valid;
      match token
      case StartTag(_, _, _, _) => verdict := StartElement(token);
      case EndTag(_) => verdict := EndElement(token);
      case CharacterData(_, _, _) => verdict := CharacterData(token);
      case Doctype(_, _) => verdict := DocumentType(token);
      case Comment(wellFormed) =>
        if wellFormed {
          NoteToken();
        }
        verdict := if wellFormed then Pass else Fail(MalformedComment);
      case Instruction(wellFormed) =>
        if wellFormed {
          NoteToken();
        }
        verdict := if wellFormed then Pass else Fail(MalformedInstruction);
      case Declaration(_, _, _) => verdict := XMLDeclaration(token);
      case OtherDirective => verdict := Fail(BadDirective);
    }

    method XMLDeclaration(token: Token) returns (verdict: Outcome<Problem>)
      requires token.Declaration? && Valid()
      modifies this`seenToken, this`state
      ensures Valid() && Follows(old(state), token, verdict)
    {
      hide Hearing, Retaining;
      if !token.wellFormed {
        return Fail(MalformedInstruction);
      }
      if !token.lowercase || seenToken {
        return Fail(DeclarationNotFirst);
      }
      if !token.acceptable {
        return Fail(BadDeclaration);
      }
      NoteToken();
      verdict := Pass;
    }

    lemma HeardSoFar()
      requires Valid()
      ensures observed == Heard(observer, state.Events())
      ensures semantic == Failed(observer, observed)
      ensures state.finished.Some? ==>
        streaming == (observer.Some? && observed != [] && !observer.value.retains(observed[0]))
    {
    }

    method FinishAtEOF() returns (result: Result<Document, Failure>)
      requires Valid()
      ensures Finishes(result, AtEOF(state), semantic, streaming, values.Keys)
    {
      hide Hearing, Match;
      if stack != [] {
        MatchTop(stack, state.open);
        return Err(Failure(Some(Unclosed), semantic));
      }
      MatchTop(stack, state.open);
      if !rootSeen {
        return Err(Failure(Some(NoRoot), semantic));
      }
      if unsupported {
        return Err(Failure(Some(UnsupportedDoctype), semantic));
      }
      if semantic {
        return Err(Failure(None, true));
      }
      if streaming {
        return Ok(Streamed);
      }
      ClosedShows(root, values);
      result := Ok(Retained(root));
    }
  }

  /** Structural problems come first, then a failure of the observer, then the document. */
  ghost predicate Finishes(result: Result<Document, Failure>, tree: Result<Tree, Problem>, semantic: bool,
    streaming: bool,
                           elements: set<Element>)
    reads elements
  {
    match tree
    case Err(problem) => result == Err(Failure(Some(problem), semantic))
    case Ok(value) =>
      if semantic then result == Err(Failure(None, true))
      else if streaming then result == Ok(Streamed)
      else result.Ok? && result.value.Retained? && Shows(result.value.root, value, elements)
  }

  /** The state after the longest run of tokens without a problem. */
  function LastGood(env: Environment, tokens: seq<Token>): State {
    var end := Run(env, INITIAL, tokens);
    if end.Ok? then end.value else if tokens == [] then INITIAL else LastGood(env, tokens[..|tokens| - 1])
  }

  lemma {:induction false} RunFails(env: Environment, tokens: seq<Token>, k: nat, problem: Problem)
    requires k < |tokens| && Run(env, INITIAL, tokens[..k]).Ok?
    requires Run(env, INITIAL, tokens[..k + 1]) == Err(problem)
    ensures Run(env, INITIAL, tokens) == Err(problem) && LastGood(env, tokens) == Run(env, INITIAL, tokens[..k]).value
    decreases |tokens|
  {
    hide Step;
    if k + 1 == |tokens| {
      assert tokens[..k + 1] == tokens;
    } else {
      var before := tokens[..|tokens| - 1];
      assert before[..k] == tokens[..k] && before[..k + 1] == tokens[..k + 1];
      RunFails(env, before, k, problem);
    }
  }

  /** While streaming an accepted document, the observer hears its tags and text, each once and in order. */
  lemma StreamHearsTheWalk(env: Environment, observer: Observer, tokens: seq<Token>)
    requires Decoded(env, tokens).Ok?
    requires !observer.retains(Walk(Decoded(env, tokens).value)[0])
    ensures Heard(Some(observer), LastGood(env, tokens).Events()) == Walk(Decoded(env, tokens).value)
    ensures Heard(Some(observer), LastGood(env, tokens).Events()) == Read(env, tokens).events
  {
    RunReads(env, tokens);
  }

  lemma EmptyRun(env: Environment)
    ensures Run(env, INITIAL, []) == Ok(INITIAL)
  {
  }

  /** The observer's whole history, and the document, are those of the token list. */
  method Decode(env: Environment, observer: Option<Observer>, tokens: seq<Token>)
      returns (result: Result<Document, Failure>, observed: seq<Event>, ghost elements: set<Element>)
    ensures observed == Heard(observer, LastGood(env, tokens).Events())
    ensures Finishes(result, Decoded(env, tokens), Failed(observer, observed),
                     observer.Some? && observed != [] && !observer.value.retains(observed[0]), elements)
  {
    hide Heard, Failed, Walk, WalkOpen, Shows, Decoder.Valid, Step;
    var decoder := new Decoder(env, observer);
    var i := 0;
    EmptyRun(env);
    while i < |tokens|
      invariant 0 <= i <= |tokens|
      invariant fresh(decoder) && fresh(decoder.elements) && decoder.Valid()
      invariant decoder.env == env && decoder.observer == observer
      invariant Run(env, INITIAL, tokens[..i]) == Ok(decoder.state)
    {
      assert tokens[..i + 1][..i] == tokens[..i];
      var verdict := decoder.HandleToken(tokens[i]);
      if verdict.Fail? {
        RunFails(env, tokens, i, verdict.error);
        result, observed, elements := Err(Failure(Some(verdict.error), decoder.semantic)), decoder.observed, {};
        decoder.HeardSoFar();
        return;
      }
      i := i + 1;
    }
    assert tokens[..i] == tokens;
    decoder.HeardSoFar();
    result := decoder.FinishAtEOF();
    observed, elements := decoder.observed, decoder.values.Keys;
  }
}
