/**
 * The translatable chat node: its argument list operations and its two render entry
 * points. Argument renderings, the extras rendering and the locale lookup are inputs.
 */
module Chat {
  import opened Wrappers
  import opened Exceptions
  import opened Tokens
  import opened Resolution
  import opened Render
  import opened Style

  /** Stands for the identity of a component object (what `this` refers to). */
  type NodeId = nat

  /** A component's own content. `TextContent` stands for a text component without a style
      of its own, as `new TextComponent(text)` builds it; any other component, a styled text
      component included, is an `OtherContent`, kept opaque and told apart by a tag. */
  datatype Content = TextContent(text: string) | OtherContent(tag: nat)

  /** A `BaseComponent` as far as the argument list sees it: its content and its parent. */
  datatype Component = Component(content: Content, parent: Option<NodeId>)

  /** One value passed to the varargs constructor. */
  datatype Value =
    | Str(s: string)        // a `String`
    | Node(c: Component)    // a `BaseComponent`
    | Null                  // `null`
    | Foreign               // an object of any other class

  /** A `TranslatableComponent`: its identity, translation key and argument list (`None`
      for a null list). */
  datatype Translatable = Translatable(self: NodeId, translate: string, with: Option<seq<Component>>)

  /** `new TextComponent(text)`: a text component without a parent. */
  function TextOf(text: string): Component {
    Component(TextContent(text), None)
  }

  /** The argument list after the loop of `setWith`: every element re-parented to `self`;
      a null element throws. */
  function Adopt(self: NodeId, cs: seq<Option<Component>>): (r: Result<seq<Component>, Exception>)
    ensures r.Success? <==> forall j :: 0 <= j < |cs| ==> cs[j].Some?
    ensures r.Failure? ==> r.error == NullPointer
    ensures r.Success? ==>
      && |r.value| == |cs|
      && forall j :: 0 <= j < |cs| ==> r.value[j] == cs[j].value.(parent := Some(self))
  {
    if cs == [] then Success([])
    else if cs[0].None? then Failure(NullPointer)
    else
      var rest :- Adopt(self, cs[1..]);
      Success([cs[0].value.(parent := Some(self))] + rest)
  }

  /** `setWith(components)`: replaces the whole list (the old one plays no part) and makes
      this node the parent of every element. A null list or element throws. */
  function SetWith(node: Translatable, components: Option<seq<Option<Component>>>): (r: Result<Translatable, Exception>)
    ensures r.Success? <==> components.Some? && forall j :: 0 <= j < |components.value| ==> components.value[j].Some?
    ensures r.Failure? ==> r.error == NullPointer
    ensures r.Success? ==>
      && r.value.self == node.self && r.value.translate == node.translate
      && r.value.with.Some? && |r.value.with.value| == |components.value|
      && forall j :: 0 <= j < |components.value| ==>
           r.value.with.value[j].content == components.value[j].value.content
           && r.value.with.value[j].parent == Some(node.self)
  {
    if components.None? then Failure(NullPointer)
    else
      var adopted :- Adopt(node.self, components.value);
      Success(node.(with := Some(adopted)))
  }

  /** The first loop of the constructor: strings become text components, components are
      kept, `null` passes the cast, and any other object fails it. */
  function Wrap(values: seq<Value>): (r: Result<seq<Option<Component>>, Exception>)
    ensures r.Success? <==> forall j :: 0 <= j < |values| ==> !values[j].Foreign?
    ensures r.Failure? ==> r.error == ClassCast
    ensures r.Success? ==>
      && |r.value| == |values|
      && forall j :: 0 <= j < |values| ==>
        match values[j]
        case Str(s) => r.value[j] == Some(TextOf(s))
        case Node(c) => r.value[j] == Some(c)
        case Null => r.value[j] == None
        case Foreign => false
  {
    if values == [] then Success([])
    else
      var rest :- Wrap(values[1..]);
      match values[0]
      case Str(s) => Success([Some(TextOf(s))] + rest)
      case Node(c) => Success([Some(c)] + rest)
      case Null => Success([None] + rest)
      case Foreign => Failure(ClassCast)
  }

  /** What a constructor value becomes in the argument list, before re-parenting. */
  function ContentOf(v: Value): Content
    requires v.Str? || v.Node?
  {
    if v.Str? then TextContent(v.s) else v.c.content
  }

  /** `new TranslatableComponent(translate, with...)`: the arguments keep their order,
      strings are wrapped as text components, and every argument's parent is the new node.
      Any value of another class throws `ClassCastException` (in the first loop, so before
      a `null` is reached by `setWith`); otherwise a `null` value throws. */
  function New(self: NodeId, translate: string, values: seq<Value>): (r: Result<Translatable, Exception>)
    ensures r.Success? <==> forall j :: 0 <= j < |values| ==> values[j].Str? || values[j].Node?
    ensures r.Failure? ==> r.error == if exists j :: 0 <= j < |values| && values[j].Foreign? then ClassCast else NullPointer
    ensures r.Success? ==>
      && r.value.self == self && r.value.translate == translate
      && r.value.with.Some? && |r.value.with.value| == |values|
      && forall j :: 0 <= j < |values| ==>
           r.value.with.value[j].content == ContentOf(values[j]) && r.value.with.value[j].parent == Some(self)
  {
    var temp :- Wrap(values);
    SetWith(Translatable(self, translate, None), Some(temp))
  }

  /** `addWith(component)`: creates the list if it is null, then appends the component
      with this node as its parent; the elements already there are left as they were. */
  function AddWith(node: Translatable, component: Option<Component>): (r: Result<Translatable, Exception>)
    ensures r.Success? <==> component.Some?
    ensures r.Failure? ==> r.error == NullPointer
    ensures r.Success? ==>
      var before := if node.with.Some? then node.with.value else [];
      && r.value.self == node.self && r.value.translate == node.translate
      && r.value.with.Some? && |r.value.with.value| == |before| + 1
      && r.value.with.value[..|before|] == before
      && r.value.with.value[|before|] == component.value.(parent := Some(node.self))
  {
    var list := if node.with.Some? then node.with.value else [];
    if component.None? then Failure(NullPointer)
    else Success(node.(with := Some(list + [component.value.(parent := Some(node.self))])))
  }

  /** `addWith(text)`: appends a new text component holding `text`; it never throws. */
  function AddWithText(node: Translatable, text: string): (r: Result<Translatable, Exception>)
    ensures r.Success?
    ensures var before := if node.with.Some? then node.with.value else [];
      && r.value.self == node.self && r.value.translate == node.translate
      && r.value.with.Some? && |r.value.with.value| == |before| + 1
      && r.value.with.value[..|before|] == before
      && r.value.with.value[|before|] == Component(TextContent(text), Some(node.self))
  {
    AddWith(node, Some(TextOf(text)))
  }

  /** Adding constructor values one at a time: a string through `addWith(String)`, a
      component through `addWith(BaseComponent)`, and `null` as `addWith((BaseComponent)
      null)`, which throws (`addWith((String) null)` would not). An object of another class
      fits no overload; it is given the constructor's `ClassCastException`. */
  function AddEach(node: Translatable, values: seq<Value>): Result<Translatable, Exception>
    decreases |values|
  {
    if values == [] then Success(node)
    else
      var n :- AddEach(node, values[..|values| - 1]);
      match values[|values| - 1]
      case Str(s) => AddWithText(n, s)
      case Node(c) => AddWith(n, Some(c))
      case Null => AddWith(n, None)
      case Foreign => Failure(ClassCast)
  }

  /** Adding values one at a time succeeds exactly when each is a string or a component;
      it keeps the node's identity, key and existing arguments, and appends one argument
      per value, in order, each parented to the node. */
  lemma {:induction false} AddEachAppends(node: Translatable, values: seq<Value>)
    requires node.with.Some?
    ensures AddEach(node, values).Success? <==> forall j :: 0 <= j < |values| ==> values[j].Str? || values[j].Node?
    ensures AddEach(node, values).Success? ==>
      var r := AddEach(node, values).value;
      && r.self == node.self && r.translate == node.translate
      && r.with.Some? && |r.with.value| == |node.with.value| + |values|
      && r.with.value[..|node.with.value|] == node.with.value
      && forall j :: 0 <= j < |values| ==>
           r.with.value[|node.with.value| + j] == Component(ContentOf(values[j]), Some(node.self))
    decreases |values|
  {
    if values != [] {
      var init := values[..|values| - 1];
      var last := values[|values| - 1];
      AddEachAppends(node, init);
      assert forall j :: 0 <= j < |init| ==> init[j] == values[j];
      var q := AddEach(node, init);
      if q.Success? {
        var n := q.value;
        var r := AddEach(node, values);
        if r.Success? {
          assert last.Str? || last.Node?;
          assert r.value.with.value[..|n.with.value|] == n.with.value;
          forall j | 0 <= j < |values|
            ensures r.value.with.value[|node.with.value| + j] == Component(ContentOf(values[j]), Some(node.self))
          {
            if j < |init| {
              assert r.value.with.value[|node.with.value| + j] == n.with.value[|node.with.value| + j];
            }
          }
          assert r.value.with.value[..|node.with.value|] == n.with.value[..|n.with.value|][..|node.with.value|];
        }
      }
    }
  }

  /** Two argument lists that hold the same content and parent at every position are equal. */
  lemma SameArguments(a: seq<Component>, b: seq<Component>, self: NodeId, values: seq<Value>)
    requires forall j :: 0 <= j < |values| ==> values[j].Str? || values[j].Node?
    requires |a| == |values| && |b| == |values|
    requires forall j :: 0 <= j < |values| ==> a[j] == Component(ContentOf(values[j]), Some(self))
    requires forall j :: 0 <= j < |values| ==> b[j].content == ContentOf(values[j]) && b[j].parent == Some(self)
    ensures a == b
  {
    forall j | 0 <= j < |values|
      ensures a[j] == b[j]
    {
    }
  }

  /** The constructor builds the same node as starting from an empty list and adding each
      value in turn with `addWith`, and succeeds exactly when that does. */
  lemma NewIsRepeatedAddWith(self: NodeId, translate: string, values: seq<Value>)
    ensures New(self, translate, values).Success? <==> AddEach(Translatable(self, translate, Some([])), values).Success?
    ensures New(self, translate, values).Success? ==>
      New(self, translate, values) == AddEach(Translatable(self, translate, Some([])), values)
  {
    var start := Translatable(self, translate, Some([]));
    AddEachAppends(start, values);
    var r := New(self, translate, values);
    if r.Success? {
      var a := AddEach(start, values).value;
      assert forall j :: 0 <= j < |values| ==> a.with.value[0 + j] == a.with.value[j];
      SameArguments(a.with.value, r.value.with.value, self, values);
    }
  }

  /** The plain renderings of the arguments, or `None` for a null list. */
  function Renderings(with: Option<seq<Component>>, render: Component -> string): (r: Option<seq<string>>)
    ensures r.None? <==> with.None?
    ensures with.Some? ==>
      && |r.value| == |with.value|
      && forall j :: 0 <= j < |with.value| ==> r.value[j] == render(with.value[j])
  {
    if with.None? then None else Some(seq(|with.value|, j requires 0 <= j < |with.value| => render(with.value[j])))
  }

  /** `toPlainText`: a key the locale lookup misses renders as itself; otherwise the
      template's tokens render as the token rendering describes, with the arguments'
      plain renderings. The extras' rendering follows unless an exception was thrown. */
  function ToPlainText(node: Translatable, lookup: string -> Option<string>, plainOf: Component -> string, extras: string): (r: Result<string, Exception>)
    ensures lookup(node.translate).None? ==> r == Success(node.translate + extras)
    ensures lookup(node.translate).Some? ==>
      var t := lookup(node.translate).value;
      r == Then(Expand(Lex(t, 0).tokens, [], Lex(t, 0).truncated, Renderings(node.with, plainOf), []), Success(extras))
  {
    var trans := lookup(node.translate);
    if trans.None? then Success(node.translate + extras)
    else
      var with := Renderings(node.with, plainOf);
      PlainLoopExpands(trans.value, with, 0, 0, []);
      var body :- PlainLoop(trans.value, with, 0, 0);
      Success(body + extras)
  }

  /** `toLegacyText`: like `toPlainText` with the arguments' legacy renderings, and with
      the text of `addFormat` before the key, before every literal run and before every
      `%` written for `%%`. */
  function ToLegacyText(node: Translatable, lookup: string -> Option<string>, legacyOf: Component -> string,
                        format: Format, markers: Markers, extras: string): (r: Result<string, Exception>)
    ensures lookup(node.translate).None? ==> r == Success(AddFormat(format, markers) + node.translate + extras)
    ensures lookup(node.translate).Some? ==>
      var t := lookup(node.translate).value;
      r == Then(Expand(Lex(t, 0).tokens, [], Lex(t, 0).truncated, Renderings(node.with, legacyOf), AddFormat(format, markers)),
                Success(extras))
  {
    var trans := lookup(node.translate);
    var prefix := AddFormat(format, markers);
    if trans.None? then Success(prefix + node.translate + extras)
    else
      var with := Renderings(node.with, legacyOf);
      LegacyLoopExpands(trans.value, with, prefix, 0, 0, []);
      var body :- LegacyLoop(trans.value, with, prefix, 0, 0);
      Success(body + extras)
  }
}
