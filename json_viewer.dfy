/** The json-viewer element. Its `render` classifies the bound value in a
    fixed order and, for arrays and objects, turns each entry into a
    json-collapse section; the sections and child viewers of composite
    entries are recorded in two registries that `expandAll`, `collpaseAll`
    and `disconnectedCallback` work on. */
module JsonViewer {

  import opened Wrappers
  import opened JsonValue
  import JsonCollapse

  /** What one slot of an entry's section holds: the entry's key, followed by
      the collapsed placeholder (`[...]` or `{...}`) or by an inline,
      unregistered viewer of a primitive value, or by nothing. */
  datatype Content = Content(key: string, placeholder: Option<string>, inline: Option<Value>)

  /** The section `renderObject` emits for one entry. `registered` says
      whether the section and the child viewer in its default slot carry the
      `ref` callbacks that add them to the registries; `body` is the value
      bound to that child viewer. */
  datatype Item = Item(freeze: bool, registered: bool, open: Content, close: Content, body: Option<Value>)

  /** What a viewer renders for its bound value. */
  datatype View =
    | ObjectView(isArray: bool, items: seq<Item>)
    | NullView
    | UndefinedView
    | StringView(text: string, href: Option<string>)
    | NumberView(n: int)
    | BooleanView(b: bool)

  /** The CSS class of the element a view is rendered into: one of the six
      class names, and `object` exactly for composite views. */
  function CssClass(view: View): (r: string)
    ensures r in {"object", "null", "undefined", "string", "number", "boolean"}
    ensures r == "object" <==> view.ObjectView?
  {
    match view
    case ObjectView(_, _) => "object"
    case NullView => "null"
    case UndefinedView => "undefined"
    case StringView(_, _) => "string"
    case NumberView(_) => "number"
    case BooleanView(_) => "boolean"
  }

  /** The collapsed placeholder of a composite entry, chosen by the kind of the
      composite that holds the entry: an ellipsis between the brackets of that
      kind, never a count. */
  function Placeholder(isArray: bool): (r: string)
    ensures |r| == 5 && r[1..4] == "..."
    ensures r[0] == '[' <==> isArray
    ensures r[4] == ']' <==> isArray
    ensures !isArray ==> r[0] == '{' && r[4] == '}'
  {
    if isArray then "[...]" else "{...}"
  }

  /** One entry `(k, v)` of a composite: a value that passes `isObject` gets a
      live, registered section whose open slot shows the key and the
      placeholder, whose close slot shows the key, and whose body holds a
      child viewer of `v`; any other value gets a frozen, unregistered section
      with the key and an inline viewer of `v` in both slots and an empty body. */
  function RenderEntry(k: string, v: Value, isArray: bool): (r: Item)
    ensures r.freeze <==> !v.Arr? && !v.Obj?
    ensures r.registered <==> !r.freeze
    ensures r.open.key == k && r.close.key == k
    ensures r.registered ==> r.body == Some(v) && r.open.placeholder == Some(Placeholder(isArray))
                             && r.close == Content(k, None, None) && r.open.inline == None
    ensures !r.registered ==> r.body == None && r.open == r.close == Content(k, None, Some(v))
  {
    if IsObject(v) then
      Item(false, true, Content(k, Some(Placeholder(isArray)), None), Content(k, None, None), Some(v))
    else
      var content := Content(k, None, Some(v));
      Item(true, false, content, content, None)
  }

  /** `renderObject`: one section per entry of `Object.entries`, in entry order. */
  function RenderObject(o: Value, isArray: bool): (r: View)
    ensures r.ObjectView? && r.isArray == isArray
    ensures |r.items| == |Entries(o)|
    ensures forall i :: 0 <= i < |r.items| ==> r.items[i] == RenderEntry(Entries(o)[i].0, Entries(o)[i].1, isArray)
  {
    var es := Entries(o);
    ObjectView(isArray, seq(|es|, i requires 0 <= i < |es| => RenderEntry(es[i].0, es[i].1, isArray)))
  }

  /** `renderString`, with URL parsing given as `canParse`: the text is always
      shown, as a link to itself exactly when it parses as a URL. */
  function RenderString(s: string, canParse: string -> bool): (r: View)
    ensures r.StringView? && r.text == s
    ensures r.href.Some? <==> canParse(s)
    ensures r.href.Some? ==> r.href.value == s
  {
    StringView(s, if canParse(s) then Some(s) else None)
  }

  /** `render`: arrays first (they are objects to `typeof`), then `null` (also
      an object to `typeof`), then other objects, strings, numbers and booleans;
      every other kind of value falls through to the `undefined` leaf. */
  function Render(v: Value, canParse: string -> bool): (r: View)
    ensures r.ObjectView? <==> v.Arr? || v.Obj?
    ensures r.ObjectView? ==> r == RenderObject(v, v.Arr?)
    ensures r.NullView? <==> v.Null?
    ensures r.StringView? <==> v.Str?
    ensures v.Str? ==> r == RenderString(v.s, canParse)
    ensures r.NumberView? <==> v.Num?
    ensures v.Num? ==> r.n == v.n
    ensures r.BooleanView? <==> v.Bool?
    ensures v.Bool? ==> r.b == v.b
    ensures r.UndefinedView? <==> v.Undef? || v.Other?
  {
    if IsArray(v) then RenderObject(v, true)
    else if v == Null then NullView
    else
      var t := TypeOf(v);
      if t == "object" then RenderObject(v, false)
      else if t == "string" then RenderString(v.s, canParse)
      else if t == "number" then NumberView(v.n)
      else if t == "boolean" then BooleanView(v.b)
      else UndefinedView
  }

  /** The class of a leaf is the `typeof` tag of its value for strings,
      numbers and booleans; `null` gets `null`, arrays and objects get
      `object`, and every other kind gets `undefined`. */
  lemma CssClassFollowsTypeOf(v: Value, canParse: string -> bool)
    ensures CssClass(Render(v, canParse)) ==
            if IsObject(v) then "object"
            else if v == Null then "null"
            else if TypeOf(v) in {"string", "number", "boolean"} then TypeOf(v)
            else "undefined"
  {
  }

  /** A string is a string leaf whether or not it renders as a link. */
  lemma StringClassIgnoresUrl(s: string, canParse: string -> bool)
    ensures CssClass(Render(Str(s), canParse)) == "string"
    ensures Render(Str(s), canParse).href.Some? <==> canParse(s)
  {
  }

  /** An empty array or object renders no section at all. */
  lemma EmptyCompositeHasNoItems(v: Value, canParse: string -> bool)
    requires v == Arr([]) || v == Obj([])
    ensures Render(v, canParse) == ObjectView(v.Arr?, [])
  {
  }

  /** The placeholder depends on the kind of the holding composite only, never
      on the kind of the entry's own value. */
  lemma PlaceholderFromParent(k: string, a: Value, b: Value, isArray: bool)
    requires IsObject(a) && IsObject(b)
    ensures RenderEntry(k, a, isArray).open == RenderEntry(k, b, isArray).open
  {
  }

  /** What an entry's section displays when its `expand` is `expand`: the
      summary slot chosen by the section's presentation, and the value of the
      child viewer in the body when the body is rendered and holds one. */
  function Displayed(item: Item, expand: bool): (r: (Content, Option<Value>))
    ensures !expand ==> r == (item.open, None)
    ensures expand ==> r == (item.close, item.body)
  {
    var p := JsonCollapse.Render(expand, item.freeze);
    (if p.summarySlot == JsonCollapse.Close then item.close else item.open,
     if p.bodyShown then item.body else None)
  }

  /** A primitive entry shows the same content whatever its `expand` is, with
      the marker hidden. */
  lemma PrimitiveEntryIgnoresExpand(k: string, v: Value, isArray: bool)
    requires !IsObject(v)
    ensures Displayed(RenderEntry(k, v, isArray), true) == Displayed(RenderEntry(k, v, isArray), false)
    ensures Displayed(RenderEntry(k, v, isArray), false).0.inline == Some(v)
    ensures JsonCollapse.Render(false, RenderEntry(k, v, isArray).freeze).markerHidden
  {
  }

  /** A composite entry shows its key and placeholder while collapsed, and its
      key and its child viewer while expanded. */
  lemma CompositeEntryToggles(k: string, v: Value, isArray: bool)
    requires IsObject(v)
    ensures Displayed(RenderEntry(k, v, isArray), false) == (Content(k, Some(Placeholder(isArray)), None), None)
    ensures Displayed(RenderEntry(k, v, isArray), true) == (Content(k, None, None), Some(v))
  {
  }

  /** The value `{"a": 1, "b": [1, 2], "c": null}` renders as one object
      with three sections in that order: a frozen one for `a`, a live one
      whose child viewer shows an array of two number leaves for `b`, and a
      frozen one for `c` whose inline viewer shows the `null` leaf. */
  lemma ExampleObject(canParse: string -> bool)
    ensures var b := Arr([Num(1), Num(2)]);
            var r := Render(Obj([("a", Num(1)), ("b", b), ("c", Null)]), canParse);
            r.ObjectView? && !r.isArray && |r.items| == 3
            && r.items[0] == Item(true, false, Content("a", None, Some(Num(1))), Content("a", None, Some(Num(1))), None)
            && r.items[1] == Item(false, true, Content("b", Some("{...}"), None), Content("b", None, None), Some(b))
            && r.items[2] == Item(true, false, Content("c", None, Some(Null)), Content("c", None, Some(Null)), None)
            && Render(b, canParse) == ObjectView(true, [
                 Item(true, false, Content("0", None, Some(Num(1))), Content("0", None, Some(Num(1))), None),
                 Item(true, false, Content("1", None, Some(Num(2))), Content("1", None, Some(Num(2))), None)])
            && Render(Null, canParse) == NullView && Render(Undef, canParse) == UndefinedView
  {
  }

  /** The number of entries of `v` from index `i` on that get a live section. */
  function CompositesFrom(v: Value, i: nat): nat
    decreases |Entries(v)| - i
  {
    if i >= |Entries(v)| then 0
    else (if IsObject(Entries(v)[i].1) then 1 else 0) + CompositesFrom(v, i + 1)
  }

  /** The number of registered sections among `items`. */
  function RegisteredCount(items: seq<Item>): nat {
    if items == [] then 0 else (if items[0].registered then 1 else 0) + RegisteredCount(items[1..])
  }

  /** From entry `i` on, `renderObject` emits as many registered sections as
      there are composite entries. */
  lemma {:induction false} RegisteredFrom(v: Value, isArray: bool, i: nat)
    requires i <= |Entries(v)|
    ensures RegisteredCount(RenderObject(v, isArray).items[i..]) == CompositesFrom(v, i)
    decreases |Entries(v)| - i
  {
    var items := RenderObject(v, isArray).items;
    if i < |Entries(v)| {
      assert items[i..][1..] == items[i + 1..];
      RegisteredFrom(v, isArray, i + 1);
    }
  }

  /** The sections the first rendering registers are exactly the registered
      items of the view: as many as there are composite entries, and none for
      a value that is not an array or an object. */
  lemma RegisteredMatchesRender(v: Value, canParse: string -> bool)
    ensures IsObject(v) ==> RegisteredCount(Render(v, canParse).items) == CompositesFrom(v, 0)
    ensures !IsObject(v) ==> CompositesFrom(v, 0) == 0
  {
    if IsObject(v) {
      var items := Render(v, canParse).items;
      RegisteredFrom(v, v.Arr?, 0);
      assert items[0..] == items;
    }
  }

  /** The number of live sections in the whole tree rendered for `v`: one for
      every composite value nested anywhere inside it. */
  function Sections(v: Value): nat
    decreases v, 1
  {
    SectionsFrom(v, 0)
  }

  /** `Sections` restricted to the entries of `v` from index `i` on. */
  function SectionsFrom(v: Value, i: nat): nat
    decreases v, 0, |Entries(v)| - i
  {
    if i >= |Entries(v)| then 0
    else
      EntryValueSmaller(v, i);
      var child := Entries(v)[i].1;
      (if IsObject(child) then 1 + Sections(child) else 0) + SectionsFrom(v, i + 1)
  }

  /** The size of a union of disjoint sets. */
  lemma DisjointUnionSize<T>(a: set<T>, b: set<T>)
    requires a !! b
    ensures |a + b| == |a| + |b|
  {
  }

  /** The values of the composite entries among the first `n` entries of `v`,
      in entry order: the values the child viewers created for those entries
      are bound to. */
  function CompositeChildren(v: Value, n: nat): seq<Value>
    requires n <= |Entries(v)|
    decreases n
  {
    if n == 0 then []
    else CompositeChildren(v, n - 1) + (if IsObject(Children(v)[n - 1]) then [Children(v)[n - 1]] else [])
  }

  /** There are as many composite entries before `n` as `CompositesFrom`
      leaves out when it starts counting at `n`. */
  lemma {:induction false} CompositeChildrenCount(v: Value, n: nat)
    requires n <= |Entries(v)|
    ensures |CompositeChildren(v, n)| + CompositesFrom(v, n) == CompositesFrom(v, 0)
    decreases n
  {
    if n > 0 {
      CompositeChildrenCount(v, n - 1);
      var step := if IsObject(Children(v)[n - 1]) then 1 else 0;
      assert Children(v)[n - 1] == Entries(v)[n - 1].1;
      assert CompositesFrom(v, n - 1) == step + CompositesFrom(v, n);
      assert |CompositeChildren(v, n)| == |CompositeChildren(v, n - 1)| + step;
    }
  }

  /** The values the viewers in `vs` are bound to, in order. */
  function Bound(vs: seq<Viewer>): seq<Value>
  {
    if |vs| == 0 then [] else Bound(vs[..|vs| - 1]) + [vs[|vs| - 1].data]
  }

  /** `Bound` lists one value per viewer: the `k`-th viewer's value. */
  lemma {:induction false} BoundAt(vs: seq<Viewer>)
    ensures |Bound(vs)| == |vs| && forall k :: 0 <= k < |vs| ==> Bound(vs)[k] == vs[k].data
  {
    if |vs| > 0 {
      BoundAt(vs[..|vs| - 1]);
    }
  }

  /** The elements of `s`. */
  function Elements<T>(s: seq<T>): set<T>
  {
    if |s| == 0 then {} else Elements(s[..|s| - 1]) + {s[|s| - 1]}
  }

  /** `Elements` holds the members of the sequence and nothing else. */
  lemma {:induction false} ElementsMembers<T>(s: seq<T>)
    ensures forall x :: x in Elements(s) <==> x in s
  {
    if |s| > 0 {
      ElementsMembers(s[..|s| - 1]);
      assert s == s[..|s| - 1] + [s[|s| - 1]];
    }
  }

  /** A sequence has at most as many elements as entries. */
  lemma {:induction false} ElementsSize<T>(s: seq<T>)
    ensures |Elements(s)| <= |s|
  {
    if |s| > 0 {
      ElementsSize(s[..|s| - 1]);
    }
  }

  /** A sequence with as many elements as entries repeats none of them. */
  lemma {:induction false} NoRepeats<T>(s: seq<T>)
    requires |Elements(s)| == |s|
    ensures forall j, k :: 0 <= j < k < |s| ==> s[j] != s[k]
  {
    if |s| > 0 {
      var p := s[..|s| - 1];
      ElementsMembers(p);
      ElementsSize(p);
      if s[|s| - 1] in p {
        assert false;
      }
      NoRepeats(p);
      forall j, k | 0 <= j < k < |s| ensures s[j] != s[k] {
        if k == |s| - 1 {
          assert s[j] == p[j];
        } else {
          assert s[j] == p[j] && s[k] == p[k];
        }
      }
    }
  }

  /** The bookkeeping of a rendering of `d` that has reached entry `i`: the
      registries `registered` and `children` hold exactly the listed
      elements, one per composite entry before `i`, the `k`-th listed viewer
      is bound to the `k`-th such entry's value, and the sections `collapses`
      reached so far, none of them in `outside`, are those of the entries
      before `i`. */
  ghost predicate Listed(d: Value, i: nat, registered: set<JsonCollapse.Collapse>, children: set<Viewer>,
                         collapses: set<JsonCollapse.Collapse>, outside: set<JsonCollapse.Collapse>,
                         sections: seq<JsonCollapse.Collapse>, viewers: seq<Viewer>)
  {
    i <= |Entries(d)| &&
    registered == Elements(sections) && children == Elements(viewers) &&
    |sections| == |viewers| && Bound(viewers) == CompositeChildren(d, i) &&
    |registered| == |children| && |registered| + CompositesFrom(d, i) == CompositesFrom(d, 0) &&
    collapses !! outside && |collapses| + SectionsFrom(d, i) == Sections(d)
  }

  /** Rendering a composite entry extends the bookkeeping by its new section
      and child viewer. */
  lemma ListedComposite(d: Value, i: nat, registered: set<JsonCollapse.Collapse>, children: set<Viewer>,
                        collapses: set<JsonCollapse.Collapse>, outside: set<JsonCollapse.Collapse>,
                        sections: seq<JsonCollapse.Collapse>, viewers: seq<Viewer>,
                        c: JsonCollapse.Collapse, w: Viewer, added: set<JsonCollapse.Collapse>)
    requires Listed(d, i, registered, children, collapses, outside, sections, viewers) && i < |Entries(d)|
    requires IsObject(Children(d)[i]) && c !in registered && w !in children && w.data == Children(d)[i]
    requires added !! outside && |collapses + added| == |collapses| + 1 + Sections(Children(d)[i])
    ensures Listed(d, i + 1, registered + {c}, children + {w}, collapses + added, outside, sections + [c], viewers + [w])
  {
    var v := Children(d)[i];
    assert v == Entries(d)[i].1;
    assert (sections + [c])[..|sections|] == sections;
    assert (viewers + [w])[..|viewers|] == viewers;
    DisjointUnionSize(registered, {c});
    DisjointUnionSize(children, {w});
  }

  /** Rendering a primitive entry leaves the bookkeeping as it is, one entry on. */
  lemma ListedPrimitive(d: Value, i: nat, registered: set<JsonCollapse.Collapse>, children: set<Viewer>,
                        collapses: set<JsonCollapse.Collapse>, outside: set<JsonCollapse.Collapse>,
                        sections: seq<JsonCollapse.Collapse>, viewers: seq<Viewer>)
    requires Listed(d, i, registered, children, collapses, outside, sections, viewers) && i < |Entries(d)|
    requires !IsObject(Children(d)[i])
    ensures Listed(d, i + 1, registered, children, collapses, outside, sections, viewers)
  {
    assert Children(d)[i] == Entries(d)[i].1;
  }

  /** Once every entry is rendered, the bookkeeping says what `Mount` promises. */
  lemma ListedComplete(d: Value, registered: set<JsonCollapse.Collapse>, children: set<Viewer>,
                       collapses: set<JsonCollapse.Collapse>, outside: set<JsonCollapse.Collapse>,
                       sections: seq<JsonCollapse.Collapse>, viewers: seq<Viewer>)
    requires Listed(d, |Entries(d)|, registered, children, collapses, outside, sections, viewers)
    ensures registered == Elements(sections) && children == Elements(viewers)
    ensures |registered| == |children| == |sections| == |viewers| == CompositesFrom(d, 0)
    ensures Bound(viewers) == CompositeChildren(d, |Entries(d)|)
    ensures collapses !! outside && |collapses| == Sections(d)
  {
    CompositeChildrenCount(d, |Entries(d)|);
    BoundAt(viewers);
  }

  /** One json-viewer element. `Repr` holds this viewer and every viewer
      reachable through `subViewer`; `Collapses` every section reachable
      through the registries; `Frozen` the frozen sections created for
      primitive entries anywhere in this viewer's tree. A viewer is bound to
      its value once, when it is created. */
  class Viewer {
    const data: Value
    var collapseSet: set<JsonCollapse.Collapse>
    var subViewer: set<Viewer>
    ghost var Repr: set<Viewer>
    ghost var Collapses: set<JsonCollapse.Collapse>
    ghost var Frozen: set<JsonCollapse.Collapse>

    /** The registries form a tree: every viewer below this one shows a value
        strictly inside `data`, and `Collapses` is exactly what the
        registries reach. */
    ghost predicate Valid()
      reads this, Repr
      decreases data
    {
      this in Repr &&
      collapseSet <= Collapses &&
      (forall t :: t in Repr && t != this ==> t.data < data) &&
      (forall s :: s in subViewer ==>
         s.data < data && s in Repr && s.Repr <= Repr && this !in s.Repr &&
         s.Collapses <= Collapses && s.Frozen <= Frozen && s.Valid()) &&
      (forall c :: c in Collapses ==> c in collapseSet || exists s :: s in subViewer && c in s.Collapses)
    }

    /** No section reachable through the registries is frozen, and every
        section in `Frozen` is. */
    ghost predicate Separated()
      reads this
    {
      (forall c :: c in Collapses ==> !c.freeze) && (forall c :: c in Frozen ==> c.freeze)
    }

    /** Nothing rendered yet: both registries empty. */
    ghost predicate Unrendered()
      reads this
    {
      collapseSet == {} && subViewer == {} && Repr == {this} && Collapses == {} && Frozen == {}
    }

    /** A viewer bound to `v`, not yet rendered. */
    constructor (v: Value)
      ensures Valid() && Separated() && Unrendered() && data == v
    {
      data := v;
      collapseSet, subViewer := {}, {};
      Repr, Collapses, Frozen := {this}, {}, {};
    }

    /** The `ref` callback on a live section. */
    method RefCollapse(e: JsonCollapse.Collapse?)
      modifies this`collapseSet
      ensures collapseSet == if e == null then old(collapseSet) else old(collapseSet) + {e}
      ensures e in old(collapseSet) ==> collapseSet == old(collapseSet)
    {
      if e != null {
        collapseSet := collapseSet + {e};
      }
    }

    /** The `ref` callback on a child viewer. */
    method RefSubViewer(e: Viewer?)
      modifies this`subViewer
      ensures subViewer == if e == null then old(subViewer) else old(subViewer) + {e}
      ensures e in old(subViewer) ==> subViewer == old(subViewer)
    {
      if e != null {
        subViewer := subViewer + {e};
      }
    }

    /** The two `ref` callbacks of one live section and its child viewer,
        with the ghost bookkeeping that follows them. */
    method Register(c: JsonCollapse.Collapse, child: Viewer)
      requires Valid() && child.Valid() && Separated() && child.Separated()
      requires !c.freeze && child.data < data
      modifies this`collapseSet, this`subViewer, this`Repr, this`Collapses, this`Frozen
      ensures Valid() && Separated()
      ensures collapseSet == old(collapseSet) + {c} && subViewer == old(subViewer) + {child}
      ensures Collapses == old(Collapses) + ({c} + old(child.Collapses))
      ensures Frozen == old(Frozen) + old(child.Frozen) && Repr == old(Repr) + old(child.Repr)
    {
      RefCollapse(c);
      RefSubViewer(child);
      Collapses, Frozen, Repr := Collapses + ({c} + child.Collapses), Frozen + child.Frozen, Repr + child.Repr;
      StillValid(child);
      GrowKeepsValid(this);
    }

    /** The bookkeeping of a rendering that has reached entry `i`. */
    ghost predicate MountedUpTo(i: nat, outside: set<JsonCollapse.Collapse>, sections: seq<JsonCollapse.Collapse>, viewers: seq<Viewer>)
      reads this, Repr
    {
      Valid() && Separated() && Listed(data, i, collapseSet, subViewer, Collapses, outside, sections, viewers)
    }

    /** Before any entry is rendered the bookkeeping is empty. */
    lemma MountStart(outside: set<JsonCollapse.Collapse>)
      requires Valid() && Separated() && Unrendered()
      ensures MountedUpTo(0, outside, [], [])
    {
    }

    /** The first rendering of this viewer and, through the child viewers it
        creates, of the whole tree below it: every entry gets a section, and
        each composite entry's live section and child viewer are registered.
        `sections` and `viewers` list the registered elements in entry order:
        the registries hold exactly the listed elements, there are as many of
        them as composite entries, so none is listed twice (`NoRepeats`), and
        the `k`-th child viewer is bound to the value of the `k`-th composite
        entry. `outside` is any set of sections that exist before the call:
        none of the sections the new tree reaches is among them. */
    method Mount(ghost outside: set<JsonCollapse.Collapse>) returns (ghost sections: seq<JsonCollapse.Collapse>, ghost viewers: seq<Viewer>)
      requires Valid() && Separated() && Unrendered()
      modifies this`collapseSet, this`subViewer, this`Repr, this`Collapses, this`Frozen
      decreases data, 2
      ensures Valid() && Separated()
      ensures collapseSet == Elements(sections) && subViewer == Elements(viewers)
      ensures |collapseSet| == |subViewer| == |sections| == |viewers| == CompositesFrom(data, 0)
      ensures Bound(viewers) == CompositeChildren(data, |Entries(data)|)
      ensures Collapses !! outside && |Collapses| == Sections(data)
    {
      sections, viewers := [], [];
      var i := 0;
      MountStart(outside);
      while i < |Entries(data)|
        invariant MountedUpTo(i, outside, sections, viewers)
      {
        ghost var added;
        added, sections, viewers := MountEntry(i, sections, viewers, outside);
        i := i + 1;
      }
      ListedComplete(data, collapseSet, subViewer, Collapses, outside, sections, viewers);
    }

    /** The rendering of entry `i` of this viewer's value: for a composite
        entry a new section and a new child viewer of the entry's value join
        the registries and the end of the lists of registered elements, for a
        primitive entry the registries and the lists stay as they are. */
    method MountEntry(i: nat, ghost sections: seq<JsonCollapse.Collapse>, ghost viewers: seq<Viewer>, ghost outside: set<JsonCollapse.Collapse>)
      returns (ghost added: set<JsonCollapse.Collapse>, ghost sections': seq<JsonCollapse.Collapse>, ghost viewers': seq<Viewer>)
      requires MountedUpTo(i, outside, sections, viewers) && i < |Entries(data)|
      modifies this`collapseSet, this`subViewer, this`Repr, this`Collapses, this`Frozen
      decreases data, 1
      ensures IsObject(Children(data)[i]) ==>
                |sections'| == |sections| + 1 && sections'[..|sections|] == sections && fresh(sections'[|sections|]) &&
                |viewers'| == |viewers| + 1 && viewers'[..|viewers|] == viewers && fresh(viewers'[|viewers|])
      ensures !IsObject(Children(data)[i]) ==> sections' == sections && viewers' == viewers
      ensures MountedUpTo(i + 1, outside, sections', viewers')
      ensures Collapses == old(Collapses) + added && added !! outside
    {
      EntryValueSmaller(data, i);
      var v := Entries(data)[i].1;
      assert v == Children(data)[i];
      ghost var registered, children, collapses := collapseSet, subViewer, Collapses;
      if IsObject(v) {
        var section, child;
        added, section, child := MountComposite(v, outside);
        sections', viewers' := sections + [section], viewers + [child];
        ListedComposite(data, i, registered, children, collapses, outside, sections, viewers, section, child, added);
        assert sections'[..|sections|] == sections && viewers'[..|viewers|] == viewers;
      } else {
        ghost var wrapper := MountPrimitive(v);
        added, sections', viewers' := {}, sections, viewers;
        ListedPrimitive(data, i, registered, children, collapses, outside, sections, viewers);
      }
    }

    /** The rendering of one primitive entry whose value is `v`: a new frozen
        section whose open and close slots each hold an inline viewer of `v`;
        none of them is registered. */
    method MountPrimitive(v: Value) returns (ghost wrapper: JsonCollapse.Collapse)
      requires Valid() && Separated() && v < data
      modifies this`Frozen
      decreases data, 0
      ensures Valid() && Separated()
      ensures fresh(wrapper) && wrapper.freeze && Frozen == old(Frozen) + {wrapper}
    {
      var section := new JsonCollapse.Collapse.Frozen();
      var inOpen := MountViewer(v, {});
      var inClose := MountViewer(v, {});
      Frozen := Frozen + {section};
      GrowKeepsValid(this);
      wrapper := section;
    }

    /** The rendering of one composite entry whose value is `v`: a fresh live
        section and a fresh child viewer of `v`, which renders its own tree,
        both registered. */
    method MountComposite(v: Value, ghost outside: set<JsonCollapse.Collapse>) returns (ghost added: set<JsonCollapse.Collapse>, section: JsonCollapse.Collapse, viewer: Viewer)
      requires Valid() && Separated() && v < data
      modifies this`collapseSet, this`subViewer, this`Repr, this`Collapses, this`Frozen
      decreases data, 0
      ensures Valid() && Separated()
      ensures fresh(section) && fresh(viewer) && viewer.data == v
      ensures collapseSet == old(collapseSet) + {section} && subViewer == old(subViewer) + {viewer}
      ensures |collapseSet| == |old(collapseSet)| + 1 && |subViewer| == |old(subViewer)| + 1
      ensures Collapses == old(Collapses) + added && added !! outside && |Collapses| == |old(Collapses)| + 1 + Sections(v)
    {
      section, viewer := MountSection(v, outside + Collapses);
      StillValid(this);
      ghost var set0, sub0, collapses0 := collapseSet, subViewer, Collapses;
      DisjointUnionSize(set0, {section});
      DisjointUnionSize(sub0, {viewer});
      added := {section} + viewer.Collapses;
      DisjointUnionSize({section}, viewer.Collapses);
      DisjointUnionSize(collapses0, added);
      Register(section, viewer);
    }

    /** `expandAll`: expands every registered section, then every section
        registered below each child viewer. It writes `expand` directly, so no
        section emits a `change` event, and frozen sections are not reached. */
    method ExpandAll()
      requires Valid() && Separated()
      modifies Collapses`expand
      decreases data, 2
      ensures Valid() && Separated()
      ensures forall c :: c in Collapses ==> c.expand && c.events == old(c.events)
      ensures forall c :: c in Frozen ==> c.expand == old(c.expand)
    {
      ExpandRegistered();
      ExpandSubViewers();
    }

    /** `expandAll` is idempotent: started from the state one call leaves,
        with every reachable section expanded, a second call changes no
        section and emits nothing. */
    method ExpandAllAgain()
      requires Valid() && Separated() && forall c :: c in Collapses ==> c.expand
      modifies Collapses`expand
      ensures Valid() && Separated()
      ensures forall c :: c in Collapses ==> c.expand == old(c.expand) && c.events == old(c.events)
    {
      ExpandAll();
    }

    /** The first half of `expandAll`: every section of `collapseSet`. */
    method ExpandRegistered()
      requires Valid()
      modifies collapseSet`expand
      ensures forall c :: c in collapseSet ==> c.expand
    {
      var todo := collapseSet;
      while todo != {}
        invariant todo <= collapseSet
        invariant forall c :: c in collapseSet - todo ==> c.expand
        decreases todo
      {
        var c :| c in todo;
        c.expand := true;
        todo := todo - {c};
      }
    }

    /** The second half of `expandAll`: `expandAll` on every child viewer. */
    method ExpandSubViewers()
      requires Valid() && Separated()
      modifies Collapses`expand
      decreases data, 1
      ensures forall s :: s in subViewer ==> forall c :: c in s.Collapses ==> c.expand
      ensures forall c :: c in Collapses ==> old(c.expand) ==> c.expand
    {
      var rest := subViewer;
      while rest != {}
        invariant rest <= subViewer
        invariant forall c :: c in Collapses ==> old(c.expand) ==> c.expand
        invariant forall s :: s in subViewer - rest ==> forall c :: c in s.Collapses ==> c.expand
        decreases rest
      {
        var s :| s in rest;
        assert s.Separated();
        s.ExpandAll();
        rest := rest - {s};
      }
    }

    /** `collpaseAll` (so spelled in the element's interface): the same walk,
        collapsing every section it reaches. */
    method CollpaseAll()
      requires Valid() && Separated()
      modifies Collapses`expand
      decreases data, 2
      ensures Valid() && Separated()
      ensures forall c :: c in Collapses ==> !c.expand && c.events == old(c.events)
      ensures forall c :: c in Frozen ==> c.expand == old(c.expand)
    {
      CollapseRegistered();
      CollapseSubViewers();
    }

    /** `collpaseAll` is idempotent: started from the state one call leaves,
        with every reachable section collapsed, a second call changes no
        section and emits nothing. */
    method CollpaseAllAgain()
      requires Valid() && Separated() && forall c :: c in Collapses ==> !c.expand
      modifies Collapses`expand
      ensures Valid() && Separated()
      ensures forall c :: c in Collapses ==> c.expand == old(c.expand) && c.events == old(c.events)
    {
      CollpaseAll();
    }

    /** The first half of `collpaseAll`: every section of `collapseSet`. */
    method CollapseRegistered()
      requires Valid()
      modifies collapseSet`expand
      ensures forall c :: c in collapseSet ==> !c.expand
    {
      var todo := collapseSet;
      while todo != {}
        invariant todo <= collapseSet
        invariant forall c :: c in collapseSet - todo ==> !c.expand
        decreases todo
      {
        var c :| c in todo;
        c.expand := false;
        todo := todo - {c};
      }
    }

    /** The second half of `collpaseAll`: `collpaseAll` on every child viewer. */
    method CollapseSubViewers()
      requires Valid() && Separated()
      modifies Collapses`expand
      decreases data, 1
      ensures forall s :: s in subViewer ==> forall c :: c in s.Collapses ==> !c.expand
      ensures forall c :: c in Collapses ==> !old(c.expand) ==> !c.expand
    {
      var rest := subViewer;
      while rest != {}
        invariant rest <= subViewer
        invariant forall c :: c in Collapses ==> !old(c.expand) ==> !c.expand
        invariant forall s :: s in subViewer - rest ==> forall c :: c in s.Collapses ==> !c.expand
        decreases rest
      {
        var s :| s in rest;
        assert s.Separated();
        s.CollpaseAll();
        rest := rest - {s};
      }
    }

    /** `disconnectedCallback`: both registries are emptied. */
    method DisconnectedCallback()
      requires Valid() && Separated()
      modifies this`collapseSet, this`subViewer, this`Repr, this`Collapses
      ensures Valid() && Separated() && collapseSet == {} && subViewer == {} && Collapses == {}
    {
      collapseSet := {};
      subViewer := {};
      Repr, Collapses := {this}, {};
    }

    /** Once disconnected, `expandAll` and `collpaseAll` reach no section:
        none that was registered before, and no frozen one, changes. */
    method BulkAfterDisconnect()
      requires Valid() && Separated()
      modifies this`collapseSet, this`subViewer, this`Repr, this`Collapses
      ensures Valid() && Separated() && collapseSet == {} && subViewer == {}
      ensures forall c :: c in old(Collapses) || c in Frozen ==> c.expand == old(c.expand) && c.events == old(c.events)
    {
      DisconnectedCallback();
      ExpandAll();
      CollpaseAll();
    }
  }

  /** A viewer none of whose footprint changed is still valid. */
  twostate lemma StillValid(v: Viewer)
    requires old(v.Valid()) && unchanged(old(v.Repr))
    ensures v.Valid()
  {
  }

  /** A valid viewer that only gains registered sections and valid child
      viewers below it, while every other viewer of its tree is left alone,
      stays valid. */
  twostate lemma GrowKeepsValid(v: Viewer)
    requires old(v.Valid()) && unchanged(old(v.Repr) - {v})
    requires old(v.collapseSet) <= v.collapseSet <= v.Collapses && old(v.subViewer) <= v.subViewer
    requires old(v.Collapses) <= v.Collapses && old(v.Frozen) <= v.Frozen && old(v.Repr) <= v.Repr
    requires forall s :: s in v.subViewer - old(v.subViewer) ==>
               s.data < v.data && s in v.Repr && s.Repr <= v.Repr && v !in s.Repr &&
               s.Collapses <= v.Collapses && s.Frozen <= v.Frozen && s.Valid()
    requires forall t :: t in v.Repr - old(v.Repr) ==> t.data < v.data
    requires forall c :: c in v.Collapses - old(v.Collapses) ==>
               c in v.collapseSet || exists s :: s in v.subViewer && c in s.Collapses
    ensures v.Valid()
  {
    forall s | s in old(v.subViewer) ensures s.Valid() {
      StillValid(s);
    }
  }

  /** A child `json-viewer` element bound to `v`, created and rendered for
      the first time; nothing that existed before is touched. */
  method MountViewer(v: Value, ghost outside: set<JsonCollapse.Collapse>) returns (child: Viewer)
    decreases v, 3
    ensures fresh(child) && child.data == v
    ensures child.Valid() && child.Separated()
    ensures child.Collapses !! outside && |child.Collapses| == Sections(v)
  {
    child := new Viewer(v);
    ghost var sections, viewers := child.Mount(outside);
  }

  /** A live section together with the child viewer of `v` it holds, both
      created for this entry and the child rendered for the first time. */
  method MountSection(v: Value, ghost outside: set<JsonCollapse.Collapse>) returns (section: JsonCollapse.Collapse, child: Viewer)
    decreases v, 4
    ensures fresh(section) && !section.freeze && fresh(child) && child.data == v
    ensures child.Valid() && child.Separated()
    ensures section !in outside && child.Collapses !! outside && section !in child.Collapses
    ensures |child.Collapses| == Sections(v)
  {
    section := new JsonCollapse.Collapse();
    child := MountViewer(v, outside + {section});
  }
}
