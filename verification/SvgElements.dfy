/** Element callbacks: the attribute stack pushed and popped by nested elements, and the transform
    each shape is stored with. */
module SvgElements {
  import opened SvgGeometry
  import opened SvgTransform

  const MAX_ATTR := 128

  /** An element name, as far as the stack is concerned. Shapes are path, rect, circle and so on, and draw when they
      store a path; paint servers are gradients and their stops. */
  datatype Name = GroupName | ShapeName(draws: bool) | SvgName | PaintName | DefsName | OtherName

  /** A callback, with the entries of all transform attributes and properties of the element, in order. */
  datatype Event = StartElement(name: Name, transform: seq<Xform>) | EndElement(name: Name)

  /** The transforms on the stack, the index of its head, and the transforms of the shapes stored. */
  datatype Stack = Stack(attr: seq<Xform>, head: nat, defs: bool, shapes: seq<Xform>)

  predicate Valid(s: Stack) {
    |s.attr| == MAX_ATTR && s.head < MAX_ATTR
  }

  function Push(s: Stack): (r: Stack)
    requires Valid(s)
    ensures Valid(r)
  {
    if s.head < MAX_ATTR - 1 then s.(head := s.head + 1, attr := s.attr[s.head + 1 := s.attr[s.head]]) else s
  }

  function Pop(s: Stack): Stack {
    if s.head > 0 then s.(head := s.head - 1) else s
  }

  /** The "transform" attribute premultiplies the transform on top. */
  function Premultiply(s: Stack, transform: seq<Xform>): (r: Stack)
    requires Valid(s)
    ensures Valid(r)
  {
    s.(attr := s.attr[s.head := Then(Compose(transform), s.attr[s.head])])
  }

  /** A shape is drawn between a push and a pop. */
  function Draw(s: Stack, draws: bool, transform: seq<Xform>): (r: Stack)
    requires Valid(s)
    ensures Valid(r)
  {
    var t := Premultiply(Push(s), transform);
    Pop(if draws then t.(shapes := t.shapes + [t.attr[t.head]]) else t)
  }

  /** Only groups and shapes push. The other elements whose attributes are read write to the top as it is, and paint
      servers do so inside defs too. */
  function Handle(s: Stack, e: Event): (r: Stack)
    requires Valid(s)
    ensures Valid(r)
  {
    match e
    case StartElement(name, transform) =>
      if s.defs then (if name.PaintName? then Premultiply(s, transform) else s)
      else (match name
            case GroupName => Premultiply(Push(s), transform)
            case ShapeName(draws) => Draw(s, draws, transform)
            case SvgName => Premultiply(s, transform)
            case PaintName => Premultiply(s, transform)
            case DefsName => s.(defs := true)
            case OtherName => s)
    case EndElement(name) =>
      match name
      case GroupName => Pop(s)
      case DefsName => s.(defs := false)
      case _ => s
  }

  function HandleAll(s: Stack, events: seq<Event>): (r: Stack)
    requires Valid(s)
    ensures Valid(r)
    decreases |events|
  {
    if events == [] then s else HandleAll(Handle(s, events[0]), events[1..])
  }

  lemma {:induction false} HandleAppend(s: Stack, a: seq<Event>, b: seq<Event>)
    requires Valid(s)
    ensures HandleAll(s, a + b) == HandleAll(HandleAll(s, a), b)
    decreases |a|
  {
    hide Handle;
    if a == [] {
      assert a + b == b;
    } else {
      HandleAppend(Handle(s, a[0]), a[1..], b);
      assert (a + b)[0] == a[0] && (a + b)[1..] == a[1..] + b;
    }
  }

  // ---------------------------------------------------------------- documents

  datatype Node = Node(name: Name, transform: seq<Xform>, children: seq<Node>)

  function NodeEvents(n: Node): seq<Event>
    decreases n, 0
  {
    [StartElement(n.name, n.transform)] + Events(n.children) + [EndElement(n.name)]
  }

  function Events(nodes: seq<Node>): seq<Event>
    decreases nodes, 1
  {
    if nodes == [] then [] else NodeEvents(nodes[0]) + Events(nodes[1..])
  }

  lemma HandleNode(s: Stack, n: Node)
    requires Valid(s)
    ensures HandleAll(s, NodeEvents(n))
         == Handle(HandleAll(Handle(s, StartElement(n.name, n.transform)), Events(n.children)), EndElement(n.name))
  {
    hide Handle;
    var first, middle, last := StartElement(n.name, n.transform), Events(n.children), EndElement(n.name);
    HandleAppend(s, [first] + middle, [last]);
    HandleAppend(s, [first], middle);
    HandleOne(s, first);
    HandleOne(HandleAll(Handle(s, first), middle), last);
  }

  lemma HandleOne(s: Stack, e: Event)
    requires Valid(s)
    ensures HandleAll(s, [e]) == Handle(s, e)
  {
    hide Handle;
    assert [e][1..] == [];
  }

  lemma HandleNodes(s: Stack, nodes: seq<Node>)
    requires Valid(s) && nodes != []
    ensures HandleAll(s, Events(nodes)) == HandleAll(HandleAll(s, NodeEvents(nodes[0])), Events(nodes[1..]))
  {
    HandleAppend(s, NodeEvents(nodes[0]), Events(nodes[1..]));
  }

  // ---------------------------------------------------------------- when the head comes back

  /** The defs flag after the nodes: the end of any defs element clears it, however deep. */
  function Flag(nodes: seq<Node>, defs: bool): bool
    decreases nodes, 1
  {
    if nodes == [] then defs else Flag(nodes[1..], NodeFlag(nodes[0], defs))
  }

  function NodeFlag(n: Node, defs: bool): bool
    decreases n, 0
  {
    !n.name.DefsName? && Flag(n.children, defs)
  }

  /** No group is met while the flag is set, unless there is nothing to pop, and whatever pushes finds room. */
  predicate Fine(nodes: seq<Node>, defs: bool, head: nat)
    decreases nodes, 1
  {
    nodes == [] || (FineNode(nodes[0], defs, head) && Fine(nodes[1..], NodeFlag(nodes[0], defs), head))
  }

  predicate FineNode(n: Node, defs: bool, head: nat)
    decreases n, 0
  {
    match n.name
    case GroupName =>
      if defs then head == 0 && Fine(n.children, true, 0) else head + 1 < MAX_ATTR && Fine(n.children, false, head + 1)
    case ShapeName(_) => (defs || head + 1 < MAX_ATTR) && Fine(n.children, defs, head)
    case DefsName => Fine(n.children, true, head)
    case _ => Fine(n.children, defs, head)
  }

  lemma {:induction false} FalseStays(nodes: seq<Node>)
    ensures !Flag(nodes, false)
    decreases nodes, 1
  {
    if nodes != [] {
      FalseStays(nodes[0].children);
      FalseStays(nodes[1..]);
    }
  }

  /** What a list of nodes does to the head and the flag. */
  ghost predicate HeadIs(s: Stack, t: Stack, fine: bool, flag: bool) {
    t.head <= s.head && t.defs == flag && (s.head >= 1 ==> (t.head == s.head <==> fine))
  }

  lemma {:induction false} HeadFalls(s: Stack, nodes: seq<Node>)
    requires Valid(s)
    ensures HeadIs(s, HandleAll(s, Events(nodes)), Fine(nodes, s.defs, s.head), Flag(nodes, s.defs))
    decreases nodes, 1
  {
    if nodes != [] {
      hide Handle, HandleAll;
      HandleNodes(s, nodes);
      NodeFalls(s, nodes[0]);
      HeadFalls(HandleAll(s, NodeEvents(nodes[0])), nodes[1..]);
    } else {
      NoEvents(s);
    }
  }

  lemma NoEvents(s: Stack)
    requires Valid(s)
    ensures HandleAll(s, []) == s
  {
  }

  lemma {:induction false} NodeFalls(s: Stack, n: Node)
    requires Valid(s)
    ensures HeadIs(s, HandleAll(s, NodeEvents(n)), FineNode(n, s.defs, s.head), NodeFlag(n, s.defs))
    decreases n, 0
  {
    hide HandleAll;
    HandleNode(s, n);
    HeadFalls(Handle(s, StartElement(n.name, n.transform)), n.children);
    FalseStays(n.children);
  }

  /** Well-nested elements never raise the head. They bring it back if and only if it was at the bottom or the place is
      fine, which above the bottom means no group while the flag is set and room for every push. */
  lemma HeadRestoredIff(s: Stack, nodes: seq<Node>)
    requires Valid(s)
    ensures HandleAll(s, Events(nodes)).head <= s.head
    ensures HandleAll(s, Events(nodes)).head == s.head <==> s.head == 0 || Fine(nodes, s.defs, s.head)
  {
    HeadFalls(s, nodes);
  }

  // ---------------------------------------------------------------- what is on top, and what is drawn

  /** The transforms that the nodes leave behind on the top. Svg elements and paint servers change it for all that
      follows on their level, not only inside them; a group takes what is inside it away again, if it was pushed. */
  function Gain(nodes: seq<Node>, defs: bool): seq<Xform>
    decreases nodes, 1
  {
    if nodes == [] then [] else NodeGain(nodes[0], defs) + Gain(nodes[1..], NodeFlag(nodes[0], defs))
  }

  function NodeGain(n: Node, defs: bool): seq<Xform>
    decreases n, 0
  {
    match n.name
    case GroupName => if defs then Gain(n.children, true) else []
    case ShapeName(_) => Gain(n.children, defs)
    case SvgName => (if defs then [] else n.transform) + Gain(n.children, defs)
    case PaintName => n.transform + Gain(n.children, defs)
    case DefsName => Gain(n.children, true)
    case OtherName => Gain(n.children, defs)
  }

  /** For each shape drawn, the transforms from the outermost element to its own; outer are those in force before. */
  function Drawn(nodes: seq<Node>, outer: seq<Xform>, defs: bool): seq<seq<Xform>>
    decreases nodes, 1
  {
    if nodes == [] then []
    else NodeDrawn(nodes[0], outer, defs)
         + Drawn(nodes[1..], outer + NodeGain(nodes[0], defs), NodeFlag(nodes[0], defs))
  }

  function NodeDrawn(n: Node, outer: seq<Xform>, defs: bool): seq<seq<Xform>>
    decreases n, 0
  {
    match n.name
    case GroupName => Drawn(n.children, if defs then outer else outer + n.transform, defs)
    case ShapeName(draws) => (if draws && !defs then [outer + n.transform] else []) + Drawn(n.children, outer, defs)
    case SvgName => Drawn(n.children, if defs then outer else outer + n.transform, defs)
    case PaintName => Drawn(n.children, outer + n.transform, defs)
    case DefsName => Drawn(n.children, outer, true)
    case OtherName => Drawn(n.children, outer, defs)
  }

  function ComposeEach(chains: seq<seq<Xform>>): (r: seq<Xform>)
    ensures |r| == |chains|
  {
    seq(|chains|, i requires 0 <= i < |chains| => Compose(chains[i]))
  }

  lemma ComposeEachAppend(a: seq<seq<Xform>>, b: seq<seq<Xform>>)
    ensures ComposeEach(a + b) == ComposeEach(a) + ComposeEach(b)
  {
  }

  /** From s to t: the slots below the head are the same, outer is composed on top, and chains have been drawn. */
  predicate Stands(s: Stack, t: Stack, outer: seq<Xform>, defs: bool, chains: seq<seq<Xform>>) {
    && Valid(s) && Valid(t) && t.head == s.head && t.defs == defs
    && t.attr[..s.head] == s.attr[..s.head] && t.attr[t.head] == Compose(outer)
    && t.shapes == s.shapes + ComposeEach(chains)
  }

  lemma StandsStill(s: Stack, outer: seq<Xform>)
    requires Valid(s) && s.attr[s.head] == Compose(outer)
    ensures Stands(s, s, outer, s.defs, [])
  {
    assert s.shapes + ComposeEach([]) == s.shapes;
  }

  lemma StandsMeans(s: Stack, t: Stack, outer: seq<Xform>, defs: bool, chains: seq<seq<Xform>>)
    requires Stands(s, t, outer, defs, chains)
    ensures Valid(s) && Valid(t) && t.head == s.head && t.defs == defs && t.attr[t.head] == Compose(outer)
  {
  }

  lemma StandsThen(s: Stack, t: Stack, u: Stack, mid: seq<Xform>, defs: bool, outer: seq<Xform>, flag: bool,
                   a: seq<seq<Xform>>, b: seq<seq<Xform>>)
    requires Stands(s, t, mid, defs, a) && Stands(t, u, outer, flag, b)
    ensures Stands(s, u, outer, flag, a + b)
  {
    ComposeEachAppend(a, b);
    assert s.shapes + (ComposeEach(a) + ComposeEach(b)) == (s.shapes + ComposeEach(a)) + ComposeEach(b);
  }

  lemma PremultiplyStands(s: Stack, outer: seq<Xform>, transform: seq<Xform>)
    requires Valid(s) && s.attr[s.head] == Compose(outer)
    ensures Stands(s, Premultiply(s, transform), outer + transform, s.defs, [])
  {
    ComposeAppend(outer, transform);
    assert s.shapes + ComposeEach([]) == s.shapes;
  }

  /** Whatever happens above a pushed slot, the pop brings back what was on top. */
  lemma PushPop(s: Stack, t: Stack, outer: seq<Xform>, inner: seq<Xform>, defs: bool, chains: seq<seq<Xform>>)
    requires Valid(s) && s.head + 1 < MAX_ATTR && s.attr[s.head] == Compose(outer)
    requires Stands(Push(s), t, inner, defs, chains)
    ensures Stands(s, Pop(t), outer, defs, chains)
  {
    var h, u := s.head, Push(s);
    assert t.attr[..h] == t.attr[..h + 1][..h] == u.attr[..h + 1][..h] == u.attr[..h] == s.attr[..h];
    assert t.attr[h] == t.attr[..h + 1][h] == u.attr[..h + 1][h] == s.attr[h];
  }

  lemma DrawStands(s: Stack, outer: seq<Xform>, draws: bool, transform: seq<Xform>)
    requires Valid(s) && s.head + 1 < MAX_ATTR && s.attr[s.head] == Compose(outer)
    ensures Stands(s, Draw(s, draws, transform), outer, s.defs, if draws then [outer + transform] else [])
  {
    var u := Push(s);
    PremultiplyStands(u, outer, transform);
    var t := Premultiply(u, transform);
    if draws {
      var v := t.(shapes := t.shapes + [t.attr[t.head]]);
      assert ComposeEach([outer + transform]) == [Compose(outer + transform)];
      assert Stands(u, v, outer + transform, s.defs, [outer + transform]);
      PushPop(s, v, outer, outer + transform, s.defs, [outer + transform]);
    } else {
      PushPop(s, t, outer, outer + transform, s.defs, []);
    }
  }

  /** Well-nested elements in a fine place leave the slots below the top as they were and their gain on top, and every
      shape drawn is stored with the composition of its list. */
  lemma {:induction false} NestingStands(s: Stack, nodes: seq<Node>, outer: seq<Xform>)
    requires Valid(s) && s.attr[s.head] == Compose(outer) && Fine(nodes, s.defs, s.head)
    ensures Stands(s, HandleAll(s, Events(nodes)), outer + Gain(nodes, s.defs), Flag(nodes, s.defs),
                   Drawn(nodes, outer, s.defs))
    decreases nodes, 1
  {
    hide Handle, HandleAll, Events, Stands, Compose, Gain, Drawn, Fine, Flag;
    if nodes != [] {
      var n, rest := nodes[0], nodes[1..];
      var mid, flag := outer + NodeGain(n, s.defs), NodeFlag(n, s.defs);
      FirstAndRest(s.head, nodes, outer, s.defs);
      HandleNodes(s, nodes);
      NodeStands(s, n, outer);
      var t := HandleAll(s, NodeEvents(n));
      StandsMeans(s, t, mid, flag, NodeDrawn(n, outer, s.defs));
      NestingStands(t, rest, mid);
      StandsThen(s, t, HandleAll(t, Events(rest)), mid, flag, mid + Gain(rest, flag), Flag(rest, flag),
                 NodeDrawn(n, outer, s.defs), Drawn(rest, mid, flag));
    } else {
      NoNodes(s, outer);
      StandsStill(s, outer);
    }
  }

  lemma FirstAndRest(head: nat, nodes: seq<Node>, outer: seq<Xform>, defs: bool)
    requires nodes != []
    ensures var n, rest := nodes[0], nodes[1..];
            var mid, flag := outer + NodeGain(n, defs), NodeFlag(n, defs);
            && (Fine(nodes, defs, head) <==> FineNode(n, defs, head) && Fine(rest, flag, head))
            && outer + Gain(nodes, defs) == mid + Gain(rest, flag) && Flag(nodes, defs) == Flag(rest, flag)
            && Drawn(nodes, outer, defs) == NodeDrawn(n, outer, defs) + Drawn(rest, mid, flag)
  {
  }

  lemma NoNodes(s: Stack, outer: seq<Xform>)
    requires Valid(s)
    ensures HandleAll(s, Events([])) == s && outer + Gain([], s.defs) == outer
    ensures Flag([], s.defs) == s.defs && Drawn([], outer, s.defs) == []
  {
  }

  lemma {:induction false} NodeStands(s: Stack, n: Node, outer: seq<Xform>)
    requires Valid(s) && s.attr[s.head] == Compose(outer) && FineNode(n, s.defs, s.head)
    ensures Stands(s, HandleAll(s, NodeEvents(n)), outer + NodeGain(n, s.defs), NodeFlag(n, s.defs),
                   NodeDrawn(n, outer, s.defs))
    decreases n, 0
  {
    hide HandleAll, Stands, Premultiply, Push, Pop, Draw, Gain, Drawn, Fine, Events, Compose;
    HandleNode(s, n);
    var t, inner := Handle(s, StartElement(n.name, n.transform)), outer + n.transform;
    Regroup(outer, n.transform, Gain(n.children, s.defs));
    StandsStill(s, outer);
    match n.name {
      case GroupName =>
        if s.defs {
          ChildrenStand(s, s, n.children, outer, []);
          NothingToPop(HandleAll(s, Events(n.children)));
        } else {
          GroupStands(s, n, outer);
        }
      case ShapeName(draws) =>
        if !s.defs { DrawStands(s, outer, draws, n.transform); }
        ChildrenStand(s, t, n.children, outer, if draws && !s.defs then [inner] else []);
        assert [] + Drawn(n.children, outer, s.defs) == Drawn(n.children, outer, s.defs);
      case SvgName =>
        if !s.defs { PremultiplyStands(s, outer, n.transform); }
        ChildrenStand(s, t, n.children, if s.defs then outer else inner, []);
      case PaintName =>
        PremultiplyStands(s, outer, n.transform);
        ChildrenStand(s, t, n.children, inner, []);
      case DefsName =>
        FlagStands(s, s, outer, s.defs, [], true);
        ChildrenStand(s, t, n.children, outer, []);
        FlagStands(s, HandleAll(t, Events(n.children)), outer + Gain(n.children, true), Flag(n.children, true),
                   Drawn(n.children, outer, true), false);
      case OtherName => ChildrenStand(s, s, n.children, outer, []);
    }
  }

  /** Children from t on, after what happened from s to t. */
  lemma {:induction false} ChildrenStand(s: Stack, t: Stack, children: seq<Node>, outer: seq<Xform>,
                                         own: seq<seq<Xform>>)
    requires Stands(s, t, outer, t.defs, own) && Valid(t) && Fine(children, t.defs, t.head)
    ensures Stands(s, HandleAll(t, Events(children)), outer + Gain(children, t.defs), Flag(children, t.defs),
                   if own == [] then Drawn(children, outer, t.defs) else own + Drawn(children, outer, t.defs))
    ensures HandleAll(t, Events(children)).head == s.head
    decreases children, 2
  {
    hide HandleAll, Stands, Gain, Drawn, Fine, Flag;
    StandsMeans(s, t, outer, t.defs, own);
    NestingStands(t, children, outer);
    var u := HandleAll(t, Events(children));
    StandsThen(s, t, u, outer, t.defs, outer + Gain(children, t.defs), Flag(children, t.defs), own,
               Drawn(children, outer, t.defs));
    StandsMeans(t, u, outer + Gain(children, t.defs), Flag(children, t.defs), Drawn(children, outer, t.defs));
    assert own == [] ==> own + Drawn(children, outer, t.defs) == Drawn(children, outer, t.defs);
  }

  lemma {:induction false} GroupStands(s: Stack, n: Node, outer: seq<Xform>)
    requires Valid(s) && s.attr[s.head] == Compose(outer) && n.name.GroupName? && !s.defs && FineNode(n, false, s.head)
    ensures Stands(s, HandleAll(s, NodeEvents(n)), outer, Flag(n.children, false),
                   Drawn(n.children, outer + n.transform, false))
    decreases n.children, 3
  {
    hide HandleAll, Stands, Premultiply, Pop, Gain, Drawn, Fine, Events, Flag, Compose;
    HandleNode(s, n);
    var u, inner := Push(s), outer + n.transform;
    PremultiplyStands(u, outer, n.transform);
    var t := Premultiply(u, n.transform);
    StandsMeans(u, t, inner, false, []);
    ChildrenStand(u, t, n.children, inner, []);
    PushPop(s, HandleAll(t, Events(n.children)), outer, inner + Gain(n.children, false), Flag(n.children, false),
            Drawn(n.children, inner, false));
  }

  lemma NothingToPop(t: Stack)
    requires t.head == 0
    ensures Pop(t) == t
  {
  }

  lemma Regroup(outer: seq<Xform>, transform: seq<Xform>, gain: seq<Xform>)
    ensures (outer + transform) + gain == outer + (transform + gain) && [] + gain == gain && outer + [] == outer
  {
  }

  lemma FlagStands(s: Stack, t: Stack, outer: seq<Xform>, defs: bool, chains: seq<seq<Xform>>, flag: bool)
    requires Stands(s, t, outer, defs, chains)
    ensures Stands(s, t.(defs := flag), outer, flag, chains)
  {
  }

  /** A fine place leaves the slots below the top alone and premultiplies the top by the gain. */
  lemma TopAfter(s: Stack, nodes: seq<Node>)
    requires Valid(s) && Fine(nodes, s.defs, s.head)
    ensures var t := HandleAll(s, Events(nodes));
            && t.head == s.head && t.defs == Flag(nodes, s.defs) && t.attr[..s.head] == s.attr[..s.head]
            && t.attr[s.head] == Then(Compose(Gain(nodes, s.defs)), s.attr[s.head])
  {
    hide Then, Fine;
    var outer := [s.attr[s.head]];
    ComposeOne(s.attr[s.head]);
    NestingStands(s, nodes, outer);
    ComposeAppend(outer, Gain(nodes, s.defs));
  }

  lemma ComposeOne(x: Xform)
    ensures Compose([x]) == x
  {
    assert [x][..0] == [];
    ThenIdentity(x);
  }

  /** The transforms of the svg elements and paint servers that are met while the head is at the bottom. */
  function Spilt(head: nat, defs: bool, events: seq<Event>): seq<Xform>
    decreases |events|
  {
    if events == [] then []
    else
      var (head', defs') := Moves(head, defs, events[0]);
      SpiltBy(head, defs, events[0]) + Spilt(head', defs', events[1..])
  }

  function SpiltBy(head: nat, defs: bool, e: Event): seq<Xform> {
    if head == 0 && e.StartElement? && (e.name.PaintName? || (e.name.SvgName? && !defs)) then e.transform else []
  }

  /** What a callback does to the head and the flag. */
  function Moves(head: nat, defs: bool, e: Event): (nat, bool) {
    match e
    case StartElement(name, _) =>
      if defs then (head, true)
      else if name.GroupName? then (if head < MAX_ATTR - 1 then head + 1 else head, false)
      else if name.ShapeName? && head == MAX_ATTR - 1 then (head - 1, false)
      else (head, name.DefsName?)
    case EndElement(name) =>
      (if name.GroupName? && head > 0 then head - 1 else head, defs && !name.DefsName?)
  }

  /** In every run of callbacks, well-nested or not, the bottom slot is premultiplied by just those transforms. */
  lemma {:induction false} BottomAfter(s: Stack, events: seq<Event>)
    requires Valid(s)
    ensures HandleAll(s, events).attr[0] == Then(Compose(Spilt(s.head, s.defs, events)), s.attr[0])
    decreases |events|
  {
    hide Then, Compose, Handle, Moves, SpiltBy;
    if events == [] {
      ComposeNone(s.attr[0]);
    } else {
      var e, t := events[0], Handle(s, events[0]);
      BottomStep(s, e);
      BottomAfter(t, events[1..]);
      ComposeBelow(SpiltBy(s.head, s.defs, e), Spilt(t.head, t.defs, events[1..]), s.attr[0]);
    }
  }

  lemma BottomStep(s: Stack, e: Event)
    requires Valid(s)
    ensures var t := Handle(s, e);
            && t.attr[0] == Then(Compose(SpiltBy(s.head, s.defs, e)), s.attr[0])
            && (t.head, t.defs) == Moves(s.head, s.defs, e)
  {
    hide Then, Compose;
    ComposeNone(s.attr[0]);
  }

  lemma ComposeNone(x: Xform)
    ensures Then(Compose([]), x) == x
  {
    ThenIdentity(x);
  }

  lemma ComposeBelow(a: seq<Xform>, b: seq<Xform>, x: Xform)
    ensures Then(Compose(a + b), x) == Then(Compose(b), Then(Compose(a), x))
  {
    hide Then, Compose;
    ComposeAppend(a, b);
    ThenAssociates(Compose(b), Compose(a), x);
  }

  /** The head and all slots up to it come back if and only if, at the bottom, what is spilt there changes nothing, and
      above it, the place is fine and the gain changes nothing. */
  lemma StackRestoredIff(s: Stack, nodes: seq<Node>)
    requires Valid(s)
    ensures var t, h := HandleAll(s, Events(nodes)), s.head;
            t.head == h && t.attr[..h + 1] == s.attr[..h + 1] <==>
            if h == 0 then Then(Compose(Spilt(0, s.defs, Events(nodes))), s.attr[0]) == s.attr[0]
            else Fine(nodes, s.defs, h) && Then(Compose(Gain(nodes, s.defs)), s.attr[h]) == s.attr[h]
  {
    hide Then, Fine, Compose, HandleAll, Events, Gain, Spilt;
    HeadRestoredIff(s, nodes);
    BottomAfter(s, Events(nodes));
    if Fine(nodes, s.defs, s.head) { TopAfter(s, nodes); }
    SlotsAndTop(HandleAll(s, Events(nodes)).attr, s.attr, s.head);
  }

  lemma SlotsAndTop(a: seq<Xform>, b: seq<Xform>, head: nat)
    requires head < |a| == |b|
    ensures a[..head + 1] == b[..head + 1] <==> a[..head] == b[..head] && a[head] == b[head]
  {
    assert a[..head + 1] == a[..head] + [a[head]];
    assert b[..head + 1] == b[..head] + [b[head]];
  }

  function Initial(): (s: Stack)
    ensures Valid(s)
  {
    Stack(seq(MAX_ATTR, i => IDENTITY), 0, false, [])
  }

  /** The transform lists of the shapes of a document. */
  function Chains(nodes: seq<Node>): seq<seq<Xform>> {
    Drawn(nodes, [], false)
  }

  /** A shape's stored transform maps a point by the innermost transform first and the outermost last. */
  lemma ShapesMapThroughAncestors(nodes: seq<Node>, i: nat, p: Point)
    requires Fine(nodes, false, 0) && i < |Chains(nodes)|
    ensures var s := HandleAll(Initial(), Events(nodes));
            && s.shapes == ComposeEach(Chains(nodes))
            && XformPoint(s.shapes[i], p) == MapThrough(Chains(nodes)[i], p)
  {
    hide Fine, HandleAll, Compose;
    NothingComposed();
    NestingStands(Initial(), nodes, []);
    ComposeMaps(Chains(nodes)[i], p);
  }

  lemma NothingComposed()
    ensures Compose([]) == IDENTITY
  {
  }

  // ---------------------------------------------------------------- documents as SVG means them

  /** SVG 1.1 section 7.5: the lists of the ancestors of each shape outside defs, and its own. */
  function Nested(nodes: seq<Node>, outer: seq<Xform>, inside: bool): seq<seq<Xform>>
    decreases nodes, 1
  {
    if nodes == [] then [] else NodeNested(nodes[0], outer, inside) + Nested(nodes[1..], outer, inside)
  }

  function NodeNested(n: Node, outer: seq<Xform>, inside: bool): seq<seq<Xform>>
    decreases n, 0
  {
    var inner := if n.name.GroupName? || n.name.SvgName? then outer + n.transform else outer;
    (if n.name.ShapeName? && n.name.draws && !inside then [outer + n.transform] else [])
    + Nested(n.children, inner, inside || n.name.DefsName?)
  }

  /** A shape that draws stands inside defs where the flag has been cleared. */
  predicate Escapes(nodes: seq<Node>, inside: bool, flag: bool)
    decreases nodes, 1
  {
    nodes != [] && (NodeEscapes(nodes[0], inside, flag) || Escapes(nodes[1..], inside, NodeFlag(nodes[0], flag)))
  }

  predicate NodeEscapes(n: Node, inside: bool, flag: bool)
    decreases n, 0
  {
    || (n.name.ShapeName? && n.name.draws && inside && !flag)
    || Escapes(n.children, inside || n.name.DefsName?, flag || n.name.DefsName?)
  }

  /** What stands inside defs is not drawn if and only if nothing escapes; everything else is drawn in any case. */
  lemma DefsHideIff(s: Stack, nodes: seq<Node>)
    requires Valid(s) && !s.defs
    ensures var n := |HandleAll(s, Events(nodes)).shapes| - |s.shapes|;
            n >= |Nested(nodes, [], false)| && (n == |Nested(nodes, [], false)| <==> !Escapes(nodes, false, false))
  {
    ShapeCount(s, nodes, []);
    CountsAgreeIff(nodes, [], [], false, false);
  }

  /** How many shapes are stored depends on nothing but the flag. */
  lemma {:induction false} ShapeCount(s: Stack, nodes: seq<Node>, outer: seq<Xform>)
    requires Valid(s)
    ensures |HandleAll(s, Events(nodes)).shapes| == |s.shapes| + |Drawn(nodes, outer, s.defs)|
    decreases nodes, 1
  {
    if nodes != [] {
      hide Handle, HandleAll;
      HandleNodes(s, nodes);
      NodeFalls(s, nodes[0]);
      NodeShapeCount(s, nodes[0], outer);
      ShapeCount(HandleAll(s, NodeEvents(nodes[0])), nodes[1..], outer + NodeGain(nodes[0], s.defs));
    } else {
      NoEvents(s);
    }
  }

  lemma {:induction false} NodeShapeCount(s: Stack, n: Node, outer: seq<Xform>)
    requires Valid(s)
    ensures |HandleAll(s, NodeEvents(n)).shapes| == |s.shapes| + |NodeDrawn(n, outer, s.defs)|
    decreases n, 0
  {
    hide HandleAll, Gain, Drawn;
    HandleNode(s, n);
    var t, inner := Handle(s, StartElement(n.name, n.transform)), outer + n.transform;
    match n.name {
      case GroupName => ShapeCount(t, n.children, if s.defs then outer else inner);
      case ShapeName(_) => ShapeCount(t, n.children, outer);
      case SvgName => ShapeCount(t, n.children, if s.defs then outer else inner);
      case PaintName => ShapeCount(t, n.children, inner);
      case DefsName => ShapeCount(t, n.children, outer);
      case OtherName => ShapeCount(t, n.children, outer);
    }
  }

  lemma {:induction false} CountsAgreeIff(nodes: seq<Node>, actual: seq<Xform>, outer: seq<Xform>, inside: bool,
                                          flag: bool)
    requires flag ==> inside
    ensures |Drawn(nodes, actual, flag)| >= |Nested(nodes, outer, inside)|
    ensures |Drawn(nodes, actual, flag)| == |Nested(nodes, outer, inside)| <==> !Escapes(nodes, inside, flag)
    decreases nodes, 1
  {
    if nodes != [] {
      var n := nodes[0];
      FalseStays(n.children);
      NodeCountsAgreeIff(n, actual, outer, inside, flag);
      CountsAgreeIff(nodes[1..], actual + NodeGain(n, flag), outer, inside, NodeFlag(n, flag));
    }
  }

  lemma {:induction false} NodeCountsAgreeIff(n: Node, actual: seq<Xform>, outer: seq<Xform>, inside: bool, flag: bool)
    requires flag ==> inside
    ensures |NodeDrawn(n, actual, flag)| >= |NodeNested(n, outer, inside)|
    ensures |NodeDrawn(n, actual, flag)| == |NodeNested(n, outer, inside)| <==> !NodeEscapes(n, inside, flag)
    decreases n, 0
  {
    hide Drawn, Nested, Escapes;
    var below := if n.name.GroupName? || n.name.SvgName? then outer + n.transform else outer;
    var inner := if ((n.name.GroupName? || n.name.SvgName?) && !flag) || n.name.PaintName? then actual + n.transform
                 else actual;
    CountsAgreeIff(n.children, inner, below, inside || n.name.DefsName?, flag || n.name.DefsName?);
  }

  /** A shape outside defs is met after a transform has leaked onto its level. */
  predicate Stained(nodes: seq<Node>, leaked: bool)
    decreases nodes, 1
  {
    nodes != [] && (NodeStained(nodes[0], leaked) || Stained(nodes[1..], leaked || NodeGain(nodes[0], false) != []))
  }

  predicate NodeStained(n: Node, leaked: bool)
    decreases n, 0
  {
    match n.name
    case ShapeName(draws) => (draws && leaked) || Stained(n.children, leaked)
    case PaintName => Stained(n.children, leaked || n.transform != [])
    case DefsName => false
    case _ => Stained(n.children, leaked)
  }

  /** Every shape is drawn with its own transforms and those of its ancestors, and no other shape is, if and only if
      none escapes from defs and none is met after a leak. */
  lemma AncestorsIff(nodes: seq<Node>)
    ensures Chains(nodes) == Nested(nodes, [], false) <==> !Escapes(nodes, false, false) && !Stained(nodes, false)
  {
    CountsAgreeIff(nodes, [], [], false, false);
    if !Escapes(nodes, false, false) { ListsAgreeIff(nodes, [], []); }
  }

  /** actual is the list in force, outer that of the ancestors; they differ if and only if something has leaked. */
  lemma {:induction false} ListsAgreeIff(nodes: seq<Node>, actual: seq<Xform>, outer: seq<Xform>)
    requires !Escapes(nodes, false, false)
    requires |actual| >= |outer| && (|actual| == |outer| ==> actual == outer)
    ensures Drawn(nodes, actual, false) == Nested(nodes, outer, false) <==> !Stained(nodes, |actual| > |outer|)
    decreases nodes, 1
  {
    if nodes != [] {
      var n, gain := nodes[0], NodeGain(nodes[0], false);
      FalseStays(n.children);
      assert gain == [] ==> actual + gain == actual;
      NodeListsAgreeIff(n, actual, outer);
      NodeCountsAgreeIff(n, actual, outer, false, false);
      ListsAgreeIff(nodes[1..], actual + gain, outer);
      SameParts(NodeDrawn(n, actual, false), Drawn(nodes[1..], actual + gain, false), NodeNested(n, outer, false),
                Nested(nodes[1..], outer, false));
    }
  }

  lemma {:induction false} NodeListsAgreeIff(n: Node, actual: seq<Xform>, outer: seq<Xform>)
    requires !NodeEscapes(n, false, false)
    requires |actual| >= |outer| && (|actual| == |outer| ==> actual == outer)
    ensures NodeDrawn(n, actual, false) == NodeNested(n, outer, false) <==> !NodeStained(n, |actual| > |outer|)
    decreases n, 0
  {
    hide Drawn, Nested, Escapes, Stained;
    var t := n.transform;
    match n.name {
      case GroupName => ListsAgreeIff(n.children, actual + t, outer + t);
      case ShapeName(draws) =>
        ListsAgreeIff(n.children, actual, outer);
        if draws {
          SameParts([actual + t], Drawn(n.children, actual, false), [outer + t], Nested(n.children, outer, false));
          assert |actual + t| - |actual| == |outer + t| - |outer|;
        }
      case SvgName => ListsAgreeIff(n.children, actual + t, outer + t);
      case PaintName =>
        assert t == [] ==> actual + t == actual;
        ListsAgreeIff(n.children, actual + t, outer);
      case DefsName =>
        CountsAgreeIff(n.children, actual, outer, true, true);
        NothingNested(n.children, outer);
      case OtherName => ListsAgreeIff(n.children, actual, outer);
    }
    assert [] + Nested(n.children, outer, false) == Nested(n.children, outer, false);
  }

  lemma SameParts(a: seq<seq<Xform>>, b: seq<seq<Xform>>, c: seq<seq<Xform>>, d: seq<seq<Xform>>)
    requires |a| == |c|
    ensures a + b == c + d <==> a == c && b == d
  {
    assert (a + b)[..|a|] == a && (a + b)[|a|..] == b && (c + d)[..|a|] == c && (c + d)[|a|..] == d;
  }

  lemma {:induction false} NothingNested(nodes: seq<Node>, outer: seq<Xform>)
    ensures Nested(nodes, outer, true) == []
    decreases nodes, 1
  {
    if nodes != [] {
      var n := nodes[0];
      NothingNested(n.children, if n.name.GroupName? || n.name.SvgName? then outer + n.transform else outer);
      NothingNested(nodes[1..], outer);
    }
  }

  /** Such a document, in a fine place, is stored with exactly the transforms of each shape and its ancestors. */
  lemma DocumentNests(nodes: seq<Node>)
    requires Fine(nodes, false, 0) && !Escapes(nodes, false, false) && !Stained(nodes, false)
    ensures HandleAll(Initial(), Events(nodes)).shapes == ComposeEach(Nested(nodes, [], false))
  {
    hide Fine, HandleAll, Compose, Escapes, Stained;
    NothingComposed();
    NestingStands(Initial(), nodes, []);
    AncestorsIff(nodes);
  }

  // ---------------------------------------------------------------- where nesting breaks

  /** At the full stack a push does nothing: the group transforms its parent and its end tag pops the parent. */
  lemma SaturatedGroup(s: Stack, transform: seq<Xform>)
    requires Valid(s) && !s.defs && s.head == 127
    ensures var t := HandleAll(s, NodeEvents(Node(GroupName, transform, [])));
            t.head == s.head - 1 && t.attr[s.head] == Then(Compose(transform), s.attr[s.head])
  {
    HandleNode(s, Node(GroupName, transform, []));
  }

  /** A shape there does the same. */
  lemma SaturatedShape(s: Stack, draws: bool, transform: seq<Xform>)
    requires Valid(s) && !s.defs && s.head == 127
    ensures var t := HandleAll(s, NodeEvents(Node(ShapeName(draws), transform, [])));
            t.head == s.head - 1 && t.attr[s.head] == Then(Compose(transform), s.attr[s.head])
  {
    HandleNode(s, Node(ShapeName(draws), transform, []));
  }

  /** Inside defs a group's start tag is skipped but its end tag pops: each such group costs one level. */
  lemma {:induction false} GroupsInDefsPop(s: Stack, n: nat)
    requires Valid(s) && s.defs
    ensures HandleAll(s, Events(seq(n, _ => Node(GroupName, [], []))))
         == s.(head := if n <= s.head then s.head - n else 0)
    decreases n
  {
    var nodes := seq(n, _ => Node(GroupName, [], []));
    if n > 0 {
      assert nodes[1..] == seq(n - 1, _ => Node(GroupName, [], []));
      HandleNodes(s, nodes);
      HandleNode(s, nodes[0]);
      GroupsInDefsPop(Pop(s), n - 1);
    }
  }

  /** The end of an inner defs element ends the outer one as well: what follows is drawn. */
  lemma NestedDefsDraw(s: Stack, transform: seq<Xform>)
    requires Valid(s) && !s.defs
    ensures var shape := Node(ShapeName(true), transform, []);
            |HandleAll(s, NodeEvents(Node(DefsName, [], [Node(DefsName, [], []), shape]))).shapes| == |s.shapes| + 1
  {
    var inner, shape := Node(DefsName, [], []), Node(ShapeName(true), transform, []);
    var both := [inner, shape];
    var t := s.(defs := true);
    HandleNode(s, Node(DefsName, [], both));
    HandleNodes(t, both);
    HandleNode(t, inner);
    assert both[1..] == [shape];
    HandleNodes(s, [shape]);
    HandleNode(s, shape);
  }

  // ---------------------------------------------------------------- the callbacks

  class ElementParser {
    const attr: array<Xform>
    var attrHead: nat
    var defsFlag: bool
    var shapes: seq<Xform>

    ghost predicate IsValid()
      reads this
    {
      attr.Length == MAX_ATTR && attrHead < MAX_ATTR
    }

    ghost function State(): Stack
      reads this, attr
    {
      Stack(attr[..], attrHead, defsFlag, shapes)
    }

    constructor ()
      ensures IsValid() && fresh(attr) && State() == Initial()
    {
      attr := new Xform[MAX_ATTR](_ => IDENTITY);
      attrHead, defsFlag, shapes := 0, false, [];
      new;
      assert attr[..] == Initial().attr;
    }

    method PushAttr()
      requires IsValid()
      modifies this`attrHead, attr
      ensures IsValid() && State() == Push(old(State()))
    {
      if attrHead < MAX_ATTR - 1 {
        attrHead := attrHead + 1;
        attr[attrHead] := attr[attrHead - 1];
      }
    }

    method PopAttr()
      requires IsValid()
      modifies this`attrHead
      ensures IsValid() && State() == Pop(old(State()))
    {
      if attrHead > 0 {
        attrHead := attrHead - 1;
      }
    }

    method ParseTransform(transform: seq<Xform>)
      requires IsValid()
      modifies attr
      ensures IsValid() && State() == Premultiply(old(State()), transform)
    {
      var xform := IDENTITY;
      var i := 0;
      while i < |transform|
        invariant 0 <= i <= |transform|
        invariant xform == Compose(transform[..i])
        modifies {}
      {
        assert transform[..i + 1][..i] == transform[..i];
        xform := Then(transform[i], xform);
        i := i + 1;
      }
      assert transform[..i] == transform;
      attr[attrHead] := Then(xform, attr[attrHead]);
    }

    method Start(name: Name, transform: seq<Xform>)
      requires IsValid()
      modifies this, attr
      ensures IsValid() && State() == Handle(old(State()), StartElement(name, transform))
    {
      if defsFlag {
        if name == PaintName { ParseTransform(transform); }
        return;
      }
      match name {
        case GroupName =>
          PushAttr();
          ParseTransform(transform);
        case ShapeName(draws) =>
          PushAttr();
          ParseTransform(transform);
          if draws { shapes := shapes + [attr[attrHead]]; }
          PopAttr();
        case PaintName => ParseTransform(transform);
        case DefsName => defsFlag := true;
        case SvgName => ParseTransform(transform);
        case OtherName =>
      }
    }

    method End(name: Name)
      requires IsValid()
      modifies this
      ensures IsValid() && State() == Handle(old(State()), EndElement(name))
    {
      match name {
        case GroupName => PopAttr();
        case DefsName => defsFlag := false;
        case _ =>
      }
    }
  }
}
