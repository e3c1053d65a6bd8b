/** The seat-map scan: one pass over opening tags that never looks at a closing tag, against the nested
    evaluation of transforms that SVG 1.1 (sections 7.5 and 7.6) prescribes.

    The scan works on the tags the tag pattern finds, with their attributes already read; numbers are
    exact. A document is a forest of groups and shapes, and its tokens are its opening tags in order. */
module SeatMap {
  import opened Text

  datatype Point = Point(x: real, y: real)

  datatype Affine = Affine(a: real, b: real, c: real, d: real, e: real, f: real) {
    function Apply(p: Point): Point {
      Point(a * p.x + c * p.y + e, b * p.x + d * p.y + f)
    }
  }

  function Scaled(factor: real, extent: real): real {
    factor * extent
  }

  /** The scale and translation the scan keeps. */
  datatype Transform = Transform(a: real, d: real, e: real, f: real) {
    function X(px: real): real { a * px + e }
    function Y(py: real): real { d * py + f }
    function W(pw: real): real { Scaled(a, pw) }
    function H(ph: real): real { Scaled(d, ph) }
  }

  const IDENTITY := Transform(1.0, 1.0, 0.0, 0.0)

  /** A transform attribute: one of the two forms the scan knows, one of them amid other transforms, of which
      the scan sees nothing, or none of them, such as a rotation. */
  datatype Attr =
    | Matrix(a: real, b: real, c: real, d: real, e: real, f: real)
    | TranslateScale(tx: real, ty: real, scale: real)
    | Amid(read: Transform, m: Affine)
    | Unmatched(m: Affine)

  function ParseTransform(t: Attr): Option<Transform> {
    match t
    case Matrix(a, _, _, d, e, f) => Some(Transform(a, d, e, f))
    case TranslateScale(tx, ty, s) => Some(Transform(s, s, tx, ty))
    case Amid(read, _) => Some(read)
    case Unmatched(_) => None
  }

  /** What the attribute means in SVG. */
  function Meaning(t: Attr): Affine {
    match t
    case Matrix(a, b, c, d, e, f) => Affine(a, b, c, d, e, f)
    case TranslateScale(tx, ty, s) => Affine(s, 0.0, 0.0, s, tx, ty)
    case Amid(_, m) => m
    case Unmatched(m) => m
  }

  /** host is present when the id has the form of a seat, row when the text is bold and has the form of a
      row label; a coordinate is absent when its attribute is missing or not a number. */
  datatype Element =
    | Rect(t: Option<Attr>, host: Option<string>, x: Option<real>, y: Option<real>, w: Option<real>, h: Option<real>)
    | Label(t: Option<Attr>, row: Option<string>, x: Option<real>, y: Option<real>)
  {
    predicate Rendered() {
      match this
      case Rect(_, host, x, y, w, h) => host.Some? && x.Some? && y.Some? && w.Some? && h.Some?
      case Label(_, row, x, y) => row.Some? && x.Some? && y.Some?
    }
  }

  datatype Seat = Seat(host: string, x: real, y: real, width: real, height: real)

  datatype RowLabel = RowLabel(text: string, x: real, y: real)

  datatype Layout = Layout(seats: seq<Seat>, labels: seq<RowLabel>) {
    function Then(next: Layout): Layout {
      Layout(seats + next.seats, labels + next.labels)
    }
  }

  const NO_LAYOUT := Layout([], [])

  datatype Token = OpenGroup(t: Option<Attr>) | Shape(e: Element)

  datatype Forest =
    | Nil
    | Group(t: Option<Attr>, kids: Forest, next: Forest)
    | Leaf(e: Element, next: Forest)

  function Tokens(f: Forest): seq<Token> {
    match f
    case Nil => []
    case Group(t, kids, next) => [OpenGroup(t)] + Tokens(kids) + Tokens(next)
    case Leaf(e, next) => [Shape(e)] + Tokens(next)
  }

  // ---- The scan ----

  function Or(t: Option<Attr>, fallback: Transform): Transform {
    if t.None? || ParseTransform(t.value).None? then fallback else ParseTransform(t.value).value
  }

  /** The drawn element at a point with the given extents. */
  function Put(e: Element, at: Point, size: Point): Layout
    requires e.Rendered()
  {
    match e
    case Rect(_, host, _, _, w, h) => Layout([Seat(host.value, at.x, at.y, size.x, size.y)], [])
    case Label(_, row, _, _) => Layout([], [RowLabel(row.value, at.x, at.y)])
  }

  function Extent(e: Element): Point
    requires e.Rendered()
  {
    match e
    case Rect(_, _, _, _, w, h) => Point(w.value, h.value)
    case Label(_, _, _, _) => Point(0.0, 0.0)
  }

  function Place(e: Element, group: Transform): Layout {
    if !e.Rendered() then NO_LAYOUT
    else
      var t := Or(e.t, group);
      Put(e, Point(t.X(e.x.value), t.Y(e.y.value)), Point(t.W(Extent(e).x), t.H(Extent(e).y)))
  }

  function Scan(tokens: seq<Token>, group: Transform): Layout {
    if tokens == [] then NO_LAYOUT
    else match tokens[0]
      case OpenGroup(t) => Scan(tokens[1..], Or(t, group))
      case Shape(e) => Place(e, group).Then(Scan(tokens[1..], group))
  }

  /** The group transform in force after the tokens. */
  function GroupAfter(tokens: seq<Token>, group: Transform): Transform {
    if tokens == [] then group
    else match tokens[0]
      case OpenGroup(t) => GroupAfter(tokens[1..], Or(t, group))
      case Shape(_) => GroupAfter(tokens[1..], group)
  }

  lemma {:induction false} ScanSplit(a: seq<Token>, b: seq<Token>, group: Transform)
    ensures Scan(a + b, group) == Scan(a, group).Then(Scan(b, GroupAfter(a, group)))
    ensures GroupAfter(a + b, group) == GroupAfter(b, GroupAfter(a, group))
    decreases |a|
  {
    if a == [] {
      assert a + b == b;
    } else {
      assert (a + b)[1..] == a[1..] + b;
      match a[0]
      case OpenGroup(t) => ScanSplit(a[1..], b, Or(t, group));
      case Shape(e) => ScanSplit(a[1..], b, group);
    }
  }

  /** Parse: one loop with a group transform and two growing lists. */
  method Parse(tokens: seq<Token>) returns (layout: Layout)
    ensures layout == Scan(tokens, IDENTITY)
    ensures forall f :: tokens == Tokens(f) && WellShaped(f) && AxisAligned(f) ==> Shows(layout, Leaves(f, []))
  {
    var group := IDENTITY;
    var seats: seq<Seat>, labels: seq<RowLabel> := [], [];
    for i := 0 to |tokens|
      invariant group == GroupAfter(tokens[..i], IDENTITY)
      invariant Layout(seats, labels) == Scan(tokens[..i], IDENTITY)
    {
      assert tokens[..i + 1] == tokens[..i] + [tokens[i]];
      ScanSplit(tokens[..i], [tokens[i]], IDENTITY);
      match tokens[i]
      case OpenGroup(t) =>
        if t.Some? {
          var parsed := ParseTransform(t.value);
          if parsed.Some? { group := parsed.value; }
        }
      case Shape(e) =>
        var t := group;
        if e.t.Some? {
          var parsed := ParseTransform(e.t.value);
          if parsed.Some? { t := parsed.value; }
        }
        match e {
          case Rect(_, host, x, y, w, h) =>
            if host.Some? && x.Some? && y.Some? && w.Some? && h.Some? {
              seats := seats + [Seat(host.value, t.X(x.value), t.Y(y.value), t.W(w.value), t.H(h.value))];
            }
          case Label(_, row, x, y) =>
            if row.Some? && x.Some? && y.Some? {
              labels := labels + [RowLabel(row.value, t.X(x.value), t.Y(y.value))];
            }
        }
    }
    assert tokens[..|tokens|] == tokens;
    forall f | tokens == Tokens(f) && WellShaped(f) && AxisAligned(f)
      ensures Shows(Layout(seats, labels), Leaves(f, []))
    {
      ScanShows(f, 0, [], None, [], IDENTITY);
    }
    return Layout(seats, labels);
  }

  // ---- Nested evaluation ----

  /** The transforms on the way to a node, outermost first. */
  function Under(outer: seq<Affine>, t: Option<Attr>): seq<Affine> {
    if t.Some? then outer + [Meaning(t.value)] else outer
  }

  /** A point goes through all of them, innermost first. */
  function Through(stack: seq<Affine>, p: Point): Point {
    if stack == [] then p else Through(stack[..|stack| - 1], stack[|stack| - 1].Apply(p))
  }

  /** Extents are scaled along the axes by all of them. */
  function Stretched(stack: seq<Affine>, size: Point): Point {
    if stack == [] then size
    else
      var m := stack[|stack| - 1];
      Stretched(stack[..|stack| - 1], Point(Scaled(m.a, size.x), Scaled(m.d, size.y)))
  }

  function Draw(e: Element, stack: seq<Affine>): Layout {
    if !e.Rendered() then NO_LAYOUT
    else Put(e, Through(stack, Point(e.x.value, e.y.value)), Stretched(stack, Extent(e)))
  }

  function Nested(f: Forest, outer: seq<Affine>): Layout {
    match f
    case Nil => NO_LAYOUT
    case Group(t, kids, next) => Nested(kids, Under(outer, t)).Then(Nested(next, outer))
    case Leaf(e, next) => Draw(e, Under(outer, e.t)).Then(Nested(next, outer))
  }

  ghost predicate Agrees(f: Forest) {
    Scan(Tokens(f), IDENTITY) == Nested(f, [])
  }

  // ---- The side condition: which nodes bear a transform, and where ----

  function Size(f: Forest): nat {
    match f
    case Nil => 0
    case Group(_, kids, next) => 1 + Size(kids) + Size(next)
    case Leaf(_, next) => 1 + Size(next)
  }

  predicate Bears(t: Option<Attr>) {
    t.Some? && !t.value.Unmatched?
  }

  /** Numbers of the tags on the way to a node that have a transform attribute. */
  function Path(path: seq<nat>, t: Option<Attr>, i: nat): seq<nat> {
    if t.Some? then path + [i] else path
  }

  /** Number of the last group tag, if any, whose transform the scan could read. */
  function Latest(latest: Option<nat>, t: Option<Attr>, i: nat): Option<nat> {
    if Bears(t) then Some(i) else latest
  }

  function LatestAfter(f: Forest, i: nat, latest: Option<nat>): Option<nat> {
    match f
    case Nil => latest
    case Group(t, kids, next) =>
      LatestAfter(next, i + 1 + Size(kids), LatestAfter(kids, i + 1, Latest(latest, t, i)))
    case Leaf(_, next) => LatestAfter(next, i + 1, latest)
  }

  /** Numbers of the tags whose transform the scan applies to a shape: at most one. */
  function Source(latest: Option<nat>, t: Option<Attr>, i: nat): seq<nat> {
    if Bears(t) then [i] else if latest.Some? then [latest.value] else []
  }

  /** Tags are numbered in document order from i on. Every drawn shape has at most one transform on its way
      from the root; it is one the scan reads; and it is the shape's own or the latest the scan has read.
      A shape without one comes before any group transform the scan reads. */
  predicate Shaped(f: Forest, i: nat, path: seq<nat>, latest: Option<nat>) {
    match f
    case Nil => true
    case Group(t, kids, next) =>
      && Shaped(kids, i + 1, Path(path, t, i), Latest(latest, t, i))
      && Shaped(next, i + 1 + Size(kids), path, LatestAfter(kids, i + 1, Latest(latest, t, i)))
    case Leaf(e, next) =>
      && (e.Rendered() ==> Path(path, e.t, i) == Source(latest, e.t, i))
      && Shaped(next, i + 1, path, latest)
  }

  predicate WellShaped(f: Forest) {
    Shaped(f, 0, [], None)
  }

  /** The scan reads what the attribute means: a matrix without the two entries that are dropped, or a form
      whose surroundings change nothing. */
  predicate AlignedAttr(t: Option<Attr>) {
    t.Some? ==>
      match t.value
      case Matrix(_, b, c, _, _, _) => b == 0.0 && c == 0.0
      case Amid(read, m) => m == Embed(read)
      case _ => true
  }

  /** The scan reads every transform it finds as what it means. */
  predicate AxisAligned(f: Forest) {
    match f
    case Nil => true
    case Group(t, kids, next) => AlignedAttr(t) && AxisAligned(kids) && AxisAligned(next)
    case Leaf(e, next) => AlignedAttr(e.t) && AxisAligned(next)
  }

  // ---- The condition is enough ----

  function Embed(t: Transform): Affine {
    Affine(t.a, 0.0, 0.0, t.d, t.e, t.f)
  }

  /** How the two evaluations stand to each other before tag number i. */
  ghost predicate InStep(i: nat, path: seq<nat>, latest: Option<nat>, outer: seq<Affine>, group: Transform) {
    && (forall p :: p in path ==> p < i)
    && (latest.Some? ==> latest.value < i)
    && (path == [] ==> outer == [])
    && (latest.None? ==> group == IDENTITY)
    && (latest.Some? && path == [latest.value] ==> outer == [Embed(group)])
  }

  lemma StepGroup(i: nat, path: seq<nat>, latest: Option<nat>, outer: seq<Affine>, group: Transform, t: Option<Attr>)
    requires InStep(i, path, latest, outer, group) && AlignedAttr(t)
    ensures InStep(i + 1, Path(path, t, i), Latest(latest, t, i), Under(outer, t), Or(t, group))
  {
    if t.Some? {
      assert path + [i] != [];
      if path == [] {
        assert path + [i] == [i];
      } else {
        assert |path + [i]| > 1;
      }
      if latest.Some? { assert (path + [i])[|path|] == i; }
    }
  }

  lemma GroupAfterGroup(t: Option<Attr>, kids: Forest, next: Forest, group: Transform)
    ensures GroupAfter(Tokens(Group(t, kids, next)), group)
         == GroupAfter(Tokens(next), GroupAfter(Tokens(kids), Or(t, group)))
  {
    GroupTokens(t, kids, next, group);
  }

  lemma GroupAfterLeaf(e: Element, next: Forest, group: Transform)
    ensures GroupAfter(Tokens(Leaf(e, next)), group) == GroupAfter(Tokens(next), group)
  {
    assert ([Shape(e)] + Tokens(next))[1..] == Tokens(next);
  }

  lemma {:induction false} LatestBound(f: Forest, i: nat, latest: Option<nat>)
    requires latest.Some? ==> latest.value < i
    ensures LatestAfter(f, i, latest).Some? ==> LatestAfter(f, i, latest).value < i + Size(f)
    decreases f
  {
    match f
    case Nil =>
    case Group(t, kids, next) =>
      LatestBound(kids, i + 1, Latest(latest, t, i));
      LatestBound(next, i + 1 + Size(kids), LatestAfter(kids, i + 1, Latest(latest, t, i)));
    case Leaf(e, next) =>
      LatestBound(next, i + 1, latest);
  }

  /** Kids leave the group transform alone, or replace it by one of a later tag. */
  lemma {:induction false} KidsLatest(f: Forest, i: nat, latest: Option<nat>, group: Transform)
    requires latest.Some? ==> latest.value < i
    ensures var after := LatestAfter(f, i, latest);
            (after == latest && GroupAfter(Tokens(f), group) == group) || (after.Some? && after.value >= i)
    decreases f
  {
    match f
    case Nil =>
    case Group(t, kids, next) =>
      var latest1, group1 := Latest(latest, t, i), Or(t, group);
      LatestBound(kids, i + 1, latest1);
      KidsLatest(kids, i + 1, latest1, group1);
      KidsLatest(next, i + 1 + Size(kids), LatestAfter(kids, i + 1, latest1), GroupAfter(Tokens(kids), group1));
      GroupAfterGroup(t, kids, next, group);
    case Leaf(e, next) =>
      KidsLatest(next, i + 1, latest, group);
      GroupAfterLeaf(e, next, group);
  }

  lemma GroupTokens(t: Option<Attr>, kids: Forest, next: Forest, group: Transform)
    ensures var tokens := Tokens(Group(t, kids, next));
            var inside := GroupAfter(Tokens(kids), Or(t, group));
            && GroupAfter(tokens, group) == GroupAfter(Tokens(next), inside)
            && Scan(tokens, group) == Scan(Tokens(kids), Or(t, group)).Then(Scan(Tokens(next), inside))
  {
    var tokens := Tokens(Group(t, kids, next));
    assert tokens == [OpenGroup(t)] + (Tokens(kids) + Tokens(next));
    assert tokens[1..] == Tokens(kids) + Tokens(next);
    ScanSplit(Tokens(kids), Tokens(next), Or(t, group));
  }

  lemma ThroughOne(m: Affine, p: Point)
    ensures Through([m], p) == m.Apply(p)
    ensures Stretched([m], p) == Point(Scaled(m.a, p.x), Scaled(m.d, p.y))
  {
    assert [m][..0] == [];
  }

  lemma EmbeddedPoint(t: Transform, p: Point)
    ensures Embed(t).Apply(p) == Point(t.X(p.x), t.Y(p.y))
  {
  }

  lemma IdentityPoint(p: Point)
    ensures Point(IDENTITY.X(p.x), IDENTITY.Y(p.y)) == p == Point(IDENTITY.W(p.x), IDENTITY.H(p.y))
  {
  }

  /** The stack a shape is drawn with when its way holds at most the one transform the scan applies. */
  lemma PlaceIsDraw(e: Element, group: Transform, stack: seq<Affine>)
    requires e.Rendered() ==> stack == [Embed(Or(e.t, group))] || (stack == [] && Or(e.t, group) == IDENTITY)
    ensures Place(e, group) == Draw(e, stack)
  {
    if e.Rendered() {
      var t, at := Or(e.t, group), Point(e.x.value, e.y.value);
      if stack == [] {
        IdentityPoint(at);
        IdentityPoint(Extent(e));
      } else {
        ThroughOne(Embed(t), at);
        ThroughOne(Embed(t), Extent(e));
        EmbeddedPoint(t, at);
      }
    }
  }

  lemma StackOfShape(e: Element, i: nat, path: seq<nat>, latest: Option<nat>, outer: seq<Affine>, group: Transform)
    requires InStep(i, path, latest, outer, group) && AlignedAttr(e.t)
    requires Path(path, e.t, i) == Source(latest, e.t, i)
    ensures var stack, t := Under(outer, e.t), Or(e.t, group);
            stack == [Embed(t)] || (stack == [] && t == IDENTITY)
  {
    StepGroup(i, path, latest, outer, group, e.t);
    assert e.t.Some? ==> Path(path, e.t, i)[|path|] == i;
    if Bears(e.t) {
      assert |path| == 0;
    }
  }

  lemma {:induction false} ScanIsNested(f: Forest, i: nat, path: seq<nat>, latest: Option<nat>,
                                        outer: seq<Affine>, group: Transform)
    requires Shaped(f, i, path, latest) && AxisAligned(f) && InStep(i, path, latest, outer, group)
    ensures Scan(Tokens(f), group) == Nested(f, outer)
    decreases f
  {
    match f
    case Nil =>
    case Group(t, kids, next) =>
      StepGroup(i, path, latest, outer, group, t);
      ScanIsNested(kids, i + 1, Path(path, t, i), Latest(latest, t, i), Under(outer, t), Or(t, group));
      GroupTokens(t, kids, next, group);
      AfterKids(t, kids, i, path, latest, outer, group);
      ScanIsNested(next, i + 1 + Size(kids), path, LatestAfter(kids, i + 1, Latest(latest, t, i)), outer,
                   GroupAfter(Tokens(kids), Or(t, group)));
    case Leaf(e, next) =>
      if e.Rendered() {
        StackOfShape(e, i, path, latest, outer, group);
      }
      PlaceIsDraw(e, group, Under(outer, e.t));
      ScanIsNested(next, i + 1, path, latest, outer, group);
      assert ([Shape(e)] + Tokens(next))[1..] == Tokens(next);
  }

  lemma AfterKids(t: Option<Attr>, kids: Forest, i: nat, path: seq<nat>, latest: Option<nat>,
                  outer: seq<Affine>, group: Transform)
    requires InStep(i, path, latest, outer, group)
    ensures InStep(i + 1 + Size(kids), path, LatestAfter(kids, i + 1, Latest(latest, t, i)), outer,
                   GroupAfter(Tokens(kids), Or(t, group)))
  {
    KidsLatest(kids, i + 1, Latest(latest, t, i), Or(t, group));
    LatestBound(kids, i + 1, Latest(latest, t, i));
    var after := LatestAfter(kids, i + 1, Latest(latest, t, i));
    if after.Some? && path == [after.value] {
      assert after.value in path;
    }
  }

  /** On a well-shaped, axis-aligned document the flat scan places every seat and label as nested evaluation does. */
  lemma FlatScanIsNested(f: Forest)
    requires WellShaped(f) && AxisAligned(f)
    ensures Agrees(f)
  {
    ScanIsNested(f, 0, [], None, [], IDENTITY);
  }

  /** The matrix form as SVG defines it: a point goes to (ax + cy + e, bx + dy + f); a translation after a scaling
      takes it to (sx + tx, sy + ty). */
  lemma MatrixMeans(a: real, b: real, c: real, d: real, e: real, f: real, p: Point)
    ensures Meaning(Matrix(a, b, c, d, e, f)).Apply(p) == Point(a * p.x + c * p.y + e, b * p.x + d * p.y + f)
    ensures var q := Meaning(TranslateScale(e, f, a)).Apply(p); q.x == a * p.x + e && q.y == a * p.y + f
  {
  }

  // ---- What the scan shows ----

  /** An element with the transforms on its way, its own included. */
  datatype Shown = Shown(e: Element, stack: seq<Affine>)

  /** The elements of a document in order. */
  function Leaves(f: Forest, outer: seq<Affine>): seq<Shown> {
    match f
    case Nil => []
    case Group(t, kids, next) => Leaves(kids, Under(outer, t)) + Leaves(next, outer)
    case Leaf(e, next) => [Shown(e, Under(outer, e.t))] + Leaves(next, outer)
  }

  predicate IsSeat(e: Element) {
    e.Rect? && e.host.Some? && e.x.Some? && e.y.Some? && e.w.Some? && e.h.Some?
  }

  predicate IsLabel(e: Element) {
    e.Label? && e.row.Some? && e.x.Some? && e.y.Some?
  }

  function Among(leaves: seq<Shown>, wanted: Element -> bool): seq<Shown> {
    if leaves == [] then []
    else (if wanted(leaves[0].e) then [leaves[0]] else []) + Among(leaves[1..], wanted)
  }

  function SeatsAmong(leaves: seq<Shown>): seq<Shown> {
    Among(leaves, IsSeat)
  }

  function LabelsAmong(leaves: seq<Shown>): seq<Shown> {
    Among(leaves, IsLabel)
  }

  /** The seat's two corners are the images of the element's. */
  predicate SeatShown(seat: Seat, d: Shown)
    requires IsSeat(d.e)
  {
    var near := Through(d.stack, Point(d.e.x.value, d.e.y.value));
    var far := Through(d.stack, Point(d.e.x.value + d.e.w.value, d.e.y.value + d.e.h.value));
    && seat.host == d.e.host.value && seat.x == near.x && seat.y == near.y
    && seat.x + seat.width == far.x && seat.y + seat.height == far.y
  }

  predicate LabelShown(l: RowLabel, d: Shown)
    requires IsLabel(d.e)
  {
    var at := Through(d.stack, Point(d.e.x.value, d.e.y.value));
    l.text == d.e.row.value && l.x == at.x && l.y == at.y
  }

  /** One seat for every seat element and one label for every row label, in order and in place. */
  ghost predicate Shows(layout: Layout, leaves: seq<Shown>) {
    && |layout.seats| == |SeatsAmong(leaves)| && |layout.labels| == |LabelsAmong(leaves)|
    && (forall i :: 0 <= i < |layout.seats| ==>
          IsSeat(SeatsAmong(leaves)[i].e) && SeatShown(layout.seats[i], SeatsAmong(leaves)[i]))
    && (forall i :: 0 <= i < |layout.labels| ==>
          IsLabel(LabelsAmong(leaves)[i].e) && LabelShown(layout.labels[i], LabelsAmong(leaves)[i]))
  }

  lemma Joined(a: seq<Shown>, b: seq<Shown>, c: seq<Shown>)
    ensures a + (b + c) == a + b + c
  {
  }

  lemma {:induction false} AmongSplit(a: seq<Shown>, b: seq<Shown>, wanted: Element -> bool)
    ensures Among(a + b, wanted) == Among(a, wanted) + Among(b, wanted)
  {
    if a == [] {
      assert a + b == b;
    } else {
      var first := if wanted(a[0].e) then [a[0]] else [];
      assert (a + b)[0] == a[0] && (a + b)[1..] == a[1..] + b;
      AmongSplit(a[1..], b, wanted);
      Joined(first, Among(a[1..], wanted), Among(b, wanted));
    }
  }

  lemma ShowsThen(a: Layout, b: Layout, x: seq<Shown>, y: seq<Shown>)
    requires Shows(a, x) && Shows(b, y)
    ensures Shows(a.Then(b), x + y)
  {
    AmongSplit(x, y, IsSeat);
    AmongSplit(x, y, IsLabel);
  }

  lemma FarCorner(factor: real, at: real, extent: real, shift: real)
    ensures factor * (at + extent) + shift == (factor * at + shift) + factor * extent
  {
  }

  lemma CornersOf(t: Transform, p: Point, size: Point)
    ensures var far := Embed(t).Apply(Point(p.x + size.x, p.y + size.y));
            far == Point(t.X(p.x) + t.W(size.x), t.Y(p.y) + t.H(size.y))
  {
    FarCorner(t.a, p.x, size.x, t.e);
    FarCorner(t.d, p.y, size.y, t.f);
    EmbeddedPoint(t, Point(p.x + size.x, p.y + size.y));
  }

  lemma CornersUnmoved(p: Point, size: Point)
    ensures Point(p.x + size.x, p.y + size.y)
         == Point(IDENTITY.X(p.x) + IDENTITY.W(size.x), IDENTITY.Y(p.y) + IDENTITY.H(size.y))
  {
    IdentityPoint(p);
    IdentityPoint(size);
  }

  lemma PlaceShowsSeat(e: Element, group: Transform, stack: seq<Affine>)
    requires IsSeat(e) && (stack == [Embed(Or(e.t, group))] || (stack == [] && Or(e.t, group) == IDENTITY))
    ensures |Place(e, group).seats| == 1 && Place(e, group).labels == []
    ensures SeatShown(Place(e, group).seats[0], Shown(e, stack))
  {
    var t, p, size := Or(e.t, group), Point(e.x.value, e.y.value), Point(e.w.value, e.h.value);
    if stack == [] {
      IdentityPoint(p);
      CornersUnmoved(p, size);
    } else {
      ThroughOne(Embed(t), p);
      ThroughOne(Embed(t), Point(p.x + size.x, p.y + size.y));
      EmbeddedPoint(t, p);
      CornersOf(t, p, size);
    }
  }

  lemma PlaceShowsLabel(e: Element, group: Transform, stack: seq<Affine>)
    requires IsLabel(e) && (stack == [Embed(Or(e.t, group))] || (stack == [] && Or(e.t, group) == IDENTITY))
    ensures |Place(e, group).labels| == 1 && Place(e, group).seats == []
    ensures LabelShown(Place(e, group).labels[0], Shown(e, stack))
  {
    var t, p := Or(e.t, group), Point(e.x.value, e.y.value);
    if stack == [] {
      IdentityPoint(p);
    } else {
      ThroughOne(Embed(t), p);
      EmbeddedPoint(t, p);
    }
  }

  lemma PlaceShows(e: Element, group: Transform, stack: seq<Affine>)
    requires IsSeat(e) || IsLabel(e) ==>
               stack == [Embed(Or(e.t, group))] || (stack == [] && Or(e.t, group) == IDENTITY)
    ensures Shows(Place(e, group), [Shown(e, stack)])
  {
    assert [Shown(e, stack)][1..] == [];
    assert Among([], IsSeat) == [] && Among([], IsLabel) == [];
    if IsSeat(e) {
      PlaceShowsSeat(e, group, stack);
    } else if IsLabel(e) {
      PlaceShowsLabel(e, group, stack);
    }
  }

  lemma {:induction false} ScanShows(f: Forest, i: nat, path: seq<nat>, latest: Option<nat>,
                                     outer: seq<Affine>, group: Transform)
    requires Shaped(f, i, path, latest) && AxisAligned(f) && InStep(i, path, latest, outer, group)
    ensures Shows(Scan(Tokens(f), group), Leaves(f, outer))
    decreases f
  {
    match f
    case Nil =>
    case Group(t, kids, next) =>
      var latest1, inside := Latest(latest, t, i), Or(t, group);
      StepGroup(i, path, latest, outer, group, t);
      ScanShows(kids, i + 1, Path(path, t, i), latest1, Under(outer, t), inside);
      AfterKids(t, kids, i, path, latest, outer, group);
      ScanShows(next, i + 1 + Size(kids), path, LatestAfter(kids, i + 1, latest1), outer,
                GroupAfter(Tokens(kids), inside));
      GroupTokens(t, kids, next, group);
      ShowsThen(Scan(Tokens(kids), inside), Scan(Tokens(next), GroupAfter(Tokens(kids), inside)),
                Leaves(kids, Under(outer, t)), Leaves(next, outer));
    case Leaf(e, next) =>
      if IsSeat(e) || IsLabel(e) { StackOfShape(e, i, path, latest, outer, group); }
      PlaceShows(e, group, Under(outer, e.t));
      ScanShows(next, i + 1, path, latest, outer, group);
      LeafTokens(e, next, group);
      ShowsThen(Place(e, group), Scan(Tokens(next), group), [Shown(e, Under(outer, e.t))], Leaves(next, outer));
  }

  lemma LeafTokens(e: Element, next: Forest, group: Transform)
    ensures Scan(Tokens(Leaf(e, next)), group) == Place(e, group).Then(Scan(Tokens(next), group))
  {
    assert ([Shape(e)] + Tokens(next))[1..] == Tokens(next);
  }

  // ---- The condition is needed ----

  predicate SameKind(s: Option<Attr>, t: Option<Attr>) {
    || (s.None? && t.None?)
    || (s.Some? && t.Some? && s.value.Unmatched? == t.value.Unmatched?)
  }

  /** The same document but for the transforms: a node keeps having none, one the scan reads, or another. */
  predicate SameShape(f: Forest, g: Forest) {
    match (f, g)
    case (Nil, Nil) => true
    case (Group(s, k1, n1), Group(t, k2, n2)) => SameKind(s, t) && SameShape(k1, k2) && SameShape(n1, n2)
    case (Leaf(d, n1), Leaf(e, n2)) => SameKind(d.t, e.t) && d.(t := None) == e.(t := None) && SameShape(n1, n2)
    case _ => false
  }

  lemma {:induction false} ShapedBySameShape(f: Forest, g: Forest, i: nat, path: seq<nat>, latest: Option<nat>)
    requires SameShape(f, g)
    ensures Size(f) == Size(g) && LatestAfter(f, i, latest) == LatestAfter(g, i, latest)
    ensures Shaped(f, i, path, latest) == Shaped(g, i, path, latest)
    decreases f
  {
    match f
    case Nil =>
    case Group(t, kids, next) =>
      var latest1 := Latest(latest, t, i);
      ShapedBySameShape(kids, g.kids, i + 1, Path(path, t, i), latest1);
      ShapedBySameShape(next, g.next, i + 1 + Size(kids), path, LatestAfter(kids, i + 1, latest1));
    case Leaf(e, next) =>
      assert e.Rendered() == e.(t := None).Rendered() && g.e.Rendered() == g.e.(t := None).Rendered();
      ShapedBySameShape(next, g.next, i + 1, path, latest);
  }

  function Shift(k: real): Transform {
    Transform(1.0, 1.0, k, 0.0)
  }

  function Mark(i: nat, r: nat): real {
    if i == r then 1.0 else 0.0
  }

  function ShiftedAttr(t: Option<Attr>, i: nat, r: nat): Option<Attr> {
    if t.None? then None
    else if t.value.Unmatched? then Some(Unmatched(Embed(Shift(Mark(i, r)))))
    else Some(TranslateScale(Mark(i, r), 0.0, 1.0))
  }

  /** The document with every transform made the identity, except that tag r shifts by one. */
  function Shifted(f: Forest, i: nat, r: nat): Forest {
    match f
    case Nil => Nil
    case Group(t, kids, next) =>
      Group(ShiftedAttr(t, i, r), Shifted(kids, i + 1, r), Shifted(next, i + 1 + Size(kids), r))
    case Leaf(e, next) => Leaf(e.(t := ShiftedAttr(e.t, i, r)), Shifted(next, i + 1, r))
  }

  lemma {:induction false} ShiftedKeepsShape(f: Forest, i: nat, r: nat)
    ensures SameShape(f, Shifted(f, i, r)) && AxisAligned(Shifted(f, i, r))
    decreases f
  {
    match f
    case Nil =>
    case Group(t, kids, next) =>
      ShiftedKeepsShape(kids, i + 1, r);
      ShiftedKeepsShape(next, i + 1 + Size(kids), r);
    case Leaf(e, next) =>
      ShiftedKeepsShape(next, i + 1, r);
  }

  /** The shift a shape inherits from the tags on its way. */
  function Inherited(path: seq<nat>, r: nat): real {
    if r in path then 1.0 else 0.0
  }

  function Remembered(latest: Option<nat>, r: nat): real {
    if latest == Some(r) then 1.0 else 0.0
  }

  ghost predicate Ascending(path: seq<nat>, i: nat) {
    (forall p :: p in path ==> p < i) && forall j, k :: 0 <= j < k < |path| ==> path[j] < path[k]
  }

  lemma AscendingPath(path: seq<nat>, t: Option<Attr>, i: nat)
    requires Ascending(path, i)
    ensures Ascending(Path(path, t, i), i + 1)
  {
    assert forall j :: 0 <= j < |path| ==> path[j] in path;
  }

  /** The transforms on the way to a node of the shifted document. */
  function ShiftStack(path: seq<nat>, r: nat): seq<Affine> {
    seq(|path|, k requires 0 <= k < |path| => Embed(Shift(Mark(path[k], r))))
  }

  lemma UnderShift(path: seq<nat>, t: Option<Attr>, i: nat, r: nat)
    ensures Under(ShiftStack(path, r), ShiftedAttr(t, i, r)) == ShiftStack(Path(path, t, i), r)
  {
    if t.Some? {
      assert Meaning(ShiftedAttr(t, i, r).value) == Embed(Shift(Mark(i, r)));
    }
  }

  lemma {:induction false} ThroughShifts(path: seq<nat>, i: nat, r: nat, p: Point)
    requires Ascending(path, i)
    ensures Through(ShiftStack(path, r), p) == Point(p.x + Inherited(path, r), p.y)
    decreases |path|
  {
    if path != [] {
      var n := |path| - 1;
      var last := Embed(Shift(Mark(path[n], r)));
      EmbeddedPoint(Shift(Mark(path[n], r)), p);
      assert ShiftStack(path, r)[..n] == ShiftStack(path[..n], r);
      assert path == path[..n] + [path[n]];
      assert forall p :: p in path[..n] ==> p in path;
      ThroughShifts(path[..n], i, r, last.Apply(p));
      assert path[n] !in path[..n];
    }
  }

  lemma OrShift(latest: Option<nat>, t: Option<Attr>, i: nat, r: nat)
    requires latest.Some? ==> latest.value < i
    ensures Or(ShiftedAttr(t, i, r), Shift(Remembered(latest, r))) == Shift(Remembered(Latest(latest, t, i), r))
  {
  }

  lemma {:induction false} RememberedAfter(f: Forest, i: nat, latest: Option<nat>, r: nat)
    requires latest.Some? ==> latest.value < i
    ensures GroupAfter(Tokens(Shifted(f, i, r)), Shift(Remembered(latest, r)))
         == Shift(Remembered(LatestAfter(f, i, latest), r))
    decreases f
  {
    match f
    case Nil =>
    case Group(t, kids, next) =>
      var latest1 := Latest(latest, t, i);
      OrShift(latest, t, i, r);
      RememberedAfter(kids, i + 1, latest1, r);
      LatestBound(kids, i + 1, latest1);
      RememberedAfter(next, i + 1 + Size(kids), LatestAfter(kids, i + 1, latest1), r);
      GroupAfterGroup(ShiftedAttr(t, i, r), Shifted(kids, i + 1, r), Shifted(next, i + 1 + Size(kids), r),
                      Shift(Remembered(latest, r)));
    case Leaf(e, next) =>
      RememberedAfter(next, i + 1, latest, r);
      GroupAfterLeaf(e.(t := ShiftedAttr(e.t, i, r)), Shifted(next, i + 1, r), Shift(Remembered(latest, r)));
  }

  predicate SameLengths(a: Layout, b: Layout) {
    |a.seats| == |b.seats| && |a.labels| == |b.labels|
  }

  lemma {:induction false} SameLengthsAlways(f: Forest, group: Transform, outer: seq<Affine>)
    ensures SameLengths(Scan(Tokens(f), group), Nested(f, outer))
    decreases f
  {
    match f
    case Nil =>
    case Group(t, kids, next) =>
      SameLengthsAlways(kids, Or(t, group), Under(outer, t));
      SameLengthsAlways(next, GroupAfter(Tokens(kids), Or(t, group)), outer);
      GroupTokens(t, kids, next, group);
    case Leaf(e, next) =>
      SameLengthsAlways(next, group, outer);
      assert ([Shape(e)] + Tokens(next))[1..] == Tokens(next);
  }

  lemma ThenInjective(a: Layout, a': Layout, b: Layout, b': Layout)
    requires SameLengths(a, b) && a.Then(a') == b.Then(b')
    ensures a == b && a' == b'
  {
    assert a.seats == a.Then(a').seats[..|a.seats|] && a'.seats == a.Then(a').seats[|a.seats|..];
    assert b.seats == b.Then(b').seats[..|b.seats|] && b'.seats == b.Then(b').seats[|b.seats|..];
    assert a.labels == a.Then(a').labels[..|a.labels|] && a'.labels == a.Then(a').labels[|a.labels|..];
    assert b.labels == b.Then(b').labels[..|b.labels|] && b'.labels == b.Then(b').labels[|b.labels|..];
  }

  /** A tag that is on the way to the shape but not the one applied, or the other way round. */
  lemma Telltale(path: seq<nat>, source: seq<nat>, i: nat) returns (r: nat)
    requires Ascending(path, i) && |source| <= 1 && path != source
    ensures (r in path) != (r in source)
  {
    if source == [] {
      r := path[0];
    } else if source[0] !in path {
      r := source[0];
    } else if path[0] != source[0] {
      r := path[0];
    } else {
      assert |path| == 1 ==> path == source;
      r := path[1];
    }
  }

  lemma PutTellsApart(e: Element, at: Point, size: Point, at': Point, size': Point)
    requires e.Rendered() && at.x != at'.x
    ensures Put(e, at, size) != Put(e, at', size')
  {
    if e.Rect? {
      assert Put(e, at, size).seats[0].x == at.x && Put(e, at', size').seats[0].x == at'.x;
    } else {
      assert Put(e, at, size).labels[0].x == at.x && Put(e, at', size').labels[0].x == at'.x;
    }
  }

  lemma ShiftsTellApart(e: Element, i: nat, path: seq<nat>, latest: Option<nat>, r: nat)
    requires Ascending(path, i) && (latest.Some? ==> latest.value < i) && e.Rendered()
    requires (r in Path(path, e.t, i)) != (r in Source(latest, e.t, i))
    ensures var e' := e.(t := ShiftedAttr(e.t, i, r));
            Place(e', Shift(Remembered(latest, r))) != Draw(e', Under(ShiftStack(path, r), e'.t))
  {
    var e' := e.(t := ShiftedAttr(e.t, i, r));
    var group, stack := Shift(Remembered(latest, r)), ShiftStack(Path(path, e.t, i), r);
    UnderShift(path, e.t, i, r);
    OrShift(latest, e.t, i, r);
    AscendingPath(path, e.t, i);
    ThroughShifts(Path(path, e.t, i), i + 1, r, Point(e.x.value, e.y.value));
    var t := Or(e'.t, group);
    assert t.X(e.x.value) == e.x.value + Remembered(Latest(latest, e.t, i), r);
    PutTellsApart(e', Point(t.X(e.x.value), t.Y(e.y.value)), Point(t.W(Extent(e').x), t.H(Extent(e').y)),
                  Through(stack, Point(e.x.value, e.y.value)), Stretched(stack, Extent(e')));
  }

  ghost predicate Differ(f: Forest, group: Transform, outer: seq<Affine>) {
    Scan(Tokens(f), group) != Nested(f, outer)
  }

  /** Two documents side by side differ as soon as one part does. */
  lemma KidsDiffer(t: Option<Attr>, kids: Forest, next: Forest, group: Transform, outer: seq<Affine>)
    requires Differ(kids, Or(t, group), Under(outer, t))
    ensures Differ(Group(t, kids, next), group, outer)
  {
    GroupParts(t, kids, next, group, outer);
  }

  lemma NextDiffers(t: Option<Attr>, kids: Forest, next: Forest, group: Transform, outer: seq<Affine>,
                    inside: Transform, carried: Transform)
    requires inside == Or(t, group) && carried == GroupAfter(Tokens(kids), inside)
    requires Differ(next, carried, outer)
    ensures Differ(Group(t, kids, next), group, outer)
  {
    GroupParts(t, kids, next, group, outer);
  }

  lemma GroupParts(t: Option<Attr>, kids: Forest, next: Forest, group: Transform, outer: seq<Affine>)
    ensures var inside := Or(t, group);
            Scan(Tokens(Group(t, kids, next)), group) == Nested(Group(t, kids, next), outer) ==>
              && Scan(Tokens(kids), inside) == Nested(kids, Under(outer, t))
              && Scan(Tokens(next), GroupAfter(Tokens(kids), inside)) == Nested(next, outer)
  {
    var inside := Or(t, group);
    GroupTokens(t, kids, next, group);
    SameLengthsAlways(kids, inside, Under(outer, t));
    if Scan(Tokens(Group(t, kids, next)), group) == Nested(Group(t, kids, next), outer) {
      ThenInjective(Scan(Tokens(kids), inside), Scan(Tokens(next), GroupAfter(Tokens(kids), inside)),
                    Nested(kids, Under(outer, t)), Nested(next, outer));
    }
  }

  lemma LeafDiffers(e: Element, next: Forest, group: Transform, outer: seq<Affine>)
    requires Place(e, group) != Draw(e, Under(outer, e.t)) || Differ(next, group, outer)
    ensures Differ(Leaf(e, next), group, outer)
  {
    assert ([Shape(e)] + Tokens(next))[1..] == Tokens(next);
    if Scan(Tokens(Leaf(e, next)), group) == Nested(Leaf(e, next), outer) {
      ThenInjective(Place(e, group), Scan(Tokens(next), group), Draw(e, Under(outer, e.t)), Nested(next, outer));
    }
  }

  ghost predicate DiffersAt(f: Forest, i: nat, r: nat, latest: Option<nat>, path: seq<nat>) {
    Differ(Shifted(f, i, r), Shift(Remembered(latest, r)), ShiftStack(path, r))
  }

  lemma KidsDifferAt(t: Option<Attr>, kids: Forest, next: Forest, i: nat, path: seq<nat>, latest: Option<nat>, r: nat)
    requires latest.Some? ==> latest.value < i
    requires DiffersAt(kids, i + 1, r, Latest(latest, t, i), Path(path, t, i))
    ensures DiffersAt(Group(t, kids, next), i, r, latest, path)
  {
    UnderShift(path, t, i, r);
    OrShift(latest, t, i, r);
    KidsDiffer(ShiftedAttr(t, i, r), Shifted(kids, i + 1, r), Shifted(next, i + 1 + Size(kids), r),
               Shift(Remembered(latest, r)), ShiftStack(path, r));
  }

  lemma NextDiffersAt(t: Option<Attr>, kids: Forest, next: Forest, i: nat, path: seq<nat>, latest: Option<nat>,
                      latest1: Option<nat>, after: Option<nat>, r: nat)
    requires latest.Some? ==> latest.value < i
    requires latest1 == Latest(latest, t, i) && after == LatestAfter(kids, i + 1, latest1)
    requires DiffersAt(next, i + 1 + Size(kids), r, after, path)
    ensures DiffersAt(Group(t, kids, next), i, r, latest, path)
  {
    OrShift(latest, t, i, r);
    RememberedAfter(kids, i + 1, latest1, r);
    NextDiffers(ShiftedAttr(t, i, r), Shifted(kids, i + 1, r), Shifted(next, i + 1 + Size(kids), r),
                Shift(Remembered(latest, r)), ShiftStack(path, r),
                Shift(Remembered(latest1, r)), Shift(Remembered(after, r)));
  }

  lemma LeafDiffersAt(e: Element, next: Forest, i: nat, path: seq<nat>, latest: Option<nat>, r: nat)
    requires Ascending(path, i) && (latest.Some? ==> latest.value < i)
    requires (e.Rendered() && (r in Path(path, e.t, i)) != (r in Source(latest, e.t, i)))
          || DiffersAt(next, i + 1, r, latest, path)
    ensures DiffersAt(Leaf(e, next), i, r, latest, path)
  {
    if !DiffersAt(next, i + 1, r, latest, path) {
      ShiftsTellApart(e, i, path, latest, r);
    }
    LeafDiffers(e.(t := ShiftedAttr(e.t, i, r)), Shifted(next, i + 1, r),
                Shift(Remembered(latest, r)), ShiftStack(path, r));
  }

  lemma {:induction false} IllShapedDiffers(f: Forest, i: nat, path: seq<nat>, latest: Option<nat>) returns (r: nat)
    requires !Shaped(f, i, path, latest) && Ascending(path, i) && (latest.Some? ==> latest.value < i)
    ensures DiffersAt(f, i, r, latest, path)
    decreases f
  {
    match f
    case Group(t, kids, next) =>
      var latest1 := Latest(latest, t, i);
      AscendingPath(path, t, i);
      LatestBound(kids, i + 1, latest1);
      if !Shaped(kids, i + 1, Path(path, t, i), latest1) {
        r := IllShapedDiffers(kids, i + 1, Path(path, t, i), latest1);
        KidsDifferAt(t, kids, next, i, path, latest, r);
      } else {
        var after := LatestAfter(kids, i + 1, latest1);
        r := IllShapedDiffers(next, i + 1 + Size(kids), path, after);
        NextDiffersAt(t, kids, next, i, path, latest, latest1, after, r);
      }
    case Leaf(e, next) =>
      if Shaped(next, i + 1, path, latest) {
        AscendingPath(path, e.t, i);
        r := Telltale(Path(path, e.t, i), Source(latest, e.t, i), i + 1);
      } else {
        r := IllShapedDiffers(next, i + 1, path, latest);
      }
      LeafDiffersAt(e, next, i, path, latest, r);
  }

  /** The side condition is exact: it holds of a document if and only if the flat scan agrees with nested
      evaluation on every axis-aligned document that differs from it in what its transforms are, not in
      where they are. */
  lemma ShapeDecides(f: Forest)
    ensures WellShaped(f) <==> forall g :: SameShape(f, g) && AxisAligned(g) ==> Agrees(g)
  {
    if WellShaped(f) {
      forall g | SameShape(f, g) && AxisAligned(g)
        ensures Agrees(g)
      {
        ShapedBySameShape(f, g, 0, [], None);
        FlatScanIsNested(g);
      }
    } else {
      var r := IllShapedDiffers(f, 0, [], None);
      ShiftedKeepsShape(f, 0, r);
      assert ShiftStack([], r) == [] && Shift(Remembered(None, r)) == IDENTITY;
      assert !Agrees(Shifted(f, 0, r));
    }
  }
}
