/**
 The label assembly loop of `process_labels` (src/labels.cpp:347-394):
 positions and attribute rows are paired by index, noise names are dropped,
 accepted labels are lifted, given an icon through the texture cache and
 turned into billboard nodes.

 Positions arrive already transformed into scene coordinates and are kept as
 integer triples. The only amounts added to a position are the lift of 25
 and the caption offset of 7 or 0, both whole numbers, so no rounding is
 involved.
 */
module Labels {

  import opened Wrappers
  import opened Text
  import opened Dbf
  import opened Icons
  import opened TextureCache

  datatype Point = Point(x: int, y: int, z: int)

  /** Accepted labels are raised this far on the up axis (z). */
  const Lift: int := 25
  /** Half the side of the icon quad, in the quad's own frame; never added to a position. */
  const IconHalfExtent: int := 6
  /** The caption sits this far above the anchor when there is an icon under it. */
  const CaptionLift: int := 7

  /** Names that are generic tags rather than names; compared exactly and case-sensitively. */
  const StopNames: set<string> := {"public_transport", "bus_stop", "shelter", "platform"}

  /** `LabelData`: where a label goes and what it says. */
  datatype Label = Label(position: Point, name: string, kind: string, subtype: string)

  /** `std::min`. */
  function Min(a: nat, b: nat): nat {
    if a <= b then a else b
  }

  /**
   How many (position, row) pairs the loop visits: the shorter of the two
   sequences, and none at all when the attribute file could not be opened.
   */
  function PairCount(positions: nat, table: Option<seq<Record>>): (n: nat)
    ensures table.None? ==> n == 0
    ensures table.Some? ==> n <= positions && n <= |table.value|
    ensures table.Some? ==> n == positions || n == |table.value|
  {
    var count := Min(positions, |table.GetOr([])|);
    if table.None? then 0 else count
  }

  /** Every character is a digit or whitespace (the `allDigits` loop). */
  predicate AllDigitsOrSpace(s: string) {
    forall i :: 0 <= i < |s| ==> IsDigit(s[i]) || IsSpace(s[i])
  }

  /** The three filters a name must pass to become a label. */
  predicate Accepted(name: string) {
    && |name| >= 2
    && name !in StopNames
    && !AllDigitsOrSpace(name)
  }

  /** A position raised by the label lift. */
  function Raise(p: Point): Point {
    p.(z := p.z + Lift)
  }

  /** The label built from pair i: the position raised, the row's three texts. */
  function LabelAt(positions: seq<Point>, records: seq<Record>, i: nat): Label
    requires i < |positions| && i < |records|
  {
    Label(Raise(positions[i]), records[i].name, records[i].kind, records[i].subtype)
  }

  /**
   The indices below n whose row name passes the filters, in increasing
   order: exactly those, each once.
   */
  function AcceptedIndices(records: seq<Record>, n: nat): (idx: seq<nat>)
    requires n <= |records|
    ensures forall k :: 0 <= k < |idx| ==> idx[k] < n && Accepted(records[idx[k]].name)
    ensures forall k, l :: 0 <= k < l < |idx| ==> idx[k] < idx[l]
    ensures forall i :: 0 <= i < n && Accepted(records[i].name) ==> i in idx
  {
    if n == 0 then []
    else AcceptedIndices(records, n - 1) + (if Accepted(records[n - 1].name) then [n - 1] else [])
  }

  /** The labels of the first n pairs, in pair order (the filter part of the loop). */
  function Correlate(positions: seq<Point>, records: seq<Record>, n: nat): seq<Label>
    requires n <= |positions| && n <= |records|
  {
    if n == 0 then []
    else
      Correlate(positions, records, n - 1)
        + (if Accepted(records[n - 1].name) then [LabelAt(positions, records, n - 1)] else [])
  }

  /** One more pair adds its label exactly when its name is accepted. */
  lemma CorrelateStep(positions: seq<Point>, records: seq<Record>, i: nat)
    requires i < |positions| && i < |records|
    ensures Correlate(positions, records, i + 1)
            == Correlate(positions, records, i)
               + if Accepted(records[i].name) then [LabelAt(positions, records, i)] else []
  {
  }

  /**
   Correlation is a positional filter: the k-th label comes from the k-th
   accepted pair, so labels follow input order, every accepted pair gives
   exactly one label and every rejected pair gives none.
   */
  lemma {:induction false} CorrelateSpec(positions: seq<Point>, records: seq<Record>, n: nat)
    requires n <= |positions| && n <= |records|
    ensures var labels := Correlate(positions, records, n);
            var idx := AcceptedIndices(records, n);
            && |labels| == |idx|
            && forall k :: 0 <= k < |idx| ==> labels[k] == LabelAt(positions, records, idx[k])
  {
    if n > 0 {
      CorrelateSpec(positions, records, n - 1);
    }
  }

  /**
   What every label out of the loop satisfies: its name is at least two
   characters, not a stop-list tag and not only digits and whitespace, and
   its position is pair i's raised by 25.
   */
  lemma LabelsPassFilters(positions: seq<Point>, records: seq<Record>, n: nat, k: nat)
    requires n <= |positions| && n <= |records|
    requires k < |Correlate(positions, records, n)|
    ensures var l := Correlate(positions, records, n)[k];
            && |l.name| >= 2
            && l.name !in StopNames
            && (exists i :: 0 <= i < |l.name| && !IsDigit(l.name[i]) && !IsSpace(l.name[i]))
            && exists i :: 0 <= i < n && l.position == positions[i].(z := positions[i].z + 25) && l.name == records[i].name
  {
    CorrelateSpec(positions, records, n);
    var i := AcceptedIndices(records, n)[k];
    assert Correlate(positions, records, n)[k] == LabelAt(positions, records, i);
  }

  /** The examples the filters are meant to reject and to keep. */
  lemma FilterExamples()
    ensures !Accepted("12345")
    ensures !Accepted("A")
    ensures !Accepted("bus_stop")
    ensures Accepted("Bus Stop 12")
    ensures Accepted("Cafe Rex")
    ensures !Accepted("12")
  {
    assert "12345"[0] == '1';
    var s := "Bus Stop 12";
    assert !IsDigit(s[0]) && !IsSpace(s[0]);
    var c := "Cafe Rex";
    assert !IsDigit(c[0]) && !IsSpace(c[0]);
  }

  // ------------------------------------------------------------ label nodes

  /** One drawable of a label's billboard. */
  datatype Drawable<R> =
    | IconQuad(anchor: Point, halfExtent: int, texture: R)
    | Caption(anchor: Point, text: string)

  /** `createLabelNode`'s result: a camera-facing node holding its drawables in order. */
  datatype Billboard<R> = Billboard(drawables: seq<Drawable<R>>)

  /** Where the caption goes: above the icon when there is one, at the anchor otherwise. */
  function CaptionAnchor(p: Point, hasIcon: bool): Point {
    p.(z := p.z + if hasIcon then CaptionLift else 0)
  }

  /**
   `createLabelNode` (src/labels.cpp:253-318) reduced to its content: an
   icon quad when there is a texture, a caption when the name is non-empty,
   in that order; never fails, possibly empty.
   */
  function BuildNode<R>(data: Label, icon: Option<R>): (b: Billboard<R>)
    ensures |b.drawables| == (if icon.Some? then 1 else 0) + (if data.name != "" then 1 else 0)
    ensures icon.Some? ==> b.drawables[0] == IconQuad(data.position, IconHalfExtent, icon.value)
    ensures data.name != "" ==>
              b.drawables[|b.drawables| - 1] == Caption(CaptionAnchor(data.position, icon.Some?), data.name)
  {
    var quad := if icon.Some? then [IconQuad(data.position, IconHalfExtent, icon.value)] else [];
    var text := if data.name != "" then [Caption(CaptionAnchor(data.position, icon.Some?), data.name)] else [];
    Billboard(quad + text)
  }

  /**
   With a texture and a name the billboard holds the icon and then the
   caption, the caption straight above the icon's centre by 7 units.
   */
  lemma CaptionAboveIcon<R>(data: Label, icon: R)
    requires data.name != ""
    ensures var d := BuildNode(data, Some(icon)).drawables;
            && |d| == 2 && d[0].IconQuad? && d[1].Caption?
            && d[1].anchor.x == d[0].anchor.x && d[1].anchor.y == d[0].anchor.y
            && d[1].anchor.z == d[0].anchor.z + 7
  {
  }

  /** The texture key of a label. */
  function IconKeyOf(l: Label): string {
    Classify(l.kind, l.subtype)
  }

  /** The resource a label ends up with: whatever the loader gives for its texture. */
  function IconFor<R>(l: Label, load: string -> Option<R>): Option<R> {
    load(TextureRoot + IconKeyOf(l))
  }

  /** The node of every label, each with the texture its type and subtype select. */
  function NodesFor<R>(labels: seq<Label>, load: string -> Option<R>): (nodes: seq<Billboard<R>>)
    ensures |nodes| == |labels|
    ensures forall k :: 0 <= k < |labels| ==> nodes[k] == BuildNode(labels[k], IconFor(labels[k], load))
  {
    seq(|labels|, k requires 0 <= k < |labels| => BuildNode(labels[k], IconFor(labels[k], load)))
  }

  /** One more label adds its node at the end. */
  lemma NodesForStep<R>(labels: seq<Label>, l: Label, load: string -> Option<R>)
    ensures NodesFor(labels + [l], load) == NodesFor(labels, load) + [BuildNode(l, IconFor(l, load))]
  {
    var longer := labels + [l];
    assert forall k :: 0 <= k < |labels| ==> longer[k] == labels[k];
  }

  /** The texture keys of the labels whose texture loads. */
  function LoadedKeys<R>(labels: seq<Label>, load: string -> Option<R>): set<string> {
    set k | 0 <= k < |labels| && IconFor(labels[k], load).Some? :: IconKeyOf(labels[k])
  }

  /** One more label adds its texture key exactly when its texture loads. */
  lemma LoadedKeysStep<R>(labels: seq<Label>, l: Label, load: string -> Option<R>)
    ensures LoadedKeys(labels + [l], load)
            == LoadedKeys(labels, load) + if IconFor(l, load).Some? then {IconKeyOf(l)} else {}
  {
    var longer := labels + [l];
    forall key | key in LoadedKeys(longer, load)
      ensures key in LoadedKeys(labels, load) || (IconFor(l, load).Some? && key == IconKeyOf(l))
    {
      var k :| 0 <= k < |longer| && IconFor(longer[k], load).Some? && key == IconKeyOf(longer[k]);
      if k < |labels| {
        assert longer[k] == labels[k];
      }
    }
    forall key | key in LoadedKeys(labels, load)
      ensures key in LoadedKeys(longer, load)
    {
      var k :| 0 <= k < |labels| && IconFor(labels[k], load).Some? && key == IconKeyOf(labels[k]);
      assert longer[k] == labels[k];
    }
    if IconFor(l, load).Some? {
      assert longer[|labels|] == l;
    }
  }

  lemma LoadedKeysAreIcons<R>(labels: seq<Label>, load: string -> Option<R>)
    ensures LoadedKeys(labels, load) <= IconKeys
  {
  }

  /** The texture names the labels ask the cache for, in label order. */
  function Requests(labels: seq<Label>): (keys: seq<string>)
    ensures |keys| == |labels|
    ensures forall k :: 0 <= k < |labels| ==> keys[k] == IconKeyOf(labels[k])
  {
    seq(|labels|, k requires 0 <= k < |labels| => IconKeyOf(labels[k]))
  }

  /** One more label asks for its own texture name at the end. */
  lemma RequestsStep(labels: seq<Label>, l: Label)
    ensures Requests(labels + [l]) == Requests(labels) + [IconKeyOf(l)]
  {
    var longer := labels + [l];
    assert forall k :: 0 <= k < |labels| ==> longer[k] == labels[k];
  }

  /**
   A texture that loads and is not among the loaded names of the earlier
   labels was not asked for by any of them: the loader is a function of the
   name, so an earlier request would have loaded it.
   */
  lemma FirstRequestOfLoadable<R>(labels: seq<Label>, l: Label, load: string -> Option<R>)
    requires IconFor(l, load).Some? && IconKeyOf(l) !in LoadedKeys(labels, load)
    ensures IconKeyOf(l) !in Requests(labels)
  {
    forall k | 0 <= k < |labels|
      ensures Requests(labels)[k] != IconKeyOf(l)
    {
      if IconKeyOf(labels[k]) == IconKeyOf(l) {
        assert IconFor(labels[k], load) == IconFor(l, load);
      }
    }
  }

  /**
   The names `loads` passed to the loader while serving `labels`, against
   the names `cached` at the end: a texture that loaded was loaded exactly
   once, and a texture that did not load was tried again for every label
   that asked for it.
   */
  ghost predicate LoadLog(labels: seq<Label>, cached: set<string>, loads: seq<string>)
  {
    && (forall key :: key in cached ==> multiset(loads)[key] == 1)
    && (forall key :: key !in cached ==> multiset(loads)[key] == multiset(Requests(labels))[key])
  }

  /**
   One label served: the log grows by the label's name exactly when the name
   was not cached, and the log keeps its meaning for the longer label list.
   */
  lemma LoadLogStep<R>(labels: seq<Label>, l: Label, load: string -> Option<R>,
                       cached: set<string>, loads: seq<string>)
    requires cached == LoadedKeys(labels, load)
    requires LoadLog(labels, cached, loads)
    ensures var key := IconKeyOf(l);
            var cached' := cached + if IconFor(l, load).Some? then {key} else {};
            var loads' := if key in cached then loads else loads + [key];
            LoadLog(labels + [l], cached', loads')
  {
    var key := IconKeyOf(l);
    RequestsStep(labels, l);
    assert multiset(Requests(labels + [l])) == multiset(Requests(labels)) + multiset{key};
    if key !in cached && IconFor(l, load).Some? {
      FirstRequestOfLoadable(labels, l, load);
      assert multiset(Requests(labels))[key] == 0;
    }
  }

  /**
   The tail of one loop iteration (src/labels.cpp:385-393): classify the
   label, look its texture up through the cache, build the node. The loader
   runs exactly when the name is not cached; the node carries what a fresh
   load of the texture gives, the cache gains the key only when the texture
   loads, and stays faithful to the loader.
   */
  method IconAndNode<R>(ld: Label, cache: map<string, R>, load: string -> Option<R>)
    returns (node: Billboard<R>, cache': map<string, R>, loaded: bool)
    requires Faithful(cache, load)
    ensures loaded <==> IconKeyOf(ld) !in cache
    ensures node == BuildNode(ld, IconFor(ld, load))
    ensures cache'.Keys == cache.Keys + if IconFor(ld, load).Some? then {IconKeyOf(ld)} else {}
    ensures Faithful(cache', load)
  {
    var iconFile := Classify(ld.kind, ld.subtype);
    var icon: Option<R> := None;
    cache', loaded := cache, false;
    LookupTransparent(iconFile, cache, load);
    if iconFile != "" {
      var lookup := GetShared(iconFile, cache, load);
      icon := lookup.found;
      cache' := lookup.cache;
      loaded := lookup.loaded;
    }
    node := BuildNode(ld, icon);
  }

  /**
   The loop of `process_labels` from pairing to nodes. The cache starts
   empty; each accepted label gets the node `BuildNode` makes from it and the
   texture its type and subtype select. `loads` lists the texture names
   handed to the loader, in call order: each texture that loaded was loaded
   once, each that did not was tried once per label asking for it. The cache
   ends holding exactly the textures that loaded, each the loader's own
   result, and only names from the icon table.
   */
  method ProcessLabels<R>(positions: seq<Point>, table: Option<seq<Record>>, load: string -> Option<R>)
    returns (nodes: seq<Billboard<R>>, cache: map<string, R>, loads: seq<string>)
    ensures var labels := Correlate(positions, table.GetOr([]), PairCount(|positions|, table));
            && nodes == NodesFor(labels, load)
            && cache.Keys == LoadedKeys(labels, load)
            && LoadLog(labels, cache.Keys, loads)
    ensures Faithful(cache, load)
    ensures cache.Keys <= IconKeys
  {
    var records := table.GetOr([]);
    var count := Min(|positions|, |records|);
    if table.None? {
      count := 0;
    }
    nodes, cache, loads := [], map[], [];
    ghost var done: seq<Label> := [];
    var i := 0;
    while i < count
      invariant 0 <= i <= count
      invariant count == PairCount(|positions|, table)
      invariant count <= |positions| && count <= |records|
      invariant done == Correlate(positions, records, i)
      invariant nodes == NodesFor(done, load)
      invariant cache.Keys == LoadedKeys(done, load)
      invariant Faithful(cache, load)
      invariant LoadLog(done, cache.Keys, loads)
    {
      CorrelateStep(positions, records, i);
      if Accepted(records[i].name) {
        var ld := LabelAt(positions, records, i);
        LoadLogStep(done, ld, load, cache.Keys, loads);
        var node, loaded;
        node, cache, loaded := IconAndNode(ld, cache, load);
        if loaded {
          loads := loads + [IconKeyOf(ld)];
        }
        LoadedKeysStep(done, ld, load);
        NodesForStep(done, ld, load);
        nodes := nodes + [node];
        done := done + [ld];
      }
      i := i + 1;
    }
    LoadedKeysAreIcons(Correlate(positions, records, count), load);
  }
}
