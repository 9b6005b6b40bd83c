/** `EntityParser.build_entity_tree` of parse_entities.py: parse every block,
    drop the ones that are not entities, and hang each entity under the most
    recent earlier entity of smaller depth with a stack of open entities.

    Python appends to `stack[-1].children` in place, so an entity's list of
    children fills up after the entity was linked to its own parent.  The
    model keeps the links as indices into the flat list of entities (the
    `children` lists and `roots`) and builds the nested `Entity` values from
    them at the end. */
module TreeBuilder {
  import opened Strings
  import opened Model
  import opened Segmenter
  import opened Assembler
  import opened Patterns

  // ---------------------------------------------------------------------
  // The specification: nearest preceding smaller depth.

  /** The latest `j <= from` with `ds[j] < ds[i]`, or -1 when there is none. */
  function NearestSmallerFrom(ds: seq<nat>, i: nat, from: int): (r: int)
    requires i < |ds| && -1 <= from < i
    decreases from + 1
    ensures -1 <= r <= from
    ensures r >= 0 ==> ds[r] < ds[i]
    ensures forall m :: r < m <= from ==> ds[m] >= ds[i]
  {
    if from < 0 then -1
    else if ds[from] < ds[i] then from
    else NearestSmallerFrom(ds, i, from - 1)
  }

  /** The parent `build_entity_tree` gives entity `i`: the most recent earlier
      entity of strictly smaller depth, or -1 when `i` becomes a root. */
  function NearestSmaller(ds: seq<nat>, i: nat): (r: int)
    requires i < |ds|
    ensures -1 <= r < i
    ensures r >= 0 ==> ds[r] < ds[i]
    ensures forall m :: r < m < i ==> ds[m] >= ds[i]
  {
    NearestSmallerFrom(ds, i, i - 1)
  }

  /** A candidate with the two defining properties is the nearest smaller. */
  lemma NearestSmallerUnique(ds: seq<nat>, i: nat, t: int)
    requires i < |ds| && -1 <= t < i
    requires t >= 0 ==> ds[t] < ds[i]
    requires forall m :: t < m < i ==> ds[m] >= ds[i]
    ensures NearestSmaller(ds, i) == t
  {
  }

  function Parents(ds: seq<nat>): (p: seq<int>)
    ensures |p| == |ds| && forall i :: 0 <= i < |ds| ==> p[i] == NearestSmaller(ds, i)
  {
    seq(|ds|, i requires 0 <= i < |ds| => NearestSmaller(ds, i))
  }

  /** The indices `x < n` with `p[x] == j`, in increasing order: the children
      of `j`, or the roots when `j` is -1. */
  function Members(p: seq<int>, j: int, n: nat): seq<nat>
    requires n <= |p|
  {
    if n == 0 then []
    else Members(p, j, n - 1) + (if p[n - 1] == j then [n - 1] else [])
  }

  predicate Increasing(s: seq<nat>) {
    forall a, b :: 0 <= a < b < |s| ==> s[a] < s[b]
  }

  /** `Members` lists exactly the indices below `n` whose parent is `j`, each
      once and in document order. */
  lemma {:induction false} MembersExact(p: seq<int>, j: int, n: nat)
    requires n <= |p|
    ensures forall x :: x in Members(p, j, n) <==> 0 <= x < n && p[x] == j
    ensures Increasing(Members(p, j, n))
  {
    if n > 0 {
      MembersExact(p, j, n - 1);
      var s := Members(p, j, n - 1);
      assert forall a :: 0 <= a < |s| ==> s[a] in s;
    }
  }

  /** Every entity appears exactly once in the forest: in the children list
      of its parent, or among the roots, and in no other list. */
  lemma ExactlyOnce(ds: seq<nat>, i: nat)
    requires i < |ds|
    ensures i in Members(Parents(ds), NearestSmaller(ds, i), |ds|)
    ensures forall j :: i in Members(Parents(ds), j, |ds|) ==> j == NearestSmaller(ds, i)
  {
    MembersExact(Parents(ds), NearestSmaller(ds, i), |ds|);
    forall j | i in Members(Parents(ds), j, |ds|) ensures j == NearestSmaller(ds, i) {
      MembersExact(Parents(ds), j, |ds|);
    }
  }

  /** Two entities of equal depth with nothing shallower between them are
      siblings: they get the same parent. */
  lemma EqualDepthSiblings(ds: seq<nat>, i: nat, k: nat)
    requires i < k < |ds| && ds[i] == ds[k]
    requires forall m :: i < m < k ==> ds[m] >= ds[k]
    ensures NearestSmaller(ds, k) == NearestSmaller(ds, i)
  {
    var t := NearestSmaller(ds, i);
    forall m | t < m < k ensures ds[m] >= ds[k] {
      if m == i {
      } else if m < i {
        assert ds[m] >= ds[i];
      }
    }
    NearestSmallerUnique(ds, k, t);
  }

  /** The example of depths `[0, 1, 2, 1, 0]`: a root, its child, a grandchild,
      a second child of the first root, and a second root. */
  lemma DepthExample()
    ensures Parents([0, 1, 2, 1, 0]) == [-1, 0, 1, 0, -1]
  {
    var ds: seq<nat> := [0, 1, 2, 1, 0];
    NearestSmallerUnique(ds, 0, -1);
    NearestSmallerUnique(ds, 1, 0);
    NearestSmallerUnique(ds, 2, 1);
    NearestSmallerUnique(ds, 3, 0);
    NearestSmallerUnique(ds, 4, -1);
  }

  // ---------------------------------------------------------------------
  // The stack.

  /** What the stack of open entities holds before entity `i` is placed:
      indices in increasing order with strictly increasing depths, topped by
      entity `i - 1`; every entity below the bottom or between two stack
      entries is at least as deep as the entry above it. */
  ghost predicate StackInv(ds: seq<nat>, i: nat, stack: seq<nat>) {
    && i <= |ds|
    && (|stack| == 0 <==> i == 0)
    && (forall k :: 0 <= k < |stack| ==> stack[k] < i)
    && (|stack| > 0 ==> stack[|stack| - 1] == i - 1)
    && (forall k :: 0 <= k < |stack| - 1 ==> stack[k] < stack[k + 1] && ds[stack[k]] < ds[stack[k + 1]])
    && (forall k :: 0 <= k < |stack| - 1 ==> AllDeep(ds, stack[k] + 1, stack[k + 1], ds[stack[k + 1]]))
    && (|stack| > 0 ==> AllDeep(ds, 0, stack[0], ds[stack[0]]))
  }

  /** Entities `lo..hi-1` are all at least `d` deep. */
  ghost predicate AllDeep(ds: seq<nat>, lo: nat, hi: nat, d: nat) {
    forall m :: lo <= m < hi && m < |ds| ==> ds[m] >= d
  }

  /** Lowest index above the top of `stack`. */
  function Above(stack: seq<nat>): nat {
    if |stack| == 0 then 0 else stack[|stack| - 1] + 1
  }

  /** While entity `i` waits to be placed: `stack` is what is left of `s0`
      after popping, and everything above its top is at least as deep as
      entity `i`. */
  ghost predicate Popping(ds: seq<nat>, i: nat, s0: seq<nat>, stack: seq<nat>) {
    && i < |ds| && StackInv(ds, i, s0)
    && |stack| <= |s0| && stack == s0[..|stack|]
    && AllDeep(ds, Above(stack), i, ds[i])
  }

  lemma PopStart(ds: seq<nat>, i: nat, s0: seq<nat>)
    requires StackInv(ds, i, s0) && i < |ds|
    ensures Popping(ds, i, s0, s0)
    ensures forall k :: 0 <= k < |s0| ==> s0[k] < |ds|
  {
    assert s0[..|s0|] == s0;
  }

  /** Popping an entry at least as deep as entity `i` keeps everything above
      the remaining top at least as deep as entity `i`. */
  lemma PopStep(ds: seq<nat>, i: nat, s0: seq<nat>, stack: seq<nat>)
    requires Popping(ds, i, s0, stack) && |stack| > 0
    requires ds[stack[|stack| - 1]] >= ds[i]
    ensures Popping(ds, i, s0, stack[..|stack| - 1])
  {
    var h := |stack|;
    assert stack[h - 1] == s0[h - 1];
    if h >= 2 {
      assert stack[h - 2] == s0[h - 2];
      assert AllDeep(ds, s0[h - 2] + 1, s0[h - 1], ds[s0[h - 1]]);
    } else {
      assert AllDeep(ds, 0, s0[0], ds[s0[0]]);
    }
    assert s0[..h - 1] == stack[..h - 1];
  }

  /** When popping stops, the top is the parent of entity `i`. */
  lemma PopFound(ds: seq<nat>, i: nat, s0: seq<nat>, stack: seq<nat>)
    requires Popping(ds, i, s0, stack)
    requires |stack| > 0 ==> ds[stack[|stack| - 1]] < ds[i]
    ensures NearestSmaller(ds, i) == if |stack| > 0 then stack[|stack| - 1] else -1
  {
    var h := |stack|;
    if h > 0 {
      assert stack[h - 1] == s0[h - 1] < i;
    }
    NearestSmallerUnique(ds, i, if h > 0 then stack[h - 1] else -1);
  }

  /** Pushing entity `i` gives the stack for the next entity. */
  lemma PushStep(ds: seq<nat>, i: nat, s0: seq<nat>, stack: seq<nat>)
    requires Popping(ds, i, s0, stack)
    requires |stack| > 0 ==> ds[stack[|stack| - 1]] < ds[i]
    ensures StackInv(ds, i + 1, stack + [i])
  {
    var h := |stack|;
    var s' := stack + [i];
    assert forall k :: 0 <= k < h ==> s'[k] == s0[k];
    forall k | 0 <= k < |s'| - 1
      ensures s'[k] < s'[k + 1] && ds[s'[k]] < ds[s'[k + 1]]
      ensures AllDeep(ds, s'[k] + 1, s'[k + 1], ds[s'[k + 1]])
    {
      if k < h - 1 {
        assert s'[k + 1] == s0[k + 1];
      } else {
        assert s'[k + 1] == i;
      }
    }
    if h > 0 {
      assert AllDeep(ds, 0, s0[0], ds[s0[0]]);
    }
  }

  /** The inner `while` of `build_entity_tree`: pop every entry at least as
      deep as entity `i`. */
  method PopDeeper(ds: seq<nat>, i: nat, s0: seq<nat>) returns (stack: seq<nat>)
    requires StackInv(ds, i, s0) && i < |ds|
    ensures Popping(ds, i, s0, stack)
    ensures |stack| > 0 ==> ds[stack[|stack| - 1]] < ds[i]
  {
    stack := s0;
    PopStart(ds, i, s0);
    while |stack| > 0 && ds[stack[|stack| - 1]] >= ds[i]
      invariant Popping(ds, i, s0, stack)
    {
      PopStep(ds, i, s0, stack);
      stack := stack[..|stack| - 1];
    }
  }

  /** The links made for entities `0..i-1`: the children lists and the
      roots hold exactly those entities, under their parents in `p`. */
  ghost predicate Linked(p: seq<int>, children: seq<seq<nat>>, roots: seq<nat>, i: nat) {
    && i <= |p| == |children|
    && (forall j :: 0 <= j < |p| ==> children[j] == Members(p, j, i))
    && roots == Members(p, -1, i)
  }

  lemma LinkStart(p: seq<int>)
    ensures Linked(p, seq(|p|, _ => []), [], 0)
  {
  }

  /** Appending entity `i` to the children of its parent `t`. */
  lemma AddChild(p: seq<int>, children: seq<seq<nat>>, roots: seq<nat>, i: nat, t: nat)
    requires Linked(p, children, roots, i) && i < |p| && t < |p| && p[i] == t
    ensures Linked(p, children[t := children[t] + [i]], roots, i + 1)
  {
  }

  /** Entity `i` becomes a root. */
  lemma AddRoot(p: seq<int>, children: seq<seq<nat>>, roots: seq<nat>, i: nat)
    requires Linked(p, children, roots, i) && i < |p| && p[i] == -1
    ensures Linked(p, children, roots + [i], i + 1)
  {
  }

  /** Placing entity `i` once popping has stopped: it goes under the top of
      the stack, or among the roots when the stack is empty, and is then
      pushed. */
  lemma Place(ds: seq<nat>, i: nat, s0: seq<nat>, stack: seq<nat>, children: seq<seq<nat>>, roots: seq<nat>)
    requires Popping(ds, i, s0, stack)
    requires |stack| > 0 ==> ds[stack[|stack| - 1]] < ds[i]
    requires Linked(Parents(ds), children, roots, i)
    ensures StackInv(ds, i + 1, stack + [i])
    ensures |stack| > 0 ==> stack[|stack| - 1] < |children|
    ensures |stack| > 0 ==>
      Linked(Parents(ds), children[stack[|stack| - 1] := children[stack[|stack| - 1]] + [i]], roots, i + 1)
    ensures |stack| == 0 ==> Linked(Parents(ds), children, roots + [i], i + 1)
  {
    PopFound(ds, i, s0, stack);
    PushStep(ds, i, s0, stack);
    if |stack| > 0 {
      assert stack[|stack| - 1] == s0[|stack| - 1] < i;
      AddChild(Parents(ds), children, roots, i, stack[|stack| - 1]);
    } else {
      AddRoot(Parents(ds), children, roots, i);
    }
  }

  /** One turn of the loop of `build_entity_tree`: pop the entries at least
      as deep as entity `i`, link `i` under the new top (or among the roots)
      and push it. */
  method PlaceEntity(ds: seq<nat>, i: nat, s0: seq<nat>, children0: seq<seq<nat>>, roots0: seq<nat>)
    returns (stack: seq<nat>, children: seq<seq<nat>>, roots: seq<nat>)
    requires i < |ds| && StackInv(ds, i, s0) && Linked(Parents(ds), children0, roots0, i)
    ensures StackInv(ds, i + 1, stack) && Linked(Parents(ds), children, roots, i + 1)
  {
    stack := PopDeeper(ds, i, s0);
    Place(ds, i, s0, stack, children0, roots0);
    children, roots := children0, roots0;
    if |stack| > 0 {
      var top := stack[|stack| - 1];
      children := children[top := children[top] + [i]];
    } else {
      roots := roots + [i];
    }
    stack := stack + [i];
  }

  /** The loop of `build_entity_tree` that links the entities by depth:
      `children[j]` lists the entities whose parent is `j` and `roots` those
      without a parent, each in document order; the parent is the most
      recent earlier entity of smaller depth. */
  method LinkByDepth(ds: seq<nat>) returns (children: seq<seq<nat>>, roots: seq<nat>)
    ensures |children| == |ds|
    ensures forall j :: 0 <= j < |ds| ==> children[j] == Members(Parents(ds), j, |ds|)
    ensures roots == Members(Parents(ds), -1, |ds|)
  {
    children := seq(|ds|, _ => []);
    roots := [];
    LinkStart(Parents(ds));
    var stack: seq<nat> := [];
    for i := 0 to |ds|
      invariant StackInv(ds, i, stack)
      invariant Linked(Parents(ds), children, roots, i)
    {
      stack, children, roots := PlaceEntity(ds, i, stack, children, roots);
    }
  }

  // ---------------------------------------------------------------------
  // The whole of build_entity_tree.

  /** The entities `parse_entity` yields for `blocks`, in order, without the
      `None`s. */
  function ParsedEntities(blocks: seq<string>): seq<Entity> {
    if |blocks| == 0 then []
    else
      var e := ParseEntitySpec(blocks[|blocks| - 1]);
      ParsedEntities(blocks[..|blocks| - 1]) + (if e.Some? then [e.value] else [])
  }

  function Depths(es: seq<Entity>): (ds: seq<nat>)
    ensures |ds| == |es| && forall i :: 0 <= i < |es| ==> ds[i] == es[i].depth
  {
    seq(|es|, i requires 0 <= i < |es| => es[i].depth)
  }

  /** Index links that point forward: every child comes after its parent. */
  predicate Forward(children: seq<seq<nat>>) {
    forall j, k :: 0 <= j < |children| && 0 <= k < |children[j]| ==> j < children[j][k] < |children|
  }

  /** Entity `i` of `es` with its children attached, recursively. */
  function Nest(es: seq<Entity>, children: seq<seq<nat>>, i: nat): (r: Entity)
    requires |children| == |es| && Forward(children) && i < |es|
    decreases |es| - i
    ensures r == es[i].(children := r.children)
    ensures |r.children| == |children[i]|
    ensures forall k :: 0 <= k < |children[i]| ==> r.children[k].name == es[children[i][k]].name
  {
    var kids := seq(|children[i]|, k requires 0 <= k < |children[i]| => Nest(es, children, children[i][k]));
    es[i].(children := kids)
  }

  function Forest(es: seq<Entity>, children: seq<seq<nat>>, roots: seq<nat>): (r: seq<Entity>)
    requires |children| == |es| && Forward(children)
    requires forall k :: 0 <= k < |roots| ==> roots[k] < |es|
    ensures |r| == |roots| && forall k :: 0 <= k < |roots| ==> r[k] == Nest(es, children, roots[k])
  {
    seq(|roots|, k requires 0 <= k < |roots| => Nest(es, children, roots[k]))
  }

  /** The children lists of every entity, for the parents `p`. */
  function Links(p: seq<int>): (ch: seq<seq<nat>>)
    ensures |ch| == |p| && forall j :: 0 <= j < |p| ==> ch[j] == Members(p, j, |p|)
  {
    seq(|p|, j requires 0 <= j < |p| => Members(p, j, |p|))
  }

  /** The forest is well defined: parents precede their children. */
  lemma LinksForward(ds: seq<nat>)
    ensures Forward(Links(Parents(ds)))
    ensures forall k :: 0 <= k < |Members(Parents(ds), -1, |ds|)| ==> Members(Parents(ds), -1, |ds|)[k] < |ds|
  {
    var p := Parents(ds);
    var ch := Links(p);
    forall j, k | 0 <= j < |ch| && 0 <= k < |ch[j]| ensures j < ch[j][k] < |ch| {
      MembersExact(p, j, |p|);
      assert ch[j][k] in Members(p, j, |p|);
    }
    var rs := Members(p, -1, |p|);
    MembersExact(p, -1, |p|);
    assert forall k :: 0 <= k < |rs| ==> rs[k] in rs;
  }

  /** The value `build_entity_tree` returns for `content`. */
  function EntityForest(content: string): seq<Entity> {
    var es := ParsedEntities(EntityBlocks(content));
    var ds := Depths(es);
    LinksForward(ds);
    Forest(es, Links(Parents(ds)), Members(Parents(ds), -1, |ds|))
  }

  /** Lists that agree with `Links(p)` entry by entry are `Links(p)`. */
  lemma LinksAre(p: seq<int>, children: seq<seq<nat>>)
    requires |children| == |p|
    requires forall j :: 0 <= j < |p| ==> children[j] == Members(p, j, |p|)
    ensures children == Links(p)
  {
  }

  /** The first loop of `build_entity_tree`: parse every block and keep the
      entities. */
  method ParseAll(blocks: seq<string>) returns (entities: seq<Entity>)
    ensures entities == ParsedEntities(blocks)
  {
    entities := [];
    for b := 0 to |blocks|
      invariant entities == ParsedEntities(blocks[..b])
    {
      assert blocks[..b + 1][..b] == blocks[..b];
      var entity := ParseEntity(blocks[b]);
      if entity.Some? {
        entities := entities + [entity.value];
      }
    }
    assert blocks[..|blocks|] == blocks;
  }

  /** `build_entity_tree`, proved to compute `EntityForest`. */
  method BuildEntityTree(content: string) returns (rootEntities: seq<Entity>)
    ensures rootEntities == EntityForest(content)
  {
    var blocks := ExtractEntityBlocks(content);
    var entities := ParseAll(blocks);
    var ds := Depths(entities);
    var children, roots := LinkByDepth(ds);
    LinksAre(Parents(ds), children);
    LinksForward(ds);
    rootEntities := Forest(entities, children, roots);
  }

  // ---------------------------------------------------------------------
  // Two headers separated by a blank line, with no `└──` line between them.

  lemma HeaderLineA(a: string)
    requires a == ['<', 'E', 'n', 't', 'i', 't', 'y', ':', ' ', 'A', '>']
    ensures '\n' !in a && Contains(a, "<Entity:")
    ensures HeaderGroup(a) == Some("A") && HeaderDepth(a) == 0
  {
    GroupA(a);
    assert FirstGroup(a, "<Entity:", true, Python, '>', 0) == Some(Match(0, "A"));
    assert EntityPrefix(a[..0]);
    assert !IsDepthChar(a[0]);
  }

  lemma GroupA(a: string)
    requires a == ['<', 'E', 'n', 't', 'i', 't', 'y', ':', ' ', 'A', '>']
    ensures '\n' !in a && Contains(a, "<Entity:")
    ensures GroupAt(a, 0, "<Entity:", true, Python, '>') == Some("A")
  {
    assert StartsWithAt(a, 0, "<Entity:");
    ContainsAt(a, "<Entity:", 0);
    assert IndexOf(a, '>', 10) == Some(10);
    assert IndexOf(a, '>', 9) == Some(10);
    assert IndexOf(a, '>', 8) == Some(10);
    assert a[8..10] == [' ', 'A'];
    assert Span(a[8..10], c => IsSpace(c, Python)) == 1;
  }

  lemma StripName(n: string)
    requires n == ['A']
    ensures Strip(n, Python) == n
  {
    StripUnpadded(n, Python);
  }

  lemma HeaderLineB(b: string)
    requires b == ['<', 'E', 'n', 't', 'i', 't', 'y', ':', ' ', 'B', '>']
    ensures '\n' !in b && Contains(b, "<Entity:")
    ensures !Contains(b, "Description:") && !Contains(b, "<Morphism:")
    ensures !StartsWith(Strip(b, Python), "\"") && !ActionMarker(b)
  {
    HeaderLineBLabels(b);
    HeaderLineBShape(b);
  }

  lemma HeaderLineBLabels(b: string)
    requires b == ['<', 'E', 'n', 't', 'i', 't', 'y', ':', ' ', 'B', '>']
    ensures '\n' !in b && Contains(b, "<Entity:")
    ensures !Contains(b, "Description:") && !Contains(b, "<Morphism:")
  {
    assert StartsWithAt(b, 0, "<Entity:");
    ContainsAt(b, "<Entity:", 0);
    assert !StartsWithAt(b, 0, "<Morphism:") by { assert b[1] != 'M'; }
    assert !StartsWithAt(b, 1, "<Morphism:") by { assert b[1] != '<'; }
    assert Find(b, "<Morphism:", 2).None?;
  }

  lemma HeaderLineBShape(b: string)
    requires b == ['<', 'E', 'n', 't', 'i', 't', 'y', ':', ' ', 'B', '>']
    ensures !StartsWith(Strip(b, Python), "\"") && !ActionMarker(b)
  {
    StripUnpadded(b, Python);
    assert b[0] != '"';
    assert forall p :: 0 <= p < |b| ==> !IsBoxChar(b[p]);
  }

  /** That block parses to the entity A alone. */
  lemma MergedParse(a: string, b: string)
    requires '\n' !in a && HeaderGroup(a).Some? && HeaderDepth(a) == 0
    requires Strip(HeaderGroup(a).value, Python) == "A"
    requires '\n' !in b && !Contains(b, "Description:") && !Contains(b, "<Morphism:")
    requires !StartsWith(Strip(b, Python), "\"") && !ActionMarker(b)
    ensures ParseEntitySpec(a + "\n" + b) == Some(Entity("A", "", [], [], 0))
  {
    SecondHeaderIgnored(a, b);
  }

  /** One block yields its entity, if it is one. */
  lemma ParsedSingle(block: string)
    ensures ParsedEntities([block]) == if ParseEntitySpec(block).Some? then [ParseEntitySpec(block).value] else []
  {
    assert [block][..0] == [];
  }

  lemma SingleParents()
    ensures Parents([0]) == [-1]
  {
    NearestSmallerUnique([0], 0, -1);
  }

  /** A single entity of depth 0 is the single root. */
  lemma SingleRoot(e: Entity)
    requires e.depth == 0 && e.children == []
    ensures Depths([e]) == [0]
    ensures Forest([e], Links(Parents([0])), Members(Parents([0]), -1, 1)) == [e]
  {
    SingleParents();
    var p: seq<int> := [-1];
    assert Members(p, -1, 1) == [0];
    assert Members(p, 0, 1) == [];
    LinksAre(p, [[]]);
    assert Nest([e], [[]], 0) == e;
  }

  /** `<Entity: A>`, a blank line, `<Entity: B>`: B is lost, and the forest
      holds the single root A. */
  lemma MergedEntities(a: string, b: string)
    requires a == ['<', 'E', 'n', 't', 'i', 't', 'y', ':', ' ', 'A', '>']
    requires b == ['<', 'E', 'n', 't', 'i', 't', 'y', ':', ' ', 'B', '>']
    ensures EntityBlocks(a + "\n\n" + b) == [a + "\n" + b]
    ensures EntityForest(a + "\n\n" + b) == [Entity("A", "", [], [], 0)]
  {
    HeaderLineA(a);
    HeaderLineB(b);
    StripName("A");
    BlankKeptInsideEntity(a, b);
    MergedParse(a, b);
    ParsedSingle(a + "\n" + b);
    SingleRoot(Entity("A", "", [], [], 0));
  }
}
