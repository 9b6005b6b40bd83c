/** `EntityRenderer.parseEntityBlock` of entity_parser.js: one block of lines
    turned into a nested entity object under a synthetic, unnamed root. */
module JsBlockParser {
  import opened Strings
  import opened Patterns
  import opened Model
  import JsBlocks

  /** The object literal `{name, description, morphisms, children}`. */
  datatype JsEntity = JsEntity(name: string, description: string, morphisms: seq<Morphism>, children: seq<JsEntity>)

  /** One entity object while the loop runs; `children` holds the indices in
      `nodes` of the objects pushed onto its `children` array. */
  datatype Node = Node(name: string, description: string, morphisms: seq<Morphism>, children: seq<nat>)

  /** The loop's variables, with every object created so far kept in
      `nodes` (index 0 is `entityData`): `nodeStack` as indices, `currentNode`
      as an index, and `currentMorphism` as the pair (owner index, position
      in its `morphisms`), which is how the object it names is reached. */
  datatype ParseState = ParseState(nodes: seq<Node>, stack: seq<nat>, current: nat, morphism: Option<(nat, nat)>)

  const Init := ParseState([Node("", "", [], [])], [0], 0, None)

  /** Every index held by the state names an existing object, and children
      come after their parent. */
  predicate Valid(st: ParseState) {
    && |st.nodes| > 0 && |st.stack| > 0 && st.current < |st.nodes|
    && (forall k :: 0 <= k < |st.stack| ==> st.stack[k] < |st.nodes|)
    && (st.morphism.Some? ==> st.morphism.value.0 < |st.nodes| && st.morphism.value.1 < |st.nodes[st.morphism.value.0].morphisms|)
    && ChildrenAfter(st.nodes)
  }

  predicate ChildrenAfter(nodes: seq<Node>) {
    forall i, j :: 0 <= i < |nodes| && 0 <= j < |nodes[i].children| ==> i < nodes[i].children[j] < |nodes|
  }

  // ---------------------------------------------------------------------
  // The four kinds of line, tried in this order.

  /** `<Entity: NAME>`: a new object, pushed onto the children of the
      stack's top and onto the stack; it becomes the current node. */
  function AddEntity(st: ParseState, name: string): (r: ParseState)
    requires Valid(st)
  {
    var k := |st.nodes|;
    var top := st.stack[|st.stack| - 1];
    var parent := st.nodes[top].(children := st.nodes[top].children + [k]);
    ParseState(st.nodes[top := parent] + [Node(name, "", [], [])], st.stack + [k], k, st.morphism)
  }

  /** `Description: "TEXT"`: overwrites the current node's description. */
  function SetDescription(st: ParseState, d: string): (r: ParseState)
    requires Valid(st)
  {
    st.(nodes := st.nodes[st.current := st.nodes[st.current].(description := d)])
  }

  /** `<Morphism: NAME>`: a new morphism appended to the current node, which
      becomes the current morphism. */
  function AddMorphism(st: ParseState, name: string): (r: ParseState)
    requires Valid(st)
  {
    var n := st.nodes[st.current];
    var n' := n.(morphisms := n.morphisms + [Morphism(name, [])]);
    ParseState(st.nodes[st.current := n'], st.stack, st.current, Some((st.current, |n.morphisms|)))
  }

  /** `[ACTION]`: appended to the actions of the current morphism, wherever
      that morphism lives. */
  function AddAction(st: ParseState, a: string): (r: ParseState)
    requires Valid(st) && st.morphism.Some?
  {
    var (i, j) := st.morphism.value;
    var n := st.nodes[i];
    var m := n.morphisms[j];
    var n' := n.(morphisms := n.morphisms[j := m.(actions := m.actions + [a])]);
    st.(nodes := st.nodes[i := n'])
  }

  /** What a trimmed line is, by the first of the four patterns it
      matches; an action line is told apart only after the other three. */
  datatype LineKind = EntityLine(name: string) | DescriptionLine(text: string) | MorphismLine(name: string) | ActionLine(text: string) | OtherLine

  function Classify(t: string): (k: LineKind)
    ensures k.EntityLine? <==> JsTagName(t, "<Entity:").Some?
    ensures k.DescriptionLine? <==> JsTagName(t, "<Entity:").None? && JsDescription(t).Some?
    ensures k.MorphismLine? <==> JsTagName(t, "<Entity:").None? && JsDescription(t).None? && JsTagName(t, "<Morphism:").Some?
    ensures k.ActionLine? <==> JsTagName(t, "<Entity:").None? && JsDescription(t).None? && JsTagName(t, "<Morphism:").None? && JsAction(t).Some?
    ensures (k.EntityLine? || k.MorphismLine?) ==> |k.name| > 0 && '>' !in k.name
    ensures (k.DescriptionLine? || k.ActionLine?) ==> |k.text| > 0
    ensures k.DescriptionLine? ==> '"' !in k.text && '"' in t
    ensures k.ActionLine? ==> ']' !in k.text
  {
    match JsTagName(t, "<Entity:")
    case Some(name) => EntityLine(name)
    case None =>
      match JsDescription(t)
      case Some(d) => DescriptionLine(d)
      case None =>
        match JsTagName(t, "<Morphism:")
        case Some(name) => MorphismLine(name)
        case None =>
          match JsAction(t)
          case Some(a) => ActionLine(a)
          case None => OtherLine
  }

  function Kind(raw: string): LineKind {
    Classify(Strip(raw, JavaScript))
  }

  /** One iteration for a line of kind `k`; an action with no current
      morphism is dropped. */
  function StepOn(st: ParseState, k: LineKind): (r: ParseState)
    requires Valid(st)
  {
    match k
    case EntityLine(name) => AddEntity(st, name)
    case DescriptionLine(d) => SetDescription(st, d)
    case MorphismLine(name) => AddMorphism(st, name)
    case ActionLine(a) => if st.morphism.Some? then AddAction(st, a) else st
    case OtherLine => st
  }

  /** One iteration over an untrimmed line. */
  function Step(st: ParseState, raw: string): (r: ParseState)
    requires Valid(st)
  {
    StepOn(st, Kind(raw))
  }

  lemma AddEntityValid(st: ParseState, name: string)
    requires Valid(st)
    ensures Valid(AddEntity(st, name))
  {
    var r := AddEntity(st, name);
    assert forall i :: 0 <= i < |st.nodes| ==> r.nodes[i].morphisms == st.nodes[i].morphisms;
    forall i, j | 0 <= i < |r.nodes| && 0 <= j < |r.nodes[i].children|
      ensures i < r.nodes[i].children[j] < |r.nodes|
    {
      if i < |st.nodes| && j < |st.nodes[i].children| {
        assert r.nodes[i].children[j] == st.nodes[i].children[j];
      }
    }
  }

  lemma StepValid(st: ParseState, k: LineKind)
    requires Valid(st)
    ensures Valid(StepOn(st, k))
  {
    if k.EntityLine? {
      AddEntityValid(st, k.name);
    } else {
      assert forall i :: 0 <= i < |st.nodes| ==> StepOn(st, k).nodes[i].children == st.nodes[i].children;
    }
  }

  /** The state after `lines`; `Valid` holds throughout. */
  function Scan(lines: seq<string>): (r: ParseState)
    ensures Valid(r)
  {
    if |lines| == 0 then Init
    else
      var st := Scan(lines[..|lines| - 1]);
      StepValid(st, Kind(lines[|lines| - 1]));
      Step(st, lines[|lines| - 1])
  }

  /** The nested object reachable from `nodes[k]`. */
  function Tree(nodes: seq<Node>, k: nat): (e: JsEntity)
    requires ChildrenAfter(nodes) && k < |nodes|
    decreases |nodes| - k
  {
    var n := nodes[k];
    JsEntity(n.name, n.description, n.morphisms,
      seq(|n.children|, j requires 0 <= j < |n.children| => Tree(nodes, n.children[j])))
  }

  /** The value `parseEntityBlock(block)` returns. */
  function ParseBlock(block: string): JsEntity {
    Tree(Scan(Split(block)).nodes, 0)
  }

  // ---------------------------------------------------------------------
  // The stack is never popped: the entities form one chain.

  /** Each object's only child is the next one. */
  predicate Linked(nodes: seq<Node>) {
    forall k :: 0 <= k < |nodes| ==> nodes[k].children == if k + 1 < |nodes| then [k + 1] else []
  }

  /** `nodeStack` holds every object in creation order, the current node is
      the last one, and the objects are linked one after the other. */
  predicate Chain(st: ParseState) {
    && |st.nodes| > 0
    && st.stack == seq(|st.nodes|, i => i)
    && st.current == |st.nodes| - 1
    && Linked(st.nodes)
  }

  lemma StepChain(st: ParseState, k: LineKind)
    requires Valid(st) && Chain(st)
    ensures Chain(StepOn(st, k))
  {
    var r := StepOn(st, k);
    if k.EntityLine? {
      assert r.stack == st.stack + [|st.nodes|];
      assert forall i :: 0 <= i < |r.nodes| ==> r.nodes[i].children == if i + 1 < |r.nodes| then [i + 1] else [];
    } else {
      assert |r.nodes| == |st.nodes| && r.stack == st.stack && r.current == st.current;
      assert forall i :: 0 <= i < |r.nodes| ==> r.nodes[i].children == st.nodes[i].children;
    }
  }

  lemma {:induction false} ScanChain(lines: seq<string>)
    ensures Chain(Scan(lines))
  {
    if |lines| == 0 {
      assert Init.stack == seq(1, i => i);
    } else {
      ScanChain(lines[..|lines| - 1]);
      StepChain(Scan(lines[..|lines| - 1]), Kind(lines[|lines| - 1]));
    }
  }

  /** The name a line of kind `k` contributes, if it opens an entity. */
  function NameOf(k: LineKind): seq<string> {
    if k.EntityLine? then [k.name] else []
  }

  /** The entity names in `lines`, in order. */
  function EntityNames(lines: seq<string>): seq<string> {
    if |lines| == 0 then [] else EntityNames(lines[..|lines| - 1]) + NameOf(Kind(lines[|lines| - 1]))
  }

  /** The objects' names in creation order. */
  function NodeNames(nodes: seq<Node>): (r: seq<string>)
    ensures |r| == |nodes| && forall i :: 0 <= i < |nodes| ==> r[i] == nodes[i].name
  {
    seq(|nodes|, i requires 0 <= i < |nodes| => nodes[i].name)
  }

  /** Only an entity line creates an object, and names are never changed. */
  lemma StepNamed(st: ParseState, k: LineKind)
    requires Valid(st)
    ensures NodeNames(StepOn(st, k).nodes) == NodeNames(st.nodes) + NameOf(k)
  {
    var r := StepOn(st, k);
    assert forall i :: 0 <= i < |st.nodes| ==> r.nodes[i].name == st.nodes[i].name;
  }

  /** Object 0 is the unnamed root, and object `k + 1` carries the name on
      the `k`-th `<Entity:` line. */
  lemma {:induction false} ScanNamed(lines: seq<string>)
    ensures NodeNames(Scan(lines).nodes) == [""] + EntityNames(lines)
  {
    if |lines| == 0 {
      assert NodeNames(Init.nodes) == [""];
    } else {
      var prefix := lines[..|lines| - 1];
      var k := Kind(lines[|lines| - 1]);
      ScanNamed(prefix);
      StepNamed(Scan(prefix), k);
      assert Scan(lines).nodes == StepOn(Scan(prefix), k).nodes;
      assert EntityNames(lines) == EntityNames(prefix) + NameOf(k);
      assert [""] + EntityNames(prefix) + NameOf(k) == [""] + (EntityNames(prefix) + NameOf(k));
    }
  }

  /** The names along the first-child path from `e`. */
  function ChainNames(e: JsEntity): seq<string> {
    [e.name] + if |e.children| > 0 then ChainNames(e.children[0]) else []
  }

  /** No object has more than one child. */
  predicate IsChain(e: JsEntity) {
    |e.children| <= 1 && forall c :: c in e.children ==> IsChain(c)
  }

  /** In linked nodes, every object but the last has the next one as its
      only child. */
  lemma TreeLinked(nodes: seq<Node>, k: nat)
    requires ChildrenAfter(nodes) && Linked(nodes) && k < |nodes|
    ensures Tree(nodes, k).name == nodes[k].name
    ensures Tree(nodes, k).children == if k + 1 < |nodes| then [Tree(nodes, k + 1)] else []
  {
    var n := nodes[k];
    assert n.children == if k + 1 < |nodes| then [k + 1] else [];
  }

  lemma NodeNamesFrom(nodes: seq<Node>, k: nat)
    requires k < |nodes|
    ensures NodeNames(nodes)[k..] == [nodes[k].name] + NodeNames(nodes)[k + 1..]
  {
  }

  lemma {:induction false} TreeChain(nodes: seq<Node>, k: nat)
    requires ChildrenAfter(nodes) && Linked(nodes) && k < |nodes|
    ensures IsChain(Tree(nodes, k))
    ensures ChainNames(Tree(nodes, k)) == NodeNames(nodes)[k..]
    decreases |nodes| - k
  {
    var e := Tree(nodes, k);
    TreeLinked(nodes, k);
    NodeNamesFrom(nodes, k);
    if k + 1 < |nodes| {
      TreeChain(nodes, k + 1);
      assert ChainNames(e) == [e.name] + ChainNames(Tree(nodes, k + 1));
    } else {
      assert ChainNames(e) == [e.name];
      assert NodeNames(nodes)[k + 1..] == [];
    }
  }

  /** `parseEntityBlock` returns a chain: the unnamed root, then one object
      per `<Entity:` line in order, each the only child of the one before. */
  lemma ParsedChain(block: string)
    ensures IsChain(ParseBlock(block))
    ensures ChainNames(ParseBlock(block)) == [""] + EntityNames(Split(block))
  {
    var st := Scan(Split(block));
    ScanChain(Split(block));
    ScanNamed(Split(block));
    TreeChain(st.nodes, 0);
    assert NodeNames(st.nodes)[0..] == NodeNames(st.nodes);
  }

  // ---------------------------------------------------------------------
  // What is captured.

  /** A kind as `Classify` produces it: names, descriptions and actions are
      non-empty and stop before their closing character. */
  predicate GoodKind(k: LineKind) {
    match k
    case EntityLine(name) => |name| > 0 && '>' !in name
    case DescriptionLine(d) => |d| > 0 && '"' !in d
    case MorphismLine(name) => |name| > 0 && '>' !in name
    case ActionLine(a) => |a| > 0 && ']' !in a
    case OtherLine => true
  }

  predicate GoodMorphism(m: Morphism) {
    && |m.name| > 0 && '>' !in m.name
    && forall a :: 0 <= a < |m.actions| ==> |m.actions[a]| > 0 && ']' !in m.actions[a]
  }

  /** Captured text is never empty: a description is empty only while unset,
      and every morphism name and action is a non-empty capture. */
  predicate Captured(nodes: seq<Node>) {
    forall k :: 0 <= k < |nodes| ==>
      && (nodes[k].description == "" || '"' !in nodes[k].description)
      && (forall j :: 0 <= j < |nodes[k].morphisms| ==> GoodMorphism(nodes[k].morphisms[j]))
  }

  lemma StepCaptured(st: ParseState, k: LineKind)
    requires Valid(st) && Captured(st.nodes) && GoodKind(k)
    ensures Captured(StepOn(st, k).nodes)
  {
    var r := StepOn(st, k);
    if k.ActionLine? && st.morphism.Some? {
      var (i, j) := st.morphism.value;
      var m := st.nodes[i].morphisms[j];
      assert r.nodes[i].morphisms[j] == m.(actions := m.actions + [k.text]);
      assert forall q :: 0 <= q < |r.nodes| && q != i ==> r.nodes[q] == st.nodes[q];
      assert forall q :: 0 <= q < |r.nodes[i].morphisms| && q != j ==> r.nodes[i].morphisms[q] == st.nodes[i].morphisms[q];
    } else if k.MorphismLine? {
      var c := st.current;
      assert forall q :: 0 <= q < |r.nodes| && q != c ==> r.nodes[q] == st.nodes[q];
      assert forall q :: 0 <= q < |st.nodes[c].morphisms| ==> r.nodes[c].morphisms[q] == st.nodes[c].morphisms[q];
    } else if k.EntityLine? {
      assert forall q :: 0 <= q < |st.nodes| ==> r.nodes[q].morphisms == st.nodes[q].morphisms && r.nodes[q].description == st.nodes[q].description;
    }
  }

  lemma {:induction false} ScanCaptured(lines: seq<string>)
    ensures Captured(Scan(lines).nodes)
  {
    if |lines| > 0 {
      ScanCaptured(lines[..|lines| - 1]);
      StepCaptured(Scan(lines[..|lines| - 1]), Kind(lines[|lines| - 1]));
    }
  }

  /** No object has a description. */
  predicate Undescribed(nodes: seq<Node>) {
    forall k :: 0 <= k < |nodes| ==> nodes[k].description == ""
  }

  lemma StepUndescribed(st: ParseState, k: LineKind)
    requires Valid(st) && Undescribed(st.nodes) && !k.DescriptionLine?
    ensures Undescribed(StepOn(st, k).nodes)
  {
    var r := StepOn(st, k);
    if k.EntityLine? {
      assert forall q :: 0 <= q < |st.nodes| ==> r.nodes[q].description == st.nodes[q].description;
    }
  }

  /** A line without a double quote is never a description line. */
  lemma QuotelessKind(raw: string)
    requires '"' !in raw
    ensures !Kind(raw).DescriptionLine?
  {
    InfixChars(Strip(raw, JavaScript), raw, '"');
  }

  lemma {:induction false} ScanUndescribed(lines: seq<string>)
    requires forall i :: 0 <= i < |lines| ==> '"' !in lines[i]
    ensures Undescribed(Scan(lines).nodes)
  {
    if |lines| > 0 {
      ScanUndescribed(lines[..|lines| - 1]);
      QuotelessKind(lines[|lines| - 1]);
      StepUndescribed(Scan(lines[..|lines| - 1]), Kind(lines[|lines| - 1]));
    }
  }

  /** Every object of a returned tree. */
  predicate AllNodes(e: JsEntity, p: JsEntity -> bool) {
    p(e) && forall c :: c in e.children ==> AllNodes(c, p)
  }

  lemma {:induction false} TreeAll(nodes: seq<Node>, k: nat, p: JsEntity -> bool, q: Node -> bool)
    requires ChildrenAfter(nodes) && k < |nodes|
    requires forall i :: 0 <= i < |nodes| ==> q(nodes[i])
    requires forall n: Node, cs: seq<JsEntity> :: q(n) ==> p(JsEntity(n.name, n.description, n.morphisms, cs))
    ensures AllNodes(Tree(nodes, k), p)
    decreases |nodes| - k
  {
    var e := Tree(nodes, k);
    forall c | c in e.children ensures AllNodes(c, p) {
      var j :| 0 <= j < |e.children| && e.children[j] == c;
      TreeAll(nodes, nodes[k].children[j], p, q);
    }
  }

  predicate EntityCaptured(e: JsEntity) {
    (e.description == "" || '"' !in e.description) && forall j :: 0 <= j < |e.morphisms| ==> GoodMorphism(e.morphisms[j])
  }

  predicate NodeCaptured(n: Node) {
    (n.description == "" || '"' !in n.description) && forall j :: 0 <= j < |n.morphisms| ==> GoodMorphism(n.morphisms[j])
  }

  /** Every object `parseEntityBlock` returns has either no description or
      one without a double quote, and every morphism name and action it
      holds is a non-empty capture. */
  lemma ParsedCaptures(block: string)
    ensures AllNodes(ParseBlock(block), EntityCaptured)
  {
    ScanCaptured(Split(block));
    TreeAll(Scan(Split(block)).nodes, 0, EntityCaptured, NodeCaptured);
  }

  /** Blocks from `extractBlocks` have been escaped, so they hold no double
      quote, and `parseEntityBlock` sets no description on any of them. */
  lemma ExtractedBlocksUndescribed(cleaned: string, b: nat)
    requires b < |JsBlocks.Blocks(cleaned)|
    ensures AllNodes(ParseBlock(JsBlocks.Blocks(cleaned)[b]), (e: JsEntity) => e.description == "")
  {
    var block := JsBlocks.Blocks(cleaned)[b];
    JsBlocks.BlocksSplit(cleaned);
    JsBlocks.BlocksWellFormed(cleaned);
    assert Split(block) == JsBlocks.BlockLines(cleaned)[b];
    ScanUndescribed(Split(block));
    TreeAll(Scan(Split(block)).nodes, 0, (e: JsEntity) => e.description == "", (n: Node) => n.description == "");
  }

  // ---------------------------------------------------------------------
  // Where actions go.

  /** Some line of `lines` is a morphism header. */
  predicate HasMorphismLine(lines: seq<string>) {
    |lines| > 0 && (HasMorphismLine(lines[..|lines| - 1]) || Kind(lines[|lines| - 1]).MorphismLine?)
  }

  /** No object has a morphism. */
  predicate NoMorphisms(nodes: seq<Node>) {
    forall k :: 0 <= k < |nodes| ==> nodes[k].morphisms == []
  }

  lemma StepMorphism(st: ParseState, k: LineKind)
    requires Valid(st)
    ensures StepOn(st, k).morphism.Some? <==> st.morphism.Some? || k.MorphismLine?
    ensures st.morphism.None? && NoMorphisms(st.nodes) && !k.MorphismLine? ==> NoMorphisms(StepOn(st, k).nodes)
  {
    if st.morphism.None? && !k.MorphismLine? {
      var r := StepOn(st, k);
      assert forall q :: 0 <= q < |st.nodes| ==> r.nodes[q].morphisms == st.nodes[q].morphisms;
    }
  }

  /** Before the first morphism header there is no current morphism and no
      object has a morphism, so every action line is dropped; from the first
      header on there is always a current morphism. */
  lemma {:induction false} NoMorphismYet(lines: seq<string>)
    ensures Scan(lines).morphism.Some? <==> HasMorphismLine(lines)
    ensures !HasMorphismLine(lines) ==> NoMorphisms(Scan(lines).nodes)
  {
    if |lines| > 0 {
      NoMorphismYet(lines[..|lines| - 1]);
      StepMorphism(Scan(lines[..|lines| - 1]), Kind(lines[|lines| - 1]));
    }
  }

  /** `currentMorphism` is not reset by an entity header: an action after a
      new `<Entity:` line still goes to the earlier entity's morphism, and
      the new entity keeps no morphism. */
  lemma ActionAfterNewEntity(st: ParseState, name: string, a: string)
    requires Valid(st) && st.morphism.Some?
    ensures Valid(StepOn(st, EntityLine(name)))
    ensures StepOn(st, EntityLine(name)).morphism == st.morphism
    ensures
      var (i, j) := st.morphism.value;
      var st2 := StepOn(StepOn(st, EntityLine(name)), ActionLine(a));
      && i < st2.current && st2.nodes[st2.current].morphisms == []
      && st2.nodes[i].morphisms[j].actions == st.nodes[i].morphisms[j].actions + [a]
  {
    StepValid(st, EntityLine(name));
  }

  // ---------------------------------------------------------------------
  // The loop.

  lemma ScanNext(lines: seq<string>, i: nat)
    requires i < |lines|
    ensures Scan(lines[..i + 1]) == StepOn(Scan(lines[..i]), Kind(lines[i]))
  {
    assert lines[..i + 1][..i] == lines[..i];
  }

  /** The body of the loop of `parseEntityBlock` for one trimmed line: the
      variables before and after it are the states `st` and
      `StepOn(st, Classify(line))`. */
  method ParseLine(nodes0: seq<Node>, stack0: seq<nat>, current0: nat, morphism0: Option<(nat, nat)>, line: string)
    returns (nodes: seq<Node>, nodeStack: seq<nat>, currentNode: nat, currentMorphism: Option<(nat, nat)>)
    requires Valid(ParseState(nodes0, stack0, current0, morphism0))
    ensures ParseState(nodes, nodeStack, currentNode, currentMorphism)
         == StepOn(ParseState(nodes0, stack0, current0, morphism0), Classify(line))
  {
    nodes, nodeStack, currentNode, currentMorphism := nodes0, stack0, current0, morphism0;
    var entityMatch := JsTagName(line, "<Entity:");
    if entityMatch.Some? {
      var k := |nodes|;
      var top := nodeStack[|nodeStack| - 1];
      nodes := nodes[top := nodes[top].(children := nodes[top].children + [k])];
      nodes := nodes + [Node(entityMatch.value, "", [], [])];
      nodeStack := nodeStack + [k];
      currentNode := k;
      return;
    }
    var descMatch := JsDescription(line);
    if descMatch.Some? {
      nodes := nodes[currentNode := nodes[currentNode].(description := descMatch.value)];
      return;
    }
    var morphismMatch := JsTagName(line, "<Morphism:");
    if morphismMatch.Some? {
      var n := nodes[currentNode];
      currentMorphism := Some((currentNode, |n.morphisms|));
      nodes := nodes[currentNode := n.(morphisms := n.morphisms + [Morphism(morphismMatch.value, [])])];
      return;
    }
    var actionMatch := JsAction(line);
    if actionMatch.Some? && currentMorphism.Some? {
      var (mi, mj) := currentMorphism.value;
      var m := nodes[mi].morphisms[mj];
      nodes := nodes[mi := nodes[mi].(morphisms := nodes[mi].morphisms[mj := m.(actions := m.actions + [actionMatch.value])])];
    }
  }

  /** `parseEntityBlock`, with the objects held in `nodes` and reached by
      index; the returned value is the object tree rooted at `entityData`. */
  method ParseEntityBlock(block: string) returns (entityData: JsEntity)
    ensures entityData == ParseBlock(block)
    ensures IsChain(entityData) && ChainNames(entityData) == [""] + EntityNames(Split(block))
  {
    var lines := Split(block);
    var nodes: seq<Node> := [Node("", "", [], [])];
    var nodeStack: seq<nat> := [0];
    var currentNode: nat := 0;
    var currentMorphism: Option<(nat, nat)> := None;
    for i := 0 to |lines|
      invariant ParseState(nodes, nodeStack, currentNode, currentMorphism) == Scan(lines[..i])
    {
      ScanNext(lines, i);
      nodes, nodeStack, currentNode, currentMorphism :=
        ParseLine(nodes, nodeStack, currentNode, currentMorphism, Strip(lines[i], JavaScript));
    }
    assert lines[..|lines|] == lines;
    entityData := Tree(nodes, 0);
    ParsedChain(block);
  }
}
