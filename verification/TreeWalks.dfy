/**
The four cursor loops: complexity, call extraction, stylesheet entities and selectors
(crates/scs-parser/src/parser/mod.rs:132-273 and 464-500, crates/scs-parser/src/parser/css.rs:99-171 and 244-346).

Each loop is proved to do what the recursion over the tree does, and then what the recursion finds is stated
over positions, without naming either.
*/
module TreeWalks {
  import opened Outcome
  import opened Cursor

  // ---------------------------------------------------------------- the loop invariant

  /** Part of the walk is done, the rest is to be visited, and the state is what the done part makes of it. */
  ghost predicate Walking<S>(
    root: Tree, done: seq<Position>, rest: seq<Position>, s: S, start: S, enter: Tree -> bool, visit: (S, Tree) -> S)
  {
    && done + rest == Walk(root, [], enter)
    && (forall k :: 0 <= k < |done| ==> Within(root, done[k]))
    && s == Fold(root, done, start, visit)
  }

  lemma WalkStarts<S>(root: Tree, start: S, enter: Tree -> bool, visit: (S, Tree) -> S)
    ensures Within(root, [])
    ensures Walking(root, [], ToVisit(root, [], enter), start, start, enter, visit)
  {
  }

  lemma WalkVisits<S>(root: Tree, done: seq<Position>, p: Position, s: S, start: S, enter: Tree -> bool, visit: (S, Tree) -> S)
    requires Within(root, p) && Walking(root, done, ToVisit(root, p, enter), s, start, enter, visit)
    ensures Walking(root, done + [p], Following(root, p, enter), visit(s, At(root, p)), start, enter, visit)
    ensures |done| < |Walk(root, [], enter)|
  {
    VisitOne(root, p, enter);
    FoldOneMore(root, done, p, start, visit);
    Regroup(done, p, Following(root, p, enter));
    assert |Walk(root, [], enter)| == |done| + |ToVisit(root, p, enter)|;
  }

  lemma Regroup(done: seq<Position>, p: Position, rest: seq<Position>)
    ensures done + ([p] + rest) == done + [p] + rest
  {
  }

  lemma FoldOneMore<S>(root: Tree, done: seq<Position>, p: Position, start: S, visit: (S, Tree) -> S)
    requires Within(root, p) && forall k :: 0 <= k < |done| ==> Within(root, done[k])
    ensures forall k :: 0 <= k < |done + [p]| ==> Within(root, (done + [p])[k])
    ensures Fold(root, done + [p], start, visit) == visit(Fold(root, done, start, visit), At(root, p))
  {
  }

  lemma WalkEnds<S>(root: Tree, done: seq<Position>, s: S, start: S, enter: Tree -> bool, visit: (S, Tree) -> S)
    requires Walking(root, done, [], s, start, enter, visit)
    ensures s == Recurse(root, start, enter, visit)
  {
    assert At(root, []) == root && Reached(root, [], enter);
    assert done == Walk(root, [], enter);
    FoldIsRecursion(root, [], start, enter, visit);
  }

  function Everywhere(): Tree -> bool {
    _ => true
  }

  lemma {:induction false} EverywhereReached(root: Tree, p: Position)
    ensures Reached(root, p, Everywhere()) <==> Within(root, p)
    decreases |p|
  {
    if p != [] {
      EverywhereReached(root, p[..|p| - 1]);
    }
  }

  // ---------------------------------------------------------------- complexity

  function Counting(weight: Tree -> nat): (nat, Tree) -> nat {
    (n: nat, t: Tree) => n + weight(t)
  }

  /** The weight of a tree: its own and its children's. */
  function WeightSum(t: Tree, weight: Tree -> nat): nat
    decreases t, |t.children| + 1
  {
    weight(t) + WeightSumFrom(t, 0, weight)
  }

  function WeightSumFrom(t: Tree, i: nat, weight: Tree -> nat): nat
    requires i <= |t.children|
    decreases t, |t.children| - i
  {
    if i == |t.children| then 0 else WeightSum(t.children[i], weight) + WeightSumFrom(t, i + 1, weight)
  }

  lemma {:induction false} CountingSums(t: Tree, n: nat, weight: Tree -> nat)
    ensures Recurse(t, n, Everywhere(), Counting(weight)) == n + WeightSum(t, weight)
    decreases t, |t.children| + 1
  {
    CountingSumsFrom(t, 0, n + weight(t), weight);
  }

  lemma {:induction false} CountingSumsFrom(t: Tree, i: nat, n: nat, weight: Tree -> nat)
    requires i <= |t.children|
    ensures RecurseFrom(t, i, n, Everywhere(), Counting(weight)) == n + WeightSumFrom(t, i, weight)
    decreases t, |t.children| - i
  {
    if i < |t.children| {
      CountingSums(t.children[i], n, weight);
      CountingSumsFrom(t, i + 1, n + WeightSum(t.children[i], weight), weight);
    }
  }

  lemma CountingEnds(node: Tree, done: seq<Position>, count: nat, weight: Tree -> nat)
    requires Walking<nat>(node, done, [], count, 0, Everywhere(), Counting(weight))
    ensures count == WeightSum(node, weight)
  {
    WalkEnds<nat>(node, done, count, 0, Everywhere(), Counting(weight));
    CountingSums(node, 0, weight);
  }

  lemma CountingOne(weight: Tree -> nat, count: nat, t: Tree)
    ensures Counting(weight)(count, t) == count + weight(t)
  {
  }

  /** Cyclomatic complexity; a node's weight is what its language adds for it. */
  method CountComplexity(node: Tree, weight: Tree -> nat) returns (complexity: nat)
    ensures complexity == 1 + WeightSum(node, weight)
  {
    var count: nat := 0;
    var cursor := new TreeCursor(node);
    ghost var done: seq<Position> := [];
    ghost var enter, visit := Everywhere(), Counting(weight);
    WalkStarts<nat>(node, 0, enter, visit);
    while true
      invariant cursor.Valid() && cursor.root == node
      invariant Walking<nat>(node, done, ToVisit(node, cursor.position, enter), count, 0, enter, visit)
      decreases |Walk(node, [], enter)| - |done|
    {
      WalkVisits<nat>(node, done, cursor.position, count, 0, enter, visit);
      CountingOne(weight, count, cursor.Node());
      done := done + [cursor.position];
      count := count + weight(cursor.Node());
      var more := cursor.Advance(true, enter);
      if !more {
        break;
      }
    }
    CountingEnds(node, done, count, weight);
    complexity := 1 + count;
  }

  // ---------------------------------------------------------------- calls

  /** The callee of a node: present for call nodes whose callee has a name. */
  function Counts(name: Option<string>, blocklist: set<string>): bool {
    name.Some? && name.value != "" && name.value !in blocklist
  }

  function Collecting(callee: Tree -> Option<string>, blocklist: set<string>): (set<string>, Tree) -> set<string> {
    (s: set<string>, t: Tree) => if Counts(callee(t), blocklist) then s + {callee(t).value} else s
  }

  lemma {:induction false} CollectedAt(
    root: Tree, ps: seq<Position>, callee: Tree -> Option<string>, blocklist: set<string>, name: string)
    requires forall k :: 0 <= k < |ps| ==> Within(root, ps[k])
    ensures name in Fold(root, ps, {}, Collecting(callee, blocklist)) <==>
            Counts(Some(name), blocklist) && exists k :: 0 <= k < |ps| && callee(At(root, ps[k])) == Some(name)
  {
    if ps != [] {
      var last := |ps| - 1;
      CollectedAt(root, ps[..last], callee, blocklist, name);
      assert forall k :: 0 <= k < last ==> ps[..last][k] == ps[k];
      if Counts(Some(name), blocklist) && exists k :: 0 <= k < |ps| && callee(At(root, ps[k])) == Some(name) {
        var k :| 0 <= k < |ps| && callee(At(root, ps[k])) == Some(name);
        if k < last {
          assert callee(At(root, ps[..last][k])) == Some(name);
        }
      }
    }
  }

  /** Every unblocked name of a callee anywhere in the tree, and no other. */
  ghost predicate AreCallees(node: Tree, callee: Tree -> Option<string>, blocklist: set<string>, callees: set<string>) {
    forall name :: name in callees <==> name != "" && name !in blocklist && IsCalled(node, callee, name)
  }

  ghost predicate IsCalled(node: Tree, callee: Tree -> Option<string>, name: string) {
    exists p :: Within(node, p) && callee(At(node, p)) == Some(name)
  }

  /** The unique callee names of a body, without the blocked ones. */
  method ExtractCalls(node: Tree, callee: Tree -> Option<string>, blocklist: set<string>) returns (callees: set<string>)
    ensures callees == Recurse(node, {}, Everywhere(), Collecting(callee, blocklist))
    ensures AreCallees(node, callee, blocklist, callees)
  {
    callees := {};
    var cursor := new TreeCursor(node);
    ghost var done: seq<Position> := [];
    ghost var enter, visit := Everywhere(), Collecting(callee, blocklist);
    WalkStarts(node, {}, enter, visit);
    while true
      invariant cursor.Valid() && cursor.root == node
      invariant Walking(node, done, ToVisit(node, cursor.position, enter), callees, {}, enter, visit)
      decreases |Walk(node, [], enter)| - |done|
    {
      WalkVisits(node, done, cursor.position, callees, {}, enter, visit);
      done := done + [cursor.position];
      var name := callee(cursor.Node());
      if name.Some? && name.value != "" && name.value !in blocklist {
        callees := callees + {name.value};
      }
      var more := cursor.Advance(true, enter);
      if !more {
        break;
      }
    }
    WalkEnds(node, done, callees, {}, enter, visit);
    CollectedExactly(node, done, callee, blocklist, callees);
  }

  lemma CollectedExactly(node: Tree, done: seq<Position>, callee: Tree -> Option<string>, blocklist: set<string>, callees: set<string>)
    requires Walking(node, done, [], callees, {}, Everywhere(), Collecting(callee, blocklist))
    ensures AreCallees(node, callee, blocklist, callees)
  {
    assert done == Walk(node, [], Everywhere());
    forall name
      ensures name in callees <==> name != "" && name !in blocklist && IsCalled(node, callee, name)
    {
      CollectedAt(node, done, callee, blocklist, name);
      if IsCalled(node, callee, name) {
        var p :| Within(node, p) && callee(At(node, p)) == Some(name);
        EverywhereReached(node, p);
        WalkVisitsExactly(node, Everywhere(), p);
        var k :| 0 <= k < |done| && done[k] == p;
        assert callee(At(node, done[k])) == Some(name);
      }
      if k :| 0 <= k < |done| && callee(At(node, done[k])) == Some(name) {
        assert Within(node, done[k]);
      }
    }
  }

  // ---------------------------------------------------------------- stylesheets

  datatype CssKind = Import | Class | Variable | Function

  datatype CssEntity = CssEntity(kind: CssKind, name: string)

  /** Entities in source order, and the selector names already made into entities. */
  datatype CssState = CssState(entities: seq<CssEntity>, seen: set<string>)

  /** How import targets and keyframe names are read off a statement. */
  datatype Names = Names(importTarget: Tree -> string, keyframes: Tree -> string)

  function FindChild(children: seq<Tree>, kind: string): (r: Option<Tree>)
    ensures r.None? <==> forall i :: 0 <= i < |children| ==> children[i].kind != kind
    ensures r.Some? ==> r.value in children && r.value.kind == kind
    decreases |children|
  {
    if children == [] then None
    else if children[0].kind == kind then Some(children[0])
    else FindChild(children[1..], kind)
  }

  function Named(t: Tree, child: string, mark: string): Option<string> {
    match FindChild(t.children, child)
    case Some(name) => if name.text == "" then None else Some(mark + name.text)
    case None => None
  }

  /** The class or id a selector node names. */
  function SelectorName(t: Tree): Option<string> {
    if t.kind == "class_selector" then Named(t, "class_name", ".")
    else if t.kind == "id_selector" then Named(t, "id_name", "#")
    else None
  }

  function VisitSelector(s: CssState, t: Tree): CssState {
    match SelectorName(t)
    case Some(name) =>
      if name in s.seen then s else CssState(s.entities + [CssEntity(Class, name)], s.seen + {name})
    case None => s
  }

  function Selecting(): (CssState, Tree) -> CssState {
    (s: CssState, t: Tree) => VisitSelector(s, t)
  }

  function Selectors(ruleSet: Tree, s: CssState): CssState {
    match FindChild(ruleSet.children, "selectors")
    case Some(selectors) => Recurse(selectors, s, Everywhere(), Selecting())
    case None => s
  }

  predicate IsCustom(name: string) {
    |name| >= 2 && name[..2] == "--"
  }

  function CustomProperty(t: Tree): seq<CssEntity> {
    if t.kind != "declaration" then []
    else
      match FindChild(t.children, "property_name")
      case Some(name) => if IsCustom(name.text) then [CssEntity(Variable, name.text)] else []
      case None => []
  }

  function CustomProperties(declarations: seq<Tree>): seq<CssEntity> {
    if declarations == [] then []
    else CustomProperties(declarations[..|declarations| - 1]) + CustomProperty(declarations[|declarations| - 1])
  }

  function Properties(ruleSet: Tree): seq<CssEntity> {
    match FindChild(ruleSet.children, "block")
    case Some(block) => CustomProperties(block.children)
    case None => []
  }

  function Optional(kind: CssKind, name: string): seq<CssEntity> {
    if name == "" then [] else [CssEntity(kind, name)]
  }

  function VisitCss(names: Names, s: CssState, t: Tree): CssState {
    if t.kind == "import_statement" then s.(entities := s.entities + Optional(Import, names.importTarget(t)))
    else if t.kind == "rule_set" then
      var selected := Selectors(t, s);
      selected.(entities := selected.entities + Properties(t))
    else if t.kind == "keyframes_statement" then s.(entities := s.entities + Optional(Function, names.keyframes(t)))
    else s
  }

  function Styling(names: Names): (CssState, Tree) -> CssState {
    (s: CssState, t: Tree) => VisitCss(names, s, t)
  }

  /** Rule sets are handled whole and not entered. */
  function OutsideRules(): Tree -> bool {
    (t: Tree) => t.kind != "rule_set"
  }

  /** Make the class and id selectors of a rule set into entities, one per name in the whole file. */
  method ExtractSelectors(ruleSet: Tree, entities: seq<CssEntity>, seen: set<string>)
    returns (entities': seq<CssEntity>, seen': set<string>)
    ensures CssState(entities', seen') == Selectors(ruleSet, CssState(entities, seen))
  {
    entities', seen' := entities, seen;
    var found := FindChild(ruleSet.children, "selectors");
    if found.None? {
      return;
    }
    var node := found.value;
    var cursor := new TreeCursor(node);
    ghost var done: seq<Position> := [];
    ghost var start, enter, visit := CssState(entities, seen), Everywhere(), Selecting();
    WalkStarts(node, start, enter, visit);
    while true
      invariant cursor.Valid() && cursor.root == node
      invariant Walking(node, done, ToVisit(node, cursor.position, enter), CssState(entities', seen'), start, enter, visit)
      decreases |Walk(node, [], enter)| - |done|
    {
      WalkVisits(node, done, cursor.position, CssState(entities', seen'), start, enter, visit);
      done := done + [cursor.position];
      var name := SelectorName(cursor.Node());
      if name.Some? && name.value !in seen' {
        entities' := entities' + [CssEntity(Class, name.value)];
        seen' := seen' + {name.value};
      }
      var more := cursor.Advance(true, enter);
      if !more {
        break;
      }
    }
    WalkEnds(node, done, CssState(entities', seen'), start, enter, visit);
  }

  lemma CustomPropertiesSnoc(entities: seq<CssEntity>, declarations: seq<Tree>, i: nat)
    requires i < |declarations|
    ensures entities + CustomProperties(declarations[..i + 1])
         == entities + CustomProperties(declarations[..i]) + CustomProperty(declarations[i])
  {
    assert declarations[..i + 1][..i] == declarations[..i];
  }

  /** Append the name of one declaration, if it is a custom property. */
  method ExtractCustomProperty(declaration: Tree, entities: seq<CssEntity>) returns (entities': seq<CssEntity>)
    ensures entities' == entities + CustomProperty(declaration)
  {
    entities' := entities;
    if declaration.kind == "declaration" {
      var name := FindChild(declaration.children, "property_name");
      if name.Some? && IsCustom(name.value.text) {
        entities' := entities' + [CssEntity(Variable, name.value.text)];
      }
    }
  }

  method ExtractCustomProperties(ruleSet: Tree, entities: seq<CssEntity>) returns (entities': seq<CssEntity>)
    ensures entities' == entities + Properties(ruleSet)
  {
    entities' := entities;
    var block := FindChild(ruleSet.children, "block");
    if block.None? {
      return;
    }
    var children := block.value.children;
    var i := 0;
    while i < |children|
      invariant 0 <= i <= |children| && entities' == entities + CustomProperties(children[..i])
    {
      CustomPropertiesSnoc(entities, children, i);
      entities' := ExtractCustomProperty(children[i], entities');
      i := i + 1;
    }
    assert children[..|children|] == children;
  }

  /** What one visited node contributes. */
  method ExtractNode(node: Tree, names: Names, entities: seq<CssEntity>, seen: set<string>)
    returns (entities': seq<CssEntity>, seen': set<string>)
    ensures CssState(entities', seen') == VisitCss(names, CssState(entities, seen), node)
  {
    entities', seen' := entities, seen;
    if node.kind == "import_statement" {
      var target := names.importTarget(node);
      if target != "" {
        entities' := entities' + [CssEntity(Import, target)];
      }
    } else if node.kind == "rule_set" {
      entities', seen' := ExtractSelectors(node, entities', seen');
      entities' := ExtractCustomProperties(node, entities');
    } else if node.kind == "keyframes_statement" {
      var name := names.keyframes(node);
      if name != "" {
        entities' := entities' + [CssEntity(Function, name)];
      }
    }
  }

  /** The entities of a stylesheet after its file entity. */
  method ParseCss(root: Tree, names: Names) returns (entities: seq<CssEntity>)
    ensures entities == Recurse(root, CssState([], {}), OutsideRules(), Styling(names)).entities
  {
    entities := [];
    var seen: set<string> := {};
    var cursor := new TreeCursor(root);
    ghost var done: seq<Position> := [];
    ghost var start, enter, visit := CssState([], {}), OutsideRules(), Styling(names);
    WalkStarts(root, start, enter, visit);
    while true
      invariant cursor.Valid() && cursor.root == root
      invariant Walking(root, done, ToVisit(root, cursor.position, enter), CssState(entities, seen), start, enter, visit)
      decreases |Walk(root, [], enter)| - |done|
    {
      WalkVisits(root, done, cursor.position, CssState(entities, seen), start, enter, visit);
      done := done + [cursor.position];
      var node := cursor.Node();
      entities, seen := ExtractNode(node, names, entities, seen);
      var more := cursor.Advance(node.kind != "rule_set", enter);
      if !more {
        break;
      }
    }
    WalkEnds(root, done, CssState(entities, seen), start, enter, visit);
  }

  // ---------------------------------------------------------------- what a stylesheet yields

  function NamesOf(entities: seq<CssEntity>): seq<string> {
    if entities == [] then []
    else
      NamesOf(entities[..|entities| - 1])
      + (if entities[|entities| - 1].kind == Class then [entities[|entities| - 1].name] else [])
  }

  /** Selector entities have distinct names, and they are the names seen. */
  ghost predicate Tidy(s: CssState) {
    && (forall i, j :: 0 <= i < j < |NamesOf(s.entities)| ==> NamesOf(s.entities)[i] != NamesOf(s.entities)[j])
    && (forall name :: name in s.seen <==> name in NamesOf(s.entities))
  }

  lemma NamesSnoc(entities: seq<CssEntity>, e: CssEntity)
    ensures NamesOf(entities + [e]) == NamesOf(entities) + if e.kind == Class then [e.name] else []
  {
    assert (entities + [e])[..|entities|] == entities;
  }

  lemma {:induction false} NamesKept(entities: seq<CssEntity>, more: seq<CssEntity>)
    requires forall k :: 0 <= k < |more| ==> more[k].kind != Class
    ensures NamesOf(entities + more) == NamesOf(entities)
    decreases |more|
  {
    if more == [] {
      assert entities + more == entities;
    } else {
      var last := |more| - 1;
      NamesKept(entities, more[..last]);
      assert entities + more == (entities + more[..last]) + [more[last]];
      NamesSnoc(entities + more[..last], more[last]);
    }
  }

  lemma SelectorKeepsTidy(s: CssState, t: Tree)
    requires Tidy(s)
    ensures Tidy(VisitSelector(s, t))
  {
    if SelectorName(t).Some? {
      NamesSnoc(s.entities, CssEntity(Class, SelectorName(t).value));
    }
  }

  lemma {:induction false} FoldKeepsTidy(root: Tree, ps: seq<Position>, s: CssState)
    requires forall k :: 0 <= k < |ps| ==> Within(root, ps[k])
    requires Tidy(s)
    ensures Tidy(Fold(root, ps, s, Selecting()))
  {
    if ps != [] {
      var last := |ps| - 1;
      FoldKeepsTidy(root, ps[..last], s);
      SelectorKeepsTidy(Fold(root, ps[..last], s, Selecting()), At(root, ps[last]));
    }
  }

  lemma SelectorsKeepTidy(ruleSet: Tree, s: CssState)
    requires Tidy(s)
    ensures Tidy(Selectors(ruleSet, s))
  {
    var found := FindChild(ruleSet.children, "selectors");
    if found.Some? {
      assert At(found.value, []) == found.value && Reached(found.value, [], Everywhere());
      FoldIsRecursion(found.value, [], s, Everywhere(), Selecting());
      FoldKeepsTidy(found.value, Walk(found.value, [], Everywhere()), s);
    }
  }

  lemma {:induction false} PropertiesAreVariables(declarations: seq<Tree>)
    ensures forall k :: 0 <= k < |CustomProperties(declarations)| ==> CustomProperties(declarations)[k].kind == Variable
  {
    if declarations != [] {
      PropertiesAreVariables(declarations[..|declarations| - 1]);
    }
  }

  lemma VisitKeepsTidy(names: Names, s: CssState, t: Tree)
    requires Tidy(s)
    ensures Tidy(VisitCss(names, s, t))
  {
    if t.kind == "import_statement" {
      NamesKept(s.entities, Optional(Import, names.importTarget(t)));
    } else if t.kind == "rule_set" {
      RuleKeepsTidy(names, s, t);
    } else if t.kind == "keyframes_statement" {
      NamesKept(s.entities, Optional(Function, names.keyframes(t)));
    }
  }

  lemma RuleKeepsTidy(names: Names, s: CssState, t: Tree)
    requires Tidy(s) && t.kind == "rule_set"
    ensures Tidy(VisitCss(names, s, t))
  {
    SelectorsKeepTidy(t, s);
    if FindChild(t.children, "block").Some? {
      PropertiesAreVariables(FindChild(t.children, "block").value.children);
    }
    NamesKept(Selectors(t, s).entities, Properties(t));
  }

  lemma {:induction false} StylingKeepsTidy(root: Tree, ps: seq<Position>, names: Names)
    requires forall k :: 0 <= k < |ps| ==> Within(root, ps[k])
    ensures Tidy(Fold(root, ps, CssState([], {}), Styling(names)))
  {
    if ps != [] {
      var last := |ps| - 1;
      StylingKeepsTidy(root, ps[..last], names);
      VisitKeepsTidy(names, Fold(root, ps[..last], CssState([], {}), Styling(names)), At(root, ps[last]));
    }
  }

  /** Some selector of a rule set has this name. */
  ghost predicate Selects(ruleSet: Tree, name: string) {
    FindChild(ruleSet.children, "selectors").Some? && SomeSelector(FindChild(ruleSet.children, "selectors").value, name)
  }

  ghost predicate SomeSelector(t: Tree, name: string) {
    exists p :: Within(t, p) && SelectorName(At(t, p)) == Some(name)
  }

  lemma {:induction false} SelectingSees(root: Tree, ps: seq<Position>, s: CssState, name: string)
    requires forall k :: 0 <= k < |ps| ==> Within(root, ps[k])
    ensures name in Fold(root, ps, s, Selecting()).seen <==>
            name in s.seen || exists k :: 0 <= k < |ps| && SelectorName(At(root, ps[k])) == Some(name)
  {
    if ps != [] {
      var last := |ps| - 1;
      SelectingSees(root, ps[..last], s, name);
      assert forall k :: 0 <= k < last ==> ps[..last][k] == ps[k];
      if k :| 0 <= k < |ps| && SelectorName(At(root, ps[k])) == Some(name) {
        if k < last {
          assert SelectorName(At(root, ps[..last][k])) == Some(name);
        }
      }
    }
  }

  lemma SelectorsSee(ruleSet: Tree, s: CssState, name: string)
    ensures name in Selectors(ruleSet, s).seen <==> name in s.seen || Selects(ruleSet, name)
  {
    var found := FindChild(ruleSet.children, "selectors");
    if found.Some? {
      var root, ps := found.value, Walk(found.value, [], Everywhere());
      assert At(root, []) == root && Reached(root, [], Everywhere());
      FoldIsRecursion(root, [], s, Everywhere(), Selecting());
      SelectingSees(root, ps, s, name);
      if p :| Within(root, p) && SelectorName(At(root, p)) == Some(name) {
        EverywhereReached(root, p);
        WalkVisitsExactly(root, Everywhere(), p);
        var k :| 0 <= k < |ps| && ps[k] == p;
        assert SelectorName(At(root, ps[k])) == Some(name);
      }
    }
  }

  ghost predicate RuleSelects(t: Tree, name: string) {
    t.kind == "rule_set" && Selects(t, name)
  }

  lemma VisitSees(names: Names, s: CssState, t: Tree, name: string)
    ensures name in VisitCss(names, s, t).seen <==> name in s.seen || RuleSelects(t, name)
  {
    if t.kind == "rule_set" {
      SelectorsSee(t, s, name);
    }
  }

  ghost predicate SomeSelects(root: Tree, ps: seq<Position>, name: string)
    requires forall k :: 0 <= k < |ps| ==> Within(root, ps[k])
  {
    exists k :: 0 <= k < |ps| && RuleSelects(At(root, ps[k]), name)
  }

  lemma SomeSelectsSnoc(root: Tree, ps: seq<Position>, p: Position, name: string)
    requires Within(root, p) && forall k :: 0 <= k < |ps| ==> Within(root, ps[k])
    ensures SomeSelects(root, ps + [p], name) <==> SomeSelects(root, ps, name) || RuleSelects(At(root, p), name)
  {
    if k :| 0 <= k < |ps| && RuleSelects(At(root, ps[k]), name) {
      assert RuleSelects(At(root, (ps + [p])[k]), name);
    }
    assert (ps + [p])[|ps|] == p;
    if k :| 0 <= k < |ps + [p]| && RuleSelects(At(root, (ps + [p])[k]), name) {
      assert k < |ps| ==> RuleSelects(At(root, ps[k]), name);
    }
  }

  lemma {:induction false} StylingSees(root: Tree, ps: seq<Position>, names: Names, name: string)
    requires forall k :: 0 <= k < |ps| ==> Within(root, ps[k])
    ensures name in Fold(root, ps, CssState([], {}), Styling(names)).seen <==> SomeSelects(root, ps, name)
  {
    if ps != [] {
      var last := |ps| - 1;
      assert forall k :: 0 <= k < last ==> ps[..last][k] == ps[k];
      StylingSees(root, ps[..last], names, name);
      VisitSees(names, Fold(root, ps[..last], CssState([], {}), Styling(names)), At(root, ps[last]), name);
      assert ps == ps[..last] + [ps[last]];
      SomeSelectsSnoc(root, ps[..last], ps[last], name);
    }
  }

  /**
  The selector entities of a stylesheet have distinct names, and they are exactly the names selected by
  rule sets that are not inside another rule set.
  */
  lemma StylesheetSelectors(root: Tree, names: Names, name: string)
    ensures var found := NamesOf(Recurse(root, CssState([], {}), OutsideRules(), Styling(names)).entities);
      && (forall i, j :: 0 <= i < j < |found| ==> found[i] != found[j])
      && (name in found <==>
           exists p :: Reached(root, p, OutsideRules()) && RuleSelects(At(root, p), name))
  {
    var ps := Walk(root, [], OutsideRules());
    assert At(root, []) == root && Reached(root, [], OutsideRules());
    FoldIsRecursion(root, [], CssState([], {}), OutsideRules(), Styling(names));
    StylingKeepsTidy(root, ps, names);
    StylingSees(root, ps, names, name);
    if p :| Reached(root, p, OutsideRules()) && RuleSelects(At(root, p), name) {
      WalkVisitsExactly(root, OutsideRules(), p);
      var k :| 0 <= k < |ps| && ps[k] == p;
      assert RuleSelects(At(root, ps[k]), name);
    }
    if SomeSelects(root, ps, name) {
      var k :| 0 <= k < |ps| && RuleSelects(At(root, ps[k]), name);
      WalkVisitsExactly(root, OutsideRules(), ps[k]);
    }
  }

  // ---------------------------------------------------------------- what the entities are read off

  /** The first child of a kind. */
  ghost predicate FirstOfKind(children: seq<Tree>, kind: string, t: Tree) {
    exists i :: 0 <= i < |children| && children[i] == t && t.kind == kind && forall j :: 0 <= j < i ==> children[j].kind != kind
  }

  lemma {:induction false} FindsFirst(children: seq<Tree>, kind: string, t: Tree)
    ensures FindChild(children, kind) == Some(t) <==> FirstOfKind(children, kind, t)
    decreases |children|
  {
    if children != [] {
      if children[0].kind == kind {
        assert FirstOfKind(children, kind, children[0]);
      } else {
        FindsFirst(children[1..], kind, t);
        FirstFurther(children, kind, t);
      }
    }
  }

  lemma FirstFurther(children: seq<Tree>, kind: string, t: Tree)
    requires children != [] && children[0].kind != kind
    ensures FirstOfKind(children, kind, t) <==> FirstOfKind(children[1..], kind, t)
  {
    var rest := children[1..];
    if i :| 0 <= i < |children| && children[i] == t && t.kind == kind && forall j :: 0 <= j < i ==> children[j].kind != kind {
      assert rest[i - 1] == t && forall j :: 0 <= j < i - 1 ==> rest[j] == children[j + 1];
    }
    if i :| 0 <= i < |rest| && rest[i] == t && t.kind == kind && forall j :: 0 <= j < i ==> rest[j].kind != kind {
      assert children[i + 1] == t && forall j :: 1 <= j < i + 1 ==> children[j] == rest[j - 1];
    }
  }

  /** A selector node of this kind, marked and named by its first name child. */
  ghost predicate Marks(t: Tree, kind: string, child: string, mark: string, name: string) {
    t.kind == kind && exists c :: FirstOfKind(t.children, child, c) && c.text != "" && name == mark + c.text
  }

  lemma NamedExactly(t: Tree, child: string, mark: string, name: string)
    ensures Named(t, child, mark) == Some(name) <==> Marks(t, t.kind, child, mark, name)
  {
    var found := FindChild(t.children, child);
    if found.Some? {
      FindsFirst(t.children, child, found.value);
    }
    if c :| FirstOfKind(t.children, child, c) && c.text != "" && name == mark + c.text {
      FindsFirst(t.children, child, c);
    }
  }

  /** A class is named with a dot and an id with a hash. */
  ghost predicate NamesSelector(t: Tree, name: string) {
    Marks(t, "class_selector", "class_name", ".", name) || Marks(t, "id_selector", "id_name", "#", name)
  }

  lemma SelectorExactly(t: Tree, name: string)
    ensures SelectorName(t) == Some(name) <==> NamesSelector(t, name)
  {
    NamedExactly(t, "class_name", ".", name);
    NamedExactly(t, "id_name", "#", name);
  }

  ghost predicate SomeNamed(t: Tree, name: string) {
    exists p :: Within(t, p) && NamesSelector(At(t, p), name)
  }

  lemma SomeNamedExactly(t: Tree, name: string)
    ensures SomeSelector(t, name) <==> SomeNamed(t, name)
  {
    if p :| Within(t, p) && NamesSelector(At(t, p), name) {
      SelectorExactly(At(t, p), name);
      assert SelectorName(At(t, p)) == Some(name);
    }
    if p :| Within(t, p) && SelectorName(At(t, p)) == Some(name) {
      SelectorExactly(At(t, p), name);
      assert NamesSelector(At(t, p), name);
    }
  }

  /** A rule set selects the classes and ids anywhere below its first selector list. */
  lemma SelectsExactly(ruleSet: Tree, name: string)
    ensures Selects(ruleSet, name) <==> exists s :: FirstOfKind(ruleSet.children, "selectors", s) && SomeNamed(s, name)
  {
    var found := FindChild(ruleSet.children, "selectors");
    if found.Some? {
      FindsFirst(ruleSet.children, "selectors", found.value);
      SomeNamedExactly(found.value, name);
    }
    if s :| FirstOfKind(ruleSet.children, "selectors", s) && SomeNamed(s, name) {
      FindsFirst(ruleSet.children, "selectors", s);
    }
  }

  /** A declaration whose first property name is a custom one. */
  ghost predicate DeclaresCustom(declaration: Tree, name: string) {
    && declaration.kind == "declaration"
    && |name| >= 2 && name[0] == '-' && name[1] == '-'
    && exists c :: FirstOfKind(declaration.children, "property_name", c) && c.text == name
  }

  lemma CustomPropertyExactly(declaration: Tree, e: CssEntity)
    ensures e in CustomProperty(declaration) <==> e.kind == Variable && DeclaresCustom(declaration, e.name)
  {
    var found := FindChild(declaration.children, "property_name");
    if found.Some? {
      FindsFirst(declaration.children, "property_name", found.value);
    }
    if c :| FirstOfKind(declaration.children, "property_name", c) && c.text == e.name {
      FindsFirst(declaration.children, "property_name", c);
    }
  }

  ghost predicate SomeDeclares(declarations: seq<Tree>, name: string) {
    exists i :: 0 <= i < |declarations| && DeclaresCustom(declarations[i], name)
  }

  lemma SomeDeclaresSnoc(declarations: seq<Tree>, d: Tree, name: string)
    ensures SomeDeclares(declarations + [d], name) <==> SomeDeclares(declarations, name) || DeclaresCustom(d, name)
  {
    var all := declarations + [d];
    assert all[|declarations|] == d;
    if i :| 0 <= i < |declarations| && DeclaresCustom(declarations[i], name) {
      assert DeclaresCustom(all[i], name);
    }
    if i :| 0 <= i < |all| && DeclaresCustom(all[i], name) {
      assert i < |declarations| ==> DeclaresCustom(declarations[i], name);
    }
  }

  lemma {:induction false} CustomPropertiesExactly(declarations: seq<Tree>, e: CssEntity)
    ensures e in CustomProperties(declarations) <==> e.kind == Variable && SomeDeclares(declarations, e.name)
  {
    if declarations != [] {
      var last := |declarations| - 1;
      CustomPropertiesExactly(declarations[..last], e);
      CustomPropertyExactly(declarations[last], e);
      assert declarations == declarations[..last] + [declarations[last]];
      SomeDeclaresSnoc(declarations[..last], declarations[last], e.name);
    }
  }

  /** What a node outside rule sets yields besides selectors: its import, its keyframes, or its custom properties. */
  ghost predicate Yields(names: Names, t: Tree, e: CssEntity) {
    match e.kind
    case Import => t.kind == "import_statement" && e.name == names.importTarget(t) && e.name != ""
    case Function => t.kind == "keyframes_statement" && e.name == names.keyframes(t) && e.name != ""
    case Variable => t.kind == "rule_set" && DeclaresInBlock(t, e.name)
    case Class => false
  }

  ghost predicate DeclaresInBlock(ruleSet: Tree, name: string) {
    exists b :: FirstOfKind(ruleSet.children, "block", b) && SomeDeclares(b.children, name)
  }

  lemma PropertiesExactly(ruleSet: Tree, e: CssEntity)
    ensures e in Properties(ruleSet) <==> e.kind == Variable && DeclaresInBlock(ruleSet, e.name)
  {
    var found := FindChild(ruleSet.children, "block");
    if found.Some? {
      FindsFirst(ruleSet.children, "block", found.value);
      CustomPropertiesExactly(found.value.children, e);
    }
    if b :| FirstOfKind(ruleSet.children, "block", b) && SomeDeclares(b.children, e.name) {
      FindsFirst(ruleSet.children, "block", b);
    }
  }

  lemma {:induction false} SelectingKeepsOthers(root: Tree, ps: seq<Position>, s: CssState)
    requires forall k :: 0 <= k < |ps| ==> Within(root, ps[k])
    ensures s.entities <= Fold(root, ps, s, Selecting()).entities
    ensures forall e :: e in Fold(root, ps, s, Selecting()).entities && e.kind != Class ==> e in s.entities
  {
    if ps != [] {
      var last := |ps| - 1;
      SelectingKeepsOthers(root, ps[..last], s);
      assert Fold(root, ps[..last], s, Selecting()).entities <= Fold(root, ps, s, Selecting()).entities;
    }
  }

  lemma SelectorsKeepOthers(ruleSet: Tree, s: CssState)
    ensures s.entities <= Selectors(ruleSet, s).entities
    ensures forall e :: e in Selectors(ruleSet, s).entities && e.kind != Class ==> e in s.entities
  {
    var found := FindChild(ruleSet.children, "selectors");
    if found.Some? {
      var root := found.value;
      assert At(root, []) == root && Reached(root, [], Everywhere());
      FoldIsRecursion(root, [], s, Everywhere(), Selecting());
      SelectingKeepsOthers(root, Walk(root, [], Everywhere()), s);
    }
  }

  lemma VisitYields(names: Names, s: CssState, t: Tree, e: CssEntity)
    ensures s.entities <= VisitCss(names, s, t).entities
    ensures e.kind != Class ==> (e in VisitCss(names, s, t).entities <==> e in s.entities || Yields(names, t, e))
  {
    if t.kind == "rule_set" {
      SelectorsKeepOthers(t, s);
      PropertiesExactly(t, e);
      var selected := Selectors(t, s).entities;
      assert s.entities <= selected <= selected + Properties(t);
      assert e in s.entities ==> e in selected;
    }
  }

  ghost predicate SomeYields(root: Tree, ps: seq<Position>, names: Names, e: CssEntity)
    requires forall k :: 0 <= k < |ps| ==> Within(root, ps[k])
  {
    exists k :: 0 <= k < |ps| && Yields(names, At(root, ps[k]), e)
  }

  lemma SomeYieldsSnoc(root: Tree, ps: seq<Position>, p: Position, names: Names, e: CssEntity)
    requires Within(root, p) && forall k :: 0 <= k < |ps| ==> Within(root, ps[k])
    ensures SomeYields(root, ps + [p], names, e) <==> SomeYields(root, ps, names, e) || Yields(names, At(root, p), e)
  {
    if k :| 0 <= k < |ps| && Yields(names, At(root, ps[k]), e) {
      assert Yields(names, At(root, (ps + [p])[k]), e);
    }
    assert (ps + [p])[|ps|] == p;
    if k :| 0 <= k < |ps + [p]| && Yields(names, At(root, (ps + [p])[k]), e) {
      assert k < |ps| ==> Yields(names, At(root, ps[k]), e);
    }
  }

  lemma {:induction false} StylingYields(root: Tree, ps: seq<Position>, names: Names, e: CssEntity)
    requires forall k :: 0 <= k < |ps| ==> Within(root, ps[k])
    requires e.kind != Class
    ensures e in Fold(root, ps, CssState([], {}), Styling(names)).entities <==> SomeYields(root, ps, names, e)
  {
    if ps != [] {
      var last := |ps| - 1;
      assert forall k :: 0 <= k < last ==> ps[..last][k] == ps[k];
      StylingYields(root, ps[..last], names, e);
      VisitYields(names, Fold(root, ps[..last], CssState([], {}), Styling(names)), At(root, ps[last]), e);
      assert ps == ps[..last] + [ps[last]];
      SomeYieldsSnoc(root, ps[..last], ps[last], names, e);
    }
  }

  /**
  The other entities of a stylesheet are exactly the named imports and keyframes outside rule sets, and the custom
  properties declared in the blocks of rule sets that are not inside another one.
  */
  lemma StylesheetOthers(root: Tree, names: Names, e: CssEntity)
    requires e.kind != Class
    ensures e in Recurse(root, CssState([], {}), OutsideRules(), Styling(names)).entities <==>
            exists p :: Reached(root, p, OutsideRules()) && Yields(names, At(root, p), e)
  {
    var ps := Walk(root, [], OutsideRules());
    assert At(root, []) == root && Reached(root, [], OutsideRules());
    FoldIsRecursion(root, [], CssState([], {}), OutsideRules(), Styling(names));
    StylingYields(root, ps, names, e);
    if p :| Reached(root, p, OutsideRules()) && Yields(names, At(root, p), e) {
      WalkVisitsExactly(root, OutsideRules(), p);
      var k :| 0 <= k < |ps| && ps[k] == p;
      assert Yields(names, At(root, ps[k]), e);
    }
    if SomeYields(root, ps, names, e) {
      var k :| 0 <= k < |ps| && Yields(names, At(root, ps[k]), e);
      WalkVisitsExactly(root, OutsideRules(), ps[k]);
    }
  }

  /** Entities are listed in the order their nodes are visited: those of a first part of the walk come first. */
  lemma {:induction false} StylesheetInOrder(root: Tree, first: seq<Position>, rest: seq<Position>, names: Names)
    requires forall k :: 0 <= k < |first| ==> Within(root, first[k])
    requires forall k :: 0 <= k < |rest| ==> Within(root, rest[k])
    ensures forall k :: 0 <= k < |first + rest| ==> Within(root, (first + rest)[k])
    ensures Fold(root, first, CssState([], {}), Styling(names)).entities
         <= Fold(root, first + rest, CssState([], {}), Styling(names)).entities
    decreases |rest|
  {
    if rest == [] {
      assert first + rest == first;
    } else {
      var last := |rest| - 1;
      StylesheetInOrder(root, first, rest[..last], names);
      assert (first + rest)[..|first + rest| - 1] == first + rest[..last];
      var before := Fold(root, first + rest[..last], CssState([], {}), Styling(names));
      VisitYields(names, before, At(root, rest[last]), CssEntity(Import, ""));
    }
  }
}
