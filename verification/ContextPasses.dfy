/** What the passes over whole contexts mean: removing contexts in
    `optimize_contexts` and doubling them in `replace_logical_key`. */
module ContextPasses {
  import opened Keys
  import opened Outputs
  import opened Contexts
  import opened Lowering
  import opened LoweringTheorems

  // ---------------------------------------------------------------------------
  // The meaning of a list of contexts

  /** The filters of a context. */
  datatype Filters = Filters(
    windowFilters: seq<Filter>,
    deviceFilter: Filter,
    deviceIdFilter: Filter,
    modifierFilter: KeySequence,
    invertModifierFilter: bool)

  /** The mappings which filters lead to. */
  datatype Content = Content(mappings: seq<Mapping>, commands: seq<CommandOutput>) {
    predicate IsEmpty() { mappings == [] && commands == [] }
  }

  const NO_CONTENT := Content([], [])

  /** What the runtime sees of a configuration: where stages begin, and which
      filters lead to which mappings. */
  datatype Item = StageStart | Row(filters: Filters, content: Content)

  function FiltersOf(c: ConfigContext): Filters {
    Filters(c.windowFilters, c.deviceFilter, c.deviceIdFilter, c.modifierFilter, c.invertModifierFilter)
  }

  function OwnContent(c: ConfigContext): Content
    requires ValidOutputs(c)
  {
    Content(Mappings(c.inputs, c.outputs), c.commandOutputs)
  }

  predicate AllValidOutputs(contexts: seq<ConfigContext>) {
    forall i :: 0 <= i < |contexts| ==> ValidOutputs(contexts[i])
  }

  /** What the first context leads to, through those which fall through. */
  function ContentOf(contexts: seq<ConfigContext>): Content
    requires AllValidOutputs(contexts)
  {
    if contexts == [] then NO_CONTENT
    else if contexts[0].fallsThrough then ContentOf(contexts[1..])
    else OwnContent(contexts[0])
  }

  /** Contexts of other systems and those without mappings mean nothing. */
  function Meaning(contexts: seq<ConfigContext>): seq<Item>
    requires AllValidOutputs(contexts)
  {
    if contexts == [] then []
    else ItemsOf(contexts[0], ContentOf(contexts)) + Meaning(contexts[1..])
  }

  function ItemsOf(c: ConfigContext, content: Content): seq<Item> {
    (if c.beginStage then [StageStart] else [])
    + (if c.systemFilterMatched && !content.IsEmpty() then [Row(FiltersOf(c), content)] else [])
  }

  /** The first context begins a stage anyway, and empty stages do nothing. */
  function WithoutEmptyStages(items: seq<Item>): seq<Item> {
    if items != [] && items[0].StageStart? then WithoutEmptyStages(items[1..]) else items
  }

  lemma {:induction false} MappingsLength(inputs: seq<Input>, outputs: seq<KeySequence>)
    requires forall i :: 0 <= i < |inputs| ==> inputs[i].outputIndex < |outputs|
    ensures |Mappings(inputs, outputs)| == |inputs|
    decreases |inputs|
  {
    if inputs != [] {
      MappingsLength(inputs[1..], outputs);
    }
  }

  /** Replacing the end of a list by one of the same meaning. */
  lemma {:induction false} SameEnd(before: seq<ConfigContext>, a: seq<ConfigContext>, b: seq<ConfigContext>)
    requires AllValidOutputs(before + a) && AllValidOutputs(a) && AllValidOutputs(b)
    requires Meaning(a) == Meaning(b)
    requires before != [] && before[|before| - 1].fallsThrough ==> ContentOf(a) == ContentOf(b)
    ensures AllValidOutputs(before + b)
    ensures Meaning(before + a) == Meaning(before + b)
    ensures before != [] ==> ContentOf(before + a) == ContentOf(before + b)
    decreases |before|
  {
    hide ItemsOf, OwnContent, ValidOutputs;
    assert forall i :: 0 <= i < |before| ==> (before + a)[i] == before[i];
    if before == [] {
      assert before + a == a && before + b == b;
    } else {
      assert before[1..] + a == (before + a)[1..];
      assert before[1..] + b == (before + b)[1..];
      assert forall i :: 0 <= i < |before[1..] + a| ==> (before[1..] + a)[i] == (before + a)[i + 1];
      SameEnd(before[1..], a, b);
      if |before| == 1 {
        assert before[1..] + a == a && before[1..] + b == b;
      }
      assert ContentOf(before + a) == ContentOf(before + b);
    }
  }

  // ---------------------------------------------------------------------------
  // optimize_contexts

  /** Contexts which begin a stage are those of every system, and end a chain. */
  predicate StagesPlain(contexts: seq<ConfigContext>) {
    forall i :: 0 <= i < |contexts| && contexts[i].beginStage ==>
      contexts[i].systemFilterMatched && !contexts[i].fallsThrough
  }

  predicate HasNoEffect(c: ConfigContext, first: bool) {
    c.inputs == [] && c.commandOutputs == [] && (first || !c.beginStage)
  }

  function Moved(before: ConfigContext, c: ConfigContext): ConfigContext {
    before.(inputs := c.inputs, outputs := c.outputs, commandOutputs := c.commandOutputs, fallsThrough := false)
  }

  /** What one round of the loop makes of the context `i`. */
  function OptimizeAt(contexts: seq<ConfigContext>, i: nat, beforeContext: bool): (r: (seq<ConfigContext>, bool))
    requires i < |contexts|
  {
    var c := contexts[i];
    if c.fallsThrough then
      (if !c.systemFilterMatched || !beforeContext then Erase(contexts, i) else contexts, beforeContext)
    else if !c.systemFilterMatched || HasNoEffect(c, i == 0) then
      (if i > 0 && contexts[i - 1].fallsThrough
       then Erase(contexts[i - 1 := Moved(contexts[i - 1], c)], i)
       else Erase(contexts, i),
       false)
    else (contexts, true)
  }

  predicate OptimizeInv(contexts: seq<ConfigContext>, i: nat, beforeContext: bool) {
    && ConfigInv(contexts) && StagesPlain(contexts)
    && i <= |contexts|
    && (i > 0 && contexts[i - 1].fallsThrough ==> beforeContext)
  }

  /** The contexts from `from` on have mappings, lead to some or begin a stage. */
  predicate Optimized(contexts: seq<ConfigContext>, from: nat) {
    forall i :: from <= i < |contexts| ==>
      contexts[i].systemFilterMatched && (contexts[i].fallsThrough || !HasNoEffect(contexts[i], false))
  }

  /** Erasing a context of a chain, or one that no chain leads to. */
  lemma ErasedInv(contexts: seq<ConfigContext>, i: nat)
    requires ConfigInv(contexts) && StagesPlain(contexts) && i < |contexts|
    requires contexts[i].fallsThrough || (i > 0 ==> !contexts[i - 1].fallsThrough)
    ensures ConfigInv(Erase(contexts, i)) && StagesPlain(Erase(contexts, i))
  {
    hide ValidOutputs;
    var erased := Erase(contexts, i);
    forall j | 0 <= j < |erased| && erased[j].fallsThrough
      ensures j + 1 < |erased| && !erased[j + 1].beginStage
    {
      if j + 1 < i {
        assert erased[j + 1] == contexts[j + 1];
      } else if j < i {
        assert contexts[j].fallsThrough && contexts[i].fallsThrough;
        assert erased[j + 1] == contexts[i + 1];
      } else {
        assert erased[j] == contexts[j + 1] && erased[j + 1] == contexts[j + 2];
      }
    }
  }

  lemma MovedInv(contexts: seq<ConfigContext>, i: nat)
    requires ConfigInv(contexts) && StagesPlain(contexts) && 0 < i < |contexts|
    requires contexts[i - 1].fallsThrough
    ensures var moved := contexts[i - 1 := Moved(contexts[i - 1], contexts[i])];
      ConfigInv(moved) && StagesPlain(moved)
  {
    var moved := contexts[i - 1 := Moved(contexts[i - 1], contexts[i])];
    assert ValidOutputs(contexts[i]);
    assert ValidOutputs(moved[i - 1]);
    assert forall j :: 0 <= j < |contexts| && j != i - 1 ==> moved[j] == contexts[j];
    assert forall j :: 0 <= j < |contexts| ==> moved[j].beginStage == contexts[j].beginStage;
    assert forall j :: 0 <= j < |contexts| ==> moved[j].modifierFilter == contexts[j].modifierFilter;
  }

  /** A context of another system, or one without mappings, means nothing. */
  lemma ErasedContent(c: ConfigContext, rest: seq<ConfigContext>, first: bool)
    requires ValidOutputs(c) && AllValidOutputs(rest)
    requires !c.systemFilterMatched || (!c.fallsThrough && HasNoEffect(c, first))
    ensures AllValidOutputs([c] + rest)
    ensures Meaning([c] + rest) == (if c.beginStage then [StageStart] else []) + Meaning(rest)
    ensures c.fallsThrough ==> ContentOf([c] + rest) == ContentOf(rest)
  {
    var a := [c] + rest;
    assert a[1..] == rest;
    if !c.fallsThrough {
      MappingsLength(c.inputs, c.outputs);
    }
    hide Mappings;
    assert c.systemFilterMatched ==> ContentOf(a).IsEmpty();
    assert ItemsOf(c, ContentOf(a)) == if c.beginStage then [StageStart] else [];
  }

  /** Erasing a context which means nothing and to which no chain leads. */
  lemma EraseKeepsMeaning(contexts: seq<ConfigContext>, i: nat)
    requires ConfigInv(contexts) && StagesPlain(contexts) && i < |contexts|
    requires contexts[i].fallsThrough || (i > 0 ==> !contexts[i - 1].fallsThrough)
    requires !contexts[i].systemFilterMatched || (!contexts[i].fallsThrough && HasNoEffect(contexts[i], i == 0))
    ensures AllValidOutputs(contexts) && AllValidOutputs(Erase(contexts, i))
    ensures Meaning(contexts) == Meaning(Erase(contexts, i))
            || (i == 0 && Meaning(contexts) == [StageStart] + Meaning(Erase(contexts, i)))
  {
    var c, before, rest := contexts[i], contexts[..i], contexts[i + 1..];
    SplitAround(contexts, i);
    assert i > 0 ==> !c.beginStage;
    hide ValidOutputs, Meaning, ContentOf, HasNoEffect, ConfigInv, StagesPlain;
    assert ValidOutputs(c) && AllValidOutputs(rest) by { PartsValid(contexts, i); }
    ErasedContent(c, rest, i == 0);
    assert [] + Meaning(rest) == Meaning(rest);
    if i == 0 {
      assert before + ([c] + rest) == [c] + rest && Erase(contexts, i) == rest;
    } else {
      SameEnd(before, [c] + rest, rest);
    }
  }

  lemma PartsValid(contexts: seq<ConfigContext>, i: nat)
    requires ConfigInv(contexts) && i < |contexts|
    ensures AllValidOutputs(contexts) && ValidOutputs(contexts[i]) && AllValidOutputs(contexts[i + 1..])
  {
    hide ValidOutputs;
  }

  lemma MovedContent(p: ConfigContext, c: ConfigContext, rest: seq<ConfigContext>)
    requires ValidOutputs(c) && ValidOutputs(p) && AllValidOutputs(rest)
    requires p.fallsThrough && !c.fallsThrough && !c.beginStage
    requires !c.systemFilterMatched || HasNoEffect(c, false)
    ensures AllValidOutputs([p, c] + rest) && AllValidOutputs([Moved(p, c)] + rest)
    ensures ContentOf([p, c] + rest) == ContentOf([Moved(p, c)] + rest)
    ensures Meaning([p, c] + rest) == Meaning([Moved(p, c)] + rest)
  {
    var p' := Moved(p, c);
    var a, b := [p, c] + rest, [p'] + rest;
    MappingsLength(c.inputs, c.outputs);
    hide Mappings;
    assert OwnContent(c) == OwnContent(p');
    hide OwnContent, ValidOutputs;
    assert a[1..] == [c] + rest && a[1..][1..] == rest && b[1..] == rest;
    assert ContentOf(a) == ContentOf([c] + rest) == OwnContent(c) == ContentOf(b);
    assert Meaning([c] + rest) == ItemsOf(c, OwnContent(c)) + Meaning(rest) == Meaning(rest);
  }

  /** The content of a context moves to the one which falls through to it. */
  lemma MoveKeepsMeaning(contexts: seq<ConfigContext>, i: nat)
    requires ConfigInv(contexts) && StagesPlain(contexts) && 0 < i < |contexts|
    requires contexts[i - 1].fallsThrough && !contexts[i].fallsThrough
    requires !contexts[i].systemFilterMatched || HasNoEffect(contexts[i], false)
    ensures var moved := Erase(contexts[i - 1 := Moved(contexts[i - 1], contexts[i])], i);
      AllValidOutputs(contexts) && AllValidOutputs(moved) && Meaning(contexts) == Meaning(moved)
  {
    hide ValidOutputs, Meaning, ContentOf, HasNoEffect, Moved;
    var p, c, before, rest := contexts[i - 1], contexts[i], contexts[..i - 1], contexts[i + 1..];
    assert contexts == before + ([p, c] + rest);
    assert Erase(contexts[i - 1 := Moved(p, c)], i) == before + ([Moved(p, c)] + rest);
    MovedContent(p, c, rest);
    SameEnd(before, [p, c] + rest, [Moved(p, c)] + rest);
  }

  lemma OptimizeAtKeeps(contexts: seq<ConfigContext>, i: nat, beforeContext: bool)
    requires OptimizeInv(contexts, i + 1, beforeContext) && Optimized(contexts, i + 1)
    ensures var (next, before) := OptimizeAt(contexts, i, beforeContext);
      && OptimizeInv(next, i, before) && Optimized(next, i)
      && AllValidOutputs(contexts)
      && (Meaning(contexts) == Meaning(next) || (i == 0 && Meaning(contexts) == [StageStart] + Meaning(next)))
  {
    hide ValidOutputs, Meaning;
    var c := contexts[i];
    if c.fallsThrough {
      assert beforeContext;
      if !c.systemFilterMatched {
        ErasedInv(contexts, i);
        EraseKeepsMeaning(contexts, i);
        ErasedOptimized(contexts, i);
      }
    } else if !c.systemFilterMatched || HasNoEffect(c, i == 0) {
      if i > 0 && contexts[i - 1].fallsThrough {
        MovedInv(contexts, i);
        ErasedInv(contexts[i - 1 := Moved(contexts[i - 1], c)], i);
        MoveKeepsMeaning(contexts, i);
        ErasedOptimized(contexts[i - 1 := Moved(contexts[i - 1], c)], i);
      } else {
        ErasedInv(contexts, i);
        EraseKeepsMeaning(contexts, i);
        ErasedOptimized(contexts, i);
      }
    }
  }

  lemma ErasedOptimized(contexts: seq<ConfigContext>, i: nat)
    requires i < |contexts| && Optimized(contexts, i + 1)
    ensures Optimized(Erase(contexts, i), i)
  {
    forall j | i <= j < |contexts| - 1
      ensures var c := Erase(contexts, i)[j]; c.systemFilterMatched && (c.fallsThrough || !HasNoEffect(c, false))
    {
      assert Erase(contexts, i)[j] == contexts[j + 1];
    }
  }

  // ---------------------------------------------------------------------------
  // replace_logical_key

  function LowerContexts(contexts: seq<ConfigContext>, key: LogicalKey): (r: seq<ConfigContext>)
    requires AllValidOutputs(contexts)
    ensures |r| == |contexts|
    ensures forall i :: 0 <= i < |r| ==> r[i] == LowerContext(contexts[i], key.both, key.left, key.right)
  {
    seq(|contexts|, i requires 0 <= i < |contexts| => LowerContext(contexts[i], key.both, key.left, key.right))
  }

  /** A context whose filter has the logical key becomes one for the left key,
      which falls through to one for the right key. */
  function SplitContext(c: ConfigContext, key: LogicalKey): seq<ConfigContext> {
    if ContainsKey(c.modifierFilter, key.both) then [
      c.(inputs := [], outputs := [], commandOutputs := [], fallsThrough := true,
         modifierFilter := ReplaceKey(c.modifierFilter, key.both, key.left)),
      c.(modifierFilter := ReplaceKey(c.modifierFilter, key.both, key.right))]
    else [c]
  }

  function SplitContexts(contexts: seq<ConfigContext>, key: LogicalKey): seq<ConfigContext> {
    if contexts == [] then []
    else SplitContext(contexts[0], key) + SplitContexts(contexts[1..], key)
  }

  /** The filters with the logical key replaced by the left key and by the right. */
  function SplitItem(item: Item, key: LogicalKey): seq<Item> {
    match item
    case StageStart => [item]
    case Row(filters, content) =>
      var modifiers := filters.modifierFilter;
      if ContainsKey(modifiers, key.both) then [
        Row(filters.(modifierFilter := ReplaceKey(modifiers, key.both, key.left)), content),
        Row(filters.(modifierFilter := ReplaceKey(modifiers, key.both, key.right)), content)]
      else [item]
  }

  function SplitItems(items: seq<Item>, key: LogicalKey): seq<Item> {
    if items == [] then []
    else SplitItem(items[0], key) + SplitItems(items[1..], key)
  }

  /** The mappings with the logical key substituted. */
  function LowerContent(content: Content, key: LogicalKey): Content {
    var commands := AllCommands(AllCommands(content.commands, NotReplaced(key.both, key.left, key.right)), KeyReplaced(key.both, key.left));
    Content(SubstituteAll(content.mappings, key.both, key.left, key.right), commands)
  }

  function LowerItem(item: Item, key: LogicalKey): Item {
    match item
    case StageStart => item
    case Row(filters, content) =>
      Row(filters.(modifierFilter := ReplaceNot(filters.modifierFilter, key.both, key.left, key.right)),
          LowerContent(content, key))
  }

  function LowerItems(items: seq<Item>, key: LogicalKey): (r: seq<Item>)
    ensures |r| == |items| && forall i :: 0 <= i < |r| ==> r[i] == LowerItem(items[i], key)
  {
    seq(|items|, i requires 0 <= i < |items| => LowerItem(items[i], key))
  }

  lemma {:induction false} SubstituteNothing(mappings: seq<Mapping>, key: LogicalKey)
    ensures SubstituteAll(mappings, key.both, key.left, key.right) == [] <==> mappings == []
  {
    hide ContainsKey, SubstituteTarget, ReplaceKey, ReplaceNot;
  }

  lemma {:induction false} LoweredMeaning(contexts: seq<ConfigContext>, key: LogicalKey)
    requires AllValidOutputs(contexts) && key.both != key.left && key.both != key.right
    ensures AllValidOutputs(LowerContexts(contexts, key))
    ensures ContentOf(LowerContexts(contexts, key)) == LowerContent(ContentOf(contexts), key)
    ensures Meaning(LowerContexts(contexts, key)) == LowerItems(Meaning(contexts), key)
    decreases |contexts|
  {
    hide ValidOutputs, LowerContext, LowerContent, ItemsOf, LowerItem;
    var lowered := LowerContexts(contexts, key);
    if contexts == [] {
      EmptyLowered(key);
    } else {
      var c := contexts[0];
      assert lowered[1..] == LowerContexts(contexts[1..], key);
      LoweredMeaning(contexts[1..], key);
      LoweredOwnContent(c, key);
      assert contexts[0] == c && lowered[0] == LowerContext(c, key.both, key.left, key.right);
      var content := ContentOf(contexts);
      hide OwnContent;
      assert ContentOf(lowered) == LowerContent(content, key);
      LoweredItems(c, content, key);
      LowerItemsSplit(ItemsOf(c, content), Meaning(contexts[1..]), key);
    }
  }

  lemma LoweredOwnContent(c: ConfigContext, key: LogicalKey)
    requires ValidOutputs(c) && key.both != key.left && key.both != key.right
    ensures ValidOutputs(LowerContext(c, key.both, key.left, key.right))
    ensures OwnContent(LowerContext(c, key.both, key.left, key.right)) == LowerContent(OwnContent(c), key)
    ensures LowerContext(c, key.both, key.left, key.right).fallsThrough == c.fallsThrough
  {
    LoweringIsSubstitution(c, key.both, key.left, key.right);
    LoweredCommands(c, key);
  }

  lemma LoweredItems(c: ConfigContext, content: Content, key: LogicalKey)
    requires ValidOutputs(c)
    ensures ItemsOf(LowerContext(c, key.both, key.left, key.right), LowerContent(content, key)) == LowerItems(ItemsOf(c, content), key)
  {
    hide ReplaceNot, SplitInputs, SubstituteAll;
    SubstituteNothing(content.mappings, key);
  }

  lemma LowerItemsSplit(a: seq<Item>, b: seq<Item>, key: LogicalKey)
    ensures LowerItems(a + b, key) == LowerItems(a, key) + LowerItems(b, key)
  {
  }

  lemma EmptyLowered(key: LogicalKey)
    ensures LowerContent(NO_CONTENT, key) == NO_CONTENT
  {
  }

  lemma LoweredCommands(c: ConfigContext, key: LogicalKey)
    requires ValidOutputs(c)
    ensures LowerContext(c, key.both, key.left, key.right).commandOutputs
      == AllCommands(AllCommands(c.commandOutputs, NotReplaced(key.both, key.left, key.right)), KeyReplaced(key.both, key.left))
  {
  }

  lemma {:induction false} SplitItemsSplit(a: seq<Item>, b: seq<Item>, key: LogicalKey)
    ensures SplitItems(a + b, key) == SplitItems(a, key) + SplitItems(b, key)
    decreases |a|
  {
    if a == [] {
      assert a + b == b;
    } else {
      assert (a + b)[1..] == a[1..] + b;
      SplitItemsSplit(a[1..], b, key);
    }
  }

  lemma {:induction false} SplitMeaning(contexts: seq<ConfigContext>, key: LogicalKey)
    requires AllValidOutputs(contexts) && StagesUnfiltered(contexts)
    ensures AllValidOutputs(SplitContexts(contexts, key))
    ensures ContentOf(SplitContexts(contexts, key)) == ContentOf(contexts)
    ensures Meaning(SplitContexts(contexts, key)) == SplitItems(Meaning(contexts), key)
    decreases |contexts|
  {
    hide ValidOutputs, OwnContent, ContainsKey, ReplaceKey, ItemsOf, SplitItem, SplitContext;
    if contexts != [] {
      var c, rest := contexts[0], contexts[1..];
      SplitMeaning(rest, key);
      SplitFirst(c, rest, SplitContexts(rest, key), key);
      assert contexts == [c] + rest;
      SplitItemsSplit(ItemsOf(c, ContentOf(contexts)), Meaning(rest), key);
    }
  }

  lemma SplitFirst(c: ConfigContext, rest: seq<ConfigContext>, split: seq<ConfigContext>, key: LogicalKey)
    requires ValidOutputs(c) && AllValidOutputs(rest) && AllValidOutputs(split)
    requires c.beginStage ==> c.modifierFilter == []
    requires ContentOf(split) == ContentOf(rest)
    ensures AllValidOutputs(SplitContext(c, key) + split) && AllValidOutputs([c] + rest)
    ensures ContentOf(SplitContext(c, key) + split) == ContentOf([c] + rest)
    ensures Meaning(SplitContext(c, key) + split) == SplitItems(ItemsOf(c, ContentOf([c] + rest)), key) + Meaning(split)
  {
    hide ReplaceKey, Mappings, ItemsOf;
    assert ([c] + rest)[1..] == rest;
    var all := SplitContext(c, key) + split;
    var content := ContentOf([c] + rest);
    if ContainsKey(c.modifierFilter, key.both) {
      var l, r := SplitContext(c, key)[0], SplitContext(c, key)[1];
      assert all[1..] == [r] + split && all[1..][1..] == split;
      assert OwnContent(r) == OwnContent(c);
      hide SplitContext, ContainsKey;
      assert ContentOf([r] + split) == content == ContentOf(all);
      assert Meaning(all) == ItemsOf(l, content) + (ItemsOf(r, content) + Meaning(split));
      Associative(ItemsOf(l, content), ItemsOf(r, content), Meaning(split));
    } else {
      assert all[1..] == split;
      assert ContentOf(all) == content;
      assert Meaning(all) == ItemsOf(c, content) + Meaning(split);
    }
    SplitItemsOf(c, content, key);
  }

  lemma SplitItemsOf(c: ConfigContext, content: Content, key: LogicalKey)
    requires c.beginStage ==> c.modifierFilter == []
    ensures SplitItems(ItemsOf(c, content), key)
      == if ContainsKey(c.modifierFilter, key.both)
         then ItemsOf(SplitContext(c, key)[0], content) + ItemsOf(SplitContext(c, key)[1], content)
         else ItemsOf(c, content)
  {
    hide ReplaceKey;
    if c.beginStage {
      SplitItemsSplit([StageStart], ItemsOf(c, content)[1..], key);
    }
    assert ContainsKey(c.modifierFilter, key.both) ==> !c.beginStage;
    var row := Row(FiltersOf(c), content);
    assert SplitItems([row], key) == SplitItem(row, key);
    assert SplitItems([StageStart], key) == [StageStart];
  }

  // ---------------------------------------------------------------------------
  // What replacing a logical key keeps

  function ReplaceLogicalKey(contexts: seq<ConfigContext>, key: LogicalKey): seq<ConfigContext>
    requires AllValidOutputs(contexts)
  {
    SplitContexts(LowerContexts(contexts, key), key)
  }

  lemma LowerContextsInv(contexts: seq<ConfigContext>, key: LogicalKey)
    requires ConfigInv(contexts)
    ensures ConfigInv(LowerContexts(contexts, key))
  {
    hide ValidOutputs, LowerContext;
    var lowered := LowerContexts(contexts, key);
    forall i | 0 <= i < |lowered| && lowered[i].beginStage ensures lowered[i].modifierFilter == [] {
      assert contexts[i].beginStage;
      assert ReplaceNot([], key.both, key.left, key.right) == [];
    }
    forall i | 0 <= i < |lowered| && lowered[i].fallsThrough
      ensures i + 1 < |lowered| && !lowered[i + 1].beginStage
    {
      assert contexts[i].fallsThrough;
      assert lowered[i + 1].beginStage == contexts[i + 1].beginStage;
    }
  }

  lemma TailInv(contexts: seq<ConfigContext>)
    requires ConfigInv(contexts) && contexts != []
    ensures ConfigInv(contexts[1..])
  {
    hide ValidOutputs;
    var rest := contexts[1..];
    assert forall i :: 0 <= i < |rest| ==> rest[i] == contexts[i + 1];
    forall i | 0 <= i < |rest| && rest[i].fallsThrough ensures i + 1 < |rest| && !rest[i + 1].beginStage {
      assert contexts[i + 1].fallsThrough;
    }
  }

  /** A context in front of a list. */
  lemma PrependInv(c: ConfigContext, rest: seq<ConfigContext>)
    requires ConfigInv(rest) && ValidOutputs(c)
    requires c.beginStage ==> c.modifierFilter == []
    requires c.fallsThrough ==> rest != [] && !rest[0].beginStage
    ensures ConfigInv([c] + rest)
  {
    hide ValidOutputs;
    var all := [c] + rest;
    assert forall i :: 0 < i < |all| ==> all[i] == rest[i - 1];
    forall i | 0 <= i < |all| && all[i].fallsThrough ensures i + 1 < |all| && !all[i + 1].beginStage {
      assert i > 0 ==> rest[i - 1].fallsThrough;
    }
  }

  /** Doubling contexts keeps the chains. */
  lemma {:induction false} SplitContextsInv(contexts: seq<ConfigContext>, key: LogicalKey)
    requires ConfigInv(contexts)
    ensures ConfigInv(SplitContexts(contexts, key))
    ensures contexts != [] ==>
      SplitContexts(contexts, key) != [] && SplitContexts(contexts, key)[0].beginStage == contexts[0].beginStage
    decreases |contexts|
  {
    hide ContainsKey, ReplaceKey;
    if contexts != [] {
      var c, rest := contexts[0], contexts[1..];
      TailInv(contexts);
      SplitContextsInv(rest, key);
      var split := SplitContexts(rest, key);
      assert ValidOutputs(c);
      assert c.fallsThrough ==> contexts[1] == rest[0];
      StageHasNoFilter(contexts, key.both);
      hide ConfigInv;
      if ContainsKey(c.modifierFilter, key.both) {
        var l, r := SplitContext(c, key)[0], SplitContext(c, key)[1];
        PrependInv(r, split);
        PrependInv(l, [r] + split);
        assert SplitContexts(contexts, key) == [l] + ([r] + split);
      } else {
        PrependInv(c, split);
      }
    }
  }

  lemma StageHasNoFilter(contexts: seq<ConfigContext>, k: Key)
    requires ConfigInv(contexts) && contexts != []
    ensures contexts[0].beginStage ==> !ContainsKey(contexts[0].modifierFilter, k)
  {
  }

  /** The contexts chains and output indices are as sound as before. */
  lemma ReplaceLogicalKeyInv(contexts: seq<ConfigContext>, key: LogicalKey)
    requires ConfigInv(contexts)
    ensures ConfigInv(ReplaceLogicalKey(contexts, key))
  {
    LowerContextsInv(contexts, key);
    SplitContextsInv(LowerContexts(contexts, key), key);
  }

  /** The whole pass is a substitution: in every row the logical key gives way
      to the left and to the right key, in order. */
  lemma ReplaceLogicalKeyMeaning(contexts: seq<ConfigContext>, key: LogicalKey)
    requires ConfigInv(contexts) && key.both != key.left && key.both != key.right
    ensures AllValidOutputs(ReplaceLogicalKey(contexts, key))
    ensures Meaning(ReplaceLogicalKey(contexts, key)) == SplitItems(LowerItems(Meaning(contexts), key), key)
  {
    hide LowerContexts, Meaning;
    LowerContextsInv(contexts, key);
    LoweredMeaning(contexts, key);
    SplitMeaning(LowerContexts(contexts, key), key);
  }

  lemma {:induction false} SplitBelowKey(contexts: seq<ConfigContext>, key: LogicalKey)
    requires key.Valid()
    requires forall i :: 0 <= i < |contexts| ==> ContextBelow(contexts[i].(modifierFilter := []), key.both)
    requires forall i :: 0 <= i < |contexts| ==> KeysBelow(contexts[i].modifierFilter, key.both + 1)
    ensures AllBelow(SplitContexts(contexts, key), key.both)
    decreases |contexts|
  {
    hide KeysBelow, LogicalKey.Valid, ReplaceKey, ContainsKey;
    if contexts != [] {
      var c := contexts[0];
      assert forall i :: 0 <= i < |contexts| - 1 ==> contexts[1..][i] == contexts[i + 1];
      SplitBelowKey(contexts[1..], key);
      SidesBelow(key);
      assert ContextBelow(c.(modifierFilter := []), key.both);
      if ContainsKey(c.modifierFilter, key.both) {
        ReplacedBelow(c.modifierFilter, key, key.left);
        ReplacedBelow(c.modifierFilter, key, key.right);
      } else {
        AbsentBelow(c.modifierFilter, key);
      }
    }
  }

  /** The pass removes the logical key registered last from everything. */
  lemma ReplaceLogicalKeyBelow(contexts: seq<ConfigContext>, key: LogicalKey)
    requires AllValidOutputs(contexts) && key.Valid() && AllBelow(contexts, key.both + 1)
    ensures AllBelow(ReplaceLogicalKey(contexts, key), key.both)
  {
    hide ValidOutputs, ContextBelow, LowerContext, KeysBelow;
    var lowered := LowerContexts(contexts, key);
    forall i | 0 <= i < |lowered|
      ensures ContextBelow(lowered[i].(modifierFilter := []), key.both) && KeysBelow(lowered[i].modifierFilter, key.both + 1)
    {
      LoweredBelow(contexts[i], key);
    }
    SplitBelowKey(lowered, key);
  }

  predicate AllLowerable(contexts: seq<ConfigContext>, balanced: bool) {
    forall i :: 0 <= i < |contexts| ==> ContextLowerable(contexts[i], balanced)
  }

  lemma {:induction false} SplitKeepsLowerable(contexts: seq<ConfigContext>, key: LogicalKey, balanced: bool)
    requires AllLowerable(contexts, balanced)
    ensures AllLowerable(SplitContexts(contexts, key), balanced)
    decreases |contexts|
  {
    hide LowerableOutput, ReplaceKey, ContainsKey;
    if contexts != [] {
      assert forall i :: 0 <= i < |contexts| - 1 ==> contexts[1..][i] == contexts[i + 1];
      assert ContextLowerable(contexts[0], balanced);
      SplitKeepsLowerable(contexts[1..], key, balanced);
    }
  }

  /** The pass keeps all outputs balanced, inputs proper and commands distinct. */
  lemma ReplaceLogicalKeyKeepsBalance(contexts: seq<ConfigContext>, key: LogicalKey, balanced: bool)
    requires AllValidOutputs(contexts) && AllLowerable(contexts, balanced) && key.Valid()
    ensures AllLowerable(ReplaceLogicalKey(contexts, key), balanced)
  {
    hide ValidOutputs, LowerContext, ContextLowerable;
    var lowered := LowerContexts(contexts, key);
    forall i | 0 <= i < |lowered| ensures ContextLowerable(lowered[i], balanced) {
      LoweringKeepsBalance(contexts[i], key.both, key.left, key.right, balanced);
    }
    SplitKeepsLowerable(lowered, key, balanced);
  }
}
