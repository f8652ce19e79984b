/** Two defaults of one type in a scope, through the whole pass. */
module Rivals {
  import opened Text
  import opened Tags
  import opened Bindings
  import opened Graph
  import opened Selection
  import opened Active
  import opened Rewriting
  import opened Replacing
  import opened NoDangling
  import opened Guarantee

  /** Two default values of a type and a consumer of it. */
  function TwoDefaults(typ: GoType): seq<Node> {
    [Default(Ready(0, typ), []), Default(Ready(1, typ), []), Invoke([typ], [""], None)]
  }

  function Rival(k: nat, typ: GoType): ReplaceSpec {
    ReplaceSpec([Untagged(typ)], Ready(k, typ), [], k, k, 0, All, false, true)
  }

  lemma RivalsSpecs(typ: GoType)
    ensures LocalSpecs(TwoDefaults(typ), 3, 0, 0) == Ok([Rival(0, typ), Rival(1, typ)])
    ensures DeepSpecs(TwoDefaults(typ), 0, 0) == [Rival(0, typ), Rival(1, typ)]
  {
    var nodes := TwoDefaults(typ);
    BareReport(0, typ);
    BareReport(1, typ);
    assert BuildSpec(nodes[0], 0, 0, 0) == Ok(Rival(0, typ)) && BuildSpec(nodes[1], 1, 1, 0) == Ok(Rival(1, typ));
    hide BuildSpec, ReportedBy;
    assert LocalSpecs(nodes, 0, 0, 0) == Ok([]);
    assert [] + [Rival(0, typ)] == [Rival(0, typ)];
    assert LocalSpecs(nodes, 1, 0, 0) == Ok([Rival(0, typ)]);
    assert [Rival(0, typ)] + [Rival(1, typ)] == [Rival(0, typ), Rival(1, typ)];
    assert LocalSpecs(nodes, 2, 0, 0) == Ok([Rival(0, typ), Rival(1, typ)]);
    SpliceNothing(nodes);
    assert DeepFrom(nodes, 3, 2, 0) == [] && DeepFrom(nodes, 2, 2, 0) == [] && DeepFrom(nodes, 1, 2, 0) == [];
    assert DeepFrom(nodes, 0, 2, 0) == [];
  }

  lemma RivalsUnfold(typ: GoType)
    ensures var specs := [Rival(0, typ), Rival(1, typ)];
            Apply(TwoDefaults(typ), [], 0, 0, []) == ApplyFrom(TwoDefaults(typ), 0, [], specs, specs, 2, 0)
  {
    var nodes, specs := TwoDefaults(typ), [Rival(0, typ), Rival(1, typ)];
    RivalsSpecs(typ);
    SpliceNothing(nodes);
    assert CollectScopeProvides(nodes[3..]) == Ok([]) && CollectScopeProvides(nodes[2..]) == Ok([]);
    assert CollectScopeProvides(nodes[1..]) == Ok([]) by {
      assert nodes[1..][1..] == nodes[2..];
    }
    assert CollectScopeProvides(nodes) == Ok([]);
    hide LocalSpecs, CollectScopeProvides, ApplyFrom, DeepSpecs;
    assert [] + specs == specs;
  }

  lemma DefaultStep(nodes: seq<Node>, i: nat, specs: seq<ReplaceSpec>, w: ReplaceSpec, emitted: seq<Node>)
    requires i < |nodes| && nodes[i].Default? && AtIndex(specs, i) == Some(w)
    requires EmitAll(w, DefaultTargets(w, [], specs), ActiveTags([], specs, i)) == Ok(emitted)
    ensures ApplyNode(nodes[i], i, [], specs, specs, 2, 0) == Ok((emitted, 2))
  {
    hide ActiveTags, EmitAll, DefaultTargets;
  }

  lemma ConsumerStep(nodes: seq<Node>, specs: seq<ReplaceSpec>, consumer: Node)
    requires |nodes| == 3 && nodes[2].Invoke? && RewriteNode(nodes[2], ActiveTags([], specs, 2)) == Ok(consumer)
    ensures ApplyFrom(nodes, 2, [], specs, specs, 2, 0) == Ok(([consumer], 2))
  {
    hide ActiveTags, RewriteNode;
    assert ApplyFrom(nodes, 3, [], specs, specs, 2, 0) == Ok(([], 2));
    assert ApplyNode(nodes[2], 2, [], specs, specs, 2, 0) == Ok(([consumer], 2));
    hide ApplyFrom, ApplyNode;
    FromStep(nodes, 2, [], specs, specs, 2, 0, [consumer], 2, []);
    assert [consumer] + [] == [consumer];
  }

  /** At the consumer's position its binding is redirected to the first default. */
  lemma RivalsActive(typ: GoType)
    ensures var active := ActiveTags([], [Rival(0, typ), Rival(1, typ)], 2);
            FullTagKey(Untagged(typ)) in active && active[FullTagKey(Untagged(typ))] == ScopedTagSet(Untagged(typ), 0)
  {
    var ts, specs := Untagged(typ), [Rival(0, typ), Rival(1, typ)];
    TwoDefaultsDiffer(typ, Ready(0, typ), Ready(1, typ));
    assert AllTags([], specs) == [] && AllTags([], Applicable(specs, 2)) == [];
    DefaultPairsWithin(specs, iset{ts});
    hide ActiveTags, DefaultTags, FirstFor, Select, AllTags, FullTagKey, ScopedTagSet, DefaultId, Applicable;
    ActiveTagsWinner([], specs, 2, iset{ts}, ts);
  }

  lemma ConsumerLed(typ: GoType, active: map<string, TagSet>)
    requires Plain(typ.text) && FullTagKey(Untagged(typ)) in active
    requires active[FullTagKey(Untagged(typ))] == ScopedTagSet(Untagged(typ), 0)
    ensures var r := RewriteNode(Invoke([typ], [""], None), active);
            r.Ok? && Changed(r.value, 0) && BindingOf(typ, DeclaredTags(r.value)[0]) == Untagged(typ) &&
            ParamsOf(r.value) == [typ] && BindingOf(typ, FinalTags(r.value)[0]) == ScopedTagSet(Untagged(typ), 0)
  {
    var n, ts := Invoke([typ], [""], None), Untagged(typ);
    ScopedKind(ts, 0);
    ConsumerRewritten(typ, active);
    BlankTag(typ);
    var u: iset<TagSet> := iset{ts};
    var allowed := (t: TagSet, id: nat) => id == 0;
    hide BindingOf, FullTagKey, ScopedTagSet, Rewritable;
    assert DeclaredTags(n) == [""];
    RewriteSound(n, active, u, allowed);
    var out := RewriteNode(n, active).value;
    hide RewriteNode;
    assert Redirected(out, 0, allowed);
  }

  lemma BlankTag(typ: GoType)
    ensures Rewritable("") && BindingOf(typ, "") == Untagged(typ)
  {
    assert !At("", NAME, 0) && !At("", GROUP, 0);
  }

  /** With two defaults of one type in a scope both are emitted, and the consumer beside them is led to
      the first while the selection rule picks the second. */
  lemma RivalDefaults(typ: GoType)
    requires Plain(typ.text)
    ensures var r, deep := Apply(TwoDefaults(typ), [], 0, 0, []), DeepSpecs(TwoDefaults(typ), 0, 0);
            r.Ok? && r.value.0 != [] &&
            var n := r.value.0[|r.value.0| - 1];
            ParamsOf(n) == [typ] && BindingOf(typ, DeclaredTags(n)[0]) == Untagged(typ) &&
            BindingOf(typ, FinalTags(n)[0]) == ScopedTagSet(Untagged(typ), 0) &&
            Select([Untagged(typ)], deep).Some? && Select([Untagged(typ)], deep).value.id == 1
  {
    hide *;
    var nodes, specs := TwoDefaults(typ), [Rival(0, typ), Rival(1, typ)];
    RivalsUnfold(typ);
    RivalsSpecs(typ);
    TwoDefaultsDiffer(typ, Ready(0, typ), Ready(1, typ));
    RivalsActive(typ);
    ConsumerLed(typ, ActiveTags([], specs, 2));
    var consumer := RewriteNode(Invoke([typ], [""], None), ActiveTags([], specs, 2)).value;
    RivalsShape(typ);
    ConsumerStep(nodes, specs, consumer);
    EmittedTyped(specs[1], 1, typ, DefaultTargets(specs[1], [], specs), ActiveTags([], specs, 1));
    var second := EmitAll(specs[1], DefaultTargets(specs[1], [], specs), ActiveTags([], specs, 1)).value;
    DefaultStep(nodes, 1, specs, specs[1], second);
    FromStep(nodes, 1, [], specs, specs, 2, 0, second, 2, [consumer]);
    EmittedTyped(specs[0], 0, typ, DefaultTargets(specs[0], [], specs), ActiveTags([], specs, 0));
    var first := EmitAll(specs[0], DefaultTargets(specs[0], [], specs), ActiveTags([], specs, 0)).value;
    DefaultStep(nodes, 0, specs, specs[0], first);
    FromStep(nodes, 0, [], specs, specs, 2, 0, first, 2, second + [consumer]);
  }

  lemma RivalsShape(typ: GoType)
    ensures var nodes, specs := TwoDefaults(typ), [Rival(0, typ), Rival(1, typ)];
            |nodes| == 3 && nodes[0].Default? && nodes[1].Default? && nodes[2] == Invoke([typ], [""], None) &&
            AtIndex(specs, 0) == Some(specs[0]) && AtIndex(specs, 1) == Some(specs[1])
    ensures forall k: nat | k < 2 :: Rival(k, typ).value == Ready(k, typ) && Rival(k, typ).opts == []
    ensures forall k: nat :: Rival(k, typ) ==
              ReplaceSpec([TagSet("", "", typ)], Ready(k, typ), [], k, k, 0, All, false, true)
    ensures Untagged(typ) == TagSet("", "", typ)
  {
    var specs := [Rival(0, typ), Rival(1, typ)];
    assert specs[..1] == [Rival(0, typ)];
  }
}
