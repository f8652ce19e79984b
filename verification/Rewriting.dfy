/** Redirecting the param tags of constructors, invokes and populates. */
module Rewriting {
  import opened Text
  import opened Tags
  import opened Bindings
  import opened Graph

  function PadTags(n: nat, tags: seq<string>): seq<string> {
    seq(n, i requires 0 <= i < n => if i < |tags| then tags[i] else "")
  }

  function KeyType(param: GoType, group: string): GoType {
    if group != "" && param.elem.Some? then param.elem.value else param
  }

  /** The binding a parameter asks for under a tag. */
  function BindingOf(param: GoType, tag: string): TagSet {
    var (name, group) := ParseTagNameGroup(tag);
    TagSet(name, group, KeyType(param, group))
  }

  /** What a tag asks for: the named one of the parameter's type, the members of a group by the
      element type of a slice, or the type itself. */
  lemma AsksFor(param: GoType, s: string)
    requires Plain(s) && s != ""
    ensures BindingOf(param, NAME + s + "\"") == TagSet(s, "", param)
    ensures BindingOf(param, GROUP + s + "\"") ==
            TagSet("", s, if param.elem.Some? then param.elem.value else param)
    ensures BindingOf(param, "") == TagSet("", "", param)
  {
    SingleKey(NAME, GROUP, s);
    SingleKey(GROUP, NAME, s);
    assert !At("", NAME, 0) && !At("", GROUP, 0);
  }

  /** A tag of one key and its value has that value, and nothing under the other key. */
  lemma SingleKey(key: string, other: string, s: string)
    requires (key == NAME && other == GROUP) || (key == GROUP && other == NAME)
    requires Plain(s)
    ensures ExtractTagValue(key + s + "\"", key) == Some(s) && ExtractTagValue(key + s + "\"", other) == None
  {
    var tag := key + s + "\"";
    assert At(tag, key, 0);
    assert tag[|key|..|key| + |s|] == s && tag[|key| + |s|] == '"';
    ExtractIs(tag, key, 0, s);
    FirstAround(key, s, "\"", other);
    NoOther(key, other);
  }

  lemma NoOther(key: string, other: string)
    requires (key == NAME && other == GROUP) || (key == GROUP && other == NAME)
    ensures Index(key, other) == -1 && Index("\"", other) == -1
  {
    assert GROUP[0] == 'g' && GROUP[1] == 'r' && NAME[0] == 'n';
    forall j: nat
      ensures !At(key, other, j)
    {
      assert j + |other| <= |key| ==> key[j..j + |other|][0] == key[j];
    }
  }

  function RewriteOne(param: GoType, tag: string, active: map<string, TagSet>): string {
    var key := FullTagKey(BindingOf(param, tag));
    if key in active then RewriteParamTag(tag, active[key]) else tag
  }

  function RewriteTags(params: seq<GoType>, tags: seq<string>, active: map<string, TagSet>): seq<string>
    requires |params| == |tags|
  {
    seq(|tags|, i requires 0 <= i < |tags| => RewriteOne(params[i], tags[i], active))
  }

  method RewriteParamTags(params: seq<GoType>, tags: array<string>, active: map<string, TagSet>) returns (changed: bool)
    requires |params| == tags.Length
    modifies tags
    ensures tags[..] == RewriteTags(params, old(tags[..]), active)
    ensures changed <==> tags[..] != old(tags[..])
  {
    hide ParseTagNameGroup, FullTagKey, RewriteParamTag, KeyType;
    changed := false;
    for i := 0 to |params|
      invariant forall k | 0 <= k < i :: tags[k] == RewriteOne(params[k], old(tags[k]), active)
      invariant forall k | i <= k < tags.Length :: tags[k] == old(tags[k])
      invariant changed <==> exists k :: 0 <= k < i && tags[k] != old(tags[k])
    {
      var (name, group) := ParseTagNameGroup(tags[i]);
      var key := FullTagKey(TagSet(name, group, KeyType(params[i], group)));
      if key !in active {
        continue;
      }
      var newTag := RewriteParamTag(tags[i], active[key]);
      if newTag != tags[i] {
        tags[i] := newTag;
        changed := true;
      }
    }
    assert changed ==> exists k :: 0 <= k < tags.Length && tags[..][k] != old(tags[..])[k];
  }

  // ---- Consumers ---------------------------------------------------------

  /** The parameters a node's tags belong to; none for nodes that are never redirected. */
  function ParamsOf(n: Node): seq<GoType> {
    match n
    case Bind(value, _, _) => if value.Func? then value.params else []
    case Invoke(params, _, _) => params
    case Populate(targets, _, _) => if |targets| == 1 then targets else []
    case _ => []
  }

  /** The tags as declared, one per parameter. */
  function DeclaredTags(n: Node): seq<string> {
    match n
    case Bind(value, opts, _) =>
      PadTags(|ParamsOf(n)|, if Parse(opts).Ok? then Parse(opts).value.flags.paramTags else [])
    case Invoke(params, tags, _) => PadTags(|params|, tags)
    case Populate(_, tags, _) => PadTags(|ParamsOf(n)|, tags)
    case _ => []
  }

  /** The tags in force after rewriting. */
  function FinalTags(n: Node): seq<string> {
    if ParamsOf(n) != [] && n.tagsOverride.Some? then PadTags(|ParamsOf(n)|, n.tagsOverride.value) else DeclaredTags(n)
  }

  function WithTags(n: Node, tags: seq<string>, active: map<string, TagSet>): Node
    requires n.Bind? || n.Invoke? || n.Populate?
    requires |tags| == |ParamsOf(n)|
  {
    var rewritten := RewriteTags(ParamsOf(n), tags, active);
    if rewritten == tags then n else n.(tagsOverride := Some(rewritten))
  }

  /** rewriteProvideWithTags, rewriteInvokeWithTags, rewritePopulateWithTags. An invoke starts over
      from its declared tags; the others from an earlier override if there is one. */
  function RewriteNode(n: Node, active: map<string, TagSet>): Result<Node> {
    if |active| == 0 || ParamsOf(n) == [] then Ok(n)
    else if n.Bind? && n.tagsOverride.None? && Parse(n.opts).Err? then Err(Parse(n.opts).reason)
    else Ok(WithTags(n, if n.Invoke? then DeclaredTags(n) else FinalTags(n), active))
  }

  // ---- Redirection is sound ----------------------------------------------

  /** Every parameter asks, under a Rewritable tag, for a binding of U. */
  ghost predicate AsksWithin(n: Node, u: iset<TagSet>) {
    forall i | 0 <= i < |ParamsOf(n)| ::
      Rewritable(DeclaredTags(n)[i]) && BindingOf(ParamsOf(n)[i], DeclaredTags(n)[i]) in u
  }

  /** Active tags map each key to a scoped binding, under an id, of the binding it stands for. */
  ghost predicate Redirects(active: map<string, TagSet>, u: iset<TagSet>, allowed: (TagSet, nat) -> bool) {
    forall ts | ts in u && FullTagKey(ts) in active ::
      exists id: nat :: active[FullTagKey(ts)] == ScopedTagSet(ts, id) && allowed(ts, id)
  }

  /** A parameter whose tag changed asks for the scoped binding, under an allowed id, of what it
      asked for before. */
  ghost predicate Redirected(n: Node, i: nat, allowed: (TagSet, nat) -> bool)
    requires i < |ParamsOf(n)|
  {
    var param := ParamsOf(n)[i];
    FinalTags(n)[i] != DeclaredTags(n)[i] ==>
      exists id: nat :: allowed(BindingOf(param, DeclaredTags(n)[i]), id) &&
        BindingOf(param, FinalTags(n)[i]) == ScopedTagSet(BindingOf(param, DeclaredTags(n)[i]), id)
  }

  ghost predicate AllRedirected(n: Node, allowed: (TagSet, nat) -> bool) {
    forall i | 0 <= i < |ParamsOf(n)| :: Redirected(n, i, allowed)
  }

  /** A parameter's tag changed exactly when there is a redirection of the binding, in U, it asks for. */
  ghost predicate ChangesExactly(n: Node, active: map<string, TagSet>, u: iset<TagSet>) {
    && AsksWithin(n, u)
    && forall i | 0 <= i < |ParamsOf(n)| ::
         FinalTags(n)[i] != DeclaredTags(n)[i] <==> FullTagKey(BindingOf(ParamsOf(n)[i], DeclaredTags(n)[i])) in active
  }

  lemma RewrittenBinding(param: GoType, tag: string, id: nat)
    requires Rewritable(tag) && PlainTagSet(BindingOf(param, tag))
    ensures BindingOf(param, RewriteParamTag(tag, ScopedTagSet(BindingOf(param, tag), id))) ==
              ScopedTagSet(BindingOf(param, tag), id)
  {
    var ts := BindingOf(param, tag);
    RoundTrip(tag, ts, id);
    ScopedKind(ts, id);
    assert ts.group != "" ==> ts.name == "";
  }

  /** Rewriting a freshly declared consumer changes its tags only, those for which there is a
      redirection, and redirects every parameter it changes. */
  lemma {:induction false} RewriteSound(n: Node, active: map<string, TagSet>, u: iset<TagSet>,
                                        allowed: (TagSet, nat) -> bool)
    requires n.Bind? || n.Invoke? || n.Populate?
    requires n.tagsOverride.None? && AsksWithin(n, u) && Redirects(active, u, allowed)
    requires forall ts | ts in u :: PlainTagSet(ts)
    requires RewriteNode(n, active).Ok?
    ensures var out := RewriteNode(n, active).value;
            out == n.(tagsOverride := out.tagsOverride) && AllRedirected(out, allowed) && ChangesExactly(out, active, u)
  {
    var out := RewriteNode(n, active).value;
    var params, tags := ParamsOf(n), DeclaredTags(n);
    assert ParamsOf(out) == params && DeclaredTags(out) == tags;
    forall i | 0 <= i < |params|
      ensures Redirected(out, i, allowed)
      ensures FinalTags(out)[i] != tags[i] <==> FullTagKey(BindingOf(params[i], tags[i])) in active
    {
      assert FinalTags(out)[i] == RewriteOne(params[i], tags[i], active);
      OneRewritten(params[i], tags[i], active, u, allowed);
      hide RewriteOne, RewriteNode, FullTagKey, BindingOf, ScopedTagSet;
    }
  }

  /** One tag of a consumer. */
  lemma OneRewritten(param: GoType, tag: string, active: map<string, TagSet>, u: iset<TagSet>,
                     allowed: (TagSet, nat) -> bool)
    requires Rewritable(tag) && BindingOf(param, tag) in u && PlainTagSet(BindingOf(param, tag))
    requires Redirects(active, u, allowed)
    ensures var ts, out := BindingOf(param, tag), RewriteOne(param, tag, active);
            (out != tag <==> FullTagKey(ts) in active) &&
            (out != tag ==> exists id: nat :: allowed(ts, id) && BindingOf(param, out) == ScopedTagSet(ts, id))
  {
    hide Rewritable, PlainTagSet, ScopedTagSet, RewriteParamTag;
    var ts := BindingOf(param, tag);
    hide BindingOf, FullTagKey;
    if FullTagKey(ts) in active {
      var id: nat :| active[FullTagKey(ts)] == ScopedTagSet(ts, id) && allowed(ts, id);
      RewrittenBinding(param, tag, id);
      ScopedKind(ts, id);
    }
  }

  lemma NothingToRedirect(n: Node, active: map<string, TagSet>, u: iset<TagSet>, allowed: (TagSet, nat) -> bool)
    requires ParamsOf(n) == []
    ensures AllRedirected(n, allowed) && ChangesExactly(n, active, u)
  {
  }
}
