# Verification of the ultrastructure core

A Dafny 4.11 model of the parts of the repository where a mistake would be hardest to see, with
proofs of what they promise. `dafny verify dfyconfig.toml` checks all of it.

**The dependency graph rewriter** (`di/`). A tree of modules, option groups, providers, supplied
values, replacements, defaults, invokes and populates is rewritten so that replaced values arrive
under fresh scoped names. `Tags` has the tag strings, printed and parsed again; `Bindings` turns a
provider's options into its export list, its report and its real exports, which `Exports` states
from the options themselves; `Graph` splices option
groups and lists the providers of a scope; `Selection` picks the winning replacement; `Active`
works out what is redirected and what is emitted; `Rewriting` redirects parameters; `Replacing` is
the recursive pass with its shared counter. `NoDangling`, `Winners` and `Guarantee` prove that every
parameter for which a spec is chosen, and no other, is redirected to it and supplied by it; `Rivals`
follows two defaults of one type through the pass, `Positions` the modes of a replacement, and
`Replacements` says what a replacement is accepted as, takes away and is emitted for. `AutoGroups`, `AutoOrder` and `Batching` are the
passes around it.

**The realtime layer** (`realtime/`). `Subscribers` is the topic registrar racing with its own
shutdown; `Lifecycle` the MQTT client's connection with its read loops and reconnect loop, both as
all interleavings of lock-delimited steps; `Sessions` whole client calls against what the broker
holds; `Registrations` the registrar over that client; `Topics` and `PacketIds` the wildcard matching
and the packet identifiers.

**Caches and security** (`security/`). `KeyCache` is the two-level API key cache over whole runs,
`Revocation` the token revocation store with its lazy deletion as a separate step, `StringLists` and
`Policies` the expansion of policies into requirements against their meaning.

**Configuration** (`cfg/`). `Sanitizing` is the byte scan over configuration files against UTF-8.

`Text`, `Separators` and `Counters` are shared helpers. The loops of the passes, of the matching and
selection, of the options, exports, rules and policies, of the key ordering and of the byte scan are
methods proved against functions, and the functions carry the theorems. Functions alone stand for
loops that only search or check a list, map it element by element or read the tags of an As, and for
the string helpers and the library pipeline that normalises string lists. State the source updates in place
is a class whose methods give the whole new state. Clocks, randomness, the broker, the store, the
network and the base lookup are parameters: every outcome they can have, a write that takes effect
and still reports an error included for the cache's store, is covered by quantifying over them.

Where the source turned out not to have a property that reads as if it should hold, there is a lemma
that shows it by an input or a schedule, and one that says exactly when the property holds:

- Two defaults of one type in a scope: consumers are redirected to the first, the selection rule
  would take the last (`Rivals.RivalDefaults`, `Active.FirstDefaultIsSelected`).
- Types that print alike share a key (`Guarantee.SameTextDangles`, `Guarantee.FaithfulExactly`).
- A tag with an unclosed value, or with both a name and a non-empty group, does not survive a
  rewrite (`Tags.UnclosedIsLost`, `Tags.RoundTrip`).
- An untagged As with Self exports the base without reporting it (`Bindings.AsSelfUnreported`,
  `Bindings.ExportedIsReported`).
- A rule met only by the pointer type makes a value provider fail
  (`Bindings.PointerOnlyRuleBreaks`, `Bindings.BuildsExactly`).
- A replacement with Self exports its original binding beside the scoped one (`Bindings.SelfReexports`,
  `Bindings.RetaggedReport`).
- Orders of a million and more reach into the next priority (`AutoOrder.WideOrdersTie`,
  `AutoOrder.WideOrders`).
- A client can stay disconnected without a reconnect loop (`Lifecycle.LeftDisconnected`,
  `Lifecycle.AbandonedExactly`) or be connected after Stop (`Lifecycle.ConnectedAfterStop`,
  `Lifecycle.UpWithoutStart`).
- A kept session can hold filters without handlers (`Sessions.StaleFilter`, `Sessions.StaleExactly`).
- Over the external client a Topic call that failed leaves its filter at the broker with no owner
  (`Registrations.FailedTopicReturns`, `Registrations.FailedTopicsLinger`).
- One packet identifier repeats at the counter's wrap (`PacketIds.ConsecutiveDiffer`).
- A token check that straddles the expiry can miss the revocation, and only such a check
  (`Revocation.StraddlingAccepted`, `Revocation.RevokedIsRejected`), and a rotation granted once is
  granted again while the token lives (`Revocation.RotatesAgain`).
- Scopes with commas can share a requirement key (`Policies.CommaCollides`, `Policies.PreservedExactly`).
- On invalid UTF-8 one sanitizing run may not be enough (`Sanitizing.InvalidBytesRejoin`,
  `Sanitizing.SecondRunExactly`).

## Model

| member | source | states |
|---|---|---|
| `Guarantee.NoDanglingTags` | di/replace.go:12-224 | No dangling references and none left out: for every tree of modules and option groups whose replacements and defaults report one binding each, the pass changes a parameter's tag if and only if a spec is chosen for the binding it asks for at the place its node comes from; it then asks for the scoped form of that binding under the id of that spec; the spec is declared in the tree, and a node of the output carries its value, reports that very scoped binding, builds if the spec's own node would, and exports it when it builds |
| `Winners.TreeLed` | di/replace.go:12-224 | Over a whole tree, a parameter's tag in the output changed if and only if a spec is chosen, at the leaf's own position with the specs in force there, for what the parameter asked for; and it then asks for the scoped binding of that spec |
| `Winners.LedToWinner` | di/replace.go:85-223 | The same equivalence for one leaf, whatever it becomes: kept, stripped, rewritten or replaced by emitted nodes |
| `Guarantee.KeyParts` | di/replace.go:672-678 | Printed keys of bindings without a bar coincide exactly when type text, name and group do |
| `Guarantee.FaithfulExactly` | di/replace.go:672-678 | Keys tell the bindings of a set apart if and only if bindings of one name and group that print the same type have the same type |
| `Guarantee.SameTextDangles` | di/replace.go:536-551 | Why the keys must be faithful: for any two types that print alike there is a tree whose output has a changed parameter that nothing supplies |
| `NoDangling.ApplySound` | di/replace.go:12-224 | The invariant of the recursion: every redirected parameter of a subtree leads to an inherited spec, or to a spec of the subtree emitted in its output |
| `NoDangling.LocalEmitted` | di/replace.go:133-180 | Every spec declared in a scope is emitted, in that scope's output, for each of its target bindings |
| `NoDangling.ActiveSound` | di/replace.go:536-588 | Every redirection in force at a position leads to a spec of the scope that has the redirected binding among its targets |
| `NoDangling.SameStripping` | di/replace.go:657-670 | A provider stripped of its auto groups because of all applicable specs is stripped for the winning spec alone, so redirection and emission look at the same bindings |
| `NoDangling.EmittedOne` | di/replace.go:859-916 | The node emitted for a target reports the scoped binding, and it alone if and only if the replacement is not also provided as itself and no rule of its own adds an export; it builds if the replacement itself would and exports the binding when it builds; its own parameters are redirected soundly, exactly where a redirection is in force |
| `NoDangling.InheritedOrigin` | di/replace.go:523-534 | What a child scope inherits has the id and the targets of a spec of the parent that applies there |
| `Replacing.ApplyReplacements` | di/replace.go:12-76 | The whole pass over one scope, with its loops and the shared counter, computes the specified output, error and final counter |
| `Replacing.ApplyList` | di/replace.go:85-223 | The rewriting loop over a spliced scope against its specification, child scopes included |
| `Replacing.ApplyLeafLoop` | di/replace.go:85-223 | The case of each node that draws no id, with the active tags built by their loops |
| `Replacing.CollectLocalSpecs` | di/replace.go:34-63 | The collecting loop draws one id per replacement or default and stops at the first error |
| `Replacements.AcceptedExactly` | di/replace.go:291-419 | A replacement or default is accepted if and only if its options are in order, without Decorator, Private, Public or tags before any As, a default also without tagged exports, and its report can be worked out; the spec is then what was declared, with that report |
| `Replacing.Emit` | di/replace.go:133-180 | The emitting loop of a replacement or default produces one node per target, in order |
| `Replacing.IdsConsecutive` | di/replace.go:34-63 | The specs of a whole tree, in the order the pass meets them, carry consecutive ids from the shared counter |
| `Replacing.CounterAfter` | di/replace.go:12-224 | The pass leaves the counter just past the last id it gave out, across all nested scopes |
| `Replacing.UniqueOwner` | di/replace.go:680-698 | Within a tree two bindings that are both named, both grouped or both untagged share a scoped form only if they are the same binding under the same spec |
| `Rewriting.RewriteParamTags` | di/replace_rewrite.go:117-139 | The in-place loop over the tags rewrites each by the active map and reports a change exactly when one changed |
| `Rewriting.AsksFor` | di/replace_rewrite.go:117-159 | A tag with a name asks for the named binding of the parameter's type, one with a group for the group of the element type of a slice, an empty one for the type itself |
| `Rewriting.RewriteSound` | di/replace_rewrite.go:8-107 | Rewriting a consumer changes only its tags: those of exactly the parameters for whose binding a redirection is in force, and each then asks for the scoped binding of what it asked for |
| `Replacements.RewrittenExactly` | di/replace_rewrite.go:8-115 | A rewriting starts from the declared tags, or from those of an earlier rewriting except for an invoke, redirects each parameter under its own key, and fails only for a constructor whose options do |
| `Replacements.LeftAlone` | di/replace_rewrite.go:8-107 | Supplied values, populates of several targets and other nodes are never redirected |
| `Tags.RoundTrip` | di/replace_rewrite.go:141-198 | The rewritten tag parses back to exactly the scoped name and group if and only if the tag is rewritable: a non-empty group comes without a closed name; otherwise there is a closed name, or neither key occurs |
| `Tags.OptionalKept` | di/replace_rewrite.go:161-198 | An optional part of the tag survives the rewriting unchanged |
| `Tags.Replaced` | di/replace_rewrite.go:186-198 | Replacing the value of one key yields the new value for that key and leaves every other key's value |
| `Tags.UnclosedIsLost` | di/replace_rewrite.go:161-184 | A tag whose name or group value is not closed never parses back to the scoped binding |
| `Tags.FreshNames` | di/replace.go:680-698 | Scoped bindings of one kind coincide only for equal types, names or groups, and equal ids |
| `Tags.ScopedKind` | di/replace.go:680-698 | A scoped binding differs from its original, keeps its type, and has exactly one of name and group |
| `Text.ItoaInjective` | di/replace.go:680-698 | Different ids print differently |
| `Text.ItoaReads` | di/replace.go:680-698 | The digits of an id read back give the id, without a leading zero |
| `Tags.SafeTextAt` | di/replace.go:691-698 | A type's text goes into a scoped name character by character, a star spelt out and slash, dot and brackets as underscores |
| `Active.ActiveTagsWinner` | di/replace.go:536-588 | A binding is redirected exactly when it is provided and an applicable replacement is selected for it, or when only defaults offer it; and then to that winner's scoped binding |
| `Active.FirstDefaultIsSelected` | di/replace.go:553-588 | Where only defaults of one scope offer a binding, the one redirected to is the one the selection rule would pick if and only if exactly one default offers it |
| `Active.TwoDefaultsDiffer` | di/replace.go:553-588 | With two defaults of one type it is not: the specs lead to the first, the rule picks the second |
| `Rivals.RivalDefaults` | di/replace.go:12-224 | The same through the whole pass: on a tree of two defaults of a type and a consumer of it, the consumer comes out asking for the first default's binding while the rule picks the second |
| `Active.DefaultTargetsLoop` | di/replace.go:590-615 | The targets of a default: its own bindings, then the matching provided ones that no replacement takes, without repeats |
| `Active.BuildActiveTagMap` | di/replace.go:536-551 | The loops that fill the active map against its specification |
| `Active.AppendDefaultTags` | di/replace.go:553-588 | The loops that add defaults, the seen keys included, against their specification |
| `Active.ReplacementTargets` | di/replace.go:634-655 | The targets of a replacement: its own bindings, then the matching provided ones, without repeats |
| `Replacements.TargetsExactly` | di/replace.go:590-655 | A replacement is emitted for what it offers and for every provided binding it lists a form of; a default for what it offers and for those among the provided ones that no spec lists |
| `Replacements.DedupOrder` | di/replace.go:590-655 | No two targets share a key, and no key is lost |
| `Replacements.StripsExactly` | di/replace.go:251-265 | A provider loses its auto groups if and only if some spec in hand lists a form of what it reports |
| `Replacements.StrippedExactly` | di/replace.go:657-670 | It then reports what it declares, and its own type if that was kept without rules |
| `Selection.SelectReplacement` | di/replace.go:700-736 | The loop over the specs returns the specified winner |
| `Selection.SelectedExactly` | di/replace.go:700-771 | A spec is selected if and only if it stands at a position that lists some form of the bindings and is preferred to all others that do: explicit before default, then the finer form, then depth, then the later position; stated on the names and groups in the lists |
| `Selection.OrderFree` | di/replace.go:700-771 | Of two specs, both explicit or both default, one wins in either order if and only if it lists a finer form, or an equally fine one from further in |
| `Selection.PickIsMaximum` | di/replace.go:700-736 | The winner is the one matching position above every other matching one: explicit over default, then specificity, depth, later position; and only that position wins |
| `Selection.PickConcat` | di/replace.go:700-736 | Picking over a concatenation is choosing between the winners of the parts |
| `Selection.SelectConcat` | di/replace.go:700-736 | The same for specs: the later part's winner displaces the earlier's exactly when it ranks at least as high |
| `Selection.BestReplaceScore` | di/replace.go:738-758 | The double loop computes the best specificity of a matching pair, or -1 |
| `Selection.BestScoreForms` | di/replace.go:738-771 | What a score says: 3, 2, 1 or 0 exactly when the finest form of a binding in the list keeps its name and group, its group, its name, or neither |
| `Selection.BestScoreMatches` | di/replace.go:738-758 | The score is non-negative exactly when some pair matches |
| `Selection.ApplicableSpecsAtIndex` | di/replace.go:494-521 | The loop keeps, in order, the specs that apply at a position |
| `Selection.ApplicableMembers` | di/replace.go:494-521 | Kept are exactly the explicit specs that are inherited, reach everywhere, or stand before the position in mode After or after it in mode Before |
| `Positions.ReachesByMode` | di/replace.go:12-224 | On the output of the pass over a scope with one replacement: a parameter's tag changed if and only if what it asks for is provided, the replacement lists a form of it, and its node stands after the replacement, before it, or anywhere, as the mode says |
| `Positions.OneWinner` | di/replace.go:494-588 | The same for the winner at a position with one spec in hand, an inherited one included |
| `Positions.InheritedReachesAll` | di/replace.go:494-534 | What a child scope inherits applies at every position in it, whatever its mode was further out |
| `Graph.SpliceOptionsLoop` | di/replace.go:229-249 | The splicing loop, with its early return, against the specification |
| `Graph.SpliceIdempotent` | di/replace.go:229-249 | Splicing a spliced scope changes nothing |
| `Graph.SpliceKeepsLeaves` | di/replace.go:229-249 | Splicing keeps every leaf of the tree, in order |
| `Graph.SpliceKeepsProvides` | di/replace.go:421-472 | The providers found, or the first error, are the same before and after splicing |
| `Graph.CollectScopeProvidesLoop` | di/replace.go:421-472 | The recursive loop collects the providers of a scope in order, nested ones included, and stops at the first error |
| `Graph.CollectedLeaves` | di/replace.go:421-472 | The providers collected are the leaves that provide something, at any depth and in order, each with what it reports; a node that names types provides these untagged |
| `Bindings.ParseBindOptions` | di/options_bind.go:271-296 | The loop over the options stops at the first error, unsupported nodes and options included, and otherwise yields the configuration |
| `Exports.ParsedExactly` | di/options_bind.go:271-296 | Options are parsed if and only if none is an empty name or group, an As tag without either, a ToGroup with no As before it, or no bind option; the first such one decides the error |
| `Exports.ParsedFlags` | di/options_bind.go:241-296 | Each flag of the configuration says that its option is among those given, and of Private and Public the last decides |
| `Exports.ParsedAs` | di/options_bind.go:35-240 | An As declares an export of its type for each name and group its tags list, or an untagged one; the last of them takes the last name or group given before the next As |
| `Exports.ParsedPending` | di/options_bind.go:155-222 | Names and groups given before any As wait, in order, for the provider's own type |
| `Bindings.BuildProvideSpec` | di/provide.go:124-258 | The loops over exports, pending tags and rules against the specification of the export list, the self flag and the report |
| `Exports.ExportedExactly` | di/provide.go:124-258 | A provider that builds puts into the container what it declares, its rules' interfaces under their groups for the rules in force, and its own type if Self is asked for, nothing is declared, or a rule that adds its export asks for it; and nothing else |
| `Exports.ReportedExactly` | di/provide.go:124-258 | It reports the same, but not its own type beside an untagged As |
| `Bindings.ReportedIsExported` | di/provide.go:124-258 | Every binding reported for a provider that builds is one the wrapped provider really exports |
| `Bindings.ExportedIsReported` | di/fx_helpers.go:228-247 | Every exported binding is reported if and only if it is not the case that an untagged As is declared while Self is asked for, or a rule that asks for it adds its export, and the base is not declared itself |
| `Bindings.AsSelfUnreported` | di/fx_helpers.go:228-247 | A type provided under an interface and as itself exports the type without reporting it |
| `Bindings.RulesSelf` | di/provide.go:207-250 | Rules turn Self on exactly by adding the export of a rule that asks for it |
| `Bindings.RepeatedRules` | di/provide.go:207-250 | Repeating rules already configured never changes exports or report |
| `Bindings.BuildsExactly` | di/fx_helpers.go:414-437 | A provider builds if and only if each declared export is valid and each rule that adds one has a group and an interface the type itself is assignable to |
| `Bindings.PointerOnlyRuleBreaks` | di/fx_helpers.go:414-437 | A value whose pointer alone meets a rule's interface does not build under that rule |
| `Bindings.StrippedReportsLess` | di/replace.go:267-287 | A provider stripped of auto groups still builds and reports no binding it did not report before |
| `Bindings.RetaggedExports` | di/replace.go:899-916 | A single-export provider re-tagged for a target of its type reports that target and keeps its other settings |
| `Bindings.RetaggedReport` | di/replace.go:899-916 | It reports that target alone if and only if it has no Self and every rule in force that applies has the target's own key |
| `Bindings.RetaggedBuilds` | di/fx_helpers.go:414-437 | It builds if and only if its type is assignable to what it replaces and no rule that applies names an empty group; it builds whenever the provider it was made from does, and conversely unless that one declares an export in an empty group |
| `Bindings.SelfReexports` | di/replace.go:899-916 | With Self the re-tagged provider reports its base again beside the target |
| `Bindings.SingleExport` | di/provide.go:124-258 | A provider that reports one binding declares at most one export, of that binding's type |
| `Bindings.AddAutoGroupsIdempotent` | di/auto_group.go:150-182 | Handing a provider the same rules twice adds nothing the second time |
| `Bindings.AddMissingRules` | di/auto_group.go:150-182 | The loops with their set of keys add exactly the rules a non-bare option list lacks, and report a change exactly when they added one |
| `Bindings.ApplyAutoGroupRuleOverrides` | di/auto_group.go:197-213 | An override is merged into the first rule of its key in place, or appended |
| `Bindings.StripAutoGroupOptions` | di/replace.go:267-287 | The loop drops the auto-group options and no other, and reports a removal exactly when there was one |
| `Bindings.OverrideNameGroupOpts` | di/replace.go:899-916 | The loop drops names and groups, then adds those of the target |
| `Bindings.BuildOutputSpecs` | di/fx_helpers.go:228-247 | The loop lists the fields of the wrapped result, the type itself first if asked for |
| `AutoGroups.CollectAutoGroupRules` | di/auto_group.go:130-148 | The recursive collecting loop against its specification |
| `AutoGroups.ApplyAutoGroups` | di/auto_group.go:96-128 | The recursive pass against its specification |
| `AutoGroups.SpreadIdempotent` | di/auto_group.go:96-128 | Running the pass over its own result changes nothing, on any tree |
| `AutoGroups.TargetGets` | di/auto_group.go:96-128 | At any depth a provider comes out with the rules in force at its path added to its options |
| `AutoGroups.ReachExactly` | di/auto_group.go:75-148 | A rule is in force at a node exactly when the innermost module around the rule is also around the node |
| `AutoOrder.ApplyAutoGroupOrderMetadata` | di/auto_group_order.go:14-53 | The recursive walk with its shared counter against its specification |
| `AutoOrder.NumberedInOrder` | di/auto_group_order.go:14-53 | Providers are numbered consecutively in declaration order through all nesting, and nothing else about them changes |
| `AutoOrder.AutoGroupOrderIndex` | di/auto_group_order.go:173-202 | The two loops pick the last priority and the last order and combine them into the key |
| `AutoOrder.LastOfKind` | di/auto_group_order.go:173-202 | What is looked up is the index of the last priority and of the last order, or the largest integer where there is none |
| `AutoOrder.KeyIsLexicographic` | di/auto_group_order.go:173-202 | For orders below a million and priorities that fit, keys compare as priority first, declaration second |
| `AutoOrder.KeyInWords` | di/auto_group_order.go:173-202 | For any priority and order the key is a million for each step of priority plus the order, as far as 64 bits hold it |
| `AutoOrder.WideOrders` | di/auto_group_order.go:195-201 | In general an earlier priority comes first exactly while the orders differ by less than a million for each step of priority |
| `AutoOrder.WideOrdersTie` | di/auto_group_order.go:195-201 | At a million the two tie |
| `AutoOrder.SortIndices` | di/auto_group_order.go:152-163 | The index sort yields a stable sort of the keys |
| `AutoOrder.SortUnique` | di/auto_group_order.go:152-163 | There is exactly one stably sorted arrangement of the indices |
| `AutoOrder.OrderGroup` | di/auto_group_order.go:148-169 | The decorator returns the members by priority, then declaration, in whatever order they were delivered |
| `AutoOrder.OneOrder` | di/auto_group_order.go:148-169 | So two deliveries of the same members end up in the same order |
| `AutoOrder.OrderDelivered` | di/auto_group_order.go:148-169 | From tree to consumer: distinct providers of a fresh tree, delivered in any order, come out by the priority they were declared with, then by their place in the tree |
| `AutoOrder.WalkNumbersApart` | di/auto_group_order.go:14-53 | A fresh tree of fewer than a million providers satisfies what the ordering needs: distinct numbers that grow in declaration order |
| `Batching.Build` | di/app.go:84-182 | Unfolding the options gives what emitting node by node gives, then decorators and diagnostics, or on a failure diagnostics and the error; no batch is empty or could have been joined to the one before |
| `Batching.NothingLost` | di/app.go:84-182 | The built options hold each constructor and value that the nodes declare up to the first failure, once, with its privacy and in order, and besides them recovery, the nodes' other options, then decorators and diagnostics, or diagnostics and the error |
| `Batching.Batcher.AddNodes` | di/app.go:121-162 | The loop over the nodes keeps at most one kind pending and adds exactly the meaning of each node up to the first failure |
| `Batching.Batcher.FlushBatch` | di/app.go:85-103 | Flushing emits what is pending as one option and changes nothing of what has been emitted so far |
| `Batching.Batcher.AddProvide` | di/app.go:105-111 | A provider joins the pending batch of its kind and privacy, or starts a new one after a flush |
| `Batching.Batcher.AddSupply` | di/app.go:113-119 | The same for supplied values |
| `Subscribers.ManagedPubSub.Reserve` | realtime/subscribers.go:119-141 | The first critical section of Topic: refused when stopped or not allowed, otherwise the next id, with the first handler of the chain through the registrar's middlewares and then the call's own |
| `Subscribers.ManagedPubSub.Commit` | realtime/subscribers.go:147-160 | The second critical section: the entry is kept unless the registrar was stopped meanwhile |
| `Subscribers.ManagedPubSub.Use` | realtime/subscribers.go:165-173 | Middlewares are added at the end, under no other change |
| `Subscribers.ManagedPubSub.Stop` | realtime/subscribers.go:175-191 | Stop takes all items once, unsubscribes each even after failures, and fails exactly when one of them did |
| `Subscribers.ManagedPubSub.IsTopicAllowed` | realtime/subscribers.go:328-339 | With the list enabled a filter is allowed exactly when it starts with an allowed prefix |
| `Subscribers.ManagedPubSub.Topic` | realtime/subscribers.go:113-163 | An uninterrupted Topic keeps its entry, and registers the composed handler, exactly when running, allowed and accepted, and otherwise leaves nothing behind |
| `Subscribers.WholeTopic` | realtime/subscribers.go:113-163 | In the interleaved model a Topic call whose steps follow one another does what the whole call does |
| `Subscribers.WholeStop` | realtime/subscribers.go:175-191 | And so does Stop: every item is unsubscribed in order, those refused excepted |
| `Subscribers.CaughtByStop` | realtime/subscribers.go:143-160 | A call that Stop overtakes unsubscribes again, and reports when that fails |
| `Subscribers.ApplyTopicMiddlewares` | realtime/subscribers.go:223-233 | The loop leaves the first handler of the chain in which each handler is the next one behind its middleware, ending in the bare one |
| `Subscribers.ChainStarts` | realtime/subscribers.go:223-233 | There is one such chain for a list of middlewares, and composing them gives its first handler |
| `Subscribers.ComposeTwo` | realtime/subscribers.go:131 | One middleware of the registrar and one of the call give m(n(handler)); none gives the handler |
| `Subscribers.ComposeAppend` | realtime/subscribers.go:131 | The registrar's middlewares run outside the call's, whatever the split |
| `Subscribers.ExactlyOneOwner` | realtime/subscribers.go:113-191 | In every interleaving of Topic and Stop steps a subscription is live if and only if it has an owner among items, calls in flight and Stop's list (or a reported failure), and never two |
| `Subscribers.NothingLeft` | realtime/subscribers.go:175-191 | Once stopped with nothing in flight, no subscription is left if and only if no Unsubscribe failed |
| `Subscribers.IdsNeverRepeat` | realtime/subscribers.go:129-130 | No two Topic calls of a run draw the same id |
| `Subscribers.AnswersHold` | realtime/subscribers.go:143-162 | Until Stop begins the subscription of every call that returned nil is live; that of a refused or rolled-back call never is |
| `Subscribers.StoppedForGood` | realtime/subscribers.go:175-184 | After Stop nothing is admitted, committed or taken again |
| `Lifecycle.External.BeginStart` | realtime/mqtt/external.go:71-78 | Start's first critical section proceeds exactly when not started and then clears closing |
| `Lifecycle.External.SetConnected` | realtime/mqtt/external.go:275-281 | Setting a connection sets started with it |
| `Lifecycle.External.Stop` | realtime/mqtt/external.go:99-106 | Stop's critical section takes the connection and sets closing |
| `Lifecycle.External.HandleConnectionLoss` | realtime/mqtt/external.go:293-316 | A report about an old connection while a newer one is set changes nothing; any other clears the connection and decides whether to spawn a reconnect loop |
| `Lifecycle.External.ConnectedConn` | realtime/mqtt/external.go:438-445 | The connection handed to writers is the current one, if started |
| `Lifecycle.External.EndReconnect` | realtime/mqtt/external.go:319-323 | The loop's deferred reset clears reconnecting and nothing else |
| `Lifecycle.LinkAgrees` | realtime/mqtt/external.go:275-365 | In every interleaving started holds exactly with a connection, and at most one reconnect loop is alive, exactly when reconnecting is set |
| `Lifecycle.StepFields` | realtime/mqtt/external.go:71-365 | Every step of the interleaved model changes the four fields as the critical section it stands for does, written out |
| `Lifecycle.StepThreads` | realtime/mqtt/external.go:71-365 | And moves its thread on as the code does, spawning a loop exactly on a loss to be recovered |
| `Lifecycle.StepPossible` | realtime/mqtt/external.go:71-365 | Which steps are possible in a state: a thread takes the step it has come to, a wait ends by itself or on Stop, and losses are reported for connections that have been current or are read |
| `Lifecycle.StepCloses` | realtime/mqtt/external.go:99-316 | Which connections a step closes: the one Stop takes, or the one reported unless a newer one is current |
| `Lifecycle.OnlyOwnLoss` | realtime/mqtt/external.go:293-303 | The current connection goes only through Stop, a report about itself, or replacement by a newer one; reports about others leave all fields alone |
| `Lifecycle.ConnectedIsRead` | realtime/mqtt/external.go:208-365 | With no thread between setting a connection and reading it, a started client's connection is open and has a read loop |
| `Lifecycle.LossRecovered` | realtime/mqtt/external.go:293-316 | The loss of the current connection leaves a loop trying again if and only if no loop is on its way out at that moment |
| `Lifecycle.AbandonedExactly` | realtime/mqtt/external.go:71-97 | A step leaves a client that was not told to stop without a connection and with nobody to make or watch one if and only if it is a Start's failing dial with nobody else trying, or the failure of the last read loop while the only loop is on its way out |
| `Lifecycle.AbandonedHistory` | realtime/mqtt/external.go:71-365 | In every run that ends so, it has been so from the start, or from such a step on |
| `Lifecycle.AbandonedStays` | realtime/mqtt/external.go:293-365 | It stays so exactly until Start, Stop, or a late writer's report with no loop on its way out |
| `Lifecycle.LeftDisconnected` | realtime/mqtt/external.go:318-356 | A schedule that gets there |
| `Lifecycle.UpWithoutStart` | realtime/mqtt/external.go:71-106 | A stopped client that is down can come up without a new Start if and only if a Start or a loop is dialing or has a connection it has not set |
| `Lifecycle.ConnectedAfterStop` | realtime/mqtt/external.go:71-106 | A schedule in which it does |
| `Sessions.Client.Subscribe` | realtime/mqtt/external.go:155-176 | Subscribe registers the handler and sends the filter exactly when it is the first for it and the client is connected |
| `Sessions.Client.Unsubscribe` | realtime/mqtt/external.go:178-206 | Unsubscribe drops the handler, and the filter with its last one, telling the broker when connected |
| `Sessions.Client.Reconnect` | realtime/mqtt/external.go:318-356 | A connection attempt discards a clean session and sends every filter, in any order, until a write fails |
| `Sessions.Client.Start` | realtime/mqtt/external.go:71-97 | Start does the same unless already started |
| `Sessions.BrokerAgrees` | realtime/mqtt/external.go:155-206 | For every sequence of calls with failures and reconnects no filter is left with an empty handler set, and while connected the broker's filters are exactly the handlers' for clean sessions, and include them otherwise |
| `Sessions.HandlersRegistered` | realtime/mqtt/external.go:155-206 | A handler is registered exactly if some call registered it and none removed it since |
| `Sessions.RemoteIsRegistered` | realtime/mqtt/external.go:421-436 | So a connected clean-session client is subscribed at the broker to exactly the filters registered and not removed |
| `Sessions.KeptAtBroker` | realtime/mqtt/external.go:155-206 | Without a clean session the broker holds a filter if and only if a SUBSCRIBE of it went through, or it was there from the start, and no UNSUBSCRIBE of it has gone through since |
| `Sessions.StaleExactly` | realtime/mqtt/external.go:155-206 | At the end of any run without clean sessions the broker holds a filter that has no handler if and only if it did from the start, or some call took away its last handler while disconnected or failing to write, the broker then holding it; and no later call subscribed to it |
| `Sessions.KeptSessionAgrees` | realtime/mqtt/external.go:227-245 | Without a clean session a connected client and its broker agree if and only if no filter has gone stale at some point of the run, in the sense above, without a later Subscribe |
| `Sessions.StaleFilter` | realtime/mqtt/external.go:178-206 | And it can: a run that leaves the broker with a filter no handler is registered for |
| `Registrations.Topic` | realtime/subscribers.go:113-163 | A whole Topic call over the external client against the composition of both models |
| `Registrations.TopicOutcome` | realtime/subscribers.go:113-163 | Such a call returns nil if and only if the registrar runs, the filter is allowed, and it need not be sent or is sent; its handler is registered at the client either way |
| `Registrations.Stop` | realtime/subscribers.go:175-191 | A whole Stop over the external client likewise, a failed Unsubscribe included |
| `Registrations.FailedTopicsLinger` | realtime/mqtt/external.go:155-176 | Over this client, at every connected state of every run with clean sessions, the broker's filters are those of the kept entries and of the Topic calls that failed; each has an owner if and only if every failed call's filter is kept by another |
| `Registrations.FailedTopicReturns` | realtime/mqtt/external.go:155-176 | An admitted Topic call that returned an error leaves no item, yet its filter is at the broker whenever the client is connected afterwards, Stop or not |
| `Topics.TopicMatchesFilter` | realtime/mqtt/external.go:663-684 | The loop over the levels, with its shortcuts, against its recursive specification |
| `Topics.MatchesMeaning` | realtime/mqtt/external.go:663-684 | On every topic and every valid filter it decides the wildcard meaning of section 4.7.1 of MQTT 3.1.1 |
| `Topics.LevelsBetweenSlashes` | realtime/mqtt/external.go:668-669 | The levels are what stands between the slashes; a leading slash makes an empty first level |
| `Topics.ParentMatches` | realtime/mqtt/external.go:663-684 | A filter ending in the multi-level wildcard also matches its parent level |
| `Topics.RestIgnored` | realtime/mqtt/external.go:673-676 | On any filter what follows the first multi-level wildcard has no effect |
| `Separators.SplitJoin` | realtime/mqtt/external.go:668-669 | Joining the levels of a string gives the string, and no level holds a separator |
| `Separators.JoinSplit` | realtime/mqtt/external.go:668-669 | Levels without separators are recovered from their join |
| `PacketIds.Source.NextPacketID` | realtime/mqtt/external.go:447-456 | The draw from the wrapping 32-bit counter, with its two retries |
| `PacketIds.NeverZero` | realtime/mqtt/external.go:447-456 | An identifier is never zero and fits in 16 bits |
| `PacketIds.WrapIsOneOff` | realtime/mqtt/external.go:447-456 | Both draws come out zero at exactly one counter value, which is why the last fallback is needed |
| `PacketIds.ConsecutiveDiffer` | realtime/mqtt/external.go:447-456 | Consecutive identifiers differ except at exactly that counter value |
| `KeyCache.CachedLookup.FindByKeyID` | security/apikey/cache.go:93-132 | A lookup answers from L1, else from the store, else from the base, with every failure of the store and the base, writes that take effect and still report an error included |
| `KeyCache.CachedLookup.GetL1` | security/apikey/cache.go:148-163 | An entry is used up to and at its expiry and dropped after it |
| `KeyCache.CachedLookup.SetL1` | security/apikey/cache.go:165-180 | A full L1 drops one arbitrary entry before the new one goes in |
| `KeyCache.CachedLookup.GetL2` | security/apikey/cache.go:182-199 | A stored negative answer or key is a hit; an unreadable item is deleted and missed |
| `KeyCache.CachedLookup.InvalidateKey` | security/apikey/cache.go:134-146 | Invalidation drops the key from L1 first and from the store unless that does not take effect; it succeeds unless an error is reported |
| `KeyCache.CachedLookup.RevokeKey` | security/apikey/cache.go:279-287 | The cache is told only after the base revoked |
| `KeyCache.CachedLookup.RotateKey` | security/apikey/cache.go:300-316 | After a successful rotation both the old and the new key id are forgotten |
| `KeyCache.BoundedStaleness` | security/apikey/cache.go:93-132 | Over every run, what a lookup finds the base gave for that key at most twice the longest time to live ago, or once without a store |
| `KeyCache.BoundAttained` | security/apikey/cache.go:93-132 | The bound is exact for every configuration: a run in which an answer is exactly that old |
| `KeyCache.L1Bounded` | security/apikey/cache.go:165-234 | L1 stays within its size, and each entry was made by a lookup that found none, for the time to live of its key at that moment; if the key was valid then, the entry ends no later than the key |
| `KeyCache.EntryOrigin` | security/apikey/cache.go:165-180 | Every entry of every reachable state goes back, unchanged, to the lookup that made it, with what that lookup found |
| `KeyCache.EntryLifetime` | security/apikey/cache.go:165-234 | Every entry ends, counted from that lookup, after the negative time to live for a missing or expired key, and otherwise after the positive one or with the key's expiry, whichever is earlier |
| `KeyCache.ItemLifetime` | security/apikey/cache.go:201-234 | Every readable item of the store goes back to the lookup that asked the base for it, holds that answer, and runs out by the same rule |
| `KeyCache.AskedExactly` | security/apikey/cache.go:93-132 | A lookup asks the base if and only if L1 has no entry that is still good and the store neither fails nor has a readable item whose time is not up |
| `KeyCache.NegativeAsksAgain` | security/apikey/cache.go:93-132 | With no answer from the store, a missing key is asked for again exactly once the negative time to live is over |
| `KeyCache.FirstLookupAsks` | security/apikey/cache.go:134-146 | The first lookup of a key after an invalidation that took effect, reported or not, whatever happens to others meanwhile, asks the base and answers nothing else, or fails |
| `KeyCache.RedisKeyInjective` | security/apikey/cache.go:236-241 | Store keys of different key ids differ |
| `Revocation.InMemoryRevocationCache.Set` | security/session/jwt_revocation.go:29-40 | A positive time to live sets the entry; otherwise nothing happens |
| `Revocation.InMemoryRevocationCache.Get` | security/session/jwt_revocation.go:42-58 | An entry is found up to and at its end and deleted when found past it |
| `Revocation.JWTManager.RevokeClaims` | security/session/jwt_revocation.go:131-144 | The error cases, and the entry a revocation leaves |
| `Revocation.JWTManager.EnsureNotRevoked` | security/session/jwt_revocation.go:203-219 | Refuses exactly when the store holds a current entry; drops only entries past their end |
| `Revocation.JWTManager.ValidateActive` | security/session/jwt_manager.go:166-175 | Accepts if and only if the token is genuine, unexpired at the first reading, of a type and of the expected one if any, and not held revoked at the second; each refusal has its own condition, written out |
| `Revocation.JWTManager.RotateOut` | security/session/jwt_manager.go:113-133 | Rotation with its two clock readings: each answer with its condition written out, none of which is the store's contents, and the old token's entry, left exactly when the token was alive at the second reading |
| `Revocation.WholeRevoke` | security/session/jwt_revocation.go:85-91 | In the interleaved model a revocation whose steps follow one another leaves what the whole call leaves |
| `Revocation.WholeCheck` | security/session/jwt_manager.go:166-175 | And a check, its lazy deletion included, answers as the whole call does and leaves the map as it does |
| `Revocation.RotatesAgain` | security/session/jwt_manager.go:113-133 | A token that was rotated rotates again exactly while it verifies |
| `Revocation.RevokedIsRejected` | security/session/jwt_revocation.go:203-219 | After a revocation returned, in every interleaving and after any later steps, a check that reads the store accepts only if the token expired between Verify's clock reading and the store's |
| `Revocation.OthersUnaffected` | security/session/jwt_revocation.go:104-109 | A token nobody set out to revoke is accepted whenever it verifies |
| `Revocation.DeleteKeeps` | security/session/jwt_revocation.go:51-55 | A late deletion, run without a second look, only ever removes the entry of an expired token |
| `Revocation.CompleteStays` | security/session/jwt_revocation.go:85-91 | A revocation that has returned stays so through every step |
| `Revocation.StraddlingAccepted` | security/session/jwt_manager.go:166-175 | For any two clock readings, some run lets a check with them accept a token whose revocation has returned if and only if the expiry lies after the first and not after the second; with the entry still in the map, if and only if strictly between |
| `Revocation.SharedJTIShortens` | security/session/jwt_revocation.go:29-40 | Were two tokens to share an id, the later would be found revoked exactly until the earlier expiry |
| `Revocation.KeyInjective` | security/session/jwt_revocation.go:104-109 | Store keys of different token ids differ |
| `StringLists.Normalized` | security/authz/policy_registry.go:89-106 | The pipeline yields, in order and once each, exactly the non-blank trimmed members |
| `StringLists.TrimCuts` | security/authz/policy_registry.go:89-106 | Trimming cuts spaces off both ends until none is left there |
| `StringLists.TrimDrops` | security/authz/policy_registry.go:89-106 | And nothing else: spaces around a trimmed text do not matter |
| `StringLists.LessMeans` | security/authz/policy_registry.go:89-106 | One string is before another if it is a proper prefix or has the smaller character where they first differ |
| `StringLists.SameMembers` | security/authz/policy_registry.go:89-106 | A list in strict order is determined by its members |
| `StringLists.NormalizeClean` | security/authz/policy_registry.go:89-106 | Normalising yields clean lists and leaves exactly those unchanged |
| `StringLists.SameNormal` | security/authz/policy_registry.go:89-106 | Two lists normalise alike exactly when they have the same members after trimming |
| `Policies.NewPolicyRegistry` | security/authz/policy_registry.go:30-45 | Succeeds exactly when every definition is named and equal names mean equal policies; it then holds those definitions and nothing else |
| `Policies.HeldAsGiven` | security/authz/policy_registry.go:30-86 | What the registry holds of a definition: its any-scopes, all-scopes and roles, each with the same members trimmed and in order, and the rest as given |
| `Policies.SecurityRequirementsForPolicy` | security/authz/policy_route.go:142-169 | The nested loops give one requirement for all of AllScopes and one for each of AnyScopes, per scheme |
| `Policies.PolicyGrants` | security/authz/policy_route.go:142-169 | Some requirement of a policy grants a principal exactly when the policy admits it |
| `Policies.RouteMetadata.AppendSecurityRequirement` | security/authz/policy_route.go:171-192 | A normalised requirement is appended unless blank or one of its key is there |
| `Policies.RouteMetadata.Expand` | security/authz/policy_route.go:121-140 | Expansion appends the requirements of the route's named, known policies in order |
| `Policies.ExpansionIdempotent` | security/authz/policy_route.go:121-192 | A second expansion adds nothing, whatever the requirements and scopes |
| `Policies.KeyInjective` | security/authz/policy_route.go:194-198 | Without commas in scopes the key tells requirements apart |
| `Policies.KeyExactly` | security/authz/policy_route.go:194-198 | For schemes without bars and scopes without commas two requirements share a key if and only if their trimmed schemes agree and they have the same non-blank scopes |
| `Policies.AppendedExactly` | security/authz/policy_route.go:171-192 | A requirement is appended in its trimmed form unless its scheme is blank, all its scopes are, or one of its key is there |
| `Policies.NoneLost` | security/authz/policy_route.go:171-192 | Then deduplication loses no requirement |
| `Policies.DecisionPreserved` | security/authz/route_scopes.go:84-105 | For comma-free scopes a user or app passes a route expanded from its policies exactly when nothing is required or some named, known policy admits it |
| `Policies.PreservedExactly` | security/authz/policy_route.go:171-192 | With any scopes the deduplicated requirements decide like all of them if and only if each one is implied by one that is the first of its key |
| `Policies.KeptExactly` | security/authz/policy_route.go:171-192 | Deduplication keeps exactly the first requirement of each key |
| `Policies.CommaCollides` | security/authz/policy_route.go:194-198 | Two scopes and one scope with a comma share a key, and a principal is refused that all requirements together would grant |
| `Policies.RelevantSecurityRequirements` | security/authz/route_scopes.go:154-173 | The filter keeps exactly the requirements whose scheme concerns the principal's type |
| `Policies.RelevantTrimmed` | security/authz/route_scopes.go:154-173 | A requirement concerns a principal by its trimmed scheme alone |
| `Policies.EnforceRouteScopes` | security/authz/route_scopes.go:84-105 | A route without requirements is open; otherwise some relevant requirement must be met |
| `Policies.DefaultSeparated` | security/authz/route_scopes.go:20-35 | With the default configuration the scheme policies use for users concerns users only, and that for apps apps only |
| `Policies.HasAllScopes` | security/authz/guard.go:184-200 | All non-empty required scopes must be held |
| `Sanitizing.Sanitize` | cfg/config.go:398-422 | The byte loop drops the two sequences and reports a result exactly when it met one |
| `Sanitizing.StripsText` | cfg/config.go:398-422 | On any valid UTF-8 input it equals decoding, dropping U+FEFF and U+200B, and encoding again; a change is reported exactly when one occurs |
| `Sanitizing.SecondRunFindsNothing` | cfg/config.go:398-422 | A second run over the result finds nothing |
| `Sanitizing.SecondRunExactly` | cfg/config.go:398-422 | On any bytes a second run finds something if and only if the bytes of a sequence, dropped ones between them apart, follow one another in the data |
| `Sanitizing.InvalidBytesRejoin` | cfg/config.go:398-422 | On some bytes that are not valid UTF-8 it does |
| `Sanitizing.EncodeInjective` | cfg/config.go:398-422 | Valid input decodes in one way |
| `Sanitizing.WellFormed` | cfg/config.go:398-422 | Valid input is what section 4 of RFC 3629 calls well-formed: first bytes tell the length, others lie between 80 and BF, and no character takes more bytes than it needs |

## Left out

- Guarantee.NoDanglingTags: asks that each replacement and default report one binding, because with several As options only the last export is given the scoped name; that tags be rewritable and texts free of quotes and colons; and that printed keys tell bindings apart. Conditions and switches in the tree are not part of it, since providers inside them are not collected.
- AutoOrder.SortIndices: the library's stable sort is modelled as insertion on values rather than in place; `AutoOrder.SortUnique` shows its result is the only possible one.
- Subscribers.ExactlyOneOwner: a failed Subscribe adds nothing at the broker and a failed Unsubscribe removes nothing; over the external client a failed Subscribe does leave something, which `Registrations` states for whole calls.
- Registrations.FailedTopicsLinger: Topic and Stop run as whole calls over the client, without interleaving.
- Lifecycle.LinkAgrees: any connection that was ever current may be reported lost by a failed write at any time, which covers more than the source does; dialing either succeeds with a new connection or fails; the backoff's length is not modelled.
- Sessions.BrokerAgrees: calls run one after another, a write either reaches the broker and is processed or fails and loses the connection; concurrent calls on one filter are not covered, and nothing is claimed about topics that begin with a dollar sign. Publish and read failures are the same event here.
- KeyCache.BoundedStaleness: each operation is one atomic step at one clock value, so fills racing with an invalidation and the sharing of one flight among callers are not modelled; the store keeps no item past its deadline. The namespace is taken as trimmed. The configured L2 time to live is not used by the source either.
- Revocation.RevokedIsRejected: one clock for the verifier and the store, Verify refuses from the expiry on, a token id belongs to one expiry, and the store is not swapped.
- Policies.DecisionPreserved: requirements a route declares by itself besides its policies are not part of the statement; super-admin bypass and route lookup are before it.
- Batching.Build: constructors and values are opaque, and what building a node yields is an input.
- Bindings.ParseBindOptions: nested bundles of bind options other than ToGroup and Self are not among the options, because stripping and re-tagging look at the outer list only and a bundle's inside would need a second model of both.
- Metadata wrapping and the check of the number of parameters. AutoGroupFilter and AutoGroupAsSelf carry no interface, so they override only rules without one.
- Scope ids (`nextScopeID`, `scopeID`): assigned by the pass and never read.
- The provideTagSets extension interface: nothing in the repository implements it.
- Inheritance of defaults: child scopes do not inherit them in the source, so nothing is claimed.
- di/decorate.go, websocket reading, runtime metrics and key generation: smaller pieces next to the ones above.
- Conditions' and switches' evaluation, fx itself, reflection, constructor calls and diagnostics text.
- Network dialing, TLS, packet encoding, the HTTP session controllers, JSON, JWT and PASETO libraries, hashing, enclaves, exporters, commands, mocks and examples.
