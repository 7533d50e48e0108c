# Chord-substitution progression engine

A Dafny model of the tree engine behind the `Progression` component of
hello_substitutions. A progression is a tree. Its leaves are chord nodes (id,
root pitch, chord name, quality). Its inner nodes are substitution groups (id,
rule tag "V-I", "ii-V" or "tritone", ordered children). The chord a group
stands for is reached by following last children down to a chord.

The engine has four parts:

- the rule table: a gate (`validate`) and an expansion (`substitute`) per rule;
- `getRootChord`: follows the last-child chain to a chord;
- `substitute`: an id-directed rewrite that copies the nodes on the way down
  and replaces the named node only when the rule's gate accepts it;
- `collapse`: turns a group into the chord it resolves to, keeping its id.

The music-theory library is injected as a `Theory` value with two functions:
move a pitch by an interval, and rate the quality of a chord built on a root
and a name. The id generator is a counter. The model proves that every id it
hands out is fresh. The progression keeps the invariant `Inv`: every group has
children, no id occurs twice, and every id is below the counter. Both
rewrites preserve it.

Files: `wrappers.dfy` (Option, Result), `music.dfy` (the injected theory),
`tree.dfy` (nodes, ids, root chord), `locate.dfy` (find and replace by id, the
reference the engine is proved against), `rules.dfy` (the rule table),
`engine.dfy` (substitute, collapse and their properties), `progression.dfy`
(the component's state), `scenarios.dfy` (worked examples on a small sample
theory).

The model follows the code as written:

- The state is one root node, not a list of top-level nodes.
- There is no parent lookup, chord appending, key choice or per-rule collapse.
- Collapsing a "tritone" group yields the inserted tritone chord, not the
  dominant it replaced. The code only follows the last child
  (`Scenarios.TritoneOnGSeventh`, `EngineProps.SubstituteThenCollapse`).

## Model

| member | source | states |
|---|---|---|
| `Tree.RuleNamed` | src/App.js:143-144 | Looking up a rule by its tag succeeds with rule k exactly when the tag is k's name ("V-I", "ii-V", "tritone"). Any other tag finds nothing. |
| `Tree.RootChord` | src/App.js:117-122 | The root chord of a resolvable subtree is always a chord node. A chord is its own root chord. |
| `Tree.RootChordWithin` | src/App.js:117-122 | The root chord's id occurs in the subtree it was resolved from. |
| `Locate.RootChordFound` | src/App.js:117-122 | In a subtree without duplicate ids, looking up the root chord's id finds that very chord: the walk ends at a node of the subtree. |
| `Tree.WellFormedResolvable` | src/App.js:117-122 | In a tree where every group has children, the last-child walk always reaches a chord. |
| `Rules.BuildChordFresh` | src/App.js:124-132 | A built chord has type "chord" and exactly the given root, name and quality. Its id, the next one from the supply, occurs in no tree the supply has served. |
| `Rules.Validate` | src/App.js:52-85 | "V-I" accepts every node. "ii-V" and "tritone" accept a chord exactly when the library rates its root and name "dominant". Asked about a group, they fail. |
| `Rules.Expand` | src/App.js:55-94 | The group has the rule's tag and the first fresh id. Its first child is a chord with the second fresh id on the rule's interval above the root chord: "7"/dominant for "V-I" and "tritone", "m7"/minor for "ii-V". "V-I" and "ii-V" keep the node as the second and last child, so the group resolves to the same chord. "tritone" has that chord as its only child. |
| `Rules.ExpandIds` | src/App.js:55-94 | An expansion's ids are the group's and the inserted chord's fresh ids, plus the node's ids for "V-I" and "ii-V". |
| `Rules.ExpandInv` | src/App.js:55-94 | An expansion of a node that keeps the invariant also keeps it. Its ids are the two fresh ones plus the node's ids; for "tritone" the node's ids are dropped. |
| `Engine.SubstituteHere` | src/App.js:143-148 | At the named node, success means the tag names a rule and the gate query succeeded. If the gate rejects the node, the node comes back unchanged and no id is drawn. If it accepts, the node resolves and is replaced by the rule's expansion, which draws exactly two ids. Every id in the result is the node's own or newly drawn. |
| `Engine.Substitute` | src/App.js:134-149 | A successful substitution keeps the root's id, unless the root itself is the named node and became a group with the first fresh id. Every id in the result was in the tree already or was drawn during the call. The supply never moves backwards. |
| `Engine.SubstituteAll` | src/App.js:136-139 | Rewriting the children of a group keeps the number of children. Every id in the new children was in the old ones or was drawn during the call. |
| `Engine.CollapseNode` | src/App.js:153-163 | A chord collapses to itself. A group collapses exactly when it resolves. The result is a chord with the group's id and the root, name and quality of the group's root chord. |
| `Engine.CollapseAt` | src/App.js:151-166 | A successful collapse keeps the root's id and adds no id. When the root is the named node, it comes back as a chord. |
| `EngineProps.CollapseIds` | src/App.js:158-162 | In a tree without duplicate ids, collapse removes exactly the ids below the named node. The node's own id stays, on the chord that replaces it, and every other id is kept. |
| `Engine.SubstituteAbsent` | src/App.js:134-142 | If no node has the id, substitution returns the tree unchanged and takes no ids. |
| `Engine.SubstituteUnknown` | src/App.js:143-144 | If the id is present and the tag names no rule, substitution fails with UnknownSubstitution. |
| `Engine.SubstituteLocal` | src/App.js:134-149 | In a tree without duplicate ids, substitution equals the rewrite at the named node put back in place by replace-by-id. Every children list keeps its length and order, and only the named node is replaced. |
| `Engine.SubstituteSpec` | src/App.js:134-149 | On a progression that keeps the invariant, with m the named node: an unknown tag fails; a failed gate query fails; a rejected m leaves the whole tree and the supply unchanged; an accepted m is replaced by its expansion, taking two ids. |
| `EngineProps.SubstitutePreservesInv` | src/App.js:134-149 | A successful substitution keeps the invariant: groups non-empty, ids unique, ids below the advanced counter. |
| `EngineProps.SubstituteKeepsRootChord` | src/App.js:55-80 | A successful "V-I" or "ii-V" substitution anywhere leaves the chord the whole progression resolves to unchanged. |
| `EngineProps.ValidityGate` | src/App.js:143-148 | On a lone chord, a known rule changes the tree exactly when its gate accepts the chord. |
| `EngineProps.CollapseAbsent` | src/App.js:151-166 | Collapsing an id no node has leaves the tree unchanged. |
| `EngineProps.CollapseLocal` | src/App.js:151-166 | In a tree without duplicate ids, collapse replaces the named node by its collapse and changes nothing else. A collapse failure is passed on. |
| `EngineProps.CollapseSpec` | src/App.js:153-163 | On a progression that keeps the invariant, collapse never fails. It replaces the named node by its collapse. If that node is a chord, the tree is unchanged. |
| `EngineProps.CollapsePreservesInv` | src/App.js:157-162 | Collapse keeps the invariant and uses no new id. |
| `EngineProps.CollapseKeepsRootChord` | src/App.js:157-161 | Collapse never changes the chord the whole progression resolves to. |
| `EngineProps.SubstituteThenCollapse` | src/App.js:151-166 | Substitute at a node the gate accepts, then collapse the new group. The result is the original tree with one chord, carrying the group's id, in place of the node. For "V-I" and "ii-V" that chord is the node's root chord. For "tritone" it is the inserted dominant a diminished fifth above. |
| `App.Progression.constructor` | src/App.js:98-105 | The initial state is one C "maj7" major chord with a fresh id, and it satisfies the invariant. |
| `App.Progression.SubstituteChord` | src/App.js:111-115 | The state becomes the result of substituting at the node's id, or stays the same when the original would throw. The invariant holds afterwards. "V-I" and "ii-V" keep the progression's root chord. |
| `App.Progression.Collapse` | src/App.js:151-166 | A chord node leaves the state alone. A group node is replaced, under its id, by the chord it resolves to. The invariant and the progression's root chord are kept. |
| `Scenarios.VIOnCMajorSeventh` | src/App.js:55-62 | With a theory that moves C up a fifth to G, "V-I" on C major seventh yields the group [G7, Cmaj7]. |
| `Scenarios.IIVOnGSeventh` | src/App.js:68-80 | G7 passes both dominant gates, and "ii-V" on it yields [Dm7, G7]. |
| `Scenarios.TritoneOnGSeventh` | src/App.js:82-94 | "tritone" on G7 yields the one-child group [Db7]. Collapsing it gives Db7 under the group's id. |
| `Scenarios.IIVOnCMajorSeventh` | src/App.js:69-71 | "ii-V" on a major chord is rejected and the tree is unchanged. |

## Left out

- Rendering: the `Node` component, `render`, the markup and the fixed info text (src/App.js:9-46, 168-200). This is presentation.
- Roman-numeral labelling (`getNumeral`, `scaleDegree`). This is presentation built on the music-theory library.
- The music-theory library itself. Interval moves, note spelling (`name()` plus `accidental()`) and chord quality are opaque function values of `Theory`. No pitch arithmetic is reproduced.
- Random ids. Ids are naturals from a counter, which stands for the assumption that the generator never repeats an id.
- Event plumbing: `preventDefault`, `bind`, logging, the global library handle.
- React's `setState` merges the new tree into the old state object. After the root chord is substituted, the root group still carries the old chord's `root`, `name` and `quality` fields. The model replaces the state outright and does not carry those stale fields.
- Object identity. The model works on values. It does not tell a node returned by reference from an equal copy, so structural sharing between old and new trees is not stated.
- `Engine.CollapseNode`: the original mutates the clicked node object in place. The model replaces the node with that id instead. The two agree because ids are unique, which the model proves is kept. Effects on other references to the same object, such as earlier states, are not captured.
- `App.Progression.Collapse`: requires the node passed in to be the current tree's node with that id. The original only receives nodes rendered from the current state.
- `Rules.Validate`: on a group, the model's "ii-V" and "tritone" fail with NotAChord. The original reads the group's `root` and `name` fields. On a group below the root those fields are undefined, and what the library does with them is not part of this model. On the root group left by `setState`'s merge, the fields still hold the replaced chord, so the original rates that stale chord instead. Neither case arises in the original, because substitution links are rendered only for chord nodes (src/App.js:22-30).
- `Rules.Target`: "ii-V" moves a pitch up a fourth and then a second by applying `transpose` twice. In between, the pitch is spelled as a string. The original chains both intervals on the note object (src/App.js:74) and never spells the middle pitch. The model assumes spelling and re-reading a pitch loses nothing the second interval depends on.
- The empty `collapse` stub in the "V-I" rule and the commented-out constructor lines have no behaviour.
