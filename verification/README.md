# configdb tree, modelled in Dafny

This project models the in-memory configuration tree of configdb (`tree/node.go`). A `Node` maps
child names to elements. An element is one of three things:

- a nested Node;
- a scalar: bool, string or Number;
- an array of Nodes, bools, strings or Numbers.

The tree supports these operations:

- creating a path (`CreatePath`);
- writing an element at a dotted path (`Set`);
- reading by path (`GetOrError`, `Get`, and the typed accessors with their fallback forms);
- a structural diff (`Compare`);
- a layered merge in which the source wins (`Merge`);
- a recursive validation (`Check`).

Go mutates maps in place. Here every mutator is a pure function that returns the updated tree.

Files and modules:

- `errors.dfy` (`Errors`): the error kinds `ErrUnexpectedType`, `ErrPathInsideValue` and
  `ErrElementNotFound`, plus `Option` and `Result`.
- `numbers.dfy` (`Numbers`): `Number` and `Float64` as opaque types with equality; `Int64`; and
  Number's two conversions, passed in as parameters.
- `paths.dfy` (`Paths`): the separator `"."`. `PathCodec` carries PathSplit and PathJoin as two
  abstract total functions. `Dotted` is the way `compare` glues keys into reported paths.
- `tree.dfy` (`Tree`): the `Element`/`Node` datatypes and `%T` type names. `Resolve` walks a path
  one segment at a time.
- `access.dfy` (`Access`): `GetOrError`, `Get`, and `Get{Bool,String,Int64,Float64}[OrError]`.
- `mutation.dfy` (`Mutation`): `CreatePath` and `Set`.
- `diff.dfy` (`Diff`): `Compare`. Go returns slices in map order; here the three outputs are sets.
- `merge.dfy` (`Merging`): `Merge`.
- `validation.dfy` (`Validation`): `Check`. It is a method whose loop picks keys in an unspecified
  order, just as Go's map iteration does.
- `scenarios.dfy` (`Scenarios`): worked examples.

The code disagrees with its own comments in two places. The model follows the code:

- **Arrays of scalars in `Check`.** The comment on `Node` (tree/node.go:14) allows arrays as
  children, and `Set` accepts `[]bool`, `[]string` and `[]Number` (line 63). `Check` enters only
  `[]Node` and reports the other arrays as unexpected types; the TODO on line 313 marks this as
  unfinished (see Findings).
- **Number values in `Set`.** The same comment lists number among the legal child kinds (line 17),
  and `Set` accepts `[]Number`. Its type switch has no `Number` case (see Findings).

The path codec is abstract. The round trip `SetThenGet` therefore assumes one thing:
re-splitting the re-joined prefix of the path gives that prefix back (`PrefixRoundTrips`).

## Model

| member | source | states |
|---|---|---|
| Paths.DottedInjective | tree/node.go:19 | Two paths built from separator-free names are equal as strings only when their segments are equal. So the diff's path strings are unambiguous. |
| Tree.ResolveStep | tree/node.go:85-98 | The recursive descent equals GetOrError's loop. Each iteration needs a Node, then looks up the next segment, giving PathInsideValue or ElementNotFound on failure. |
| Tree.ResolveConcat | tree/node.go:85-98 | Walking p then q is walking q from where p leads. A failure on p persists. |
| Access.GetOrError | tree/node.go:82-99 | Returns the raw element (Node, array or scalar) exactly when the walk finds one. Returns PathInsideValue(path) exactly when it is stopped by a non-Node. Returns ElementNotFound(path) exactly when it is stopped by a missing key. |
| Access.GetOrErrorKinds | tree/node.go:82-99 | PathInsideValue exactly when some proper prefix of the path leads to a non-Node. ElementNotFound exactly when some proper prefix leads to a Node lacking the next segment. On success, every proper prefix is a Node holding the next segment. |
| Access.Get | tree/node.go:102-109 | nil exactly when GetOrError fails; otherwise the same element. |
| Access.GetBoolOrError | tree/node.go:115-125 | Propagates GetOrError's error unchanged. Returns the bool when the element is one. Otherwise returns UnexpectedType(path, type name, "bool"). |
| Access.GetBool | tree/node.go:129-136 | The fallback on any error of the OrError form; otherwise its value. |
| Access.GetStringOrError | tree/node.go:139-149 | Propagates GetOrError's error unchanged. Returns the string when the element is one. Otherwise returns UnexpectedType(path, type name, "string"). |
| Access.GetString | tree/node.go:153-160 | The fallback on any error of the OrError form; otherwise its value. |
| Access.GetInt64OrError | tree/node.go:163-173 | Propagates GetOrError's error unchanged. For a Number, returns exactly Number's Int64 conversion. Otherwise returns UnexpectedType(path, type name, "number"). |
| Access.GetInt64 | tree/node.go:177-184 | The fallback on any error of the OrError form; otherwise its value. |
| Access.GetFloat64OrError | tree/node.go:187-197 | Propagates GetOrError's error unchanged. For a Number, returns exactly Number's Float64 conversion. Otherwise returns UnexpectedType(path, type name, "number"). |
| Access.GetFloat64 | tree/node.go:201-208 | The fallback on any error of the OrError form; otherwise its value. |
| Access.FallbackGettersByTree | tree/node.go:102-208 | Each fallback getter, stated from the tree alone: the scalar when the path leads to one of the requested kind and the conversion succeeds, and the fallback otherwise. |
| Mutation.CreatePathAt | tree/node.go:25-48 | Adds the first segment to the root's keys and leaves every other root key as it was. Afterwards the whole path leads to a Node. |
| Mutation.CreatePath | tree/node.go:25-48 | The returned Node is the one the path now leads to in the updated tree. |
| Mutation.CreatePathPrefixNodes | tree/node.go:28-45 | Afterwards every prefix of the path leads to a Node, from the empty prefix to the whole path. |
| Mutation.CreatePathOffPath | tree/node.go:28-45 | Every element off the path keeps its value. |
| Mutation.CreatePathAddsNothing | tree/node.go:28-45 | Nothing new appears off the path: whatever the updated tree holds there, the original held, including inside existing Nodes along the path. |
| Mutation.CreatePathExisting | tree/node.go:36-43 | A path that already consists of Nodes is left exactly as it was, with all children. |
| Mutation.CreatePathReplacesValue | tree/node.go:30-42 | Where the old tree had a value or nothing on the path, the new Node holds nothing but the continuation of the path. |
| Mutation.CreatePathIdempotent | tree/node.go:25-48 | Creating a path twice is the same as creating it once. |
| Mutation.SetAt | tree/node.go:70-76 | After assigning e under the last segment below the created prefix, that full path leads to e. |
| Mutation.SetAtIsCreatePathThenAssign | tree/node.go:72-76 | The Node at the prefix is CreatePath's Node with exactly one key assigned. |
| Mutation.SetAtOffPath | tree/node.go:70-76 | Every element off the written path keeps its value. |
| Mutation.SetAtAddsNothing | tree/node.go:70-76 | Nothing new appears off the written path: whatever the updated tree holds there, the original held. |
| Mutation.Set | tree/node.go:51-79 | An input kind outside the type switch gives UnexpectedType("", type name, "") and leaves the tree unchanged, whatever the path, because the check precedes splitting the path and all mutation. An accepted input gives nil, and the target path then leads to the stored element; any previous content is overwritten. |
| Mutation.SetThenGet | tree/node.go:51-99 | Round trip: after a successful Set, reading the same path finds the stored element. |
| Mutation.SetKeepsOthers | tree/node.go:70-76 | Off the path Set writes (the re-split prefix plus the last segment), every element found before is found unchanged afterwards, and nothing is found afterwards that was not there before. This includes every other key of the receiving Node. No law of the path codec is needed. |
| Mutation.SetRejectsReadNumber | tree/node.go:54-67 | As written, a Number read from a tree cannot be passed back to Set at any path: it is refused as "tree.Number" and the tree is unchanged. |
| Mutation.SetIntended | tree/node.go:54-68 | With Number in the first case, a Number value is stored and found at the target path. Every other input, rejected ones at any path, behaves as in Set. |
| Mutation.ReadValueWritesBack | tree/node.go:54-79 | With the correction, any element read from a tree, except a foreign kind, can be written back and reads back unchanged. |
| Diff.Compare | tree/node.go:213-268 | Comparing the other way round swaps added with removed: what is added from a to b is what is removed from b to a, and the modified set is the same both ways. Which paths land in each set is stated by Diff.CompareByPaths. |
| Diff.ModifiedSound | tree/node.go:223-243 | Every modified path leads to elements in both trees that form a reported pair: one Node and one value, or two unequal values. |
| Diff.ModifiedComplete | tree/node.go:223-243 | Every path that leads to a reported pair in both trees is in the modified set. |
| Diff.RemovedSound | tree/node.go:229-252 | Every removed path leads to an element in the old tree and to none in the new one. |
| Diff.RemovedComplete | tree/node.go:229-252 | Every path that leads to an element only in the old tree is removed. This includes everything below a key only in the old tree, and everything below a Node overwritten by a value. |
| Diff.AddedMirrorsRemoved | tree/node.go:234-265 | What is added from a to b is exactly what is removed from b to a. |
| Diff.ModifiedSymmetric | tree/node.go:223-243 | The modified set does not depend on the direction of the comparison. |
| Diff.CompareByPaths | tree/node.go:213-268 | Modified: leads to an element in both trees, and the pair is reported. Removed: leads to an element only in the old tree. Added: leads to an element only in the new tree. Arrays count as values and are never entered. |
| Diff.CompareReflexive | tree/node.go:213-268 | Comparing a tree with itself gives three empty sets. |
| Diff.CompareDisjoint | tree/node.go:213-268 | When every key is a separator-free name, no path appears in two of the three sets. |
| Merging.Merge | tree/node.go:279-299 | Keys only in the target are unchanged. Keys only in the source are copied. Any conflict that is not Node against Node takes the source's element. Node against Node stays a Node. The result has the keys of both sides. |
| Merging.MergeAddsNothing | tree/node.go:279-299 | Whatever the merged tree holds at a path, the target or the source holds something there too; a merged value that is not a Node is the element of one side at that path. |
| Merging.MergeEmptySource | tree/node.go:279-299 | Merging an empty source changes nothing. |
| Merging.MergeIntoEmpty | tree/node.go:279-299 | Merging into an empty target gives the source. |
| Merging.MergeSelf | tree/node.go:279-299 | Merging a tree into itself changes nothing. |
| Merging.MergeIdempotent | tree/node.go:279-299 | Merging the same source twice is the same as merging it once. |
| Merging.MergeSourceWins | tree/node.go:283-297 | Every value in the source (scalar, array, anything but a Node) is the merged tree's element at the same path, at any depth. |
| Merging.MergeSourceNodes | tree/node.go:283-297 | Every Node in the source is a Node in the merged tree, with at least the source's keys. |
| Merging.MergeKeepsTarget | tree/node.go:280-298 | A target element stays wherever the source lacks the key that its path asks for. |
| Validation.Decimal | tree/node.go:315 | An array index is printed as a non-empty string of decimal digits. |
| Validation.CheckElement | tree/node.go:304-326 | nil exactly when every element reachable through Nodes and Node arrays is a Node, a Node array, a bool, a string or a Number. Otherwise one of the offending elements' errors, with that element's joined path. |
| Validation.CheckNode | tree/node.go:306-312 | The loop over a Node's children returns nil exactly when all of them pass, and otherwise returns a violation found below one of them. |
| Validation.Check | tree/node.go:302-329 | nil exactly when the tree is legal. Otherwise an UnexpectedType error with an empty expected kind, taken from the tree's violations. |
| Validation.ViolationsAreTypeErrors | tree/node.go:320-322 | Every error Check can report is an UnexpectedType with an empty expected kind. |
| Validation.LegalAlongPath | tree/node.go:304-326 | Every element found by path in a legal tree is legal. |
| Validation.SetAtKeepsLegal | tree/node.go:70-76 | Writing a legal element keeps a legal tree legal. |
| Validation.SetArrayFailsCheck | tree/node.go:313-322 | As written, Set accepts a []bool and Check then reports the tree. |
| Validation.CheckIntended | tree/node.go:302-329 | With arrays of scalars accepted, nil exactly when the tree is legal under that rule. |
| Validation.SetKeepsCheckedIntended | tree/node.go:54-79 | With the correction, any scalar or array of scalars that Set accepts leaves a checked tree checked. |
| Validation.MergeKeepsLegal | tree/node.go:279-299 | Merging two legal trees gives a legal tree. |
| Scenarios.SetIntoEmptyTree | tree/node.go:51-99 | Setting "a.b.c" in an empty tree creates Nodes at "a" and "a.b". The number is then read back, and reading "a.b.c.d" gives PathInsideValue. |
| Scenarios.NodeReplacedByValue | tree/node.go:229-233 | Compare({x:{y:1}}, {x:2}) reports x as modified and x.y as removed, with nothing added. Merging gives {x:2}. |
| Scenarios.ForeignValuesCompared | tree/node.go:236-240 | Two foreign values of the same Go type that differ are reported as modified, and nothing is added or removed. |
| Scenarios.StringReadAsNumber | tree/node.go:163-173 | Reading a string with GetInt64OrError gives UnexpectedType(path, "string", "number"). |

## Left out

- The configdb layer is not part of this model: `NewConfig`, the JSON file loader, struct binding through `cdb` tags, and `Close`. They are file I/O and reflection.
- Number's representation, `NumberCreate`, and the `Int64()`/`Float64()` conversions are defined elsewhere. Number is opaque with equality, and the conversions are parameters. An integer or float given to Set is modelled as the Number that `NumberCreate` produced, assumed to succeed for those types.
- PathSplit and PathJoin are defined elsewhere and are abstract total functions.
- Mutation.Set: requires a non-empty split of the path only for an input the type switch accepts. A rejected input returns its error before the path is split, whatever the path. After an accepted input, an empty split makes Go index past the end of the slice and panic.
- Mutation.SetThenGet: assumes that the codec restores the re-joined prefix, because the codec's own laws are not part of this model.
- `fmt.Sprintf("%T", …)` is modelled by `TypeName`, which gives Go's names for the kinds of package tree. Other dynamic types carry their own name in `Other`. A Go nil stored in a Node is such an `Other`, for which Get returns the element where Go returns nil.
- A value of a type foreign to package tree (`Other`) carries its type name and an opaque payload compared by equality. `cmp.Equal` on such values is modelled as that equality; its panic on unexported struct fields is not modelled.
- A nil `Node` (a nil Go map) is modelled as an empty Node. Go panics when it writes into one: `CreatePath` returns an existing nil Node (node.go:37,43), and `Set` then assigns into it (node.go:76); `Merge` assigns into a nil target Node under a key when the source Node there is not empty (node.go:297). The model's `Set` and `Merge` succeed in these cases.
- `cmp.Equal` is modelled as structural equality. This loses Go's distinction between a nil slice and an empty one. How `cmp.Equal` treats Number's fields is not modelled.
- Go maps are references, and Merge shares the source's subtrees with the target. Aliasing between trees after a merge or a Set of a Node is not modelled.
- Compare's outputs are sets, so the order and multiplicity of Go's slices are not modelled.
- Check returns whichever violation it meets first in map order. The model states only that the returned error is one of the tree's violations.

## Findings

| source | as written | input that shows it | evidently intended | confidence | as-written member | corrected member |
|---|---|---|---|---|---|---|
| tree/node.go:54-67 | Set's type switch has cases for Node, bool, string, the Go integer and float types, and four slice types, including `[]Number`. It has no `Number` case, so a Number value falls to the default and is refused. | On {a: Number}, `GetOrError("a")` returns the Number; `Set("b", thatNumber)` then returns ErrUnexpectedType{"", "tree.Number", ""} | A Number is stored like the other leaf kinds: line 17 lists number among legal children, and `[]Number` is accepted | medium, not executed; Number's declaration is not part of this model | Mutation.SetRejectsReadNumber | Mutation.SetIntended (property: Mutation.ReadValueWritesBack) |
| tree/node.go:313-322 | Check descends into `[]Node` and accepts bool, string and Number. `[]bool`, `[]string` and `[]Number` fall to the default case and are reported. | `Set("a", []bool{true})` on any tree returns nil; `Check()` then returns ErrUnexpectedType for that array | Arrays of scalars pass Check, as Set and the Node comment (line 14) allow; line 313 marks arrays as unfinished | medium, not executed | Validation.SetArrayFailsCheck | Validation.CheckIntended (property: Validation.SetKeepsCheckedIntended) |
