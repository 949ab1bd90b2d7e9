# spatialos-sdk-rs core, modelled in Dafny

This project models the core of the SpatialOS Rust SDK.

- The schema code generator:
  - resolving identifiers against the dependency map;
  - rendering field types;
  - building the tree of generated modules and rendering it;
  - the `generate` entry point.
- The semantics of the generated component code: enum decoding, merging updates, and command-index dispatch.
- The hand-written command and update mapping of the serialization test.
- The flattening of query constraint trees into the C API's single buffer.
- The entity component table.
- The small value rules for entity ids, authority and path normalisation.

Each core file has its own module:

| file | module | form |
|---|---|---|
| `wrappers.dfy` | `Wrappers`, `Scalars` | `Option`/`Result`/`Outcome` (a returned value or a panic with its message); fixed-width integers; decimal formatting as `format!("{}")` does it |
| `schema_bundle.dfy` | `SchemaBundle` | functions and lemmas |
| `quotable.dfy` | `Quotable` | functions and lemmas |
| `module_tree.dfy` | `ModuleTree` | the `Module` tree as the class `ModuleForest`, updated in place |
| `generator.dfy` | `Generator` | pure placement functions, plus the methods that build the tree, proved against them |
| `generated.dfy` | `Generated` | classes with `Merge` methods; pure decoding and dispatch |
| `manual_serialization.dfy` | `ManualSerialization` | pure command mapping; `into_update` as a method on a mutable update object |
| `query.dfy` | `Query` | the conversion as methods writing into an `array`, proved against layout functions |
| `entity.dfy` | `EntityTable` | the class `Entity` with its component map |
| `worker_core.dfy` | `WorkerCore` | functions and lemmas |
| `cargo_codegen.dfy` | `CargoCodegen` | functions and lemmas |

Rust panics (`panic!`, `expect`, `unwrap` on `None`, out-of-bounds slice indexing, `usize` underflow) are explicit:
- the generator returns a `GenerationError` for them;
- runtime code returns `Outcome.Panics(message)`.

Recoverable errors stay `Result.Err`, as in the source.

The dependency map is a `HashMap`. It is modelled as its sequence of entries in iteration order. A lemma shows the result does not depend on that order.

The children of a module are a `BTreeMap`. They are modelled as an association list kept strictly sorted by key.

C pointers into the constraint buffer are modelled as indices into it.

The callers and the generator disagree on `generate`'s signature:
- `spatialos-sdk-code-generator/tests/test.rs:11-18` and `project-example/build.rs:4-11` pass a dependency map from package names to Rust paths. `spatialos-sdk-code-generator/src/lib.rs:11-15` takes a prelude instead, and no map.
- The quotable renderers need that map but are never given one: `quotable.rs:74` and `quotable.rs:93` call `reference_path()` without it.
- The model takes both the prelude, as `lib.rs` does, and the map, as the callers do. It passes the bundle and the map to the renderers explicitly.

No component in `project-example/src/generated.rs` carries events, so the generated merges only replace fields one by one, and no rule for appending events is modelled.

## Model

| member | source | states |
|---|---|---|
| Scalars.DecimalRoundTrip | src/worker/core/mod.rs:24 | The decimal text written for any integer parses back to that integer. Every `{}` in a formatted message is therefore unambiguous. |
| SchemaBundle.PackagePath | spatialos-sdk-code-generator/src/schema_bundle.rs:24-31 | The package is the longest leading run of segments whose first character is lowercase. It is always a prefix of the path, and the whole path when every segment qualifies. It fails exactly when an empty segment is reached before any non-lowercase one, which is the `unwrap` on `None`. |
| SchemaBundle.ModulePath | spatialos-sdk-code-generator/src/schema_bundle.rs:41-46 | Exactly `len(path) - 1` segments, in order, each snake-cased. The item's own name is never included. A non-empty path is required. |
| SchemaBundle.SnakeCaseKeepsLowercase | spatialos-sdk-code-generator/src/schema_bundle.rs:45 | A segment already in snake case is left unchanged: lowercase letters and digits, single `_` between them, none at either end. |
| SchemaBundle.SnakeCaseLeadingSeparator | spatialos-sdk-code-generator/src/schema_bundle.rs:45 | A non-alphanumeric character at the start of a segment leaves no trace, so `_foo` becomes `foo`. |
| SchemaBundle.SnakeCaseTrailingSeparator | spatialos-sdk-code-generator/src/schema_bundle.rs:45 | A non-alphanumeric character at the end of a segment leaves no trace. |
| SchemaBundle.SnakeCaseRepeatedSeparator | spatialos-sdk-code-generator/src/schema_bundle.rs:45 | Two non-alphanumeric characters in a row split the segment as one does, so `foo__bar` becomes `foo_bar`. |
| SchemaBundle.ModulePathOfLowercase | spatialos-sdk-code-generator/src/schema_bundle.rs:41-46 | When every package segment is already in snake case, the module path is the path without its last segment. |
| SchemaBundle.SelectDependency | spatialos-sdk-code-generator/src/schema_bundle.rs:69-82 | The filter and fold return an entry whose key is a raw string prefix of the name, and no matching key is longer. They return nothing exactly when no key is a prefix. |
| SchemaBundle.PrefixOfSameLength | spatialos-sdk-code-generator/src/schema_bundle.rs:62-81 | Two prefixes of one string with the same length are equal. So the strict length comparison never faces a tie between distinct keys. |
| SchemaBundle.SelectDependencyOrderIndependent | spatialos-sdk-code-generator/src/schema_bundle.rs:62-81 | With distinct keys, any iteration order of the same map selects the same entry. |
| SchemaBundle.ReferencePath | spatialos-sdk-code-generator/src/schema_bundle.rs:51-90 | Succeeds exactly when the path is non-empty and some key is a prefix of the qualified name. With no such key it fails with `UnresolvedDependency`. On success it is the chosen root, `::`, then the module path and the last segment joined by `::`. |
| SchemaBundle.ReferencePathOfSelection | spatialos-sdk-code-generator/src/schema_bundle.rs:84-89 | The reference path is built from the entry the longest-prefix selection returns. |
| SchemaBundle.SelectNestedPackages | spatialos-sdk-code-generator/src/schema_bundle.rs:513-518 | In the test's map, with keys `foo` to `foo.bar.baz.quux`, the longest key `foo.bar.baz.quux` wins. |
| SchemaBundle.ReferencePathNestedPackages | spatialos-sdk-code-generator/src/schema_bundle.rs:497-525 | The test's identifier resolves to `quux::schema::foo::bar::baz::quux::SomeType`, in every iteration order of the test's map. |
| SchemaBundle.PrimitiveTokens | spatialos-sdk-code-generator/src/schema_bundle.rs:114-138 | Rendering a primitive fails exactly for `Invalid`. |
| SchemaBundle.PrimitiveTokensNonInteger | spatialos-sdk-code-generator/src/schema_bundle.rs:114-138 | Among the non-integer primitives, only `Invalid` fails, with `InvalidPrimitive`. Bool, Float, Double, String, Bytes and EntityId render as `bool`, `f32`, `f64`, `String`, `Vec<u8>` and `spatialos_sdk::worker::EntityId`. |
| SchemaBundle.PrimitiveTokensMatchIntegerKind | spatialos-sdk-code-generator/src/schema_bundle.rs:118-125 | Every integer primitive renders as `i` or `u` followed by its width. Signedness and width are those of the schema type: Int32/Sint32/Sfixed32 are i32, Uint64/Fixed64 are u64, and so on. |
| SchemaBundle.GetReferencedType | spatialos-sdk-code-generator/src/schema_bundle.rs:458-463 | Returns the first type definition whose qualified name equals the reference. Fails with `MissingType` exactly when there is none. |
| Quotable.TypeReferenceTokens | spatialos-sdk-code-generator/src/schema_bundle/quotable.rs:64-76 | A name absent from the type definitions fails with `MissingType`. Otherwise the result is the reference path of the first type definition with that name, as `find` returns it. |
| Quotable.EnumReferenceTokens | spatialos-sdk-code-generator/src/schema_bundle/quotable.rs:83-95 | The same rule, for enum definitions, failing with `MissingEnum`. |
| Quotable.ValueTypeTokens | spatialos-sdk-code-generator/src/schema_bundle/quotable.rs:49-57 | A primitive renders exactly when it is not Invalid. An undeclared type fails with `MissingType`, an undeclared enum with `MissingEnum`. A rendered reference is the reference path of a definition with that name. |
| Quotable.FieldTypeTokens | spatialos-sdk-code-generator/src/schema_bundle/quotable.rs:15-41 | A field type renders exactly when all its value types do. On failure the error is that of the first value type that fails, the key before the value. |
| Quotable.TypeReferenceOk | spatialos-sdk-code-generator/src/schema_bundle/quotable.rs:64-76 | A type reference renders exactly when some type definition has its name and a dependency key covers that name. |
| Quotable.EnumReferenceOk | spatialos-sdk-code-generator/src/schema_bundle/quotable.rs:83-95 | An enum reference renders exactly when some enum definition has its name and a dependency key covers that name. |
| Quotable.ValueTypeTokensOk | spatialos-sdk-code-generator/src/schema_bundle/quotable.rs:49-57 | A value type renders exactly when it is resolvable. A primitive must not be Invalid. A type or enum reference must be declared in its own list and covered by a dependency key. |
| Quotable.FieldTypeTokensOk | spatialos-sdk-code-generator/src/schema_bundle/quotable.rs:15-41 | A field type renders exactly when every value type it mentions is resolvable. For a map, that means both the key and the value. |
| Quotable.FieldTypeTokensShape | spatialos-sdk-code-generator/src/schema_bundle/quotable.rs:15-41 | A Singular field renders exactly its value type. An Optional field renders `Option<inner>`, a List `Vec<inner>`, and a Map `std::collections::BTreeMap<key, value>` with the key first. Each inner text is recovered from the output. |
| Quotable.TypeReferenceIgnoresEnums | spatialos-sdk-code-generator/src/schema_bundle/quotable.rs:64-76 | A type reference depends only on the type definitions, never on the enums. |
| Quotable.EnumReferenceIgnoresTypes | spatialos-sdk-code-generator/src/schema_bundle/quotable.rs:83-95 | An enum reference depends only on the enum definitions. |
| Quotable.TypeReferenceNotAnEnum | spatialos-sdk-code-generator/src/schema_bundle/quotable.rs:64-72 | A type reference to a name that no type definition has fails, whatever the enum list holds. |
| Quotable.EnumValueTokens | spatialos-sdk-code-generator/src/schema_bundle.rs:318-330 | An enum value renders as its name, ` = `, then a literal that parses back to its number. |
| ModuleTree.BelowIrreflexive | spatialos-sdk-code-generator/src/lib.rs:252-255 | The key order of the child maps is irreflexive. |
| ModuleTree.BelowTransitive | spatialos-sdk-code-generator/src/lib.rs:252-255 | The key order is transitive. |
| ModuleTree.BelowTotal | spatialos-sdk-code-generator/src/lib.rs:252-255 | Any two distinct keys are ordered, so iteration order is fully determined. |
| ModuleTree.BelowAsymmetric | spatialos-sdk-code-generator/src/lib.rs:252-255 | The key order is asymmetric. |
| ModuleTree.NewPathsOnWalk | spatialos-sdk-code-generator/src/lib.rs:308-313 | One more step of the walk keeps every created node on the path being walked. |
| ModuleTree.WalkPath | spatialos-sdk-code-generator/src/lib.rs:290-316 | Walking a sequence of segments from a node ends at the node whose path is that node's path plus the segments. |
| ModuleTree.PrefixNode | spatialos-sdk-code-generator/src/lib.rs:308-313 | Every prefix of a node's path is the path of some node, because nodes are only created one segment below an existing one. |
| ModuleTree.ChildOfPath | spatialos-sdk-code-generator/src/lib.rs:302-312 | A node whose path is another node's path plus a key is that node's child under that key. |
| ModuleTree.KeysCanonical | spatialos-sdk-code-generator/src/lib.rs:252-255 | Two sorted child maps with the same set of keys list those keys in the same order. |
| ModuleTree.Lookup | spatialos-sdk-code-generator/src/lib.rs:302-304 | Finding a child key returns a child stored under that key. It finds nothing exactly when no entry has the key. |
| ModuleTree.LookupSorted | spatialos-sdk-code-generator/src/lib.rs:302-304 | In a sorted child map, every stored entry is found by its key. |
| ModuleTree.InsertSorted | spatialos-sdk-code-generator/src/lib.rs:309-312 | Inserting a new key keeps the map sorted and adds exactly that one entry. |
| ModuleTree.SortedCanonical | spatialos-sdk-code-generator/src/lib.rs:252-255 | Two sorted child maps with the same entries are identical. The map's contents alone decide its order. |
| ModuleTree.InsertCommutes | spatialos-sdk-code-generator/src/lib.rs:45-47 | Inserting two new modules in either order gives the same map. The output does not depend on the order definitions arrive in. |
| ModuleTree.WalkFromAppend | spatialos-sdk-code-generator/src/lib.rs:308-313 | Walking a path in two pieces is walking it in one. |
| ModuleTree.WithChildGrows | spatialos-sdk-code-generator/src/lib.rs:302-312 | Adding a child keeps every existing entry. The new node is the default module. Child indices stay forward-pointing. |
| ModuleTree.WalkGrows | spatialos-sdk-code-generator/src/lib.rs:302-313 | After the tree grows, every path that reached a node still reaches the same node. Existing nodes are never replaced. |
| ModuleTree.WithChildArena | spatialos-sdk-code-generator/src/lib.rs:302-312 | Adding a child keeps each node's recorded path correct. Each node is still reached from the root by its path. |
| ModuleTree.ExistingChild | spatialos-sdk-code-generator/src/lib.rs:309-312 | An existing child's path is its parent's path plus its key. |
| ModuleTree.PathsDistinct | spatialos-sdk-code-generator/src/lib.rs:252-255 | Distinct nodes have distinct paths. |
| ModuleTree.ModuleForest.constructor | spatialos-sdk-code-generator/src/lib.rs:258-266 | The tree starts as one node with the prelude, no items and no children. |
| ModuleTree.ModuleForest.GetSubmodule | spatialos-sdk-code-generator/src/lib.rs:290-316 | Requires a non-empty path. Returns the node reached by following every segment, whose path is the start's path plus the segments. Existing nodes keep their items and prelude, and every earlier path still leads where it did. At most one node is created per segment. Each created node's path strictly extends the start's path and is a prefix of the target path. |
| ModuleTree.ModuleForest.Step | spatialos-sdk-code-generator/src/lib.rs:308-313 | One `entry(..).or_insert_with(..)`: the walk extends by one segment. An existing child is reused and the tree is unchanged. Otherwise exactly one default child is added under the segment, with path the parent's path plus the segment. |
| ModuleTree.ModuleForest.AddChild | spatialos-sdk-code-generator/src/lib.rs:302-312 | A missing child is a clone of the default module, stored under its key. Nothing else changes. |
| ModuleTree.ModuleForest.PushItem | spatialos-sdk-code-generator/src/lib.rs:143-147 | Appends one item to one module. Every other node is unchanged. |
| ModuleTree.ModuleForest.Render | spatialos-sdk-code-generator/src/lib.rs:268-288 | A module renders as its prelude, then its children in ascending key order (each as `pub mod name { .. }`), then its items in insertion order. |
| ModuleTree.RenderItems | spatialos-sdk-code-generator/src/lib.rs:282-286 | The item loop appends every item, in order. |
| Generator.SdkRoot | spatialos-sdk-code-generator/src/lib.rs:28-32 | The SDK root is `crate` exactly when the package is `improbable`, otherwise `spatialos_sdk`. |
| Generator.FieldsText | spatialos-sdk-code-generator/src/lib.rs:61-67 | A field list renders exactly when every field's type renders. |
| Generator.ComponentStruct | spatialos-sdk-code-generator/src/lib.rs:59-82 | An inline component renders exactly when all its field types do. A component over a type reference renders exactly when that reference does. The result declares `pub struct` with the component's name. |
| Generator.ComponentImpl | spatialos-sdk-code-generator/src/lib.rs:84-133 | The impl opens with `impl <sdk>::worker::component::Component for <name>`. Its `ID` literal parses back to the component ID. |
| Generator.TypeStruct | spatialos-sdk-code-generator/src/lib.rs:155-169 | A type renders exactly when all its field types do, as `pub struct <name> { .. }`. |
| Generator.EnumItem | spatialos-sdk-code-generator/src/lib.rs:181-188 | An enum renders as `pub enum <name> { .. }` around its values. |
| Generator.Emission | spatialos-sdk-code-generator/src/lib.rs:53-192 | A definition fails exactly when its item does not render or its module path would be empty. A component places three items and a type or enum one. Every placement carries the definition's qualified name. Each lands in the definition's module or one level below it. |
| Generator.Home | spatialos-sdk-code-generator/src/lib.rs:141-142 | A definition's module is its module path. It fails exactly when that path would be empty: `expect` at line 301, or the underflow in `module_path`. |
| Generator.InPackage | spatialos-sdk-code-generator/src/lib.rs:52 | The package filter keeps exactly the definitions whose qualified name starts with the package. |
| Generator.GatherInPackage | spatialos-sdk-code-generator/src/lib.rs:49-53 | Definitions outside the package contribute nothing. Filtering first changes nothing. |
| Generator.GatherOrigins | spatialos-sdk-code-generator/src/lib.rs:52 | Every placed item comes from a definition in the list whose qualified name starts with the package. |
| Generator.EmissionOrigin | spatialos-sdk-code-generator/src/lib.rs:49-193 | All items one definition places carry that definition's qualified name. |
| Generator.GatherErrSticky | spatialos-sdk-code-generator/src/lib.rs:49-53 | The first failing definition decides the outcome of the whole pass. |
| Generator.GatherSnoc | spatialos-sdk-code-generator/src/lib.rs:49-53 | One more definition adds nothing when it is outside the package. Otherwise it appends its placements, or fails with its error. |
| Generator.ComponentPlacement | spatialos-sdk-code-generator/src/lib.rs:141-147 | A component puts its struct and then its impl into its module. Its associated types go into the child named after its snake-cased name. |
| Generator.Enter | spatialos-sdk-code-generator/src/lib.rs:142 | `get_submodule` within the generation invariant: every module has the prelude and holds exactly the items placed at its path. The only modules not yet on the way to a placement are those on the path just entered. |
| Generator.Push | spatialos-sdk-code-generator/src/lib.rs:143 | Pushing an item is recorded as one placement at the module's path. The invariant is restored: every module other than the root now lies on the way to some placement. |
| Generator.EmitOne | spatialos-sdk-code-generator/src/lib.rs:49-193 | One definition either fails with its emission's error or adds exactly its emission's placements. |
| Generator.EmitComponent | spatialos-sdk-code-generator/src/lib.rs:53-148 | The component pass body adds exactly the component's emission, or fails with its error. |
| Generator.PlaceComponent | spatialos-sdk-code-generator/src/lib.rs:141-147 | Struct, impl and associated types are pushed in that order, at the module and at its submodule. |
| Generator.EmitType | spatialos-sdk-code-generator/src/lib.rs:154-174 | The type pass body adds exactly the type's struct at its module, or fails with its error. |
| Generator.EmitEnum | spatialos-sdk-code-generator/src/lib.rs:180-193 | The enum pass body adds exactly the enum item at its module, or fails with its error. |
| Generator.EmitAll | spatialos-sdk-code-generator/src/lib.rs:49-53 | A pass over a definition list adds exactly the placements of the selected definitions, in order, or stops at the first error. |
| Generator.EmitPackage | spatialos-sdk-code-generator/src/lib.rs:49-193 | The three passes (components, types, enums) leave every module holding exactly the items placed at its path, or fail with the first error. |
| Generator.ChildKeys | spatialos-sdk-code-generator/src/lib.rs:141-147 | Under the generation invariant, a module has a child under a key exactly when some item is placed at or below that child's path. |
| Generator.ModuleTextSame | spatialos-sdk-code-generator/src/lib.rs:268-288 | Two trees that both hold the same placements render each module at the same path to the same text. |
| Generator.RawTextDetermined | spatialos-sdk-code-generator/src/lib.rs:195-212 | Two trees holding the same placements give the same raw generated text. |
| Generator.NothingPlacedRendersNothing | spatialos-sdk-code-generator/src/lib.rs:195-212 | With nothing placed, the only tree that holds the placements is the bare top module, and the raw text is empty. |
| Generator.RenderTop | spatialos-sdk-code-generator/src/lib.rs:195-206 | The top-level modules are rendered in key order, each as `pub mod name { .. }`. |
| Generator.Generate | spatialos-sdk-code-generator/src/lib.rs:11-215 | A bundle without v1 is `UnsupportedBundleVersion`. Otherwise generation succeeds exactly when every selected definition emits. The result is the formatter's output when formatting succeeded. Otherwise it is the raw rendering of the emitted placements. A tree holding them exists, and every tree that holds them renders the same text. |
| Generated.TestEnumFrom | project-example/src/generated.rs:35-45 | Decoding returns exactly for 0 and 1 and panics otherwise. |
| Generated.TestEnumAsU32 | project-example/src/generated.rs:47-54 | Encoding yields 0 or 1. |
| Generated.TestEnumRoundTrip | project-example/src/generated.rs:35-54 | `from(as_u32(e)) == e` for every variant. |
| Generated.TestEnumDecodeEncode | project-example/src/generated.rs:35-54 | `as_u32(from(n)) == n` for n in {0, 1}. Every other n panics. |
| Generated.ConnectionStatusFrom | project-example/src/generated.rs:1625-1636 | Decoding returns exactly for 0 to 3 and panics otherwise. |
| Generated.ConnectionStatusAsU32 | project-example/src/generated.rs:1638-1648 | Encoding yields a number below 4. |
| Generated.ConnectionStatusRoundTrip | project-example/src/generated.rs:1625-1648 | Every status decodes back from its number. |
| Generated.ConnectionStatusDecodeEncode | project-example/src/generated.rs:1625-1648 | Numbers 0 to 3 re-encode to themselves. All others panic. |
| Generated.Latest | project-example/src/generated.rs:602-608 | A merged optional field is present exactly when either side is. |
| Generated.OverwriteLatest | project-example/src/generated.rs:602-608 | For one field, overwriting with two updates in turn equals overwriting with their merge. |
| Generated.ApplyRotateWrites | project-example/src/generated.rs:551-557 | A data merge changes a field exactly when the update carries it, and then to the carried value. |
| Generated.ApplyRotateNoChange | project-example/src/generated.rs:559-564 | The default (all-None) update leaves the data unchanged. |
| Generated.ApplyRotateCompose | project-example/src/generated.rs:602-608 | Applying u1 then u2 equals applying u1 merged with u2. Update merging is per-field last-writer-wins. |
| Generated.ApplyRotateIdempotent | project-example/src/generated.rs:551-557 | Applying the same update twice is applying it once. |
| Generated.Rotate.Merge | project-example/src/generated.rs:551-557 | `ComponentData::merge` replaces the component's fields with the update applied to them. |
| Generated.RotateUpdate.constructor | project-example/src/generated.rs:559-564 | The default update carries no field. |
| Generated.RotateUpdate.Merge | project-example/src/generated.rs:602-608 | `ComponentUpdate::merge` replaces the update with the composition of the two. |
| Generated.ApplyWorkerNoChange | project-example/src/generated.rs:1992-1997 | The default Worker update leaves the data unchanged. |
| Generated.ApplyWorkerCompose | project-example/src/generated.rs:2035-2041 | Applying two Worker updates in turn equals applying their merge. |
| Generated.ApplyWorkerFull | project-example/src/generated.rs:1984-1990 | An update carrying every field determines the result, whatever the old data. |
| Generated.Worker.Merge | project-example/src/generated.rs:1984-1990 | The Worker data becomes the update applied to it. |
| Generated.WorkerUpdate.constructor | project-example/src/generated.rs:1992-1997 | The default Worker update carries no field. |
| Generated.WorkerUpdate.Merge | project-example/src/generated.rs:2035-2041 | The Worker update becomes the composition of the two. |
| Generated.ApplyEntityAclNoChange | project-example/src/generated.rs:991-995 | The default EntityAcl update leaves the data unchanged. |
| Generated.ApplyEntityAclCompose | project-example/src/generated.rs:1024-1029 | Applying two EntityAcl updates in turn equals applying their merge. |
| Generated.ApplyEntityAclReplacesMap | project-example/src/generated.rs:984-989 | A carried write-ACL map replaces the old one wholesale: a key it lacks is gone afterwards. |
| Generated.EntityAcl.Merge | project-example/src/generated.rs:984-989 | The EntityAcl data becomes the update applied to it. |
| Generated.EntityAclUpdate.constructor | project-example/src/generated.rs:991-995 | The default EntityAcl update carries no field. |
| Generated.EntityAclUpdate.Merge | project-example/src/generated.rs:1024-1029 | The EntityAcl update becomes the composition of the two. |
| Generated.ApplyPersistenceNoOp | project-example/src/generated.rs:1377-1380 | Merging into the field-less Persistence component changes nothing. |
| Generated.ExampleFromRequest | project-example/src/generated.rs:459-467 | Decoding succeeds exactly for index 1, carrying the payload. Every other index is an `Err`. |
| Generated.ExampleFromResponse | project-example/src/generated.rs:469-477 | The same, for responses. |
| Generated.ExampleRequestIndex | project-example/src/generated.rs:513-518 | A request's command index is one that `from_request` decodes back to that request. |
| Generated.WorkerRequestIndex | project-example/src/generated.rs:2122-2127 | The same, for Worker's Disconnect request. |
| Generated.ExampleRequestRoundTrip | project-example/src/generated.rs:459-518 | Decoding at the request's own command index gives the request back. Any other index is an `Err`. |
| Generated.ExampleResponseRoundTrip | project-example/src/generated.rs:469-525 | The same, for responses. |
| Generated.WorkerFromRequest | project-example/src/generated.rs:2068-2076 | Decoding a Worker request succeeds exactly for index 1. |
| Generated.WorkerFromResponse | project-example/src/generated.rs:2078-2086 | Decoding a Worker response succeeds exactly for index 1. |
| Generated.WorkerRequestRoundTrip | project-example/src/generated.rs:2068-2127 | Decoding at `get_request_command_index(r)` gives `r` back. Any other index is an `Err`. |
| Generated.WorkerResponseRoundTrip | project-example/src/generated.rs:2078-2134 | The same, for responses. |
| Generated.NoCommandFromRequest | project-example/src/generated.rs:201-205 | A component without commands rejects every request index with an `Err`. |
| Generated.NoCommandFromResponse | project-example/src/generated.rs:207-211 | A component without commands rejects every response index. |
| Generated.ComponentIdsDistinct | project-example/src/generated.rs:191-2058 | The twelve `const ID` values of the generated components are pairwise distinct. |
| ManualSerialization.IntoRequest | spatialos-sdk/tests/manual_serialization.rs:162-173 | SomeCommand is index 1, DuplicateCommand 2 and OtherCommand 3. |
| ManualSerialization.IntoRequestInjective | spatialos-sdk/tests/manual_serialization.rs:162-173 | Different requests never serialize alike, even though two variants share a payload type. |
| ManualSerialization.FromRequest | spatialos-sdk/tests/manual_serialization.rs:175-183 | Any index outside 1 to 3 gives `None`. A decoded request re-serializes to the same payload and index. |
| ManualSerialization.RequestRoundTrip | spatialos-sdk/tests/manual_serialization.rs:162-183 | Decoding at the index `into_request` produced gives the same request. |
| ManualSerialization.IntoResponse | spatialos-sdk/tests/manual_serialization.rs:195-206 | The three response variants get indices 1, 2 and 3. |
| ManualSerialization.IntoResponseInjective | spatialos-sdk/tests/manual_serialization.rs:195-206 | Different responses never serialize alike. |
| ManualSerialization.FromResponse | spatialos-sdk/tests/manual_serialization.rs:208-216 | Any index outside 1 to 3 gives `None`. A decoded response re-serializes to the same payload and index. |
| ManualSerialization.ResponseRoundTrip | spatialos-sdk/tests/manual_serialization.rs:195-216 | Decoding at the index `into_response` produced gives the same response. |
| ManualSerialization.WrittenFieldsExact | spatialos-sdk/tests/manual_serialization.rs:114-141 | Field k (ids 0 to 6) is written with value v exactly when the update's field k is `Some(v)`. Fields are written in increasing id order. |
| ManualSerialization.WrittenEventsExact | spatialos-sdk/tests/manual_serialization.rs:143-149 | Event buffer 1 or 2 is written exactly when it is non-empty. No other event id is written. |
| ManualSerialization.SchemaComponentUpdate.AddField | spatialos-sdk/tests/manual_serialization.rs:116 | Adding a field appends it and leaves the events alone. |
| ManualSerialization.SchemaComponentUpdate.AddEvent | spatialos-sdk/tests/manual_serialization.rs:144 | Adding an event appends it and leaves the fields alone. |
| ManualSerialization.WriteField | spatialos-sdk/tests/manual_serialization.rs:115-117 | One `if let Some`: the field is appended when present, and nothing is written otherwise. |
| ManualSerialization.IntoUpdate | spatialos-sdk/tests/manual_serialization.rs:114-150 | `into_update` appends exactly the present fields and then exactly the non-empty event buffers. |
| ManualSerialization.WriteEvents | spatialos-sdk/tests/manual_serialization.rs:143-149 | The event half of `into_update` appends exactly the non-empty buffers. |
| ManualSerialization.ReadWrittenField | spatialos-sdk/tests/manual_serialization.rs:101-107 | Reading field k back from what was written gives the update's field k. |
| ManualSerialization.ReadWrittenEvents | spatialos-sdk/tests/manual_serialization.rs:109-110 | Reading an event id back finds the buffer exactly when it was non-empty. |
| ManualSerialization.FromUpdate | spatialos-sdk/tests/manual_serialization.rs:99-112 | Field k holds the value stored under id k when that value has field k's type, and is absent otherwise. An event list is the list stored under its event id, or empty when there is none. |
| ManualSerialization.UpdateRoundTrip | spatialos-sdk/tests/manual_serialization.rs:99-150 | `from_update` after `into_update` gives back the same update. |
| Query.ResultTypeToU8 | spatialos-sdk/src/worker/query.rs:13-20 | Count maps to 1 and Snapshot to 2. |
| Query.SiblingStep | spatialos-sdk/src/worker/query.rs:152-160 | Each child's subtree starts after all the child slots and the earlier subtrees, so sibling regions follow one another without overlap. |
| Query.HeadAt | spatialos-sdk/src/worker/query.rs:151-163 | The k-th child slot of an And/Or holds child k converted at its own subtree's start. |
| Query.RegionsChild | spatialos-sdk/src/worker/query.rs:152-160 | Within the children's regions, child k's layout sits at its own offset. |
| Query.LayoutValid | spatialos-sdk/src/worker/query.rs:265-360 | A buffer holding a node's layout makes its converted constraint read back as the original tree, as the tests' `is_constraint_valid` checks. |
| Query.NotLayoutValid | spatialos-sdk/src/worker/query.rs:205-220 | A Not whose slot holds its converted child reads back as that Not. |
| Query.ChildrenLayoutValid | spatialos-sdk/src/worker/query.rs:151-204 | The consecutive child slots of an And/Or read back as its children, in order. |
| Query.FitsWithRoom | spatialos-sdk/src/worker/query.rs:82-97 | A buffer with more slots than the subtree needs takes every access of the conversion. |
| Query.ChildrenFitWithRoom | spatialos-sdk/src/worker/query.rs:151-163 | The same, for the children of an And/Or. |
| Query.ConstraintLen | spatialos-sdk/src/worker/query.rs:226-240 | Every tree is at least one slot long. A Not is always exactly 1. The size as written never exceeds the corrected size. |
| Query.ConstraintLenFixedCounts | spatialos-sdk/src/worker/query.rs:226-240 | The corrected size is one more than the slots the conversion fills. |
| Query.ConstraintLenNotFree | spatialos-sdk/src/worker/query.rs:226-240 | For trees without Not, the size as written equals the corrected one. |
| Query.SiblingNotsOverflow | spatialos-sdk/src/worker/query.rs:226-240 | For `And([Not(Component 1), Not(Component 2)])`, the size as written is 3 while the conversion needs 4 slots. It does not fit; the corrected size does. |
| Query.ToWorkerSdkRecursive | spatialos-sdk/src/worker/query.rs:108-224 | Converting at `at` returns exactly when every access is in bounds. It returns the node's constraint and the number of slots filled (0 for leaves, n + the children's slots for And/Or, 1 + the child's for Not). The slots from `at` then hold the node's layout, and nothing outside them changes. |
| Query.FillChildren | spatialos-sdk/src/worker/query.rs:151-163 | The child loop returns exactly when all children fit. It fills the n child slots and then the children's subtrees, returns `n + Σ` slots, and writes nothing outside its region. |
| Query.FillOne | spatialos-sdk/src/worker/query.rs:154-162 | One loop iteration: the child's subtree is converted first, then its slot is written, and both loop facts extend by one child. |
| Query.ChildPanics | spatialos-sdk/src/worker/query.rs:155-158 | When one child's subtree does not fit, the whole child list does not fit. |
| Query.SlotPanics | spatialos-sdk/src/worker/query.rs:161 | When a child slot is out of bounds, the child list does not fit. |
| Query.ToWorkerSdk | spatialos-sdk/src/worker/query.rs:86-106 | With the size as written, the conversion returns exactly when the tree fits that buffer. A returned result reads back as the original tree. |
| Query.ToWorkerSdkFixed | spatialos-sdk/src/worker/query.rs:86-106 | With the corrected size, the conversion always returns, and the result reads back as the original tree. |
| Query.EntityQueryToWorkerSdk | spatialos-sdk/src/worker/query.rs:27-62 | The query carries the result type's number. A count carries no ids and count 0. A snapshot carries its ids and their number. The constraint reads back as the query's. |
| EntityTable.Record | spatialos-sdk/src/worker/entity.rs:76-93 | A record carries its component id. Schema data leaves the handle null, and a handle leaves the schema data null. |
| EntityTable.HandlesOfBound | spatialos-sdk/src/worker/entity.rs:84-92 | There are never more handles than records. |
| EntityTable.ListedHandles | spatialos-sdk/src/worker/entity.rs:84-92 | The returned handles are exactly those of the handle-backed components. |
| EntityTable.Entity.constructor | spatialos-sdk/src/worker/entity.rs:24-28 | A new entity has no components. |
| EntityTable.Entity.PreAddCheck | spatialos-sdk/src/worker/entity.rs:99-108 | Fails, with the duplicate message, exactly when the id is already present. |
| EntityTable.Entity.AddHandle | spatialos-sdk/src/worker/entity.rs:37-51 | Panics when the id has no vtable. Refuses a duplicate id, leaving the table unchanged. Otherwise inserts exactly that id with the handle. |
| EntityTable.Entity.Add | spatialos-sdk/src/worker/entity.rs:30-34 | `add` behaves exactly as `add_handle`. |
| EntityTable.Entity.AddSerialized | spatialos-sdk/src/worker/entity.rs:53-61 | Refuses a duplicate id, leaving the table unchanged. Otherwise inserts exactly that id with the serialized data. |
| EntityTable.Entity.IntoRaw | spatialos-sdk/src/worker/entity.rs:71-97 | Drains the table, in any order, into exactly one record per component under its own id. The handles are those of the records. The table ends empty. |
| WorkerCore.NewEntityId | src/worker/core/mod.rs:15-17 | `EntityId::new(x).id == x`. |
| WorkerCore.IsValid | src/worker/core/mod.rs:19-21 | An id is valid exactly when it is at least 1. The zero id is never valid. |
| WorkerCore.IsValidExactlyPositive | src/worker/core/mod.rs:19-21 | An id is valid exactly when it is positive. |
| WorkerCore.ToString | src/worker/core/mod.rs:23-25 | The text is `EntityId: ` followed by digits that parse back to the id. |
| WorkerCore.ToStringInjective | src/worker/core/mod.rs:23-25 | Distinct ids have distinct texts. |
| WorkerCore.HasAuthority | src/worker/core/mod.rs:55-57 | Authority is held exactly when the state's wire code is not 0. |
| WorkerCore.HasAuthorityCases | src/worker/core/mod.rs:55-57 | Authority is held exactly when the state is not NotAuthoritative. |
| WorkerCore.AuthorityFrom | src/worker/core/mod.rs:60-68 | 0, 1 and 2 decode to NotAuthoritative, Authoritative and AuthorityLossImminent. Any larger byte panics with `Unknown authority state: n`. |
| WorkerCore.AuthorityFromCode | src/worker/core/mod.rs:60-65 | Every state decodes back from its code. |
| WorkerCore.AuthorityFromInjective | src/worker/core/mod.rs:60-65 | Distinct valid bytes decode to distinct states. |
| WorkerCore.AuthorityCodeFrom | src/worker/core/mod.rs:60-65 | Every valid byte re-encodes to itself. |
| CargoCodegen.Normalize | cargo-spatial/src/codegen.rs:138-143 | The result has no current-dir component and keeps every other component. |
| CargoCodegen.NormalizeAppend | cargo-spatial/src/codegen.rs:139-142 | Normalisation distributes over concatenation, so the kept components stay in their original order. |
| CargoCodegen.NormalizeNoCurDir | cargo-spatial/src/codegen.rs:140-142 | A path without current-dir components is unchanged. |
| CargoCodegen.NormalizeIdempotent | cargo-spatial/src/codegen.rs:138-143 | Normalising twice is normalising once. |
| CargoCodegen.NormalizeCounts | cargo-spatial/src/codegen.rs:139-142 | Each non-current-dir component occurs as often as before. |

## Left out

- The rustfmt subprocess (`spatialos-sdk-code-generator/src/lib.rs:217-242`). Its outcome is the parameter `formatted` of `Generator.Generate`, and only the fallback rule of line 212 is modelled.
- Generator.Emission: `syn::Ident::new` panics on a name that is not a Rust identifier, such as an empty name or one starting with a digit. This affects the names at `spatialos-sdk-code-generator/src/lib.rs:54`, 57, 62, 155, 158, 181, 196 and 274. The model never fails there and uses the name as it is.
- SchemaBundle.ModulePathOfLowercase: covers only packages whose segments are already in snake case. For any other segment, the module path is whatever the snake-case stand-in gives, with the limits of the next line.
- Snake-casing by the `heck` crate, whose code is not part of this model: an ASCII stand-in is used. As in heck, every character that is not alphanumeric separates words. Leading, trailing and repeated `_` therefore vanish. A word also breaks where an uppercase letter follows a lowercase letter or a digit. The words are lowercased and joined with single `_`. Not modelled: Unicode letters and case rules (a non-ASCII character counts as a separator here), and heck's exact rules for acronyms and for digits between letters.
- The `is_lowercase` test in `package_path` is ASCII only.
- Tokens are strings. Spacing differs from proc_quote's token printing, and the `Component` impl bodies (all `unimplemented!()`) are abbreviated to a comment. Prelude paths are not parsed, so the `expect("Invalid path in prelude")` panic is not modelled.
- Loading the bundle from JSON (serde), and the `Value`, `Annotation` and source-map structs, which generation never reads.
- The calls into the C schema API are not modelled:
  - `TypeConversion`, `SchemaObject` field access and `from_object`/`into_object`;
  - command payloads are opaque values, and a payload of the wrong shape is a panic (`ManualSerialization.DeserializeNested`, `ManualSerialization.DeserializeCool`).
  - in `spatialos-sdk/tests/manual_serialization.rs:224-246` the `from_object` and `into_object` of `NestedType` and `CoolEvent` are `unimplemented!()` stubs. `CommandRequest::new` and `deserialize` (`spatialos-sdk/src/worker/schema/command_request.rs:13-33`) call them, so as written every command conversion of that file panics, and so does any use of the `nested` field or the two event lists, which carry the same types. The model treats the payload conversion as lossless: it states the conversion those stubs stand for.
- Floating-point fields and sphere coordinates are opaque bit patterns, because they are only copied.
- The `DATABASE`/`inventory` vtable registry is the parameter `registered` of `EntityTable.Entity.AddHandle`. Schema data and user handles are named by their allocation. Freeing them and `UserHandle`'s drop behaviour are not modelled.
- EntityTable.Entity.IntoRaw: the `HashMap` drain order is unspecified, so the model picks any remaining entry. Its contract holds for every order.
- Query.ConstraintLen: the `u32` sum in `constraint_len_recursive` and the `size as usize` are unbounded here. Overflow of a tree with more than 2^32 nodes is not modelled.
- Query.ToWorkerSdkRecursive: the `_ => panic!("Unknown query constraint type")` arm at `query.rs:222` cannot be reached, because the match covers every variant, so it has no counterpart.
- Query.EntityQueryToWorkerSdk: the conversion uses the corrected buffer size (see Findings). With the size as written, the outcome is `Query.ToWorkerSdk`'s.
- The `Worker_Constraint` pointers are indices. The lifetime that ties `WrappedEntityQuery` to the query's id vector is not modelled.
- Path parsing by `Path::components` is not modelled; a path is its sequence of components.
- `compile_schemas` and `build` in `cargo-spatial/src/codegen.rs`, the CLI in `project-example/src/opt.rs`, the build scripts, and the `unimplemented!` stubs of `spatialos-sdk/src/lib.rs` are not part of this model. They are subprocesses, filesystem access or stubs.
- `RequestId`, `EntityQuery::from_raw` and the generated `TypeConversion` code are not part of this model. Of the generated components, Rotate, Worker, EntityAcl and Persistence, and the commands of Example and Worker, stand for the rest.

## Findings

| source | as written | input that shows it | evidently intended | confidence | as-written member | corrected member |
|---|---|---|---|---|---|---|
| spatialos-sdk/src/worker/query.rs:226-240 | `constraint_len_recursive` counts a `Not` as 1, whatever is below it. The conversion puts a Not's child, and the child's own subtree, in slots of their own. | `And([Not(Component(1)), Not(Component(2))])` gets a 3-slot buffer. The second Not's child is written at index 3, so the slice access panics. `Not(Not(Component(1)))` fails the same way. | A `Not` counts 1 plus the size of its child. The buffer then holds every written index, as the comment at lines 82-85 promises. | high; not executed | Query.SiblingNotsOverflow | Query.ToWorkerSdkFixed |
