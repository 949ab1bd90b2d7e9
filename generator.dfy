/**
 * Code generation from a schema bundle (spatialos-sdk-code-generator/src/lib.rs,
 * `generate`): the version check, the package filter, the items each
 * definition produces and where in the module tree they go, and the rendering
 * of the top-level modules.
 *
 * What is pushed where is first stated as a list of placements, computed by
 * pure functions in the order the source visits definitions; the imperative
 * build is then proved to leave each module holding exactly the items placed
 * at its path, in order.
 */
module Generator {
  import opened Wrappers
  import Scalars
  import opened SchemaBundle
  import opened Quotable
  import opened ModuleTree

  // ---------------------------------------------------------------------------
  // Item text
  // ---------------------------------------------------------------------------

  /** The path the generated code reaches the SDK by: the SDK's own package is compiled into the SDK crate. */
  function SdkRoot(package: string): (r: string)
    ensures r == "crate" <==> package == "improbable"
    ensures r == "crate" || r == "spatialos_sdk"
  {
    if package == "improbable" then "crate" else "spatialos_sdk"
  }

  /** `use path;` for each prelude path, in order. */
  function PreludeText(prelude: seq<string>): string
  {
    if prelude == [] then "" else PreludeText(prelude[..|prelude| - 1]) + "use " + prelude[|prelude| - 1] + "; "
  }

  /** `pub name: type` for each field, separated by commas; the first field that cannot be rendered decides the error. */
  function FieldsText(bundle: SchemaBundleV1, deps: Dependencies, fields: seq<FieldDefinition>)
    : (r: Result<string, GenerationError>)
    ensures r.Ok? <==> forall i :: 0 <= i < |fields| ==> FieldTypeTokens(bundle, deps, fields[i].ty).Ok?
  {
    if fields == [] then Ok("")
    else
      assert forall i :: 0 <= i < |fields| - 1 ==> fields[..|fields| - 1][i] == fields[i];
      match FieldsText(bundle, deps, fields[..|fields| - 1])
      case Err(e) => Err(e)
      case Ok(init) =>
        var f := fields[|fields| - 1];
        match FieldTypeTokens(bundle, deps, f.ty)
        case Err(e) => Err(e)
        case Ok(ty) =>
          var sep := if |fields| == 1 then "" else ", ";
          Ok(init + sep + "pub " + f.identifier.name + ": " + ty)
  }

  /** The struct of a component: its inline fields, or a newtype over the referenced type. */
  function ComponentStruct(bundle: SchemaBundleV1, deps: Dependencies, c: ComponentDefinition)
    : (r: Result<string, GenerationError>)
    ensures c.dataDefinition.Inline? ==>
              (r.Ok? <==> forall i :: 0 <= i < |c.dataDefinition.fields| ==>
                            FieldTypeTokens(bundle, deps, c.dataDefinition.fields[i].ty).Ok?)
    ensures c.dataDefinition.DataTypeReference? ==>
              (r.Ok? <==> TypeReferenceTokens(bundle, deps, c.dataDefinition.typeReference).Ok?)
    ensures r.Ok? ==> IsPrefix("pub struct " + c.identifier.name, r.value)
  {
    match c.dataDefinition
    case Inline(fields) =>
      (match FieldsText(bundle, deps, fields)
       case Err(e) => Err(e)
       case Ok(body) =>
         PrefixOfAppend("pub struct " + c.identifier.name, " { " + body + " }");
         Ok("pub struct " + c.identifier.name + (" { " + body + " }")))
    case DataTypeReference(typeRef) =>
      (match TypeReferenceTokens(bundle, deps, typeRef)
       case Err(e) => Err(e)
       case Ok(ty) =>
         PrefixOfAppend("pub struct " + c.identifier.name, "(" + ty + ");");
         Ok("pub struct " + c.identifier.name + ("(" + ty + ");")))
  }

  lemma PrefixOfAppend(a: string, b: string)
    ensures IsPrefix(a, a + b)
  {
    assert (a + b)[..|a|] == a;
  }

  /** The opening of the `Component` impl of the type `name`. */
  function ImplOpen(sdk: string, name: string): string
  {
    "impl " + sdk + "::worker::component::Component for " + name + " { "
  }

  /** The associated types and the start of the ID constant, up to the literal. */
  function ImplTypes(sdk: string, c: ComponentDefinition): string
  {
    var sub := SnakeCase(c.identifier.name);
    "type Update = " + sub + "::Update; " +
    "type CommandRequest = " + sub + "::CommandRequest; " +
    "type CommandResponse = " + sub + "::CommandResponse; " +
    "const ID: " + sdk + "::worker::component::ComponentId = "
  }

  /** Everything of the impl before the component ID literal. */
  function ImplHead(sdk: string, c: ComponentDefinition): string
  {
    ImplOpen(sdk, c.identifier.name) + ImplTypes(sdk, c)
  }

  /** Everything of the impl after the component ID literal. */
  const ImplTail: string := "u32; /* from_data .. get_response_command_index: unimplemented */ }"

  /**
   * The `Component` impl of a component: its associated types live in the
   * submodule named after it, and its ID is the component ID as a `u32`
   * literal. The conversion functions have no body in the source
   * (`unimplemented!()`) and are abbreviated.
   */
  function ComponentImpl(sdk: string, c: ComponentDefinition): (r: string)
    ensures IsPrefix(ImplOpen(sdk, c.identifier.name), r)
    ensures |ImplHead(sdk, c)| + |ImplTail| <= |r|
    ensures Scalars.ParseDecimal(r[|ImplHead(sdk, c)|..|r| - |ImplTail|]) == Some(c.componentId as int)
  {
    var digits := Scalars.DecimalString(c.componentId as int);
    Scalars.DecimalRoundTrip(c.componentId as int);
    Framed(ImplOpen(sdk, c.identifier.name), ImplTypes(sdk, c), digits, ImplTail);
    ImplOpen(sdk, c.identifier.name) + ImplTypes(sdk, c) + digits + ImplTail
  }

  /** A text made of four pieces starts with the first, and the third sits between the first two and the last. */
  lemma Framed(open: string, types: string, mid: string, tail: string)
    ensures var s := open + types + mid + tail;
            IsPrefix(open, s) && |open + types| + |tail| <= |s| && s[|open + types|..|s| - |tail|] == mid
  {
    var s := open + types + mid + tail;
    assert s[..|open|] == open;
    assert s[|open + types|..|s| - |tail|] == mid;
  }

  /** The associated types put into the component's own submodule. */
  const AssociatedTypes: string := "pub struct Update; pub enum CommandRequest {} pub enum CommandResponse {}"

  /** The struct of a type definition: rendered exactly when every field type renders. */
  function TypeStruct(bundle: SchemaBundleV1, deps: Dependencies, t: TypeDefinition)
    : (r: Result<string, GenerationError>)
    ensures r.Ok? <==> forall i :: 0 <= i < |t.fieldDefinitions| ==> FieldTypeTokens(bundle, deps, t.fieldDefinitions[i].ty).Ok?
    ensures r.Ok? ==> IsPrefix("pub struct " + t.identifier.name + " { ", r.value)
  {
    match FieldsText(bundle, deps, t.fieldDefinitions)
    case Err(e) => Err(e)
    case Ok(body) =>
      PrefixOfAppend("pub struct " + t.identifier.name + " { ", body + " }");
      Ok("pub struct " + t.identifier.name + " { " + (body + " }"))
  }

  /** `Name = value` for each value, separated by commas. */
  function EnumValuesText(values: seq<EnumValueDefinition>): string
  {
    if values == [] then ""
    else EnumValuesText(values[..|values| - 1]) + (if |values| == 1 then "" else ", ") + EnumValueTokens(values[|values| - 1])
  }

  /** The enum declaration: `pub enum Name { .. }` around its values. */
  function EnumItem(e: EnumDefinition): (r: string)
    ensures IsPrefix("pub enum " + e.identifier.name + " { ", r)
    ensures |r| >= 2 && r[|r| - 2..] == " }"
  {
    PrefixOfAppend("pub enum " + e.identifier.name + " { ", EnumValuesText(e.valueDefinitions) + " }");
    "pub enum " + e.identifier.name + " { " + (EnumValuesText(e.valueDefinitions) + " }")
  }

  // ---------------------------------------------------------------------------
  // Placements: what goes where
  // ---------------------------------------------------------------------------

  /** An item pushed into the module at `path`, produced by the definition named `origin`. */
  datatype Placement = Placement(path: seq<string>, item: string, origin: string)

  /** What generation reads besides the definition at hand. */
  datatype Context = Context(bundle: SchemaBundleV1, package: string, deps: Dependencies, sdk: string)

  /** The three kinds of definition `generate` walks over, in this order. */
  datatype Definition =
    | ComponentDef(component: ComponentDefinition)
    | TypeDef(typeDef: TypeDefinition)
    | EnumDef(enumDef: EnumDefinition)

  function Identity(d: Definition): Identifier
  {
    match d
    case ComponentDef(c) => c.identifier
    case TypeDef(t) => t.identifier
    case EnumDef(e) => e.identifier
  }

  /**
   * The module a definition's items go to: its module path, which must be
   * non-empty for get_submodule. An empty identifier path underflows the
   * length computation of module_path; both are panics in the source.
   */
  function Home(id: Identifier): (r: Result<seq<string>, GenerationError>)
    ensures r.Ok? ==> |id.path| > 1 && r.value == ModulePath(id)
    ensures r.Err? <==> |id.path| <= 1
  {
    if |id.path| == 0 then Err(EmptyPath(id.qualifiedName))
    else if |id.path| == 1 then Err(EmptyModulePath(id.qualifiedName))
    else Ok(ModulePath(id))
  }

  /**
   * The items one definition contributes, in push order. A component puts its
   * struct and then its impl into its module, and its associated types into
   * the child module named after the snake-cased component name.
   */
  function Emission(ctx: Context, d: Definition): (r: Result<seq<Placement>, GenerationError>)
    ensures d.ComponentDef? ==> (r.Ok? <==> ComponentStruct(ctx.bundle, ctx.deps, d.component).Ok? && |Identity(d).path| > 1)
    ensures d.TypeDef? ==> (r.Ok? <==> TypeStruct(ctx.bundle, ctx.deps, d.typeDef).Ok? && |Identity(d).path| > 1)
    ensures d.EnumDef? ==> (r.Ok? <==> |Identity(d).path| > 1)
    ensures r.Ok? ==> |r.value| == (if d.ComponentDef? then 3 else 1)
    ensures r.Ok? ==> forall k :: 0 <= k < |r.value| ==>
                        r.value[k].origin == Identity(d).qualifiedName &&
                        ModulePath(Identity(d)) <= r.value[k].path &&
                        |r.value[k].path| <= |ModulePath(Identity(d))| + 1
  {
    match d
    case ComponentDef(c) => ComponentEmission(c.identifier, ComponentStruct(ctx.bundle, ctx.deps, c), ComponentImpl(ctx.sdk, c))
    case TypeDef(t) => SingleEmission(t.identifier, TypeStruct(ctx.bundle, ctx.deps, t))
    case EnumDef(e) => SingleEmission(e.identifier, Ok(EnumItem(e)))
  }

  /** A component's struct and impl at its module, and its associated types one level below. */
  function ComponentEmission(id: Identifier, structText: Result<string, GenerationError>, implText: string)
    : (r: Result<seq<Placement>, GenerationError>)
    ensures r.Ok? <==> structText.Ok? && |id.path| > 1
    ensures r.Ok? ==> |r.value| == 3
    ensures r.Ok? ==> r.value[0] == Placement(ModulePath(id), structText.value, id.qualifiedName)
    ensures r.Ok? ==> r.value[1] == Placement(ModulePath(id), implText, id.qualifiedName)
    ensures r.Ok? ==> r.value[2] == Placement(ModulePath(id) + [SnakeCase(id.name)], AssociatedTypes, id.qualifiedName)
    ensures r.Ok? ==> forall k :: 0 <= k < |r.value| ==>
                        r.value[k].origin == id.qualifiedName &&
                        ModulePath(id) <= r.value[k].path && |r.value[k].path| <= |ModulePath(id)| + 1
  {
    match structText
    case Err(e) => Err(e)
    case Ok(text) =>
      match Home(id)
      case Err(e) => Err(e)
      case Ok(home) =>
        assert home <= home + [SnakeCase(id.name)];
        Ok([Placement(home, text, id.qualifiedName),
            Placement(home, implText, id.qualifiedName),
            Placement(home + [SnakeCase(id.name)], AssociatedTypes, id.qualifiedName)])
  }

  /** The one item of a type or an enum, at its module. */
  function SingleEmission(id: Identifier, item: Result<string, GenerationError>): (r: Result<seq<Placement>, GenerationError>)
    ensures r.Ok? <==> item.Ok? && |id.path| > 1
    ensures r.Ok? ==> |r.value| == 1 && r.value[0].origin == id.qualifiedName && r.value[0].path == ModulePath(id)
    ensures r.Ok? ==> forall k :: 0 <= k < |r.value| ==>
                        r.value[k].origin == id.qualifiedName &&
                        ModulePath(id) <= r.value[k].path && |r.value[k].path| <= |ModulePath(id)| + 1
  {
    match item
    case Err(e) => Err(e)
    case Ok(text) =>
      match Home(id)
      case Err(e) => Err(e)
      case Ok(home) => Ok([Placement(home, text, id.qualifiedName)])
  }


  /** `filter(starts_with(package))` then `for_each`: the placements of the selected definitions, stopping at the first failure. */
  function Gather(ctx: Context, defs: seq<Definition>): Result<seq<Placement>, GenerationError>
  {
    if defs == [] then Ok([])
    else
      match Gather(ctx, defs[..|defs| - 1])
      case Err(e) => Err(e)
      case Ok(ps) =>
        var d := defs[|defs| - 1];
        if !IsPrefix(ctx.package, Identity(d).qualifiedName) then Ok(ps)
        else match Emission(ctx, d)
          case Err(e) => Err(e)
          case Ok(q) => Ok(ps + q)
  }

  function Components(v1: SchemaBundleV1): seq<Definition>
  {
    seq(|v1.componentDefinitions|, i requires 0 <= i < |v1.componentDefinitions| => ComponentDef(v1.componentDefinitions[i]))
  }

  function Types(v1: SchemaBundleV1): seq<Definition>
  {
    seq(|v1.typeDefinitions|, i requires 0 <= i < |v1.typeDefinitions| => TypeDef(v1.typeDefinitions[i]))
  }

  function Enums(v1: SchemaBundleV1): seq<Definition>
  {
    seq(|v1.enumDefinitions|, i requires 0 <= i < |v1.enumDefinitions| => EnumDef(v1.enumDefinitions[i]))
  }

  /** Everything generate places: components, then types, then enums. */
  function Emitted(ctx: Context): Result<seq<Placement>, GenerationError>
  {
    match Gather(ctx, Components(ctx.bundle))
    case Err(e) => Err(e)
    case Ok(cs) =>
      match Gather(ctx, Types(ctx.bundle))
      case Err(e) => Err(e)
      case Ok(ts) =>
        match Gather(ctx, Enums(ctx.bundle))
        case Err(e) => Err(e)
        case Ok(es) => Ok(cs + ts + es)
  }

  /** The items placed at `path`, in push order. */
  function ItemsAt(placed: seq<Placement>, path: seq<string>): seq<string>
  {
    if placed == [] then []
    else ItemsAt(placed[..|placed| - 1], path) +
         (if placed[|placed| - 1].path == path then [placed[|placed| - 1].item] else [])
  }

  // ---------------------------------------------------------------------------
  // Properties of the placements
  // ---------------------------------------------------------------------------

  /** Definitions outside the package place nothing: filtering them out first changes nothing. */
  function InPackage(package: string, defs: seq<Definition>): (r: seq<Definition>)
    ensures forall d :: d in r <==> d in defs && IsPrefix(package, Identity(d).qualifiedName)
  {
    if defs == [] then []
    else
      var d := defs[|defs| - 1];
      InPackage(package, defs[..|defs| - 1]) + (if IsPrefix(package, Identity(d).qualifiedName) then [d] else [])
  }

  lemma {:induction false} GatherInPackage(ctx: Context, defs: seq<Definition>)
    ensures Gather(ctx, InPackage(ctx.package, defs)) == Gather(ctx, defs)
    decreases |defs|
  {
    if defs != [] {
      var init := defs[..|defs| - 1];
      var d := defs[|defs| - 1];
      GatherInPackage(ctx, init);
      var r := InPackage(ctx.package, defs);
      if IsPrefix(ctx.package, Identity(d).qualifiedName) {
        assert r == InPackage(ctx.package, init) + [d];
        assert r[..|r| - 1] == InPackage(ctx.package, init) && r[|r| - 1] == d;
      } else {
        assert r == InPackage(ctx.package, init);
      }
    }
  }

  /** Every placement comes from a selected definition: one whose qualified name starts with the package. */
  lemma {:induction false} GatherOrigins(ctx: Context, defs: seq<Definition>)
    requires Gather(ctx, defs).Ok?
    ensures forall p :: p in Gather(ctx, defs).value ==>
              IsPrefix(ctx.package, p.origin) &&
              exists d :: d in defs && Identity(d).qualifiedName == p.origin
    decreases |defs|
  {
    if defs != [] {
      var init := defs[..|defs| - 1];
      var d := defs[|defs| - 1];
      GatherOrigins(ctx, init);
      var ps := Gather(ctx, init).value;
      var selected := IsPrefix(ctx.package, Identity(d).qualifiedName);
      if selected {
        EmissionOrigin(ctx, d);
      }
      assert Gather(ctx, defs).value == ps + (if selected then Emission(ctx, d).value else []);
      forall p | p in Gather(ctx, defs).value
        ensures IsPrefix(ctx.package, p.origin) && exists d' :: d' in defs && Identity(d').qualifiedName == p.origin
      {
        if p in ps {
          var d' :| d' in init && Identity(d').qualifiedName == p.origin;
          assert d' in defs;
        } else {
          assert d in defs;
        }
      }
    }
  }

  /** Every placement of a definition carries the definition's qualified name as its origin. */
  lemma EmissionOrigin(ctx: Context, d: Definition)
    requires Emission(ctx, d).Ok?
    ensures forall p :: p in Emission(ctx, d).value ==> p.origin == Identity(d).qualifiedName
  {
    match d
    case ComponentDef(c) => ComponentOrigin(ctx, c);
    case TypeDef(t) => SingleOrigin(ctx, d);
    case EnumDef(e) => SingleOrigin(ctx, d);
  }

  lemma ComponentOrigin(ctx: Context, c: ComponentDefinition)
    requires Emission(ctx, ComponentDef(c)).Ok?
    ensures forall p :: p in Emission(ctx, ComponentDef(c)).value ==> p.origin == c.identifier.qualifiedName
  {
    var ps := Emission(ctx, ComponentDef(c)).value;
    assert |ps| == 3;
    assert forall p :: p in ps ==> p == ps[0] || p == ps[1] || p == ps[2];
  }

  lemma SingleOrigin(ctx: Context, d: Definition)
    requires !d.ComponentDef? && Emission(ctx, d).Ok?
    ensures forall p :: p in Emission(ctx, d).value ==> p.origin == Identity(d).qualifiedName
  {
    var ps := Emission(ctx, d).value;
    assert ps == [ps[0]];
  }

  /** Once a definition fails, generation fails with its error whatever follows. */
  lemma {:induction false} GatherErrSticky(ctx: Context, defs: seq<Definition>, k: nat)
    requires k <= |defs| && Gather(ctx, defs[..k]).Err?
    ensures Gather(ctx, defs) == Gather(ctx, defs[..k])
    decreases |defs| - k
  {
    if k < |defs| {
      assert defs[..k + 1][..k] == defs[..k];
      GatherErrSticky(ctx, defs, k + 1);
    } else {
      assert defs[..k] == defs;
    }
  }

  /** One more definition: the selected ones add their placements, the others nothing. */
  lemma GatherSnoc(ctx: Context, defs: seq<Definition>, k: nat, acc: seq<Placement>)
    requires k < |defs| && Gather(ctx, defs[..k]) == Ok(acc)
    ensures !IsPrefix(ctx.package, Identity(defs[k]).qualifiedName) ==> Gather(ctx, defs[..k + 1]) == Ok(acc)
    ensures IsPrefix(ctx.package, Identity(defs[k]).qualifiedName) && Emission(ctx, defs[k]).Ok? ==>
              Gather(ctx, defs[..k + 1]) == Ok(acc + Emission(ctx, defs[k]).value)
    ensures IsPrefix(ctx.package, Identity(defs[k]).qualifiedName) && Emission(ctx, defs[k]).Err? ==>
              Gather(ctx, defs[..k + 1]) == Err(Emission(ctx, defs[k]).error)
  {
    var pre := defs[..k + 1];
    assert pre[..|pre| - 1] == defs[..k] && pre[|pre| - 1] == defs[k];
  }

  /** Pushing one more placement adds its item at its own path and nowhere else. */
  lemma ItemsAtSnoc(placed: seq<Placement>, p: Placement, path: seq<string>)
    ensures ItemsAt(placed + [p], path) == ItemsAt(placed, path) + (if p.path == path then [p.item] else [])
  {
    assert (placed + [p])[..|placed|] == placed;
  }

  lemma {:induction false} ItemsAtNone(placed: seq<Placement>, path: seq<string>)
    requires forall k :: 0 <= k < |placed| ==> placed[k].path != path
    ensures ItemsAt(placed, path) == []
    decreases |placed|
  {
    if placed != [] {
      ItemsAtNone(placed[..|placed| - 1], path);
    }
  }

  /**
   * A component in the package places exactly its struct then its impl at its
   * module path, and its associated types one level further down.
   */
  lemma ComponentPlacement(ctx: Context, c: ComponentDefinition)
    requires IsPrefix(ctx.package, c.identifier.qualifiedName)
    requires Emission(ctx, ComponentDef(c)).Ok?
    ensures var ps := Emission(ctx, ComponentDef(c)).value;
            var home := ModulePath(c.identifier);
            |c.identifier.path| > 1 &&
            ItemsAt(ps, home) == [ComponentStruct(ctx.bundle, ctx.deps, c).value, ComponentImpl(ctx.sdk, c)] &&
            ItemsAt(ps, home + [SnakeCase(c.identifier.name)]) == [AssociatedTypes]
  {
    var home := ModulePath(c.identifier);
    var sub := home + [SnakeCase(c.identifier.name)];
    var q := c.identifier.qualifiedName;
    assert Emission(ctx, ComponentDef(c)).value ==
           [Placement(home, ComponentStruct(ctx.bundle, ctx.deps, c).value, q),
            Placement(home, ComponentImpl(ctx.sdk, c), q),
            Placement(sub, AssociatedTypes, q)];
    assert |home| != |sub|;
    ItemsAtThree(Placement(home, ComponentStruct(ctx.bundle, ctx.deps, c).value, q),
                 Placement(home, ComponentImpl(ctx.sdk, c), q),
                 Placement(sub, AssociatedTypes, q), home);
    ItemsAtThree(Placement(home, ComponentStruct(ctx.bundle, ctx.deps, c).value, q),
                 Placement(home, ComponentImpl(ctx.sdk, c), q),
                 Placement(sub, AssociatedTypes, q), sub);
  }

  /** The items three placements put at one path, in order. */
  lemma ItemsAtThree(a: Placement, b: Placement, c: Placement, path: seq<string>)
    ensures ItemsAt([a, b, c], path) == (if a.path == path then [a.item] else []) +
                                        (if b.path == path then [b.item] else []) +
                                        (if c.path == path then [c.item] else [])
  {
    ItemsAtSnoc([], a, path);
    assert [] + [a] == [a];
    ItemsAtSnoc([a], b, path);
    assert [a] + [b] == [a, b];
    ItemsAtSnoc([a, b], c, path);
    assert [a, b] + [c] == [a, b, c];
  }

  // ---------------------------------------------------------------------------
  // The build
  // ---------------------------------------------------------------------------

  /** Some placement lies at `path` or below it, so get_submodule had to create the module at `path`. */
  ghost predicate Needed(path: seq<string>, placed: seq<Placement>)
  {
    exists k :: 0 <= k < |placed| && path <= placed[k].path
  }

  /**
   * The modules are clones of the default module (prelude `prelude`) holding
   * exactly the placed items, and every placement's path leads to a module.
   */
  ghost predicate Shaped(nodes: seq<Node>, paths: seq<seq<string>>, placed: seq<Placement>, prelude: string)
  {
    Arena(nodes, paths) &&
    (forall i :: 0 <= i < |nodes| ==> nodes[i].prelude == prelude && nodes[i].items == ItemsAt(placed, paths[i])) &&
    (forall k :: 0 <= k < |placed| ==> placed[k].path in paths)
  }

  /** The tree built for `placed`: shaped by it, and with no module that no placement needed. */
  ghost predicate Holds(nodes: seq<Node>, paths: seq<seq<string>>, placed: seq<Placement>, prelude: string)
  {
    Shaped(nodes, paths, placed, prelude) &&
    forall i :: 0 < i < |nodes| ==> Needed(paths[i], placed)
  }

  /** Between get_submodule and the push: the modules on the way to `pending` may not be needed yet. */
  ghost predicate HoldsFor(nodes: seq<Node>, paths: seq<seq<string>>, placed: seq<Placement>, prelude: string,
                           pending: seq<string>)
  {
    Shaped(nodes, paths, placed, prelude) &&
    forall i :: 0 < i < |nodes| ==> Needed(paths[i], placed) || paths[i] <= pending
  }

  /** get_submodule, keeping the modules in step with the placements. */
  method Enter(forest: ModuleForest, start: nat, path: seq<string>, ghost placed: seq<Placement>) returns (m: nat)
    requires forest.Valid() && start < |forest.nodes| && |path| > 0
    requires Holds(forest.nodes, forest.paths, placed, forest.prelude)
    modifies forest
    ensures forest.Valid() && m < |forest.nodes|
    ensures HoldsFor(forest.nodes, forest.paths, placed, forest.prelude, forest.paths[m])
    ensures forest.paths[m] == old(forest.paths[start]) + path
  {
    ghost var oldNodes, oldPaths := forest.nodes, forest.paths;
    m := forest.GetSubmodule(start, path);
    HoldsGrown(oldNodes, oldPaths, forest.nodes, forest.paths, forest.prelude, placed, forest.paths[m]);
  }

  /**
   * New empty modules on the way to `pending`, added beside the old ones, hold
   * no placements: the modules still hold exactly the placed items.
   */
  lemma HoldsGrown(oldNodes: seq<Node>, oldPaths: seq<seq<string>>, nodes: seq<Node>, paths: seq<seq<string>>,
                   prelude: string, placed: seq<Placement>, pending: seq<string>)
    requires Holds(oldNodes, oldPaths, placed, prelude)
    requires Arena(nodes, paths) && Keeps(oldNodes, nodes, prelude) && oldPaths <= paths
    requires forall i :: |oldNodes| <= i < |nodes| ==> paths[i] <= pending
    ensures HoldsFor(nodes, paths, placed, prelude, pending)
  {
    forall i | 0 <= i < |nodes|
      ensures nodes[i].prelude == prelude && nodes[i].items == ItemsAt(placed, paths[i])
    {
      if i >= |oldPaths| {
        forall k | 0 <= k < |placed| ensures placed[k].path != paths[i] {
          var j :| 0 <= j < |oldPaths| && oldPaths[j] == placed[k].path;
          PathsDistinct(nodes, paths, i, j);
        }
        ItemsAtNone(placed, paths[i]);
      } else {
        assert paths[i] == oldPaths[i];
      }
    }
    forall k | 0 <= k < |placed| ensures placed[k].path in paths {
      var j :| 0 <= j < |oldPaths| && oldPaths[j] == placed[k].path;
      assert paths[j] == oldPaths[j];
    }
    forall i | 0 < i < |nodes| ensures Needed(paths[i], placed) || paths[i] <= pending {
      if i < |oldNodes| {
        assert paths[i] == oldPaths[i];
      }
    }
  }

  /** `module.items.push(item)`, recorded as a placement at the module's path. */
  method Push(forest: ModuleForest, m: nat, item: string, origin: string, ghost placed: seq<Placement>)
    returns (ghost placed': seq<Placement>)
    requires forest.Valid() && m < |forest.nodes|
    requires HoldsFor(forest.nodes, forest.paths, placed, forest.prelude, forest.paths[m])
    modifies forest
    ensures forest.Valid() && |forest.nodes| == old(|forest.nodes|) && forest.paths == old(forest.paths)
    ensures placed' == placed + [Placement(forest.paths[m], item, origin)]
    ensures Holds(forest.nodes, forest.paths, placed', forest.prelude)
  {
    placed' := placed + [Placement(forest.paths[m], item, origin)];
    ghost var before := forest.nodes;
    forest.PushItem(m, item);
    PushKeeps(before, forest.nodes, forest.paths, placed, forest.prelude, m, Placement(forest.paths[m], item, origin));
  }

  /** Appending the item of `p` to module `m`, at `p`'s path, restores the invariant. */
  lemma PushKeeps(before: seq<Node>, nodes: seq<Node>, paths: seq<seq<string>>, placed: seq<Placement>,
                  prelude: string, m: nat, p: Placement)
    requires m < |before| == |paths| && p.path == paths[m]
    requires HoldsFor(before, paths, placed, prelude, paths[m])
    requires nodes == before[m := before[m].(items := before[m].items + [p.item])] && Arena(nodes, paths)
    ensures Holds(nodes, paths, placed + [p], prelude)
  {
    ItemsAfterPush(before, nodes, paths, placed, m, p);
    assert forall i :: 0 <= i < |nodes| ==> nodes[i].prelude == before[i].prelude;
    forall k | 0 <= k < |placed + [p]|
      ensures (placed + [p])[k].path in paths
    {
      if k < |placed| {
        assert (placed + [p])[k] == placed[k];
      }
    }
    NeededAfterPush(paths, placed, p);
  }

  /** After the push each module holds exactly the items placed at its path. */
  lemma ItemsAfterPush(before: seq<Node>, nodes: seq<Node>, paths: seq<seq<string>>, placed: seq<Placement>,
                       m: nat, p: Placement)
    requires Arena(nodes, paths) && m < |before| == |paths| && p.path == paths[m]
    requires nodes == before[m := before[m].(items := before[m].items + [p.item])]
    requires forall i :: 0 <= i < |before| ==> before[i].items == ItemsAt(placed, paths[i])
    ensures forall i :: 0 <= i < |nodes| ==> nodes[i].items == ItemsAt(placed + [p], paths[i])
  {
    forall i | 0 <= i < |nodes|
      ensures nodes[i].items == ItemsAt(placed + [p], paths[i])
    {
      ItemsAtSnoc(placed, p, paths[i]);
      if i != m {
        PathsDistinct(nodes, paths, i, m);
      }
    }
  }

  /** Once the item is pushed at `pending`, the modules on the way to it are needed. */
  lemma NeededAfterPush(paths: seq<seq<string>>, placed: seq<Placement>, p: Placement)
    requires forall i :: 0 < i < |paths| ==> Needed(paths[i], placed) || paths[i] <= p.path
    ensures forall i :: 0 < i < |paths| ==> Needed(paths[i], placed + [p])
  {
    forall i | 0 < i < |paths| ensures Needed(paths[i], placed + [p]) {
      if Needed(paths[i], placed) {
        var k :| 0 <= k < |placed| && paths[i] <= placed[k].path;
        assert (placed + [p])[k] == placed[k];
      } else {
        assert (placed + [p])[|placed|] == p;
      }
    }
  }

  /** A finished tree is also a tree between get_submodule and a push. */
  lemma HoldsForAny(nodes: seq<Node>, paths: seq<seq<string>>, placed: seq<Placement>, prelude: string,
                    pending: seq<string>)
    requires Holds(nodes, paths, placed, prelude)
    ensures HoldsFor(nodes, paths, placed, prelude, pending)
  {
  }

  /** The body of one `for_each`: place the items of one selected definition. */
  method EmitOne(forest: ModuleForest, ctx: Context, d: Definition, ghost placed: seq<Placement>)
    returns (err: Option<GenerationError>, ghost placed': seq<Placement>)
    requires forest.Valid() && Holds(forest.nodes, forest.paths, placed, forest.prelude)
    modifies forest
    ensures forest.Valid() && Holds(forest.nodes, forest.paths, placed', forest.prelude)
    ensures err.None? ==> Emission(ctx, d).Ok? && placed' == placed + Emission(ctx, d).value
    ensures err.Some? ==> Emission(ctx, d) == Err(err.value)
  {
    match d
    case ComponentDef(c) => err, placed' := EmitComponent(forest, ctx, c, placed);
    case TypeDef(t) => err, placed' := EmitType(forest, ctx, t, placed);
    case EnumDef(e) => err, placed' := EmitEnum(forest, ctx, e, placed);
  }

  /** A component: its struct and impl into its module, its associated types into its submodule. */
  method EmitComponent(forest: ModuleForest, ctx: Context, c: ComponentDefinition, ghost placed: seq<Placement>)
    returns (err: Option<GenerationError>, ghost placed': seq<Placement>)
    requires forest.Valid() && Holds(forest.nodes, forest.paths, placed, forest.prelude)
    modifies forest
    ensures forest.Valid() && Holds(forest.nodes, forest.paths, placed', forest.prelude)
    ensures err.None? ==> Emission(ctx, ComponentDef(c)).Ok? && placed' == placed + Emission(ctx, ComponentDef(c)).value
    ensures err.Some? ==> Emission(ctx, ComponentDef(c)) == Err(err.value)
  {
    placed' := placed;
    var id := c.identifier;
    var structText := ComponentStruct(ctx.bundle, ctx.deps, c);
    if structText.Err? {
      return Some(structText.error), placed';
    }
    var impls := ComponentImpl(ctx.sdk, c);
    var home := Home(id);
    if home.Err? {
      return Some(home.error), placed';
    }
    placed' := PlaceComponent(forest, home.value, structText.value, impls, id, placed');
    err := None;
  }

  /** The pushes of a component whose items could all be rendered. */
  method PlaceComponent(forest: ModuleForest, home: seq<string>, structText: string, impls: string,
                        id: Identifier, ghost placed: seq<Placement>)
    returns (ghost placed': seq<Placement>)
    requires forest.Valid() && Holds(forest.nodes, forest.paths, placed, forest.prelude) && |home| > 0
    modifies forest
    ensures forest.Valid() && Holds(forest.nodes, forest.paths, placed', forest.prelude)
    ensures placed' == placed + [Placement(home, structText, id.qualifiedName),
                                 Placement(home, impls, id.qualifiedName),
                                 Placement(home + [SnakeCase(id.name)], AssociatedTypes, id.qualifiedName)]
  {
    var m := Enter(forest, 0, home, placed);
    assert forest.paths[m] == home;
    placed' := Push(forest, m, structText, id.qualifiedName, placed);
    HoldsForAny(forest.nodes, forest.paths, placed', forest.prelude, forest.paths[m]);
    placed' := Push(forest, m, impls, id.qualifiedName, placed');
    var sub := Enter(forest, m, [SnakeCase(id.name)], placed');
    assert forest.paths[sub] == home + [SnakeCase(id.name)];
    placed' := Push(forest, sub, AssociatedTypes, id.qualifiedName, placed');
    AppendThree(placed, Placement(home, structText, id.qualifiedName), Placement(home, impls, id.qualifiedName),
                Placement(home + [SnakeCase(id.name)], AssociatedTypes, id.qualifiedName));
  }

  lemma AppendThree<T>(s: seq<T>, a: T, b: T, c: T)
    ensures s + [a] + [b] + [c] == s + [a, b, c]
  {
  }

  /** A type: its struct into its module. */
  method EmitType(forest: ModuleForest, ctx: Context, t: TypeDefinition, ghost placed: seq<Placement>)
    returns (err: Option<GenerationError>, ghost placed': seq<Placement>)
    requires forest.Valid() && Holds(forest.nodes, forest.paths, placed, forest.prelude)
    modifies forest
    ensures forest.Valid() && Holds(forest.nodes, forest.paths, placed', forest.prelude)
    ensures err.None? ==> Emission(ctx, TypeDef(t)).Ok? && placed' == placed + Emission(ctx, TypeDef(t)).value
    ensures err.Some? ==> Emission(ctx, TypeDef(t)) == Err(err.value)
  {
    placed' := placed;
    var structText := TypeStruct(ctx.bundle, ctx.deps, t);
    if structText.Err? {
      return Some(structText.error), placed';
    }
    var home := Home(t.identifier);
    if home.Err? {
      return Some(home.error), placed';
    }
    var m := Enter(forest, 0, home.value, placed');
    assert forest.paths[m] == home.value;
    placed' := Push(forest, m, structText.value, t.identifier.qualifiedName, placed');
    assert Emission(ctx, TypeDef(t)) == Ok([Placement(home.value, structText.value, t.identifier.qualifiedName)]);
    err := None;
  }

  /** An enum: its declaration into its module. */
  method EmitEnum(forest: ModuleForest, ctx: Context, e: EnumDefinition, ghost placed: seq<Placement>)
    returns (err: Option<GenerationError>, ghost placed': seq<Placement>)
    requires forest.Valid() && Holds(forest.nodes, forest.paths, placed, forest.prelude)
    modifies forest
    ensures forest.Valid() && Holds(forest.nodes, forest.paths, placed', forest.prelude)
    ensures err.None? ==> Emission(ctx, EnumDef(e)).Ok? && placed' == placed + Emission(ctx, EnumDef(e)).value
    ensures err.Some? ==> Emission(ctx, EnumDef(e)) == Err(err.value)
  {
    placed' := placed;
    var home := Home(e.identifier);
    if home.Err? {
      return Some(home.error), placed';
    }
    var m := Enter(forest, 0, home.value, placed');
    assert forest.paths[m] == home.value;
    placed' := Push(forest, m, EnumItem(e), e.identifier.qualifiedName, placed');
    assert Emission(ctx, EnumDef(e)) == Ok([Placement(home.value, EnumItem(e), e.identifier.qualifiedName)]);
    err := None;
  }

  /** One of the three `filter(..).for_each(..)` passes of generate. */
  method EmitAll(forest: ModuleForest, ctx: Context, defs: seq<Definition>, ghost base: seq<Placement>)
    returns (err: Option<GenerationError>, ghost placed: seq<Placement>)
    requires forest.Valid() && Holds(forest.nodes, forest.paths, base, forest.prelude)
    modifies forest
    ensures forest.Valid()
    ensures err.None? ==> Gather(ctx, defs).Ok? && placed == base + Gather(ctx, defs).value &&
                          Holds(forest.nodes, forest.paths, placed, forest.prelude)
    ensures err.Some? ==> Gather(ctx, defs) == Err(err.value)
  {
    placed := base;
    ghost var acc: seq<Placement> := [];
    assert defs[..0] == [];
    var k := 0;
    while k < |defs|
      invariant 0 <= k <= |defs|
      invariant forest.Valid() && Holds(forest.nodes, forest.paths, placed, forest.prelude)
      invariant Gather(ctx, defs[..k]) == Ok(acc) && placed == base + acc
    {
      err, placed, acc := EmitNext(forest, ctx, defs, k, base, acc, placed);
      if err.Some? {
        return;
      }
      k := k + 1;
    }
    assert defs[..k] == defs;
    err := None;
  }

  /** One iteration of a pass: emit `defs[k]` when it belongs to the package. */
  method EmitNext(forest: ModuleForest, ctx: Context, defs: seq<Definition>, k: nat,
                  ghost base: seq<Placement>, ghost acc: seq<Placement>, ghost placed: seq<Placement>)
    returns (err: Option<GenerationError>, ghost placed': seq<Placement>, ghost acc': seq<Placement>)
    requires k < |defs| && Gather(ctx, defs[..k]) == Ok(acc) && placed == base + acc
    requires forest.Valid() && Holds(forest.nodes, forest.paths, placed, forest.prelude)
    modifies forest
    ensures forest.Valid()
    ensures err.None? ==> Gather(ctx, defs[..k + 1]) == Ok(acc') && placed' == base + acc' &&
                          Holds(forest.nodes, forest.paths, placed', forest.prelude)
    ensures err.Some? ==> Gather(ctx, defs) == Err(err.value)
  {
    GatherSnoc(ctx, defs, k, acc);
    if IsPrefix(ctx.package, Identity(defs[k]).qualifiedName) {
      err, placed', acc' := EmitSelected(forest, ctx, defs, k, base, acc, placed);
    } else {
      err, placed', acc' := None, placed, acc;
    }
  }

  /** Emitting a definition that belongs to the package. */
  method EmitSelected(forest: ModuleForest, ctx: Context, defs: seq<Definition>, k: nat,
                      ghost base: seq<Placement>, ghost acc: seq<Placement>, ghost placed: seq<Placement>)
    returns (err: Option<GenerationError>, ghost placed': seq<Placement>, ghost acc': seq<Placement>)
    requires k < |defs| && Gather(ctx, defs[..k]) == Ok(acc) && placed == base + acc
    requires IsPrefix(ctx.package, Identity(defs[k]).qualifiedName)
    requires forest.Valid() && Holds(forest.nodes, forest.paths, placed, forest.prelude)
    modifies forest
    ensures forest.Valid()
    ensures err.None? ==> Gather(ctx, defs[..k + 1]) == Ok(acc') && placed' == base + acc' &&
                          Holds(forest.nodes, forest.paths, placed', forest.prelude)
    ensures err.Some? ==> Gather(ctx, defs) == Err(err.value)
  {
    err, placed' := EmitOne(forest, ctx, defs[k], placed);
    acc' := if err.None? then acc + Emission(ctx, defs[k]).value else acc;
    SelectedStep(ctx, defs, k, base, acc, placed, placed', err);
  }

  /** What emitting a selected definition does to the gathered placements. */
  lemma SelectedStep(ctx: Context, defs: seq<Definition>, k: nat, base: seq<Placement>, acc: seq<Placement>,
                     placed: seq<Placement>, placed': seq<Placement>, err: Option<GenerationError>)
    requires k < |defs| && Gather(ctx, defs[..k]) == Ok(acc) && placed == base + acc
    requires IsPrefix(ctx.package, Identity(defs[k]).qualifiedName)
    requires err.None? ==> Emission(ctx, defs[k]).Ok? && placed' == placed + Emission(ctx, defs[k]).value
    requires err.Some? ==> Emission(ctx, defs[k]) == Err(err.value)
    ensures err.None? ==> Gather(ctx, defs[..k + 1]) == Ok(acc + Emission(ctx, defs[k]).value) &&
                          placed' == base + (acc + Emission(ctx, defs[k]).value)
    ensures err.Some? ==> Gather(ctx, defs) == Err(err.value)
  {
    GatherSnoc(ctx, defs, k, acc);
    if err.Some? {
      GatherErrSticky(ctx, defs, k + 1);
    } else {
      AppendAssoc(base, acc, Emission(ctx, defs[k]).value);
    }
  }

  lemma AppendAssoc<T>(a: seq<T>, b: seq<T>, c: seq<T>)
    ensures (a + b) + c == a + (b + c)
  {
  }

  // ---------------------------------------------------------------------------
  // The placements determine the text
  // ---------------------------------------------------------------------------

  /** Every module a placement needs is in the tree. */
  lemma NodeOfNeeded(nodes: seq<Node>, paths: seq<seq<string>>, placed: seq<Placement>, prelude: string,
                     q: seq<string>)
    requires Holds(nodes, paths, placed, prelude) && Needed(q, placed)
    ensures exists j :: 0 <= j < |nodes| && paths[j] == q
  {
    var k :| 0 <= k < |placed| && q <= placed[k].path;
    var i :| 0 <= i < |paths| && paths[i] == placed[k].path;
    PrefixNode(nodes, paths, i, q);
  }

  /** A module has a child named `s` exactly when some placement needs the module one level down under `s`. */
  lemma ChildKeys(nodes: seq<Node>, paths: seq<seq<string>>, placed: seq<Placement>, prelude: string,
                  i: nat, s: string)
    requires Holds(nodes, paths, placed, prelude) && i < |nodes|
    ensures Lookup(nodes[i].children, s).Some? <==> Needed(paths[i] + [s], placed)
  {
    if Lookup(nodes[i].children, s).Some? {
      var c := Lookup(nodes[i].children, s).value;
      var k :| 0 <= k < |nodes[i].children| && nodes[i].children[k] == (s, c);
      assert paths[c] == paths[i] + [s];
    }
    if Needed(paths[i] + [s], placed) {
      NodeOfNeeded(nodes, paths, placed, prelude, paths[i] + [s]);
      var j :| 0 <= j < |nodes| && paths[j] == paths[i] + [s];
      ChildOfPath(nodes, paths, i, j, s);
    }
  }

  /** Modules at the same path of two trees built for the same placements list the same child names in order. */
  lemma SameChildNames(n1: seq<Node>, p1: seq<seq<string>>, n2: seq<Node>, p2: seq<seq<string>>,
                       placed: seq<Placement>, prelude: string, i: nat, j: nat)
    requires Holds(n1, p1, placed, prelude) && Holds(n2, p2, placed, prelude)
    requires i < |n1| && j < |n2| && p1[i] == p2[j]
    ensures |n1[i].children| == |n2[j].children|
    ensures forall k :: 0 <= k < |n1[i].children| ==> n1[i].children[k].0 == n2[j].children[k].0
  {
    forall s ensures Lookup(n1[i].children, s).Some? <==> Lookup(n2[j].children, s).Some? {
      ChildKeys(n1, p1, placed, prelude, i, s);
      ChildKeys(n2, p2, placed, prelude, j, s);
    }
    KeysCanonical(n1[i].children, n2[j].children);
  }

  /** Modules at the same path of two trees built for the same placements render alike. */
  lemma {:induction false} ModuleTextSame(n1: seq<Node>, p1: seq<seq<string>>, n2: seq<Node>, p2: seq<seq<string>>,
                                          placed: seq<Placement>, prelude: string, i: nat, j: nat)
    requires Holds(n1, p1, placed, prelude) && Holds(n2, p2, placed, prelude)
    requires i < |n1| && j < |n2| && p1[i] == p2[j]
    ensures ModuleText(n1, i) == ModuleText(n2, j)
    decreases |n1| - i
  {
    var cs1, cs2 := n1[i].children, n2[j].children;
    SameChildNames(n1, p1, n2, p2, placed, prelude, i, j);
    forall k | 0 <= k < |cs1|
      ensures ModuleText(n1, cs1[k].1) == ModuleText(n2, cs2[k].1)
    {
      assert p1[cs1[k].1] == p1[i] + [cs1[k].0];
      assert p2[cs2[k].1] == p2[j] + [cs2[k].0];
      ModuleTextSame(n1, p1, n2, p2, placed, prelude, cs1[k].1, cs2[k].1);
    }
    ChildrenTextSame(n1, i, n2, j, cs1, cs2);
  }

  /** Child lists with the same names, whose modules render alike one by one, render alike. */
  lemma {:induction false} ChildrenTextSame(n1: seq<Node>, i: nat, n2: seq<Node>, j: nat, cs1: ChildMap, cs2: ChildMap)
    requires WellFormed(n1) && WellFormed(n2) && i < |n1| && j < |n2|
    requires forall k :: 0 <= k < |cs1| ==> i < cs1[k].1 < |n1|
    requires forall k :: 0 <= k < |cs2| ==> j < cs2[k].1 < |n2|
    requires |cs1| == |cs2| && forall k :: 0 <= k < |cs1| ==> cs1[k].0 == cs2[k].0
    requires forall k :: 0 <= k < |cs1| ==> ModuleText(n1, cs1[k].1) == ModuleText(n2, cs2[k].1)
    ensures ChildrenText(n1, i, cs1) == ChildrenText(n2, j, cs2)
    decreases |cs1|
  {
    if cs1 != [] {
      ChildrenTextSame(n1, i, n2, j, cs1[1..], cs2[1..]);
    }
  }

  /** The root's children are the top-level modules, each at the path of its own name. */
  lemma RootChildren(nodes: seq<Node>, paths: seq<seq<string>>)
    requires Arena(nodes, paths)
    ensures forall q :: 0 <= q < |nodes[0].children| ==>
              0 < nodes[0].children[q].1 < |nodes| && paths[nodes[0].children[q].1] == [nodes[0].children[q].0]
  {
    forall q | 0 <= q < |nodes[0].children|
      ensures 0 < nodes[0].children[q].1 < |nodes| && paths[nodes[0].children[q].1] == [nodes[0].children[q].0]
    {
      assert paths[nodes[0].children[q].1] == paths[0] + [nodes[0].children[q].0];
    }
  }

  /** Any two trees of modules built for the same placements give the same raw text. */
  lemma RawTextDetermined(n1: seq<Node>, p1: seq<seq<string>>, n2: seq<Node>, p2: seq<seq<string>>,
                          placed: seq<Placement>, prelude: string)
    requires Holds(n1, p1, placed, prelude) && Holds(n2, p2, placed, prelude)
    ensures RawText(n1) == RawText(n2)
  {
    var cs1, cs2 := n1[0].children, n2[0].children;
    SameChildNames(n1, p1, n2, p2, placed, prelude, 0, 0);
    RootChildren(n1, p1);
    RootChildren(n2, p2);
    forall q | 0 <= q < |cs1|
      ensures ModuleText(n1, cs1[q].1) == ModuleText(n2, cs2[q].1)
    {
      ModuleTextSame(n1, p1, n2, p2, placed, prelude, cs1[q].1, cs2[q].1);
    }
    TopTextSame(n1, n2, cs1, cs2, 0);
  }

  /** With nothing placed, the tree is the bare top module and the raw text is empty. */
  lemma NothingPlacedRendersNothing(nodes: seq<Node>, paths: seq<seq<string>>, prelude: string)
    requires Holds(nodes, paths, [], prelude)
    ensures |nodes| == 1 && RawText(nodes) == ""
  {
    assert !Needed(paths[|nodes| - 1], []);
    RootChildren(nodes, paths);
    ChildrenNeedRoom(nodes[0].children, |nodes|);
  }

  /** A child map pointing only at nodes 1 .. n-1 is empty unless there are at least two nodes. */
  lemma ChildrenNeedRoom(cs: ChildMap, n: nat)
    requires forall q :: 0 <= q < |cs| ==> 0 < cs[q].1 < n
    ensures cs == [] || n >= 2
  {
    if cs != [] {
      assert 0 < cs[0].1 < n;
    }
  }

  /** Appending one piece keeps the rendered prefix plus the rest equal to the whole. */
  lemma AppendPiece(text: string, piece: string, rest: string, whole: string)
    requires text + (piece + rest) == whole
    ensures (text + piece) + rest == whole
  {
  }

  /** Module::to_tokens on the top-level map: each top-level module by ascending name. */
  method RenderTop(forest: ModuleForest) returns (text: string)
    requires WellFormed(forest.nodes) && |forest.nodes| > 0
    ensures text == TopText(forest.nodes, forest.nodes[0].children, 0)
  {
    var nodes := forest.nodes;
    var cs := nodes[0].children;
    assert forall j :: 0 <= j < |cs| ==> 0 < cs[j].1 < |nodes|;
    text := "";
    var k := 0;
    while k < |cs|
      invariant 0 <= k <= |cs|
      invariant text + TopText(nodes, cs, k) == TopText(nodes, cs, 0)
    {
      var sub := forest.Render(cs[k].1);
      var piece := TopEntry(cs[k].0, sub);
      AppendPiece(text, piece, TopText(nodes, cs, k + 1), TopText(nodes, cs, 0));
      text := text + piece;
      k := k + 1;
    }
  }

  /**
   * generate: reject a bundle without v1; otherwise place the items of every
   * component, type and enum in the package and render the modules. The
   * formatter's output replaces the raw text when it succeeded (`formatted`
   * stands for the result of the rustfmt subprocess); otherwise the text is the
   * rendering of modules holding exactly the placements of `Emitted`, which
   * every such tree of modules renders alike.
   */
  method Generate(bundle: SchemaBundle, package: string, prelude: seq<string>, deps: Dependencies,
                  formatted: Option<string>)
    returns (r: Result<string, GenerationError>)
    ensures bundle.v1.None? ==> r == Err(UnsupportedBundleVersion)
    ensures bundle.v1.Some? ==>
              var ctx := Context(bundle.v1.value, package, deps, SdkRoot(package));
              (r.Ok? <==> Emitted(ctx).Ok?) && (r.Err? ==> r == Err(Emitted(ctx).error))
    ensures r.Ok? && formatted.Some? ==> r.value == formatted.value
    ensures r.Ok? && formatted.None? ==>
              var placed := Emitted(Context(bundle.v1.value, package, deps, SdkRoot(package))).value;
              (exists nodes: seq<Node>, paths: seq<seq<string>> :: Holds(nodes, paths, placed, PreludeText(prelude))) &&
              forall nodes: seq<Node>, paths: seq<seq<string>> | Holds(nodes, paths, placed, PreludeText(prelude)) ::
                r.value == RawText(nodes)
  {
    if bundle.v1.None? {
      return Err(UnsupportedBundleVersion);
    }
    var ctx := Context(bundle.v1.value, package, deps, SdkRoot(package));
    var forest := new ModuleForest(PreludeText(prelude));
    assert Holds(forest.nodes, forest.paths, [], forest.prelude);
    var err := EmitPackage(forest, ctx);
    if err.Some? {
      return Err(err.value);
    }
    var raw := RenderTop(forest);
    r := Ok(if formatted.Some? then formatted.value else raw);
    forall nodes: seq<Node>, paths: seq<seq<string>> | Holds(nodes, paths, Emitted(ctx).value, forest.prelude)
      ensures raw == RawText(nodes)
    {
      RawTextDetermined(forest.nodes, forest.paths, nodes, paths, Emitted(ctx).value, forest.prelude);
    }
  }

  /** The three passes of generate over a fresh module tree: components, then types, then enums. */
  method EmitPackage(forest: ModuleForest, ctx: Context) returns (err: Option<GenerationError>)
    requires forest.Valid() && Holds(forest.nodes, forest.paths, [], forest.prelude)
    modifies forest
    ensures forest.Valid()
    ensures err.None? ==> Emitted(ctx).Ok? && Holds(forest.nodes, forest.paths, Emitted(ctx).value, forest.prelude)
    ensures err.Some? ==> Emitted(ctx) == Err(err.value)
  {
    var v1 := ctx.bundle;
    ghost var placed;
    err, placed := EmitAll(forest, ctx, Components(v1), []);
    if err.Some? {
      return;
    }
    err, placed := EmitAll(forest, ctx, Types(v1), placed);
    if err.Some? {
      return;
    }
    err, placed := EmitAll(forest, ctx, Enums(v1), placed);
    if err.Some? {
      return;
    }
    EmittedOk(ctx);
  }

  /** When all three passes succeed, their placements one after the other. */
  lemma EmittedOk(ctx: Context)
    requires Gather(ctx, Components(ctx.bundle)).Ok? && Gather(ctx, Types(ctx.bundle)).Ok? &&
             Gather(ctx, Enums(ctx.bundle)).Ok?
    ensures Emitted(ctx) == Ok([] + Gather(ctx, Components(ctx.bundle)).value + Gather(ctx, Types(ctx.bundle)).value +
                               Gather(ctx, Enums(ctx.bundle)).value)
  {
    var cs := Gather(ctx, Components(ctx.bundle)).value;
    assert [] + cs == cs;
  }
}
