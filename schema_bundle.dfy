/**
 * The schema bundle: the typed form of the JSON document that the schema
 * compiler emits, and the name-resolution rules the code generator applies to
 * its identifiers (spatialos-sdk-code-generator/src/schema_bundle.rs).
 */
module SchemaBundle {
  import opened Wrappers
  import opened Scalars

  // ---------------------------------------------------------------------------
  // Data model
  // ---------------------------------------------------------------------------

  /** A declared name: `qualifiedName` is the dotted form of `path`, `name` its last segment. */
  datatype Identifier = Identifier(qualifiedName: string, name: string, path: seq<string>)

  /** The schema's wire-level scalar kinds, in declaration order. */
  datatype PrimitiveType =
    | Invalid | Int32 | Int64 | Uint32 | Uint64 | Sint32 | Sint64 | Fixed32 | Fixed64
    | Sfixed32 | Sfixed64 | Bool | Float | Double | String | EntityId | Bytes

  datatype TypeReference = TypeReference(qualifiedName: string)

  datatype EnumReference = EnumReference(qualifiedName: string)

  datatype ValueTypeReference =
    | Primitive(primitive: PrimitiveType)
    | EnumRef(enumRef: EnumReference)
    | TypeRef(typeRef: TypeReference)

  datatype FieldTypeDefinition =
    | Singular(ty: ValueTypeReference)
    | Optional(innerType: ValueTypeReference)
    | List(innerType: ValueTypeReference)
    | Map(keyType: ValueTypeReference, valueType: ValueTypeReference)

  datatype FieldDefinition =
    FieldDefinition(identifier: Identifier, fieldId: u32, transient: bool, ty: FieldTypeDefinition)

  datatype EnumValueDefinition = EnumValueDefinition(identifier: Identifier, value: u32)

  datatype EnumDefinition =
    EnumDefinition(identifier: Identifier, valueDefinitions: seq<EnumValueDefinition>)

  datatype TypeDefinition =
    TypeDefinition(identifier: Identifier, fieldDefinitions: seq<FieldDefinition>)

  datatype EventDefinition =
    EventDefinition(identifier: Identifier, eventIndex: u32, typeReference: ValueTypeReference)

  datatype CommandDefinition =
    CommandDefinition(identifier: Identifier, commandIndex: u32,
                      requestType: ValueTypeReference, responseType: ValueTypeReference)

  /** A component's data is either declared inline or taken from a named type. */
  datatype ComponentDataDefinition =
    | Inline(fields: seq<FieldDefinition>)
    | DataTypeReference(typeReference: TypeReference)

  datatype ComponentDefinition =
    ComponentDefinition(identifier: Identifier, componentId: u32,
                        dataDefinition: ComponentDataDefinition,
                        eventDefinitions: seq<EventDefinition>,
                        commandDefinitions: seq<CommandDefinition>)

  datatype SchemaBundleV1 =
    SchemaBundleV1(enumDefinitions: seq<EnumDefinition>,
                   typeDefinitions: seq<TypeDefinition>,
                   componentDefinitions: seq<ComponentDefinition>)

  /** Only the `v1` payload is supported; a bundle without it is rejected by the generator. */
  datatype SchemaBundle = SchemaBundle(v1: Option<SchemaBundleV1>)

  /** The conditions under which the generator stops (all but the version check are panics in the source). */
  datatype GenerationError =
    | UnsupportedBundleVersion
    | EmptySegment(qualifiedName: string)
    | EmptyPath(qualifiedName: string)
    | UnresolvedDependency(qualifiedName: string)
    | InvalidPrimitive
    | MissingType(qualifiedName: string)
    | MissingEnum(qualifiedName: string)
    | EmptyModulePath(qualifiedName: string)

  // ---------------------------------------------------------------------------
  // Strings
  // ---------------------------------------------------------------------------

  predicate IsLower(c: char) { 'a' <= c <= 'z' }

  predicate IsUpper(c: char) { 'A' <= c <= 'Z' }

  predicate IsDigitChar(c: char) { '0' <= c <= '9' }

  function ToLower(c: char): char
  {
    if IsUpper(c) then (c as int - 'A' as int + 'a' as int) as char else c
  }

  /** `s.starts_with(p)` on strings: a raw character prefix, not aligned to segments. */
  predicate IsPrefix(p: string, s: string)
  {
    |p| <= |s| && s[..|p|] == p
  }

  /** `segs.join(sep)`. */
  function Join(segs: seq<string>, sep: string): string
  {
    if segs == [] then "" else if |segs| == 1 then segs[0] else segs[0] + sep + Join(segs[1..], sep)
  }

  predicate IsAlnum(c: char) { IsLower(c) || IsUpper(c) || IsDigitChar(c) }

  /**
   * The snake-casing applied to module names (an external library in the
   * source). Like that library, this stand-in splits the text into words at
   * every character that is not alphanumeric, splits each word again where a
   * capital follows a lower-case letter or a digit, lower-cases the words and
   * joins them with single underscores. Separators at either end or in a row
   * therefore leave no trace.
   */
  function SnakeCase(s: string): string
  {
    Join(LowerAll(CaseWords(Pieces(s, ""))), "_")
  }

  /**
   * The maximal runs of alphanumeric characters of `cur + s`, where `cur` is
   * the run read so far.
   */
  function Pieces(s: string, cur: string): (r: seq<string>)
    requires forall j :: 0 <= j < |cur| ==> IsAlnum(cur[j])
    ensures forall i :: 0 <= i < |r| ==> |r[i]| > 0 && forall j :: 0 <= j < |r[i]| ==> IsAlnum(r[i][j])
    decreases |s|
  {
    if s == [] then (if cur == [] then [] else [cur])
    else if IsAlnum(s[0]) then Pieces(s[1..], cur + [s[0]])
    else (if cur == [] then [] else [cur]) + Pieces(s[1..], "")
  }

  /** Each piece split at its case boundaries, in order. */
  function CaseWords(ps: seq<string>): seq<string>
  {
    if ps == [] then [] else CaseSplit(ps[0], "") + CaseWords(ps[1..])
  }

  /** `cur + w` split before every capital that follows a lower-case letter or a digit. */
  function CaseSplit(w: string, cur: string): seq<string>
    decreases |w|
  {
    if w == [] then (if cur == [] then [] else [cur])
    else if IsUpper(w[0]) && |cur| > 0 && (IsLower(cur[|cur| - 1]) || IsDigitChar(cur[|cur| - 1])) then
      [cur] + CaseSplit(w[1..], [w[0]])
    else CaseSplit(w[1..], cur + [w[0]])
  }

  function LowerWord(w: string): string
  {
    seq(|w|, i requires 0 <= i < |w| => ToLower(w[i]))
  }

  function LowerAll(ws: seq<string>): seq<string>
  {
    seq(|ws|, i requires 0 <= i < |ws| => LowerWord(ws[i]))
  }

  predicate NoUpper(s: string)
  {
    forall i :: 0 <= i < |s| ==> !IsUpper(s[i])
  }

  /**
   * A name already in snake case: lower-case letters and digits, with single
   * underscores between them and none at either end.
   */
  predicate SnakeName(s: string)
  {
    (forall i :: 0 <= i < |s| ==> IsLower(s[i]) || IsDigitChar(s[i]) || s[i] == '_') &&
    (|s| > 0 ==> s[0] != '_' && s[|s| - 1] != '_') &&
    (forall i :: 0 <= i < |s| - 1 ==> !DoubleAt(s, i))
  }

  /** Two underscores in a row, at `i` and `i + 1`. */
  predicate DoubleAt(s: string, i: nat)
    requires i + 1 < |s|
  {
    s[i] == '_' && s[i + 1] == '_'
  }

  /** A name already in snake case is left as it is. */
  lemma SnakeCaseKeepsLowercase(s: string)
    requires SnakeName(s)
    ensures SnakeCase(s) == s
  {
    var ps := Pieces(s, "");
    assert "" + s == s;
    PiecesOfSnakeName(s, "");
    CaseWordsOfLower(ps);
    LowerAllOfLower(ps);
  }

  /**
   * Splitting the rest `s` of a snake-case name `cur + s` gives pieces without
   * capitals that join back to the name.
   */
  lemma {:induction false} PiecesOfSnakeName(s: string, cur: string)
    requires forall j :: 0 <= j < |cur| ==> IsLower(cur[j]) || IsDigitChar(cur[j])
    requires SnakeName(cur + s)
    ensures Join(Pieces(s, cur), "_") == cur + s
    ensures |cur + s| > 0 ==> Pieces(s, cur) != []
    ensures forall i :: 0 <= i < |Pieces(s, cur)| ==> NoUpper(Pieces(s, cur)[i])
    decreases |s|
  {
    var t := cur + s;
    if s == [] {
      assert t == cur;
    } else if IsAlnum(s[0]) {
      assert t[|cur|] == s[0];
      var cur' := cur + [s[0]];
      assert forall j :: 0 <= j < |cur'| ==> IsLower(cur'[j]) || IsDigitChar(cur'[j]);
      assert cur' + s[1..] == t;
      PiecesOfSnakeName(s[1..], cur');
    } else {
      SnakeBreak(cur, s);
      assert "" + s[1..] == s[1..];
      PiecesOfSnakeName(s[1..], "");
      PiecesAtBreak(s, cur);
    }
  }

  /** A separator at the start leaves no trace. */
  lemma SnakeCaseLeadingSeparator(c: char, s: string)
    requires !IsAlnum(c)
    ensures SnakeCase([c] + s) == SnakeCase(s)
  {
    assert ([c] + s)[1..] == s;
    assert Pieces([c] + s, "") == [] + Pieces(s, "") == Pieces(s, "");
  }

  /** A separator at the end leaves no trace. */
  lemma SnakeCaseTrailingSeparator(s: string, c: char)
    requires !IsAlnum(c)
    ensures SnakeCase(s + [c]) == SnakeCase(s)
  {
    PiecesTrailing(s, "", c);
  }

  /** Two separators in a row split the text as one does. */
  lemma SnakeCaseRepeatedSeparator(a: string, c: char, d: char, b: string)
    requires !IsAlnum(c) && !IsAlnum(d)
    ensures SnakeCase(a + [c, d] + b) == SnakeCase(a + [c] + b)
  {
    PiecesRepeated(a, c, d, b, "");
  }

  lemma {:induction false} PiecesTrailing(s: string, cur: string, c: char)
    requires !IsAlnum(c) && forall j :: 0 <= j < |cur| ==> IsAlnum(cur[j])
    ensures Pieces(s + [c], cur) == Pieces(s, cur)
    decreases |s|
  {
    if s == [] {
      assert s + [c] == [c] && [c][1..] == [];
    } else {
      assert (s + [c])[0] == s[0] && (s + [c])[1..] == s[1..] + [c];
      if IsAlnum(s[0]) {
        PiecesTrailing(s[1..], cur + [s[0]], c);
      } else {
        PiecesTrailing(s[1..], "", c);
      }
    }
  }

  lemma {:induction false} PiecesRepeated(a: string, c: char, d: char, b: string, cur: string)
    requires !IsAlnum(c) && !IsAlnum(d) && forall j :: 0 <= j < |cur| ==> IsAlnum(cur[j])
    ensures Pieces(a + [c, d] + b, cur) == Pieces(a + [c] + b, cur)
    decreases |a|
  {
    var long, short := a + [c, d] + b, a + [c] + b;
    if a == [] {
      assert long[0] == c && long[1..] == [d] + b;
      assert short[0] == c && short[1..] == b;
      assert ([d] + b)[1..] == b;
      assert Pieces([d] + b, "") == [] + Pieces(b, "");
    } else {
      assert long[0] == a[0] && long[1..] == a[1..] + [c, d] + b;
      assert short[0] == a[0] && short[1..] == a[1..] + [c] + b;
      if IsAlnum(a[0]) {
        PiecesRepeated(a[1..], c, d, b, cur + [a[0]]);
      } else {
        PiecesRepeated(a[1..], c, d, b, "");
      }
    }
  }

  /**
   * At an underscore of a snake-case name `cur + s`, the run read so far is
   * not empty and what follows is again a non-empty snake-case name.
   */
  lemma SnakeBreak(cur: string, s: string)
    requires SnakeName(cur + s) && |s| > 0 && !IsAlnum(s[0])
    ensures s[0] == '_' && |cur| > 0 && |s| > 1 && SnakeName(s[1..])
  {
    var t, k := cur + s, |cur|;
    assert t[k] == s[0] == '_';
    assert k + 1 < |t|;
    assert !DoubleAt(t, k);
    var u := s[1..];
    assert forall i :: 0 <= i < |u| ==> u[i] == t[k + 1 + i];
    forall i | 0 <= i < |u| - 1
      ensures !DoubleAt(u, i)
    {
      assert !DoubleAt(t, k + 1 + i);
    }
  }

  /** At an underscore the run read so far is closed, and the pieces of the rest follow it. */
  lemma PiecesAtBreak(s: string, cur: string)
    requires |s| > 0 && s[0] == '_' && |cur| > 0
    requires forall j :: 0 <= j < |cur| ==> IsLower(cur[j]) || IsDigitChar(cur[j])
    requires Pieces(s[1..], "") != [] && Join(Pieces(s[1..], ""), "_") == s[1..]
    requires forall i :: 0 <= i < |Pieces(s[1..], "")| ==> NoUpper(Pieces(s[1..], "")[i])
    ensures Join(Pieces(s, cur), "_") == cur + s && Pieces(s, cur) != []
    ensures forall i :: 0 <= i < |Pieces(s, cur)| ==> NoUpper(Pieces(s, cur)[i])
  {
    var rest := Pieces(s[1..], "");
    assert Pieces(s, cur) == [cur] + rest;
    JoinCons(cur, rest, "_");
    assert s == "_" + s[1..];
    forall i | 0 <= i < |[cur] + rest|
      ensures NoUpper(([cur] + rest)[i])
    {
      if i > 0 {
        assert ([cur] + rest)[i] == rest[i - 1];
      }
    }
  }

  /** A word of lower-case letters alone is a snake-case name. */
  lemma LettersSnakeName(s: string)
    requires forall i :: 0 <= i < |s| ==> IsLower(s[i])
    ensures SnakeName(s)
  {
    forall i | 0 <= i < |s| - 1
      ensures !DoubleAt(s, i)
    {
    }
  }

  /** Joining a non-empty list behind a first element. */
  lemma JoinCons(x: string, rest: seq<string>, sep: string)
    requires rest != []
    ensures Join([x] + rest, sep) == x + sep + Join(rest, sep)
  {
    assert ([x] + rest)[1..] == rest;
  }

  lemma LowerAllOfLower(ws: seq<string>)
    requires forall i :: 0 <= i < |ws| ==> NoUpper(ws[i])
    ensures LowerAll(ws) == ws
  {
    forall i | 0 <= i < |ws|
      ensures LowerAll(ws)[i] == ws[i]
    {
      LowerWordOfLower(ws[i]);
    }
  }

  /** Words without capitals have no case boundary. */
  lemma {:induction false} CaseWordsOfLower(ps: seq<string>)
    requires forall i :: 0 <= i < |ps| ==> |ps[i]| > 0 && NoUpper(ps[i])
    ensures CaseWords(ps) == ps
  {
    if ps != [] {
      CaseSplitOfLower(ps[0], "");
      assert "" + ps[0] == ps[0];
      CaseWordsOfLower(ps[1..]);
      assert ps == [ps[0]] + ps[1..];
    }
  }

  lemma {:induction false} CaseSplitOfLower(w: string, cur: string)
    requires NoUpper(w) && |cur + w| > 0
    ensures CaseSplit(w, cur) == [cur + w]
    decreases |w|
  {
    if w == [] {
      assert cur + w == cur;
    } else {
      assert !IsUpper(w[0]);
      assert CaseSplit(w, cur) == CaseSplit(w[1..], cur + [w[0]]);
      assert (cur + [w[0]]) + w[1..] == cur + w;
      CaseSplitOfLower(w[1..], cur + [w[0]]);
    }
  }

  lemma LowerWordOfLower(w: string)
    requires NoUpper(w)
    ensures LowerWord(w) == w
  {
  }

  // ---------------------------------------------------------------------------
  // Identifier::package_path
  // ---------------------------------------------------------------------------

  /** The first character of the segment exists and is lower-case. */
  predicate LowerInitial(seg: string)
  {
    |seg| > 0 && IsLower(seg[0])
  }

  /**
   * Position of the first segment whose first character is not lower-case,
   * or |path| when there is none. The scan reads the first character of each
   * segment it reaches, so it stops with None at an empty segment.
   */
  function LeadingLowercase(path: seq<string>): (r: Option<nat>)
    ensures r.Some? ==> r.value <= |path|
    ensures r.Some? ==> forall i :: 0 <= i < r.value ==> LowerInitial(path[i])
    ensures r.Some? && r.value < |path| ==> |path[r.value]| > 0 && !IsLower(path[r.value][0])
    ensures r.None? ==> exists k :: 0 <= k < |path| && path[k] == [] &&
                          forall i :: 0 <= i < k ==> LowerInitial(path[i])
  {
    if path == [] then Some(0)
    else if path[0] == [] then None
    else if !IsLower(path[0][0]) then Some(0)
    else
      match LeadingLowercase(path[1..])
      case None =>
        ghost var k :| 0 <= k < |path[1..]| && path[1..][k] == [] &&
                       forall i :: 0 <= i < k ==> LowerInitial(path[1..][i]);
        assert path[k + 1] == [] && forall i :: 0 <= i < k + 1 ==> LowerInitial(path[i]);
        None
      case Some(n) => Some(n + 1)
  }

  /**
   * Identifier::package_path: the package part of the path, i.e. its longest
   * leading run of segments starting with a lower-case letter. Fails where the
   * source panics: at an empty segment reached by the scan.
   */
  function PackagePath(id: Identifier): (r: Result<seq<string>, GenerationError>)
    ensures r.Ok? ==> |r.value| <= |id.path| && r.value == id.path[..|r.value|]
    ensures r.Ok? ==> forall i :: 0 <= i < |r.value| ==> LowerInitial(r.value[i])
    ensures r.Ok? && |r.value| < |id.path| ==> !LowerInitial(id.path[|r.value|])
    ensures (forall i :: 0 <= i < |id.path| ==> LowerInitial(id.path[i])) ==> r == Ok(id.path)
    ensures r.Err? <==> exists k :: 0 <= k < |id.path| && id.path[k] == [] &&
                          forall i :: 0 <= i < k ==> LowerInitial(id.path[i])
  {
    match LeadingLowercase(id.path)
    case None => Err(EmptySegment(id.qualifiedName))
    case Some(n) =>
      if n < |id.path| then
        assert !LowerInitial(id.path[n]);
        Ok(id.path[..n])
      else
        assert id.path[..n] == id.path;
        Ok(id.path[..n])
  }

  // ---------------------------------------------------------------------------
  // Identifier::module_path
  // ---------------------------------------------------------------------------

  /**
   * Identifier::module_path: every segment but the item's own name, in order,
   * each snake-cased. An identifier's path is never empty (a bundle invariant).
   */
  function ModulePath(id: Identifier): (r: seq<string>)
    requires |id.path| > 0
    ensures |r| == |id.path| - 1
    ensures forall i :: 0 <= i < |r| ==> r[i] == SnakeCase(id.path[i])
  {
    SnakeSegments(id.path[..|id.path| - 1])
  }

  function SnakeSegments(segs: seq<string>): (r: seq<string>)
    ensures |r| == |segs|
    ensures forall i :: 0 <= i < |r| ==> r[i] == SnakeCase(segs[i])
  {
    if segs == [] then [] else [SnakeCase(segs[0])] + SnakeSegments(segs[1..])
  }

  // ---------------------------------------------------------------------------
  // Identifier::reference_path
  // ---------------------------------------------------------------------------

  /**
   * The dependency map (package-name prefix to import root), as the sequence
   * of its entries in the order the map's iteration yields them.
   */
  type Dependencies = seq<(string, string)>

  /** A map never holds a key twice. */
  predicate DistinctKeys(deps: Dependencies)
  {
    forall i, j :: 0 <= i < j < |deps| ==> deps[i].0 != deps[j].0
  }

  /**
   * The filter-then-fold over the dependency entries: among the entries whose
   * key is a prefix of `name`, keep the first one met of strictly greatest
   * key length.
   */
  function SelectDependency(deps: Dependencies, name: string): (r: Option<(string, string)>)
    ensures r.None? <==> forall i :: 0 <= i < |deps| ==> !IsPrefix(deps[i].0, name)
    ensures r.Some? ==> exists j :: 0 <= j < |deps| && deps[j] == r.value &&
                          forall i :: 0 <= i < j && IsPrefix(deps[i].0, name) ==> |deps[i].0| < |r.value.0|
    ensures r.Some? ==> IsPrefix(r.value.0, name)
    ensures r.Some? ==> forall i :: 0 <= i < |deps| && IsPrefix(deps[i].0, name) ==> |deps[i].0| <= |r.value.0|
  {
    if deps == [] then None
    else
      var init := deps[..|deps| - 1];
      var last := deps[|deps| - 1];
      var acc := SelectDependency(init, name);
      assert forall i :: 0 <= i < |init| ==> init[i] == deps[i];
      if !IsPrefix(last.0, name) then acc
      else match acc
        case None => Some(last)
        case Some(longest) => if |last.0| > |longest.0| then Some(last) else acc
  }

  /** Two keys that are both prefixes of one name and have the same length are the same key. */
  lemma PrefixOfSameLength(a: string, b: string, s: string)
    requires IsPrefix(a, s) && IsPrefix(b, s) && |a| == |b|
    ensures a == b
  {
  }

  /**
   * The selected entry does not depend on the map's iteration order: any
   * enumeration of the same entries selects the same one.
   */
  lemma SelectDependencyOrderIndependent(d1: Dependencies, d2: Dependencies, name: string)
    requires DistinctKeys(d1)
    requires forall e :: e in d1 <==> e in d2
    ensures SelectDependency(d1, name) == SelectDependency(d2, name)
  {
    var r1, r2 := SelectDependency(d1, name), SelectDependency(d2, name);
    if r1.None? {
      forall i | 0 <= i < |d2| ensures !IsPrefix(d2[i].0, name) {
        assert d2[i] in d1;
      }
    } else {
      assert r1.value in d2;
      var j2 :| 0 <= j2 < |d2| && d2[j2] == r2.value;
      assert r2.value in d1;
      var j1 :| 0 <= j1 < |d1| && d1[j1] == r1.value;
      var i1 :| 0 <= i1 < |d1| && d1[i1] == r2.value;
      assert |r1.value.0| == |r2.value.0|;
      PrefixOfSameLength(r1.value.0, r2.value.0, name);
      assert i1 == j1;
    }
  }

  /**
   * Identifier::reference_path: the import root of the longest dependency key
   * that prefixes the qualified name, then the snake-cased module path and the
   * item's name, all joined by "::". Fails where the source panics: no key
   * matches, or the path is empty.
   */
  function ReferencePath(id: Identifier, deps: Dependencies): (r: Result<string, GenerationError>)
    ensures r.Ok? <==> |id.path| > 0 && exists i :: 0 <= i < |deps| && IsPrefix(deps[i].0, id.qualifiedName)
    ensures (forall i :: 0 <= i < |deps| ==> !IsPrefix(deps[i].0, id.qualifiedName)) ==>
              r == Err(UnresolvedDependency(id.qualifiedName))
    ensures r.Ok? ==>
              (exists i :: 0 <= i < |deps| && IsPrefix(deps[i].0, id.qualifiedName) &&
                 (forall j :: 0 <= j < |deps| && IsPrefix(deps[j].0, id.qualifiedName) ==> |deps[j].0| <= |deps[i].0|) &&
                 r.value == deps[i].1 + "::" + Join(ModulePath(id) + [id.path[|id.path| - 1]], "::"))
  {
    match SelectDependency(deps, id.qualifiedName)
    case None => Err(UnresolvedDependency(id.qualifiedName))
    case Some(entry) =>
      if |id.path| == 0 then Err(EmptyPath(id.qualifiedName))
      else Ok(entry.1 + "::" + Join(ModulePath(id) + [id.path[|id.path| - 1]], "::"))
  }

  /** The dependency map of the reference_path unit test: four nested packages. */
  function NestedPackages(): Dependencies
  {
    [("foo", "foo::schema"), ("foo.bar", "bar::schema"),
     ("foo.bar.baz", "baz::schema"), ("foo.bar.baz.quux", "quux::schema")]
  }

  /**
   * The unit test of reference_path: with the nested packages foo, foo.bar,
   * foo.bar.baz and foo.bar.baz.quux all listed, in whatever order the map
   * yields them, foo.bar.baz.quux.SomeType resolves through foo.bar.baz.quux.
   */
  lemma ReferencePathNestedPackages(deps: Dependencies)
    requires forall e :: e in deps <==> e in NestedPackages()
    ensures ReferencePath(Identifier("foo.bar.baz.quux.SomeType", "SomeType", ["foo", "bar", "baz", "quux", "SomeType"]), deps)
            == Ok("quux::schema::foo::bar::baz::quux::SomeType")
  {
    var id := Identifier("foo.bar.baz.quux.SomeType", "SomeType", ["foo", "bar", "baz", "quux", "SomeType"]);
    NestedPackagesDistinct();
    SelectDependencyOrderIndependent(NestedPackages(), deps, id.qualifiedName);
    SelectNestedPackages(id.qualifiedName);
    NestedModulePath(id);
    JoinNested();
    ReferencePathOfSelection(id, deps, ("foo.bar.baz.quux", "quux::schema"));
    var tail := Join(ModulePath(id) + [id.path[|id.path| - 1]], "::");
    assert tail == "foo::bar::baz::quux::SomeType";
    PrefixNestedRoot(tail);
  }

  lemma PrefixNestedRoot(tail: string)
    requires tail == "foo::bar::baz::quux::SomeType"
    ensures "quux::schema" + "::" + tail == "quux::schema::foo::bar::baz::quux::SomeType"
  {
  }

  /** Once the dependency is selected, the path is its root followed by the module path and the name. */
  lemma ReferencePathOfSelection(id: Identifier, deps: Dependencies, entry: (string, string))
    requires |id.path| > 0
    requires SelectDependency(deps, id.qualifiedName) == Some(entry)
    ensures ReferencePath(id, deps) == Ok(entry.1 + "::" + Join(ModulePath(id) + [id.path[|id.path| - 1]], "::"))
  {
  }

  lemma NestedPackagesDistinct()
    ensures DistinctKeys(NestedPackages())
  {
  }

  lemma NestedModulePath(id: Identifier)
    requires id.path == ["foo", "bar", "baz", "quux", "SomeType"]
    ensures ModulePath(id) + [id.path[4]] == ["foo", "bar", "baz", "quux", "SomeType"]
  {
    var path := id.path;
    LettersSnakeName(path[0]);
    LettersSnakeName(path[1]);
    LettersSnakeName(path[2]);
    LettersSnakeName(path[3]);
    ModulePathOfLowercase(id);
    assert path[..4] + [path[4]] == path;
  }

  /** Module segments that are already snake case come out unchanged. */
  lemma ModulePathOfLowercase(id: Identifier)
    requires |id.path| > 0
    requires forall i :: 0 <= i < |id.path| - 1 ==> SnakeName(id.path[i])
    ensures ModulePath(id) == id.path[..|id.path| - 1]
  {
    forall i | 0 <= i < |id.path| - 1
      ensures ModulePath(id)[i] == id.path[i]
    {
      SnakeCaseKeepsLowercase(id.path[i]);
    }
  }

  lemma SelectNestedPackages(name: string)
    requires name == "foo.bar.baz.quux.SomeType"
    ensures SelectDependency(NestedPackages(), name) == Some(("foo.bar.baz.quux", "quux::schema"))
  {
    assert IsPrefix("foo.bar.baz.quux", name);
    assert IsPrefix("foo.bar.baz", name);
    assert IsPrefix("foo.bar", name);
    assert IsPrefix("foo", name);
  }

  lemma JoinStep(segs: seq<string>, sep: string, tail: string)
    requires |segs| > 1 && Join(segs[1..], sep) == tail
    ensures Join(segs, sep) == segs[0] + sep + tail
  {
  }

  lemma JoinNested()
    ensures Join(["foo", "bar", "baz", "quux", "SomeType"], "::") == "foo::bar::baz::quux::SomeType"
  {
    var s := ["foo", "bar", "baz", "quux", "SomeType"];
    assert Join(s[4..], "::") == "SomeType";
    assert s[3..][1..] == s[4..];
    JoinStep(s[3..], "::", "SomeType");
    JoinStep(s[2..], "::", "quux::SomeType");
  }

  // ---------------------------------------------------------------------------
  // PrimitiveType::to_tokens
  // ---------------------------------------------------------------------------

  /** The Rust type a primitive field is generated as; `Invalid` has none (the source panics). */
  function PrimitiveTokens(p: PrimitiveType): (r: Result<string, GenerationError>)
    ensures r.Err? <==> p == Invalid
  {
    match p
    case Invalid => Err(InvalidPrimitive)
    case Int32 | Sint32 | Sfixed32 => Ok("i32")
    case Int64 | Sint64 | Sfixed64 => Ok("i64")
    case Uint32 | Fixed32 => Ok("u32")
    case Uint64 | Fixed64 => Ok("u64")
    case Bool => Ok("bool")
    case Float => Ok("f32")
    case Double => Ok("f64")
    case String => Ok("String")
    case Bytes => Ok("Vec<u8>")
    case EntityId => Ok("spatialos_sdk::worker::EntityId")
  }

  /** The primitives that are not integers render as their fixed Rust types; Invalid is the one failure. */
  lemma PrimitiveTokensNonInteger(p: PrimitiveType)
    requires IntegerKind(p).None?
    ensures p == Invalid <==> PrimitiveTokens(p) == Err(InvalidPrimitive)
    ensures p == Bool ==> PrimitiveTokens(p) == Ok("bool")
    ensures p == Float ==> PrimitiveTokens(p) == Ok("f32")
    ensures p == Double ==> PrimitiveTokens(p) == Ok("f64")
    ensures p == String ==> PrimitiveTokens(p) == Ok("String")
    ensures p == Bytes ==> PrimitiveTokens(p) == Ok("Vec<u8>")
    ensures p == EntityId ==> PrimitiveTokens(p) == Ok("spatialos_sdk::worker::EntityId")
  {
  }

  /**
   * What an integer kind holds on the wire, independent of code generation:
   * (signed, bit width). Varint, zig-zag and fixed encodings of one width carry
   * the same values.
   */
  function IntegerKind(p: PrimitiveType): Option<(bool, nat)>
  {
    match p
    case Int32 => Some((true, 32))
    case Sint32 => Some((true, 32))
    case Sfixed32 => Some((true, 32))
    case Int64 => Some((true, 64))
    case Sint64 => Some((true, 64))
    case Sfixed64 => Some((true, 64))
    case Uint32 => Some((false, 32))
    case Fixed32 => Some((false, 32))
    case Uint64 => Some((false, 64))
    case Fixed64 => Some((false, 64))
    case _ => None
  }

  /** Every integer kind becomes the Rust integer of its signedness and width. */
  lemma PrimitiveTokensMatchIntegerKind(p: PrimitiveType)
    requires IntegerKind(p).Some?
    ensures PrimitiveTokens(p) == Ok((if IntegerKind(p).value.0 then "i" else "u") + DecimalString(IntegerKind(p).value.1))
  {
    var (signed, width) := IntegerKind(p).value;
    if width == 32 {
      DecimalThirtyTwo();
      assert (if signed then "i" else "u") + "32" == (if signed then "i32" else "u32");
    } else {
      DecimalSixtyFour();
      assert (if signed then "i" else "u") + "64" == (if signed then "i64" else "u64");
    }
  }

  lemma DecimalThirtyTwo()
    ensures DecimalString(32) == "32"
  {
    assert NatDigits(3) == "3";
    assert NatDigits(32) == NatDigits(3) + [Digit(2)];
  }

  lemma DecimalSixtyFour()
    ensures DecimalString(64) == "64"
  {
    assert NatDigits(6) == "6";
    assert NatDigits(64) == NatDigits(6) + [Digit(4)];
  }

  // ---------------------------------------------------------------------------
  // SchemaBundleV1::get_referenced_type
  // ---------------------------------------------------------------------------

  /** Index of the first definition whose name is `qn` (`Iterator::find`). */
  function FirstNamed<T>(defs: seq<T>, nameOf: T -> string, qn: string): (r: Option<nat>)
    ensures r.Some? ==> r.value < |defs| && nameOf(defs[r.value]) == qn
    ensures r.Some? ==> forall i :: 0 <= i < r.value ==> nameOf(defs[i]) != qn
    ensures r.None? <==> forall i :: 0 <= i < |defs| ==> nameOf(defs[i]) != qn
  {
    if defs == [] then None
    else if nameOf(defs[0]) == qn then Some(0)
    else match FirstNamed(defs[1..], nameOf, qn)
      case None => None
      case Some(k) => Some(k + 1)
  }

  function TypeName(def: TypeDefinition): string { def.identifier.qualifiedName }

  function EnumName(def: EnumDefinition): string { def.identifier.qualifiedName }

  /** SchemaBundleV1::get_referenced_type: the first type definition with the referenced name. */
  function GetReferencedType(bundle: SchemaBundleV1, typeRef: TypeReference): (r: Result<TypeDefinition, GenerationError>)
    ensures r.Ok? ==> exists i :: 0 <= i < |bundle.typeDefinitions| && bundle.typeDefinitions[i] == r.value &&
                        forall j :: 0 <= j < i ==> TypeName(bundle.typeDefinitions[j]) != typeRef.qualifiedName
    ensures r.Ok? ==> r.value.identifier.qualifiedName == typeRef.qualifiedName
    ensures r.Err? <==> forall i :: 0 <= i < |bundle.typeDefinitions| ==> TypeName(bundle.typeDefinitions[i]) != typeRef.qualifiedName
    ensures r.Err? ==> r.error == MissingType(typeRef.qualifiedName)
  {
    match FirstNamed(bundle.typeDefinitions, TypeName, typeRef.qualifiedName)
    case None => Err(MissingType(typeRef.qualifiedName))
    case Some(i) => Ok(bundle.typeDefinitions[i])
  }
}
