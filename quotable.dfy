/**
 * Rendering of field types and of references to named types and enums
 * (spatialos-sdk-code-generator/src/schema_bundle/quotable.rs). Each renderer
 * returns the text fragment it would append to the token stream, or the
 * error that stands for the source's panic.
 *
 * The source's quotable wrappers carry the bundle and are meant to carry the
 * dependency map as well; here both are explicit parameters.
 */
module Quotable {
  import opened Wrappers
  import opened SchemaBundle
  import Scalars

  /** quotable::TypeReference::to_tokens: the reference path of the first type definition so named. */
  function TypeReferenceTokens(bundle: SchemaBundleV1, deps: Dependencies, typeRef: TypeReference)
    : (r: Result<string, GenerationError>)
    ensures (forall i :: 0 <= i < |bundle.typeDefinitions| ==> TypeName(bundle.typeDefinitions[i]) != typeRef.qualifiedName)
            ==> r == Err(MissingType(typeRef.qualifiedName))
    ensures r.Ok? ==> exists i :: 0 <= i < |bundle.typeDefinitions| &&
                        TypeName(bundle.typeDefinitions[i]) == typeRef.qualifiedName &&
                        (forall j :: 0 <= j < i ==> TypeName(bundle.typeDefinitions[j]) != typeRef.qualifiedName) &&
                        r == ReferencePath(bundle.typeDefinitions[i].identifier, deps)
  {
    match FirstNamed(bundle.typeDefinitions, TypeName, typeRef.qualifiedName)
    case None => Err(MissingType(typeRef.qualifiedName))
    case Some(i) => ReferencePath(bundle.typeDefinitions[i].identifier, deps)
  }

  /** quotable::EnumReference::to_tokens: the reference path of the first enum definition so named. */
  function EnumReferenceTokens(bundle: SchemaBundleV1, deps: Dependencies, enumRef: EnumReference)
    : (r: Result<string, GenerationError>)
    ensures (forall i :: 0 <= i < |bundle.enumDefinitions| ==> EnumName(bundle.enumDefinitions[i]) != enumRef.qualifiedName)
            ==> r == Err(MissingEnum(enumRef.qualifiedName))
    ensures r.Ok? ==> exists i :: 0 <= i < |bundle.enumDefinitions| &&
                        EnumName(bundle.enumDefinitions[i]) == enumRef.qualifiedName &&
                        (forall j :: 0 <= j < i ==> EnumName(bundle.enumDefinitions[j]) != enumRef.qualifiedName) &&
                        r == ReferencePath(bundle.enumDefinitions[i].identifier, deps)
  {
    match FirstNamed(bundle.enumDefinitions, EnumName, enumRef.qualifiedName)
    case None => Err(MissingEnum(enumRef.qualifiedName))
    case Some(i) => ReferencePath(bundle.enumDefinitions[i].identifier, deps)
  }

  /** quotable::ValueTypeReference::to_tokens: dispatch on the kind of value type. */
  function ValueTypeTokens(bundle: SchemaBundleV1, deps: Dependencies, v: ValueTypeReference)
    : (r: Result<string, GenerationError>)
    ensures v.Primitive? ==> (r.Ok? <==> v.primitive != Invalid)
    ensures v.TypeRef? && (forall i :: 0 <= i < |bundle.typeDefinitions| ==>
                             TypeName(bundle.typeDefinitions[i]) != v.typeRef.qualifiedName)
            ==> r == Err(MissingType(v.typeRef.qualifiedName))
    ensures v.EnumRef? && (forall i :: 0 <= i < |bundle.enumDefinitions| ==>
                             EnumName(bundle.enumDefinitions[i]) != v.enumRef.qualifiedName)
            ==> r == Err(MissingEnum(v.enumRef.qualifiedName))
    ensures r.Ok? && v.TypeRef? ==>
              (exists i :: 0 <= i < |bundle.typeDefinitions| &&
                 TypeName(bundle.typeDefinitions[i]) == v.typeRef.qualifiedName &&
                 r == ReferencePath(bundle.typeDefinitions[i].identifier, deps))
    ensures r.Ok? && v.EnumRef? ==>
              (exists i :: 0 <= i < |bundle.enumDefinitions| &&
                 EnumName(bundle.enumDefinitions[i]) == v.enumRef.qualifiedName &&
                 r == ReferencePath(bundle.enumDefinitions[i].identifier, deps))
  {
    match v
    case Primitive(p) => PrimitiveTokens(p)
    case EnumRef(e) => EnumReferenceTokens(bundle, deps, e)
    case TypeRef(t) => TypeReferenceTokens(bundle, deps, t)
  }

  /** Wraps the rendering of the inner type, passing a failure through. */
  function Wrap(open: string, inner: Result<string, GenerationError>, close: string)
    : (r: Result<string, GenerationError>)
    ensures r.Ok? <==> inner.Ok?
    ensures r.Err? ==> r == inner
  {
    match inner
    case Ok(text) => Ok(open + text + close)
    case Err(e) => Err(e)
  }

  /**
   * quotable::FieldTypeDefinition::to_tokens: a singular field is its value
   * type, an optional one `Option<..>`, a list `Vec<..>`, a map
   * `std::collections::BTreeMap<key, value>`. The first failing component
   * (the key before the value) decides the error.
   */
  function FieldTypeTokens(bundle: SchemaBundleV1, deps: Dependencies, f: FieldTypeDefinition)
    : (r: Result<string, GenerationError>)
    ensures r.Ok? <==> forall i :: 0 <= i < |ValueTypesOf(f)| ==> ValueTypeTokens(bundle, deps, ValueTypesOf(f)[i]).Ok?
    ensures r.Err? ==>
              (exists i :: 0 <= i < |ValueTypesOf(f)| &&
                 ValueTypeTokens(bundle, deps, ValueTypesOf(f)[i]) == Err(r.error) &&
                 forall j :: 0 <= j < i ==> ValueTypeTokens(bundle, deps, ValueTypesOf(f)[j]).Ok?)
  {
    match f
    case Singular(ty) =>
      assert ValueTypesOf(f) == [ty] && ValueTypesOf(f)[0] == ty;
      ValueTypeTokens(bundle, deps, ty)
    case Optional(inner) =>
      assert ValueTypesOf(f) == [inner] && ValueTypesOf(f)[0] == inner;
      Wrap("Option<", ValueTypeTokens(bundle, deps, inner), ">")
    case List(inner) =>
      assert ValueTypesOf(f) == [inner] && ValueTypesOf(f)[0] == inner;
      Wrap("Vec<", ValueTypeTokens(bundle, deps, inner), ">")
    case Map(key, value) =>
      assert ValueTypesOf(f) == [key, value] && ValueTypesOf(f)[0] == key && ValueTypesOf(f)[1] == value;
      match ValueTypeTokens(bundle, deps, key)
      case Err(e) => Err(e)
      case Ok(k) => Wrap("std::collections::BTreeMap<" + k + ", ", ValueTypeTokens(bundle, deps, value), ">")
  }

  /** The value types a field type mentions, in the order they are rendered (a map's key first). */
  function ValueTypesOf(f: FieldTypeDefinition): seq<ValueTypeReference>
  {
    match f
    case Singular(ty) => [ty]
    case Optional(inner) => [inner]
    case List(inner) => [inner]
    case Map(key, value) => [key, value]
  }

  // ---------------------------------------------------------------------------
  // When rendering succeeds
  // ---------------------------------------------------------------------------

  /** The schema compiler never emits an identifier with an empty path. */
  predicate WellFormedPaths(bundle: SchemaBundleV1)
  {
    (forall i :: 0 <= i < |bundle.typeDefinitions| ==> |bundle.typeDefinitions[i].identifier.path| > 0) &&
    (forall i :: 0 <= i < |bundle.enumDefinitions| ==> |bundle.enumDefinitions[i].identifier.path| > 0)
  }

  /** Some dependency key is a raw prefix of the name. */
  predicate Covered(deps: Dependencies, qn: string)
  {
    exists j :: 0 <= j < |deps| && IsPrefix(deps[j].0, qn)
  }

  /**
   * A value type can be rendered: a primitive other than Invalid, or a name
   * declared in the list of its own kind (types for type references, enums for
   * enum references) and covered by a dependency.
   */
  predicate ValueResolvable(bundle: SchemaBundleV1, deps: Dependencies, v: ValueTypeReference)
  {
    match v
    case Primitive(p) => p != Invalid
    case EnumRef(e) =>
      (exists i :: 0 <= i < |bundle.enumDefinitions| && EnumName(bundle.enumDefinitions[i]) == e.qualifiedName) &&
      Covered(deps, e.qualifiedName)
    case TypeRef(t) =>
      (exists i :: 0 <= i < |bundle.typeDefinitions| && TypeName(bundle.typeDefinitions[i]) == t.qualifiedName) &&
      Covered(deps, t.qualifiedName)
  }

  /** Every value type the field mentions can be rendered. */
  predicate FieldResolvable(bundle: SchemaBundleV1, deps: Dependencies, f: FieldTypeDefinition)
  {
    match f
    case Singular(ty) => ValueResolvable(bundle, deps, ty)
    case Optional(inner) => ValueResolvable(bundle, deps, inner)
    case List(inner) => ValueResolvable(bundle, deps, inner)
    case Map(key, value) => ValueResolvable(bundle, deps, key) && ValueResolvable(bundle, deps, value)
  }

  /** A value type renders exactly when it is resolvable. */
  lemma ValueTypeTokensOk(bundle: SchemaBundleV1, deps: Dependencies, v: ValueTypeReference)
    requires WellFormedPaths(bundle)
    ensures ValueTypeTokens(bundle, deps, v).Ok? <==> ValueResolvable(bundle, deps, v)
  {
    match v
    case Primitive(p) =>
    case EnumRef(e) => EnumReferenceOk(bundle, deps, e);
    case TypeRef(t) => TypeReferenceOk(bundle, deps, t);
  }

  /** An enum reference renders exactly when its name is declared and covered. */
  lemma EnumReferenceOk(bundle: SchemaBundleV1, deps: Dependencies, e: EnumReference)
    requires WellFormedPaths(bundle)
    ensures EnumReferenceTokens(bundle, deps, e).Ok? <==>
              (exists i :: 0 <= i < |bundle.enumDefinitions| && EnumName(bundle.enumDefinitions[i]) == e.qualifiedName) &&
              Covered(deps, e.qualifiedName)
  {
    var found := FirstNamed(bundle.enumDefinitions, EnumName, e.qualifiedName);
    if found.Some? {
      assert EnumName(bundle.enumDefinitions[found.value]) == e.qualifiedName;
    }
  }

  /** A type reference renders exactly when its name is declared and covered. */
  lemma TypeReferenceOk(bundle: SchemaBundleV1, deps: Dependencies, t: TypeReference)
    requires WellFormedPaths(bundle)
    ensures TypeReferenceTokens(bundle, deps, t).Ok? <==>
              (exists i :: 0 <= i < |bundle.typeDefinitions| && TypeName(bundle.typeDefinitions[i]) == t.qualifiedName) &&
              Covered(deps, t.qualifiedName)
  {
    var found := FirstNamed(bundle.typeDefinitions, TypeName, t.qualifiedName);
    if found.Some? {
      assert TypeName(bundle.typeDefinitions[found.value]) == t.qualifiedName;
    }
  }

  /** A field type renders exactly when every value type in it is resolvable. */
  lemma FieldTypeTokensOk(bundle: SchemaBundleV1, deps: Dependencies, f: FieldTypeDefinition)
    requires WellFormedPaths(bundle)
    ensures FieldTypeTokens(bundle, deps, f).Ok? <==> FieldResolvable(bundle, deps, f)
  {
    match f
    case Singular(ty) => ValueTypeTokensOk(bundle, deps, ty);
    case Optional(inner) => ValueTypeTokensOk(bundle, deps, inner);
    case List(inner) => ValueTypeTokensOk(bundle, deps, inner);
    case Map(key, value) =>
      ValueTypeTokensOk(bundle, deps, key);
      ValueTypeTokensOk(bundle, deps, value);
  }

  /**
   * The wrapper a field shape puts around its value types, read back from the
   * rendered text: the container is recognisable from the text alone.
   */
  lemma FieldTypeTokensShape(bundle: SchemaBundleV1, deps: Dependencies, f: FieldTypeDefinition)
    requires FieldTypeTokens(bundle, deps, f).Ok?
    ensures var text := FieldTypeTokens(bundle, deps, f).value;
            match f
            case Singular(ty) => text == ValueTypeTokens(bundle, deps, ty).value
            case Optional(inner) =>
              IsPrefix("Option<", text) && text[|text| - 1] == '>' &&
              text[7..|text| - 1] == ValueTypeTokens(bundle, deps, inner).value
            case List(inner) =>
              IsPrefix("Vec<", text) && text[|text| - 1] == '>' &&
              text[4..|text| - 1] == ValueTypeTokens(bundle, deps, inner).value
            case Map(key, value) =>
              var k := ValueTypeTokens(bundle, deps, key).value;
              IsPrefix("std::collections::BTreeMap<" + k + ", ", text) && text[|text| - 1] == '>' &&
              text[|k| + 29..|text| - 1] == ValueTypeTokens(bundle, deps, value).value
  {
    var text := FieldTypeTokens(bundle, deps, f).value;
    match f
    case Singular(ty) =>
    case Optional(inner) => Unwrap("Option<", ValueTypeTokens(bundle, deps, inner).value);
    case List(inner) => Unwrap("Vec<", ValueTypeTokens(bundle, deps, inner).value);
    case Map(key, value) =>
      var k := ValueTypeTokens(bundle, deps, key).value;
      Unwrap("std::collections::BTreeMap<" + k + ", ", ValueTypeTokens(bundle, deps, value).value);
  }

  /** The text between an opening fragment and the closing '>' is the wrapped text. */
  lemma Unwrap(open: string, inner: string)
    ensures var text := open + inner + ">";
            IsPrefix(open, text) && text[|text| - 1] == '>' && text[|open|..|text| - 1] == inner
  {
    var text := open + inner + ">";
    assert text[..|open|] == open;
    assert text[|open|..|text| - 1] == inner;
  }

  /** Type references are looked up among type definitions only: the enum list never matters. */
  lemma TypeReferenceIgnoresEnums(b1: SchemaBundleV1, b2: SchemaBundleV1, deps: Dependencies, typeRef: TypeReference)
    requires b1.typeDefinitions == b2.typeDefinitions
    ensures TypeReferenceTokens(b1, deps, typeRef) == TypeReferenceTokens(b2, deps, typeRef)
  {
  }

  /** Enum references are looked up among enum definitions only: the type list never matters. */
  lemma EnumReferenceIgnoresTypes(b1: SchemaBundleV1, b2: SchemaBundleV1, deps: Dependencies, enumRef: EnumReference)
    requires b1.enumDefinitions == b2.enumDefinitions
    ensures EnumReferenceTokens(b1, deps, enumRef) == EnumReferenceTokens(b2, deps, enumRef)
  {
  }

  /**
   * A type name declared only among the enums is still missing for a type
   * reference: the two lists are separate name spaces.
   */
  lemma TypeReferenceNotAnEnum(bundle: SchemaBundleV1, deps: Dependencies, qn: string)
    requires forall i :: 0 <= i < |bundle.typeDefinitions| ==> TypeName(bundle.typeDefinitions[i]) != qn
    ensures ValueTypeTokens(bundle, deps, TypeRef(TypeReference(qn))) == Err(MissingType(qn))
  {
  }

  /** EnumValueDefinition::to_tokens: `Name = value`. */
  function EnumValueTokens(v: EnumValueDefinition): (r: string)
    ensures IsPrefix(v.identifier.name + " = ", r)
    ensures Scalars.ParseDecimal(r[|v.identifier.name| + 3..]) == Some(v.value as int)
  {
    var digits := Scalars.DecimalString(v.value as int);
    Scalars.DecimalRoundTrip(v.value as int);
    var r := v.identifier.name + " = " + digits;
    assert r[..|v.identifier.name| + 3] == v.identifier.name + " = ";
    assert r[|v.identifier.name| + 3..] == digits;
    r
  }
}
