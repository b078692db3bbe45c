/**
 * Member extraction of UMLJavaUtils: the fields and methods the index
 * reports for one type become attribute and operation models, one per raw
 * member and in the same order; any failure yields an empty array.
 */
module MemberExtraction {
  import opened Wrappers
  import opened ClassDiagram
  import opened JavaModel

  /** Visibility from the modifier bits: public, then private, then protected, else package. */
  function FlagVisibility(f: Flags): (v: Visibility)
    ensures v == Public <==> f.isPublic
    ensures v == Private <==> !f.isPublic && f.isPrivate
    ensures v == Protected <==> !f.isPublic && !f.isPrivate && f.isProtected
    ensures v == Package <==> !f.isPublic && !f.isPrivate && !f.isProtected
  {
    if f.isPublic then Public
    else if f.isPrivate then Private
    else if f.isProtected then Protected
    else Package
  }

  /** A field of an interface is public whatever its flags say. */
  function FieldVisibility(ownerIsInterface: bool, f: Flags): (v: Visibility)
    ensures ownerIsInterface ==> v == Public
    ensures !ownerIsInterface ==> v == FlagVisibility(f)
  {
    if ownerIsInterface then Public else FlagVisibility(f)
  }

  /** The attribute model of one readable field. */
  function ToAttribute(f: RawField, ownerIsInterface: bool): (a: AttributeModel)
    requires f.RawField?
    ensures a.name == f.name && a.typeName == f.typeName
    ensures a.isStatic == f.flags.isStatic && a.isFinal == f.flags.isFinal && a.isEnumConstant == f.isEnumConstant
    ensures a.visibility == FieldVisibility(ownerIsInterface, f.flags)
  {
    AttributeModel(f.name, f.typeName, f.flags.isStatic, f.flags.isFinal, f.isEnumConstant,
                   FieldVisibility(ownerIsInterface, f.flags))
  }

  /** A method can be read when the index answers for it and gives a type for every parameter name. */
  predicate MethodReadable(m: RawMethod)
  {
    m.RawMethod? && |m.parameterNames| <= |m.parameterTypes|
  }

  /** The operation model of one readable method: the owner's kind plays no part. */
  function ToOperation(m: RawMethod): (op: OperationModel)
    requires MethodReadable(m)
    ensures op.name == m.name && op.typeName == m.returnType
    ensures op.visibility == FlagVisibility(m.flags)
    ensures op.isAbstract == m.flags.isAbstract && op.isStatic == m.flags.isStatic && op.isFinal == m.flags.isFinal
    ensures |op.params| == |m.parameterNames|
    ensures forall j :: 0 <= j < |op.params| ==>
      op.params[j] == Argument(m.parameterNames[j], m.parameterTypes[j])
  {
    OperationModel(m.name, m.returnType, FlagVisibility(m.flags),
                   m.flags.isAbstract, m.flags.isStatic, m.flags.isFinal,
                   seq(|m.parameterNames|, j requires 0 <= j < |m.parameterNames| =>
                     Argument(m.parameterNames[j], m.parameterTypes[j])))
  }

  /**
   * `getFields(type)`: when the fields can be listed and each can be read,
   * one attribute per field, in order; otherwise an empty array.
   */
  method GetFields(javaType: JavaType) returns (result: array<AttributeModel>)
    ensures fresh(result)
    ensures javaType.fields.None? ==> result.Length == 0
    ensures javaType.fields.Some? && (exists k :: 0 <= k < |javaType.fields.value| && javaType.fields.value[k].UnreadableField?) ==>
      result.Length == 0
    ensures javaType.fields.Some? && (forall k :: 0 <= k < |javaType.fields.value| ==> javaType.fields.value[k].RawField?) ==>
      result.Length == |javaType.fields.value| &&
      forall k :: 0 <= k < result.Length ==> result[k] == ToAttribute(javaType.fields.value[k], javaType.isInterface)
  {
    if javaType.fields.None? {
      result := new AttributeModel[0];
      return;
    }
    var fields := javaType.fields.value;
    result := new AttributeModel[|fields|];
    for i := 0 to |fields|
      invariant result.Length == |fields|
      invariant forall k :: 0 <= k < i ==> fields[k].RawField?
      invariant forall k :: 0 <= k < i ==> result[k] == ToAttribute(fields[k], javaType.isInterface)
    {
      if fields[i].UnreadableField? {
        result := new AttributeModel[0];
        return;
      }
      var field := fields[i];
      var visibility;
      if javaType.isInterface {
        visibility := Public;
      } else if field.flags.isPublic {
        visibility := Public;
      } else if field.flags.isPrivate {
        visibility := Private;
      } else if field.flags.isProtected {
        visibility := Protected;
      } else {
        visibility := Package;
      }
      result[i] := AttributeModel(field.name, field.typeName, field.flags.isStatic, field.flags.isFinal,
                                  field.isEnumConstant, visibility);
    }
  }

  /**
   * `getMethods(type)`: when the methods can be listed and each can be read,
   * one operation per method, in order; otherwise an empty array. A method
   * with fewer parameter types than parameter names fails on the missing
   * type, and the whole extraction with it.
   */
  method GetMethods(javaType: JavaType) returns (result: array<OperationModel>)
    ensures fresh(result)
    ensures javaType.methods.None? ==> result.Length == 0
    ensures javaType.methods.Some? && (exists k :: 0 <= k < |javaType.methods.value| && !MethodReadable(javaType.methods.value[k])) ==>
      result.Length == 0
    ensures javaType.methods.Some? && (forall k :: 0 <= k < |javaType.methods.value| ==> MethodReadable(javaType.methods.value[k])) ==>
      result.Length == |javaType.methods.value| &&
      forall k :: 0 <= k < result.Length ==> result[k] == ToOperation(javaType.methods.value[k])
  {
    if javaType.methods.None? {
      result := new OperationModel[0];
      return;
    }
    var methods := javaType.methods.value;
    result := new OperationModel[|methods|];
    for i := 0 to |methods|
      invariant result.Length == |methods|
      invariant forall k :: 0 <= k < i ==> MethodReadable(methods[k])
      invariant forall k :: 0 <= k < i ==> result[k] == ToOperation(methods[k])
    {
      if methods[i].UnreadableMethod? {
        result := new OperationModel[0];
        return;
      }
      var m := methods[i];
      var visibility;
      if m.flags.isPublic {
        visibility := Public;
      } else if m.flags.isPrivate {
        visibility := Private;
      } else if m.flags.isProtected {
        visibility := Protected;
      } else {
        visibility := Package;
      }
      var names := m.parameterNames;
      var types := m.parameterTypes;
      var params: seq<Argument> := [];
      for j := 0 to |names|
        invariant |params| == j && j <= |types|
        invariant forall n :: 0 <= n < j ==> params[n] == Argument(names[n], types[n])
      {
        if j >= |types| {
          // types[j] is out of bounds: the exception ends the extraction
          result := new OperationModel[0];
          return;
        }
        params := params + [Argument(names[j], types[j])];
      }
      result[i] := OperationModel(m.name, m.returnType, visibility,
                                  m.flags.isAbstract, m.flags.isStatic, m.flags.isFinal, params);
    }
  }

  /** A method of an interface with no visibility flag stays package-visible: only fields are forced public. */
  lemma InterfaceMethodsAreNotForcedPublic(m: RawMethod, f: RawField)
    requires MethodReadable(m) && f.RawField?
    requires !m.flags.isPublic && !m.flags.isPrivate && !m.flags.isProtected && f.flags == m.flags
    ensures ToOperation(m).visibility == Package
    ensures ToAttribute(f, true).visibility == Public
    ensures ToAttribute(f, false).visibility == Package
  {
  }
}
