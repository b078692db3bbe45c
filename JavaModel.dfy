/**
 * The facts the Java model (the source index) supplies about one type.
 * Each lookup is a value: a failing or absent lookup is `None` or an
 * `Unreadable...` entry, never an exception.
 */
module JavaModel {
  import opened Wrappers

  /** The modifier bits of a field or method. */
  datatype Flags = Flags(
    isPublic: bool,
    isPrivate: bool,
    isProtected: bool,
    isStatic: bool,
    isFinal: bool,
    isAbstract: bool)

  /**
   * A field as the index reports it, its type signature already rendered as
   * source text. `UnreadableField` is a field whose name, signature, flags or
   * enum-constant status cannot be read (the index throws).
   */
  datatype RawField =
    | RawField(name: string, typeName: string, flags: Flags, isEnumConstant: bool)
    | UnreadableField

  /** A method as the index reports it; `UnreadableMethod` as for fields. */
  datatype RawMethod =
    | RawMethod(name: string, returnType: string, flags: Flags,
                parameterNames: seq<string>, parameterTypes: seq<string>)
    | UnreadableMethod

  /**
   * One type of the project. `imports` is `None` when the type has no
   * compilation unit (a binary type) or its imports cannot be read;
   * `fields`/`methods` are `None` when listing them fails.
   */
  datatype JavaType = JavaType(
    fullyQualifiedName: string,
    packageName: string,
    imports: Option<seq<string>>,
    superclassName: Option<string>,
    superInterfaceNames: seq<string>,
    isInterface: bool,
    isEnum: bool,
    fields: Option<seq<RawField>>,
    methods: Option<seq<RawMethod>>)

  /**
   * The project's type index: `n in project` exactly when `findType(n)`
   * yields an existing type, which is then `project[n]`.
   */
  type Project = map<string, JavaType>
}
