/**
 * Type-name resolution of UMLJavaUtils: primitive keywords, erasure of
 * generic parameters, and the precedence chain that turns a raw type
 * reference into a qualified name.
 */
module TypeNames {
  import opened Wrappers
  import opened Sequences
  import opened JavaStrings
  import opened JavaModel

  /** The seven keywords `isPrimitive` accepts; `short` and `void` are not among them. */
  const PrimitiveNames: set<string> := {"int", "long", "double", "float", "char", "boolean", "byte"}

  function IsPrimitive(t: string): (r: bool)
    ensures r <==> t in PrimitiveNames
    ensures r ==> 3 <= |t| <= 7
  {
    t == "int" || t == "long" || t == "double" || t == "float" ||
    t == "char" || t == "boolean" || t == "byte"
  }

  /** A primitive keyword is never qualified and never generic. */
  lemma PrimitiveIsPlain(t: string)
    requires IsPrimitive(t)
    ensures '.' !in t && '<' !in t && '>' !in t
  {
  }

  lemma ShortAndVoidAreNotPrimitive()
    ensures !IsPrimitive("short") && !IsPrimitive("void")
  {
  }

  // ---------------------------------------------------------------------
  // Erasure of generic parameters: `replaceAll("<.+?>", "")`
  // ---------------------------------------------------------------------

  /**
   * Where a lazy `<.+?>` match starting at the head of `s` ends: the first
   * `>` that leaves at least one character between it and the leading `<`.
   */
  function GroupEnd(s: string): (r: Option<nat>)
    ensures r.Some? ==> 2 <= r.value < |s| && s[0] == '<' && s[r.value] == '>' && '>' !in s[2..r.value]
    ensures r.None? <==> !(|s| >= 3 && s[0] == '<' && '>' in s[2..])
  {
    if |s| >= 3 && s[0] == '<' then
      match IndexOf(s[2..], '>')
      case Some(j) =>
        assert s[2..][..j] == s[2..j + 2];
        Some(j + 2)
      case None => None
    else None
  }

  /** `s` still holds a `<`, then at least one character, then a `>`. */
  ghost predicate HasGroup(s: string)
  {
    exists i, j :: 0 <= i && i + 2 <= j < |s| && s[i] == '<' && s[j] == '>'
  }

  /**
   * `className.replaceAll("<.+?>", "")`: scanning left to right, every
   * shortest `<…>` group with a non-empty inside is removed; the scan resumes
   * after the removed `>`, so a nested argument list leaves its outer `>`
   * behind ("List<Map<K,V>>" becomes "List>").
   */
  function EraseGenerics(s: string): (r: string)
    ensures |r| <= |s|
    ensures '<' !in s ==> r == s
    decreases |s|
  {
    if |s| == 0 then ""
    else match GroupEnd(s)
      case Some(e) => EraseGenerics(s[e + 1..])
      case None => [s[0]] + EraseGenerics(s[1..])
  }

  /** `stripGenerics`: `null` passes through, any other name is erased. */
  function StripGenerics(className: Option<string>): (r: Option<string>)
    ensures r.None? <==> className.None?
    ensures r.Some? ==> |r.value| <= |className.value|
    ensures className.Some? && '<' !in className.value ==> r == className
  {
    match className
    case None => None
    case Some(s) => Some(EraseGenerics(s))
  }

  /** Erasure only removes characters: nothing appears that was not in the input. */
  lemma {:induction false} EraseGenericsChars(s: string)
    ensures forall c :: c in EraseGenerics(s) ==> c in s
    decreases |s|
  {
    if |s| > 0 {
      match GroupEnd(s)
      case Some(e) =>
        EraseGenericsChars(s[e + 1..]);
        assert forall c :: c in s[e + 1..] ==> c in s;
      case None =>
        EraseGenericsChars(s[1..]);
        assert forall c :: c in s[1..] ==> c in s;
    }
  }

  /** Erasure only deletes: the erased name is the input with some characters removed, the rest kept in order. */
  lemma {:induction false} EraseGenericsDeletes(s: string)
    ensures IsSubsequence(EraseGenerics(s), s)
    decreases |s|
  {
    if |s| == 0 {
    } else {
      match GroupEnd(s)
      case Some(e) =>
        EraseGenericsDeletes(s[e + 1..]);
        SubsequenceOfSuffix(EraseGenerics(s), s, e + 1);
      case None =>
        EraseGenericsDeletes(s[1..]);
        SubsequenceCons(EraseGenerics(s[1..]), s[1..], s[0]);
        assert [s[0]] + s[1..] == s;
    }
  }

  /** Past its first character, the erased text only holds characters from past the input's first. */
  lemma EraseGenericsTailChars(s: string)
    requires |s| > 0
    ensures |EraseGenerics(s)| > 0 ==> forall c :: c in EraseGenerics(s)[1..] ==> c in s[1..]
  {
    match GroupEnd(s)
    case Some(e) =>
      EraseGenericsChars(s[e + 1..]);
      var r := EraseGenerics(s);
      assert forall c :: c in r ==> c in s[e + 1..];
      assert forall c :: c in s[e + 1..] ==> c in s[1..] by {
        assert s[e + 1..] == s[1..][e..];
      }
    case None =>
      EraseGenericsChars(s[1..]);
      assert EraseGenerics(s)[1..] == EraseGenerics(s[1..]);
  }

  /** No `<…>` group survives erasure. */
  lemma {:induction false} EraseGenericsLeavesNoGroup(s: string)
    ensures !HasGroup(EraseGenerics(s))
    decreases |s|
  {
    if |s| > 0 {
      match GroupEnd(s)
      case Some(e) =>
        EraseGenericsLeavesNoGroup(s[e + 1..]);
      case None =>
        var rest := EraseGenerics(s[1..]);
        EraseGenericsLeavesNoGroup(s[1..]);
        if |s| >= 2 {
          EraseGenericsTailChars(s[1..]);
          assert s[1..][1..] == s[2..];
        }
        NoGroupAfterUnclosedHead(s[0], rest, s[1..]);
    }
  }

  /**
   * Putting a character in front of group-free text makes a group only when
   * that character is a `<` and a `>` follows two or more places on.
   */
  lemma NoGroupAfterUnclosedHead(c: char, rest: string, origin: string)
    requires !HasGroup(rest)
    requires |rest| <= |origin|
    requires c == '<' && |rest| > 0 ==> forall x :: x in rest[1..] ==> x in origin[1..]
    requires c == '<' && |origin| >= 2 ==> '>' !in origin[1..]
    ensures !HasGroup([c] + rest)
  {
  }

  /** Text without a group is left unchanged. */
  lemma {:induction false} EraseGenericsKeepsPlain(s: string)
    requires !HasGroup(s)
    ensures EraseGenerics(s) == s
    decreases |s|
  {
    if |s| > 0 {
      assert GroupEnd(s).None?;
      var tail := s[1..];
      assert !HasGroup(tail);
      EraseGenericsKeepsPlain(tail);
      assert s == [s[0]] + tail;
    }
  }

  /** Erasing twice is erasing once. */
  lemma EraseGenericsIdempotent(s: string)
    ensures EraseGenerics(EraseGenerics(s)) == EraseGenerics(s)
  {
    EraseGenericsLeavesNoGroup(s);
    EraseGenericsKeepsPlain(EraseGenerics(s));
  }

  /** Text before the first `<` is kept as it is. */
  lemma {:induction false} EraseGenericsKeepsPrefix(p: string, s: string)
    requires '<' !in p
    ensures EraseGenerics(p + s) == p + EraseGenerics(s)
  {
    if |p| > 0 {
      var ps := p + s;
      assert ps[0] == p[0] && ps[1..] == p[1..] + s;
      assert GroupEnd(ps).None?;
      assert EraseGenerics(ps) == [p[0]] + EraseGenerics(p[1..] + s);
      EraseGenericsKeepsPrefix(p[1..], s);
      ConcatAssoc([p[0]], p[1..], EraseGenerics(s));
      assert [p[0]] + p[1..] == p;
    } else {
      assert p + s == s;
    }
  }

  /** The lazy group starting at the head of `s` closes at the first `>` from index 2 on. */
  lemma GroupEndAt(s: string, k: nat)
    requires 2 <= k < |s| && s[0] == '<' && s[k] == '>' && '>' !in s[2..k]
    ensures GroupEnd(s) == Some(k)
  {
    var r := GroupEnd(s);
    assert r.Some? by {
      assert s[2..][k - 2] == '>';
    }
  }

  /** A group `<w>` at the head, its content free of `>`, is dropped and erasure goes on after it. */
  lemma EraseLeadingGroup(w: string, rest: string)
    requires |w| >= 1 && '>' !in w
    ensures EraseGenerics("<" + w + ">" + rest) == EraseGenerics(rest)
  {
    var g := "<" + w + ">" + rest;
    assert g[2..|w| + 1] == w[1..];
    GroupEndAt(g, |w| + 1);
    assert g[|w| + 2..] == rest;
  }

  /** The argument list of a simple generic type is erased: `List<String>` becomes `List`. */
  lemma EraseGenericsOfGroup(n: string, a: string)
    requires '<' !in n && |a| >= 1 && '>' !in a
    ensures EraseGenerics(n + ("<" + a + ">")) == n
  {
    EraseLeadingGroup(a, "");
    assert "<" + a + ">" + "" == "<" + a + ">";
    EraseGenericsKeepsPrefix(n, "<" + a + ">");
  }

  /**
   * A nested argument list leaves its outer `>` behind: the lazy group ends at
   * the first `>`, so `List<Map<K,V>>` becomes `List>`.
   */
  lemma EraseGenericsOfNestedGroup(n: string, m: string, a: string)
    requires '<' !in n && '>' !in m && '>' !in a
    ensures EraseGenerics(n + ("<" + (m + "<" + a) + ">" + ">")) == n + ">"
  {
    var w := m + "<" + a;
    assert '>' !in w;
    EraseLeadingGroup(w, ">");
    assert EraseGenerics(">") == ">";
    EraseGenericsKeepsPrefix(n, "<" + w + ">" + ">");
  }

  /** An empty argument list is not a group, since `.+?` needs one character: `Foo<>` stays. */
  lemma EraseGenericsKeepsEmptyBrackets(n: string)
    requires '<' !in n
    ensures EraseGenerics(n + "<>") == n + "<>"
  {
    EraseGenericsKeepsPrefix(n, "<>");
    assert "<>"[1..] == ">";
    assert EraseGenerics("<>") == "<" + EraseGenerics(">");
  }

  // ---------------------------------------------------------------------
  // getFullQName
  // ---------------------------------------------------------------------

  function JavaLangName(t: string): string
  {
    "java.lang." + t
  }

  function OwnPackageName(parent: JavaType, t: string): string
  {
    parent.packageName + "." + t
  }

  /** `importName.replaceFirst("\\*$", t)` for an import that ends in `*`. */
  function WildcardProbe(importName: string, t: string): (r: string)
    requires EndsWith(importName, "*")
    ensures |r| == |importName| - 1 + |t|
    ensures r[..|importName| - 1] == importName[..|importName| - 1] && r[|importName| - 1..] == t
  {
    importName[..|importName| - 1] + t
  }

  /**
   * What one import contributes for the simple name `t`: itself when it ends
   * in "." + t, else, when it is a wildcard, the canonical name of the probed
   * type if the index has it.
   */
  function ImportMatch(project: Project, importName: string, t: string): (r: Option<string>)
    ensures EndsWith(importName, "." + t) ==> r == Some(importName)
    ensures r.Some? && r.value != importName ==>
      EndsWith(importName, ".*") && WildcardProbe(importName, t) in project &&
      r.value == project[WildcardProbe(importName, t)].fullyQualifiedName
    ensures !EndsWith(importName, "." + t) && EndsWith(importName, ".*") && WildcardProbe(importName, t) in project ==>
      r == Some(project[WildcardProbe(importName, t)].fullyQualifiedName)
    ensures !EndsWith(importName, "." + t) && !(EndsWith(importName, ".*") && WildcardProbe(importName, t) in project) ==>
      r == None
  {
    if EndsWith(importName, "." + t) then Some(importName)
    else if EndsWith(importName, ".*") && WildcardProbe(importName, t) in project then
      Some(project[WildcardProbe(importName, t)].fullyQualifiedName)
    else None
  }

  predicate ImportResolves(project: Project, t: string, importName: string)
  {
    ImportMatch(project, importName, t).Some?
  }

  /** The imports, scanned in declaration order: the first one that resolves `t` decides. */
  function ImportScan(project: Project, imports: seq<string>, t: string): (r: Option<string>)
    ensures r.Some? ==> exists k :: 0 <= k < |imports| && ImportMatch(project, imports[k], t) == r
    ensures r.None? <==> forall k :: 0 <= k < |imports| ==> !ImportResolves(project, t, imports[k])
  {
    match FirstMatch(imports, imp => ImportResolves(project, t, imp))
    case None => None
    case Some(k) => ImportMatch(project, imports[k], t)
  }

  /** The scan's answer is the match of the first import that resolves. */
  lemma ImportScanPicksFirst(project: Project, imports: seq<string>, t: string, k: nat)
    requires k < |imports| && ImportResolves(project, t, imports[k])
    requires forall j :: 0 <= j < k ==> !ImportResolves(project, t, imports[j])
    ensures ImportScan(project, imports, t) == ImportMatch(project, imports[k], t)
  {
    var m := FirstMatch(imports, imp => ImportResolves(project, t, imp));
    assert m.Some?;
  }

  /**
   * `getFullQName(parent, type)`: erase generics; a qualified or primitive
   * name is returned as it is; otherwise `java.lang`, then the parent's own
   * package, then the imports in order; failing all, the erased name.
   * Every result is the erased name, a canonical name from the index, or one
   * of the parent's imports.
   */
  function FullQName(project: Project, parent: JavaType, rawType: string): (r: string)
    ensures r == EraseGenerics(rawType)
         || (exists n :: n in project && project[n].fullyQualifiedName == r)
         || (parent.imports.Some? && r in parent.imports.value)
  {
    Qualify(project, parent, EraseGenerics(rawType))
  }

  /** The lookup chain of `getFullQName`, applied to an already erased name `t`. */
  function Qualify(project: Project, parent: JavaType, t: string): (r: string)
    ensures '.' in t || IsPrimitive(t) ==> r == t
    ensures r == t
         || (JavaLangName(t) in project && r == project[JavaLangName(t)].fullyQualifiedName)
         || (OwnPackageName(parent, t) in project && r == project[OwnPackageName(parent, t)].fullyQualifiedName)
         || (parent.imports.Some? &&
             exists k :: 0 <= k < |parent.imports.value| && ImportMatch(project, parent.imports.value[k], t) == Some(r))
  {
    if '.' in t || IsPrimitive(t) then t
    else if JavaLangName(t) in project then project[JavaLangName(t)].fullyQualifiedName
    else if OwnPackageName(parent, t) in project then project[OwnPackageName(parent, t)].fullyQualifiedName
    else if parent.imports.None? then t
    else match ImportScan(project, parent.imports.value, t)
      case Some(q) => q
      case None => t
  }

  /** `getFullQName`: erase, then look the name up. */
  method GetFullQName(project: Project, parent: JavaType, rawType: string) returns (r: string)
    ensures r == FullQName(project, parent, rawType)
  {
    r := GetQualifiedName(project, parent, EraseGenerics(rawType));
  }

  /** The lookup chain of `getFullQName` on the erased name `t`. */
  method GetQualifiedName(project: Project, parent: JavaType, t: string) returns (r: string)
    ensures r == Qualify(project, parent, t)
  {
    if '.' in t {
      return t;
    }
    if IsPrimitive(t) {
      return t;
    }
    if JavaLangName(t) in project {
      return project[JavaLangName(t)].fullyQualifiedName;
    }
    if OwnPackageName(parent, t) in project {
      return project[OwnPackageName(parent, t)].fullyQualifiedName;
    }
    if parent.imports.None? {
      // no compilation unit: the lookup throws and is caught
      return t;
    }
    var found := ScanImports(project, parent.imports.value, t);
    if found.Some? {
      return found.value;
    }
    return t;
  }

  /** The import loop of `getFullQName`: the first import that resolves `t` answers. */
  method ScanImports(project: Project, imports: seq<string>, t: string) returns (r: Option<string>)
    ensures r == ImportScan(project, imports, t)
  {
    var i := 0;
    while i < |imports|
      invariant 0 <= i <= |imports|
      invariant forall j :: 0 <= j < i ==> !ImportResolves(project, t, imports[j])
    {
      var importName := imports[i];
      if EndsWith(importName, "." + t) {
        ImportScanPicksFirst(project, imports, t, i);
        return Some(importName);
      }
      if EndsWith(importName, ".*") {
        var probe := WildcardProbe(importName, t);
        if probe in project {
          ImportScanPicksFirst(project, imports, t, i);
          return Some(project[probe].fullyQualifiedName);
        }
      }
      assert ImportMatch(project, importName, t) == None;
      i := i + 1;
    }
    assert ImportScan(project, imports, t).None?;
    return None;
  }

  // ---------------------------------------------------------------------
  // Precedence of the lookup chain
  // ---------------------------------------------------------------------

  /** Generic parameters are erased before any lookup. */
  lemma ResolutionIgnoresGenerics(project: Project, parent: JavaType, rawType: string)
    ensures FullQName(project, parent, EraseGenerics(rawType)) == FullQName(project, parent, rawType)
  {
    EraseGenericsIdempotent(rawType);
  }

  /** A qualified or primitive name is returned as erased, whatever the index, package or imports. */
  lemma PlainNamesSkipTheIndex(project: Project, parent: JavaType, other: Project, otherParent: JavaType, rawType: string)
    requires '.' in EraseGenerics(rawType) || IsPrimitive(EraseGenerics(rawType))
    ensures FullQName(project, parent, rawType) == EraseGenerics(rawType)
    ensures FullQName(other, otherParent, rawType) == EraseGenerics(rawType)
  {
  }

  /** For every context, a primitive keyword resolves to itself. */
  lemma PrimitiveResolvesToItself(project: Project, parent: JavaType, t: string)
    requires IsPrimitive(t)
    ensures FullQName(project, parent, t) == t
  {
    PrimitiveIsPlain(t);
  }

  /** `java.lang.T` wins over the parent's package and over every import. */
  lemma JavaLangComesFirst(project: Project, parent: JavaType, rawType: string)
    requires var t := EraseGenerics(rawType); '.' !in t && !IsPrimitive(t) && JavaLangName(t) in project
    ensures FullQName(project, parent, rawType) == project[JavaLangName(EraseGenerics(rawType))].fullyQualifiedName
  {
  }

  /** A type of the parent's own package wins over every import, whatever they are. */
  lemma OwnPackageBeatsImports(project: Project, parent: JavaType, rawType: string, imports: Option<seq<string>>)
    requires var t := EraseGenerics(rawType);
      '.' !in t && !IsPrimitive(t) && JavaLangName(t) !in project && OwnPackageName(parent, t) in project
    ensures FullQName(project, parent, rawType) == project[OwnPackageName(parent, EraseGenerics(rawType))].fullyQualifiedName
    ensures FullQName(project, parent.(imports := imports), rawType) == FullQName(project, parent, rawType)
  {
  }

  /**
   * Past `java.lang` and the own package, the first import in declaration
   * order that resolves the name decides: a single-type import ending in
   * "." + T verbatim, a wildcard by the canonical name of its probe.
   */
  lemma FirstResolvingImportWins(project: Project, parent: JavaType, rawType: string, k: nat)
    requires var t := EraseGenerics(rawType);
      && '.' !in t && !IsPrimitive(t) && JavaLangName(t) !in project && OwnPackageName(parent, t) !in project
      && parent.imports.Some? && k < |parent.imports.value|
      && ImportResolves(project, t, parent.imports.value[k])
      && forall j :: 0 <= j < k ==> !ImportResolves(project, t, parent.imports.value[j])
    ensures var t := EraseGenerics(rawType); var imp := parent.imports.value[k];
      && FullQName(project, parent, rawType) == ImportMatch(project, imp, t).value
      && (EndsWith(imp, "." + t) ==> FullQName(project, parent, rawType) == imp)
  {
    ImportScanPicksFirst(project, parent.imports.value, EraseGenerics(rawType), k);
  }

  /** When no strategy finds the name, the erased name comes back. */
  lemma UnresolvedNameFallsBack(project: Project, parent: JavaType, rawType: string)
    requires var t := EraseGenerics(rawType);
      && JavaLangName(t) !in project && OwnPackageName(parent, t) !in project
      && (parent.imports.Some? ==> forall j :: 0 <= j < |parent.imports.value| ==> !ImportResolves(project, t, parent.imports.value[j]))
    ensures FullQName(project, parent, rawType) == EraseGenerics(rawType)
  {
  }

  /** An index holding one type. */
  function SingleTypeProject(name: string): Project
  {
    map[name := JavaType(name, "", None, None, [], false, false, None, None)]
  }

  /** A parent class `p.Main` of package `p` with the given imports. */
  function MainOf(imports: seq<string>): JavaType
  {
    JavaType("p.Main", "p", Some(imports), None, [], false, false, None, None)
  }

  /** `Foo` is neither qualified nor primitive, and neither `java.lang.Foo` nor `p.Foo` exists. */
  lemma FooNeedsImports(imports: seq<string>)
    ensures var t := EraseGenerics("Foo");
      && t == "Foo" && '.' !in t && !IsPrimitive(t)
      && JavaLangName(t) !in SingleTypeProject("p.r.Foo")
      && OwnPackageName(MainOf(imports), t) !in SingleTypeProject("p.r.Foo")
  {
    assert JavaLangName("Foo") == "java.lang.Foo";
    assert "java.lang.Foo"[0] != "p.r.Foo"[0];
    assert OwnPackageName(MainOf(imports), "Foo") == "p.Foo";
    assert |"p.Foo"| != |"p.r.Foo"|;
  }

  lemma SingleTypeImportOfFoo()
    ensures EndsWith("p.q.Foo", ".Foo")
  {
    assert "p.q.Foo"[3..] == ".Foo";
  }

  lemma WildcardImportOfFoo()
    ensures !EndsWith("p.r.*", ".Foo") && EndsWith("p.r.*", ".*") && EndsWith("p.r.*", "*")
    ensures WildcardProbe("p.r.*", "Foo") == "p.r.Foo"
  {
    assert "p.r.*"[3..] == ".*";
    assert "p.r.*"[4..] == "*";
    assert "p.r.*"[..4] == "p.r.";
  }

  /**
   * In a parent of package `p` importing `p.q.Foo` and then `p.r.*`, `Foo`
   * resolves to the single-type import even though `p.r.Foo` exists.
   */
  lemma ExplicitImportDeclaredFirstWins()
    ensures FullQName(SingleTypeProject("p.r.Foo"), MainOf(["p.q.Foo", "p.r.*"]), "Foo") == "p.q.Foo"
  {
    var imports := ["p.q.Foo", "p.r.*"];
    FooNeedsImports(imports);
    SingleTypeImportOfFoo();
    FirstResolvingImportWins(SingleTypeProject("p.r.Foo"), MainOf(imports), "Foo", 0);
  }

  /**
   * Declared the other way round, the wildcard is met first and wins: the
   * imports are scanned in declaration order, not single-type imports first.
   */
  lemma WildcardDeclaredFirstWins()
    ensures FullQName(SingleTypeProject("p.r.Foo"), MainOf(["p.r.*", "p.q.Foo"]), "Foo") == "p.r.Foo"
  {
    var imports := ["p.r.*", "p.q.Foo"];
    var project := SingleTypeProject("p.r.Foo");
    FooNeedsImports(imports);
    WildcardImportOfFoo();
    assert ImportMatch(project, "p.r.*", "Foo") == Some("p.r.Foo");
    FirstResolvingImportWins(project, MainOf(imports), "Foo", 0);
  }
}
