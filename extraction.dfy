/**
 * Declaration extraction: the walk over the cursor tree that libclang
 * produces for one header, collecting classes, their public methods and
 * the annotation attributes attached to either.
 */
module Extraction {
  import opened Seqs

  /** The cursor kinds the extractor tests for; every other kind is `Other`. */
  datatype CursorKind = ClassDecl | Namespace | CxxMethod | AnnotateAttr | Other

  /** libclang's access specifiers (`NoAccess` stands for its `NONE`). */
  datatype AccessSpecifier = Invalid | Public | Protected | Private | NoAccess

  /** A cursor of the parsed translation unit, with its children in source order. */
  datatype Node = Node(
    kind: CursorKind,
    spelling: string,
    displayname: string,
    access: AccessSpecifier,
    isVirtual: bool,
    children: seq<Node>)

  /** An extracted method: its name, whether it is virtual, and its annotations. */
  datatype Function = Function(name: string, isVirtual: bool, annotations: seq<string>)

  /** An extracted class: its name, its exposed methods and its annotations. */
  datatype Class = Class(name: string, functions: seq<Function>, annotations: seq<string>)

  predicate IsAnnotation(c: Node) {
    c.kind == AnnotateAttr
  }

  /** Only public C++ methods are exposed; constructors and fields have other kinds. */
  predicate IsExposedMethod(c: Node) {
    c.kind == CxxMethod && c.access == Public
  }

  predicate IsClassDecl(c: Node) {
    c.kind == ClassDecl
  }

  function DisplayName(c: Node): string {
    c.displayname
  }

  /** `get_annotations`: the display names of the annotation children. */
  function GetAnnotations(node: Node): seq<string> {
    FilterMap(node.children, IsAnnotation, DisplayName)
  }

  /** `Function.__init__`. */
  function MakeFunction(cursor: Node): Function {
    Function(cursor.spelling, cursor.isVirtual, GetAnnotations(cursor))
  }

  /** `Class.__init__`: public methods only, then the class's own annotations. */
  function MakeClass(cursor: Node): Class {
    Class(cursor.spelling, FilterMap(cursor.children, IsExposedMethod, MakeFunction), GetAnnotations(cursor))
  }

  /**
   * The classes `build_classes` finds among the sibling cursors `cs`: a class
   * declaration yields its record, a namespace yields the classes found in
   * it, anything else yields nothing.
   */
  function ClassesAmong(cs: seq<Node>): seq<Class>
    decreases cs
  {
    if cs == [] then []
    else
      var c := cs[0];
      (match c.kind
       case ClassDecl => [MakeClass(c)]
       case Namespace => ClassesAmong(c.children)
       case _ => [])
      + ClassesAmong(cs[1..])
  }

  /** `build_classes(cursor)`. */
  function BuildClasses(cursor: Node): seq<Class> {
    ClassesAmong(cursor.children)
  }

  /**
   * `build_classes` as the source writes it: a loop over the children that
   * appends a record per class and extends the result by the recursive walk
   * of each namespace.
   */
  method CollectClasses(cursor: Node) returns (result: seq<Class>)
    ensures result == BuildClasses(cursor)
    decreases cursor
  {
    result := [];
    var children := cursor.children;
    var i := 0;
    while i < |children|
      invariant 0 <= i <= |children|
      invariant result == ClassesAmong(children[..i])
    {
      var c := children[i];
      if c.kind == ClassDecl {
        var aClass := MakeClass(c);
        result := result + [aClass];
      } else if c.kind == Namespace {
        var childClasses := CollectClasses(c);
        result := result + childClasses;
      }
      ClassesAmongConcat(children[..i], [c]);
      assert children[..i + 1] == children[..i] + [c];
      i := i + 1;
    }
    assert children[..i] == children;
  }

  /** One step of the walk, taken at index `k`. */
  lemma ClassesAmongStep(cs: seq<Node>, k: nat)
    requires k < |cs|
    ensures ClassesAmong(cs[k..]) ==
      (match cs[k].kind
       case ClassDecl => [MakeClass(cs[k])]
       case Namespace => ClassesAmong(cs[k].children)
       case _ => [])
      + ClassesAmong(cs[k + 1..])
  {
    assert cs[k..][1..] == cs[k + 1..];
  }

  /** The walk over a list of siblings is the walk over each part, in order. */
  lemma {:induction false} ClassesAmongConcat(a: seq<Node>, b: seq<Node>)
    ensures ClassesAmong(a + b) == ClassesAmong(a) + ClassesAmong(b)
  {
    if a == [] {
      assert a + b == b;
    } else {
      assert (a + b)[0] == a[0];
      assert (a + b)[1..] == a[1..] + b;
      ClassesAmongConcat(a[1..], b);
    }
  }

  /**
   * `get_annotations(node)` holds one entry per annotation child, and the
   * annotation child at index `i` gives the entry after those of the
   * annotation children before it: exactly their display names, in child
   * order. It is empty exactly when no child is an annotation.
   */
  lemma GetAnnotationsExact(node: Node)
    ensures |GetAnnotations(node)| == Count(node.children, IsAnnotation)
    ensures forall i :: 0 <= i < |node.children| && node.children[i].kind == AnnotateAttr ==>
      Count(node.children[..i], IsAnnotation) < |GetAnnotations(node)| &&
      GetAnnotations(node)[Count(node.children[..i], IsAnnotation)] == node.children[i].displayname
    ensures GetAnnotations(node) == [] <==> forall i :: 0 <= i < |node.children| ==> node.children[i].kind != AnnotateAttr
  {
    FilterMapExact(node.children, IsAnnotation, DisplayName);
  }

  /**
   * A class record keeps the cursor's spelling and annotations, and its
   * functions are exactly the public `CXX_METHOD` children, in source
   * order, each copying the method's spelling, virtual flag and annotations.
   */
  lemma MakeClassExact(cursor: Node)
    ensures MakeClass(cursor).name == cursor.spelling
    ensures MakeClass(cursor).annotations == GetAnnotations(cursor)
    ensures |MakeClass(cursor).functions| == Count(cursor.children, IsExposedMethod)
    ensures forall i :: 0 <= i < |cursor.children| && IsExposedMethod(cursor.children[i]) ==>
      var k := Count(cursor.children[..i], IsExposedMethod);
      k < |MakeClass(cursor).functions| &&
      MakeClass(cursor).functions[k].name == cursor.children[i].spelling &&
      MakeClass(cursor).functions[k].isVirtual == cursor.children[i].isVirtual &&
      MakeClass(cursor).functions[k].annotations == GetAnnotations(cursor.children[i])
  {
    FilterMapExact(cursor.children, IsExposedMethod, MakeFunction);
  }

  /**
   * Every extracted function comes from a public `CXX_METHOD` child of the
   * class cursor, and every such child gives one: constructors, fields,
   * private or protected methods and grandchildren never appear.
   */
  lemma MakeClassFunctionsFromPublicMethods(cursor: Node, f: Function)
    ensures f in MakeClass(cursor).functions <==>
      exists i :: 0 <= i < |cursor.children| && IsExposedMethod(cursor.children[i]) && MakeFunction(cursor.children[i]) == f
  {
    FilterMapMembership(cursor.children, IsExposedMethod, MakeFunction, f);
  }

  /**
   * For a cursor without namespace children, the walk yields one record per
   * class child, the class child at index `i` giving the record after those
   * of the class children before it: exactly the classes, in declaration order.
   */
  lemma {:induction false} BuildClassesFlat(cursor: Node)
    requires forall i :: 0 <= i < |cursor.children| ==> cursor.children[i].kind != Namespace
    ensures |BuildClasses(cursor)| == Count(cursor.children, IsClassDecl)
    ensures forall i :: 0 <= i < |cursor.children| && cursor.children[i].kind == ClassDecl ==>
      Count(cursor.children[..i], IsClassDecl) < |BuildClasses(cursor)| &&
      BuildClasses(cursor)[Count(cursor.children[..i], IsClassDecl)] == MakeClass(cursor.children[i])
  {
    NoNamespaceIsFilter(cursor.children);
    FilterMapExact(cursor.children, IsClassDecl, MakeClass);
  }

  /** Without namespaces the walk is a plain filter of the class declarations. */
  lemma {:induction false} NoNamespaceIsFilter(cs: seq<Node>)
    requires forall i :: 0 <= i < |cs| ==> cs[i].kind != Namespace
    ensures ClassesAmong(cs) == FilterMap(cs, IsClassDecl, MakeClass)
  {
    if cs != [] {
      NoNamespaceIsFilter(cs[1..]);
    }
  }

  /**
   * `c` is a declaration at namespace scope among the siblings `cs`: one of
   * them, or, through a namespace among them, one at namespace scope inside it.
   */
  ghost predicate AtNamespaceScope(cs: seq<Node>, c: Node)
    decreases cs
  {
    exists i :: 0 <= i < |cs| && (cs[i] == c || (cs[i].kind == Namespace && AtNamespaceScope(cs[i].children, c)))
  }

  /** Every returned record is that of a class declared at namespace scope. */
  lemma {:induction false} ClassesAmongSound(cs: seq<Node>, r: Class)
    requires r in ClassesAmong(cs)
    ensures exists c :: AtNamespaceScope(cs, c) && c.kind == ClassDecl && MakeClass(c) == r
    decreases cs
  {
    var c0, t := cs[0], cs[1..];
    var head := match c0.kind
      case ClassDecl => [MakeClass(c0)]
      case Namespace => ClassesAmong(c0.children)
      case _ => [];
    assert ClassesAmong(cs) == head + ClassesAmong(t);
    if r in head {
      if c0.kind == ClassDecl {
        assert AtNamespaceScope(cs, c0);
      } else {
        ClassesAmongSound(c0.children, r);
        var c :| AtNamespaceScope(c0.children, c) && c.kind == ClassDecl && MakeClass(c) == r;
        assert AtNamespaceScope(cs, c);
      }
    } else {
      ClassesAmongSound(t, r);
      var c :| AtNamespaceScope(t, c) && c.kind == ClassDecl && MakeClass(c) == r;
      var i :| 0 <= i < |t| && (t[i] == c || (t[i].kind == Namespace && AtNamespaceScope(t[i].children, c)));
      assert cs[i + 1] == t[i];
      assert AtNamespaceScope(cs, c);
    }
  }

  /** Every class declared at namespace scope has its record returned. */
  lemma {:induction false} ClassesAmongComplete(cs: seq<Node>, c: Node)
    requires AtNamespaceScope(cs, c) && c.kind == ClassDecl
    ensures MakeClass(c) in ClassesAmong(cs)
    decreases cs
  {
    var i :| 0 <= i < |cs| && (cs[i] == c || (cs[i].kind == Namespace && AtNamespaceScope(cs[i].children, c)));
    assert cs == cs[..i] + ([cs[i]] + cs[i + 1..]);
    ClassesAmongConcat(cs[..i], [cs[i]] + cs[i + 1..]);
    ClassesAmongConcat([cs[i]], cs[i + 1..]);
    assert [cs[i]][1..] == [];
    if cs[i] != c {
      ClassesAmongComplete(cs[i].children, c);
    }
  }

  /**
   * A record is returned exactly when it is the record of a class declared
   * at namespace scope: classes nested in class bodies, or inside any scope
   * other than a namespace, are never reached.
   */
  lemma ClassesAmongScope(cs: seq<Node>, r: Class)
    ensures r in ClassesAmong(cs) <==> exists c :: AtNamespaceScope(cs, c) && c.kind == ClassDecl && MakeClass(c) == r
  {
    if r in ClassesAmong(cs) {
      ClassesAmongSound(cs, r);
    }
    if exists c :: AtNamespaceScope(cs, c) && c.kind == ClassDecl && MakeClass(c) == r {
      var c :| AtNamespaceScope(cs, c) && c.kind == ClassDecl && MakeClass(c) == r;
      ClassesAmongComplete(cs, c);
    }
  }

  /** `build_classes` stated on a root cursor. */
  lemma BuildClassesScope(cursor: Node, r: Class)
    ensures r in BuildClasses(cursor) <==>
      exists c :: AtNamespaceScope(cursor.children, c) && c.kind == ClassDecl && MakeClass(c) == r
  {
    ClassesAmongScope(cursor.children, r);
  }

  /**
   * The contribution of a child that is not a namespace does not depend on
   * what lies below it: its own record if it is a class, nothing otherwise.
   */
  lemma ChildNotNamespace(cursor: Node, i: nat)
    requires i < |cursor.children| && cursor.children[i].kind != Namespace
    ensures BuildClasses(cursor) ==
      ClassesAmong(cursor.children[..i])
      + (if cursor.children[i].kind == ClassDecl then [MakeClass(cursor.children[i])] else [])
      + ClassesAmong(cursor.children[i + 1..])
  {
    var cs := cursor.children;
    assert cs == cs[..i] + cs[i..];
    ClassesAmongConcat(cs[..i], cs[i..]);
    ClassesAmongStep(cs, i);
    var head := if cs[i].kind == ClassDecl then [MakeClass(cs[i])] else [];
    assert ClassesAmong(cs[i..]) == head + ClassesAmong(cs[i + 1..]);
    AppendAssoc(ClassesAmong(cs[..i]), head, ClassesAmong(cs[i + 1..]));
  }
}
