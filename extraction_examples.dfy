/**
 * Concrete cursor trees and what the extractor makes of them.
 */
module ExtractionExamples {
  import opened Seqs
  import opened Extraction

  function Decl(kind: CursorKind, name: string, access: AccessSpecifier, children: seq<Node>): Node {
    Node(kind, name, name, access, false, children)
  }

  function Annotation(text: string): Node {
    Node(AnnotateAttr, [], text, Invalid, false, [])
  }

  /** A header whose only top-level declaration is a class yields that class alone. */
  lemma SingleClassUnit(unit: Node)
    requires |unit.children| == 1 && unit.children[0].kind == ClassDecl
    ensures BuildClasses(unit) == [MakeClass(unit.children[0])]
  {
    ClassesAmongStep(unit.children, 0);
    assert unit.children[0..] == unit.children && unit.children[1..] == [];
  }

  /** A cursor with no children has no annotations. */
  lemma NoChildrenNoAnnotations(c: Node)
    requires c.children == []
    ensures GetAnnotations(c) == []
  {
  }

  /**
   * The class cursor of the `TextComponent` test header, parsed with
   * `__BINDING_GENERATOR__` defined. The access specifier labels and the
   * constructor and field cursors are all kinds the extractor does not test
   * for. `SCRIPTED` stands before the `class` keyword, where clang ignores an
   * attribute, so the class cursor carries no annotation child.
   */
  function TextComponentClass(): Node {
    Decl(ClassDecl, "TextComponent", Invalid, [
      Decl(Other, "", Public, []),
      Decl(Other, "TextComponent", Public, []),
      Decl(CxxMethod, "text", Public, []),
      Decl(CxxMethod, "setText", Public, []),
      Decl(CxxMethod, "superSecretFunction", Public, [Annotation("hidden")]),
      Decl(Other, "", Private, []),
      Decl(Other, "m_text", Private, [])
    ])
  }

  function TextComponentUnit(): Node {
    Decl(Other, "TextComponent.h", Invalid, [TextComponentClass()])
  }

  /** `superSecretFunction` carries the `hidden` annotation. */
  lemma HiddenAnnotation()
    ensures GetAnnotations(TextComponentClass().children[4]) == ["hidden"]
  {
    var hidden := TextComponentClass().children[4].children;
    FilterMapStep(hidden, 0, IsAnnotation, DisplayName);
    assert hidden[0..] == hidden && hidden[1..] == [];
  }

  /**
   * The functions are the three public methods, in order, without the
   * constructor or the field; the `HIDDEN` annotation stays on the method
   * it marks.
   */
  lemma TextComponentFunctions()
    ensures MakeClass(TextComponentClass()).functions == [
      Function("text", false, []),
      Function("setText", false, []),
      Function("superSecretFunction", false, ["hidden"])
    ]
  {
    var cs := TextComponentClass().children;
    TextComponentMethods();
    FilterMapStep(cs, 1, IsExposedMethod, MakeFunction);
    FilterMapStep(cs, 0, IsExposedMethod, MakeFunction);
    assert cs[0..] == cs;
  }

  /** An exposed method at index `k` puts its function in front of those after it. */
  lemma ExposedAt(cs: seq<Node>, k: nat, f: Function, rest: seq<Function>)
    requires k < |cs| && IsExposedMethod(cs[k]) && MakeFunction(cs[k]) == f
    requires FilterMap(cs[k + 1..], IsExposedMethod, MakeFunction) == rest
    ensures FilterMap(cs[k..], IsExposedMethod, MakeFunction) == [f] + rest
  {
    FilterMapStep(cs, k, IsExposedMethod, MakeFunction);
  }

  /** From the first method on: the three methods and nothing after them. */
  lemma TextComponentMethods()
    ensures FilterMap(TextComponentClass().children[2..], IsExposedMethod, MakeFunction) == [
      Function("text", false, []),
      Function("setText", false, []),
      Function("superSecretFunction", false, ["hidden"])
    ]
  {
    TextComponentSetText();
    ExposedAt(TextComponentClass().children, 2, Function("text", false, []),
      [Function("setText", false, []), Function("superSecretFunction", false, ["hidden"])]);
  }

  /** From `setText` on: the last two methods. */
  lemma TextComponentSetText()
    ensures FilterMap(TextComponentClass().children[3..], IsExposedMethod, MakeFunction) == [
      Function("setText", false, []),
      Function("superSecretFunction", false, ["hidden"])
    ]
  {
    TextComponentSecretMethod();
    ExposedAt(TextComponentClass().children, 3, Function("setText", false, []),
      [Function("superSecretFunction", false, ["hidden"])]);
  }

  /** The last method, with its annotation, is the last function. */
  lemma TextComponentSecretMethod()
    ensures FilterMap(TextComponentClass().children[4..], IsExposedMethod, MakeFunction) ==
      [Function("superSecretFunction", false, ["hidden"])]
  {
    HiddenAnnotation();
    TextComponentTail();
    ExposedAt(TextComponentClass().children, 4, Function("superSecretFunction", false, ["hidden"]), []);
  }

  /** After the last method come only the `private:` label and the field. */
  lemma TextComponentTail()
    ensures FilterMap(TextComponentClass().children[5..], IsExposedMethod, MakeFunction) == []
  {
    var cs := TextComponentClass().children;
    FilterMapStep(cs, 6, IsExposedMethod, MakeFunction);
    FilterMapStep(cs, 5, IsExposedMethod, MakeFunction);
    assert cs[7..] == [];
  }

  /** The class cursor itself has no annotation child. */
  lemma TextComponentAnnotations()
    ensures MakeClass(TextComponentClass()).annotations == []
  {
    var cs := TextComponentClass().children;
    FilterMapExact(cs, IsAnnotation, DisplayName);
    assert forall i :: 0 <= i < |cs| ==> cs[i].kind != AnnotateAttr;
  }

  lemma TextComponentRecord()
    ensures MakeClass(TextComponentClass()) ==
      Class("TextComponent", [
        Function("text", false, []),
        Function("setText", false, []),
        Function("superSecretFunction", false, ["hidden"])
      ], [])
  {
    TextComponentFunctions();
    TextComponentAnnotations();
  }

  /** The whole header yields exactly that one class. */
  lemma TextComponentExtracted()
    ensures BuildClasses(TextComponentUnit()) == [
      Class("TextComponent", [
        Function("text", false, []),
        Function("setText", false, []),
        Function("superSecretFunction", false, ["hidden"])
      ], [])
    ]
  {
    SingleClassUnit(TextComponentUnit());
    TextComponentRecord();
  }

  /** `class Foo { public: void bar(); private: void baz(); };` */
  function FooClass(): Node {
    Decl(ClassDecl, "Foo", Invalid, [
      Decl(Other, "", Public, []),
      Decl(CxxMethod, "bar", Public, []),
      Decl(Other, "", Private, []),
      Decl(CxxMethod, "baz", Private, [])
    ])
  }

  lemma FooRecord()
    ensures MakeClass(FooClass()) == Class("Foo", [Function("bar", false, [])], [])
  {
    var cs := FooClass().children;
    assert MakeFunction(cs[1]) == Function("bar", false, []);
    FilterMapStep(cs, 0, IsExposedMethod, MakeFunction);
    FilterMapStep(cs, 1, IsExposedMethod, MakeFunction);
    FilterMapStep(cs, 2, IsExposedMethod, MakeFunction);
    FilterMapStep(cs, 3, IsExposedMethod, MakeFunction);
    assert cs[0..] == cs && cs[4..] == [];
    FilterMapExact(cs, IsAnnotation, DisplayName);
    assert forall i :: 0 <= i < |cs| ==> cs[i].kind != AnnotateAttr;
  }

  /** Of the two methods only the public `bar` is exposed. */
  lemma FooExtracted()
    ensures BuildClasses(Decl(Other, "foo.h", Invalid, [FooClass()])) == [Class("Foo", [Function("bar", false, [])], [])]
  {
    SingleClassUnit(Decl(Other, "foo.h", Invalid, [FooClass()]));
    FooRecord();
  }

  /** A class that declares another class and one public method. */
  function HostClass(): Node {
    Decl(ClassDecl, "Host", Invalid, [
      Decl(ClassDecl, "Nested", Public, [
        Decl(CxxMethod, "hidden", Public, [])
      ]),
      Decl(CxxMethod, "run", Public, [])
    ])
  }

  /**
   * A class inside a namespace inside a namespace is found; a class nested
   * in another class's body is not, and neither are the methods of the
   * nested class.
   */
  function ScopesUnit(): Node {
    Decl(Other, "scopes.h", Invalid, [
      Decl(Namespace, "outer", Invalid, [
        Decl(Namespace, "inner", Invalid, [
          Decl(ClassDecl, "Deep", Invalid, [])
        ]),
        HostClass()
      ]),
      Decl(ClassDecl, "Top", Invalid, [])
    ])
  }

  lemma HostRecord()
    ensures MakeClass(HostClass()) == Class("Host", [Function("run", false, [])], [])
  {
    var cs := HostClass().children;
    assert MakeFunction(cs[1]) == Function("run", false, []);
    FilterMapStep(cs, 0, IsExposedMethod, MakeFunction);
    FilterMapStep(cs, 1, IsExposedMethod, MakeFunction);
    FilterMapStep(cs, 0, IsAnnotation, DisplayName);
    FilterMapStep(cs, 1, IsAnnotation, DisplayName);
    assert cs[0..] == cs && cs[2..] == [];
  }

  lemma ScopesExtracted()
    ensures BuildClasses(ScopesUnit()) == [
      Class("Deep", [], []),
      Class("Host", [Function("run", false, [])], []),
      Class("Top", [], [])
    ]
  {
    var unit := ScopesUnit().children;
    var outer := unit[0].children;
    var inner := outer[0].children;
    ClassesAmongStep(unit, 0);
    ClassesAmongStep(unit, 1);
    assert unit[0..] == unit && unit[2..] == [];
    ClassesAmongStep(outer, 0);
    ClassesAmongStep(outer, 1);
    assert outer[0..] == outer && outer[2..] == [];
    ClassesAmongStep(inner, 0);
    assert inner[0..] == inner && inner[1..] == [];
    HostRecord();
    NoChildrenNoAnnotations(inner[0]);
    NoChildrenNoAnnotations(unit[1]);
  }
}
