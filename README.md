# CPPBindingGenerator, modelled in Dafny

CPPBindingGenerator walks a directory of C++ headers. It parses each header with libclang and collects every `CLASS_DECL` cursor that lies directly under the root or is reached through `NAMESPACE` cursors only. For each such class it keeps the public `CXX_METHOD` children and the `annotate` attributes attached to the class or to those methods. It then renders one Boost.Python binding file per header, and records the header's name for the module file written at the end.

This project models the two pieces of logic in that program.

**Declaration extraction** (`get_annotations`, `Function`, `Class`, `build_classes`):
- `Extraction` models the libclang cursor tree as a datatype `Node`.
- The extracted records are the datatypes `Function` and `Class`.
- `build_classes` appears twice:
  - `BuildClasses`, a recursive function over the children;
  - `CollectClasses`, a method with the source's loop, proved equal to it.
- `Seqs` gives the list comprehensions of the source a common definition, `FilterMap`. Its lemmas say the result holds exactly the kept elements, in order.

**Per-header naming and bookkeeping** (the loop body of `recursivelyBind`):
- `PyStr` models Python's `str.endswith` and `str.replace`. `replace` is a left-to-right, non-overlapping replace-all, including the empty-pattern case. `split` and `join` serve as an independent account of `replace`.
- `Naming` defines `cleanDirPath`, the binding file name and the export function name. It checks `cleanDirPath` against a character-by-character reference, `Sanitize`.
- `Driver` holds the shared `boundFileNames` list in a class, `Binder`.
  - `BindHeader` performs one iteration: the `endswith` test, the parse, the chain of reassignments and the append.
  - `BindFiles` performs the loop over one directory's files.
  - A file write is modelled as the returned `Binding` record.

`ExtractionExamples` and `NamingExamples` work out concrete cases:
- the `TextComponent` test header;
- a small namespace tree;
- the names of the generated JUCE binding files in `./juce_gui_basics/buttons`.

## Model

| member | source | states |
|---|---|---|
| Seqs.FilterMap | CPPBindingGenerator/CPPBindingGenerator.py:23-24 | a comprehension yields at most one entry per element, and nothing exactly when no element passes the test |
| Seqs.FilterMapExact | CPPBindingGenerator/CPPBindingGenerator.py:23-24 | the comprehension holds one entry per passing element; the passing element at index `i` gives the entry at position "number of passing elements before `i`", so exactly the kept elements, in order |
| Seqs.FilterMapConcat | CPPBindingGenerator/CPPBindingGenerator.py:49 | filtering a concatenation is the concatenation of the filtered parts, so order is preserved |
| Seqs.FilterMapMembership | CPPBindingGenerator/CPPBindingGenerator.py:49 | a value is in the comprehension iff some passing element maps to it |
| Seqs.FilterMapThroughId | CPPBindingGenerator/CPPBindingGenerator.py:133-144 | filtering with a transformation and filtering without one keep the same elements, position by position |
| Extraction.GetAnnotationsExact | CPPBindingGenerator/CPPBindingGenerator.py:19-24 | `get_annotations` gives exactly the display names of the `ANNOTATE_ATTR` children, in child order, and `[]` iff there is none |
| Extraction.MakeClassExact | CPPBindingGenerator/CPPBindingGenerator.py:32-50 | a class record copies the cursor's spelling and annotations; its functions are the public `CXX_METHOD` children in order, each copying spelling, virtual flag and `get_annotations` of the method |
| Extraction.MakeClassFunctionsFromPublicMethods | CPPBindingGenerator/CPPBindingGenerator.py:49 | a function is in the class record iff it is made from a public `CXX_METHOD` child (no constructors, fields, non-public methods or grandchildren) |
| Extraction.CollectClasses | CPPBindingGenerator/CPPBindingGenerator.py:52-66 | the loop with `append` and recursive `extend` returns exactly `BuildClasses`: per child in order, its record if a class, the classes inside it if a namespace, nothing otherwise |
| Extraction.ClassesAmongConcat | CPPBindingGenerator/CPPBindingGenerator.py:56-66 | the walk over a list of siblings is the walk over each part, concatenated |
| Extraction.ChildNotNamespace | CPPBindingGenerator/CPPBindingGenerator.py:57-64 | a non-namespace child adds its own record if it is a class and nothing otherwise, whatever lies below it |
| Extraction.NoNamespaceIsFilter | CPPBindingGenerator/CPPBindingGenerator.py:57-64 | without namespace children the walk is the plain filter of the class declarations |
| Extraction.BuildClassesFlat | CPPBindingGenerator/CPPBindingGenerator.py:56-66 | with no namespace child, one record per `CLASS_DECL` child, in declaration order |
| Extraction.ClassesAmongSound | CPPBindingGenerator/CPPBindingGenerator.py:52-66 | every returned record is the record of a `CLASS_DECL` reached through `NAMESPACE` cursors only |
| Extraction.ClassesAmongComplete | CPPBindingGenerator/CPPBindingGenerator.py:52-66 | every `CLASS_DECL` reached through `NAMESPACE` cursors only has its record returned |
| Extraction.ClassesAmongScope | CPPBindingGenerator/CPPBindingGenerator.py:52-66 | a record is returned iff it belongs to a `CLASS_DECL` reached through `NAMESPACE` cursors only; classes nested in class bodies are never returned |
| Extraction.BuildClassesScope | CPPBindingGenerator/CPPBindingGenerator.py:52-66 | the same, stated for `build_classes` on a root cursor |
| ExtractionExamples.SingleClassUnit | CPPBindingGenerator/CPPBindingGenerator.py:56-66 | a unit whose only child is a class yields exactly that class's record |
| ExtractionExamples.NoChildrenNoAnnotations | CPPBindingGenerator/CPPBindingGenerator.py:19-24 | a cursor without children has the empty annotation list |
| ExtractionExamples.HiddenAnnotation | CPPBindingGenerator/TextComponent.h:19 | the `HIDDEN` method carries the annotation `hidden` |
| ExtractionExamples.TextComponentFunctions | CPPBindingGenerator/TextComponent.h:13-22 | the functions are `text`, `setText` and `superSecretFunction` (with `hidden`), without the constructor or `m_text` |
| ExtractionExamples.TextComponentAnnotations | CPPBindingGenerator/TextComponent.h:11 | the class cursor has no annotation child |
| ExtractionExamples.TextComponentExtracted | CPPBindingGenerator/TextComponent.h:11-23 | the header yields exactly the one `TextComponent` record |
| ExtractionExamples.FooRecord | CPPBindingGenerator/CPPBindingGenerator.py:49 | of a public and a private method only the public one is kept |
| ExtractionExamples.FooExtracted | CPPBindingGenerator/CPPBindingGenerator.py:56-66 | a unit holding only that class yields its single record |
| ExtractionExamples.HostRecord | CPPBindingGenerator/CPPBindingGenerator.py:49 | a nested class declaration is not a function of its host |
| ExtractionExamples.ScopesExtracted | CPPBindingGenerator/CPPBindingGenerator.py:52-66 | a class two namespaces deep is found, a class nested in a class body is not, order follows the tree |
| PyStr.ReplaceIsJoinOfSplit | CPPBindingGenerator/CPPBindingGenerator.py:137-142 | `s.replace(p, r)` equals `r.join(s.split(p))` for a non-empty pattern |
| PyStr.SplitJoinRoundTrip | CPPBindingGenerator/CPPBindingGenerator.py:137-142 | joining the pieces of a split with the separator restores the string |
| PyStr.ReplaceSkipsPrefix | CPPBindingGenerator/CPPBindingGenerator.py:140-141 | a prefix without the pattern's first character passes through `replace` unchanged |
| PyStr.ReplaceKeepsHead | CPPBindingGenerator/CPPBindingGenerator.py:137-142 | a string not starting with the pattern's first character keeps that character |
| PyStr.ReplaceCharCons | CPPBindingGenerator/CPPBindingGenerator.py:137-139 | with a one-character pattern `replace` works character by character |
| Naming.CleanDirPathIsSanitize | CPPBindingGenerator/CPPBindingGenerator.py:137-139 | the three chained replacements drop every `.` and turn every `/` and `\` into `_`, character by character |
| Naming.SanitizeProperties | CPPBindingGenerator/CPPBindingGenerator.py:137-139 | the sanitised path has no `.`, `/` or `\`, and is shorter than the path by its number of dots |
| Naming.CleanDirPathProperties | CPPBindingGenerator/CPPBindingGenerator.py:137-139 | `cleanDirPath` has no `.`, `/` or `\`, and its length is that of `dirPath` less its dots |
| Naming.BindFileNameRewritesFileNameOnly | CPPBindingGenerator/CPPBindingGenerator.py:140-141 | the `.h` to `.cpp` replacement leaves `"P" + cleanDirPath + "_"` alone and rewrites only the file name |
| Naming.BindAndExportNamesAgree | CPPBindingGenerator/CPPBindingGenerator.py:140-142 | the binding file name and export name cut the file name at the same `.h` occurrences, joining with `.cpp` and with nothing |
| Naming.PlainHeaderNames | CPPBindingGenerator/CPPBindingGenerator.py:133-142 | for `base.h` with no other dot: a header, bound as `P<clean dir>_<base>.cpp`, exporting `base` |
| NamingExamples.SanitizeConcat | CPPBindingGenerator/CPPBindingGenerator.py:137-139 | sanitising works piece by piece |
| NamingExamples.SanitizePlain | CPPBindingGenerator/CPPBindingGenerator.py:137-139 | a path segment with no dot or separator is kept |
| NamingExamples.RelativePath | CPPBindingGenerator/CPPBindingGenerator.py:137-139 | `./a/b` becomes `_a_b` |
| NamingExamples.ButtonsDir | CPPBindingGenerator/CPPBindingGenerator.py:137-139 | `./juce_gui_basics/buttons` becomes `_juce_gui_basics_buttons` |
| NamingExamples.ImageButtonNames | CPPBindingGenerator/output/P_juce_gui_basics_buttons_juce_ImageButton.cpp:7 | `juce_ImageButton.h` is bound as `P_juce_gui_basics_buttons_juce_ImageButton.cpp`, exporting `juce_ImageButton` |
| NamingExamples.ButtonsHeaderNames | CPPBindingGenerator/output/P_juce_gui_basics_buttons_juce_ArrowButton.cpp:7 | any `base.h` with no other dot in `./juce_gui_basics/buttons` is a header, bound as `P_juce_gui_basics_buttons_<base>.cpp`, exporting `base` (as for `juce_ArrowButton`, `juce_ImageButton` and `juce_ToggleButton`) |
| NamingExamples.InnerOccurrenceRewritten | CPPBindingGenerator/CPPBindingGenerator.py:142 | every `.h` is removed, not only the extension: `a.hpp.h` exports `app` |
| Driver.Binder.constructor | CPPBindingGenerator/CPPBindingGenerator.py:180 | the list of bound names starts empty |
| Driver.Binder.BindHeader | CPPBindingGenerator/CPPBindingGenerator.py:133-144 | a header is bound with the derived names and its extracted classes, and its raw name appended, earlier entries unchanged; any other file changes nothing |
| Driver.Binder.BindFiles | CPPBindingGenerator/CPPBindingGenerator.py:132-144 | over one directory, the bindings are those of the headers in listing order, and exactly the header names are appended, in order |
| Driver.BindingsSnoc | CPPBindingGenerator/CPPBindingGenerator.py:132-143 | one more file adds its binding iff it is a header |
| Driver.HeadersSnoc | CPPBindingGenerator/CPPBindingGenerator.py:132-144 | one more file appends its name iff it is a header |
| Driver.HeadersAreTheListedHeaders | CPPBindingGenerator/CPPBindingGenerator.py:133-144 | a name is appended iff it is one of the files and ends in `.h`, and it is appended with its extension |
| Driver.BindingsMatchHeaders | CPPBindingGenerator/CPPBindingGenerator.py:133-144 | as many bindings as appended names (the number of headers), the `k`-th binding being that of the `k`-th appended name |

## Left out

- Parsing: libclang's `index.parse` (line 134) is the parameter `parse`. It maps the directory and file name to a cursor tree. Compiler arguments, diagnostics and include files are not modelled. The tree keeps only the cursor kinds the code tests for; every other kind becomes `Other`. `is_virtual_method()` is the field `isVirtual`.
- The directory walk: `os.walk` together with the explicit recursion into sub-directories (lines 131, 145-146). Only the loop over one directory's files is modelled. The walk covers the whole subtree through `os.walk`, names every header after the call's own `dirPath`, and recurses into `os.path.join(dirPath, subdir)` for the sub-directories of every directory it walks. A header `k` levels below the root is therefore bound `k + 1` times, under `k + 1` different binding names, and its name is appended `k + 1` times. From depth 2 on, the join also puts a grandchild under the wrong parent (`R/b` for `R/a/b`). That path is walked as empty when it does not exist, and a wrong directory is walked when it does. The model therefore makes no claim that `boundFileNames` has no duplicates.
- In the modelled loop, `fpath` is the same for every file of one call. This matches one iteration of `os.walk`, whose choice of directories is not modelled.
- Template rendering and file writes (`writeToExportedFile`, `writeToExportedModule`, lines 110-127). Each written file is the returned `Binding` record. The module file gets the raw `.h` names. Its template is not part of this model, so what it makes of them is not modelled either.
- Library set-up, the `CLANG_PATH` and argument checks, and the `__main__` block (lines 157-196).
- Declarations the extractor does not look for are left out just as the code leaves them out. `struct`s (`STRUCT_DECL`), class templates and unions have kinds other than `CLASS_DECL`, and become `Other` in the model. Classes inside `extern "C++"` blocks are skipped because the block's own cursor is not a `NAMESPACE`, so the walk does not descend into it. The same holds for destructors, conversion operators and member function templates, which are not `CXX_METHOD`. No lemma claims that these are extracted.
- Console output: the `print` in `Class.__init__` (line 46), and the debug helpers `print_functions`, `print_node`, `print_code` and `printDiagnostics` (lines 73-108). `node_children` (lines 68-71) is an unused identity filter.
- ExtractionExamples.TextComponentAnnotations: clang ignores an attribute written before the `class` keyword. So the `SCRIPTED` marker at `TextComponent.h:11` is taken to give the class cursor no annotation child.
- A file-name extension is not a concept of the model. The code removes every `.h` in a name, and the model does the same. A name such as `a.hpp.h` therefore does not export "the name without its extension" (see NamingExamples.InnerOccurrenceRewritten).
