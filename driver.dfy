/**
 * The per-header step of the directory walk: every header is parsed, its
 * classes extracted, its binding file and export function named, and its
 * file name appended to the list of bound files shared by the whole walk.
 */
module Driver {
  import opened Seqs
  import opened PyStr
  import opened Extraction
  import opened Naming

  datatype Option<T> = None | Some(value: T)

  /**
   * What `writeToExportedFile` is handed for one header: the name of the
   * binding file, the name of its exported function and the classes to render.
   */
  datatype Binding = Binding(bindFileName: string, exportFunctionName: string, classes: seq<Class>)

  /**
   * The binding of header `fileName` found in directory `fpath` of the walk
   * started at `dirPath`; `parse` stands for libclang's parser, given the
   * directory and the file name it joins into a path.
   */
  function BindingOf(dirPath: string, fpath: string, fileName: string, parse: (string, string) -> Node): Binding {
    Binding(BindFileName(dirPath, fileName), ExportFunctionName(fileName), BuildClasses(parse(fpath, fileName)))
  }

  /** The file names of one directory that are bound, in listing order. */
  function Headers(files: seq<string>): seq<string> {
    FilterMap(files, IsHeader, Id)
  }

  /** The bindings written for one directory, in listing order. */
  function Bindings(dirPath: string, fpath: string, files: seq<string>, parse: (string, string) -> Node): seq<Binding> {
    FilterMap(files, IsHeader, f => BindingOf(dirPath, fpath, f, parse))
  }

  /** The list of bound file names that the recursive walk threads through every call. */
  class Binder {
    var boundFileNames: seq<string>

    constructor()
      ensures boundFileNames == []
    {
      boundFileNames := [];
    }

    /**
     * One iteration of the loop over a directory's files: a header is bound
     * and its raw name appended; any other file is skipped.
     */
    method BindHeader(dirPath: string, fpath: string, fileName: string, parse: (string, string) -> Node)
      returns (written: Option<Binding>)
      modifies this
      ensures IsHeader(fileName) ==>
        written == Some(BindingOf(dirPath, fpath, fileName, parse)) &&
        boundFileNames == old(boundFileNames) + [fileName]
      ensures !IsHeader(fileName) ==> written == None && boundFileNames == old(boundFileNames)
    {
      if EndsWith(fileName, ".h") {
        var classes := CollectClasses(parse(fpath, fileName));
        var cleanDirPath := Replace(dirPath, ".", "");
        cleanDirPath := Replace(cleanDirPath, "/", "_");
        cleanDirPath := Replace(cleanDirPath, "\\", "_");
        var bindFileName := "P" + cleanDirPath + "_" + fileName;
        bindFileName := Replace(bindFileName, ".h", ".cpp");
        var exportFunctionName := Replace(fileName, ".h", "");
        written := Some(Binding(bindFileName, exportFunctionName, classes));
        boundFileNames := boundFileNames + [fileName];
      } else {
        written := None;
      }
    }

    /**
     * The loop over the files of one directory: the headers are bound in
     * listing order, and their names appended after the ones already there.
     */
    method BindFiles(dirPath: string, fpath: string, files: seq<string>, parse: (string, string) -> Node)
      returns (written: seq<Binding>)
      modifies this
      ensures written == Bindings(dirPath, fpath, files, parse)
      ensures boundFileNames == old(boundFileNames) + Headers(files)
    {
      written := [];
      var i := 0;
      while i < |files|
        invariant 0 <= i <= |files|
        invariant written == Bindings(dirPath, fpath, files[..i], parse)
        invariant boundFileNames == old(boundFileNames) + Headers(files[..i])
      {
        var fileName := files[i];
        ghost var appended := if IsHeader(fileName) then [fileName] else [];
        var bound := BindHeader(dirPath, fpath, fileName, parse);
        BindingsSnoc(dirPath, fpath, files, i, parse);
        HeadersSnoc(files, i);
        AppendAssoc(old(boundFileNames), Headers(files[..i]), appended);
        if bound.Some? {
          written := written + [bound.value];
        }
        i := i + 1;
      }
      assert files[..i] == files;
    }
  }

  /** Taking one more file adds its binding when it is a header, and nothing otherwise. */
  lemma BindingsSnoc(dirPath: string, fpath: string, files: seq<string>, i: nat, parse: (string, string) -> Node)
    requires i < |files|
    ensures Bindings(dirPath, fpath, files[..i + 1], parse) == Bindings(dirPath, fpath, files[..i], parse) +
      (if IsHeader(files[i]) then [BindingOf(dirPath, fpath, files[i], parse)] else [])
  {
    assert files[..i + 1] == files[..i] + [files[i]];
    FilterMapConcat(files[..i], [files[i]], IsHeader, f => BindingOf(dirPath, fpath, f, parse));
  }

  /** Taking one more file adds its name when it is a header, and nothing otherwise. */
  lemma HeadersSnoc(files: seq<string>, i: nat)
    requires i < |files|
    ensures Headers(files[..i + 1]) == Headers(files[..i]) + (if IsHeader(files[i]) then [files[i]] else [])
  {
    assert files[..i + 1] == files[..i] + [files[i]];
    FilterMapConcat(files[..i], [files[i]], IsHeader, Id);
  }

  /**
   * A name is appended exactly when it is one of the directory's files and
   * ends in `.h`; it is appended as it is, extension included.
   */
  lemma HeadersAreTheListedHeaders(files: seq<string>, name: string)
    ensures name in Headers(files) <==> name in files && IsHeader(name)
  {
    FilterMapMembership(files, IsHeader, Id, name);
    if name in files && IsHeader(name) {
      var i :| 0 <= i < |files| && files[i] == name;
    }
  }

  /**
   * One name is appended per header and one binding written per header, in
   * the same order: the `k`-th binding is that of the `k`-th appended name.
   */
  lemma BindingsMatchHeaders(dirPath: string, fpath: string, files: seq<string>, parse: (string, string) -> Node)
    ensures |Bindings(dirPath, fpath, files, parse)| == |Headers(files)| == Count(files, IsHeader)
    ensures forall k :: 0 <= k < |Headers(files)| ==>
      Bindings(dirPath, fpath, files, parse)[k] == BindingOf(dirPath, fpath, Headers(files)[k], parse)
  {
    FilterMapThroughId(files, IsHeader, f => BindingOf(dirPath, fpath, f, parse));
    FilterMapExact(files, IsHeader, Id);
  }
}
