/**
 * Per-header naming: the directory path is sanitised into a file-name
 * fragment, from which the binding file name is built, and the header name
 * gives the name of the exported registration function.
 */
module Naming {
  import opened PyStr

  /** Only file names ending in `.h` are bound. */
  predicate IsHeader(fileName: string) {
    EndsWith(fileName, ".h")
  }

  /** `cleanDirPath`: dots dropped, then both kinds of path separator turned into `_`. */
  function CleanDirPath(dirPath: string): string {
    Replace(Replace(Replace(dirPath, ".", ""), "/", "_"), "\\", "_")
  }

  /** `bindFileName`: every `.h` of `"P" + cleanDirPath + "_" + fileName` becomes `.cpp`. */
  function BindFileName(dirPath: string, fileName: string): string {
    Replace("P" + CleanDirPath(dirPath) + "_" + fileName, ".h", ".cpp")
  }

  /** `exportFunctionName`: the file name with every `.h` removed. */
  function ExportFunctionName(fileName: string): string {
    Replace(fileName, ".h", "")
  }

  /** What `cleanDirPath` makes of one character of the directory path. */
  function SanitizeChar(c: char): string {
    if c == '.' then [] else if c == '/' || c == '\\' then "_" else [c]
  }

  /** A character-by-character account of `cleanDirPath`. */
  function Sanitize(dirPath: string): string {
    if dirPath == [] then [] else SanitizeChar(dirPath[0]) + Sanitize(dirPath[1..])
  }

  /** The three chained replacements act character by character. */
  lemma {:induction false} CleanDirPathIsSanitize(dirPath: string)
    ensures CleanDirPath(dirPath) == Sanitize(dirPath)
  {
    if dirPath != [] {
      var x, t := dirPath[0], dirPath[1..];
      assert dirPath == [x] + t;
      CleanDirPathIsSanitize(t);
      var r1 := Replace(t, ".", "");
      var r2 := Replace(r1, "/", "_");
      ReplaceCharCons(x, t, '.', "");
      if x != '.' {
        assert Replace(dirPath, ".", "") == [x] + r1;
        ReplaceCharCons(x, r1, '/', "_");
        var y := if x == '/' then '_' else x;
        assert Replace([x] + r1, "/", "_") == [y] + r2;
        ReplaceCharCons(y, r2, '\\', "_");
        assert Replace([y] + r2, "\\", "_") == SanitizeChar(x) + Replace(r2, "\\", "_");
      } else {
        assert Replace(dirPath, ".", "") == r1;
      }
      assert Sanitize(dirPath) == SanitizeChar(x) + Sanitize(t);
    }
  }

  /**
   * The sanitised path holds no dot and no path separator, and is shorter
   * than the path by exactly its number of dots.
   */
  lemma {:induction false} SanitizeProperties(dirPath: string)
    ensures '.' !in Sanitize(dirPath) && '/' !in Sanitize(dirPath) && '\\' !in Sanitize(dirPath)
    ensures |Sanitize(dirPath)| == |dirPath| - multiset(dirPath)['.']
  {
    if dirPath != [] {
      SanitizeProperties(dirPath[1..]);
      assert dirPath == [dirPath[0]] + dirPath[1..];
      assert multiset(dirPath) == multiset([dirPath[0]]) + multiset(dirPath[1..]);
    }
  }

  /**
   * `cleanDirPath` contains no `.`, `/` or `\`, and its length is that of
   * the directory path less the number of dots in it.
   */
  lemma CleanDirPathProperties(dirPath: string)
    ensures '.' !in CleanDirPath(dirPath) && '/' !in CleanDirPath(dirPath) && '\\' !in CleanDirPath(dirPath)
    ensures |CleanDirPath(dirPath)| == |dirPath| - multiset(dirPath)['.']
  {
    CleanDirPathIsSanitize(dirPath);
    SanitizeProperties(dirPath);
  }

  /**
   * Since the prefix built from the directory has no dot, the `.h`
   * replacement only rewrites the file name part of the binding file name.
   */
  lemma BindFileNameRewritesFileNameOnly(dirPath: string, fileName: string)
    ensures BindFileName(dirPath, fileName) == "P" + CleanDirPath(dirPath) + "_" + Replace(fileName, ".h", ".cpp")
  {
    var prefix := "P" + CleanDirPath(dirPath) + "_";
    CleanDirPathProperties(dirPath);
    assert '.' !in prefix;
    ReplaceSkipsPrefix(prefix, fileName, ".h", ".cpp");
  }

  /**
   * The binding file name and the export name cut the file name at the same
   * places, the pieces of `fileName.split(".h")`: the first joins them with
   * `.cpp`, the second with nothing.
   */
  lemma BindAndExportNamesAgree(dirPath: string, fileName: string)
    ensures BindFileName(dirPath, fileName) == "P" + Sanitize(dirPath) + "_" + Join(Split(fileName, ".h"), ".cpp")
    ensures ExportFunctionName(fileName) == Join(Split(fileName, ".h"), "")
  {
    BindFileNameRewritesFileNameOnly(dirPath, fileName);
    CleanDirPathIsSanitize(dirPath);
    ReplaceIsJoinOfSplit(fileName, ".h", ".cpp");
    ReplaceIsJoinOfSplit(fileName, ".h", "");
  }

  /**
   * For a header `base + ".h"` with no other dot, the binding file is
   * `P<sanitised dir>_<base>.cpp` and the export name is `base`.
   */
  lemma PlainHeaderNames(dirPath: string, base: string)
    requires '.' !in base
    ensures IsHeader(base + ".h")
    ensures BindFileName(dirPath, base + ".h") == "P" + Sanitize(dirPath) + "_" + base + ".cpp"
    ensures ExportFunctionName(base + ".h") == base
  {
    var f := base + ".h";
    assert f[|f| - 2..] == ".h";
    ReplaceSkipsPrefix(base, ".h", ".h", ".cpp");
    ReplaceSkipsPrefix(base, ".h", ".h", "");
    ReplaceCharCons('.', "h", '.', ".");
    assert ".h"[..2] == ".h";
    assert Replace(".h", ".h", ".cpp") == ".cpp";
    assert Replace(".h", ".h", "") == "";
    BindFileNameRewritesFileNameOnly(dirPath, f);
    CleanDirPathIsSanitize(dirPath);
  }
}
