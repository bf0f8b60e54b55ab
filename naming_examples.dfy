/**
 * The names the generator gave the JUCE button headers, derived from the
 * naming rules.
 */
module NamingExamples {
  import opened PyStr
  import opened Naming

  /** Sanitising works piece by piece. */
  lemma {:induction false} SanitizeConcat(a: string, b: string)
    ensures Sanitize(a + b) == Sanitize(a) + Sanitize(b)
  {
    if a == [] {
      assert a + b == b;
    } else {
      assert (a + b)[0] == a[0];
      assert (a + b)[1..] == a[1..] + b;
      SanitizeConcat(a[1..], b);
    }
  }

  /** A path segment without dots or separators is kept as it is. */
  lemma {:induction false} SanitizePlain(s: string)
    requires '.' !in s && '/' !in s && '\\' !in s
    ensures Sanitize(s) == s
  {
    if s != [] {
      assert s[0] in s;
      assert forall c :: c in s[1..] ==> c in s;
      SanitizePlain(s[1..]);
    }
  }

  lemma SanitizeDotSlash()
    ensures Sanitize("./") == "_"
  {
    assert "./"[1..] == "/";
    assert "/"[1..] == [];
  }

  lemma SanitizeSlash(b: string)
    requires '.' !in b && '/' !in b && '\\' !in b
    ensures Sanitize("/" + b) == "_" + b
  {
    assert ("/" + b)[0] == '/';
    assert ("/" + b)[1..] == b;
    SanitizePlain(b);
  }

  /** A relative path `./a/b` becomes `_a_b`. */
  lemma RelativePath(a: string, b: string)
    requires '.' !in a && '/' !in a && '\\' !in a
    requires '.' !in b && '/' !in b && '\\' !in b
    ensures Sanitize("./" + a + "/" + b) == "_" + a + "_" + b
  {
    var front, back := "./" + a, "/" + b;
    assert "./" + a + "/" + b == front + back;
    SanitizeConcat(front, back);
    SanitizeConcat("./", a);
    SanitizeDotSlash();
    SanitizePlain(a);
    SanitizeSlash(b);
    assert ("_" + a) + ("_" + b) == "_" + a + "_" + b;
  }

  // Facts about string literals, each in a lemma of its own so that no
  // other proof has to compare long literals.

  lemma ButtonsPathPieces()
    ensures "./juce_gui_basics/buttons" == "./" + "juce_gui_basics" + "/" + "buttons"
  {
  }

  lemma ButtonsCleanPieces()
    ensures "_" + "juce_gui_basics" + "_" + "buttons" == "_juce_gui_basics_buttons"
  {
  }

  /** The sanitised form of `./juce_gui_basics/buttons`. */
  lemma ButtonsDir(dirPath: string)
    requires dirPath == "./juce_gui_basics/buttons"
    ensures Sanitize(dirPath) == "_juce_gui_basics_buttons"
  {
    ButtonsPathPieces();
    RelativePath("juce_gui_basics", "buttons");
    ButtonsCleanPieces();
  }

  lemma ButtonsPrefix()
    ensures "P" + "_juce_gui_basics_buttons" + "_" == "P_juce_gui_basics_buttons_"
  {
    assert "P" + "_juce_gui_basics_buttons" == "P_juce_gui_basics_buttons";
  }

  /**
   * A header `base.h` with no other dot under `./juce_gui_basics/buttons` is
   * bound as `P_juce_gui_basics_buttons_<base>.cpp`, exporting `base`.
   */
  lemma ButtonsHeaderNames(dirPath: string, base: string)
    requires dirPath == "./juce_gui_basics/buttons" && '.' !in base
    ensures IsHeader(base + ".h")
    ensures BindFileName(dirPath, base + ".h") == "P_juce_gui_basics_buttons_" + base + ".cpp"
    ensures ExportFunctionName(base + ".h") == base
  {
    PlainHeaderNames(dirPath, base);
    ButtonsDir(dirPath);
    ButtonsPrefix();
  }

  lemma ImageButtonPieces()
    ensures "juce_ImageButton.h" == "juce_ImageButton" + ".h"
    ensures "P_juce_gui_basics_buttons_" + "juce_ImageButton" + ".cpp" == "P_juce_gui_basics_buttons_juce_ImageButton.cpp"
  {
    var prefix, name := "P_juce_gui_basics_buttons_", "juce_ImageButton";
    assert name + ".cpp" == "juce_ImageButton.cpp";
    assert prefix + name + ".cpp" == prefix + (name + ".cpp");
  }

  /**
   * `juce_ImageButton.h` under `./juce_gui_basics/buttons` is bound as
   * `P_juce_gui_basics_buttons_juce_ImageButton.cpp`, exporting
   * `juce_ImageButton`.
   */
  lemma ImageButtonNames(dirPath: string, fileName: string)
    requires dirPath == "./juce_gui_basics/buttons" && fileName == "juce_ImageButton.h"
    ensures IsHeader(fileName)
    ensures BindFileName(dirPath, fileName) == "P_juce_gui_basics_buttons_juce_ImageButton.cpp"
    ensures ExportFunctionName(fileName) == "juce_ImageButton"
  {
    ImageButtonPieces();
    ButtonsHeaderNames(dirPath, "juce_ImageButton");
  }

  /**
   * Every `.h` is rewritten, not only the extension: `a.hpp.h` exports
   * `app`.
   */
  lemma InnerOccurrenceRewritten()
    ensures ExportFunctionName("a.hpp.h") == "app"
  {
    var s := "a.hpp.h";
    assert Replace(s, ".h", "") == "a" + Replace(s[1..], ".h", "") by {
      assert s[..2] != ".h";
    }
    assert Replace(s[1..], ".h", "") == Replace(s[3..], ".h", "") by {
      assert s[1..][..2] == ".h";
      assert s[1..][2..] == s[3..];
    }
    assert Replace(s[3..], ".h", "") == "pp" + Replace(s[5..], ".h", "") by {
      assert s[3..][..2] != ".h";
      assert s[3..][1..] == s[4..];
      assert s[4..][..2] != ".h";
      assert s[4..][1..] == s[5..];
    }
    assert Replace(s[5..], ".h", "") == "" by {
      assert s[5..][..2] == ".h";
      assert s[5..][2..] == [];
    }
  }
}
