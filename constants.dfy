/** The file-extension tables the loader dispatches on. */
module Constants {
  import opened Text

  /** Suffixes of JPK files: a tuple, so membership is equality with an entry. */
  const JpkFiles: seq<string> := [".jpk-force", ".jpk-force-map", ".jpk-qi-data"]

  /** Suffixes of Nanoscope files: a tuple as well. */
  const NanoscFiles: seq<string> := [".spm", ".pfc"]

  /** The UFF suffix. Parentheses around a single string make no tuple, so
      `suffix in UffFiles` is a substring test. */
  const UffFiles: string := ".uff"

  /** The Asylum Research suffix, a plain string in the same way. */
  const ArExts: string := ".ibw"

  /** For a file suffix (empty, or starting with a dot) and a table whose only
      dot is its first character, the substring test is a prefix test. */
  lemma SuffixInStringTable(x: string, table: string)
    requires table != [] && table[0] == '.' && '.' !in table[1..]
    requires x == [] || x[0] == '.'
    ensures IsSubstring(x, table) <==> x <= table
  {
    if x != [] && IsSubstring(x, table) && !(x <= table) {
      SubstringHead(x, table[1..]);
    }
  }

  /** The prefixes of a four-character string. */
  lemma PrefixesOfFour(x: string, t: string)
    requires |t| == 4
    ensures x <= t <==> x in {t[..0], t[..1], t[..2], t[..3], t}
  {
    if x <= t {
      assert x == t[..|x|];
      assert t[..4] == t;
    }
  }

  /** The suffixes that pass the test against `UffFiles`: exactly its prefixes. */
  lemma UffFilesMembers(x: string)
    requires x == [] || x[0] == '.'
    ensures IsSubstring(x, UffFiles) <==> x in {"", ".", ".u", ".uf", ".uff"}
  {
    SuffixInStringTable(x, UffFiles);
    PrefixesOfFour(x, UffFiles);
    assert UffFiles[..0] == "" && UffFiles[..1] == "." && UffFiles[..2] == ".u" && UffFiles[..3] == ".uf";
  }

  /** The suffixes that pass the test against `ArExts`: exactly its prefixes. */
  lemma ArExtsMembers(x: string)
    requires x == [] || x[0] == '.'
    ensures IsSubstring(x, ArExts) <==> x in {"", ".", ".i", ".ib", ".ibw"}
  {
    SuffixInStringTable(x, ArExts);
    PrefixesOfFour(x, ArExts);
    assert ArExts[..0] == "" && ArExts[..1] == "." && ArExts[..2] == ".i" && ArExts[..3] == ".ib";
  }
}
