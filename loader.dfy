/** `loadfile`: which vendor loader a path goes to, decided by its suffix. */
module Loader {
  import opened Text
  import opened Constants

  /** Index of the last `c` in `s[..n]`, or -1. */
  function LastIndexBefore(s: string, c: char, n: nat): (i: int)
    requires n <= |s|
    ensures -1 <= i < n
    ensures i >= 0 ==> s[i] == c
    ensures forall k :: i < k < n ==> s[k] != c
  {
    if n == 0 then -1
    else if s[n - 1] == c then n - 1
    else LastIndexBefore(s, c, n - 1)
  }

  /** Index of the last `c` in `s`, or -1 (`str.rfind`). */
  function LastIndexOf(s: string, c: char): (i: int)
    ensures -1 <= i < |s|
    ensures i >= 0 ==> s[i] == c
    ensures forall k :: i < k < |s| ==> s[k] != c
  {
    LastIndexBefore(s, c, |s|)
  }

  /** The final path component. */
  function Basename(p: string): string
  {
    p[LastIndexOf(p, '/') + 1..]
  }

  /** `os.path.splitext` with POSIX separators: the extension runs from the last
      dot of the final component, provided some character before that dot in
      the component is not a dot; otherwise it is empty. */
  function SplitExt(p: string): (parts: (string, string))
    ensures parts.0 + parts.1 == p
    ensures parts.1 == [] || (parts.1[0] == '.' && '.' !in parts.1[1..] && '/' !in parts.1)
  {
    var sepIndex := LastIndexOf(p, '/');
    var dotIndex := LastIndexOf(p, '.');
    if dotIndex > sepIndex && exists k :: sepIndex < k < dotIndex && p[k] != '.' then
      assert p[..dotIndex] + p[dotIndex..] == p;
      assert forall k :: 0 <= k < |p[dotIndex..]| ==> p[dotIndex..][k] == p[dotIndex + k];
      (p[..dotIndex], p[dotIndex..])
    else
      (p, "")
  }

  /** The suffix `loadfile` dispatches on. */
  function Suffix(p: string): string
  {
    SplitExt(p).1
  }

  /** Some character of `b` is not a dot and a later one is. */
  predicate HasDottedName(b: string)
  {
    exists i, j :: 0 <= i < j < |b| && b[i] != '.' && b[j] == '.'
  }

  /** Some character strictly between the last slash and the last dot of `p`
      is not a dot. */
  predicate RootBeforeDot(p: string)
  {
    exists k :: LastIndexOf(p, '/') < k < LastIndexOf(p, '.') && p[k] != '.'
  }

  /** The condition `splitext` tests, read off the path. */
  lemma SuffixNonEmpty(p: string)
    ensures Suffix(p) != [] <==> RootBeforeDot(p)
  {
    if RootBeforeDot(p) {
      var d := LastIndexOf(p, '.');
      assert Suffix(p) == p[d..];
    }
  }

  /** For any cut `s` and last dot `d` of `p`, a non-dot strictly between them
      is a non-dot followed by a dot in the text after the cut. */
  lemma DottedNameAfterCut(p: string, s: int, d: int)
    requires -1 <= s < |p| && -1 <= d < |p|
    requires d >= 0 ==> p[d] == '.'
    requires forall k :: d < k < |p| ==> p[k] != '.'
    ensures (exists k :: s < k < d && p[k] != '.') <==> HasDottedName(p[s + 1..])
  {
    var b := p[s + 1..];
    assert forall k :: 0 <= k < |b| ==> b[k] == p[s + 1 + k];
    if HasDottedName(b) {
      var i, j :| 0 <= i < j < |b| && b[i] != '.' && b[j] == '.';
      assert p[s + 1 + j] == '.';
      assert s < s + 1 + i < d && p[s + 1 + i] != '.';
    }
    if exists k :: s < k < d && p[k] != '.' {
      var k :| s < k < d && p[k] != '.';
      assert b[k - s - 1] != '.' && b[d - s - 1] == '.';
    }
  }

  /** The same condition, read off the final path component. */
  lemma RootBeforeDotIff(p: string)
    ensures RootBeforeDot(p) <==> HasDottedName(Basename(p))
  {
    var s, d := LastIndexOf(p, '/'), LastIndexOf(p, '.');
    DottedNameAfterCut(p, s, d);
    assert Basename(p) == p[s + 1..];
  }

  /** A path without a dot has no extension. */
  lemma NoDotNoSuffix(p: string)
    requires '.' !in p
    ensures Suffix(p) == []
  {
    var d := LastIndexOf(p, '.');
    assert d < 0;
  }

  /** A path has an extension exactly when its final component has a dot with a
      non-dot character somewhere before it, so leading dots do not count. */
  lemma SuffixIff(p: string)
    ensures Suffix(p) != [] <==> HasDottedName(Basename(p))
  {
    SuffixNonEmpty(p);
    RootBeforeDotIff(p);
  }

  /** The loaders `loadfile` can call, the JPK one with the suffix passed on;
      `NoLoader` stands for returning the freshly built, empty UFF object. */
  datatype Target = JpkLoader(suffix: string) | NanoscopeLoader | UffTextLoader | IbwLoader | NoLoader

  /** The if/elif chain of `loadfile`: the first table the suffix belongs to. */
  function Dispatch(filesuffix: string): Target
  {
    if filesuffix in JpkFiles then JpkLoader(filesuffix)
    else if filesuffix in NanoscFiles then NanoscopeLoader
    else if IsSubstring(filesuffix, UffFiles) then UffTextLoader
    else if IsSubstring(filesuffix, ArExts) then IbwLoader
    else NoLoader
  }

  /** `loadfile`: the loader chosen for a path. */
  function LoadTarget(filepath: string): Target
  {
    Dispatch(Suffix(filepath))
  }

  /** Which suffixes reach the JPK and Nanoscope loaders: the tuples are tested
      by equality with an entry. */
  lemma DispatchTuples(x: string)
    ensures Dispatch(x).JpkLoader? <==> x in {".jpk-force", ".jpk-force-map", ".jpk-qi-data"}
    ensures Dispatch(x).JpkLoader? ==> Dispatch(x).suffix == x
    ensures Dispatch(x) == NanoscopeLoader <==> x in {".spm", ".pfc"}
  {
  }

  /** Which suffixes reach the UFF text and Asylum Research loaders. Because
      those tables are strings, the empty suffix goes to the UFF text loader,
      and `.i` and `.ib` go to the Asylum Research loader. */
  lemma DispatchStrings(x: string)
    requires x == [] || x[0] == '.'
    ensures Dispatch(x) == UffTextLoader <==> x in {"", ".", ".u", ".uf", ".uff"}
    ensures Dispatch(x) == IbwLoader <==> x in {".i", ".ib", ".ibw"}
  {
    UffFilesMembers(x);
    ArExtsMembers(x);
    if x in JpkFiles || x in NanoscFiles {
      assert |x| != 4 || x[1] in {'s', 'p'};
    }
  }

  /** Which suffixes of a path reach which loader. */
  lemma LoadTargetBySuffix(p: string)
    ensures var x := Suffix(p);
            && (LoadTarget(p).JpkLoader? <==> x in {".jpk-force", ".jpk-force-map", ".jpk-qi-data"})
            && (LoadTarget(p).JpkLoader? ==> LoadTarget(p).suffix == x)
            && (LoadTarget(p) == NanoscopeLoader <==> x in {".spm", ".pfc"})
            && (LoadTarget(p) == UffTextLoader <==> x in {"", ".", ".u", ".uf", ".uff"})
            && (LoadTarget(p) == IbwLoader <==> x in {".i", ".ib", ".ibw"})
  {
    DispatchTuples(Suffix(p));
    DispatchStrings(Suffix(p));
  }

  /** The suffix of a plain file name that starts with a non-dot character
      runs from its last dot. */
  lemma SuffixOfFileName(p: string, d: int)
    requires 0 < d < |p| && p[d] == '.' && '.' !in p[d + 1..]
    requires '/' !in p && p[0] != '.'
    ensures Suffix(p) == p[d..]
  {
    assert forall k :: d < k < |p| ==> p[k] == p[d + 1..][k - d - 1];
  }

  /** An `.ibw` file goes to the Asylum Research loader. */
  lemma IbwPathExample()
    ensures LoadTarget("curve.ibw") == IbwLoader
  {
    SuffixOfFileName("curve.ibw", 5);
    assert "curve.ibw"[5..] == ".ibw";
    DispatchStrings(".ibw");
  }

  /** A path without an extension goes to the UFF text loader. */
  lemma BarePathExample()
    ensures LoadTarget("run/curve") == UffTextLoader
  {
    NoDotNoSuffix("run/curve");
    UffFilesMembers("");
  }

  /** A JPK force map goes to the JPK loader with its suffix. */
  lemma JpkPathExample()
    ensures LoadTarget("map.jpk-force-map") == JpkLoader(".jpk-force-map")
  {
    SuffixOfFileName("map.jpk-force-map", 3);
    assert "map.jpk-force-map"[3..] == ".jpk-force-map";
  }

  /** A `.txt` file reaches no loader. */
  lemma TextPathExample()
    ensures LoadTarget("scan.txt") == NoLoader
  {
    SuffixOfFileName("scan.txt", 4);
    assert "scan.txt"[4..] == ".txt";
    DispatchStrings(".txt");
  }

  /** The extension check of the Asylum Research loader (`suffix in ar_exts`)
      accepts any prefix of ".ibw", the empty suffix included. */
  lemma IbwExtensionCheck(p: string)
    ensures IsSubstring(Suffix(p), ArExts) <==> Suffix(p) in {"", ".", ".i", ".ib", ".ibw"}
  {
    ArExtsMembers(Suffix(p));
  }
}
