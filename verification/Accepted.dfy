/** What a release looks like that the verifier accepts (release_bundle.rs), read off its tree and its manifest. */
module Accepted {
  import opened Basics
  import opened Paths
  import opened Release
  import opened Manifest

  /** Each of the two modes has one spelling. */
  lemma ModeTexts(t: string)
    ensures ParseMode(t) == Some(0x16D) <==> t == "0555"
    ensures ParseMode(t) == Some(0x124) <==> t == "0444"
  {
    if ParseMode(t).Some? {
      ModeDigits(t);
    }
  }

  /** Two texts of four octal digits with the same value are the same. */
  lemma ModeDigits(t: string)
    requires ParseMode(t).Some?
    ensures ParseMode(t) == Some(0x16D) ==> t == "0555"
    ensures ParseMode(t) == Some(0x124) ==> t == "0444"
  {
    var a, b, c, d := Value(t[0]), Value(t[1]), Value(t[2]), Value(t[3]);
    assert t == [t[0], t[1], t[2], t[3]];
  }

  /** The name is something, a dot, and this. */
  predicate HasSuffix(name: string, ext: string) {
    exists i :: 0 < i < |name| && name[i] == '.' && name[i + 1..] == ext
  }

  lemma ExtensionIsSuffix(name: string, ext: string)
    requires Extension(name) == Some(ext)
    ensures HasSuffix(name, ext)
  {
    var i :| 0 < i < |name| && LastDot(name, i) && name[i + 1..] == ext;
  }

  predicate CompiledAsset(p: Path) {
    |p| == 3 && p[0] == "web" && p[1] == "assets"
    && (HasSuffix(p[2], "js") || HasSuffix(p[2], "css") || HasSuffix(p[2], "woff2"))
  }

  /** A directory of the layout, open to all and writable by none. */
  predicate LayoutDirectory(p: Path, node: Node) {
    node.Directory? && node.mode == 0x16D && p in {["bin"], ["systemd"], ["web"], ["web", "assets"]}
  }

  /** A file of the layout with a single name and nothing writable; only the server binary may be run. */
  predicate LayoutFile(p: Path, node: Node) {
    && node.File? && node.links == 1 && node.size <= 512 * 1024 * 1024
    && node.mode == (if p == ["bin", "host-monitoring-server"] then 0x16D else 0x124)
    && (p in {["README.md"], ["bin", "host-monitoring-server"], ["systemd", "host-monitoring-server.service"], ["web", "index.html"]}
        || CompiledAsset(p))
  }

  /** The entry names this path and says exactly what is there. */
  predicate EntryStates(e: Entry, p: Path, node: Node) {
    && Components(e.text) == Some(p)
    && (node.Directory? ==> e.DirectoryEntry? && e.mode == "0555")
    && (node.File? ==>
          && e.FileEntry? && e.size == node.size && e.sha256 == node.digest
          && e.mode == if p == ["bin", "host-monitoring-server"] then "0555" else "0444")
  }

  /** The manifest has exactly one entry for the path. */
  ghost predicate StatedOnce(es: seq<Entry>, p: Path, node: Node) {
    exists i :: 0 <= i < |es| && EntryStates(es[i], p, node) && forall j :: 0 <= j < |es| && Components(es[j].text) == Some(p) ==> j == i
  }

  lemma AllowedIsLayout(expected: Expected, p: Path, node: Node)
    requires LayoutHolds(expected) && p in expected && EntryOk(expected[p]) && EntryDescribes(expected[p], node) && PathOf(expected[p]) == p
    ensures LayoutDirectory(p, node) || LayoutFile(p, node)
    ensures EntryStates(expected[p], p, node)
  {
    var e := expected[p];
    ModeTexts(e.mode);
    assert Allowed(p, e);
    if node.File? {
      FileMode(expected, p);
      if p !in FIXED_FILES {
        AssetSuffix(p);
      }
    }
  }

  lemma AssetSuffix(p: Path)
    requires IsAsset(p)
    ensures CompiledAsset(p)
  {
    ExtensionIsSuffix(p[2], Extension(p[2]).value);
  }

  lemma FileMode(expected: Expected, p: Path)
    requires LayoutHolds(expected) && p in expected && expected[p].FileEntry? && EntryOk(expected[p]) && PathOf(expected[p]) == p
    ensures expected[p].mode == if p == BINARY then "0555" else "0444"
  {
    var e := expected[p];
    ModeTexts(e.mode);
    if p in FIXED_FILES {
      assert HasFile(expected, p);
    } else if e.text == SERVER_BINARY {
      BinaryComponents();
    }
  }

  lemma ListedOnce(es: seq<Entry>, p: Path, i: nat)
    requires EntriesOk(es) && i < |es| && PathOf(es[i]) == p
    ensures p in ExpectedOf(es) && ExpectedOf(es)[p] == es[i]
    ensures forall j :: 0 <= j < |es| && Components(es[j].text) == Some(p) ==> j == i
  {
    var paths := PathsOf(es);
    PairedHas(paths, es);
    assert paths[i] == p;
    forall j | 0 <= j < |es| && Components(es[j].text) == Some(p)
      ensures j == i
    {
      assert paths[j] == p;
    }
  }

  lemma IndexOf(es: seq<Entry>, p: Path) returns (i: nat)
    requires EntriesOk(es) && p in ExpectedOf(es)
    ensures i < |es| && PathOf(es[i]) == p
  {
    PairedKeys(PathsOf(es), es);
    i :| 0 <= i < |es| && PathsOf(es)[i] == p;
  }

  /** Everything in the tree of an accepted release but its manifest is part of the layout and stated exactly once. */
  lemma NothingElseInside(root: Node, es: seq<Entry>, p: Path)
    requires WellFormed(root) && Accepts(root, es) && p != [] && p[0] != MANIFEST && NodeAt(root, p).Some?
    ensures var node := NodeAt(root, p).value;
            (LayoutDirectory(p, node) || LayoutFile(p, node)) && StatedOnce(es, p, node)
  {
    var expected, node := ExpectedOf(es), NodeAt(root, p).value;
    var i := IndexOf(es, p);
    ListedOnce(es, p, i);
    AllowedIsLayout(expected, p, node);
    assert EntryStates(es[i], p, node);
  }

  /** A name of letters, digits, dots, underscores and hyphens that stays in its directory. */
  predicate PlainName(name: string) {
    && name != "" && name != "." && name != ".."
    && forall i :: 0 <= i < |name| ==>
         'a' <= name[i] <= 'z' || 'A' <= name[i] <= 'Z' || '0' <= name[i] <= '9' || name[i] in {'.', '_', '-'}
  }

  predicate PlainPath(p: Path) {
    p != [] && forall k :: 0 <= k < |p| ==> PlainName(p[k])
  }

  /** What stands between the slashes of a text is empty, a single dot or a plain name. */
  ghost predicate PlainText(t: string) {
    |t| <= 1024 && forall i: nat, j: nat :: IsPart(t, i, j) ==> t[i..j] == "" || t[i..j] == "." || PlainName(t[i..j])
  }

  lemma ValidIsPlain(t: string)
    requires ValidatedPath(t).Some?
    ensures PlainText(t) && PlainPath(ValidatedPath(t).value)
  {
    var p := ValidatedPath(t).value;
    ValidatedNonEmpty(t);
    forall name | ValidName(name)
      ensures PlainName(name)
    {
    }
    forall i: nat, j: nat | IsPart(t, i, j)
      ensures t[i..j] == "" || t[i..j] == "." || PlainName(t[i..j])
    {
      PartsOfValidated(t, i, j);
    }
  }

  lemma EntryAccepted(root: Node, es: seq<Entry>, i: nat)
    requires Accepts(root, es) && i < |es|
    ensures ValidatedPath(es[i].text).Some? && (i > 0 ==> Precedes(es[i - 1].text, es[i].text))
  {
    assert EntryOk(es[i]);
  }

  /** Entries ascend strictly, are at most 1024 long and name nothing outside the release, by whatever spelling. */
  lemma EntriesArePlain(root: Node, es: seq<Entry>, i: nat)
    requires Accepts(root, es) && i < |es|
    ensures PlainText(es[i].text) && (i > 0 ==> Precedes(es[i - 1].text, es[i].text))
    ensures Components(es[i].text).Some? && PlainPath(Components(es[i].text).value)
  {
    EntryAccepted(root, es, i);
    ValidIsPlain(es[i].text);
  }

  /** Every entry leads to a node of the tree; the fixed directories and files and some script are among them. */
  lemma NothingMissing(root: Node, es: seq<Entry>)
    requires WellFormed(root) && Accepts(root, es)
    ensures forall i :: 0 <= i < |es| ==> Components(es[i].text).Some? && NodeAt(root, Components(es[i].text).value).Some?
    ensures forall p | p in {["bin"], ["systemd"], ["web"], ["web", "assets"]} :: NodeAt(root, p).Some? && NodeAt(root, p).value.Directory?
    ensures forall p | p in {["README.md"], ["bin", "host-monitoring-server"], ["systemd", "host-monitoring-server.service"], ["web", "index.html"]} ::
              NodeAt(root, p).Some? && NodeAt(root, p).value.File?
    ensures exists p: Path :: ScriptAt(root, p)
  {
    var expected := ExpectedOf(es);
    forall i | 0 <= i < |es|
      ensures Components(es[i].text).Some? && NodeAt(root, Components(es[i].text).value).Some?
    {
      ListedOnce(es, PathOf(es[i]), i);
    }
    FixedPresent(root, expected);
    SomeScript(root, expected);
  }

  lemma FixedPresent(root: Node, expected: Expected)
    requires LayoutHolds(expected) && Exact(root, expected)
    ensures forall p <- DIRECTORIES :: NodeAt(root, p).Some? && NodeAt(root, p).value.Directory?
    ensures forall p <- FIXED_FILES :: NodeAt(root, p).Some? && NodeAt(root, p).value.File?
  {
    forall p | p in DIRECTORIES
      ensures NodeAt(root, p).Some? && NodeAt(root, p).value.Directory?
    {
      assert HasDirectory(expected, p) && EntryDescribes(expected[p], NodeAt(root, p).value);
    }
    forall p | p in FIXED_FILES
      ensures NodeAt(root, p).Some? && NodeAt(root, p).value.File?
    {
      assert HasFile(expected, p) && EntryDescribes(expected[p], NodeAt(root, p).value);
    }
  }

  lemma ScriptPath(p: Path)
    requires IsScript(p)
    ensures p == ["web", "assets", p[2]] && HasSuffix(p[2], "js")
  {
    ExtensionIsSuffix(p[2], "js");
  }

  /** A script among the compiled assets. */
  ghost predicate ScriptAt(root: Node, p: Path) {
    |p| == 3 && p == ["web", "assets", p[2]] && HasSuffix(p[2], "js") && NodeAt(root, p).Some? && NodeAt(root, p).value.File?
  }

  lemma SomeScript(root: Node, expected: Expected)
    requires LayoutHolds(expected) && Exact(root, expected)
    ensures exists p: Path :: ScriptAt(root, p)
  {
    var p :| p in expected && expected[p].FileEntry? && IsScript(p);
    ScriptPath(p);
    assert EntryDescribes(expected[p], NodeAt(root, p).value);
    assert ScriptAt(root, p);
  }

  /** The root itself, and the manifest in it. */
  ghost predicate RootWithManifest(root: Node) {
    && root.Directory? && root.mode == 0x16D && NodeAt(root, [MANIFEST]).Some?
    && var m := NodeAt(root, [MANIFEST]).value;
       m.File? && m.mode == 0x124 && m.links == 1 && m.size <= 8 * 1024 * 1024
  }

  lemma RootIs(root: Node)
    requires RootOk(root)
    ensures RootWithManifest(root)
  {
  }

  lemma EntryLimits(es: seq<Entry>)
    requires EntriesAccepted(es)
    ensures 1 <= |es| <= 10_000
  {
  }

  lemma RootLooksLike(root: Node, es: seq<Entry>)
    requires Accepts(root, es)
    ensures RootWithManifest(root) && 1 <= |es| <= 10_000 && Bytes(Items(root)) <= 1024 * 1024 * 1024
  {
    RootIs(root);
    EntryLimits(es);
  }
}
