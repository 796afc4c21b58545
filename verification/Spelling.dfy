/** A release the verifier accepts although its manifest spells a path in a way that is not canonical. */
module Spelling {
  import opened Basics
  import opened Paths
  import opened Release
  import opened Manifest
  import opened ManifestWriter

  // ---- A release with every fixed file and one script ----

  const DIGEST: Sha256 := seq(64, _ => '0')
  const CONTENT: Node := File(READ_ONLY, 1, 0, DIGEST)
  const PROGRAM: Node := File(EXECUTABLE, 1, 0, DIGEST)

  const BIN: Node := Directory(EXECUTABLE, [Child("host-monitoring-server", PROGRAM)])
  const SYSTEMD: Node := Directory(EXECUTABLE, [Child("host-monitoring-server.service", CONTENT)])
  const ASSETS: Node := Directory(EXECUTABLE, [Child("app.js", CONTENT)])
  const WEB: Node := Directory(EXECUTABLE, [Child("assets", ASSETS), Child("index.html", CONTENT)])
  const RELEASE: Node :=
    Directory(EXECUTABLE, [Child("README.md", CONTENT), Child("bin", BIN), Child("systemd", SYSTEMD), Child("web", WEB),
                           Child(MANIFEST, CONTENT)])

  const UNIT: Path := ["systemd", "host-monitoring-server.service"]
  const SCRIPT: Path := ["web", "assets", "app.js"]

  /** What the walk lists, which is also the order of the texts. */
  const LISTED: seq<Item> :=
    [Item(["README.md"], CONTENT), Item(["bin"], BIN), Item(BINARY, PROGRAM), Item(["systemd"], SYSTEMD), Item(UNIT, CONTENT),
     Item(["web"], WEB), Item(["web", "assets"], ASSETS), Item(SCRIPT, CONTENT), Item(["web", "index.html"], CONTENT)]


  lemma Leaf(c: Child, relative: Path)
    requires !c.node.Directory? && relative + [c.name] != [MANIFEST]
    ensures OneListing(c, relative) == [Item(relative + [c.name], c.node)]
  {
  }

  lemma OneLeaf(c: Child, leaf: Child, relative: Path)
    requires c.node == Directory(EXECUTABLE, [leaf]) && !leaf.node.Directory? && relative + [c.name] != [MANIFEST]
    ensures OneListing(c, relative) == [Item(relative + [c.name], c.node), Item(relative + [c.name] + [leaf.name], leaf.node)]
  {
    Leaf(leaf, relative + [c.name]);
    assert Listing(c.node, 0, relative + [c.name]) == [];
    assert Listing(c.node, 1, relative + [c.name]) == [] + OneListing(leaf, relative + [c.name]);
  }

  lemma WebListed()
    ensures OneListing(Child("web", WEB), []) == LISTED[5..]
  {
    assert [] + ["web"] == ["web"];
    OneLeaf(Child("assets", ASSETS), Child("app.js", CONTENT), ["web"]);
    Leaf(Child("index.html", CONTENT), ["web"]);
    assert Listing(WEB, 0, ["web"]) == [];
    assert Listing(WEB, 1, ["web"]) == [] + OneListing(Child("assets", ASSETS), ["web"]);
    assert Listing(WEB, 2, ["web"]) == Listing(WEB, 1, ["web"]) + OneListing(Child("index.html", CONTENT), ["web"]);
    assert ["web"] + ["assets"] == ["web", "assets"] && ["web", "assets"] + ["app.js"] == SCRIPT;
    assert ["web"] + ["index.html"] == ["web", "index.html"];
  }

  lemma TopListed()
    ensures Listing(RELEASE, 3, []) == LISTED[..5]
  {
    assert [] + ["README.md"] == ["README.md"] && [] + ["bin"] == ["bin"] && [] + ["systemd"] == ["systemd"];
    Leaf(Child("README.md", CONTENT), []);
    OneLeaf(Child("bin", BIN), Child("host-monitoring-server", PROGRAM), []);
    OneLeaf(Child("systemd", SYSTEMD), Child("host-monitoring-server.service", CONTENT), []);
    assert ["bin"] + ["host-monitoring-server"] == BINARY && ["systemd"] + ["host-monitoring-server.service"] == UNIT;
    assert Listing(RELEASE, 0, []) == [];
    assert Listing(RELEASE, 1, []) == [] + OneListing(RELEASE.children[0], []);
    assert Listing(RELEASE, 2, []) == Listing(RELEASE, 1, []) + OneListing(RELEASE.children[1], []);
  }

  lemma AllListed()
    ensures Items(RELEASE) == LISTED
  {
    TopListed();
    WebListed();
    assert [] + [MANIFEST] == [MANIFEST];
    assert OneListing(Child(MANIFEST, CONTENT), []) == [];
    assert Listing(RELEASE, 4, []) == Listing(RELEASE, 3, []) + OneListing(Child("web", WEB), []);
    assert Listing(RELEASE, 5, []) == Listing(RELEASE, 4, []) + [];
  }

  lemma ReleaseWellFormed()
    ensures WellFormed(RELEASE)
  {
    assert WellFormed(BIN) && WellFormed(SYSTEMD) && WellFormed(ASSETS);
    assert WellFormed(WEB);
  }

  // ---- Its manifest ----

  lemma PlainWritable(item: Item)
    requires ValidNames(item.path) && item.path != [] && |TextOf(item)| <= MAX_PATH
    requires item.path != BINARY && item.path != [MANIFEST]
    requires item.node == CONTENT || (item.node.Directory? && item.node.mode == EXECUTABLE)
    ensures ItemWritable(item)
  {
    BinaryText();
    ManifestNameIsValid();
    if TextOf(item) == SERVER_BINARY {
      JoinInjective(item.path, BINARY);
    }
    if TextOf(item) == MANIFEST {
      JoinInjective(item.path, [MANIFEST]);
    }
  }

  lemma ProgramWritable()
    ensures ItemWritable(Item(BINARY, PROGRAM))
  {
    BinaryText();
  }

  lemma NamesAreValid()
    ensures ValidName("README.md") && ValidName("bin") && ValidName("systemd") && ValidName("web") && ValidName("assets")
    ensures ValidName("app.js") && ValidName("index.html") && ValidName("host-monitoring-server.service")
  {
  }

  lemma NameWritable(name: string, node: Node)
    requires ValidName(name) && name != MANIFEST && |name| <= MAX_PATH
    requires node == CONTENT || (node.Directory? && node.mode == EXECUTABLE)
    ensures ItemWritable(Item([name], node))
  {
    assert [name] != BINARY by { assert |[name]| != |BINARY|; }
    assert [name] != [MANIFEST] by { assert [name][0] != [MANIFEST][0]; }
    assert Join([name]) == name;
    assert ValidNames([name]);
    PlainWritable(Item([name], node));
  }

  lemma TwoWritable(first: string, second: string, node: Node)
    requires ValidName(first) && ValidName(second) && |first| + 1 + |second| <= MAX_PATH && first != "bin"
    requires node == CONTENT || (node.Directory? && node.mode == EXECUTABLE)
    ensures ItemWritable(Item([first, second], node))
  {
    assert [first, second] != BINARY by { assert [first, second][0] != BINARY[0]; }
    assert [first, second] != [MANIFEST] by { assert |[first, second]| != |[MANIFEST]|; }
    assert [first, second][1..] == [second];
    assert Join([first, second]) == first + "/" + second;
    assert ValidNames([first, second]);
    PlainWritable(Item([first, second], node));
  }

  lemma ScriptWritable()
    ensures ItemWritable(Item(SCRIPT, CONTENT))
  {
    NamesAreValid();
    Texts();
    PlainWritable(Item(SCRIPT, CONTENT));
  }

  lemma ListedWritable()
    ensures AllWritable(LISTED)
  {
    NamesAreValid();
    NameWritable("README.md", CONTENT);
    NameWritable("bin", BIN);
    ProgramWritable();
    NameWritable("systemd", SYSTEMD);
    TwoWritable("systemd", "host-monitoring-server.service", CONTENT);
    NameWritable("web", WEB);
    TwoWritable("web", "assets", ASSETS);
    ScriptWritable();
    TwoWritable("web", "index.html", CONTENT);
  }

  lemma {:induction false} PrefixPrecedes(a: string, rest: string)
    requires rest != ""
    ensures Precedes(a, a + rest)
  {
    if a != "" {
      PrefixPrecedes(a[1..], rest);
      assert (a + rest)[1..] == a[1..] + rest;
    }
  }

  lemma {:induction false} DifferPrecedes(p: string, a: string, b: string)
    requires a != "" && b != "" && a[0] < b[0]
    ensures Precedes(p + a, p + b)
  {
    if p == "" {
      assert p + a == a && p + b == b;
    } else {
      DifferPrecedes(p[1..], a, b);
      SameHead(p, a, b);
    }
  }

  lemma SameHead(p: string, a: string, b: string)
    requires p != "" && b != "" && Precedes(p[1..] + a, p[1..] + b)
    ensures Precedes(p + a, p + b)
  {
    assert (p + a)[1..] == p[1..] + a && (p + b)[1..] == p[1..] + b;
    assert (p + a)[0] == (p + b)[0];
  }

  lemma {:induction false} AdjacentAscend(items: seq<Item>)
    requires forall i :: 1 <= i < |items| ==> Precedes(TextOf(items[i - 1]), TextOf(items[i]))
    ensures TextsAscend(items)
  {
    if items != [] {
      var n := |items| - 1;
      AdjacentAscend(items[..n]);
      forall i | 0 <= i < n
        ensures Precedes(TextOf(items[i]), TextOf(items[n]))
      {
        if i < n - 1 {
          assert Precedes(TextOf(items[..n][i]), TextOf(items[..n][n - 1]));
          PrecedesTransitive(TextOf(items[i]), TextOf(items[n - 1]), TextOf(items[n]));
        }
      }
    }
  }

  /** The texts of the manifest, in order. */
  lemma Texts()
    ensures TextOf(LISTED[2]) == "bin" + ("/" + "host-monitoring-server")
    ensures TextOf(LISTED[4]) == "systemd" + ("/" + "host-monitoring-server.service")
    ensures TextOf(LISTED[6]) == "web" + ("/" + "assets") == "web/" + "assets"
    ensures TextOf(LISTED[7]) == ("web" + ("/" + "assets")) + ("/" + "app.js") == "web/" + ("assets" + ("/" + "app.js"))
    ensures TextOf(LISTED[8]) == "web/" + "index.html"
  {
    assert BINARY[1..] == ["host-monitoring-server"] && UNIT[1..] == ["host-monitoring-server.service"];
    assert ["web", "assets"][1..] == ["assets"] && SCRIPT[1..] == ["assets", "app.js"] && ["assets", "app.js"][1..] == ["app.js"];
    assert ["web", "index.html"][1..] == ["index.html"];
  }

  lemma ListedAscends()
    ensures TextsAscend(LISTED)
  {
    Texts();
    DifferPrecedes("", "README.md", "bin");
    PrefixPrecedes("bin", "/" + "host-monitoring-server");
    DifferPrecedes("", TextOf(LISTED[2]), "systemd");
    PrefixPrecedes("systemd", "/" + "host-monitoring-server.service");
    DifferPrecedes("", TextOf(LISTED[4]), "web");
    PrefixPrecedes("web", "/" + "assets");
    PrefixPrecedes(TextOf(LISTED[6]), "/" + "app.js");
    DifferPrecedes("web/", "assets" + ("/" + "app.js"), "index.html");
    AdjacentAscend(LISTED);
  }

  lemma ExtensionOf(name: string, i: nat)
    requires 0 < i < |name| && LastDot(name, i)
    ensures Extension(name) == Some(name[i + 1..])
  {
  }

  lemma ScriptIsAsset()
    ensures IsScript(SCRIPT) && IsAsset(SCRIPT)
  {
    ExtensionOf("app.js", 3);
    assert "app.js"[4..] == "js";
  }

  lemma HasItem(i: nat)
    requires i < |LISTED|
    ensures LISTED[i] in LISTED
  {
  }

  lemma DirectoriesListed(p: Path)
    requires p in DIRECTORIES
    ensures exists item: Item :: item in LISTED && item.path == p && item.node.Directory?
  {
    HasItem(1);
    HasItem(3);
    HasItem(5);
    HasItem(6);
  }

  lemma FilesListed(p: Path)
    requires p in FIXED_FILES
    ensures exists item: Item :: item in LISTED && item.path == p && item.node.File?
  {
    HasItem(0);
    HasItem(2);
    HasItem(4);
    HasItem(8);
  }

  lemma ListedAllowed(i: nat)
    requires i < |LISTED|
    ensures LISTED[i].node.Directory? ==> LISTED[i].path in DIRECTORIES
    ensures LISTED[i].node.File? ==> LISTED[i].path in FIXED_FILES || IsAsset(LISTED[i].path)
  {
    ScriptIsAsset();
  }

  lemma AllAllowed()
    ensures forall item <- LISTED :: item.node.Directory? ==> item.path in DIRECTORIES
    ensures forall item <- LISTED :: item.node.File? ==> item.path in FIXED_FILES || IsAsset(item.path)
  {
    forall item | item in LISTED
      ensures item.node.Directory? ==> item.path in DIRECTORIES
      ensures item.node.File? ==> item.path in FIXED_FILES || IsAsset(item.path)
    {
      var i :| 0 <= i < |LISTED| && LISTED[i] == item;
      ListedAllowed(i);
    }
  }

  lemma ScriptListed()
    ensures exists item <- LISTED :: item.node.File? && IsScript(item.path)
  {
    ScriptIsAsset();
    assert LISTED[7] in LISTED && LISTED[7].path == SCRIPT;
  }

  lemma ListedLayout()
    ensures TreeLayout(LISTED)
  {
    forall p | p in DIRECTORIES
      ensures exists item: Item :: item in LISTED && item.path == p && item.node.Directory?
    {
      DirectoriesListed(p);
    }
    forall p | p in FIXED_FILES
      ensures exists item: Item :: item in LISTED && item.path == p && item.node.File?
    {
      FilesListed(p);
    }
    AllAllowed();
    ScriptListed();
  }

  lemma {:induction false} Empty(items: seq<Item>)
    requires forall i :: 0 <= i < |items| ==> items[i].node.File? ==> items[i].node.size == 0
    ensures Bytes(items) == 0
  {
    if items != [] {
      Empty(items[..|items| - 1]);
    }
  }

  lemma RootIsOk()
    ensures RootOk(RELEASE)
  {
    ReleaseWellFormed();
    ChildAt(RELEASE, 4, [MANIFEST]);
    assert NodeAt(CONTENT, [MANIFEST][1..]) == Some(CONTENT);
  }

  /** A tree with the fixed layout whose walk lists its texts in order. */
  ghost predicate Presentable(root: Node, items: seq<Item>) {
    && WellFormed(root) && RootOk(root) && items == Items(root)
    && AllWritable(items) && TextsAscend(items) && TreeLayout(items)
    && |items| <= MAX_ENTRIES && Bytes(items) <= MAX_RELEASE_BYTES
  }

  lemma ListedFits()
    ensures |LISTED| <= MAX_ENTRIES && Bytes(LISTED) <= MAX_RELEASE_BYTES
  {
    Empty(LISTED);
  }

  lemma ReleaseIsPresentable()
    ensures Presentable(RELEASE, LISTED)
  {
    ListedWritable();
    ListedAscends();
    ListedLayout();
    ReleaseWellFormed();
    AllListed();
    RootIsOk();
    ListedFits();
  }

  /** The release is accepted with the entries the script writes for its tree. */
  lemma CanonicalAccepted()
    ensures SortItems(Items(RELEASE)) == LISTED && AllWritable(LISTED) && Accepts(RELEASE, EntriesFor(LISTED))
  {
    ReleaseIsPresentable();
    InOrderAccepted(RELEASE, LISTED);
    SortLeavesSorted(LISTED);
  }

  lemma InOrderAccepted(root: Node, items: seq<Item>)
    requires Presentable(root, items)
    ensures AllWritable(items) && Accepts(root, EntriesFor(items))
  {
    SortedParses(items);
    ItemsAreTree(root);
    ListingDistinct(root, |root.children|, []);
    SortedAccepted(root, items, items, EntriesFor(items));
  }

  // ---- The same manifest, spelt otherwise ----

  function Doubled(es: seq<Entry>): seq<Entry>
    requires |es| > 6
  {
    es[6 := DirectoryEntry("web" + "/" + ("/" + "assets"), es[6].mode)]
  }

  lemma DoubledComponents()
    ensures var t := "web" + "/" + ("/" + "assets");
            Components(t) == Components(TextOf(LISTED[6])) == Some(["web", "assets"]) && |t| <= MAX_PATH && t != TextOf(LISTED[6])
  {
    NamesAreValid();
    DoubledSlashIsAccepted("web", "assets");
    PlainComponents(["web", "assets"]);
  }

  lemma ReplaceAscends(es: seq<Entry>, k: nat, e: Entry)
    requires 0 < k < |es| - 1 && Ascending(es)
    requires Precedes(es[k - 1].text, e.text) && Precedes(e.text, es[k + 1].text)
    ensures Ascending(es[k := e])
  {
  }

  lemma DoubledNeighbours()
    ensures var t := "web" + "/" + ("/" + "assets");
            Precedes(TextOf(LISTED[5]), t) && Precedes(t, TextOf(LISTED[7]))
  {
    Texts();
    PrefixPrecedes("web", "/" + ("/" + "assets"));
    DifferPrecedes("web/", "/" + "assets", "assets" + ("/" + "app.js"));
    assert "web" + "/" + ("/" + "assets") == "web" + ("/" + ("/" + "assets")) == "web/" + ("/" + "assets");
  }

  lemma DoubledAscends(es: seq<Entry>)
    requires AllWritable(LISTED) && es == EntriesFor(LISTED) && EntriesOk(es)
    ensures Ascending(Doubled(es))
  {
    DoubledNeighbours();
    assert es[5] == EntryFor(LISTED[5]) && es[7] == EntryFor(LISTED[7]);
    ReplaceAscends(es, 6, DirectoryEntry("web" + "/" + ("/" + "assets"), es[6].mode));
  }

  lemma DoubledAccepted(es: seq<Entry>)
    requires AllWritable(LISTED) && es == EntriesFor(LISTED) && Accepts(RELEASE, es)
    ensures Accepts(RELEASE, Doubled(es))
  {
    DoubledAscends(es);
    DoubledIsSpeltWell(es);
    SpellingAccepted(RELEASE, es, Doubled(es));
  }

  lemma DoubledNotCanonical(e: Entry)
    requires EntryOk(e) && e.text == "web" + "/" + ("/" + "assets")
    ensures e.text != Join(PathOf(e)) && !NothingDropped(Split(e.text))
  {
    NamesAreValid();
    DoubledSlashIsAccepted("web", "assets");
    CanonicalExactly(e.text);
  }

  /** A manifest that is not canonical, and accepted. */
  lemma NonCanonicalIsAccepted() returns (root: Node, es: seq<Entry>)
    ensures WellFormed(root) && Accepts(root, es)
    ensures exists i :: 0 <= i < |es| && es[i].text != Join(PathOf(es[i])) && !NothingDropped(Split(es[i].text))
  {
    CanonicalAccepted();
    var canonical := EntriesFor(LISTED);
    root, es := RELEASE, Doubled(canonical);
    ReleaseWellFormed();
    DoubledAccepted(canonical);
    DoubledNotCanonical(es[6]);
  }

  lemma DoubledIsSpeltWell(es: seq<Entry>)
    requires AllWritable(LISTED) && es == EntriesFor(LISTED) && Accepts(RELEASE, es)
    ensures SameComponents(es, Doubled(es)) && forall i :: 0 <= i < |es| ==> EntrySpeltWell(Doubled(es)[i])
  {
    DoubledComponents();
    EachRespelt(RELEASE, es, es);
    assert EntryFor(LISTED[6]) == es[6];
    assert ["web", "assets"] != BINARY by {
      assert ["web", "assets"][0] == "web" && BINARY[0] == "bin";
    }
    forall i | 0 <= i < |es|
      ensures Unspelt(es[i]) == Unspelt(Doubled(es)[i]) && Components(es[i].text) == Components(Doubled(es)[i].text)
      ensures EntrySpeltWell(Doubled(es)[i])
    {
      assert i != 6 ==> Doubled(es)[i] == es[i];
    }
  }
}
