/**
 What the release verifier decides as a whole, against the tree itself, and the manifests that
 scripts/write-server-release-manifest.py produces for it.
 */
module Manifest {
  import opened Basics
  import opened Paths
  import opened Release

  // ---- The listing is the tree ----

  predicate AmongFirst(node: Node, n: nat, name: string)
    requires node.Directory? && n <= |node.children|
  {
    exists i :: 0 <= i < n && node.children[i].name == name
  }

  /** A path below `relative` whose first step is one of the first `n` children, other than the root manifest. */
  predicate Under(node: Node, n: nat, relative: Path, p: Path)
    requires node.Directory? && n <= |node.children|
  {
    |relative| < |p| && relative <= p && AmongFirst(node, n, p[|relative|]) && !(relative == [] && p[0] == MANIFEST)
  }

  lemma ChildAt(node: Node, i: nat, p: Path)
    requires WellFormed(node) && node.Directory? && i < |node.children| && p != [] && node.children[i].name == p[0]
    ensures NodeAt(node, p) == NodeAt(node.children[i].node, p[1..])
  {
  }

  /** Every listed item is where the tree has it, and everything in the tree is listed. */
  lemma {:induction false} ListingIsTree(node: Node, n: nat, relative: Path)
    requires WellFormed(node) && node.Directory? && n <= |node.children|
    ensures forall item :: item in Listing(node, n, relative) <==>
              Under(node, n, relative, item.path) && NodeAt(node, item.path[|relative|..]) == Some(item.node)
    decreases node, n
  {
    if n > 0 {
      var c := node.children[n - 1];
      ListingIsTree(node, n - 1, relative);
      forall item: Item
        ensures item in OneListing(c, relative) <==>
                  Under(node, n, relative, item.path) && item.path[|relative|] == c.name
                  && NodeAt(node, item.path[|relative|..]) == Some(item.node)
      {
        OneListingIsTree(node, n - 1, relative, item);
      }
    }
  }

  lemma OneListingIsTree(node: Node, i: nat, relative: Path, item: Item)
    requires WellFormed(node) && node.Directory? && i < |node.children|
    ensures item in OneListing(node.children[i], relative) <==>
              Under(node, i + 1, relative, item.path) && item.path[|relative|] == node.children[i].name
              && NodeAt(node, item.path[|relative|..]) == Some(item.node)
    decreases node.children[i]
  {
    var c, q := node.children[i], item.path;
    var path := relative + [c.name];
    assert relative <= q && |relative| < |q| && q[|relative|] == c.name ==> q[..|path|] == path;
    if path == [MANIFEST] {
      assert relative == [] && path[0] == c.name;
    } else {
      if c.node.Directory? {
        ListingIsTree(c.node, |c.node.children|, path);
      }
      if q == path {
        assert q[|relative|..] == [c.name];
        ChildAt(node, i, [c.name]);
      } else if path <= q {
        assert q[|relative|] == path[|relative|] == c.name && relative <= q;
        assert q[|relative|..][1..] == q[|path|..];
        ChildAt(node, i, q[|relative|..]);
        assert relative == [] ==> path[0] == c.name;
        assert Under(node, i + 1, relative, q);
        if c.node.Directory? && NodeAt(c.node, q[|path|..]) == Some(item.node) {
          StepInside(c.node, q[|path|..]);
        }
      }
    }
  }

  lemma StepInside(node: Node, p: Path)
    requires p != [] && NodeAt(node, p).Some?
    ensures node.Directory? && AmongFirst(node, |node.children|, p[0])
  {
  }

  /** No path is listed twice. */
  lemma {:induction false} ListingDistinct(node: Node, n: nat, relative: Path)
    requires WellFormed(node) && node.Directory? && n <= |node.children|
    ensures Distinct(PathList(Listing(node, n, relative)))
    decreases node, n
  {
    if n > 0 {
      var front, one := Listing(node, n - 1, relative), OneListing(node.children[n - 1], relative);
      ListingDistinct(node, n - 1, relative);
      OneListingDistinct(node.children[n - 1], relative);
      PathsConcat(front, one);
      DistinctConcat(PathList(front), PathList(one));
      ListingsApart(node, n, relative);
    }
  }

  lemma ListingsApart(node: Node, n: nat, relative: Path)
    requires WellFormed(node) && node.Directory? && 0 < n <= |node.children|
    ensures Elements(PathList(Listing(node, n - 1, relative))) !! Elements(PathList(OneListing(node.children[n - 1], relative)))
  {
    var front, one := Listing(node, n - 1, relative), OneListing(node.children[n - 1], relative);
    ListingIsTree(node, n - 1, relative);
    ElementsOfPaths(front);
    ElementsOfPaths(one);
    forall item | item in one
      ensures !AmongFirst(node, n - 1, node.children[n - 1].name)
      ensures |relative| < |item.path| && item.path[|relative|] == node.children[n - 1].name
    {
      OneListingIsTree(node, n - 1, relative, item);
    }
  }

  lemma OneListingDistinct(c: Child, relative: Path)
    requires WellFormed(c.node)
    ensures Distinct(PathList(OneListing(c, relative)))
    decreases c
  {
    var path := relative + [c.name];
    if path != [MANIFEST] && c.node.Directory? {
      var below := Listing(c.node, |c.node.children|, path);
      ListingDistinct(c.node, |c.node.children|, path);
      PathsConcat([Item(path, c.node)], below);
      DistinctConcat(PathList([Item(path, c.node)]), PathList(below));
      ListingIsTree(c.node, |c.node.children|, path);
      forall i | 0 <= i < |below|
        ensures below[i].path != path
      {
        assert below[i] in below;
      }
      assert PathList([Item(path, c.node)]) == [path];
    }
  }

  // ---- What is accepted ----

  predicate Inner(p: Path) {
    p != [] && p[0] != MANIFEST
  }

  lemma ItemsAreTree(root: Node)
    requires WellFormed(root) && root.Directory?
    ensures forall item :: item in Items(root) <==> Inner(item.path) && NodeAt(root, item.path) == Some(item.node)
  {
    ListingIsTree(root, |root.children|, []);
    forall item: Item
      ensures item in Items(root) <==> Inner(item.path) && NodeAt(root, item.path) == Some(item.node)
    {
      assert item.path[0..] == item.path;
      if item.path != [] && NodeAt(root, item.path).Some? {
        StepInside(root, item.path);
      }
    }
  }

  /** The manifest and the tree agree in paths, kinds, modes, sizes and digests, both ways. */
  ghost predicate Exact(root: Node, expected: Expected) {
    && (forall p <- expected :: NodeAt(root, p).Some? && EntryDescribes(expected[p], NodeAt(root, p).value))
    && (forall p: Path :: Inner(p) && NodeAt(root, p).Some? ==> p in expected)
  }

  predicate ManifestFile(node: Node) {
    node.File? && node.mode == READ_ONLY && node.links == 1 && node.size <= MAX_MANIFEST_BYTES
  }

  /** A read-only release root with its manifest file. */
  ghost predicate RootOk(root: Node) {
    && root.Directory? && root.mode == EXECUTABLE
    && NodeAt(root, [MANIFEST]).Some? && ManifestFile(NodeAt(root, [MANIFEST]).value)
  }

  /** Everything the verifier demands of a tree and the entries of its manifest. */
  ghost predicate Accepts(root: Node, es: seq<Entry>) {
    && RootOk(root)
    && EntriesAccepted(es)
    && Exact(root, ExpectedOf(es))
    && Bytes(Items(root)) <= MAX_RELEASE_BYTES
  }

  lemma LayoutInner(expected: Expected)
    requires LayoutHolds(expected)
    ensures forall p <- expected :: Inner(p)
  {
    forall p | p in expected
      ensures Inner(p)
    {
      assert Allowed(p, expected[p]);
    }
  }

  predicate NamesValid(expected: Expected) {
    forall p <- expected :: p != [] && ValidName(p[|p| - 1])
  }

  lemma ExpectedNames(es: seq<Entry>)
    requires EntriesOk(es)
    ensures NamesValid(ExpectedOf(es))
  {
    PairedKeys(PathsOf(es), es);
    forall p | p in ExpectedOf(es)
      ensures p != [] && ValidName(p[|p| - 1])
    {
      var i :| 0 <= i < |es| && PathsOf(es)[i] == p;
      ValidatedNonEmpty(es[i].text);
    }
  }

  /** These items are the inner part of the tree. */
  ghost predicate AreTree(items: seq<Item>, root: Node) {
    forall item :: item in items <==> Inner(item.path) && NodeAt(root, item.path) == Some(item.node)
  }

  lemma MatchedIsExact(root: Node, items: seq<Item>, expected: Expected)
    requires AreTree(items, root) && AllMatch(items, expected) && Elements(PathList(items)) == expected.Keys
    ensures Exact(root, expected)
  {
    ElementsOfPaths(items);
    forall p | p in expected
      ensures NodeAt(root, p).Some? && EntryDescribes(expected[p], NodeAt(root, p).value)
    {
      var item :| item in items && item.path == p;
      var i :| 0 <= i < |items| && items[i] == item;
      assert Matches(items[i], expected);
    }
    forall p: Path | Inner(p) && NodeAt(root, p).Some?
      ensures p in expected
    {
      assert Item(p, NodeAt(root, p).value) in items;
    }
  }

  lemma ExactIsMatched(root: Node, items: seq<Item>, expected: Expected)
    requires AreTree(items, root) && NamesValid(expected) && (forall p <- expected :: Inner(p)) && Exact(root, expected)
    ensures AllMatch(items, expected) && Elements(PathList(items)) == expected.Keys
  {
    forall i | 0 <= i < |items|
      ensures Matches(items[i], expected)
    {
      assert items[i] in items;
    }
    ElementsOfPaths(items);
    forall p | p in expected
      ensures p in Elements(PathList(items))
    {
      assert Item(p, NodeAt(root, p).value) in items;
    }
  }

  /** A walk that has not begun. */
  predicate Unstarted(t: Tally) {
    t.seen == {} && t.entries == 0 && t.files == 0 && t.bytes == 0
  }

  lemma FitsFromStart(t: Tally, items: seq<Item>, expected: Expected)
    requires Unstarted(t) && Distinct(PathList(items))
    ensures Fits(t, items, expected) <==>
              AllMatch(items, expected) && |items| <= MAX_ENTRIES && Bytes(items) <= MAX_RELEASE_BYTES
  {
    assert Elements(PathList(items)) !! t.seen;
  }

  lemma AfterFromStart(t: Tally, items: seq<Item>)
    requires Unstarted(t)
    ensures After(t, items) == Tally(Elements(PathList(items)), |items|, Files(items), Bytes(items))
  {
    assert t.seen + Elements(PathList(items)) == Elements(PathList(items));
  }

  /** As many matching items as entries is agreeing exactly. */
  lemma CountsDecide(root: Node, items: seq<Item>, expected: Expected)
    requires AreTree(items, root) && Distinct(PathList(items))
    requires NamesValid(expected) && forall p <- expected :: Inner(p)
    ensures AllMatch(items, expected) && |Elements(PathList(items))| == |expected| <==> Exact(root, expected)
    ensures Exact(root, expected) ==> |items| == |expected|
  {
    DistinctCardinality(PathList(items));
    if AllMatch(items, expected) && |Elements(PathList(items))| == |expected| {
      MatchedWithin(items, expected);
      SameSize(Elements(PathList(items)), expected.Keys);
      MatchedIsExact(root, items, expected);
    }
    if Exact(root, expected) {
      ExactIsMatched(root, items, expected);
    }
  }

  /** Walking to the end with as many seen paths as entries is agreeing exactly. */
  lemma WalkDecides(t: Tally, root: Node, expected: Expected)
    requires Unstarted(t) && WellFormed(root) && root.Directory? && |expected| <= MAX_ENTRIES
    requires NamesValid(expected) && forall p <- expected :: Inner(p)
    ensures var after := After(t, Items(root));
            && ((Fits(t, Items(root), expected) && |after.seen| == |expected|)
                <==> (Exact(root, expected) && Bytes(Items(root)) <= MAX_RELEASE_BYTES))
            && after.files == Files(Items(root)) && after.bytes == Bytes(Items(root))
  {
    var items := Items(root);
    ItemsAreTree(root);
    ListingDistinct(root, |root.children|, []);
    FitsFromStart(t, items, expected);
    AfterFromStart(t, items);
    CountsDecide(root, items, expected);
  }

  lemma MatchedWithin(items: seq<Item>, expected: Expected)
    requires AllMatch(items, expected)
    ensures Elements(PathList(items)) <= expected.Keys
  {
    forall p | p in Elements(PathList(items))
      ensures p in expected
    {
      var i :| 0 <= i < |items| && PathList(items)[i] == p;
      assert Matches(items[i], expected);
    }
  }

  lemma ElementsOfPaths(items: seq<Item>)
    ensures forall p :: p in Elements(PathList(items)) <==> exists item :: item in items && item.path == p
  {
    forall p
      ensures p in Elements(PathList(items)) <==> exists item :: item in items && item.path == p
    {
      if p in PathList(items) {
        var i :| 0 <= i < |items| && PathList(items)[i] == p;
        assert items[i] in items;
      }
      if item :| item in items && item.path == p {
        var i :| 0 <= i < |items| && items[i] == item;
        assert PathList(items)[i] == p;
      }
    }
  }

  lemma SameSize<T>(a: set<T>, b: set<T>)
    requires a <= b && |a| == |b|
    ensures a == b
  {
    if a != b {
      var x :| x in b && x !in a;
      SubsetCardinality(a, b - {x});
    }
  }

  predicate EntriesAccepted(es: seq<Entry>) {
    1 <= |es| <= MAX_ENTRIES && EntriesOk(es) && LayoutHolds(ExpectedOf(es))
  }

  /** The part of the verification that looks at the manifest alone. */
  method CheckEntries(es: seq<Entry>) returns (expected: Option<Expected>)
    ensures expected.Some? <==> EntriesAccepted(es)
    ensures expected.Some? ==> expected.value == ExpectedOf(es)
    ensures expected.Some? ==> |expected.value| == |es| && NamesValid(expected.value) && forall p <- expected.value :: Inner(p)
  {
    if es == [] || |es| > MAX_ENTRIES {
      return None;
    }
    expected := ParseEntries(es);
    if expected.None? {
      return;
    }
    var fixed := ValidateExactLayout(expected.value);
    if !fixed {
      return None;
    }
    ExpectedNames(es);
    LayoutInner(expected.value);
    PairedHas(PathsOf(es), es);
  }

  /** `verify_release`; `identity` stands for the checks of the manifest's header against the running binary. */
  method VerifyRelease(root: Node, es: seq<Entry>, identity: bool) returns (counts: Option<(nat, nat)>)
    requires WellFormed(root)
    ensures counts.Some? <==> identity && Accepts(root, es)
    ensures counts.Some? ==> counts.value == (Files(Items(root)), Bytes(Items(root)))
  {
    var fine := CheckRoot(root);
    if !fine || !identity {
      return None;
    }
    var expected := CheckEntries(es);
    if expected.None? {
      return None;
    }
    counts := VerifyTree(root, expected.value);
  }

  /** The walk and the final comparison of the counts. */
  method VerifyTree(root: Node, expected: Expected) returns (counts: Option<(nat, nat)>)
    requires WellFormed(root) && root.Directory? && |expected| <= MAX_ENTRIES
    requires NamesValid(expected) && forall p <- expected :: Inner(p)
    ensures counts.Some? <==> Exact(root, expected) && Bytes(Items(root)) <= MAX_RELEASE_BYTES
    ensures counts.Some? ==> counts.value == (Files(Items(root)), Bytes(Items(root)))
  {
    var walk := new Walk(expected);
    WalkDecides(walk.Sofar(), root, expected);
    var fine := walk.ValidateChildren(root, []);
    if !fine || |walk.seen| != |expected| {
      return None;
    }
    return Some((walk.files, walk.bytes));
  }

  method CheckRoot(root: Node) returns (ok: bool)
    requires WellFormed(root)
    ensures ok <==> RootOk(root)
  {
    if !root.Directory? || root.mode != EXECUTABLE {
      return false;
    }
    var manifest := FindManifest(root);
    return manifest.Some? && ManifestFile(manifest.value);
  }

  method FindManifest(root: Node) returns (node: Option<Node>)
    requires WellFormed(root) && root.Directory?
    ensures node == NodeAt(root, [MANIFEST])
  {
    if i :| 0 <= i < |root.children| && root.children[i].name == MANIFEST {
      ChildAt(root, i, [MANIFEST]);
      return Some(root.children[i].node);
    }
    return None;
  }

  // ---- Spelling ----

  function Unspelt(e: Entry): Entry {
    e.(text := "")
  }

  /** The same entries up to how their paths are written. */
  predicate Respelt(es: seq<Entry>, other: seq<Entry>)
    requires EntriesOk(es) && EntriesOk(other)
  {
    && |es| == |other| && PathsOf(es) == PathsOf(other)
    && forall i :: 0 <= i < |es| ==> Unspelt(es[i]) == Unspelt(other[i])
  }

  predicate SameUnspelt(a: Expected, b: Expected) {
    a.Keys == b.Keys && forall p <- a :: Unspelt(a[p]) == Unspelt(b[p])
  }

  lemma RespeltExpected(es: seq<Entry>, other: seq<Entry>)
    requires EntriesOk(es) && EntriesOk(other) && Respelt(es, other)
    ensures SameUnspelt(ExpectedOf(es), ExpectedOf(other))
  {
    var paths := PathsOf(es);
    PairedKeys(paths, es);
    PairedKeys(paths, other);
    PairedHas(paths, es);
    PairedHas(paths, other);
    forall p | p in ExpectedOf(es)
      ensures Unspelt(ExpectedOf(es)[p]) == Unspelt(ExpectedOf(other)[p])
    {
      var i :| 0 <= i < |paths| && paths[i] == p;
    }
  }

  lemma LayoutUnspelt(a: Expected, b: Expected)
    requires SameUnspelt(a, b) && LayoutHolds(a)
    ensures LayoutHolds(b)
  {
    forall p | p in b
      ensures Allowed(p, b[p])
    {
      assert Allowed(p, a[p]) && Unspelt(a[p]) == Unspelt(b[p]);
    }
    var p :| p in a && a[p].FileEntry? && IsScript(p);
    assert Unspelt(a[p]) == Unspelt(b[p]);
    forall q | q in DIRECTORIES
      ensures HasDirectory(b, q)
    {
      assert HasDirectory(a, q) && Unspelt(a[q]) == Unspelt(b[q]);
    }
    forall q | q in FIXED_FILES
      ensures HasFile(b, q)
    {
      assert HasFile(a, q) && Unspelt(a[q]) == Unspelt(b[q]);
    }
  }

  lemma ExactUnspelt(root: Node, a: Expected, b: Expected)
    requires SameUnspelt(a, b) && Exact(root, a)
    ensures Exact(root, b)
  {
    forall p | p in b
      ensures NodeAt(root, p).Some? && EntryDescribes(b[p], NodeAt(root, p).value)
    {
      assert Unspelt(a[p]) == Unspelt(b[p]);
    }
  }

  lemma SpellingHidden(root: Node, es: seq<Entry>, other: seq<Entry>)
    requires EntriesOk(es) && EntriesOk(other) && Respelt(es, other) && Accepts(root, es)
    ensures Accepts(root, other)
  {
    RespeltExpected(es, other);
    LayoutUnspelt(ExpectedOf(es), ExpectedOf(other));
    ExactUnspelt(root, ExpectedOf(es), ExpectedOf(other));
  }

  /** The same components and the same fields; only how the paths are written may differ. */
  predicate SameComponents(es: seq<Entry>, other: seq<Entry>) {
    |es| == |other| && forall i :: 0 <= i < |es| ==> Unspelt(es[i]) == Unspelt(other[i]) && Components(es[i].text) == Components(other[i].text)
  }

  /** What the verifier still looks at: the length and the order of the texts, and the server binary's own spelling. */
  predicate SpeltWell(es: seq<Entry>) {
    Ascending(es) && forall i :: 0 <= i < |es| ==> EntrySpeltWell(es[i])
  }

  lemma AcceptedModes(root: Node, es: seq<Entry>, i: nat)
    requires Accepts(root, es) && i < |es|
    ensures PathOf(es[i]) != [MANIFEST]
    ensures PathOf(es[i]) == BINARY ==> es[i].FileEntry? && es[i].mode == "0555"
  {
    var paths, expected := PathsOf(es), ExpectedOf(es);
    PairedHas(paths, es);
    assert paths[i] in expected && expected[paths[i]] == es[i];
    LayoutInner(expected);
    assert HasFile(expected, BINARY);
  }

  lemma RespeltMode(e: Entry, other: Entry)
    requires EntryOk(e) && Unspelt(e) == Unspelt(other) && Components(e.text) == Components(other.text) && other.text != MANIFEST
    ensures EntryOk(other) <==> |other.text| <= MAX_PATH && RequiredMode(other) == RequiredMode(e)
    ensures EntryOk(other) ==> PathOf(other) == PathOf(e)
  {
  }

  lemma BinaryMode(e: Entry, other: Entry)
    requires EntryOk(e) && Unspelt(e) == Unspelt(other) && Components(e.text) == Components(other.text)
    requires PathOf(e) == BINARY ==> e.FileEntry? && e.mode == "0555"
    ensures RequiredMode(other) == RequiredMode(e) <==> (PathOf(e) == BINARY ==> other.text == SERVER_BINARY)
  {
    BinaryComponents();
    ModeValues();
  }

  /** One respelt entry of an accepted manifest is well-formed exactly if it is short enough and, for the binary, spelt exactly. */
  lemma RespeltEntry(e: Entry, other: Entry)
    requires EntryOk(e) && Unspelt(e) == Unspelt(other) && Components(e.text) == Components(other.text)
    requires PathOf(e) != [MANIFEST] && (PathOf(e) == BINARY ==> e.FileEntry? && e.mode == "0555")
    ensures EntryOk(other) <==> |other.text| <= MAX_PATH && (PathOf(e) == BINARY ==> other.text == SERVER_BINARY)
    ensures EntryOk(other) ==> PathOf(other) == PathOf(e)
  {
    ManifestComponents();
    RespeltMode(e, other);
    BinaryMode(e, other);
  }

  lemma ManifestComponents()
    ensures Components(MANIFEST) == Some([MANIFEST])
  {
    ManifestNameIsValid();
    PlainComponents([MANIFEST]);
  }

  lemma BinaryComponents()
    ensures Components(SERVER_BINARY) == Some(BINARY)
  {
    BinaryText();
    PlainComponents(BINARY);
  }

  lemma ModeValues()
    ensures ParseMode("0555") == Some(EXECUTABLE) && EXECUTABLE != READ_ONLY
  {
  }

  predicate EntrySpeltWell(e: Entry) {
    |e.text| <= MAX_PATH && (Components(e.text) == Some(BINARY) ==> e.text == SERVER_BINARY)
  }

  lemma OneRespelt(root: Node, es: seq<Entry>, other: seq<Entry>, i: nat)
    requires Accepts(root, es) && SameComponents(es, other) && i < |es|
    ensures EntryOk(other[i]) <==> EntrySpeltWell(other[i])
    ensures EntryOk(other[i]) ==> PathOf(other[i]) == PathOf(es[i])
  {
    AcceptedModes(root, es, i);
    RespeltEntry(es[i], other[i]);
  }

  lemma EachRespelt(root: Node, es: seq<Entry>, other: seq<Entry>)
    requires Accepts(root, es) && SameComponents(es, other)
    ensures AllOk(other) <==> forall i :: 0 <= i < |other| ==> EntrySpeltWell(other[i])
    ensures AllOk(other) ==> PathsOf(other) == PathsOf(es)
  {
    forall i | 0 <= i < |es|
      ensures EntryOk(other[i]) <==> EntrySpeltWell(other[i])
      ensures EntryOk(other[i]) ==> PathOf(other[i]) == PathOf(es[i])
    {
      OneRespelt(root, es, other, i);
    }
    if AllOk(other) {
      assert forall i :: 0 <= i < |es| ==> PathsOf(other)[i] == PathsOf(es)[i];
    }
  }

  /**
   The test for canonical paths has no effect: a manifest with the components and fields of an accepted one is
   accepted exactly if its texts are short enough, strictly ascending and exact for the server binary.
   */
  lemma SpellingAccepted(root: Node, es: seq<Entry>, other: seq<Entry>)
    requires Accepts(root, es) && SameComponents(es, other)
    ensures Accepts(root, other) <==> SpeltWell(other)
  {
    EachRespelt(root, es, other);
    if SpeltWell(other) {
      RespeltWell(es, other);
      SpellingHidden(root, es, other);
    }
  }

  lemma RespeltWell(es: seq<Entry>, other: seq<Entry>)
    requires EntriesOk(es) && SameComponents(es, other) && AllOk(other) && Ascending(other) && PathsOf(other) == PathsOf(es)
    ensures EntriesOk(other) && Respelt(es, other)
  {
  }

  /** An accepted manifest lists canonical paths exactly when none of its texts has an empty or "." part. */
  lemma AcceptedCanonicalExactly(root: Node, es: seq<Entry>)
    requires Accepts(root, es)
    ensures (forall i :: 0 <= i < |es| ==> es[i].text == Join(PathsOf(es)[i]))
            <==> (forall i :: 0 <= i < |es| ==> NothingDropped(Split(es[i].text)))
  {
    forall i | 0 <= i < |es|
      ensures es[i].text == Join(PathsOf(es)[i]) <==> NothingDropped(Split(es[i].text))
    {
      CanonicalExactly(es[i].text);
    }
  }
}
