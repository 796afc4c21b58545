/** The manifest scripts/write-server-release-manifest.py writes, and that the verifier accepts it. */
module ManifestWriter {
  import opened Basics
  import opened Paths
  import opened Release
  import opened Manifest

  const MODE_0555: string := "0555"
  const MODE_0444: string := "0444"

  // ---- Sorting by path text ----

  function TextOf(item: Item): string {
    Join(item.path)
  }

  function Insert(item: Item, sorted: seq<Item>): seq<Item> {
    if sorted == [] then [item]
    else if Precedes(TextOf(sorted[0]), TextOf(item)) then [sorted[0]] + Insert(item, sorted[1..])
    else [item] + sorted
  }

  /** `sorted(..., key=as_posix)`. */
  function SortItems(items: seq<Item>): seq<Item> {
    if items == [] then [] else Insert(items[|items| - 1], SortItems(items[..|items| - 1]))
  }

  predicate TextsAscend(items: seq<Item>) {
    forall i, j :: 0 <= i < j < |items| ==> Precedes(TextOf(items[i]), TextOf(items[j]))
  }

  predicate TextsDiffer(items: seq<Item>) {
    forall i, j :: 0 <= i < j < |items| ==> TextOf(items[i]) != TextOf(items[j])
  }

  function Size(item: Item): nat {
    if item.node.File? then item.node.size else 0
  }

  lemma BytesCons(item: Item, items: seq<Item>)
    ensures Bytes([item] + items) == Size(item) + Bytes(items)
  {
    BytesConcat([item], items);
    assert [item][..0] == [];
    assert Bytes([item]) == Size(item);
  }

  lemma {:induction false} InsertKeeps(item: Item, sorted: seq<Item>)
    ensures multiset(Insert(item, sorted)) == multiset(sorted) + multiset{item}
    ensures Bytes(Insert(item, sorted)) == Bytes(sorted) + Size(item)
  {
    if sorted == [] || !Precedes(TextOf(sorted[0]), TextOf(item)) {
      BytesCons(item, sorted);
      assert sorted == [] ==> [item] + sorted == [item];
    } else {
      InsertKeeps(item, sorted[1..]);
      BytesCons(sorted[0], sorted[1..]);
      BytesCons(sorted[0], Insert(item, sorted[1..]));
      assert sorted == [sorted[0]] + sorted[1..];
    }
  }

  lemma HeadFirst(head: Item, rest: seq<Item>)
    requires TextsAscend(rest) && forall j :: 0 <= j < |rest| ==> Precedes(TextOf(head), TextOf(rest[j]))
    ensures TextsAscend([head] + rest)
  {
  }

  lemma InsertedAfter(head: Item, item: Item, rest: seq<Item>)
    requires Precedes(TextOf(head), TextOf(item)) && forall j :: 0 <= j < |rest| ==> Precedes(TextOf(head), TextOf(rest[j]))
    ensures forall j :: 0 <= j < |Insert(item, rest)| ==> Precedes(TextOf(head), TextOf(Insert(item, rest)[j]))
  {
    InsertKeeps(item, rest);
    forall j | 0 <= j < |Insert(item, rest)|
      ensures Precedes(TextOf(head), TextOf(Insert(item, rest)[j]))
    {
      assert Insert(item, rest)[j] in multiset(Insert(item, rest));
      assert Insert(item, rest)[j] == item || Insert(item, rest)[j] in rest;
    }
  }

  lemma AllAfter(item: Item, sorted: seq<Item>)
    requires sorted != [] && TextsAscend(sorted) && Precedes(TextOf(item), TextOf(sorted[0]))
    ensures forall j :: 0 <= j < |sorted| ==> Precedes(TextOf(item), TextOf(sorted[j]))
  {
    forall j | 0 < j < |sorted|
      ensures Precedes(TextOf(item), TextOf(sorted[j]))
    {
      PrecedesTransitive(TextOf(item), TextOf(sorted[0]), TextOf(sorted[j]));
    }
  }

  lemma {:induction false} InsertAscends(item: Item, sorted: seq<Item>)
    requires TextsAscend(sorted) && forall i :: 0 <= i < |sorted| ==> TextOf(sorted[i]) != TextOf(item)
    ensures TextsAscend(Insert(item, sorted))
  {
    if sorted != [] {
      PrecedesTotal(TextOf(sorted[0]), TextOf(item));
      if Precedes(TextOf(sorted[0]), TextOf(item)) {
        InsertAscends(item, sorted[1..]);
        InsertedAfter(sorted[0], item, sorted[1..]);
        HeadFirst(sorted[0], Insert(item, sorted[1..]));
      } else {
        AllAfter(item, sorted);
        HeadFirst(item, sorted);
      }
    }
  }

  lemma {:induction false} SortKeeps(items: seq<Item>)
    ensures multiset(SortItems(items)) == multiset(items)
    ensures Bytes(SortItems(items)) == Bytes(items)
  {
    if items != [] {
      var n := |items| - 1;
      SortKeeps(items[..n]);
      InsertKeeps(items[n], SortItems(items[..n]));
      LastOut(items);
    }
  }

  lemma LastOut<T>(q: seq<T>)
    requires q != []
    ensures multiset(q) == multiset(q[..|q| - 1]) + multiset{q[|q| - 1]}
  {
    assert q == q[..|q| - 1] + [q[|q| - 1]];
  }

  /** Items already in text order stay as they are. */
  lemma {:induction false} SortLeavesSorted(items: seq<Item>)
    requires TextsAscend(items)
    ensures SortItems(items) == items
  {
    if items != [] {
      var n := |items| - 1;
      SortLeavesSorted(items[..n]);
      InsertLast(items[n], items[..n]);
      assert items == items[..n] + [items[n]];
    }
  }

  lemma {:induction false} InsertLast(item: Item, sorted: seq<Item>)
    requires forall i :: 0 <= i < |sorted| ==> Precedes(TextOf(sorted[i]), TextOf(item))
    ensures Insert(item, sorted) == sorted + [item]
  {
    if sorted != [] {
      InsertLast(item, sorted[1..]);
      assert sorted + [item] == [sorted[0]] + (sorted[1..] + [item]);
    }
  }

  lemma {:induction false} SortAscends(items: seq<Item>)
    requires TextsDiffer(items)
    ensures TextsAscend(SortItems(items))
  {
    if items != [] {
      var n := |items| - 1;
      var sorted := SortItems(items[..n]);
      SortAscends(items[..n]);
      SortKeeps(items[..n]);
      forall i | 0 <= i < |sorted|
        ensures TextOf(sorted[i]) != TextOf(items[n])
      {
        assert sorted[i] in multiset(items[..n]);
        var j :| 0 <= j < n && items[..n][j] == sorted[i];
      }
      InsertAscends(items[n], sorted);
    }
  }

  // ---- The script ----

  function FileMode(item: Item): nat {
    if TextOf(item) == SERVER_BINARY then EXECUTABLE else READ_ONLY
  }

  /** What the loop of `main` demands of one path. */
  predicate ItemWritable(item: Item) {
    && item.path != [] && ValidNames(item.path) && |TextOf(item)| <= MAX_PATH
    && TextOf(item) != MANIFEST
    && match item.node
       case Directory(mode, _) => mode == EXECUTABLE
       case File(mode, links, size, _) => mode == FileMode(item) && links == 1 && size <= MAX_FILE_BYTES
       case _ => false
  }

  function EntryFor(item: Item): Entry
    requires ItemWritable(item)
  {
    match item.node
    case Directory(_, _) => DirectoryEntry(TextOf(item), MODE_0555)
    case File(mode, _, size, digest) =>
      FileEntry(TextOf(item), if mode == EXECUTABLE then MODE_0555 else MODE_0444, size, digest)
  }

  predicate AllWritable(items: seq<Item>) {
    forall i :: 0 <= i < |items| ==> ItemWritable(items[i])
  }

  predicate Writable(items: seq<Item>) {
    AllWritable(items) && |items| <= MAX_ENTRIES && Bytes(items) <= MAX_RELEASE_BYTES
  }

  function EntriesFor(items: seq<Item>): (es: seq<Entry>)
    requires AllWritable(items)
    ensures |es| == |items|
  {
    seq(|items|, i requires 0 <= i < |items| => EntryFor(items[i]))
  }

  /** The traversal in `main`: fails, or appends one entry per path in text order. */
  method WriteManifest(root: Node) returns (entries: Option<seq<Entry>>)
    requires WellFormed(root) && root.Directory?
    ensures entries.Some? <==> NodeAt(root, [MANIFEST]).None? && Writable(SortItems(Items(root)))
    ensures entries.Some? ==> entries.value == EntriesFor(SortItems(Items(root)))
  {
    var manifest := FindManifest(root);
    if manifest.Some? {
      return None;
    }
    var sorted := SortItems(Items(root));
    var written: seq<Entry> := [];
    var total := 0;
    for i := 0 to |sorted|
      invariant Writable(sorted[..i])
      invariant written == EntriesFor(sorted[..i])
      invariant total == Bytes(sorted[..i])
    {
      ghost var front := sorted[..i];
      assert sorted[..i + 1] == front + [sorted[i]];
      BytesGrow(sorted, i);
      if !ItemWritable(sorted[i]) {
        return None;
      }
      if sorted[i].node.File? {
        total := total + sorted[i].node.size;
        if total > MAX_RELEASE_BYTES {
          return None;
        }
      }
      written := written + [EntryFor(sorted[i])];
      if |written| > MAX_ENTRIES {
        return None;
      }
    }
    assert sorted[..|sorted|] == sorted;
    return Some(written);
  }

  /** Adding one more item adds its size, and no later item takes any away. */
  lemma BytesGrow(items: seq<Item>, i: nat)
    requires i < |items|
    ensures Bytes(items[..i + 1]) == Bytes(items[..i]) + Size(items[i])
    ensures Bytes(items[..i + 1]) <= Bytes(items)
  {
    BytesLast(items[..i + 1]);
    assert items[..i + 1][..i] == items[..i];
    BytesPrefix(items, i + 1);
  }

  lemma BytesLast(items: seq<Item>)
    requires items != []
    ensures Bytes(items) == Bytes(items[..|items| - 1]) + Size(items[|items| - 1])
  {
  }

  lemma {:induction false} BytesPrefix(items: seq<Item>, n: nat)
    requires n <= |items|
    ensures Bytes(items[..n]) <= Bytes(items)
    decreases |items| - n
  {
    if n == |items| {
      assert items[..n] == items;
    } else {
      BytesPrefix(items, n + 1);
      BytesLast(items[..n + 1]);
      assert items[..n + 1][..n] == items[..n];
    }
  }

  // ---- The verifier accepts what the script writes ----

  /** The release directory once the manifest has been added to it. */
  function WithManifest(root: Node, file: Node): Node
    requires root.Directory?
  {
    root.(children := root.children + [Child(MANIFEST, file)])
  }

  /** The fixed layout, read off the tree. */
  ghost predicate TreeLayout(items: seq<Item>) {
    && (forall p <- DIRECTORIES :: exists item <- items :: item.path == p && item.node.Directory?)
    && (forall p <- FIXED_FILES :: exists item <- items :: item.path == p && item.node.File?)
    && (forall item <- items :: item.node.Directory? ==> item.path in DIRECTORIES)
    && (forall item <- items :: item.node.File? ==> item.path in FIXED_FILES || IsAsset(item.path))
    && (exists item <- items :: item.node.File? && IsScript(item.path))
  }

  lemma ModesParse()
    ensures ParseMode(MODE_0555) == Some(EXECUTABLE) && ParseMode(MODE_0444) == Some(READ_ONLY)
  {
  }

  lemma EntryIsOk(item: Item)
    requires ItemWritable(item)
    ensures EntryOk(EntryFor(item)) && PathOf(EntryFor(item)) == item.path
    ensures EntryDescribes(EntryFor(item), item.node)
  {
    JoinIsValidated(item.path);
    ModesParse();
  }

  lemma TextsOfDistinct(items: seq<Item>)
    requires AllWritable(items) && Distinct(PathList(items))
    ensures TextsDiffer(items)
  {
    forall i, j | 0 <= i < j < |items|
      ensures TextOf(items[i]) != TextOf(items[j])
    {
      assert PathList(items)[i] != PathList(items)[j];
      if TextOf(items[i]) == TextOf(items[j]) {
        JoinInjective(items[i].path, items[j].path);
      }
    }
  }

  /** Text order without repetition, and entries the parser takes. */
  lemma SortedParses(sorted: seq<Item>)
    requires AllWritable(sorted) && TextsAscend(sorted)
    ensures EntriesOk(EntriesFor(sorted))
    ensures PathsOf(EntriesFor(sorted)) == PathList(sorted)
  {
    var es := EntriesFor(sorted);
    forall i | 0 <= i < |es|
      ensures EntryOk(es[i]) && PathOf(es[i]) == sorted[i].path && es[i].text == TextOf(sorted[i])
    {
      EntryIsOk(sorted[i]);
    }
    assert PathsOf(es) == PathList(sorted);
    forall i, j | 0 <= i < j < |sorted|
      ensures PathList(sorted)[i] != PathList(sorted)[j]
    {
      PrecedesTotal(TextOf(sorted[i]), TextOf(sorted[j]));
    }
  }

  lemma ManifestAdded(root: Node, file: Node)
    requires WellFormed(root) && root.Directory? && NodeAt(root, [MANIFEST]).None? && WellFormed(file)
    ensures WellFormed(WithManifest(root, file))
    ensures NodeAt(WithManifest(root, file), [MANIFEST]) == Some(file)
    ensures Items(WithManifest(root, file)) == Items(root)
  {
    var full, n := WithManifest(root, file), |root.children|;
    forall i | 0 <= i < n
      ensures root.children[i].name != MANIFEST
    {
      if root.children[i].name == MANIFEST {
        ChildAt(root, i, [MANIFEST]);
      }
    }
    ChildAt(full, n, [MANIFEST]);
    ListingSame(root, full, n, []);
    assert [] + [MANIFEST] == [MANIFEST];
    assert OneListing(full.children[n], []) == [];
  }

  lemma {:induction false} ListingSame(root: Node, full: Node, n: nat, relative: Path)
    requires root.Directory? && full.Directory? && n <= |root.children| <= |full.children|
    requires full.children[..|root.children|] == root.children
    ensures Listing(full, n, relative) == Listing(root, n, relative)
    decreases n
  {
    if n > 0 {
      ListingSame(root, full, n - 1, relative);
      assert full.children[n - 1] == full.children[..|root.children|][n - 1];
    }
  }

  /** The entry of every written item is found under its path. */
  lemma WrittenFound(sorted: seq<Item>, expected: Expected)
    requires AllWritable(sorted) && Distinct(PathList(sorted))
    requires expected == Paired(PathList(sorted), EntriesFor(sorted))
    ensures forall item <- sorted :: item.path in expected && ItemWritable(item) && expected[item.path] == EntryFor(item)
    ensures forall p <- expected :: exists item <- sorted :: item.path == p
  {
    var es := EntriesFor(sorted);
    PairedHas(PathList(sorted), es);
    PairedKeys(PathList(sorted), es);
    ElementsOfPaths(sorted);
    forall item | item in sorted
      ensures item.path in expected && ItemWritable(item) && expected[item.path] == EntryFor(item)
    {
      var i :| 0 <= i < |sorted| && sorted[i] == item;
      assert PathList(sorted)[i] == item.path && es[i] == EntryFor(item);
    }
  }

  ghost predicate SameItems(a: seq<Item>, b: seq<Item>) {
    forall item :: item in a <==> item in b
  }

  lemma WrittenExactly(root: Node, items: seq<Item>, sorted: seq<Item>, expected: Expected)
    requires AreTree(items, root) && SameItems(items, sorted)
    requires forall item <- sorted :: item.path in expected && ItemWritable(item) && expected[item.path] == EntryFor(item)
    requires forall p <- expected :: exists item <- sorted :: item.path == p
    ensures Exact(root, expected)
  {
    forall p | p in expected
      ensures NodeAt(root, p).Some? && EntryDescribes(expected[p], NodeAt(root, p).value)
    {
      var item :| item in sorted && item.path == p;
      EntryIsOk(item);
      assert item in items;
    }
    forall p: Path | Inner(p) && NodeAt(root, p).Some?
      ensures p in expected
    {
      assert Item(p, NodeAt(root, p).value) in items;
    }
  }

  lemma WrittenFile(item: Item)
    requires ItemWritable(item) && item.node.File?
    ensures EntryFor(item).FileEntry? && EntryFor(item).mode == if item.path == BINARY then MODE_0555 else MODE_0444
  {
    BinaryText();
    if TextOf(item) == SERVER_BINARY {
      JoinInjective(item.path, BINARY);
    }
  }

  lemma WrittenLayout(sorted: seq<Item>, expected: Expected)
    requires TreeLayout(sorted)
    requires forall item <- sorted :: item.path in expected && ItemWritable(item) && expected[item.path] == EntryFor(item)
    requires forall p <- expected :: exists item <- sorted :: item.path == p
    ensures LayoutHolds(expected)
  {
    forall p | p in DIRECTORIES
      ensures HasDirectory(expected, p)
    {
      var item :| item in sorted && item.path == p && item.node.Directory?;
    }
    forall p | p in FIXED_FILES
      ensures HasFile(expected, p)
    {
      var item :| item in sorted && item.path == p && item.node.File?;
      WrittenFile(item);
    }
    forall p | p in expected
      ensures Allowed(p, expected[p])
    {
      var item :| item in sorted && item.path == p;
      assert ItemWritable(item);
    }
    var item :| item in sorted && item.node.File? && IsScript(item.path);
    assert expected[item.path].FileEntry?;
  }

  /**
   Every manifest the script writes for a tree with the fixed layout is accepted, once it lies in the release
   directory as a read-only file of at most 8 MiB and that directory has mode 0555.
   */
  lemma WrittenIsAccepted(root: Node, file: Node)
    requires WellFormed(root) && root.Directory? && root.mode == EXECUTABLE && NodeAt(root, [MANIFEST]).None?
    requires Writable(SortItems(Items(root))) && TreeLayout(Items(root))
    requires ManifestFile(file)
    ensures Accepts(WithManifest(root, file), EntriesFor(SortItems(Items(root))))
  {
    var items, full := Items(root), WithManifest(root, file);
    var sorted := SortItems(items);
    ManifestAdded(root, file);
    ItemsAreTree(full);
    SortKeeps(items);
    SameMembers(items, sorted);
    SortedForm(root, items, sorted);
    SortedParses(sorted);
    LayoutMoves(items, sorted);
    SortedAccepted(full, items, sorted, EntriesFor(sorted));
  }

  lemma SortedAccepted(full: Node, items: seq<Item>, sorted: seq<Item>, es: seq<Entry>)
    requires AreTree(items, full) && SameItems(items, sorted) && TreeLayout(sorted)
    requires AllWritable(sorted) && |sorted| <= MAX_ENTRIES && Distinct(PathList(sorted)) && es == EntriesFor(sorted)
    requires EntriesOk(es) && PathsOf(es) == PathList(sorted)
    ensures EntriesAccepted(es) && Exact(full, ExpectedOf(es))
  {
    ScriptMakesOne(sorted);
    SortedWritten(full, items, sorted, ExpectedOf(es));
  }

  lemma ScriptMakesOne(items: seq<Item>)
    requires TreeLayout(items)
    ensures items != []
  {
    var item :| item in items && item.node.File? && IsScript(item.path);
  }

  lemma SortedWritten(full: Node, items: seq<Item>, sorted: seq<Item>, expected: Expected)
    requires AreTree(items, full) && SameItems(items, sorted) && TreeLayout(sorted)
    requires AllWritable(sorted) && Distinct(PathList(sorted)) && expected == Paired(PathList(sorted), EntriesFor(sorted))
    ensures LayoutHolds(expected) && Exact(full, expected)
  {
    WrittenFound(sorted, expected);
    WrittenExactly(full, items, sorted, expected);
    WrittenLayout(sorted, expected);
  }

  lemma LayoutMoves(items: seq<Item>, sorted: seq<Item>)
    requires SameItems(items, sorted) && TreeLayout(items)
    ensures TreeLayout(sorted)
  {
  }

  lemma SameMembers(items: seq<Item>, sorted: seq<Item>)
    requires multiset(items) == multiset(sorted)
    ensures SameItems(items, sorted)
  {
    forall item
      ensures item in items <==> item in sorted
    {
      assert item in multiset(items) <==> item in multiset(sorted);
    }
  }

  lemma SortedForm(root: Node, items: seq<Item>, sorted: seq<Item>)
    requires WellFormed(root) && root.Directory? && items == Items(root) && sorted == SortItems(items)
    requires AllWritable(sorted) && SameItems(items, sorted)
    ensures TextsAscend(sorted) && Distinct(PathList(sorted))
  {
    ListingDistinct(root, |root.children|, []);
    forall i | 0 <= i < |items|
      ensures ItemWritable(items[i])
    {
      assert items[i] in sorted;
    }
    TextsOfDistinct(items);
    SortAscends(items);
    forall i, j | 0 <= i < j < |sorted|
      ensures sorted[i].path != sorted[j].path
    {
      PrecedesTotal(TextOf(sorted[i]), TextOf(sorted[j]));
    }
  }
}
