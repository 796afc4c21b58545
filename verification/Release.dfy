/**
 Verifying an unpacked release against its manifest (release_bundle.rs): parse the entries, check the fixed layout,
 walk the tree with a set of seen paths, and compare the counts. The file tree does not change during the walk.
 */
module Release {
  import opened Basics
  import opened Paths

  const MAX_ENTRIES: nat := 10_000
  const MAX_FILE_BYTES: nat := 512 * 1024 * 1024
  const MAX_RELEASE_BYTES: nat := 1024 * 1024 * 1024
  const MAX_MANIFEST_BYTES: nat := 8 * 1024 * 1024
  const MANIFEST: string := "RELEASE-MANIFEST.json"
  const SERVER_BINARY: string := "bin/host-monitoring-server"
  const BINARY: Path := ["bin", "host-monitoring-server"]

  const EXECUTABLE: nat := 5 * 64 + 5 * 8 + 5
  const READ_ONLY: nat := 4 * 64 + 4 * 8 + 4

  // ---- The file tree ----

  /** A content digest, in lowercase hexadecimal. */
  predicate IsSha256(s: string) {
    |s| == 64 && forall i :: 0 <= i < |s| ==> '0' <= s[i] <= '9' || 'a' <= s[i] <= 'f'
  }

  type Sha256 = s: string | IsSha256(s)
    witness seq(64, _ => '0')

  datatype Node =
    | Directory(mode: nat, children: seq<Child>)
    | File(mode: nat, links: nat, size: nat, digest: Sha256)
    | SymbolicLink
    | SpecialFile

  datatype Child = Child(name: string, node: Node)

  datatype Item = Item(path: Path, node: Node)

  /** What every file system guarantees: the names in one directory are distinct. */
  predicate WellFormed(node: Node) {
    node.Directory? ==>
      && (forall i, j :: 0 <= i < j < |node.children| ==> node.children[i].name != node.children[j].name)
      && (forall i :: 0 <= i < |node.children| ==> WellFormed(node.children[i].node))
  }

  /** The node a path leads to. */
  ghost function NodeAt(node: Node, path: Path): Option<Node>
    decreases |path|
  {
    if path == [] then Some(node)
    else if node.Directory? && exists i :: 0 <= i < |node.children| && node.children[i].name == path[0] then
      var i :| 0 <= i < |node.children| && node.children[i].name == path[0];
      NodeAt(node.children[i].node, path[1..])
    else None
  }

  /** Everything below the first `n` children, in the order of the walk, without the root manifest. */
  function Listing(node: Node, n: nat, relative: Path): seq<Item>
    requires node.Directory? && n <= |node.children|
    decreases node, n
  {
    if n == 0 then [] else Listing(node, n - 1, relative) + OneListing(node.children[n - 1], relative)
  }

  function OneListing(c: Child, relative: Path): seq<Item>
    decreases c
  {
    var path := relative + [c.name];
    if path == [MANIFEST] then []
    else [Item(path, c.node)] + if c.node.Directory? then Listing(c.node, |c.node.children|, path) else []
  }

  function Items(root: Node): seq<Item>
    requires root.Directory?
  {
    Listing(root, |root.children|, [])
  }

  // ---- Manifest entries ----

  datatype Entry =
    | DirectoryEntry(text: string, mode: string)
    | FileEntry(text: string, mode: string, size: nat, sha256: string)

  predicate IsOctal(c: char) {
    '0' <= c <= '7'
  }

  /** Four octal digits. */
  function ParseMode(mode: string): Option<nat> {
    if |mode| == 4 && IsOctal(mode[0]) && IsOctal(mode[1]) && IsOctal(mode[2]) && IsOctal(mode[3]) then
      Some(512 * Value(mode[0]) + 64 * Value(mode[1]) + 8 * Value(mode[2]) + Value(mode[3]))
    else None
  }

  function Value(c: char): nat
    requires IsOctal(c)
  {
    c as nat - '0' as nat
  }

  function RequiredMode(e: Entry): nat {
    if e.DirectoryEntry? || e.text == SERVER_BINARY then EXECUTABLE else READ_ONLY
  }

  predicate EntryOk(e: Entry) {
    && ValidatedPath(e.text).Some?
    && e.text != MANIFEST
    && ParseMode(e.mode) == Some(RequiredMode(e))
    && (e.FileEntry? ==> e.size <= MAX_FILE_BYTES && IsSha256(e.sha256))
  }

  function PathOf(e: Entry): Path
    requires EntryOk(e)
  {
    ValidatedPath(e.text).value
  }

  predicate AllOk(es: seq<Entry>) {
    forall i :: 0 <= i < |es| ==> EntryOk(es[i])
  }

  predicate Ascending(es: seq<Entry>) {
    forall i :: 1 <= i < |es| ==> Precedes(es[i - 1].text, es[i].text)
  }

  function PathsOf(es: seq<Entry>): (ps: seq<Path>)
    requires AllOk(es)
    ensures |ps| == |es|
  {
    seq(|es|, i requires 0 <= i < |es| => PathOf(es[i]))
  }

  /** Every entry is well-formed, the texts ascend strictly, and no two name the same path. */
  predicate EntriesOk(es: seq<Entry>) {
    AllOk(es) && Ascending(es) && Distinct(PathsOf(es))
  }

  type Expected = map<Path, Entry>

  /** The map that sends each key to the value at its place. */
  function Paired<K, V>(keys: seq<K>, values: seq<V>): map<K, V>
    requires |keys| == |values|
  {
    if keys == [] then map[]
    else Paired(keys[..|keys| - 1], values[..|keys| - 1])[keys[|keys| - 1] := values[|keys| - 1]]
  }

  function ExpectedOf(es: seq<Entry>): Expected
    requires AllOk(es)
  {
    Paired(PathsOf(es), es)
  }

  lemma {:induction false} PairedKeys<K, V>(keys: seq<K>, values: seq<V>)
    requires |keys| == |values|
    ensures Paired(keys, values).Keys == Elements(keys)
  {
    if keys == [] {
      assert Elements(keys) == {};
    } else {
      var n := |keys| - 1;
      PairedKeys(keys[..n], values[..n]);
      assert keys == keys[..n] + [keys[n]];
    }
  }

  lemma {:induction false} PairedHas<K, V>(keys: seq<K>, values: seq<V>)
    requires |keys| == |values| && Distinct(keys)
    ensures forall i :: 0 <= i < |keys| ==> keys[i] in Paired(keys, values) && Paired(keys, values)[keys[i]] == values[i]
    ensures |Paired(keys, values)| == |keys|
  {
    if keys != [] {
      var n := |keys| - 1;
      PairedHas(keys[..n], values[..n]);
      PairedKeys(keys[..n], values[..n]);
      assert Paired(keys, values).Keys == Paired(keys[..n], values[..n]).Keys + {keys[n]};
      forall i | 0 <= i < n
        ensures keys[i] in Paired(keys, values) && Paired(keys, values)[keys[i]] == values[i]
      {
        assert keys[..n][i] == keys[i] && values[..n][i] == values[i];
      }
    }
  }

  lemma PairedSnoc<K, V>(keys: seq<K>, values: seq<V>, k: K, v: V)
    requires |keys| == |values|
    ensures Paired(keys + [k], values + [v]) == Paired(keys, values)[k := v]
  {
    assert (keys + [k])[..|keys|] == keys && (values + [v])[..|keys|] == values;
  }

  method CheckEntry(e: Entry) returns (path: Option<Path>)
    ensures path.Some? <==> EntryOk(e)
    ensures path.Some? ==> path.value == PathOf(e)
  {
    path := ValidatedPath(e.text);
    if path.None? || e.text == MANIFEST || ParseMode(e.mode) != Some(RequiredMode(e)) {
      return None;
    }
    if e.FileEntry? && (e.size > MAX_FILE_BYTES || !IsSha256(e.sha256)) {
      return None;
    }
  }

  predicate InOrder(es: seq<Entry>, i: nat)
    requires i < |es|
  {
    i > 0 ==> Precedes(es[i - 1].text, es[i].text)
  }

  /** `parse_entries`. */
  method ParseEntries(es: seq<Entry>) returns (expected: Option<Expected>)
    ensures expected.Some? <==> EntriesOk(es)
    ensures expected.Some? ==> expected.value == ExpectedOf(es)
  {
    var sofar: Expected := map[];
    for i := 0 to |es|
      invariant EntriesOk(es[..i]) && sofar == ExpectedOf(es[..i])
    {
      var path := CheckEntry(es[i]);
      EntryDecides(es, i, sofar);
      if path.None? || !InOrder(es, i) || path.value in sofar {
        return None;
      }
      sofar := sofar[path.value := es[i]];
    }
    assert es[..|es|] == es;
    return Some(sofar);
  }

  /** The next entry is accepted exactly when the list up to it is still well-formed. */
  lemma EntryDecides(es: seq<Entry>, i: nat, sofar: Expected)
    requires i < |es| && EntriesOk(es[..i]) && sofar == ExpectedOf(es[..i])
    ensures EntryOk(es[i]) && InOrder(es, i) && PathOf(es[i]) !in sofar <==> EntriesOk(es[..i + 1])
    ensures EntriesOk(es[..i + 1]) ==> ExpectedOf(es[..i + 1]) == sofar[PathOf(es[i]) := es[i]]
    ensures EntriesOk(es) ==> EntriesOk(es[..i + 1])
  {
    var front, e := es[..i], es[i];
    assert es[..i + 1] == front + [e];
    PairedKeys(PathsOf(front), front);
    if EntryOk(e) {
      PathsSnoc(front, e);
      PairedSnoc(PathsOf(front), front, PathOf(e), e);
      AscendingSnoc(es, i);
      DistinctSnoc(PathsOf(front), PathOf(e));
    } else {
      assert (front + [e])[i] == e;
    }
    if EntriesOk(es) {
      PrefixOk(es, i + 1);
    }
  }

  lemma PathsSnoc(front: seq<Entry>, e: Entry)
    requires AllOk(front) && EntryOk(e)
    ensures AllOk(front + [e]) && PathsOf(front + [e]) == PathsOf(front) + [PathOf(e)]
  {
  }

  lemma AscendingSnoc(es: seq<Entry>, i: nat)
    requires i < |es| && Ascending(es[..i])
    ensures Ascending(es[..i + 1]) <==> InOrder(es, i)
  {
    if i > 0 && Ascending(es[..i + 1]) {
      assert es[..i + 1][i - 1] == es[i - 1] && es[..i + 1][i] == es[i];
    }
    forall j | 1 <= j < i
      ensures Precedes(es[j - 1].text, es[j].text)
    {
      assert es[..i][j - 1] == es[j - 1] && es[..i][j] == es[j];
    }
  }

  lemma DistinctSnoc<T>(q: seq<T>, x: T)
    requires Distinct(q)
    ensures Distinct(q + [x]) <==> x !in Elements(q)
  {
    if x in q {
      var j :| 0 <= j < |q| && q[j] == x;
      assert (q + [x])[j] == (q + [x])[|q|];
    }
  }

  lemma PrefixOk(es: seq<Entry>, n: nat)
    requires EntriesOk(es) && n <= |es|
    ensures EntriesOk(es[..n])
  {
    assert PathsOf(es[..n]) == PathsOf(es)[..n];
  }

  // ---- The layout ----

  const DIRECTORIES: set<Path> := {["bin"], ["systemd"], ["web"], ["web", "assets"]}
  const FIXED_FILES: set<Path> :=
    {["README.md"], BINARY, ["systemd", "host-monitoring-server.service"], ["web", "index.html"]}

  predicate HasDirectory(expected: Expected, p: Path) {
    p in expected && expected[p].DirectoryEntry? && expected[p].mode == "0555"
  }

  predicate HasFile(expected: Expected, p: Path) {
    p in expected && expected[p].FileEntry? && expected[p].mode == if p == BINARY then "0555" else "0444"
  }

  predicate InAssets(p: Path) {
    |p| == 3 && p[0] == "web" && p[1] == "assets"
  }

  predicate IsAsset(p: Path) {
    InAssets(p) && Extension(p[2]) in {Some("js"), Some("css"), Some("woff2")}
  }

  predicate IsScript(p: Path) {
    InAssets(p) && Extension(p[2]) == Some("js")
  }

  predicate Allowed(p: Path, e: Entry) {
    if e.DirectoryEntry? then p in DIRECTORIES else p in FIXED_FILES || IsAsset(p)
  }

  /** Exactly the fixed directories and files, plus compiled assets with at least one script among them. */
  predicate LayoutHolds(expected: Expected) {
    && (forall p <- DIRECTORIES :: HasDirectory(expected, p))
    && (forall p <- FIXED_FILES :: HasFile(expected, p))
    && (forall p <- expected :: Allowed(p, expected[p]))
    && (exists p <- expected :: expected[p].FileEntry? && IsScript(p))
  }

  lemma FixedAreNoScripts(p: Path)
    requires IsScript(p)
    ensures p !in FIXED_FILES && IsAsset(p)
  {
  }

  /** `validate_exact_layout`. */
  method ValidateExactLayout(expected: Expected) returns (ok: bool)
    ensures ok <==> LayoutHolds(expected)
  {
    if exists p <- DIRECTORIES :: !HasDirectory(expected, p) {
      return false;
    }
    if exists p <- FIXED_FILES :: !HasFile(expected, p) {
      return false;
    }
    var scripts := 0;
    var todo := expected.Keys;
    while todo != {}
      invariant todo <= expected.Keys
      invariant forall p <- expected :: p in todo || Allowed(p, expected[p])
      invariant scripts > 0 <==> exists p <- expected :: p !in todo && expected[p].FileEntry? && IsScript(p)
      decreases |todo|
    {
      var p :| p in todo;
      todo := todo - {p};
      if expected[p].DirectoryEntry? {
        if p !in DIRECTORIES {
          return false;
        }
      } else if p !in FIXED_FILES {
        if !IsAsset(p) {
          return false;
        }
        if Extension(p[2]) == Some("js") {
          scripts := scripts + 1;
        }
      } else {
        if IsScript(p) {
          FixedAreNoScripts(p);
        }
      }
    }
    return scripts > 0;
  }

  // ---- The walk ----

  /** The entry says exactly what the node is; links and special files are never described. */
  predicate EntryDescribes(e: Entry, node: Node) {
    match node
    case Directory(mode, _) => e.DirectoryEntry? && ParseMode(e.mode) == Some(mode)
    case File(mode, links, size, digest) =>
      e.FileEntry? && links == 1 && ParseMode(e.mode) == Some(mode) && e.size == size && e.sha256 == digest
    case _ => false
  }

  predicate Matches(item: Item, expected: Expected) {
    && item.path != [] && ValidName(item.path[|item.path| - 1])
    && item.path in expected && EntryDescribes(expected[item.path], item.node)
  }

  function PathList(items: seq<Item>): (ps: seq<Path>)
    ensures |ps| == |items|
  {
    seq(|items|, i requires 0 <= i < |items| => items[i].path)
  }

  function Bytes(items: seq<Item>): nat {
    if items == [] then 0
    else Bytes(items[..|items| - 1]) + if items[|items| - 1].node.File? then items[|items| - 1].node.size else 0
  }

  function Files(items: seq<Item>): nat {
    if items == [] then 0 else Files(items[..|items| - 1]) + if items[|items| - 1].node.File? then 1 else 0
  }

  /** What a walk has accumulated. */
  datatype Tally = Tally(seen: set<Path>, entries: nat, files: nat, bytes: nat)

  function After(t: Tally, items: seq<Item>): Tally {
    Tally(t.seen + Elements(PathList(items)), t.entries + |items|, t.files + Files(items), t.bytes + Bytes(items))
  }

  predicate Within(t: Tally) {
    t.entries <= MAX_ENTRIES && t.bytes <= MAX_RELEASE_BYTES
  }

  lemma BinaryText()
    ensures Join(BINARY) == SERVER_BINARY && ValidNames(BINARY)
  {
    assert BINARY[1..] == ["host-monitoring-server"];
  }

  lemma ManifestNameIsValid()
    ensures ValidName(MANIFEST)
  {
  }

  predicate AllMatch(items: seq<Item>, expected: Expected) {
    forall i :: 0 <= i < |items| ==> Matches(items[i], expected)
  }

  /** The walk accepts these items next: all match, none was seen, and both limits still hold. */
  predicate Fits(t: Tally, items: seq<Item>, expected: Expected) {
    && AllMatch(items, expected)
    && Distinct(PathList(items)) && Elements(PathList(items)) !! t.seen
    && t.entries + |items| <= MAX_ENTRIES
    && t.bytes + Bytes(items) <= MAX_RELEASE_BYTES
  }

  lemma {:induction false} BytesConcat(a: seq<Item>, b: seq<Item>)
    ensures Bytes(a + b) == Bytes(a) + Bytes(b) && Files(a + b) == Files(a) + Files(b)
  {
    if b == [] {
      assert a + b == a;
    } else {
      var n := |b| - 1;
      assert (a + b)[..|a + b| - 1] == a + b[..n];
      BytesConcat(a, b[..n]);
    }
  }

  lemma ElementsConcat<T>(a: seq<T>, b: seq<T>)
    ensures Elements(a + b) == Elements(a) + Elements(b)
  {
    forall x
      ensures x in a + b <==> x in a || x in b
    {
    }
  }

  lemma DistinctConcat<T>(a: seq<T>, b: seq<T>)
    ensures Distinct(a + b) <==> Distinct(a) && Distinct(b) && Elements(a) !! Elements(b)
  {
    if Distinct(a + b) {
      assert a == (a + b)[..|a|] && b == (a + b)[|a|..];
      forall i, j | 0 <= i < |a| && 0 <= j < |b|
        ensures a[i] != b[j]
      {
        assert (a + b)[i] != (a + b)[|a| + j];
      }
    }
    if Distinct(a) && Distinct(b) && Elements(a) !! Elements(b) {
      forall i, j | 0 <= i < j < |a + b|
        ensures (a + b)[i] != (a + b)[j]
      {
        if i < |a| <= j {
          assert a[i] in Elements(a) && b[j - |a|] in Elements(b);
        }
      }
    }
  }

  lemma PathsConcat(a: seq<Item>, b: seq<Item>)
    ensures PathList(a + b) == PathList(a) + PathList(b)
  {
  }

  lemma AfterConcat(t: Tally, a: seq<Item>, b: seq<Item>)
    ensures After(t, a + b) == After(After(t, a), b)
  {
    BytesConcat(a, b);
    PathsConcat(a, b);
    ElementsConcat(PathList(a), PathList(b));
  }

  /** Accepting a list is accepting its first part and then the rest. */
  lemma FitsConcat(t: Tally, a: seq<Item>, b: seq<Item>, expected: Expected)
    ensures Fits(t, a + b, expected) <==> Fits(t, a, expected) && Fits(After(t, a), b, expected)
  {
    BytesConcat(a, b);
    PathsConcat(a, b);
    ElementsConcat(PathList(a), PathList(b));
    DistinctConcat(PathList(a), PathList(b));
    MatchConcat(a, b, expected);
  }

  lemma MatchConcat(a: seq<Item>, b: seq<Item>, expected: Expected)
    ensures AllMatch(a + b, expected) <==> AllMatch(a, expected) && AllMatch(b, expected)
  {
    if AllMatch(a + b, expected) {
      forall i | 0 <= i < |a|
        ensures Matches(a[i], expected)
      {
        assert (a + b)[i] == a[i];
      }
      forall i | 0 <= i < |b|
        ensures Matches(b[i], expected)
      {
        assert (a + b)[|a| + i] == b[i];
      }
    }
  }

  lemma FitsOne(t: Tally, item: Item, expected: Expected)
    ensures Fits(t, [item], expected) <==>
              Matches(item, expected) && item.path !in t.seen && t.entries < MAX_ENTRIES
              && t.bytes + (if item.node.File? then item.node.size else 0) <= MAX_RELEASE_BYTES
    ensures After(t, [item]) == Tally(t.seen + {item.path}, t.entries + 1, t.files + (if item.node.File? then 1 else 0),
                                      t.bytes + if item.node.File? then item.node.size else 0)
  {
    assert PathList([item]) == [item.path];
    SingleElement(item.path);
    assert [item][..0] == [];
    assert Bytes([item]) == if item.node.File? then item.node.size else 0;
    assert Files([item]) == if item.node.File? then 1 else 0;
  }

  lemma SingleElement<T>(x: T)
    ensures Elements([x]) == {x}
  {
    forall y
      ensures y in Elements([x]) <==> y == x
    {
    }
  }

  /** What accepting one child comes to. */
  lemma ChildDecides(t: Tally, c: Child, relative: Path, expected: Expected)
    requires Within(t)
    ensures var path, items := relative + [c.name], OneListing(c, relative);
            var item := Item(path, c.node);
            && (path == [MANIFEST] ==> ValidName(c.name) && Fits(t, items, expected) && After(t, items) == t)
            && (path != [MANIFEST] ==>
                  && (Fits(t, items, expected) <==>
                        Fits(t, [item], expected)
                        && (c.node.Directory? ==> Fits(After(t, [item]), Listing(c.node, |c.node.children|, path), expected)))
                  && After(t, items) == if c.node.Directory? then After(After(t, [item]), Listing(c.node, |c.node.children|, path))
                                        else After(t, [item]))
  {
    var path := relative + [c.name];
    assert path[|path| - 1] == c.name;
    if path == [MANIFEST] {
      ManifestNameIsValid();
      assert PathList([]) == [];
      assert Elements(PathList([])) == {};
    } else if c.node.Directory? {
      FitsConcat(t, [Item(path, c.node)], Listing(c.node, |c.node.children|, path), expected);
      AfterConcat(t, [Item(path, c.node)], Listing(c.node, |c.node.children|, path));
    } else {
      assert [Item(path, c.node)] + [] == [Item(path, c.node)];
    }
  }

  lemma ListingGrows(node: Node, i: nat, n: nat, relative: Path)
    requires node.Directory? && i <= n <= |node.children|
    ensures Listing(node, i, relative) <= Listing(node, n, relative)
    decreases n
  {
    if i < n {
      ListingGrows(node, i, n - 1, relative);
    }
  }

  /** A directory whose first children are refused is refused. */
  lemma RefusedEarly(t: Tally, node: Node, i: nat, relative: Path, expected: Expected)
    requires node.Directory? && i <= |node.children| && !Fits(t, Listing(node, i, relative), expected)
    ensures !Fits(t, Listing(node, |node.children|, relative), expected)
  {
    var part, all := Listing(node, i, relative), Listing(node, |node.children|, relative);
    ListingGrows(node, i, |node.children|, relative);
    assert all == part + all[|part|..];
    FitsConcat(t, part, all[|part|..], expected);
  }

  class Walk {
    const expected: Expected
    var seen: set<Path>
    var entries: nat
    var files: nat
    var bytes: nat

    constructor (expected: Expected)
      ensures this.expected == expected && Sofar() == Tally({}, 0, 0, 0)
    {
      this.expected := expected;
      seen, entries, files, bytes := {}, 0, 0, 0;
    }

    function Sofar(): Tally
      reads this
    {
      Tally(seen, entries, files, bytes)
    }

    /** `validate_directory`, for a directory its parent has already counted, or for the root. */
    method ValidateDirectory(node: Node, relative: Path) returns (ok: bool)
      requires node.Directory? && Within(Sofar())
      modifies this
      ensures var begun := if relative == [] then old(Sofar()) else old(Sofar()).(seen := old(seen) + {relative});
              var below := Listing(node, |node.children|, relative);
              && (ok <==> (relative == [] || (relative in expected && EntryDescribes(expected[relative], node) && relative !in old(seen)))
                          && Fits(begun, below, expected))
              && (ok ==> Sofar() == After(begun, below))
      decreases node, 2
    {
      if relative != [] {
        if relative !in expected || !expected[relative].DirectoryEntry? || ParseMode(expected[relative].mode) != Some(node.mode) {
          return false;
        }
        if relative in seen {
          return false;
        }
        seen := seen + {relative};
      }
      ok := ValidateChildren(node, relative);
    }

    method ValidateChildren(node: Node, relative: Path) returns (ok: bool)
      requires node.Directory? && Within(Sofar())
      modifies this
      ensures ok <==> Fits(old(Sofar()), Listing(node, |node.children|, relative), expected)
      ensures ok ==> Sofar() == After(old(Sofar()), Listing(node, |node.children|, relative))
      decreases node, 1
    {
      ghost var begun := Sofar();
      NothingFits(begun, expected);
      for i := 0 to |node.children|
        invariant Fits(begun, Listing(node, i, relative), expected)
        invariant Sofar() == After(begun, Listing(node, i, relative))
      {
        ListingStep(begun, node, i, relative, expected);
        var fine := ValidateChild(node.children[i], relative);
        if !fine {
          RefusedEarly(begun, node, i + 1, relative, expected);
          return false;
        }
      }
      return true;
    }

    /** One turn of the loop over a directory's children. */
    method ValidateChild(c: Child, relative: Path) returns (ok: bool)
      requires Within(Sofar())
      modifies this
      ensures ok <==> Fits(old(Sofar()), OneListing(c, relative), expected)
      ensures ok ==> Sofar() == After(old(Sofar()), OneListing(c, relative))
      decreases c, 0
    {
      var path := relative + [c.name];
      ghost var begun := Sofar();
      ChildDecides(begun, c, relative, expected);
      FitsOne(begun, Item(path, c.node), expected);
      if !ValidName(c.name) {
        return false;
      }
      if path == [MANIFEST] {
        return true;
      }
      entries := entries + 1;
      if entries > MAX_ENTRIES {
        return false;
      }
      if c.node.Directory? {
        ok := ValidateDirectory(c.node, path);
        return;
      }
      if !c.node.File? || path !in expected || !EntryDescribes(expected[path], c.node) {
        return false;
      }
      files := files + 1;
      bytes := bytes + c.node.size;
      if bytes > MAX_RELEASE_BYTES || path in seen {
        return false;
      }
      seen := seen + {path};
      return true;
    }
  }

  lemma NothingFits(t: Tally, expected: Expected)
    requires Within(t)
    ensures Fits(t, [], expected) && After(t, []) == t
  {
    assert PathList([]) == [];
    assert Elements(PathList([])) == {};
  }

  lemma ListingStep(t: Tally, node: Node, i: nat, relative: Path, expected: Expected)
    requires node.Directory? && i < |node.children| && Fits(t, Listing(node, i, relative), expected)
    ensures var now, one := After(t, Listing(node, i, relative)), OneListing(node.children[i], relative);
            && Within(now)
            && (Fits(now, one, expected) <==> Fits(t, Listing(node, i + 1, relative), expected))
            && After(now, one) == After(t, Listing(node, i + 1, relative))
  {
    FitsConcat(t, Listing(node, i, relative), OneListing(node.children[i], relative), expected);
    AfterConcat(t, Listing(node, i, relative), OneListing(node.children[i], relative));
  }
}
