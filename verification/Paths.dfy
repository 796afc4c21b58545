/** Release paths as text and as components (release_bundle.rs, and the manifest script that writes them). */
module Paths {
  import opened Basics

  type Path = seq<string>

  const MAX_PATH: nat := 1024

  predicate IsPortable(c: char) {
    'a' <= c <= 'z' || 'A' <= c <= 'Z' || '0' <= c <= '9' || c == '.' || c == '_' || c == '-'
  }

  /** `validate_name`. */
  predicate ValidName(name: string) {
    name != "" && name != "." && name != ".." && forall i :: 0 <= i < |name| ==> IsPortable(name[i])
  }

  predicate ValidNames(p: Path) {
    forall i :: 0 <= i < |p| ==> ValidName(p[i])
  }

  function Split(t: string): (parts: seq<string>)
    ensures parts != []
  {
    if t == "" then [""]
    else
      var rest := Split(t[1..]);
      if t[0] == '/' then [""] + rest else [[t[0]] + rest[0]] + rest[1..]
  }

  function Join(p: Path): string {
    if p == [] then "" else if |p| == 1 then p[0] else p[0] + "/" + Join(p[1..])
  }

  predicate Dropped(part: string) {
    part == "" || part == "."
  }

  function Kept(parts: seq<string>): seq<string> {
    if parts == [] then [] else (if Dropped(parts[0]) then [] else [parts[0]]) + Kept(parts[1..])
  }

  /** The components of a relative path: empty and "." parts are dropped, except a "." at the front. */
  function Components(t: string): Option<Path> {
    if t == "" || t[0] == '/' || Split(t)[0] == "." then None else Some(Kept(Split(t)))
  }

  /** `validated_relative_path`. The last test of the code compares the text with itself and never fails. */
  function ValidatedPath(t: string): Option<Path> {
    if |t| <= MAX_PATH && Components(t).Some? && ValidNames(Components(t).value) then Components(t) else None
  }

  predicate NoSlash(s: string) {
    forall i :: 0 <= i < |s| ==> s[i] != '/'
  }

  lemma {:induction false} SplitPlain(a: string)
    requires NoSlash(a)
    ensures Split(a) == [a]
  {
    if a != "" {
      SplitPlain(a[1..]);
      assert [a[0]] + a[1..] == a;
    }
  }

  lemma {:induction false} SplitFirst(a: string, rest: string)
    requires NoSlash(a)
    ensures Split(a + "/" + rest) == [a] + Split(rest)
  {
    var t := a + "/" + rest;
    if a == "" {
      assert t[1..] == rest;
    } else {
      SplitFirst(a[1..], rest);
      assert t[1..] == a[1..] + "/" + rest;
      assert [a[0]] + a[1..] == a;
    }
  }

  lemma {:induction false} SplitJoin(p: Path)
    requires p != [] && forall i :: 0 <= i < |p| ==> NoSlash(p[i])
    ensures Split(Join(p)) == p
  {
    if |p| == 1 {
      SplitPlain(p[0]);
    } else {
      SplitJoin(p[1..]);
      SplitFirst(p[0], Join(p[1..]));
    }
  }

  lemma {:induction false} JoinSplit(t: string)
    ensures Join(Split(t)) == t
  {
    if t != "" {
      var rest := Split(t[1..]);
      JoinSplit(t[1..]);
      if t[0] == '/' {
        assert ([""] + rest)[1..] == rest;
        assert "" + "/" + t[1..] == t;
      } else {
        var all := [[t[0]] + rest[0]] + rest[1..];
        assert all[1..] == rest[1..];
        if |rest| == 1 {
          assert Join(all) == [t[0]] + rest[0];
        } else {
          assert Join(all) == [t[0]] + (rest[0] + "/" + Join(rest[1..]));
        }
      }
    }
  }

  /** The characters from `i` to `j` are what stands between two slashes, or between a slash and an end. */
  predicate IsPart(t: string, i: nat, j: nat) {
    i <= j <= |t| && (i == 0 || t[i - 1] == '/') && (j == |t| || t[j] == '/') && NoSlash(t[i..j])
  }

  lemma {:induction false} PartInSplit(t: string, i: nat, j: nat) returns (k: nat)
    requires IsPart(t, i, j)
    ensures k < |Split(t)| && Split(t)[k] == t[i..j] && (i > 0 ==> k > 0)
    decreases |t|
  {
    if i == 0 {
      k := 0;
      if j == |t| {
        SplitPlain(t);
        assert t[..j] == t;
      } else {
        SplitFirst(t[..j], t[j + 1..]);
        assert t == t[..j] + "/" + t[j + 1..];
      }
    } else {
      var rest := t[1..];
      assert rest[i - 1..j - 1] == t[i..j];
      k := PartInSplit(rest, i - 1, j - 1);
      k := if t[0] == '/' then k + 1 else k;
    }
  }

  lemma {:induction false} KeptAll(parts: seq<string>)
    requires forall i :: 0 <= i < |parts| ==> !Dropped(parts[i])
    ensures Kept(parts) == parts
  {
    if parts != [] {
      KeptAll(parts[1..]);
    }
  }

  lemma ValidHasNoSlash(p: Path)
    requires ValidNames(p)
    ensures forall i :: 0 <= i < |p| ==> NoSlash(p[i])
  {
    forall i | 0 <= i < |p|
      ensures NoSlash(p[i])
    {
      assert ValidName(p[i]);
    }
  }

  /** Every list of valid names is read back from its own text, if the text is short enough. */
  lemma JoinIsValidated(p: Path)
    requires p != [] && ValidNames(p) && |Join(p)| <= MAX_PATH
    ensures ValidatedPath(Join(p)) == Some(p)
  {
    PlainComponents(p);
  }

  /** Valid names are the components of their own text, however long. */
  lemma PlainComponents(p: Path)
    requires p != [] && ValidNames(p)
    ensures Components(Join(p)) == Some(p)
  {
    ValidHasNoSlash(p);
    SplitJoin(p);
    KeptAll(p);
    assert ValidName(p[0]);
    JoinStarts(p);
  }

  lemma JoinStarts(p: Path)
    requires p != [] && p[0] != ""
    ensures Join(p) != "" && Join(p)[0] == p[0][0]
  {
  }

  lemma JoinInjective(p: Path, q: Path)
    requires p != [] && q != [] && ValidNames(p) && ValidNames(q) && Join(p) == Join(q)
    ensures p == q
  {
    ValidHasNoSlash(p);
    ValidHasNoSlash(q);
    SplitJoin(p);
    SplitJoin(q);
  }

  lemma {:induction false} KeptNonEmpty(parts: seq<string>)
    requires parts != [] && !Dropped(parts[0])
    ensures Kept(parts) != []
  {
  }

  lemma {:induction false} KeptHas(parts: seq<string>, k: nat)
    requires k < |parts|
    ensures Dropped(parts[k]) || parts[k] in Kept(parts)
  {
    if k > 0 {
      KeptHas(parts[1..], k - 1);
    }
  }

  /** Whatever stands between the slashes of an accepted text is empty, a single dot or one of the names. */
  lemma PartsOfValidated(t: string, i: nat, j: nat)
    requires ValidatedPath(t).Some? && IsPart(t, i, j)
    ensures t[i..j] == "" || t[i..j] == "." || t[i..j] in ValidatedPath(t).value
  {
    var k := PartInSplit(t, i, j);
    KeptHas(Split(t), k);
  }

  lemma ValidatedNonEmpty(t: string)
    requires ValidatedPath(t).Some?
    ensures ValidatedPath(t).value != [] && ValidNames(ValidatedPath(t).value)
  {
    FirstPart(t);
    KeptNonEmpty(Split(t));
  }

  lemma FirstPart(t: string)
    requires t != "" && t[0] != '/'
    ensures Split(t)[0] != ""
  {
  }

  predicate NothingDropped(parts: seq<string>) {
    forall i :: 0 <= i < |parts| ==> !Dropped(parts[i])
  }

  lemma ValidNotDropped(p: Path)
    requires ValidNames(p)
    ensures NothingDropped(p)
  {
    forall i | 0 <= i < |p|
      ensures !Dropped(p[i])
    {
      assert ValidName(p[i]);
    }
  }

  /**
   The code means to refuse every text that is not the canonical spelling of its components. It accepts some: an
   accepted text is canonical exactly when it has no empty part and no "." part.
   */
  lemma CanonicalExactly(t: string)
    requires ValidatedPath(t).Some?
    ensures t == Join(ValidatedPath(t).value) <==> NothingDropped(Split(t))
  {
    var p := ValidatedPath(t).value;
    ValidatedNonEmpty(t);
    ValidHasNoSlash(p);
    SplitJoin(p);
    ValidNotDropped(p);
    if NothingDropped(Split(t)) {
      KeptAll(Split(t));
      JoinSplit(t);
    }
  }

  /** A doubled slash: `web//assets` is taken for `web/assets`. */
  lemma DoubledSlashIsAccepted(a: string, b: string)
    requires ValidName(a) && ValidName(b) && |a| + 2 + |b| <= MAX_PATH
    ensures var t := a + "/" + ("/" + b);
            ValidatedPath(t) == Some([a, b]) && t != Join([a, b])
  {
    var t := a + "/" + ("/" + b);
    assert NoSlash(a) && NoSlash(b);
    assert "/" + b == "" + "/" + b;
    SplitFirst(a, "/" + b);
    SplitFirst("", b);
    SplitPlain(b);
    assert Split(t) == [a] + ([""] + ([b] + []));
    KeptCons(b, []);
    KeptCons("", [b] + []);
    KeptCons(a, [""] + ([b] + []));
    assert Kept(Split(t)) == [a, b];
    SplitJoin([a, b]);
  }

  lemma KeptCons(part: string, rest: seq<string>)
    ensures Kept([part] + rest) == (if Dropped(part) then [] else [part]) + Kept(rest)
  {
    assert ([part] + rest)[1..] == rest;
  }

  // ---- The order of manifest entries ----

  /** Byte order of texts. */
  predicate Precedes(a: string, b: string) {
    b != "" && (a == "" || a[0] < b[0] || (a[0] == b[0] && Precedes(a[1..], b[1..])))
  }

  lemma {:induction false} PrecedesTotal(a: string, b: string)
    ensures Precedes(a, b) || a == b || Precedes(b, a)
    ensures !Precedes(a, a)
  {
    if a != "" && b != "" {
      PrecedesTotal(a[1..], b[1..]);
      assert a == [a[0]] + a[1..] && b == [b[0]] + b[1..];
    }
    if a != "" {
      PrecedesTotal(a[1..], a[1..]);
    }
  }

  lemma {:induction false} PrecedesTransitive(a: string, b: string, c: string)
    requires Precedes(a, b) && Precedes(b, c)
    ensures Precedes(a, c)
  {
    if a != "" && a[0] == b[0] == c[0] {
      PrecedesTransitive(a[1..], b[1..], c[1..]);
    }
  }

  /** The part of a file name after its last dot, if the dot is not in front. */
  function Extension(name: string): Option<string> {
    if exists i :: 0 < i < |name| && LastDot(name, i) then
      var i :| 0 < i < |name| && LastDot(name, i);
      Some(name[i + 1..])
    else None
  }

  predicate LastDot(name: string, i: nat) {
    i < |name| && name[i] == '.' && forall j :: i < j < |name| ==> name[j] != '.'
  }
}
