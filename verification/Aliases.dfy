/** Ordered import aliases (`vitest.aliases.ts`): entries match by prefix and the first match wins. */
module Aliases {
  import opened Text

  datatype Alias = Alias(find: string, replacement: string)

  /** First entry whose `find` is a prefix of the import. */
  function Resolve(list: seq<Alias>, path: string): (r: Option<nat>)
    ensures r.Some? ==> r.value < |list| && list[r.value].find <= path
                        && forall j :: 0 <= j < r.value ==> !(list[j].find <= path)
    ensures r.None? ==> forall j :: 0 <= j < |list| ==> !(list[j].find <= path)
  {
    if list == [] then None
    else if list[0].find <= path then Some(0)
    else
      var r := Resolve(list[1..], path);
      if r.Some? then Some(r.value + 1) else None
  }

  /** Whatever matches is no longer than the entry chosen. */
  ghost predicate LongestWins(list: seq<Alias>, path: string) {
    forall j :: 0 <= j < |list| && list[j].find <= path ==>
      Resolve(list, path).Some? && |list[j].find| <= |list[Resolve(list, path).value].find|
  }

  ghost predicate DistinctFinds(list: seq<Alias>) {
    forall i, j :: 0 <= i < j < |list| ==> list[i].find != list[j].find
  }

  /** No entry is shadowed by an earlier, shorter one. */
  ghost predicate NoShadow(list: seq<Alias>) {
    forall i, j :: 0 <= i < j < |list| ==> !(list[i].find <= list[j].find)
  }

  /** Two prefixes of one text are comparable. */
  lemma PrefixesNest(a: string, b: string, path: string)
    requires a <= path && b <= path && |a| <= |b|
    ensures a <= b
  {
  }

  /** First match is longest match for every import, exactly when no entry is a prefix of a later one. */
  lemma FirstIsLongest(list: seq<Alias>)
    requires DistinctFinds(list)
    ensures (forall path :: LongestWins(list, path)) <==> NoShadow(list)
  {
    if NoShadow(list) {
      forall path ensures LongestWins(list, path) {
        forall j | 0 <= j < |list| && list[j].find <= path
          ensures Resolve(list, path).Some? && |list[j].find| <= |list[Resolve(list, path).value].find|
        {
          var i := Resolve(list, path).value;
          if |list[i].find| < |list[j].find| {
            PrefixesNest(list[i].find, list[j].find, path);
          }
        }
      }
    }
    if forall path :: LongestWins(list, path) {
      forall i, j | 0 <= i < j < |list| ensures !(list[i].find <= list[j].find) {
        var path := list[j].find;
        assert LongestWins(list, path);
        var r := Resolve(list, path).value;
        assert |list[r].find| == |path|;
        assert list[r].find == path;
      }
    }
  }

  // ----- packageSourceAliases -----

  datatype Export = Export(subpath: string, replacement: string)

  /** Export keys of a package: the root, or a path below it. */
  predicate Subpath(s: string) {
    s == "." || "./" <= s
  }

  function FindOf(name: string, e: Export): string
    requires Subpath(e.subpath)
  {
    if e.subpath == "." then name else name + "/" + e.subpath[2..]
  }

  ghost predicate Manifest(exports: seq<Export>) {
    && (forall i :: 0 <= i < |exports| ==> Subpath(exports[i].subpath))
    && (forall i, j :: 0 <= i < j < |exports| ==> exports[i].subpath != exports[j].subpath)
  }

  function Entries(name: string, exports: seq<Export>): (list: seq<Alias>)
    requires forall i :: 0 <= i < |exports| ==> Subpath(exports[i].subpath)
    ensures |list| == |exports|
    ensures forall i :: 0 <= i < |list| ==> list[i] == Alias(FindOf(name, exports[i]), exports[i].replacement)
  {
    if exports == [] then []
    else [Alias(FindOf(name, exports[0]), exports[0].replacement)] + Entries(name, exports[1..])
  }

  /** Longest `find` first; entries of equal length keep their order. */
  function InsertLongest(x: Alias, list: seq<Alias>): seq<Alias> {
    if list == [] || |list[0].find| <= |x.find| then [x] + list else [list[0]] + InsertLongest(x, list[1..])
  }

  function LongestFirst(list: seq<Alias>): seq<Alias> {
    if list == [] then [] else InsertLongest(list[0], LongestFirst(list[1..]))
  }

  function PackageSourceAliases(name: string, exports: seq<Export>): seq<Alias>
    requires forall i :: 0 <= i < |exports| ==> Subpath(exports[i].subpath)
  {
    LongestFirst(Entries(name, exports))
  }

  ghost predicate Descending(list: seq<Alias>) {
    forall i, j :: 0 <= i < j < |list| ==> |list[i].find| >= |list[j].find|
  }

  lemma {:induction false} InsertMembers(x: Alias, list: seq<Alias>)
    ensures multiset(InsertLongest(x, list)) == multiset{x} + multiset(list)
    ensures forall y :: y in InsertLongest(x, list) <==> y == x || y in list
  {
    if list != [] && |list[0].find| > |x.find| {
      InsertMembers(x, list[1..]);
      assert list == [list[0]] + list[1..];
    }
  }

  lemma {:induction false} InsertDescending(x: Alias, list: seq<Alias>)
    requires Descending(list)
    ensures Descending(InsertLongest(x, list))
  {
    if list != [] && |list[0].find| > |x.find| {
      var t := InsertLongest(x, list[1..]);
      InsertDescending(x, list[1..]);
      InsertMembers(x, list[1..]);
      forall j | 0 <= j < |t| ensures |list[0].find| >= |t[j].find| {
        assert t[j] == x || t[j] in list[1..];
      }
    }
  }

  lemma {:induction false} InsertDistinct(x: Alias, list: seq<Alias>)
    requires DistinctFinds(list) && forall y :: y in list ==> y.find != x.find
    ensures DistinctFinds(InsertLongest(x, list))
  {
    if list != [] && |list[0].find| > |x.find| {
      var t := InsertLongest(x, list[1..]);
      InsertDistinct(x, list[1..]);
      InsertMembers(x, list[1..]);
      forall j | 0 <= j < |t| ensures list[0].find != t[j].find {
        assert t[j] == x || t[j] in list[1..];
      }
    }
  }

  /** The sort is a permutation into descending length. */
  lemma {:induction false} SortFacts(list: seq<Alias>)
    ensures multiset(LongestFirst(list)) == multiset(list)
    ensures forall y :: y in LongestFirst(list) <==> y in list
    ensures Descending(LongestFirst(list))
    ensures DistinctFinds(list) ==> DistinctFinds(LongestFirst(list))
  {
    if list != [] {
      SortFacts(list[1..]);
      InsertMembers(list[0], LongestFirst(list[1..]));
      InsertDescending(list[0], LongestFirst(list[1..]));
      assert list == [list[0]] + list[1..];
      if DistinctFinds(list) {
        InsertDistinct(list[0], LongestFirst(list[1..]));
      }
    }
  }

  lemma FindIsInjective(name: string, a: Export, b: Export)
    requires Subpath(a.subpath) && Subpath(b.subpath) && FindOf(name, a) == FindOf(name, b)
    ensures a.subpath == b.subpath
  {
    var n := |name| + 1;
    if a.subpath != "." && b.subpath != "." {
      assert FindOf(name, a)[n..] == a.subpath[2..] && FindOf(name, b)[n..] == b.subpath[2..];
      assert a.subpath == "./" + a.subpath[2..] && b.subpath == "./" + b.subpath[2..];
    }
  }

  lemma EntriesDistinct(name: string, exports: seq<Export>)
    requires Manifest(exports)
    ensures DistinctFinds(Entries(name, exports))
  {
    hide FindOf;
    var list := Entries(name, exports);
    forall i, j | 0 <= i < j < |list| && list[i].find == list[j].find ensures false {
      FindIsInjective(name, exports[i], exports[j]);
    }
  }

  lemma DescendingHasNoShadow(list: seq<Alias>)
    requires Descending(list) && DistinctFinds(list)
    ensures NoShadow(list)
  {
  }

  lemma FindsBelowName(name: string, exports: seq<Export>)
    requires forall i :: 0 <= i < |exports| ==> Subpath(exports[i].subpath)
    ensures forall y :: y in PackageSourceAliases(name, exports) ==> name <= y.find
  {
    SortFacts(Entries(name, exports));
  }

  /** One package: every import resolves to its longest matching entry, so the root never swallows a subpath. */
  lemma PackageResolvesLongest(name: string, exports: seq<Export>, path: string)
    requires Manifest(exports)
    ensures LongestWins(PackageSourceAliases(name, exports), path)
  {
    var list := PackageSourceAliases(name, exports);
    EntriesDistinct(name, exports);
    SortFacts(Entries(name, exports));
    DescendingHasNoShadow(list);
    FirstIsLongest(list);
  }

  /** An import names an export: the package itself, or its name followed by the path below it. */
  ghost predicate Imports(path: string, name: string, e: Export) {
    (e.subpath == "." && path == name) || exists rest :: e.subpath == "./" + rest && path == name + "/" + rest
  }

  /** `path` resolves to an entry of its own, which points at `replacement`. */
  ghost predicate ResolvesTo(list: seq<Alias>, path: string, replacement: string) {
    Resolve(list, path).Some? && list[Resolve(list, path).value] == Alias(path, replacement)
  }

  lemma OwnEntryWins(list: seq<Alias>, path: string, replacement: string)
    requires NoShadow(list) && DistinctFinds(list) && Alias(path, replacement) in list
    ensures ResolvesTo(list, path, replacement)
  {
    FirstIsLongest(list);
    assert LongestWins(list, path);
    var j :| 0 <= j < |list| && list[j] == Alias(path, replacement);
    var r := Resolve(list, path).value;
    assert list[r].find == path;
  }

  lemma ExportHasEntry(name: string, exports: seq<Export>, e: Export, path: string)
    requires Manifest(exports) && e in exports && Imports(path, name, e)
    ensures Alias(path, e.replacement) in PackageSourceAliases(name, exports)
  {
    var i :| 0 <= i < |exports| && exports[i] == e;
    var list := Entries(name, exports);
    SortFacts(list);
    if e.subpath != "." {
      var rest :| e.subpath == "./" + rest && path == name + "/" + rest;
      assert e.subpath[2..] == rest;
    }
    assert list[i] == Alias(path, e.replacement);
  }

  lemma PackageListIsGood(name: string, exports: seq<Export>)
    requires Manifest(exports)
    ensures NoShadow(PackageSourceAliases(name, exports)) && DistinctFinds(PackageSourceAliases(name, exports))
  {
    EntriesDistinct(name, exports);
    SortFacts(Entries(name, exports));
    DescendingHasNoShadow(PackageSourceAliases(name, exports));
  }

  /** Importing a package, or a subpath it exports, finds exactly that export: no shorter entry swallows it. */
  lemma ExportResolves(name: string, exports: seq<Export>, e: Export, path: string)
    requires Manifest(exports) && e in exports && Imports(path, name, e)
    ensures ResolvesTo(PackageSourceAliases(name, exports), path, e.replacement)
  {
    hide PackageSourceAliases;
    ExportHasEntry(name, exports, e, path);
    PackageListIsGood(name, exports);
    OwnEntryWins(PackageSourceAliases(name, exports), path, e.replacement);
  }

  // ----- several packages in one list -----

  datatype Package = Package(name: string, exports: seq<Export>)

  predicate Related(a: string, b: string) {
    a <= b || b <= a
  }

  ghost predicate Workspace(packages: seq<Package>) {
    && (forall i :: 0 <= i < |packages| ==> Manifest(packages[i].exports))
    && (forall i, j :: 0 <= i < j < |packages| ==> !Related(packages[i].name, packages[j].name))
  }

  function AllAliases(packages: seq<Package>): seq<Alias>
    requires forall p :: p in packages ==> forall i :: 0 <= i < |p.exports| ==> Subpath(p.exports[i].subpath)
  {
    if packages == [] then []
    else PackageSourceAliases(packages[0].name, packages[0].exports) + AllAliases(packages[1..])
  }

  lemma Apart(name1: string, name2: string, find1: string, find2: string)
    requires name1 <= find1 && name2 <= find2
    ensures Related(find1, find2) ==> Related(name1, name2)
  {
  }

  ghost predicate Separate(a: seq<Alias>, b: seq<Alias>) {
    forall x, y :: x in a && y in b ==> !Related(x.find, y.find)
  }

  lemma ConcatKeeps(a: seq<Alias>, b: seq<Alias>)
    requires NoShadow(a) && DistinctFinds(a) && NoShadow(b) && DistinctFinds(b) && Separate(a, b)
    ensures NoShadow(a + b) && DistinctFinds(a + b)
  {
  }

  lemma SubpathsOf(packages: seq<Package>)
    requires Workspace(packages)
    ensures forall p :: p in packages ==> forall i :: 0 <= i < |p.exports| ==> Subpath(p.exports[i].subpath)
  {
  }

  lemma {:induction false} WorkspaceList(packages: seq<Package>)
    requires Workspace(packages)
    ensures forall p :: p in packages ==> forall i :: 0 <= i < |p.exports| ==> Subpath(p.exports[i].subpath)
    ensures NoShadow(AllAliases(packages)) && DistinctFinds(AllAliases(packages))
    ensures forall y :: y in AllAliases(packages) ==> exists p :: p in packages && p.name <= y.find
  {
    SubpathsOf(packages);
    if packages != [] {
      var p := packages[0];
      var a, b := PackageSourceAliases(p.name, p.exports), AllAliases(packages[1..]);
      assert Workspace(packages[1..]);
      WorkspaceList(packages[1..]);
      EntriesDistinct(p.name, p.exports);
      SortFacts(Entries(p.name, p.exports));
      DescendingHasNoShadow(a);
      FindsBelowName(p.name, p.exports);
      forall x, y | x in a && y in b ensures !Related(x.find, y.find) {
        var q :| q in packages[1..] && q.name <= y.find;
        Apart(p.name, q.name, x.find, y.find);
      }
      ConcatKeeps(a, b);
    }
  }

  /** Several packages listed one after another: longest match still wins for every import, as long as no
      package name is a prefix of another. */
  lemma WorkspaceResolvesLongest(packages: seq<Package>, path: string)
    requires Workspace(packages)
    ensures forall p :: p in packages ==> forall i :: 0 <= i < |p.exports| ==> Subpath(p.exports[i].subpath)
    ensures LongestWins(AllAliases(packages), path)
  {
    WorkspaceList(packages);
    FirstIsLongest(AllAliases(packages));
  }

  lemma {:induction false} WorkspaceHasEntries(packages: seq<Package>, p: Package)
    requires p in packages
    requires forall q :: q in packages ==> forall i :: 0 <= i < |q.exports| ==> Subpath(q.exports[i].subpath)
    ensures forall y :: y in PackageSourceAliases(p.name, p.exports) ==> y in AllAliases(packages)
  {
    hide PackageSourceAliases;
    if p != packages[0] {
      assert p in packages[1..];
      WorkspaceHasEntries(packages[1..], p);
    }
  }

  /** So does every import of an export of any package of a workspace. */
  lemma WorkspaceExportResolves(packages: seq<Package>, p: Package, e: Export, path: string)
    requires Workspace(packages) && p in packages && e in p.exports && Imports(path, p.name, e)
    ensures forall q :: q in packages ==> forall i :: 0 <= i < |q.exports| ==> Subpath(q.exports[i].subpath)
    ensures ResolvesTo(AllAliases(packages), path, e.replacement)
  {
    hide PackageSourceAliases, AllAliases, Imports;
    WorkspaceList(packages);
    WorkspaceHasEntries(packages, p);
    ExportHasEntry(p.name, p.exports, e, path);
    OwnEntryWins(AllAliases(packages), path, e.replacement);
  }
}
