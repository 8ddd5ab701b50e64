/** One split of the dataset (train, test or valid): for every class, in
    declaration order, the sorted `.png` files of that class's directory, and
    the queries that map item indices to classes, paths and image batches. The
    directory listing and the image decoder are inputs. */
module DatasetIndexing {
  import opened Wrappers
  import opened Text
  import opened Sorting
  import opened Classes
  import Images

  // ----- Paths -----

  /** Appending a path to a base as Unix paths do: an absolute path replaces the
      base; otherwise a `/` goes between them unless the base is empty or
      already ends in one. */
  function PathJoin(base: string, rel: string): string {
    if rel != [] && rel[0] == '/' then rel
    else if base == [] || base[|base| - 1] == '/' then base + rel
    else base + "/" + rel
  }

  /** The position of the last occurrence of `c`. */
  function LastIndexOf(s: string, c: char): (r: Option<nat>)
    ensures r.None? <==> c !in s
    ensures r.Some? ==> r.value < |s| && s[r.value] == c && c !in s[r.value + 1..]
    decreases |s|
  {
    if s == [] then None
    else if s[|s| - 1] == c then Some(|s| - 1)
    else
      var r := LastIndexOf(s[..|s| - 1], c);
      assert r.Some? ==> s[r.value + 1..] == s[..|s| - 1][r.value + 1..] + [s[|s| - 1]];
      r
  }

  lemma LastIndexOfAt(s: string, c: char, i: nat)
    requires i < |s| && s[i] == c && c !in s[i + 1..]
    ensures LastIndexOf(s, c) == Some(i)
  {
  }

  /** The extension of a file name: the text after its last dot, when the name
      has a dot that is not its first character (and is not `..`). */
  function Extension(name: string): Option<string> {
    if name == ".." then None
    else
      match LastIndexOf(name, '.')
      case None => None
      case Some(i) => if i == 0 then None else Some(name[i + 1..])
  }

  /** `Path::join`: an absolute right side replaces the base; otherwise the
      result is the base, a `/` exactly when the base is non-empty and does not
      already end in one, and then the right side. */
  lemma PathJoinParts(base: string, rel: string)
    ensures rel != [] && rel[0] == '/' ==> PathJoin(base, rel) == rel
    ensures !(rel != [] && rel[0] == '/') ==>
      var r := PathJoin(base, rel);
      |base| + |rel| <= |r| && r[..|base|] == base && r[|r| - |rel|..] == rel
      && (|r| == |base| + |rel| + 1 <==> base != [] && base[|base| - 1] != '/')
      && (|r| == |base| + |rel| + 1 || |r| == |base| + |rel|)
      && (|r| == |base| + |rel| + 1 ==> r[|base|] == '/')
  {
  }

  /** `Path::extension`: a name has one exactly when it is not `..` and has a
      dot after its first character; the extension is then the text after the
      last dot, which holds no dot. */
  lemma ExtensionAfterLastDot(name: string)
    ensures Extension(name).Some? <==>
      name != ".." && exists i :: 0 < i < |name| && name[i] == '.'
    ensures Extension(name).Some? ==>
      var e := Extension(name).value;
      |e| + 1 < |name| && name[|name| - |e| - 1] == '.' && name[|name| - |e|..] == e && '.' !in e
  {
    if name != ".." && exists i :: 0 < i < |name| && name[i] == '.' {
      var i :| 0 < i < |name| && name[i] == '.';
      assert LastIndexOf(name, '.').value >= i;
    }
  }

  predicate IsPng(name: string) {
    Extension(name) == Some("png")
  }

  /** A name has extension exactly `png` when it ends in `.png` after at least
      one other character. */
  lemma PngSuffix(name: string)
    ensures IsPng(name) <==> |name| >= 5 && name[|name| - 4..] == ".png"
  {
    var n := |name|;
    if n >= 5 && name[n - 4..] == ".png" {
      assert name[n - 4] == '.' && name[n - 3..] == "png";
      assert name[n - 3..] == name[n - 4 + 1..];
      LastIndexOfAt(name, '.', n - 4);
      assert name != "..";
    }
    if IsPng(name) {
      var i := LastIndexOf(name, '.').value;
      assert name[i + 1..] == "png";
      assert n == i + 4;
      assert name[n - 4..] == [name[i]] + name[i + 1..];
    }
  }

  // ----- Listing a class directory -----

  /** A directory entry as the listing yields it: a name, or an entry that
      could not be read. */
  datatype DirEntry = Entry(name: string) | EntryError

  predicate IsPngEntry(e: DirEntry) {
    e.Entry? && IsPng(e.name)
  }

  /** The full paths of the readable `.png` entries, in listing order. */
  function PngPaths(dir: string, entries: seq<DirEntry>): seq<string>
    decreases |entries|
  {
    if entries == [] then []
    else
      (if IsPngEntry(entries[0]) then [PathJoin(dir, entries[0].name)] else [])
      + PngPaths(dir, entries[1..])
  }

  lemma {:induction false} PngPathsAppend(dir: string, a: seq<DirEntry>, b: seq<DirEntry>)
    ensures PngPaths(dir, a + b) == PngPaths(dir, a) + PngPaths(dir, b)
    decreases |a|
  {
    if a == [] {
      assert a + b == b;
    } else {
      var ab := a + b;
      assert ab[0] == a[0];
      assert ab[1..] == a[1..] + b;
      assert PngPaths(dir, ab) == (if IsPngEntry(a[0]) then [PathJoin(dir, a[0].name)] else []) + PngPaths(dir, ab[1..]);
      PngPathsAppend(dir, a[1..], b);
    }
  }

  /** A path is listed exactly when some readable entry with extension `png`
      joins the directory to give it. */
  lemma {:induction false} PngPathsMember(dir: string, entries: seq<DirEntry>, p: string)
    ensures p in PngPaths(dir, entries) <==>
      exists k :: 0 <= k < |entries| && IsPngEntry(entries[k]) && p == PathJoin(dir, entries[k].name)
    decreases |entries|
  {
    if entries != [] {
      var rest := entries[1..];
      PngPathsMember(dir, rest, p);
      if p in PngPaths(dir, rest) {
        var k :| 0 <= k < |rest| && IsPngEntry(rest[k]) && p == PathJoin(dir, rest[k].name);
        assert entries[k + 1] == rest[k];
      }
      if exists k :: 0 <= k < |entries| && IsPngEntry(entries[k]) && p == PathJoin(dir, entries[k].name) {
        var k :| 0 <= k < |entries| && IsPngEntry(entries[k]) && p == PathJoin(dir, entries[k].name);
        if k > 0 {
          assert rest[k - 1] == entries[k];
        }
      }
    }
  }

  /** Taking one entry out of the middle of a listing takes its path (if any)
      out of the paths. */
  lemma PngPathsSplit(dir: string, p: seq<DirEntry>, e: DirEntry, q: seq<DirEntry>)
    ensures multiset(PngPaths(dir, p + [e] + q))
      == multiset(PngPaths(dir, [e])) + multiset(PngPaths(dir, p + q))
  {
    PngPathsAppend(dir, p + [e], q);
    PngPathsAppend(dir, p, [e]);
    PngPathsAppend(dir, p, q);
  }

  /** Removing the element at `k` removes one copy of it from the multiset. */
  lemma RemoveAt<T>(b: seq<T>, k: nat)
    requires k < |b|
    ensures b == b[..k] + [b[k]] + b[k + 1..]
    ensures multiset(b[..k] + b[k + 1..]) == multiset(b) - multiset{b[k]}
  {
    assert b == b[..k] + [b[k]] + b[k + 1..];
  }

  /** Reordering the listing reorders the paths and nothing more. */
  lemma {:induction false} PngPathsPermutation(dir: string, a: seq<DirEntry>, b: seq<DirEntry>)
    requires multiset(a) == multiset(b)
    ensures multiset(PngPaths(dir, a)) == multiset(PngPaths(dir, b))
    decreases |a|
  {
    if a != [] {
      var e := a[0];
      assert e in multiset(b);
      var k :| 0 <= k < |b| && b[k] == e;
      var rest, others := a[1..], b[..k] + b[k + 1..];
      RemoveAt(b, k);
      assert a == [e] + rest;
      assert multiset(rest) == multiset(a) - multiset{e};
      PngPathsPermutation(dir, rest, others);
      PngPathsAppend(dir, [e], rest);
      PngPathsSplit(dir, b[..k], e, b[k + 1..]);
    } else {
      assert |b| == |multiset(b)| == 0;
    }
  }


  /** The sorted `.png` paths of a directory; fails when the directory cannot
      be listed. */
  function ListPngsSorted(dir: string, listing: Option<seq<DirEntry>>): (r: Result<seq<string>>)
    ensures r.Ok? <==> listing.Some?
    ensures r.Ok? ==> Sorted(r.value) && multiset(r.value) == multiset(PngPaths(dir, listing.value))
  {
    match listing
    case None => Fail
    case Some(entries) => Ok(SortStrings(PngPaths(dir, entries)))
  }

  /** The sorted list holds exactly the paths of the readable `.png` entries. */
  lemma ListPngsSortedMember(dir: string, entries: seq<DirEntry>, p: string)
    ensures p in ListPngsSorted(dir, Some(entries)).value <==>
      exists k :: 0 <= k < |entries| && IsPngEntry(entries[k]) && p == PathJoin(dir, entries[k].name)
  {
    var r := ListPngsSorted(dir, Some(entries)).value;
    assert p in r <==> p in multiset(r);
    PngPathsMember(dir, entries, p);
  }

  /** The result does not depend on the order in which the directory is listed. */
  lemma ListPngsSortedOrder(dir: string, a: seq<DirEntry>, b: seq<DirEntry>)
    requires multiset(a) == multiset(b)
    ensures ListPngsSorted(dir, Some(a)) == ListPngsSorted(dir, Some(b))
  {
    PngPathsPermutation(dir, a, b);
    SortIgnoresInputOrder(PngPaths(dir, a), PngPaths(dir, b));
  }

  // ----- Building the index -----

  /** The entries each class directory lists, or None when it cannot be read. */
  type Listing = ObjectClass -> Option<seq<DirEntry>>

  /** What each class contributes: its sorted paths, or a failure. */
  type PerClass = ObjectClass -> Result<seq<string>>

  /** The directory of one class inside the split's directory. */
  function ClassDir(dsPath: string, c: ObjectClass): string {
    PathJoin(dsPath, ClassName(c))
  }

  function ClassFiles(dsPath: string, listing: Listing): PerClass {
    c => ListPngsSorted(ClassDir(dsPath, c), listing(c))
  }

  /** Pair every path with its class. */
  function Tag(c: ObjectClass, files: seq<string>): (r: seq<(ObjectClass, string)>)
    ensures |r| == |files| && forall k :: 0 <= k < |r| ==> r[k] == (c, files[k])
  {
    seq(|files|, k requires 0 <= k < |files| => (c, files[k]))
  }

  /** The items of the first `n` classes, in declaration order, each class
      contributing its paths in order; fails as soon as one class fails. */
  function Catalogue(files: PerClass, n: nat): Result<seq<(ObjectClass, string)>>
    requires n <= |AllClasses|
  {
    if n == 0 then Ok([])
    else
      match Catalogue(files, n - 1)
      case Fail => Fail
      case Ok(items) =>
        match files(AllClasses[n - 1])
        case Fail => Fail
        case Ok(fs) => Ok(items + Tag(AllClasses[n - 1], fs))
  }

  /** The index of one split: its directory and, for every item, its class and
      the path the listing gave for it. */
  datatype DatasetIndex = DatasetIndex(dsPath: string, items: seq<(ObjectClass, string)>)
  {
    function Len(): nat {
      |items|
    }

    function IsEmpty(): (r: bool)
      ensures r <==> Len() == 0
    {
      items == []
    }

    function IndexToClass(i: nat): ObjectClass
      requires i < Len()
    {
      items[i].0
    }

    /** The classes of the given items, in the given order, repeats kept. */
    function IndicesToClasses(indices: seq<nat>): (r: seq<ObjectClass>)
      requires forall k :: 0 <= k < |indices| ==> indices[k] < Len()
      ensures |r| == |indices|
      ensures forall k :: 0 <= k < |indices| ==> r[k] == IndexToClass(indices[k])
    {
      seq(|indices|, k requires 0 <= k < |indices| => IndexToClass(indices[k]))
    }

    /** The path of an item: the class directory joined with the stored path. */
    function IndexToPath(i: nat): string
      requires i < Len()
    {
      PathJoin(ClassDir(dsPath, items[i].0), items[i].1)
    }

    /** The paths of the given items, in the given order, repeats kept. */
    function IndicesToPaths(indices: seq<nat>): (r: seq<string>)
      requires forall k :: 0 <= k < |indices| ==> indices[k] < Len()
      ensures |r| == |indices|
      ensures forall k :: 0 <= k < |indices| ==> r[k] == IndexToPath(indices[k])
    {
      seq(|indices|, k requires 0 <= k < |indices| => IndexToPath(indices[k]))
    }

    /** Where the file of an item is: the path the listing gave for it. */
    function ImagePath(i: nat): string
      requires i < Len()
    {
      items[i].1
    }
  }

  /** What loading a split gives: the catalogue of all ten classes, which must
      hold exactly `SamplesPerDataset` items. */
  function LoadIndexSpec(dsPath: string, listing: Listing): Result<DatasetIndex> {
    match Catalogue(ClassFiles(dsPath, listing), |AllClasses|)
    case Fail => Fail
    case Ok(items) => if |items| == SamplesPerDataset then Ok(DatasetIndex(dsPath, items)) else Fail
  }

  lemma {:induction false} CatalogueFailSticks(files: PerClass, n: nat, m: nat)
    requires n <= m <= |AllClasses| && Catalogue(files, n).Fail?
    ensures Catalogue(files, m).Fail?
    decreases m - n
  {
    if n < m {
      CatalogueFailSticks(files, n, m - 1);
    }
  }

  /** Load the index of one split: for each class in declaration order, its
      sorted `.png` paths, each paired with the class. */
  method LoadIndexFromDir(dsPath: string, listing: Listing) returns (r: Result<DatasetIndex>)
    ensures r == LoadIndexSpec(dsPath, listing)
  {
    var items: seq<(ObjectClass, string)> := [];
    for k := 0 to |AllClasses|
      invariant Catalogue(ClassFiles(dsPath, listing), k) == Ok(items)
    {
      var oc := AllClasses[k];
      var files := ListPngsSorted(ClassDir(dsPath, oc), listing(oc));
      if files.Fail? {
        assert LoadIndexSpec(dsPath, listing).Fail? by {
          assert ClassFiles(dsPath, listing)(oc) == files;
          CatalogueFailSticks(ClassFiles(dsPath, listing), k + 1, |AllClasses|);
        }
        return Fail;
      }
      assert ClassFiles(dsPath, listing)(oc) == files;
      CatalogueNext(ClassFiles(dsPath, listing), k, items, files.value);
      items := items + Tag(oc, files.value);
    }
    if |items| != SamplesPerDataset {
      return Fail;
    }
    return Ok(DatasetIndex(dsPath, items));
  }

  // ----- What the index holds -----

  /** The catalogue exists exactly when every one of its classes succeeds. */
  lemma {:induction false} CatalogueOk(files: PerClass, n: nat)
    requires n <= |AllClasses|
    ensures Catalogue(files, n).Ok? <==> forall k :: 0 <= k < n ==> files(AllClasses[k]).Ok?
  {
    if n > 0 {
      CatalogueOk(files, n - 1);
    }
  }

  /** The number of paths the first `n` classes contribute (a failing class
      counts as none). */
  function FileCount(files: PerClass, n: nat): nat
    requires n <= |AllClasses|
  {
    if n == 0 then 0
    else
      FileCount(files, n - 1)
      + match files(AllClasses[n - 1]) case Fail => 0 case Ok(fs) => |fs|
  }

  lemma {:induction false} CatalogueLength(files: PerClass, n: nat)
    requires n <= |AllClasses| && Catalogue(files, n).Ok?
    ensures |Catalogue(files, n).value| == FileCount(files, n)
  {
    if n > 0 {
      CatalogueLength(files, n - 1);
    }
  }

  /** The number of `.png` entries in all class directories that can be read. */
  function PngCount(dsPath: string, listing: Listing, n: nat): nat
    requires n <= |AllClasses|
  {
    if n == 0 then 0
    else
      var c := AllClasses[n - 1];
      PngCount(dsPath, listing, n - 1)
      + match listing(c) case None => 0 case Some(es) => |PngPaths(ClassDir(dsPath, c), es)|
  }

  lemma {:induction false} PngCountFiles(dsPath: string, listing: Listing, n: nat)
    requires n <= |AllClasses|
    ensures FileCount(ClassFiles(dsPath, listing), n) == PngCount(dsPath, listing, n)
  {
    if n > 0 {
      PngCountFiles(dsPath, listing, n - 1);
      var c := AllClasses[n - 1];
      var r := ClassFiles(dsPath, listing)(c);
      if r.Ok? {
        assert |r.value| == |multiset(r.value)|;
      }
    }
  }

  /** Loading succeeds exactly when every class directory can be listed and
      together they hold `SamplesPerDataset` (90000) `.png` entries. */
  lemma LoadIndexOk(dsPath: string, listing: Listing)
    ensures LoadIndexSpec(dsPath, listing).Ok? <==>
      (forall k :: 0 <= k < |AllClasses| ==> listing(AllClasses[k]).Some?)
      && PngCount(dsPath, listing, |AllClasses|) == SamplesPerDataset
  {
    var files := ClassFiles(dsPath, listing);
    CatalogueOk(files, |AllClasses|);
    PngCountFiles(dsPath, listing, |AllClasses|);
    if Catalogue(files, |AllClasses|).Ok? {
      CatalogueLength(files, |AllClasses|);
    }
  }

  /** A loaded index holds `SamplesPerDataset` (90000) items, so it is never
      empty. */
  lemma LoadedSize(dsPath: string, listing: Listing)
    requires LoadIndexSpec(dsPath, listing).Ok?
    ensures LoadIndexSpec(dsPath, listing).value.Len() == SamplesPerDataset
    ensures !LoadIndexSpec(dsPath, listing).value.IsEmpty()
  {
    ClassCount();
  }

  /** Item `x` comes no later than item `y`: an earlier class, or the same class
      and a path no greater. */
  predicate InOrder(x: (ObjectClass, string), y: (ObjectClass, string)) {
    ClassIndex(x.0) < ClassIndex(y.0) || (x.0 == y.0 && StrLe(x.1, y.1))
  }

  lemma ClassAt(k: nat)
    requires k < |AllClasses|
    ensures ClassIndex(AllClasses[k]) == k
  {
    AllClassesDistinct();
  }

  /** With each class's paths sorted, all items of a class come before those of
      any later class, and within a class the paths are in order. */
  lemma {:induction false} CatalogueOrder(files: PerClass, n: nat)
    requires n <= |AllClasses| && Catalogue(files, n).Ok?
    requires forall c: ObjectClass :: files(c).Ok? ==> Sorted(files(c).value)
    ensures var items := Catalogue(files, n).value;
      (forall i :: 0 <= i < |items| ==> ClassIndex(items[i].0) < n)
      && forall i, j :: 0 <= i < j < |items| ==> InOrder(items[i], items[j])
  {
    if n > 0 {
      CatalogueOrder(files, n - 1);
      var prev := Catalogue(files, n - 1).value;
      var c := AllClasses[n - 1];
      var fs := files(c).value;
      var items := prev + Tag(c, fs);
      ClassAt(n - 1);
      forall i, j | 0 <= i < j < |items| ensures InOrder(items[i], items[j]) {
        if j < |prev| {
          assert items[i] == prev[i] && items[j] == prev[j];
        } else if i < |prev| {
          assert items[i] == prev[i];
        } else {
          assert items[i] == (c, fs[i - |prev|]) && items[j] == (c, fs[j - |prev|]);
        }
      }
      forall i | 0 <= i < |items| ensures ClassIndex(items[i].0) < n {
        if i < |prev| {
          assert items[i] == prev[i];
        }
      }
    }
  }

  /** The paths of the items of class `c`, in item order. */
  function ItemsOf(items: seq<(ObjectClass, string)>, c: ObjectClass): seq<string>
    decreases |items|
  {
    if items == [] then []
    else
      var last := items[|items| - 1];
      ItemsOf(items[..|items| - 1], c) + (if last.0 == c then [last.1] else [])
  }

  lemma {:induction false} ItemsOfAppend(a: seq<(ObjectClass, string)>, b: seq<(ObjectClass, string)>, c: ObjectClass)
    ensures ItemsOf(a + b, c) == ItemsOf(a, c) + ItemsOf(b, c)
    decreases |b|
  {
    if b == [] {
      assert a + b == a;
    } else {
      var b' := b[..|b| - 1];
      assert (a + b)[..|a + b| - 1] == a + b';
      ItemsOfAppend(a, b', c);
    }
  }

  lemma {:induction false} ItemsOfTag(d: ObjectClass, fs: seq<string>, c: ObjectClass)
    ensures ItemsOf(Tag(d, fs), c) == if d == c then fs else []
    decreases |fs|
  {
    if fs != [] {
      var init := fs[..|fs| - 1];
      assert Tag(d, fs)[..|fs| - 1] == Tag(d, init);
      ItemsOfTag(d, init, c);
    }
  }

  /** The items of each class are exactly that class's paths, in the same
      order; a class not yet reached has none. */
  lemma {:induction false} CatalogueClass(files: PerClass, n: nat, c: ObjectClass)
    requires n <= |AllClasses| && Catalogue(files, n).Ok?
    ensures ClassIndex(c) < n ==> files(c).Ok? && ItemsOf(Catalogue(files, n).value, c) == files(c).value
    ensures ClassIndex(c) >= n ==> ItemsOf(Catalogue(files, n).value, c) == []
  {
    if n > 0 {
      CatalogueStep(files, n);
      var prev := Catalogue(files, n - 1).value;
      var d := AllClasses[n - 1];
      var fs := files(d).value;
      CatalogueClass(files, n - 1, c);
      assert ItemsOf(Catalogue(files, n).value, c) == ItemsOf(prev, c) + (if d == c then fs else []) by {
        ItemsOfAppend(prev, Tag(d, fs), c);
        ItemsOfTag(d, fs, c);
      }
      ClassAt(n - 1);
      if ClassIndex(c) == n - 1 {
        assert c == d;
      } else {
        assert c != d;
      }
    }
  }

  /** One more successful class appends its tagged paths. */
  lemma CatalogueNext(files: PerClass, n: nat, items: seq<(ObjectClass, string)>, fs: seq<string>)
    requires n < |AllClasses| && Catalogue(files, n) == Ok(items) && files(AllClasses[n]) == Ok(fs)
    ensures Catalogue(files, n + 1) == Ok(items + Tag(AllClasses[n], fs))
  {
  }

  lemma CatalogueStep(files: PerClass, n: nat)
    requires 0 < n <= |AllClasses| && Catalogue(files, n).Ok?
    ensures Catalogue(files, n - 1).Ok? && files(AllClasses[n - 1]).Ok?
    ensures Catalogue(files, n).value
      == Catalogue(files, n - 1).value + Tag(AllClasses[n - 1], files(AllClasses[n - 1]).value)
  {
  }

  lemma MulMono(a: nat, b: nat, m: nat)
    requires a <= b
    ensures a * m <= b * m
  {
  }

  /** `n` classes of `m` paths each make `n*m` items. */
  lemma {:induction false} BlocksLength(files: PerClass, n: nat, m: nat)
    requires n <= |AllClasses|
    requires forall k :: 0 <= k < n ==> files(AllClasses[k]).Ok? && |files(AllClasses[k]).value| == m
    ensures Catalogue(files, n).Ok? && |Catalogue(files, n).value| == n * m
  {
    if n > 0 {
      BlocksLength(files, n - 1, m);
      CatalogueNext(files, n - 1, Catalogue(files, n - 1).value, files(AllClasses[n - 1]).value);
      MulSucc(n - 1, m);
    }
  }

  /** When every class has `m` paths, the catalogue is `n` blocks of `m`: item
      `k*m + j` is path `j` of class `k`. */
  lemma {:induction false} BlockItem(files: PerClass, n: nat, m: nat, k: nat, j: nat)
    requires n <= |AllClasses|
    requires forall k :: 0 <= k < n ==> files(AllClasses[k]).Ok? && |files(AllClasses[k]).value| == m
    requires k < n && j < m
    ensures Catalogue(files, n).Ok? && k * m + j < |Catalogue(files, n).value|
    ensures Catalogue(files, n).value[k * m + j] == (AllClasses[k], files(AllClasses[k]).value[j])
  {
    BlocksLength(files, n - 1, m);
    var prev := Catalogue(files, n - 1).value;
    var fs := files(AllClasses[n - 1]).value;
    CatalogueNext(files, n - 1, prev, fs);
    BlockBound(k, j, n, m);
    MulSucc(n - 1, m);
    if k < n - 1 {
      BlockItem(files, n - 1, m, k, j);
      BlockBound(k, j, n - 1, m);
      assert (prev + Tag(AllClasses[n - 1], fs))[k * m + j] == prev[k * m + j];
    } else {
      assert k * m + j == |prev| + j;
    }
  }

  lemma MulSucc(a: nat, m: nat)
    ensures (a + 1) * m == a * m + m
  {
  }

  /** Item `j` of block `k` lies inside `n` blocks of `m` when `k < n`. */
  lemma BlockBound(k: nat, j: nat, n: nat, m: nat)
    requires k < n && j < m
    ensures k * m + j < n * m
  {
    MulMono(k + 1, n, m);
    MulSucc(k, m);
  }

  /** A class directory that can be listed contributes one path per `.png` entry. */
  lemma ClassFilesCount(dsPath: string, listing: Listing, c: ObjectClass)
    requires listing(c).Some?
    ensures ClassFiles(dsPath, listing)(c).Ok?
    ensures |ClassFiles(dsPath, listing)(c).value| == |PngPaths(ClassDir(dsPath, c), listing(c).value)|
  {
    var fs := ClassFiles(dsPath, listing)(c).value;
    assert |fs| == |multiset(fs)|;
  }

  lemma MulLess(q: nat, n: nat, m: nat)
    requires q * m < n * m
    ensures q < n
  {
  }

  /** A position below `n*m` lies in one of the first `n` blocks of `m`. */
  lemma DivBound(i: nat, n: nat, m: nat)
    requires m > 0 && i < n * m
    ensures i / m < n && i == (i / m) * m + i % m && i % m < m
  {
    var q := i / m;
    assert i == q * m + i % m;
    MulLess(q, n, m);
  }

  /** The block of item `i` is `i / m`, its place in the block `i % m`. */
  lemma {:induction false} CatalogueBlocksDiv(files: PerClass, m: nat)
    requires m > 0
    requires forall k :: 0 <= k < |AllClasses| ==> files(AllClasses[k]).Ok? && |files(AllClasses[k]).value| == m
    ensures Catalogue(files, |AllClasses|).Ok?
    ensures var items := Catalogue(files, |AllClasses|).value;
      |items| == |AllClasses| * m &&
      forall i :: 0 <= i < |items| ==>
        i / m < |AllClasses| && items[i] == (AllClasses[i / m], files(AllClasses[i / m]).value[i % m])
  {
    BlocksLength(files, |AllClasses|, m);
    var items := Catalogue(files, |AllClasses|).value;
    forall i | 0 <= i < |items|
      ensures i / m < |AllClasses| && items[i] == (AllClasses[i / m], files(AllClasses[i / m]).value[i % m])
    {
      DivBound(i, |AllClasses|, m);
      BlockItem(files, |AllClasses|, m, i / m, i % m);
    }
  }

  /** With every class directory holding exactly `SamplesPerClass` (9000)
      `.png` entries, loading succeeds and item `i` is path `i % 9000` of class
      `i / 9000`. */
  lemma FullSplit(dsPath: string, listing: Listing)
    requires forall c: ObjectClass ::
      listing(c).Some? && |PngPaths(ClassDir(dsPath, c), listing(c).value)| == SamplesPerClass
    ensures forall c: ObjectClass ::
      ClassFiles(dsPath, listing)(c).Ok? && |ClassFiles(dsPath, listing)(c).value| == SamplesPerClass
    ensures LoadIndexSpec(dsPath, listing).Ok?
    ensures var index := LoadIndexSpec(dsPath, listing).value;
      index.Len() == SamplesPerDataset &&
      forall i :: 0 <= i < index.Len() ==>
        index.IndexToClass(i) == AllClasses[i / SamplesPerClass] &&
        index.items[i].1 == ClassFiles(dsPath, listing)(AllClasses[i / SamplesPerClass]).value[i % SamplesPerClass]
  {
    var files := ClassFiles(dsPath, listing);
    forall c: ObjectClass ensures files(c).Ok? && |files(c).value| == SamplesPerClass {
      ClassFilesCount(dsPath, listing, c);
    }
    CatalogueBlocksDiv(files, SamplesPerClass);
    ClassCount();
    var items := Catalogue(files, |AllClasses|).value;
    assert |items| == SamplesPerDataset;
    assert LoadIndexSpec(dsPath, listing) == Ok(DatasetIndex(dsPath, items));
  }

  /** When item `i` has class number `i / 9000`, items 0, 9000 and 18000
      are an airplane, an automobile and a bird. */
  lemma ThreeClasses(index: DatasetIndex)
    requires index.Len() == SamplesPerDataset
    requires forall i :: 0 <= i < index.Len() ==> index.IndexToClass(i) == AllClasses[i / SamplesPerClass]
    ensures index.IndicesToClasses([0, SamplesPerClass, 2 * SamplesPerClass]) == [Airplane, Automobile, Bird]
  {
    var m := SamplesPerClass;
    assert 0 / m == 0 && m / m == 1 && (2 * m) / m == 2;
    var r := index.IndicesToClasses([0, m, 2 * m]);
    assert r[0] == AllClasses[0] && r[1] == AllClasses[1] && r[2] == AllClasses[2];
  }

  /** In a full split, items 0, 9000 and 18000 are the first airplane, the
      first automobile and the first bird. */
  lemma FirstOfEachClass(dsPath: string, listing: Listing)
    requires forall c: ObjectClass ::
      listing(c).Some? && |PngPaths(ClassDir(dsPath, c), listing(c).value)| == SamplesPerClass
    ensures LoadIndexSpec(dsPath, listing).Ok?
    ensures LoadIndexSpec(dsPath, listing).value.Len() == SamplesPerDataset
    ensures LoadIndexSpec(dsPath, listing).value.IndicesToClasses([0, SamplesPerClass, 2 * SamplesPerClass])
      == [Airplane, Automobile, Bird]
  {
    FullSplit(dsPath, listing);
    ThreeClasses(LoadIndexSpec(dsPath, listing).value);
  }

  /** Classes that contribute the same thing give the same catalogue. */
  lemma {:induction false} CatalogueSame(a: PerClass, b: PerClass, n: nat)
    requires n <= |AllClasses|
    requires forall c: ObjectClass :: a(c) == b(c)
    ensures Catalogue(a, n) == Catalogue(b, n)
  {
    if n > 0 {
      CatalogueSame(a, b, n - 1);
    }
  }

  /** The index does not depend on the order in which the directories list
      their entries. */
  lemma LoadIndexListingOrder(dsPath: string, a: Listing, b: Listing)
    requires forall c: ObjectClass :: a(c).Some? <==> b(c).Some?
    requires forall c: ObjectClass :: a(c).Some? ==> multiset(a(c).value) == multiset(b(c).value)
    ensures LoadIndexSpec(dsPath, a) == LoadIndexSpec(dsPath, b)
  {
    forall c: ObjectClass ensures ClassFiles(dsPath, a)(c) == ClassFiles(dsPath, b)(c) {
      if a(c).Some? {
        ListPngsSortedOrder(ClassDir(dsPath, c), a(c).value, b(c).value);
      }
    }
    CatalogueSame(ClassFiles(dsPath, a), ClassFiles(dsPath, b), |AllClasses|);
  }

  // ----- Where the images are -----

  /** Every item's path occurs among its class's items. */
  lemma {:induction false} ItemsOfMember(items: seq<(ObjectClass, string)>, i: nat)
    requires i < |items|
    ensures items[i].1 in ItemsOf(items, items[i].0)
    decreases |items|
  {
    var init := items[..|items| - 1];
    if i < |init| {
      assert init[i] == items[i];
      ItemsOfMember(init, i);
    }
  }

  /** The path stored for an item is a `.png` entry of its class's directory,
      joined to that directory. */
  lemma IndexPathListed(dsPath: string, listing: Listing, i: nat)
    requires LoadIndexSpec(dsPath, listing).Ok? && i < LoadIndexSpec(dsPath, listing).value.Len()
    ensures var index := LoadIndexSpec(dsPath, listing).value;
      var c := index.IndexToClass(i);
      listing(c).Some? &&
      exists k :: 0 <= k < |listing(c).value| && IsPngEntry(listing(c).value[k]) &&
        index.ImagePath(i) == PathJoin(ClassDir(dsPath, c), listing(c).value[k].name)
  {
    var files := ClassFiles(dsPath, listing);
    var items := Catalogue(files, |AllClasses|).value;
    var c := items[i].0;
    ItemsOfMember(items, i);
    CatalogueClass(files, |AllClasses|, c);
    ListPngsSortedMember(ClassDir(dsPath, c), listing(c).value, items[i].1);
  }

  /** Every class directory that can be read contributes its paths sorted. */
  lemma ClassFilesSorted(dsPath: string, listing: Listing)
    ensures forall c: ObjectClass :: ClassFiles(dsPath, listing)(c).Ok? ==> Sorted(ClassFiles(dsPath, listing)(c).value)
  {
    forall c: ObjectClass | ClassFiles(dsPath, listing)(c).Ok?
      ensures Sorted(ClassFiles(dsPath, listing)(c).value)
    {
      var r := ListPngsSorted(ClassDir(dsPath, c), listing(c));
      assert ClassFiles(dsPath, listing)(c) == r;
    }
  }

  /** The class of an item is the class whose sorted listing holds its path,
      and no earlier item belongs to a later class. */
  lemma ClassOfItem(dsPath: string, listing: Listing, i: nat)
    requires LoadIndexSpec(dsPath, listing).Ok? && i < LoadIndexSpec(dsPath, listing).value.Len()
    ensures var index := LoadIndexSpec(dsPath, listing).value;
      var c := index.IndexToClass(i);
      ClassFiles(dsPath, listing)(c).Ok? && index.ImagePath(i) in ClassFiles(dsPath, listing)(c).value
      && forall j :: 0 <= j < i ==> ClassIndex(index.IndexToClass(j)) <= ClassIndex(c)
  {
    var files := ClassFiles(dsPath, listing);
    var items := Catalogue(files, |AllClasses|).value;
    assert LoadIndexSpec(dsPath, listing).value.items == items;
    var c := items[i].0;
    assert files(c).Ok? && items[i].1 in files(c).value by {
      ItemsOfMember(items, i);
      CatalogueClass(files, |AllClasses|, c);
    }
    assert forall j :: 0 <= j < i ==> ClassIndex(items[j].0) <= ClassIndex(c) by {
      ClassFilesSorted(dsPath, listing);
      CatalogueOrder(files, |AllClasses|);
    }
  }

  /** Directory entries are names inside the directory, never absolute paths. */
  predicate RelativeNames(listing: Listing) {
    forall c: ObjectClass, k ::
      listing(c).Some? && 0 <= k < |listing(c).value| && listing(c).value[k].Entry? ==>
        listing(c).value[k].name == [] || listing(c).value[k].name[0] != '/'
  }

  lemma ClassDirShape(dsPath: string, c: ObjectClass)
    ensures ClassDir(dsPath, c) != []
    ensures ClassDir(dsPath, c)[|ClassDir(dsPath, c)| - 1] != '/'
    ensures ClassDir(dsPath, c)[0] == '/' <==> dsPath != [] && dsPath[0] == '/'
  {
  }

  /** `index_to_path` uses an absolute stored path as it is, and puts the class
      directory and one `/` in front of a relative one. */
  lemma IndexToPathParts(index: DatasetIndex, i: nat)
    requires i < index.Len()
    ensures var p := index.ImagePath(i);
      (p != [] && p[0] == '/' ==> index.IndexToPath(i) == p)
      && (!(p != [] && p[0] == '/') ==>
        index.IndexToPath(i) == ClassDir(index.dsPath, index.IndexToClass(i)) + "/" + p)
  {
    ClassDirShape(index.dsPath, index.IndexToClass(i));
  }

  /** Joining an absolute directory to a path already joined to it changes
      nothing. */
  lemma JoinAgainAbsolute(dir: string, name: string)
    requires dir != [] && dir[0] == '/'
    ensures PathJoin(dir, PathJoin(dir, name)) == PathJoin(dir, name)
  {
    var p := PathJoin(dir, name);
    assert p != [] && p[0] == '/';
  }

  /** Joining a relative directory to a relative path already joined to it puts
      the directory in front a second time. */
  lemma JoinAgainRelative(dir: string, name: string)
    requires dir != [] && dir[0] != '/' && dir[|dir| - 1] != '/'
    requires name != [] && name[0] != '/'
    ensures PathJoin(dir, name) == dir + "/" + name
    ensures PathJoin(dir, PathJoin(dir, name)) == dir + "/" + PathJoin(dir, name)
    ensures PathJoin(dir, PathJoin(dir, name)) != PathJoin(dir, name)
  {
    var p := dir + "/" + name;
    assert p[0] == dir[0];
    assert |dir + "/" + p| > |p|;
  }

  /** When the split's directory is absolute, the stored paths are absolute, so
      joining them to the class directory again leaves them as they are: the
      path of an item is the file the listing gave. */
  lemma AbsoluteRootPath(dsPath: string, listing: Listing, i: nat)
    requires dsPath != [] && dsPath[0] == '/'
    requires LoadIndexSpec(dsPath, listing).Ok? && i < LoadIndexSpec(dsPath, listing).value.Len()
    ensures var index := LoadIndexSpec(dsPath, listing).value;
      index.IndexToPath(i) == index.ImagePath(i)
  {
    var index := LoadIndexSpec(dsPath, listing).value;
    var c := index.IndexToClass(i);
    var dir := ClassDir(dsPath, c);
    IndexPathListed(dsPath, listing, i);
    ClassDirShape(dsPath, c);
    var k :| 0 <= k < |listing(c).value| && IsPngEntry(listing(c).value[k]) &&
      index.ImagePath(i) == PathJoin(dir, listing(c).value[k].name);
    JoinAgainAbsolute(dir, listing(c).value[k].name);
  }

  /** A name with an extension is not empty. */
  lemma PngNonEmpty(name: string)
    requires IsPng(name)
    ensures name != []
  {
  }

  /** An item stored as a relative name joined to its relative class directory
      gets that directory in front a second time from `index_to_path`. */
  lemma DoubledItem(index: DatasetIndex, i: nat, name: string)
    requires i < index.Len()
    requires var dir := ClassDir(index.dsPath, index.IndexToClass(i));
      dir != [] && dir[0] != '/' && dir[|dir| - 1] != '/'
    requires name != [] && name[0] != '/'
    requires index.ImagePath(i) == PathJoin(ClassDir(index.dsPath, index.IndexToClass(i)), name)
    ensures var dir := ClassDir(index.dsPath, index.IndexToClass(i));
      index.IndexToPath(i) == dir + "/" + index.ImagePath(i) &&
      index.IndexToPath(i) != index.ImagePath(i)
  {
    JoinAgainRelative(ClassDir(index.dsPath, index.IndexToClass(i)), name);
  }

  /** When the split's directory is relative, the stored path already begins
      with the class directory, and `index_to_path` puts that directory in
      front of it a second time: the path it gives is not the listed file. */
  lemma RelativeRootDoubles(dsPath: string, listing: Listing, i: nat)
    requires dsPath == [] || dsPath[0] != '/'
    requires RelativeNames(listing)
    requires LoadIndexSpec(dsPath, listing).Ok? && i < LoadIndexSpec(dsPath, listing).value.Len()
    ensures var index := LoadIndexSpec(dsPath, listing).value;
      var dir := ClassDir(dsPath, index.IndexToClass(i));
      index.IndexToPath(i) == dir + "/" + index.ImagePath(i) &&
      index.IndexToPath(i) != index.ImagePath(i)
  {
    var index := LoadIndexSpec(dsPath, listing).value;
    var c := index.IndexToClass(i);
    IndexPathListed(dsPath, listing, i);
    ClassDirShape(dsPath, c);
    var k :| 0 <= k < |listing(c).value| && IsPngEntry(listing(c).value[k]) &&
      index.ImagePath(i) == PathJoin(ClassDir(dsPath, c), listing(c).value[k].name);
    var name := listing(c).value[k].name;
    PngNonEmpty(name);
    DoubledItem(index, i, name);
  }


  /** The smallest case: split directory `data`, one file `x.png` of class
      airplane, stored as `data/airplane/x.png`. */
  lemma RelativeRootExample()
    ensures DatasetIndex("data", [(Airplane, "data/airplane/x.png")]).IndexToPath(0)
      == "data/airplane/data/airplane/x.png"
  {
  }

  /** Load the images of the given items, in the given order, into one batch,
      reading each from the path `index_to_path` gives. */
  method LoadRgbImageBatch(index: DatasetIndex, indices: seq<nat>, decode: Images.Decoder)
    returns (r: Result<Images.RgbImageBatch>)
    requires forall k :: 0 <= k < |indices| ==> indices[k] < index.Len()
    ensures r.Ok? <==> Images.DecodeBatch(index.IndicesToPaths(indices), decode).Ok?
    ensures r.Ok? ==> fresh(r.value) && r.value.Valid() && r.value.BatchSize() == |indices|
    ensures r.Ok? ==> r.value.shape == Images.BatchShape(Images.DecodeBatch(index.IndicesToPaths(indices), decode).value)
    ensures r.Ok? ==> r.value.data == Images.Packed(Images.DecodeBatch(index.IndicesToPaths(indices), decode).value)
  {
    var paths := index.IndicesToPaths(indices);
    r := Images.LoadBhwcRgbImageBatch(paths, decode);
  }
}
