/** Merging the two tables of mappings a core file holds, the memory segments and the mapped files
    (parseCoreFileMaps in maps_parser.cpp). */
module CoreMaps {
  import opened Basics
  import opened Mappings

  /** The canonical form of a path in the file system at hand, if it can be resolved. */
  type Canonical = Text -> Option<Text>

  function Resolve(canonical: Canonical, path: Text): Text {
    match canonical(path)
    case Some(resolved) => resolved
    case None => path
  }

  // ----- What the merge means

  predicate HasRange(maps: seq<CoreVirtualMap>, start: word64, end: word64) {
    exists m | m in maps :: m.start == start && m.end == end
  }

  /** The mapped files whose address range is not that of a memory segment. */
  function Missing(files: seq<CoreVirtualMap>, segments: seq<CoreVirtualMap>): (r: seq<CoreVirtualMap>)
    ensures forall f :: f in r <==> f in files && !HasRange(segments, f.start, f.end)
  {
    if files == [] then []
    else
      var rest := Missing(files[..|files| - 1], segments);
      var last := files[|files| - 1];
      if HasRange(segments, last.start, last.end) then rest else rest + [last]
  }

  predicate IsMissingPath(canonical: Canonical, missing: seq<CoreVirtualMap>, resolved: Text) {
    exists f | f in missing :: f.path != [] && Resolve(canonical, f.path) == resolved
  }

  /** The segment gives its name to the missing files with this canonical path. */
  predicate Names(canonical: Canonical, missing: seq<CoreVirtualMap>, m: CoreVirtualMap, resolved: Text) {
    m.path != [] && canonical(m.path) == Some(resolved) && IsMissingPath(canonical, missing, resolved)
  }

  /** The path of the last segment that gives its name to a canonical path. */
  function NameFor(canonical: Canonical, missing: seq<CoreVirtualMap>, segments: seq<CoreVirtualMap>, resolved: Text)
    : (r: Option<Text>)
    ensures r.Some? ==> r.value != [] && canonical(r.value) == Some(resolved)
    ensures r.Some? <==> exists m :: m in segments && Names(canonical, missing, m, resolved)
  {
    if segments == [] then None
    else
      var last := segments[|segments| - 1];
      if Names(canonical, missing, last, resolved) then Some(last.path)
      else
        assert forall m :: m in segments <==> m == last || m in segments[..|segments| - 1];
        NameFor(canonical, missing, segments[..|segments| - 1], resolved)
  }

  function Renamed(canonical: Canonical, missing: seq<CoreVirtualMap>, segments: seq<CoreVirtualMap>,
                   path: Text): Text
  {
    if path == [] then path
    else match NameFor(canonical, missing, segments, Resolve(canonical, path))
      case Some(name) => name
      case None => path
  }

  function Placed(m: CoreVirtualMap, path: Text): VirtualMap {
    VirtualMap(m.start, m.end, m.filesize, m.flags, m.offset, m.device, m.inode, path)
  }

  /** The maps in a given order, as they are reported. */
  function Reported(canonical: Canonical, missing: seq<CoreVirtualMap>, segments: seq<CoreVirtualMap>,
                    maps: seq<CoreVirtualMap>)
    : (r: seq<VirtualMap>)
    ensures |r| == |maps|
    ensures forall i :: 0 <= i < |maps| ==> r[i] == Placed(maps[i], Renamed(canonical, missing, segments, maps[i].path))
  {
    if maps == [] then []
    else
      [Placed(maps[0], Renamed(canonical, missing, segments, maps[0].path))]
      + Reported(canonical, missing, segments, maps[1..])
  }

  /** Whatever becomes of its path, a mapping keeps its range, its place in the file and all else. */
  lemma {:induction false} OnlyThePathChanges(canonical: Canonical, missing: seq<CoreVirtualMap>,
                                              segments: seq<CoreVirtualMap>, maps: seq<CoreVirtualMap>, i: nat)
    requires i < |maps|
    ensures var m, r := maps[i], Reported(canonical, missing, segments, maps)[i];
      && r.start == m.start && r.end == m.end && r.filesize == m.filesize && r.flags == m.flags
      && r.offset == m.offset && r.device == m.device && r.inode == m.inode
  {
    hide Reported;
  }

  predicate SortedByStart(maps: seq<CoreVirtualMap>) {
    forall i, j :: 0 <= i < j < |maps| ==> maps[i].start <= maps[j].start
  }

  lemma {:induction false} NameIsLast(canonical: Canonical, missing: seq<CoreVirtualMap>,
                                      segments: seq<CoreVirtualMap>, resolved: Text)
    requires NameFor(canonical, missing, segments, resolved).Some?
    ensures exists k ::
      && 0 <= k < |segments| && Names(canonical, missing, segments[k], resolved)
      && NameFor(canonical, missing, segments, resolved) == Some(segments[k].path)
      && forall j :: k < j < |segments| ==> !Names(canonical, missing, segments[j], resolved)
  {
    hide Names;
    var n := |segments| - 1;
    if Names(canonical, missing, segments[n], resolved) {
    } else {
      NameIsLast(canonical, missing, segments[..n], resolved);
      var k :| 0 <= k < n && Names(canonical, missing, segments[..n][k], resolved)
        && NameFor(canonical, missing, segments[..n], resolved) == Some(segments[..n][k].path)
        && forall j :: k < j < n ==> !Names(canonical, missing, segments[..n][j], resolved);
      assert segments[..n][k] == segments[k];
      forall j | k < j < |segments|
        ensures !Names(canonical, missing, segments[j], resolved)
      {
        if j < n {
          assert segments[..n][j] == segments[j];
        }
      }
    }
  }

  // ----- The program

  lemma {:induction false} SortedCons(x: CoreVirtualMap, xs: seq<CoreVirtualMap>)
    requires SortedByStart(xs) && forall m :: m in multiset(xs) ==> x.start <= m.start
    ensures SortedByStart([x] + xs)
  {
    assert forall i :: 0 <= i < |xs| ==> xs[i] in multiset(xs);
  }

  lemma {:induction false} SortedUncons(xs: seq<CoreVirtualMap>)
    requires SortedByStart(xs) && xs != []
    ensures SortedByStart(xs[1..]) && forall m :: m in multiset(xs) ==> xs[0].start <= m.start
    ensures multiset(xs) == multiset(xs[1..]) + multiset{xs[0]}
  {
    assert xs == [xs[0]] + xs[1..];
  }

  function Inserted(xs: seq<CoreVirtualMap>, x: CoreVirtualMap): (r: seq<CoreVirtualMap>)
    requires SortedByStart(xs)
    ensures SortedByStart(r) && multiset(r) == multiset(xs) + multiset{x}
  {
    if xs == [] then [x]
    else
      SortedUncons(xs);
      if x.start < xs[0].start then
        SortedCons(x, xs);
        [x] + xs
      else
        var rest := Inserted(xs[1..], x);
        SortedCons(xs[0], rest);
        [xs[0]] + rest
  }

  /** Stands for the library sort: callers know no more than its contract. */
  method SortByStart(maps: seq<CoreVirtualMap>) returns (sorted: seq<CoreVirtualMap>)
    ensures SortedByStart(sorted) && multiset(sorted) == multiset(maps)
  {
    hide Inserted;
    sorted := [];
    for i := 0 to |maps|
      invariant SortedByStart(sorted) && multiset(sorted) == multiset(maps[..i])
    {
      assert maps[..i + 1] == maps[..i] + [maps[i]];
      sorted := Inserted(sorted, maps[i]);
    }
    assert maps[..|maps|] == maps;
  }

  method ParseCoreFileMaps(canonical: Canonical, files: seq<CoreVirtualMap>, segments: seq<CoreVirtualMap>)
    returns (result: seq<VirtualMap>)
    ensures forall i, j :: 0 <= i < j < |result| ==> result[i].start <= result[j].start
    ensures var missing := Missing(files, segments);
      multiset(result) == multiset(Reported(canonical, missing, segments, segments + missing))
  {
    hide Names, NameFor, IsMissingPath, Resolve, Reported, Missing;
    var missing := FindMissing(files, segments);
    var allMaps := SortByStart(segments + missing);
    var fileMaps := NameMissing(canonical, missing, segments);
    result := [];
    NothingReported(canonical, missing, segments);
    for i := 0 to |allMaps|
      invariant result == Reported(canonical, missing, segments, allMaps[..i])
    {
      var elem := allMaps[i];
      var path := elem.path;
      if path != [] {
        var resolved := Resolve(canonical, path);
        if resolved in fileMaps {
          path := fileMaps[resolved];
        }
      }
      result := result + [Placed(elem, path)];
      OneMoreReported(canonical, missing, segments, allMaps, i);
    }
    assert allMaps[..|allMaps|] == allMaps;
    ReportedKeepsMultiplicity(canonical, missing, segments, allMaps, segments + missing);
  }

  lemma {:induction false} NothingReported(canonical: Canonical, missing: seq<CoreVirtualMap>,
                                           segments: seq<CoreVirtualMap>)
    ensures forall maps: seq<CoreVirtualMap> :: Reported(canonical, missing, segments, maps[..0]) == []
  {
  }

  lemma {:induction false} OneMoreReported(canonical: Canonical, missing: seq<CoreVirtualMap>,
                                           segments: seq<CoreVirtualMap>,
                                           maps: seq<CoreVirtualMap>, i: nat)
    requires i < |maps|
    ensures Reported(canonical, missing, segments, maps[..i + 1])
         == Reported(canonical, missing, segments, maps[..i])
            + [Placed(maps[i], Renamed(canonical, missing, segments, maps[i].path))]
  {
    hide Renamed, Reported;
  }

  method FindMissing(files: seq<CoreVirtualMap>, segments: seq<CoreVirtualMap>) returns (missing: seq<CoreVirtualMap>)
    ensures missing == Missing(files, segments)
  {
    var ranges: set<(word64, word64)> := {};
    for i := 0 to |segments|
      invariant forall s: word64, e: word64 :: (s, e) in ranges <==> HasRange(segments[..i], s, e)
    {
      ranges := ranges + {(segments[i].start, segments[i].end)};
      assert forall m :: m in segments[..i + 1] <==> m in segments[..i] || m == segments[i];
    }
    assert segments[..|segments|] == segments;
    missing := [];
    for i := 0 to |files|
      invariant missing == Missing(files[..i], segments)
    {
      if (files[i].start, files[i].end) !in ranges {
        missing := missing + [files[i]];
      }
      assert files[..i + 1][..i] == files[..i];
    }
    assert files[..|files|] == files;
  }

  method NameMissing(canonical: Canonical, missing: seq<CoreVirtualMap>, segments: seq<CoreVirtualMap>)
    returns (fileMaps: map<Text, Text>)
    ensures forall r :: r in fileMaps <==> NameFor(canonical, missing, segments, r).Some?
    ensures forall r :: r in fileMaps ==> Some(fileMaps[r]) == NameFor(canonical, missing, segments, r)
  {
    hide Resolve;
    var missingPaths: set<Text> := {};
    for i := 0 to |missing|
      invariant forall r :: r in missingPaths <==> IsMissingPath(canonical, missing[..i], r)
    {
      if missing[i].path != [] {
        missingPaths := missingPaths + {Resolve(canonical, missing[i].path)};
      }
      assert forall m :: m in missing[..i + 1] <==> m in missing[..i] || m == missing[i];
    }
    assert missing[..|missing|] == missing;
    fileMaps := map[];
    for i := 0 to |segments|
      invariant forall r :: r in fileMaps <==> NameFor(canonical, missing, segments[..i], r).Some?
      invariant forall r :: r in fileMaps ==> Some(fileMaps[r]) == NameFor(canonical, missing, segments[..i], r)
    {
      assert segments[..i + 1][..i] == segments[..i];
      var m := segments[i];
      if m.path == [] {
        continue;
      }
      match canonical(m.path)
      case Some(resolved) =>
        if resolved in missingPaths {
          fileMaps := fileMaps[resolved := m.path];
        }
      case None =>
    }
    assert segments[..|segments|] == segments;
  }

  /** Lists with the same elements still have the same elements once a common one is taken out. */
  lemma {:induction false} TakenOut(xs: seq<CoreVirtualMap>, ys: seq<CoreVirtualMap>)
    returns (before: seq<CoreVirtualMap>, after: seq<CoreVirtualMap>)
    requires multiset(xs) == multiset(ys) && xs != []
    ensures ys == before + [xs[0]] + after
    ensures multiset(xs[1..]) == multiset(before + after)
  {
    assert xs[0] in multiset(ys);
    var j :| 0 <= j < |ys| && ys[j] == xs[0];
    before, after := ys[..j], ys[j + 1..];
    assert ys == before + [xs[0]] + after;
    assert xs == [xs[0]] + xs[1..];
    assert multiset(xs[1..]) == multiset(xs) - multiset{xs[0]};
    assert multiset(before + after) == multiset(ys) - multiset{xs[0]};
  }

  lemma {:induction false} ReportedSplit(canonical: Canonical, missing: seq<CoreVirtualMap>,
                                         segments: seq<CoreVirtualMap>,
                                         xs: seq<CoreVirtualMap>, ys: seq<CoreVirtualMap>)
    ensures Reported(canonical, missing, segments, xs + ys)
         == Reported(canonical, missing, segments, xs) + Reported(canonical, missing, segments, ys)
  {
    hide Renamed;
  }

  /** What is reported, with the order forgotten. */
  ghost function ReportedBag(canonical: Canonical, missing: seq<CoreVirtualMap>, segments: seq<CoreVirtualMap>,
                             maps: seq<CoreVirtualMap>): multiset<VirtualMap>
  {
    multiset(Reported(canonical, missing, segments, maps))
  }

  lemma {:induction false} ReportedWithout(canonical: Canonical, missing: seq<CoreVirtualMap>,
                                           segments: seq<CoreVirtualMap>,
                                           before: seq<CoreVirtualMap>, m: CoreVirtualMap, after: seq<CoreVirtualMap>)
    ensures ReportedBag(canonical, missing, segments, before + [m] + after)
         == ReportedBag(canonical, missing, segments, before + after)
            + multiset{Placed(m, Renamed(canonical, missing, segments, m.path))}
  {
    hide Renamed, Placed, Reported;
    ReportedSplit(canonical, missing, segments, before + [m], after);
    ReportedSplit(canonical, missing, segments, before, [m]);
    ReportedSplit(canonical, missing, segments, before, after);
  }

  lemma {:induction false} ReportedKeepsMultiplicity(canonical: Canonical, missing: seq<CoreVirtualMap>,
                                                     segments: seq<CoreVirtualMap>,
                                                     xs: seq<CoreVirtualMap>, ys: seq<CoreVirtualMap>)
    requires multiset(xs) == multiset(ys)
    ensures ReportedBag(canonical, missing, segments, xs) == ReportedBag(canonical, missing, segments, ys)
  {
    hide Renamed, ReportedBag, Placed;
    if xs == [] {
      SameLength(xs, ys);
    } else {
      var x, rest := xs[0], xs[1..];
      var before, after := TakenOut(xs, ys);
      ReportedKeepsMultiplicity(canonical, missing, segments, rest, before + after);
      ReportedWithout(canonical, missing, segments, [], x, rest);
      ReportedWithout(canonical, missing, segments, before, x, after);
      assert [] + [x] + rest == xs && [] + rest == rest;
    }
  }

  lemma {:induction false} SameLength(xs: seq<CoreVirtualMap>, ys: seq<CoreVirtualMap>)
    requires multiset(xs) == multiset(ys)
    ensures |xs| == |ys|
  {
    assert |multiset(xs)| == |xs| && |multiset(ys)| == |ys|;
  }

  // ----- What is kept and what is dropped

  /** Mapped files are kept, each as often as it is listed, exactly when no segment has their range. */
  lemma {:induction false} MissingKeepsCounts(files: seq<CoreVirtualMap>, segments: seq<CoreVirtualMap>,
                                              f: CoreVirtualMap)
    ensures multiset(Missing(files, segments))[f]
         == if HasRange(segments, f.start, f.end) then 0 else multiset(files)[f]
  {
    hide HasRange;
    if files != [] {
      assert files == files[..|files| - 1] + [files[|files| - 1]];
      MissingKeepsCounts(files[..|files| - 1], segments, f);
    }
  }

  // ----- What renaming keeps

  /** A path is only replaced by one with the same canonical form, and replacing twice changes nothing. */
  lemma {:induction false} RenamingKeepsTheFile(canonical: Canonical, missing: seq<CoreVirtualMap>,
                                                segments: seq<CoreVirtualMap>,
                                                path: Text)
    ensures var name := Renamed(canonical, missing, segments, path);
      && Resolve(canonical, name) == Resolve(canonical, path)
      && (name == [] <==> path == [])
      && Renamed(canonical, missing, segments, name) == name
  {
  }

  /** Two paths end as the same string if and only if they were the same, or have the same canonical
      form, which a missing file has too and some segment's path resolves to. */
  lemma {:induction false} SameNameIff(canonical: Canonical, missing: seq<CoreVirtualMap>,
                                       segments: seq<CoreVirtualMap>, p: Text, q: Text)
    requires p != [] && q != []
    ensures Renamed(canonical, missing, segments, p) == Renamed(canonical, missing, segments, q)
       <==> p == q || (&& Resolve(canonical, p) == Resolve(canonical, q)
                       && IsMissingPath(canonical, missing, Resolve(canonical, p))
                       && exists m :: m in segments && m.path != [] && canonical(m.path) == Some(Resolve(canonical, p)))
  {
    hide IsMissingPath, Resolve, NameFor;
    RenamingKeepsTheFile(canonical, missing, segments, p);
    RenamingKeepsTheFile(canonical, missing, segments, q);
  }

  /** A file missing from the segments and a segment with the same canonical path get one name. */
  lemma {:induction false} MissingFileTakesTheSegmentName(canonical: Canonical, files: seq<CoreVirtualMap>,
                                                          segments: seq<CoreVirtualMap>,
                                                          f: CoreVirtualMap, m: CoreVirtualMap)
    requires f in files && !HasRange(segments, f.start, f.end) && f.path != []
    requires m in segments && m.path != [] && canonical(m.path) == Some(Resolve(canonical, f.path))
    ensures var missing := Missing(files, segments);
      && Renamed(canonical, missing, segments, f.path) == Renamed(canonical, missing, segments, m.path)
      && exists s :: s in segments && canonical(s.path) == canonical(m.path)
           && s.path == Renamed(canonical, missing, segments, f.path)
  {
    hide HasRange;
    var missing := Missing(files, segments);
    var resolved := Resolve(canonical, f.path);
    assert f in missing && Resolve(canonical, f.path) == resolved;
    assert Names(canonical, missing, m, resolved);
    NameIsLast(canonical, missing, segments, resolved);
  }
}
