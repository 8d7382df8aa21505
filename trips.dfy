/** The log reader of `NMEAData`: trip grouping (`concat_trip`) and the `$GP` line filter
    (`__get_lines`), over the log directory held in memory as a map from file name to the lines
    that iterating over the open file yields. */
module Trips {
  import opened Text

  /** File name -> the file's lines, each as Python's file iterator yields it. */
  type Directory = map<string, seq<string>>

  /** The lines of file `name`; the operations that open files require that it exists. */
  function Contents(dir: Directory, name: string): seq<string>
  {
    if name in dir then dir[name] else []
  }

  /** `f.readline()`: the first line, or "" for an empty file. */
  function FirstLine(lines: seq<string>): string
  {
    if lines == [] then "" else lines[0]
  }

  /** `f.readline().split(",")[-1]`: the last comma-separated field of a file's first line. */
  function TripKey(dir: Directory, name: string): string
  {
    var fields := Split(FirstLine(Contents(dir, name)), ',');
    fields[|fields| - 1]
  }

  /** The names, in the given order, of the files whose trip key is `key`. */
  function FilesWithKey(names: seq<string>, keyOf: string -> string, key: string): (r: seq<string>)
    ensures forall n :: n in r ==> n in names
  {
    if names == [] then []
    else
      var n := names[|names| - 1];
      FilesWithKey(names[..|names| - 1], keyOf, key) + (if keyOf(n) == key then [n] else [])
  }

  /** The trip keys carried by the named files. */
  function KeysOf(names: seq<string>, keyOf: string -> string): set<string>
  {
    set n | n in names :: keyOf(n)
  }

  /** `trips` groups exactly the files `names` by trip key, each group in the order of `names`. */
  ghost predicate GroupedAs(trips: map<string, seq<string>>, names: seq<string>, keyOf: string -> string)
  {
    && trips.Keys == KeysOf(names, keyOf)
    && forall k :: k in trips ==> trips[k] == FilesWithKey(names, keyOf, k)
  }

  /** The trip key of every file of the directory. */
  function FileKey(dir: Directory): string -> string
  {
    name => TripKey(dir, name)
  }

  /** `concat_trip`: the listing, sorted by name, grouped by trip key. The directory prefix the
      source joins onto every name is left off. */
  method ConcatTrip(dir: Directory, listing: seq<string>) returns (trips: map<string, seq<string>>)
    requires forall n :: n in listing ==> n in dir
    ensures trips.Keys == KeysOf(listing, FileKey(dir))
    ensures forall k :: k in trips ==> trips[k] == FilesWithKey(SortStrings(listing), FileKey(dir), k)
  {
    var files := SortStrings(listing);
    trips := map[];
    for i := 0 to |files|
      invariant GroupedAs(trips, files[..i], FileKey(dir))
    {
      var file := files[i];
      var key := TripKey(dir, file);
      ghost var before := trips;
      if key !in trips {
        trips := trips[key := []];
      }
      trips := trips[key := trips[key] + [file]];
      GroupedStep(before, files[..i], file, FileKey(dir));
      PrefixSnoc(files, i);
    }
    GroupedFinal(trips, files, listing, FileKey(dir));
  }

  lemma {:induction false} PrefixSnoc(s: seq<string>, i: nat)
    requires i < |s|
    ensures s[..i + 1] == s[..i] + [s[i]]
  {
  }

  lemma {:induction false} GroupedFinal(trips: map<string, seq<string>>, files: seq<string>, listing: seq<string>, keyOf: string -> string)
    requires files == SortStrings(listing)
    requires GroupedAs(trips, files[..|files|], keyOf)
    ensures trips.Keys == KeysOf(listing, keyOf)
    ensures forall k :: k in trips ==> trips[k] == FilesWithKey(files, keyOf, k)
  {
    assert files[..|files|] == files;
    KeysOfSameMembers(files, listing, keyOf);
  }

  lemma {:induction false} KeysOfSameMembers(a: seq<string>, b: seq<string>, keyOf: string -> string)
    requires forall n :: n in a <==> n in b
    ensures KeysOf(a, keyOf) == KeysOf(b, keyOf)
  {
  }

  /** Adding the next file to its group keeps the grouping exact. */
  lemma {:induction false} GroupedStep(trips: map<string, seq<string>>, names: seq<string>, file: string, keyOf: string -> string)
    requires GroupedAs(trips, names, keyOf)
    ensures var key := keyOf(file);
      GroupedAs(trips[key := (if key in trips then trips[key] else []) + [file]], names + [file], keyOf)
  {
    var key := keyOf(file);
    var all := names + [file];
    var group := (if key in trips then trips[key] else []) + [file];
    var after := trips[key := group];
    KeysStep(names, file, keyOf);
    assert after.Keys == KeysOf(all, keyOf);
    forall k | k in after
      ensures after[k] == FilesWithKey(all, keyOf, k)
    {
      FilesWithKeySnoc(names, file, keyOf, k);
      if k == key {
        if key !in trips {
          FilesWithKeyAbsent(names, keyOf, key);
        }
      } else {
        assert after[k] == trips[k];
      }
    }
  }

  lemma {:induction false} FilesWithKeySnoc(names: seq<string>, file: string, keyOf: string -> string, k: string)
    ensures FilesWithKey(names + [file], keyOf, k) == FilesWithKey(names, keyOf, k) + (if keyOf(file) == k then [file] else [])
  {
    var all := names + [file];
    assert all[..|all| - 1] == names;
  }

  lemma {:induction false} KeysStep(names: seq<string>, file: string, keyOf: string -> string)
    ensures KeysOf(names + [file], keyOf) == KeysOf(names, keyOf) + {keyOf(file)}
  {
    var all := names + [file];
    forall k
      ensures k in KeysOf(all, keyOf) <==> k in KeysOf(names, keyOf) + {keyOf(file)}
    {
      if k in KeysOf(all, keyOf) {
        var n :| n in all && keyOf(n) == k;
        if n != file {
          assert n in names;
        }
      }
      if k in KeysOf(names, keyOf) {
        var n :| n in names && keyOf(n) == k;
        assert n in all;
      }
      assert file in all;
    }
  }

  lemma {:induction false} FilesWithKeyAbsent(names: seq<string>, keyOf: string -> string, key: string)
    requires key !in KeysOf(names, keyOf)
    ensures FilesWithKey(names, keyOf, key) == []
  {
    if names != [] {
      var init := names[..|names| - 1];
      assert KeysOf(init, keyOf) <= KeysOf(names, keyOf);
      FilesWithKeyAbsent(init, keyOf, key);
    }
  }

  /** Every file lands in exactly one group, the one of its own trip key, as often as it is
      listed: the group of key `k` holds `n` as many times as the listing does when `n`'s key is
      `k`, and never otherwise. */
  lemma {:induction false} GroupCount(names: seq<string>, keyOf: string -> string, k: string, n: string)
    ensures multiset(FilesWithKey(names, keyOf, k))[n]
         == if keyOf(n) == k then multiset(names)[n] else 0
  {
    if names != [] {
      var init := names[..|names| - 1];
      var last := names[|names| - 1];
      GroupCount(init, keyOf, k, n);
      assert names == init + [last];
    }
  }

  /** A group keeps the order of the listing it was taken from. */
  lemma {:induction false} GroupSorted(names: seq<string>, keyOf: string -> string, k: string)
    requires SortedStrings(names)
    ensures SortedStrings(FilesWithKey(names, keyOf, k))
  {
    if names != [] {
      var init := names[..|names| - 1];
      var last := names[|names| - 1];
      assert SortedStrings(init);
      GroupSorted(init, keyOf, k);
      var g := FilesWithKey(init, keyOf, k);
      forall e | e in g
        ensures LexLe(e, last)
      {
        var i :| 0 <= i < |init| && init[i] == e;
        assert names[i] == e;
      }
      var r := g + (if keyOf(last) == k then [last] else []);
      assert FilesWithKey(names, keyOf, k) == r;
      forall i, j | 0 <= i < j < |r|
        ensures LexLe(r[i], r[j])
      {
        if j == |g| {
          assert r[i] == g[i] && g[i] in g;
        }
      }
    }
  }

  /** The groups `concat_trip` returns partition the listing by trip key, each in name order. */
  lemma {:induction false} TripsPartitionListing(dir: Directory, listing: seq<string>, n: string, k: string)
    ensures var g := FilesWithKey(SortStrings(listing), FileKey(dir), k);
      && SortedStrings(g)
      && multiset(g)[n] == if TripKey(dir, n) == k then multiset(listing)[n] else 0
  {
    var files := SortStrings(listing);
    SortStringsSorted(listing);
    GroupCount(files, FileKey(dir), k, n);
    GroupSorted(files, FileKey(dir), k);
  }

  /** The regular expression `^\$GP`: lines of the GPS talker. */
  predicate IsGpLine(line: string)
  {
    StartsWith(line, "$GP")
  }

  /** The `$GP` lines of one file, in order. */
  function GpLinesOf(lines: seq<string>): seq<string>
  {
    if lines == [] then []
    else
      GpLinesOf(lines[..|lines| - 1]) + (if IsGpLine(lines[|lines| - 1]) then [lines[|lines| - 1]] else [])
  }

  /** The `$GP` lines of the files, file after file. */
  function GpLines(files: seq<string>, dir: Directory): seq<string>
  {
    if files == [] then [] else GpLines(files[..|files| - 1], dir) + GpLinesOf(Contents(dir, files[|files| - 1]))
  }

  /** All lines of the files, file after file. */
  function AllLines(files: seq<string>, dir: Directory): seq<string>
  {
    if files == [] then [] else AllLines(files[..|files| - 1], dir) + Contents(dir, files[|files| - 1])
  }

  /** `__get_lines`: the `$GP` lines of the trip's files, in file order then line order. */
  method GetLines(dir: Directory, files: seq<string>) returns (lines: seq<string>)
    requires forall f :: f in files ==> f in dir
    ensures lines == GpLines(files, dir)
  {
    lines := [];
    for i := 0 to |files|
      invariant lines == GpLines(files[..i], dir)
    {
      var content := dir[files[i]];
      ghost var before := lines;
      for j := 0 to |content|
        invariant lines == before + GpLinesOf(content[..j])
      {
        if StartsWith(content[j], "$GP") {
          lines := lines + [content[j]];
        }
        assert content[..j + 1][..j] == content[..j];
      }
      assert content[..|content|] == content;
      assert files[..i + 1][..i] == files[..i];
    }
    assert files[..|files|] == files;
  }

  lemma {:induction false} GpLinesOfAppend(a: seq<string>, b: seq<string>)
    ensures GpLinesOf(a + b) == GpLinesOf(a) + GpLinesOf(b)
  {
    if b != [] {
      var init := b[..|b| - 1];
      assert (a + b)[..|a + b| - 1] == a + init;
      GpLinesOfAppend(a, init);
    } else {
      assert a + b == a;
    }
  }

  /** Filtering file by file is filtering the concatenation: the trip's line sequence is exactly
      the `$GP` lines of its files' contents, in file order then line order. */
  lemma {:induction false} GpLinesFilterAll(files: seq<string>, dir: Directory)
    ensures GpLines(files, dir) == GpLinesOf(AllLines(files, dir))
  {
    if files != [] {
      GpLinesFilterAll(files[..|files| - 1], dir);
      GpLinesOfAppend(AllLines(files[..|files| - 1], dir), Contents(dir, files[|files| - 1]));
    }
  }

  /** The filter keeps a line if and only if it begins with `$GP`, as often as it occurs. */
  lemma {:induction false} GpLinesOfCount(lines: seq<string>, l: string)
    ensures multiset(GpLinesOf(lines))[l] == if IsGpLine(l) then multiset(lines)[l] else 0
  {
    if lines != [] {
      var init := lines[..|lines| - 1];
      GpLinesOfCount(init, l);
      assert lines == init + [lines[|lines| - 1]];
    }
  }
}
