/** Target selection for the `yu` command line: how user arguments and the
    directory listing of the project root become container (service
    directory) names, together with the two Ruby array operations the
    selection relies on (`Array#&` and `Array#join`). */
module Paths {

  /** A non-empty path component: what a top-level directory name is. */
  predicate IsSegment(s: string) {
    s != [] && '/' !in s
  }

  // ---------------------------------------------------------------------
  // File.basename (normalise_container_name_from_dir)
  // ---------------------------------------------------------------------

  /** The path without its trailing separators. */
  function TrimTrailingSlashes(s: string): (r: string)
    ensures r <= s
    ensures r == [] || r[|r| - 1] != '/'
    ensures forall i :: |r| <= i < |s| ==> s[i] == '/'
  {
    if s != [] && s[|s| - 1] == '/' then TrimTrailingSlashes(s[..|s| - 1]) else s
  }

  /** The longest suffix of `s` without a separator. */
  function LastSegment(s: string): (r: string)
    ensures |r| <= |s| && r == s[|s| - |r|..]
    ensures '/' !in r
    ensures |r| < |s| ==> s[|s| - |r| - 1] == '/'
  {
    if s == [] || s[|s| - 1] == '/' then []
    else
      var init := s[..|s| - 1];
      var r' := LastSegment(init);
      assert init[|init| - |r'|..] + [s[|s| - 1]] == s[|s| - |r'| - 1..];
      r' + [s[|s| - 1]]
  }

  /** Ruby's File.basename on a POSIX path: the last component once trailing
      separators are dropped, "/" for a path made only of separators, and ""
      for the empty path. This is what the CLI uses to turn a directory
      argument into a container name. */
  function Basename(path: string): (r: string)
    ensures r == [] <==> path == []
    ensures r == "/" || '/' !in r
  {
    var t := TrimTrailingSlashes(path);
    if t == [] then (if path == [] then [] else "/") else LastSegment(t)
  }

  lemma {:induction false} LastSegmentOfSlashFree(s: string)
    requires '/' !in s
    ensures LastSegment(s) == s
  {
    if s != [] {
      assert s[|s| - 1] in s;
      LastSegmentOfSlashFree(s[..|s| - 1]);
      assert s[..|s| - 1] + [s[|s| - 1]] == s;
    }
  }

  lemma {:induction false} LastSegmentAfterSlash(dir: string, seg: string)
    requires '/' !in seg
    ensures LastSegment(dir + "/" + seg) == seg
  {
    var p := dir + "/" + seg;
    if seg != [] {
      var seg' := seg[..|seg| - 1];
      assert seg[|seg| - 1] in seg;
      assert p[..|p| - 1] == dir + "/" + seg';
      LastSegmentAfterSlash(dir, seg');
      assert seg' + [seg[|seg| - 1]] == seg;
    }
  }

  /** A bare directory name is its own basename. */
  lemma BasenameOfSegment(s: string)
    requires IsSegment(s)
    ensures Basename(s) == s
  {
    assert s[|s| - 1] in s;
    LastSegmentOfSlashFree(s);
  }

  /** The basename of `dir/seg` (with or without a trailing separator) is
      `seg`, whatever `dir` is. */
  lemma BasenameOfNestedPath(dir: string, seg: string)
    requires IsSegment(seg)
    ensures Basename(dir + "/" + seg) == seg
    ensures Basename(dir + "/" + seg + "/") == seg
  {
    var p := dir + "/" + seg;
    assert p[|p| - 1] == seg[|seg| - 1];
    assert seg[|seg| - 1] in seg;
    assert TrimTrailingSlashes(p) == p;
    var q := p + "/";
    assert q[..|q| - 1] == p;
    LastSegmentAfterSlash(dir, seg);
  }

  /** Normalising a name twice changes nothing. */
  lemma BasenameIdempotent(path: string)
    ensures Basename(Basename(path)) == Basename(path)
  {
    var r := Basename(path);
    if r == "/" {
      assert TrimTrailingSlashes(r) == [] by {
        assert r[..0] == [];
      }
    } else if r != [] {
      BasenameOfSegment(r);
    }
  }

  /** Every bare directory name is its own basename. */
  lemma SegmentsAreBasenames()
    ensures forall s :: IsSegment(s) ==> Basename(s) == s
  {
    forall s | IsSegment(s) ensures Basename(s) == s {
      BasenameOfSegment(s);
    }
  }

  /** `args.map(&method(:normalise_container_name_from_dir))`: one name per
      argument, in order; a bare directory name is kept as it is. */
  function Normalised(args: seq<string>): (names: seq<string>)
    ensures |names| == |args|
    ensures forall i :: 0 <= i < |args| ==> (names[i] == [] <==> args[i] == [])
    ensures forall i :: 0 <= i < |args| ==> names[i] == "/" || '/' !in names[i]
    ensures forall i :: 0 <= i < |args| && IsSegment(args[i]) ==> names[i] == args[i]
  {
    SegmentsAreBasenames();
    seq(|args|, i requires 0 <= i < |args| => Basename(args[i]))
  }

  // ---------------------------------------------------------------------
  // containers_with_file: glob hits mapped to their first path component
  // ---------------------------------------------------------------------

  /** A file that the listing of the project root reports at `dir/file`,
      where `dir` is a top-level directory and `file` a path inside it. */
  datatype Entry = Entry(dir: string, file: string)

  /** What the glob `*` can match: top-level names are single components. */
  predicate ValidListing(listing: seq<Entry>) {
    forall i :: 0 <= i < |listing| ==> IsSegment(listing[i].dir)
  }

  /** The hits of globbing `file` under every top-level directory (the
      pattern star-slash-file), in the order the listing gives. */
  function Glob(listing: seq<Entry>, file: string): (hits: seq<string>)
    ensures |hits| <= |listing|
    ensures forall h :: h in hits <==>
      exists i :: 0 <= i < |listing| && listing[i].file == file && h == listing[i].dir + "/" + file
  {
    if listing == [] then []
    else
      assert forall i :: 1 <= i < |listing| ==> listing[i] == listing[1..][i - 1];
      (if listing[0].file == file then [listing[0].dir + "/" + file] else [])
      + Glob(listing[1..], file)
  }

  /** `path.split("/").first`: the longest prefix without a separator (the
      empty string where Ruby would give nil). */
  function FirstSegment(path: string): (r: string)
    ensures r <= path && '/' !in r
    ensures |r| < |path| ==> path[|r|] == '/'
  {
    if path == [] || path[0] == '/' then [] else [path[0]] + FirstSegment(path[1..])
  }

  lemma {:induction false} FirstSegmentOfPath(dir: string, rest: string)
    requires '/' !in dir
    ensures FirstSegment(dir + "/" + rest) == dir
  {
    if dir != [] {
      var p := dir + "/" + rest;
      assert dir[0] in dir;
      assert p[1..] == dir[1..] + "/" + rest;
      FirstSegmentOfPath(dir[1..], rest);
      assert [dir[0]] + dir[1..] == dir;
    }
  }

  function FirstSegments(paths: seq<string>): (r: seq<string>)
  {
    seq(|paths|, i requires 0 <= i < |paths| => FirstSegment(paths[i]))
  }

  /** containers_with_file: the first component of every glob hit, one
      name per hit and in the hits' order. */
  function ContainersWithFile(listing: seq<Entry>, file: string): (r: seq<string>)
    ensures |r| == |Glob(listing, file)|
    ensures forall k :: 0 <= k < |r| ==> r[k] <= Glob(listing, file)[k] && '/' !in r[k]
  {
    FirstSegments(Glob(listing, file))
  }

  /** Reference definition: the directories of the listing that hold `file`,
      in listing order. */
  function DirsHolding(listing: seq<Entry>, file: string): (r: seq<string>)
    ensures forall c :: c in r ==> exists i :: 0 <= i < |listing| && listing[i].dir == c && listing[i].file == file
    ensures forall i :: 0 <= i < |listing| && listing[i].file == file ==> listing[i].dir in r
  {
    if listing == [] then []
    else
      var rest := DirsHolding(listing[1..], file);
      assert forall i :: 1 <= i < |listing| ==> listing[i] == listing[1..][i - 1];
      (if listing[0].file == file then [listing[0].dir] else []) + rest
  }

  /** Taking the first component of each glob hit gives back exactly the
      directories that hold the file. */
  lemma {:induction false} ContainersWithFileAreHolders(listing: seq<Entry>, file: string)
    requires ValidListing(listing)
    ensures ContainersWithFile(listing, file) == DirsHolding(listing, file)
  {
    if listing != [] {
      assert ValidListing(listing[1..]) by {
        forall i | 0 <= i < |listing[1..]| ensures IsSegment(listing[1..][i].dir) {
          assert listing[1..][i] == listing[i + 1];
        }
      }
      ContainersWithFileAreHolders(listing[1..], file);
      var head := if listing[0].file == file then [listing[0].dir + "/" + file] else [];
      assert Glob(listing, file) == head + Glob(listing[1..], file);
      if listing[0].file == file {
        FirstSegmentOfPath(listing[0].dir, file);
      }
      assert FirstSegments(head + Glob(listing[1..], file))
          == FirstSegments(head) + FirstSegments(Glob(listing[1..], file));
    }
  }

  /** gemfiled_containers: the directories holding a Gemfile. */
  function GemfiledContainers(listing: seq<Entry>): (r: seq<string>)
    ensures ValidListing(listing) ==> r == DirsHolding(listing, "Gemfile")
  {
    assert ValidListing(listing) ==> ContainersWithFile(listing, "Gemfile") == DirsHolding(listing, "Gemfile") by {
      if ValidListing(listing) { ContainersWithFileAreHolders(listing, "Gemfile"); }
    }
    ContainersWithFile(listing, "Gemfile")
  }

  /** testable_containers: the directories holding an executable test
      entry point `bin/test`. */
  function TestableContainers(listing: seq<Entry>): (r: seq<string>)
    ensures ValidListing(listing) ==> r == DirsHolding(listing, "bin/test")
  {
    assert ValidListing(listing) ==> ContainersWithFile(listing, "bin/test") == DirsHolding(listing, "bin/test") by {
      if ValidListing(listing) { ContainersWithFileAreHolders(listing, "bin/test"); }
    }
    ContainersWithFile(listing, "bin/test")
  }

  // ---------------------------------------------------------------------
  // Array#& and Array#join
  // ---------------------------------------------------------------------

  /** Position of the first occurrence of `x` in `xs`, or |xs| if none. */
  function FirstIndex(xs: seq<string>, x: string): (k: nat)
    ensures k <= |xs|
    ensures k < |xs| <==> x in xs
    ensures k < |xs| ==> xs[k] == x && x !in xs[..k]
  {
    if xs == [] then 0
    else if xs[0] == x then 0
    else
      var k' := FirstIndex(xs[1..], x);
      assert xs[1..][..k'] == xs[1..k' + 1];
      assert xs[..k' + 1] == [xs[0]] + xs[1..k' + 1];
      1 + k'
  }

  lemma FirstIndexSnoc(xs: seq<string>, x: string)
    ensures forall z :: z in xs ==> FirstIndex(xs + [x], z) == FirstIndex(xs, z)
    ensures x !in xs ==> FirstIndex(xs + [x], x) == |xs|
  {
    forall z | z in xs ensures FirstIndex(xs + [x], z) == FirstIndex(xs, z) {
      var k := FirstIndex(xs, z);
      var k' := FirstIndex(xs + [x], z);
      assert (xs + [x])[k] == z;
      assert (xs + [x])[..k] == xs[..k];
      if k' < k {
        assert false;
      }
    }
    if x !in xs {
      var k' := FirstIndex(xs + [x], x);
      if k' < |xs| {
        assert false;
      }
    }
  }

  /** Ruby's `xs & ys`: the elements of `xs` that are also in `ys`, without
      repetitions, in the order of their first occurrence in `xs`. */
  function Intersect(xs: seq<string>, ys: seq<string>): (r: seq<string>)
    ensures forall z :: z in r <==> z in xs && z in ys
    ensures forall i, j :: 0 <= i < j < |r| ==> FirstIndex(xs, r[i]) < FirstIndex(xs, r[j])
  {
    if xs == [] then []
    else
      var init := xs[..|xs| - 1];
      var x := xs[|xs| - 1];
      var r' := Intersect(init, ys);
      assert init + [x] == xs;
      FirstIndexSnoc(init, x);
      if x in ys && x !in r' then r' + [x] else r'
  }

  /** `xs.join(sep)`: the pieces with `sep` between neighbours; the result
      starts with the first piece and ends with the last. */
  function Join(xs: seq<string>, sep: string): (r: string)
    ensures xs == [] ==> r == ""
    ensures xs != [] ==> xs[0] <= r
    ensures xs != [] ==> |xs[|xs| - 1]| <= |r| && r[|r| - |xs[|xs| - 1]|..] == xs[|xs| - 1]
  {
    if xs == [] then "" else if |xs| == 1 then xs[0] else xs[0] + sep + Join(xs[1..], sep)
  }

  /** Reference definition: the pieces of `s` between occurrences of `sep`,
      empty pieces included. */
  function Split(s: string, sep: char): (parts: seq<string>)
    ensures |parts| >= 1
  {
    if s == [] then [""]
    else if s[0] == sep then [""] + Split(s[1..], sep)
    else
      var r := Split(s[1..], sep);
      [[s[0]] + r[0]] + r[1..]
  }

  lemma {:induction false} SplitPiece(t: string, sep: char, rest: string)
    requires sep !in t
    ensures Split(t, sep) == [t]
    ensures Split(t + [sep] + rest, sep) == [t] + Split(rest, sep)
  {
    if t != [] {
      assert t[0] in t;
      SplitPiece(t[1..], sep, rest);
      assert (t + [sep] + rest)[1..] == t[1..] + [sep] + rest;
      assert [t[0]] + t[1..] == t;
    } else {
      assert t + [sep] + rest == [sep] + rest;
      assert ([sep] + rest)[1..] == rest;
    }
  }

  /** Joining pieces that do not contain the separator can be undone by
      splitting on it. */
  lemma {:induction false} SplitJoin(xs: seq<string>, sep: char)
    requires xs != []
    requires forall i :: 0 <= i < |xs| ==> sep !in xs[i]
    ensures Split(Join(xs, [sep]), sep) == xs
  {
    if |xs| == 1 {
      SplitPiece(xs[0], sep, "");
    } else {
      SplitJoin(xs[1..], sep);
      SplitPiece(xs[0], sep, Join(xs[1..], [sep]));
      assert [xs[0]] + xs[1..] == xs;
    }
  }
}
