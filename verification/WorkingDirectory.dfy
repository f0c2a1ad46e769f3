// Names without a prefix, which are taken to lie in a working directory.
module WorkingDirectory {
  import opened Prelude
  import opened PathNormalization
  import opened PathMeaning
  import opened PathTwice

  // The segments of a name without a prefix.
  ghost function Names(filename: string, sep: char): Segs
    requires IsSeparator(sep) && GetPrefixLength(filename) == 0
  {
    if filename == "" then [] else SegsOf(filename, sep)
  }

  ghost function DirSegs(directory: string, sep: char): Segs
    requires IsSeparator(sep) && GetPrefixLength(directory) >= 0
  {
    if directory == "" then [] else SegsOf(directory, sep)
  }

  ghost function DirPrefix(directory: string, sep: char): string
    requires IsSeparator(sep) && 0 <= GetPrefixLength(directory)
  {
    if directory == "" || GetPrefixLength(directory) > |Full(directory, sep)| then ""
    else Full(directory, sep)[..GetPrefixLength(directory)]
  }

  ghost predicate NamesDirectory(filename: string, sep: char)
    requires IsSeparator(sep) && GetPrefixLength(filename) == 0
  {
    filename == "" || IsDirectory(filename, NoEmpties(SegsOf(filename, sep)))
  }

  /** What a name without a prefix means below a directory: its walk goes on from where the walk of the directory
      ends, behind the directory's prefix. */
  ghost function Located(directory: string, filename: string, sep: char): Option<string>
    requires IsSeparator(sep) && GetPrefixLength(directory) >= 0 && GetPrefixLength(filename) == 0
  {
    match Walk([], DirSegs(directory, sep))
    case None => None
    case Some(at) =>
      match Walk(at, Names(filename, sep))
      case None => None
      case Some(out) => Some(Rendered(DirPrefix(directory, sep), out, sep, NamesDirectory(filename, sep)))
  }

  // The directory goes on behind its prefix, and not with another separator.
  predicate IsPlace(directory: string) {
    GetPrefixLength(directory) >= 0 && GetPrefixLength(directory) != |directory| && !SecondSeparator(directory)
  }

  // The name that is normalized.
  function Below(directory: string, filename: string, sep: char): string {
    directory + [sep] + filename
  }

  // A prefix that the directory does not end with is the prefix of the whole.
  lemma PrefixBelow(directory: string, filename: string, sep: char)
    requires IsSeparator(sep) && GetPrefixLength(directory) >= 0 && GetPrefixLength(filename) == 0
    ensures var p, g := GetPrefixLength(directory), Below(directory, filename, sep);
      && (p != |directory| ==> GetPrefixLength(g) == p && (SecondSeparator(g) <==> SecondSeparator(directory)))
      && (p == |directory| && GetPrefixLength(g) == p ==> SecondSeparator(g))
      && (p == |directory| ==> GetPrefixLength(g) < 0 || GetPrefixLength(g) >= p)
  {
    hide GetPrefixLength, FirstSeparator;
    var g := Below(directory, filename, sep);
    if directory != "" { PrefixIs(directory); } else { EmptyPrefix(); }
    if filename != "" { PrefixIs(filename); }
    assert g[|directory|] == sep && forall k | 0 <= k < |directory| :: g[k] == directory[k];
    assert filename != "" ==> g[|directory| + 1] == filename[0];
    PrefixIs(g);
  }

  lemma EmptyPrefix()
    ensures GetPrefixLength("") == 0
  {
  }

  // The characters of the whole.
  lemma FullBelow(directory: string, filename: string, sep: char)
    requires IsSeparator(sep)
    ensures var g := Below(directory, filename, sep);
      && Full(g, sep) == Fixed(directory, sep) + [sep] + (if filename == "" then "" else Full(filename, sep))
  {
    var g := Below(directory, filename, sep);
    var t := Fixed(directory, sep) + [sep] + (if filename == "" then "" else Full(filename, sep));
    assert |Full(g, sep)| == |t|;
    assert forall k | 0 <= k < |t| :: Full(g, sep)[k] == t[k];
  }

  // What lies between the directory's segments and the name's.
  function Between(directory: string): Segs {
    if directory != "" && IsSeparator(directory[|directory| - 1]) then [""] else []
  }

  // The segments of the whole, where the whole has the directory's prefix.
  lemma SegsBelow(directory: string, filename: string, sep: char)
    requires IsSeparator(sep) && GetPrefixLength(directory) >= 0 && GetPrefixLength(filename) == 0
    requires GetPrefixLength(Below(directory, filename, sep)) == GetPrefixLength(directory)
    ensures var g, p := Below(directory, filename, sep), GetPrefixLength(directory);
      && directory != "" && p <= |Full(g, sep)| && Full(g, sep)[..p] == DirPrefix(directory, sep)
      && SegsOf(g, sep) == DirSegs(directory, sep) + Between(directory) + Names(filename, sep)
  {
    hide GetPrefixLength, Join, Split, SegsOf, Clean, Fixed, Full;
    var g, p := Below(directory, filename, sep), GetPrefixLength(directory);
    WholePrefix(directory, filename, sep);
    FullBelow(directory, filename, sep);
    SplitParts(directory, sep);
    NamesJoin(filename, sep);
    var d, b, n := SegsOf(directory, sep), Between(directory), Names(filename, sep);
    BetweenJoin(directory, sep);
    JoinConcat(d, b, sep);
    JoinConcat(d + b, n, sep);
    CleanAll(d, b, n, sep);
    var full, rest := Full(directory, sep), if filename == "" then "" else Full(filename, sep);
    assert Full(g, sep) == full + Join(b, sep) + rest;
    Drop(full, Join(b, sep), rest, p);
    SegsAre(g, d + b + n, sep);
  }

  lemma WholePrefix(directory: string, filename: string, sep: char)
    requires IsSeparator(sep) && GetPrefixLength(Below(directory, filename, sep)) == GetPrefixLength(directory)
    ensures directory != ""
  {
    var g := Below(directory, filename, sep);
    if directory == "" {
      assert g[0] == sep;
      PrefixIs(g);
    }
  }

  lemma BetweenJoin(directory: string, sep: char)
    requires IsSeparator(sep) && directory != ""
    ensures Full(directory, sep) + Join(Between(directory), sep) == Fixed(directory, sep) + [sep]
  {
    assert Join([""], sep) == [sep];
    var none: Segs := [];
    assert Join(none, sep) == "";
  }

  lemma NamesJoin(filename: string, sep: char)
    requires IsSeparator(sep) && GetPrefixLength(filename) == 0
    ensures Join(Names(filename, sep), sep) == (if filename == "" then "" else Full(filename, sep)) &&
      Clean(Names(filename, sep), sep)
  {
    hide GetPrefixLength, Full;
    if filename != "" {
      SplitParts(filename, sep);
      assert Full(filename, sep)[0..] == Full(filename, sep);
    }
  }

  lemma CleanAll(d: Segs, b: Segs, n: Segs, sep: char)
    requires Clean(d, sep) && Clean(n, sep) && (b == [] || b == [""])
    ensures Clean(d + b + n, sep)
  {
    assert forall s | s in d + b + n :: s in d || s == "" || s in n;
  }

  lemma Drop(a: string, b: string, c: string, p: nat)
    requires p <= |a|
    ensures (a + b + c)[..p] == a[..p] && (a + b + c)[p..] == a[p..] + b + c
  {
  }

  lemma {:induction false} WalkConcat(at: Segs, a: Segs, b: Segs)
    ensures Walk(at, a + b) == match Walk(at, a) case None => None case Some(x) => Walk(x, b)
    decreases |a|
  {
    if a == [] {
      assert a + b == b;
    } else {
      assert (a + b)[1..] == a[1..] + b;
      if a[0] == "" || a[0] == "." {
        WalkConcat(at, a[1..], b);
      } else if a[0] == ".." {
        if at != [] { WalkConcat(at[..|at| - 1], a[1..], b); }
      } else {
        WalkConcat(at + [a[0]], a[1..], b);
      }
    }
  }

  lemma WalkBetween(at: Segs, directory: string)
    ensures Walk(at, Between(directory)) == Some(at)
  {
    var one: Segs := [""];
    assert one[1..] == [];
  }

  // The last segment of the whole is the name's.
  lemma DirectoryBelow(directory: string, filename: string, sep: char)
    requires IsSeparator(sep) && GetPrefixLength(directory) >= 0 && GetPrefixLength(filename) == 0
    requires GetPrefixLength(Below(directory, filename, sep)) == GetPrefixLength(directory)
    ensures var g := Below(directory, filename, sep);
      IsDirectory(g, NoEmpties(SegsOf(g, sep))) == NamesDirectory(filename, sep)
  {
    hide GetPrefixLength, SegsOf, Full, NoEmpties;
    var g := Below(directory, filename, sep);
    SegsBelow(directory, filename, sep);
    if filename != "" {
      assert g[|g| - 1] == filename[|filename| - 1];
      if !IsSeparator(filename[|filename| - 1]) {
        LastNotEmpty(filename, sep);
        FirstEmpty(filename, sep);
        SomeSegs(filename, sep);
        var n := SegsOf(filename, sep);
        var front, last := DirSegs(directory, sep) + Between(directory) + n[..|n| - 1], n[|n| - 1];
        assert n == n[..|n| - 1] + [last];
        assert SegsOf(g, sep) == front + [last];
        NoEmptiesSnoc(front, last);
        NoEmptiesSnoc(n[..|n| - 1], last);
      }
    }
  }

  lemma SomeSegs(filename: string, sep: char)
    requires IsSeparator(sep) && filename != "" && GetPrefixLength(filename) == 0
    ensures SegsOf(filename, sep) != []
  {
    hide GetPrefixLength, Full;
    SplitParts(filename, sep);
    NoSegs(sep);
    assert Full(filename, sep)[0..] == Full(filename, sep);
  }

  // Where the prefixes agree, the whole means what the name means below the directory.
  lemma MeantBelow(directory: string, filename: string, sep: char)
    requires IsSeparator(sep) && GetPrefixLength(directory) >= 0 && GetPrefixLength(filename) == 0
    requires GetPrefixLength(Below(directory, filename, sep)) == GetPrefixLength(directory)
    ensures Meant(Below(directory, filename, sep), sep, true) == Located(directory, filename, sep)
  {
    hide GetPrefixLength, SegsOf, Full, NoEmpties, Walk, IsDirectory, NamesDirectory, DirSegs, Names, Between,
        DirPrefix;
    var g := Below(directory, filename, sep);
    var d, b, n := DirSegs(directory, sep), Between(directory), Names(filename, sep);
    SegsBelow(directory, filename, sep);
    DirectoryBelow(directory, filename, sep);
    WalkConcat([], d + b, n);
    WalkConcat([], d, b);
    if Walk([], d).Some? { WalkBetween(Walk([], d).value, directory); }
  }

  // What a walk keeps are segments of the path that are neither "", nor "." nor "..".
  lemma {:induction false} WalkKeeps(at: Segs, path: Segs)
    requires Walk(at, path).Some?
    ensures forall s | s in Walk(at, path).value :: s in at || (s in path && s != "")
    decreases |path|
  {
    if path != [] {
      assert forall s | s in path[1..] :: s in path;
      if path[0] == "" || path[0] == "." {
        WalkKeeps(at, path[1..]);
      } else if path[0] == ".." {
        WalkKeeps(at[..|at| - 1], path[1..]);
      } else {
        WalkKeeps(at + [path[0]], path[1..]);
      }
    }
  }

  lemma EvenSegs(filename: string, segs: Segs, sep: char)
    requires IsSeparator(sep) && filename != "" && GetPrefixLength(filename) >= 0 && segs == SegsOf(filename, sep)
    ensures Clean(segs, sep) && forall s | s in segs :: Even(s, sep)
  {
    hide GetPrefixLength, Full, Even, Join, Split, Clean;
    SplitParts(filename, sep);
    FullEven(filename, sep);
    EvenPart(Full(filename, sep), GetPrefixLength(filename), sep);
    JoinEven(segs, sep);
  }

  // Behind the directory's prefix there is no separator.
  lemma NoSeparatorBehind(directory: string, filename: string, sep: char)
    requires IsSeparator(sep) && GetPrefixLength(directory) >= 0 && GetPrefixLength(filename) == 0
    requires Located(directory, filename, sep).Some?
    ensures var p, r := |DirPrefix(directory, sep)|, Located(directory, filename, sep).value;
      p <= |r| && (p < |r| ==> !IsSeparator(r[p]))
  {
    hide GetPrefixLength, SegsOf, Full, Walk, Join, Clean, Even, DirPrefix, NamesDirectory;
    var d, n := DirSegs(directory, sep), Names(filename, sep);
    var at := Walk([], d).value;
    var out := Walk(at, n).value;
    WalkKeeps([], d);
    WalkKeeps(at, n);
    if directory != "" { EvenSegs(directory, d, sep); }
    if filename != "" { EvenSegs(filename, n, sep); }
    assert forall s | s in out :: s != "" && (s in d || s in n);
    var prefix, directory' := DirPrefix(directory, sep), NamesDirectory(filename, sep);
    if out != [] {
      CleanOf(out, d, n, sep);
      FirstChar(prefix, out, sep, directory');
      assert out[0] in out;
      LongEnough(prefix, out, sep, directory');
    }
  }

  lemma CleanOf(out: Segs, d: Segs, n: Segs, sep: char)
    requires Clean(d, sep) && Clean(n, sep) && forall s | s in out :: s in d || s in n
    ensures Clean(out, sep)
  {
  }

  lemma LongEnough(prefix: string, out: Segs, sep: char, directory: bool)
    ensures |prefix| <= |Rendered(prefix, out, sep, directory)|
  {
    JoinEnd(out, sep);
  }

  // A whole with a longer prefix has the separator in it.
  lemma LongerPrefix(directory: string, filename: string, sep: char)
    requires IsSeparator(sep) && GetPrefixLength(directory) == |directory| && GetPrefixLength(filename) == 0
    requires GetPrefixLength(Below(directory, filename, sep)) > |directory|
    requires Normalized(Below(directory, filename, sep), sep, true).Some?
    ensures var r := Normalized(Below(directory, filename, sep), sep, true).value;
      |directory| < |r| && IsSeparator(r[|directory|])
  {
    hide GetPrefixLength, SegsOf, Fixed, Resolved, NoDots, DropEmpties, Join, IsDirectory;
    var g := Below(directory, filename, sep);
    SplitParts(g, sep);
    var p, out := GetPrefixLength(g), Resolved([], NoDots(DropEmpties(SegsOf(g, sep)))).value;
    assert g[|directory|] == sep;
    LongEnough(Full(g, sep)[..p], out, sep, IsDirectory(g, DropEmpties(SegsOf(g, sep))));
    JoinEnd(out, sep);
  }

  lemma DirPrefixAll(directory: string, sep: char)
    requires IsSeparator(sep) && GetPrefixLength(directory) == |directory|
    ensures |DirPrefix(directory, sep)| == |directory|
  {
  }

  // Going up past a segment is going up past nothing.
  lemma {:induction false} WalkLower(below: string, at: Segs, path: Segs)
    requires Walk([below] + at, path) == None
    ensures Walk(at, path) == None
    decreases |path|
  {
    if path != [] {
      if path[0] == "" || path[0] == "." {
        WalkLower(below, at, path[1..]);
      } else if path[0] == ".." {
        if at != [] {
          assert ([below] + at)[..|at|] == [below] + at[..|at| - 1];
          WalkLower(below, at[..|at| - 1], path[1..]);
        }
      } else {
        assert [below] + at + [path[0]] == [below] + (at + [path[0]]);
        WalkLower(below, at + [path[0]], path[1..]);
      }
    }
  }

  /** A name without a prefix means what it does below the working directory exactly if the directory goes on behind
      its prefix, and not with another separator; or if there is no such place and the name is refused. */
  lemma NormalizedBelow(directory: string, filename: string, sep: char)
    requires IsSeparator(sep) && GetPrefixLength(directory) >= 0 && GetPrefixLength(filename) == 0
    ensures var g, located := Below(directory, filename, sep), Located(directory, filename, sep);
      Normalized(g, sep, true) == located <==> IsPlace(directory) || (Refused(g, sep) && located == None)
  {
    hide GetPrefixLength, Normalized, Meant, Located, Walk, SegsOf, Full, Fixed, DirPrefix;
    var g, p := Below(directory, filename, sep), GetPrefixLength(directory);
    PrefixBelow(directory, filename, sep);
    NormalizedNone(g, sep, true);
    if GetPrefixLength(g) == p {
      MeantBelow(directory, filename, sep);
      NormalizedMeans(g, sep, true);
      if Walk([""], SegsOf(g, sep)) == None {
        assert [""] + [] == [""];
        WalkLower("", [], SegsOf(g, sep));
        assert Meant(g, sep, true) == None by { NoneMeant(g, sep); }
      }
    } else if Normalized(g, sep, true).Some? && Located(directory, filename, sep).Some? {
      DirPrefixAll(directory, sep);
      NoSeparatorBehind(directory, filename, sep);
      LongerPrefix(directory, filename, sep);
    }
  }

  lemma NoneMeant(filename: string, sep: char)
    requires IsSeparator(sep) && filename != "" && GetPrefixLength(filename) >= 0
        && Walk([], SegsOf(filename, sep)) == None
    ensures Meant(filename, sep, true) == None
  {
  }

  // How far a path goes up at last, and what it goes down from there.
  ghost function Net(ups: nat, downs: Segs, path: Segs): (net: (nat, Segs))
    ensures net.0 >= ups
    decreases |path|
  {
    if path == [] then (ups, downs)
    else if path[0] == "" || path[0] == "." then Net(ups, downs, path[1..])
    else if path[0] != ".." then Net(ups, downs + [path[0]], path[1..])
    else if downs == [] then Net(ups + 1, [], path[1..])
    else Net(ups, downs[..|downs| - 1], path[1..])
  }

  lemma {:induction false} WalkNet(at: Segs, ups: nat, downs: Segs, path: Segs)
    requires ups <= |at|
    ensures var net := Net(ups, downs, path);
      Walk(at[..|at| - ups] + downs, path) == if net.0 <= |at| then Some(at[..|at| - net.0] + net.1) else None
    decreases |path|
  {
    if path != [] {
      var base := at[..|at| - ups];
      if path[0] == "" || path[0] == "." {
        WalkNet(at, ups, downs, path[1..]);
      } else if path[0] != ".." {
        assert base + downs + [path[0]] == base + (downs + [path[0]]);
        WalkNet(at, ups, downs + [path[0]], path[1..]);
      } else if downs != [] {
        assert (base + downs)[..|base + downs| - 1] == base + downs[..|downs| - 1];
        WalkNet(at, ups, downs[..|downs| - 1], path[1..]);
      } else {
        assert base + downs == base;
        if ups < |at| {
          assert base[..|base| - 1] == at[..|at| - (ups + 1)] + [];
          WalkNet(at, ups + 1, [], path[1..]);
        }
      }
    }
  }

  // A walk has come to a place, or to one below it.
  ghost predicate LiesBelow(at: Segs, walked: Option<Segs>) {
    walked.Some? && at <= walked.value
  }

  /** A walk ends at or below where it starts exactly if it goes back down all that it has gone up. */
  lemma EndsBelow(at: Segs, path: Segs)
    ensures var (ups, downs) := Net(0, [], path);
      LiesBelow(at, Walk(at, path)) <==> ups <= |at| && at[|at| - ups..] <= downs
  {
    hide Walk, Net;
    var (ups, downs) := Net(0, [], path);
    assert at[..|at| - 0] + [] == at;
    WalkNet(at, 0, [], path);
    if ups <= |at| {
      var front, back := at[..|at| - ups], at[|at| - ups..];
      assert at == front + back;
      if back <= downs {
        assert front + downs == at + downs[|back|..];
      }
      if at <= front + downs {
        assert forall k | 0 <= k < |back| :: back[k] == at[|front| + k] == (front + downs)[|front| + k] == downs[k];
      }
    }
  }

  lemma {:induction false} WalkAbove(below: Segs, at: Segs, path: Segs)
    requires Walk(at, path).Some?
    ensures Walk(below + at, path) == Some(below + Walk(at, path).value)
    decreases |path|
  {
    if path != [] {
      if path[0] == "" || path[0] == "." {
        WalkAbove(below, at, path[1..]);
      } else if path[0] == ".." {
        assert (below + at)[..|below + at| - 1] == below + at[..|at| - 1];
        WalkAbove(below, at[..|at| - 1], path[1..]);
      } else {
        assert below + at + [path[0]] == below + (at + [path[0]]);
        WalkAbove(below, at + [path[0]], path[1..]);
      }
    }
  }

  // The step at which a walk leaves the place.
  lemma {:induction false} Leaves(at: Segs, downs: Segs, path: Segs) returns (k: nat)
    requires Walk(downs, path) == None
    ensures k <= |path| && !LiesBelow(at, Walk(at + downs, path[..k]))
    decreases |path|
  {
    var next := downs;
    if path[0] == ".." {
      if downs == [] {
        k := 1;
        assert at + downs == at && path[..1][1..] == [];
        return;
      }
      next := downs[..|downs| - 1];
      assert (at + downs)[..|at + downs| - 1] == at + next;
    } else if path[0] != "" && path[0] != "." {
      next := downs + [path[0]];
      assert at + downs + [path[0]] == at + next;
    }
    k := Leaves(at, next, path[1..]);
    assert path[..k + 1][1..] == path[1..][..k];
    k := k + 1;
  }

  /** The segments of a name walk from nowhere exactly if from any place they never leave it; and then they lead
      to that place with what they lead to from nowhere behind it. */
  lemma StaysBelow(at: Segs, path: Segs)
    ensures Walk([], path).Some? <==> forall k | 0 <= k <= |path| :: LiesBelow(at, Walk(at, path[..k]))
    ensures Walk([], path).Some? ==> Walk(at, path) == Some(at + Walk([], path).value)
  {
    hide Walk;
    assert at + [] == at;
    if Walk([], path) == None {
      var k := Leaves(at, [], path);
    } else {
      WalkAbove(at, [], path);
      forall k | 0 <= k <= |path| ensures LiesBelow(at, Walk(at, path[..k])) {
        assert path == path[..k] + path[k..];
        WalkConcat([], path[..k], path[k..]);
        WalkAbove(at, [], path[..k]);
      }
    }
  }

  // A name can leave the working directory and come back: its walk from nowhere fails, and it still ends there.
  lemma ComesBack()
    ensures Walk([], ["..", "a"]) == None && Walk(["a"], ["..", "a"]) == Some(["a"])
  {
    var path, one: Segs, none: Segs := ["..", "a"], ["a"], [];
    assert path[1..] == one && one[1..] == none && one[..0] == none && none + ["a"] == one;
    assert Walk(none, one) == Walk(one, none) == Some(one);
  }

  /** Below a working directory that is a place, a name that never leaves it is the directory with the name's own
      walk behind it. */
  lemma StaysInside(directory: string, filename: string, sep: char)
    requires IsSeparator(sep) && IsPlace(directory) && GetPrefixLength(filename) == 0
    requires Walk([], DirSegs(directory, sep)).Some? && Walk([], Names(filename, sep)).Some?
    ensures var at, names := Walk([], DirSegs(directory, sep)).value, Walk([], Names(filename, sep)).value;
      Normalized(Below(directory, filename, sep), sep, true)
        == Some(Rendered(DirPrefix(directory, sep), at + names, sep, NamesDirectory(filename, sep)))
  {
    hide Walk, Normalized, DirSegs, Names, DirPrefix, GetPrefixLength, Rendered, Refused, NamesDirectory;
    NormalizedBelow(directory, filename, sep);
    StaysBelow(Walk([], DirSegs(directory, sep)).value, Names(filename, sep));
  }

  // The root is no such place: the separator behind it makes another prefix, here an invalid one.
  lemma RootIsNoPlace()
    ensures Normalized(Below("/", "a", '/'), '/', true) == None && Located("/", "a", '/') == Some("/a")
  {
    hide Split, SegsOf;
    var one: Segs, none: Segs := ["a"], [];
    assert Below("/", "a", '/') == "//a" && IndexOf("//a", '/', 2) == -1 && IndexOf("//a", '\\', 2) == -1;
    assert GetPrefixLength("//a") == -1 && GetPrefixLength("/") == 1 && GetPrefixLength("a") == 0;
    assert Full("/", '/') == "/" && "/"[..1] == "/" && "/"[1..] == "" && Full("a", '/') == "a/" && "a/"[0..] == "a/";
    assert one[1..] == none && none + ["a"] == one && Join(one, '/') == "a/" && Join(none, '/') == "";
    SegsAre("/", none, '/');
    SegsAre("a", one, '/');
    assert Walk(none, one) == Walk(one, none) == Some(one);
    assert NoEmpties(one) == one && !IsDirectory("a", one);
    assert "/" + "a/" == "/a/" && "/a/"[..2] == "/a";
  }

  /** A name without a prefix is taken to lie in the working directory. */
  method Normalize(filename: Option<string>, workingDirectory: Option<string>,
      systemSeparator: char) returns (r: Option<string>)
    requires IsSeparator(systemSeparator)
    ensures r ==
      if filename.None? then None
      else if GetPrefixLength(filename.value) == 0 && workingDirectory.Some?
        then Normalized(Below(workingDirectory.value, filename.value, systemSeparator), systemSeparator, true)
      else Normalized(filename.value, systemSeparator, true)
    ensures filename.Some? && workingDirectory.Some? ==>
      var name, directory, sep := filename.value, workingDirectory.value, systemSeparator;
      GetPrefixLength(name) == 0 && GetPrefixLength(directory) >= 0 ==>
        (r == Located(directory, name, sep) <==>
          IsPlace(directory) || (Refused(Below(directory, name, sep), sep) && Located(directory, name, sep) == None))
    ensures filename.Some? && (GetPrefixLength(filename.value) != 0 || workingDirectory.None?) ==>
      var name := filename.value;
      (r == Meant(name, systemSeparator, true) <==>
        !SecondSeparator(name) || Walk([""], SegsOf(name, systemSeparator)) == None)
  {
    hide GetPrefixLength, Normalized, Located, Meant, Refused, IsPlace, Walk, SegsOf;
    var name := filename;
    var prefix := if filename.None? then -1 else GetPrefixLength(filename.value);
    if prefix == 0 && workingDirectory.Some? {
      name := Some(workingDirectory.value + [systemSeparator] + filename.value);
      if GetPrefixLength(workingDirectory.value) >= 0 {
        NormalizedBelow(workingDirectory.value, filename.value, systemSeparator);
      }
    } else if filename.Some? {
      NormalizedMeans(filename.value, systemSeparator, true);
    }
    r := DoNormalize(name, systemSeparator, true);
  }
}
