// What a path means, and when the three passes find that out.
module PathMeaning {
  import opened Prelude
  import opened PathNormalization

  // Walking a path from some directory: "" and "." stay, ".." goes up, anything else goes down.
  ghost function Walk(at: Segs, path: Segs): Option<Segs>
    decreases |path|
  {
    if path == [] then Some(at)
    else if path[0] == "" || path[0] == "." then Walk(at, path[1..])
    else if path[0] == ".." then (if at == [] then None else Walk(at[..|at| - 1], path[1..]))
    else Walk(at + [path[0]], path[1..])
  }

  // The three passes, one after the other, walk the path.
  lemma {:induction false} PassesWalk(at: Segs, path: Segs)
    ensures Resolved(at, NoDots(NoEmpties(path))) == Walk(at, path)
    decreases |path|
  {
    if path != [] {
      var rest := NoDots(NoEmpties(path[1..]));
      if path[0] == "" || path[0] == "." {
        PassesWalk(at, path[1..]);
      } else {
        assert NoDots(NoEmpties(path)) == [path[0]] + rest;
        assert ([path[0]] + rest)[1..] == rest;
        if path[0] == ".." {
          if at != [] { PassesWalk(at[..|at| - 1], path[1..]); }
        } else {
          PassesWalk(at + [path[0]], path[1..]);
        }
      }
    }
  }

  // What a file name means: walk from the prefix, and nothing above it.
  ghost function Meant(filename: string, sep: char, keepSeparator: bool): Option<string>
    requires IsSeparator(sep)
  {
    if filename == "" then Some("")
    else if GetPrefixLength(filename) < 0 then None
    else
      var segs := SegsOf(filename, sep);
      match Walk([], segs)
      case None => None
      case Some(out) =>
        var directory := keepSeparator && IsDirectory(filename, NoEmpties(segs));
        Some(Rendered(Full(filename, sep)[..GetPrefixLength(filename)], out, sep, directory))
  }

  // The name has another separator right behind its prefix.
  predicate SecondSeparator(filename: string) {
    var prefix := GetPrefixLength(filename);
    0 <= prefix < |filename| && IsSeparator(filename[prefix])
  }

  /** The passes keep a second separator behind the prefix as a segment of its own. Names without one are normalized
      to what they mean. A name with one is so only if its walk goes up past that segment too, or if it is left
      with nothing else and the trailing separator is not kept. */
  lemma NormalizedMeans(filename: string, sep: char, keepSeparator: bool)
    requires IsSeparator(sep)
    ensures Normalized(filename, sep, keepSeparator) == Meant(filename, sep, keepSeparator)
      <==> !SecondSeparator(filename) || Walk([""], SegsOf(filename, sep)) == None
           || (!keepSeparator && Walk([], SegsOf(filename, sep)) == Some([]))
  {
    hide Join, Split, Full, Rendered, Resolved, Walk, NoDots, NoEmpties, IsDirectory;
    if filename != "" && GetPrefixLength(filename) >= 0 {
      var segs := SegsOf(filename, sep);
      SplitParts(filename, sep);
      PassesWalk([], segs);
      FirstEmpty(filename, sep);
      if segs == [] || segs[0] != "" {
        assert DropEmpties(segs) == NoEmpties(segs);
      } else {
        LeadingEmpty(filename, sep, keepSeparator);
      }
    }
  }

  // The prefix is invalid, or the walk goes up past what the passes keep.
  ghost predicate Refused(filename: string, sep: char)
    requires IsSeparator(sep)
  {
    filename != ""
    && (GetPrefixLength(filename) < 0
        || Walk(if SecondSeparator(filename) then [""] else [], SegsOf(filename, sep)) == None)
  }

  /** Exactly these names come to nothing. */
  lemma NormalizedNone(filename: string, sep: char, keepSeparator: bool)
    requires IsSeparator(sep)
    ensures Normalized(filename, sep, keepSeparator) == None <==> Refused(filename, sep)
  {
    hide Join, Split, Full, Rendered, Resolved, Walk, NoDots, NoEmpties, IsDirectory;
    if filename != "" && GetPrefixLength(filename) >= 0 {
      var segs := SegsOf(filename, sep);
      SplitParts(filename, sep);
      PassesWalk([], segs);
      PassesWalk([""], segs);
      FirstEmpty(filename, sep);
      if segs == [] || segs[0] != "" {
        assert DropEmpties(segs) == NoEmpties(segs);
      } else {
        NoEmptiesFirst(segs);
        AboveEmpty(NoEmpties(segs[1..]));
        if !SecondSeparator(filename) {
          OneEmpty();
          assert segs == [""] && segs[1..] == [] && [""] + [] == [""];
        }
      }
    }
  }

  // The first segment is empty if there is a second separator, or nothing but a drive.
  lemma FirstEmpty(filename: string, sep: char)
    requires IsSeparator(sep) && filename != "" && GetPrefixLength(filename) >= 0
    ensures var segs, prefix := SegsOf(filename, sep), GetPrefixLength(filename);
      && (segs != [] && segs[0] == "" <==> SecondSeparator(filename) || prefix == |filename| < |Full(filename, sep)|)
      && (prefix == |filename| < |Full(filename, sep)| ==> segs == [""])
      && (segs == [""] ==> IsSeparator(filename[|filename| - 1]) || prefix == |filename|)
  {
    hide GetPrefixLength;
    var segs, full, prefix := SegsOf(filename, sep), Full(filename, sep), GetPrefixLength(filename);
    SplitParts(filename, sep);
    if segs != [] {
      FirstSeg(segs, sep);
      if segs == [""] { assert |Join(segs, sep)| == 1 by { JoinEnd(segs[1..], sep); } }
      if prefix == |filename| < |full| {
        assert full[prefix..] == [sep];
        JoinEnd(segs[1..], sep);
      }
    } else {
      NoSegs(sep);
    }
  }

  // A segment below everything that is walked stays there.
  lemma {:induction false} ResolvedAbove(below: string, at: Segs, rest: Segs)
    requires Resolved(at, rest).Some?
    ensures Resolved([below] + at, rest) == Some([below] + Resolved(at, rest).value)
    decreases |rest|
  {
    if rest != [] {
      if rest[0] == ".." {
        ResolvedAbove(below, at[..|at| - 1], rest[1..]);
        assert ([below] + at)[..|at|] == [below] + at[..|at| - 1];
      } else {
        ResolvedAbove(below, at + [rest[0]], rest[1..]);
        assert [below] + at + [rest[0]] == [below] + (at + [rest[0]]);
      }
    }
  }

  // A last segment that is no ".." is still the last at the end.
  lemma {:induction false} ResolvedLast(at: Segs, rest: Segs)
    requires Resolved(at, rest).Some? && rest != [] && rest[|rest| - 1] != ".."
    ensures EndsIn(Resolved(at, rest).value, rest[|rest| - 1])
    decreases |rest|
  {
    if |rest| > 1 {
      ResolvedLast(if rest[0] == ".." then at[..|at| - 1] else at + [rest[0]], rest[1..]);
    } else {
      assert Resolved(at + [rest[0]], rest[1..]) == Some(at + [rest[0]]);
    }
  }

  lemma {:induction false} NoEmptiesSnoc(segs: Segs, s: string)
    ensures NoEmpties(segs + [s]) == if s == "" then NoEmpties(segs) else NoEmpties(segs) + [s]
  {
    if segs == [] {
      assert segs + [s] == [s];
    } else {
      NoEmptiesSnoc(segs[1..], s);
      assert (segs + [s])[1..] == segs[1..] + [s];
    }
  }

  // A name that does not end in a separator does not end in an empty segment.
  lemma LastNotEmpty(filename: string, sep: char)
    requires IsSeparator(sep) && filename != "" && GetPrefixLength(filename) >= 0
        && !IsSeparator(filename[|filename| - 1])
    ensures var segs := SegsOf(filename, sep); segs == [] || segs == [""] || segs[|segs| - 1] != ""
  {
    hide GetPrefixLength, Split, Join, SegsOf, Fixed;
    var segs, full, prefix := SegsOf(filename, sep), Full(filename, sep), GetPrefixLength(filename);
    SplitParts(filename, sep);
    if segs != [] && segs != [""] && segs[|segs| - 1] == "" { EmptyLast(segs, sep); }
  }

  // An empty last segment shows as two separators, or as the only one.
  lemma EmptyLast(segs: Segs, sep: char)
    requires segs != [] && segs != [""] && segs[|segs| - 1] == ""
    ensures var t := Join(segs, sep); |t| >= 2 && t[|t| - 2] == sep
  {
    hide Join;
    var front := segs[..|segs| - 1];
    assert segs == front + [""];
    JoinSnoc(front, "", sep);
    JoinEnd(front, sep);
  }

  lemma DropEmptiesEnd(segs: Segs)
    requires segs != [] && segs[|segs| - 1] != ""
    ensures EndsIn(DropEmpties(segs), segs[|segs| - 1])
  {
    var last := segs[|segs| - 1];
    if segs[0] == "" {
      var rest := segs[1..];
      assert rest == rest[..|rest| - 1] + [last];
      NoEmptiesSnoc(rest[..|rest| - 1], last);
    } else {
      assert segs == segs[..|segs| - 1] + [last];
      NoEmptiesSnoc(segs[..|segs| - 1], last);
    }
  }

  // A name that is no directory ends in a segment that the passes keep.
  lemma KeepsLast(filename: string, sep: char)
    requires IsSeparator(sep) && filename != "" && GetPrefixLength(filename) >= 0
    requires var segs := SegsOf(filename, sep); segs != [] && segs != [""] && !IsDirectory(filename, DropEmpties(segs))
    ensures var segs := SegsOf(filename, sep);
      var last := segs[|segs| - 1];
      last != "" && last != "." && last != ".." && EndsIn(NoDots(DropEmpties(segs)), last)
  {
    hide GetPrefixLength, NoEmpties, NoDots, DropEmpties, SegsOf;
    var segs := SegsOf(filename, sep);
    LastNotEmpty(filename, sep);
    DropEmptiesEnd(segs);
    var r, last := DropEmpties(segs), segs[|segs| - 1];
    NoDotsSnoc(r[..|r| - 1], last);
    assert r == r[..|r| - 1] + [last];
  }

  lemma LeadingEmpty(filename: string, sep: char, keepSeparator: bool)
    requires IsSeparator(sep) && filename != "" && GetPrefixLength(filename) >= 0
    requires SegsOf(filename, sep) != [] && SegsOf(filename, sep)[0] == ""
    ensures Normalized(filename, sep, keepSeparator) == Meant(filename, sep, keepSeparator)
      <==> !SecondSeparator(filename) || Walk([""], SegsOf(filename, sep)) == None
           || (!keepSeparator && Walk([], SegsOf(filename, sep)) == Some([]))
  {
    hide GetPrefixLength, Full, Join, Walk, Split, Rendered, NoDots, NoEmpties, Resolved, IsDirectory;
    var segs, prefix := SegsOf(filename, sep), Full(filename, sep)[..GetPrefixLength(filename)];
    SplitParts(filename, sep);
    FirstEmpty(filename, sep);
    PassesWalk([], segs);
    PassesWalk([""], segs);
    NoEmptiesFirst(segs);
    RenderedOne(prefix, sep);
    if !SecondSeparator(filename) {
      OneEmpty();
      assert segs == [""] && segs[1..] == [] && [""] + [] == [""];
      assert !IsDirectory(filename, [""]) && !IsDirectory(filename, []) by { DriveOnly(filename); }
    } else {
      var r := NoEmpties(segs[1..]);
      AboveEmpty(r);
      if Resolved([], NoDots(r)).Some? {
        var out, directory := Resolved([], NoDots(r)).value, IsDirectory(filename, r);
        SameEnd(filename, r);
        EndsDirectory(filename, r);
        if !directory { KeepsLast(filename, sep); EndAbove(r, segs[|segs| - 1]); ResolvedLast([], NoDots(r)); }
        if (keepSeparator && directory) || out != [] {
          RenderedMore(prefix, out, sep, keepSeparator && directory);
        } else {
          assert [""] + out == [""];
        }
      }
    }
  }

  lemma NoEmptiesFirst(segs: Segs)
    requires segs != [] && segs[0] == ""
    ensures DropEmpties(segs) == [""] + NoEmpties(segs[1..]) && NoEmpties(segs) == NoEmpties(segs[1..])
  {
  }

  lemma DriveOnly(filename: string)
    requires filename != "" && !IsSeparator(filename[|filename| - 1])
    ensures !IsDirectory(filename, [""]) && !IsDirectory(filename, [])
  {
  }

  lemma OneEmpty()
    ensures NoEmpties([]) == [] && NoDots([""]) == [""] && Resolved([], [""]) == Some([""])
        && Resolved([], []) == Some([]) && NoDots([]) == []
  {
    var one, none: Segs := [""], [];
    assert one[1..] == none && none + [one[0]] == one;
    assert Resolved(one, none) == Some(one);
  }

  // An empty segment at the front lies below all others.
  lemma AboveEmpty(r: Segs)
    ensures Resolved([], NoDots([""] + r)) == Resolved([""], NoDots(r))
    ensures Resolved([], NoDots(r)).Some? ==> Resolved([""], NoDots(r)) == Some([""] + Resolved([], NoDots(r)).value)
  {
    var s := NoDots(r);
    assert ([""] + r)[1..] == r && NoDots([""] + r) == [""] + s;
    assert ([""] + s)[1..] == s && [] + [""] == [""] == [""] + [];
    assert Resolved([], [""] + s) == Resolved([""], s);
    if Resolved([], s).Some? { ResolvedAbove("", [], s); }
  }

  lemma EndAbove(r: Segs, last: string)
    requires EndsIn(NoDots([""] + r), last) && last != ""
    ensures EndsIn(NoDots(r), last)
  {
    assert ([""] + r)[1..] == r;
    assert NoDots([""] + r) == [""] + NoDots(r);
  }

  lemma EndsDirectory(filename: string, r: Segs)
    requires filename != ""
    ensures IsSeparator(filename[|filename| - 1]) ==> IsDirectory(filename, r)
  {
  }

  lemma SameEnd(filename: string, r: Segs)
    requires filename != ""
    ensures IsDirectory(filename, [""] + r) == IsDirectory(filename, r)
  {
  }

  lemma RenderedOne(prefix: string, sep: char)
    ensures Rendered(prefix, [""], sep, false) == prefix && Rendered(prefix, [], sep, false) == prefix
  {
    assert Join([""], sep) == [sep];
    assert (prefix + [sep])[..|prefix|] == prefix;
  }

  lemma RenderedMore(prefix: string, out: Segs, sep: char, directory: bool)
    requires directory || out != []
    ensures Rendered(prefix, [""] + out, sep, directory) != Rendered(prefix, out, sep, directory)
  {
    assert ([""] + out)[1..] == out;
    JoinEnd(out, sep);
    assert Join([""] + out, sep) == "" + [sep] + Join(out, sep);
    assert |Rendered(prefix, [""] + out, sep, directory)| == |Rendered(prefix, out, sep, directory)| + 1;
  }

  lemma {:induction false} ResolvedPlain(at: Segs, rest: Segs)
    requires ".." !in rest
    ensures Resolved(at, rest) == Some(at + rest)
    decreases |rest|
  {
    if rest == [] {
      assert at + rest == at;
    } else {
      ResolvedPlain(at + [rest[0]], rest[1..]);
      assert at + rest == at + [rest[0]] + rest[1..];
    }
  }

  lemma SegsAre(filename: string, segs: Segs, sep: char)
    requires IsSeparator(sep) && filename != "" && GetPrefixLength(filename) >= 0 && Clean(segs, sep)
    requires GetPrefixLength(filename) <= |Full(filename, sep)|
        && Join(segs, sep) == Full(filename, sep)[GetPrefixLength(filename)..]
    ensures SegsOf(filename, sep) == segs
  {
    SplitParts(filename, sep);
    SplitUnique(SegsOf(filename, sep), segs, sep);
  }

  // A second separator stays where it is.
  lemma SecondSeparatorStays()
    ensures Normalized("C://a", '/', true) == Some("C://a") && Meant("C://a", '/', true) == Some("C:/a")
  {
    hide Split, SegsOf;
    var f, segs, one: Segs, none: Segs := "C://a", ["", "a"], ["a"], [];
    assert GetPrefixLength(f) == 3 && Full(f, '/') == "C://a/";
    assert segs[1..] == one && one[1..] == none;
    assert Join(one, '/') == "a/" && Join(segs, '/') == "/a/";
    SegsAre(f, segs, '/');
    assert NoEmpties(one) == one && DropEmpties(segs) == segs && NoEmpties(segs) == one;
    assert NoDots(one) == one && NoDots(segs) == segs;
    ResolvedPlain([], segs);
    ResolvedPlain([], one);
    PassesWalk([], segs);
    assert none + segs == segs && none + one == one;
    assert !IsDirectory(f, segs) && !IsDirectory(f, one) && "C://a/"[..3] == "C:/";
    assert Rendered("C:/", segs, '/', false) == "C://a" && Rendered("C:/", one, '/', false) == "C:/a";
  }
}
