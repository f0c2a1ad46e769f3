// Prefixes and ends of file names, character by character.
module PathPrefix {
  import opened Prelude
  import opened PathNormalization
  import opened PathMeaning
  import opened PathTwice

  predicate IsSlash(ch: char) {
    ch == '/' || ch == '\\'
  }

  // The first slash of either kind at or behind i stands at k.
  ghost predicate FirstSlash(s: string, i: nat, k: nat) {
    i <= k < |s| && IsSlash(s[k]) && forall j | i <= j < k :: !IsSlash(s[j])
  }

  lemma SlashAt(s: string, i: nat)
    requires i <= |s|
    ensures var r := FirstSeparator(s, i);
      if forall j | i <= j < |s| :: !IsSlash(s[j]) then r == |s| + 1 else r >= 1 && FirstSlash(s, i, r - 1)
  {
    var r := FirstSeparator(s, i);
    assert forall j | i <= j < r - 1 :: !IsSeparator(s[j]);
    if r <= |s| { assert IsSeparator(s[r - 1]); }
  }

  /** A drive is an ASCII letter of either case with a colon behind it, and a slash if there is one. */
  lemma DriveLength(s: string)
    requires |s| >= 2 && s[1] == ':' && ('a' <= s[0] <= 'z' || 'A' <= s[0] <= 'Z')
    ensures GetPrefixLength(s) == if |s| >= 3 && (s[2] == '/' || s[2] == '\\') then 3 else 2
  {
    PrefixIs(s);
  }

  /** With a colon behind it, every other character makes the name invalid, but for a tilde, and for the two
      characters outside ASCII whose upper case is a letter of it. */
  lemma NoDrive(s: string)
    requires |s| >= 2 && s[1] == ':' && !('a' <= s[0] <= 'z' || 'A' <= s[0] <= 'Z') && s[0] != '~'
    ensures GetPrefixLength(s) ==
      if s[0] != '\U{0131}' && s[0] != '\U{017F}' then -1
      else if |s| >= 3 && (s[2] == '/' || s[2] == '\\') then 3 else 2
  {
    PrefixIs(s);
  }

  /** A tilde makes a prefix up to the first slash, or of the whole name and a slash to come. */
  lemma HomeLength(s: string)
    requires s != "" && s[0] == '~'
    ensures var p := GetPrefixLength(s);
      if forall j | 1 <= j < |s| :: !IsSlash(s[j]) then p == |s| + 1 else p >= 1 && FirstSlash(s, 1, p - 1)
  {
    hide GetPrefixLength;
    PrefixIs(s);
    SlashAt(s, 1);
  }

  /** Two slashes make a prefix with the server's name and the slash behind it, and both must be there. */
  lemma ServerLength(s: string)
    requires |s| >= 2 && IsSlash(s[0]) && IsSlash(s[1])
    ensures var p := GetPrefixLength(s);
      if (forall j | 2 <= j < |s| :: !IsSlash(s[j])) || IsSlash(s[2]) then p == -1
        else p >= 1 && FirstSlash(s, 2, p - 1)
  {
    hide GetPrefixLength, FirstSeparator;
    PrefixIs(s);
    SlashAt(s, 2);
  }

  /** All other names: one slash is the root, a colon in front is invalid, and everything else has no prefix. */
  lemma OtherLength(s: string)
    requires |s| >= 2 ==> s[1] != ':' && !(IsSlash(s[0]) && IsSlash(s[1]))
    requires s != "" ==> s[0] != '~'
    ensures GetPrefixLength(s) == if s == "" then 0 else if s[0] == ':' then -1 else if IsSlash(s[0]) then 1 else 0
  {
    if s != "" { PrefixIs(s); }
  }

  /** A name on a drive comes to nothing only if it goes up past the drive's root; else it stays on that drive. */
  lemma DriveStays(filename: string, sep: char, keepSeparator: bool)
    requires IsSeparator(sep) && |filename| >= 2 && filename[1] == ':'
    requires 'a' <= filename[0] <= 'z' || 'A' <= filename[0] <= 'Z'
    ensures var bottom: Segs := if |filename| >= 4 && IsSlash(filename[2]) && IsSlash(filename[3]) then [""] else [];
      Normalized(filename, sep, keepSeparator) == None <==> Walk(bottom, SegsOf(filename, sep)) == None
    ensures var r := Normalized(filename, sep, keepSeparator);
      r.Some? ==> |r.value| >= 2 && r.value[0] == filename[0] && r.value[1] == ':'
  {
    hide GetPrefixLength, Walk, SegsOf, Full, Rendered, Resolved, NoDots, DropEmpties, IsDirectory;
    DriveLength(filename);
    NormalizedNone(filename, sep, keepSeparator);
    SplitParts(filename, sep);
    if Normalized(filename, sep, keepSeparator).Some? {
      var segs := DropEmpties(SegsOf(filename, sep));
      var prefix := Full(filename, sep)[..GetPrefixLength(filename)];
      Begins(prefix, Resolved([], NoDots(segs)).value, sep, keepSeparator && IsDirectory(filename, segs));
      assert prefix[0] == filename[0] && prefix[1] == ':';
    }
  }

  lemma Begins(prefix: string, segs: Segs, sep: char, directory: bool)
    ensures var r := Rendered(prefix, segs, sep, directory);
      |prefix| <= |r| && forall k | 0 <= k < |prefix| :: r[k] == prefix[k]
  {
    JoinEnd(segs, sep);
  }

  lemma SmallSegs()
    ensures GetPrefixLength("c:/a/../b") == 3 && Full("c:/a/../b", '/') == "c:/a/../b/"
    ensures SegsOf("c:/a/../b", '/') == ["a", "..", "b"]
  {
    hide Split, SegsOf, GetPrefixLength;
    var f, segs, two: Segs, one: Segs, none: Segs := "c:/a/../b", ["a", "..", "b"], ["..", "b"], ["b"], [];
    assert Full(f, '/') == "c:/a/../b/" && "c:/a/../b/"[3..] == "a/../b/";
    DriveLength(f);
    assert segs[1..] == two && two[1..] == one && one[1..] == none;
    assert Join(one, '/') == "b/" && Join(two, '/') == "../b/" && Join(segs, '/') == "a/../b/";
    SegsAre(f, segs, '/');
  }

  // A drive may be written small.
  lemma SmallDrive()
    ensures Normalized("c:/a/../b", '/', true) == Some("c:/b")
  {
    hide Split, SegsOf, GetPrefixLength, Full;
    var f, segs, two: Segs, one: Segs, none: Segs := "c:/a/../b", ["a", "..", "b"], ["..", "b"], ["b"], [];
    SmallSegs();
    assert segs[1..] == two && two[1..] == one && one[1..] == none && "c:/a/../b/"[..3] == "c:/";
    assert NoEmpties(one) == one && NoEmpties(two) == two && DropEmpties(segs) == segs;
    assert NoDots(one) == one && NoDots(two) == two && NoDots(segs) == segs;
    ResolvedPlain([], one);
    assert none + one == one && none + ["a"] == ["a"] && ["a"][..0] == none;
    assert Resolved(["a"], two) == Resolved(none, one) && Resolved(none, segs) == Resolved(["a"], two);
    assert Join(one, '/') == "b/";
    assert !IsDirectory(f, segs) && Rendered("c:/", one, '/', false) == "c:/b";
  }

  // The characters say that the name is a directory: a slash at the end, or nothing but one dot or two behind the last
  // slash, or behind the prefix.
  predicate LooksLikeDirectory(filename: string, prefix: nat)
    requires filename != ""
  {
    var n := |filename|;
    || IsSlash(filename[n - 1])
    || (n >= prefix + 1 && filename[n - 1] == '.' && (n == prefix + 1 || IsSlash(filename[n - 2])))
    || (n >= prefix + 2 && filename[n - 1] == '.' && filename[n - 2] == '.' &&
      (n == prefix + 2 || IsSlash(filename[n - 3])))
  }

  // The name ends in last, which begins behind a slash or behind the prefix and has none itself.
  ghost predicate IsLastPart(filename: string, prefix: nat, last: string) {
    && 0 < |last| <= |filename| - prefix
    && (forall k | 0 <= k < |last| :: last[k] == filename[|filename| - |last| + k] && !IsSlash(last[k]))
    && (|last| == |filename| - prefix || IsSlash(filename[|filename| - |last| - 1]))
  }

  // The last segment is what stands behind the last slash.
  lemma LastIs(filename: string, sep: char)
    requires IsSeparator(sep) && filename != "" && 0 <= GetPrefixLength(filename) && !IsSlash(filename[|filename| - 1])
    requires SegsOf(filename, sep) != [] && GetPrefixLength(filename) < |filename|
    ensures var segs := SegsOf(filename, sep); IsLastPart(filename, GetPrefixLength(filename), segs[|segs| - 1])
  {
    hide GetPrefixLength, Join, SegsOf, Full, Clean, Solid, DropEmpties, NoDots, IsLastPart;
    var segs, p, n, full := SegsOf(filename, sep), GetPrefixLength(filename), |filename|, Full(filename, sep);
    SplitParts(filename, sep);
    var front, last := segs[..|segs| - 1], segs[|segs| - 1];
    assert segs == front + [last];
    JoinSnoc(front, last, sep);
    JoinEnd(front, sep);
    var j := Join(front, sep);
    assert full[p..] == j + last + [sep];
    Pieces(full, p, j, last, sep);
    FrontClean(segs, sep);
    LastPart(filename, full, p, j, last, sep);
  }

  lemma LastPart(filename: string, full: string, p: nat, front: string, last: string, sep: char)
    requires IsSeparator(sep) && filename != "" && full == Full(filename, sep) && !IsSlash(filename[|filename| - 1])
    requires |full| == p + |front| + |last| + 1 && sep !in last && p < |filename|
    requires forall k | 0 <= k < |last| :: full[p + |front| + k] == last[k]
    requires front != "" ==> full[p + |front| - 1] == sep
    ensures IsLastPart(filename, p, last)
  {
    hide Full;
    var n := |filename|;
    assert |full| == n + 1;
    forall k | 0 <= k < |last| ensures last[k] == filename[n - |last| + k] && !IsSlash(last[k]) {
      NotSlash(filename, full, last, p + |front|, k, sep);
    }
    if front != "" { SlashBefore(filename, full, p + |front| - 1, sep); }
  }

  lemma SlashBefore(filename: string, full: string, k: nat, sep: char)
    requires IsSeparator(sep) && filename != "" && full == Full(filename, sep) && k < |filename| && full[k] == sep
    ensures IsSlash(filename[k])
  {
  }

  lemma NotSlash(filename: string, full: string, last: string, at: nat, k: nat, sep: char)
    requires IsSeparator(sep) && filename != "" && full == Full(filename, sep) && sep !in last
    requires k < |last| && at + k < |filename| && full[at + k] == last[k]
    ensures last[k] == filename[at + k] && !IsSlash(last[k])
  {
    assert last[k] in last;
  }

  lemma Pieces(full: string, p: nat, front: string, last: string, sep: char)
    requires p <= |full| && full[p..] == front + last + [sep]
    ensures |full| == p + |front| + |last| + 1
    ensures forall k | 0 <= k < |last| :: full[p + |front| + k] == last[k]
    ensures front != "" ==> full[p + |front| - 1] == front[|front| - 1]
  {
    var t := full[p..];
    assert forall k | 0 <= k < |last| :: t[|front| + k] == last[k];
    if front != "" { assert t[|front| - 1] == front[|front| - 1]; }
  }

  // A last segment of one dot, or of two, is what the characters say.
  lemma DotsLast(filename: string, sep: char)
    requires IsSeparator(sep) && filename != "" && 0 <= GetPrefixLength(filename) && !IsSlash(filename[|filename| - 1])
    requires SegsOf(filename, sep) != [] && GetPrefixLength(filename) < |filename|
    ensures IsDirectory(filename, DropEmpties(SegsOf(filename, sep)))
      <==> LooksLikeDirectory(filename, GetPrefixLength(filename))
  {
    hide GetPrefixLength, SegsOf, DropEmpties;
    var segs, p, n := SegsOf(filename, sep), GetPrefixLength(filename), |filename|;
    LastIs(filename, sep);
    DropEmptiesEnd(segs);
    var last := segs[|segs| - 1];
    assert last[|last| - 1] == filename[n - 1];
    if |last| >= 2 { assert last[|last| - 2] == filename[n - 2]; }
    if |last| >= 3 { assert last[|last| - 3] == filename[n - 3]; }
  }

  /** With the trailing separator kept, a name that comes to more than its prefix ends in a separator exactly if it
      looks like a directory. */
  lemma TrailingSeparator(filename: string, sep: char)
    requires IsSeparator(sep) && filename != "" && GetPrefixLength(filename) >= 0
    requires Normalized(filename, sep, true).Some?
        && |Normalized(filename, sep, true).value| > GetPrefixLength(filename)
    ensures var r := Normalized(filename, sep, true).value;
      r[|r| - 1] == sep <==> LooksLikeDirectory(filename, GetPrefixLength(filename))
  {
    hide GetPrefixLength, SegsOf, DropEmpties, NoDots, Resolved, Full, Join, IsDirectory;
    var segs, p, full := SegsOf(filename, sep), GetPrefixLength(filename), Full(filename, sep);
    var out, directory := Resolved([], NoDots(DropEmpties(segs))).value, IsDirectory(filename, DropEmpties(segs));
    SplitParts(filename, sep);
    OutFacts(filename, sep);
    FirstEmpty(filename, sep);
    FewSegs(filename, sep);
    if IsSeparator(filename[|filename| - 1]) {
      EndsDirectory(filename, DropEmpties(segs));
    } else {
      assert !IsSlash(filename[|filename| - 1]);
      DotsLast(filename, sep);
    }
    JoinEnd(out, sep);
    if out != [] {
      JoinLast(out, sep);
      LastInside(full[..p], out, sep, directory);
    }
  }

  // Where nothing stands behind the prefix, the prefix is all that comes out.
  lemma FewSegs(filename: string, sep: char)
    requires IsSeparator(sep) && filename != "" && GetPrefixLength(filename) >= 0
    requires Normalized(filename, sep, true).Some?
        && |Normalized(filename, sep, true).value| > GetPrefixLength(filename)
    ensures SegsOf(filename, sep) != [] && GetPrefixLength(filename) < |filename|
    ensures SegsOf(filename, sep) == [""] ==> IsSeparator(filename[|filename| - 1])
  {
    hide GetPrefixLength, SegsOf, Full;
    var segs, p := SegsOf(filename, sep), GetPrefixLength(filename);
    SplitParts(filename, sep);
    FirstEmpty(filename, sep);
    NoSegs(sep);
    OneEmpty();
    RenderedOne(Full(filename, sep)[..p], sep);
    if p >= |filename| { JoinEnd(segs, sep); }
    assert !IsSeparator(filename[|filename| - 1]) ==> !IsDirectory(filename, [""]) && !IsDirectory(filename, []);
  }

  lemma LastInside(prefix: string, out: Segs, sep: char, directory: bool)
    requires out != [] && Clean(out, sep) && |Rendered(prefix, out, sep, directory)| > |prefix|
    requires directory || out[|out| - 1] != ""
    ensures var r := Rendered(prefix, out, sep, directory); r[|r| - 1] == sep <==> directory
  {
    hide Join;
    JoinLast(out, sep);
    JoinEnd(out, sep);
    var last := out[|out| - 1];
    assert last in out;
    if last != "" { assert last[|last| - 1] in last; }
  }
}
