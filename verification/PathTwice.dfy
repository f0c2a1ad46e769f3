// When normalizing a path again changes nothing.
module PathTwice {
  import opened Prelude
  import opened PathNormalization
  import opened PathMeaning

  // A name without a colon and a tilde.
  predicate Plain(s: string) {
    ':' !in s && '~' !in s
  }

  lemma {:induction false} ResolvedFacts(at: Segs, rest: Segs)
    requires Resolved(at, rest).Some? && Solid(at) && NoneEmpty(rest)
    ensures var out := Resolved(at, rest).value;
      Solid(out) && (NoneEmpty(at) ==> NoneEmpty(out)) && forall s | s in out :: s in at || (s in rest && s != "..")
    decreases |rest|
  {
    if rest != [] {
      RestFacts(rest);
      assert forall s | s in rest[1..] :: s in rest;
      var at' := if rest[0] == ".." then at[..|at| - 1] else at + [rest[0]];
      assert forall s | s in at' :: s in at || (s == rest[0] && s != "..");
      ResolvedFacts(at', rest[1..]);
    }
  }

  lemma {:induction false} KeepAll(segs: Segs)
    ensures NoneEmpty(segs) ==> NoEmpties(segs) == segs
    ensures "." !in segs ==> NoDots(segs) == segs
  {
    if segs != [] {
      KeepAll(segs[1..]);
      assert segs == [segs[0]] + segs[1..];
      assert forall s | s in segs[1..] :: s in segs;
      assert segs[0] in segs;
    }
  }

  // Segments that the passes leave as they are.
  ghost predicate Final(segs: Segs, sep: char) {
    Clean(segs, sep) && Solid(segs) && "." !in segs && ".." !in segs
  }

  lemma FinalStays(segs: Segs, sep: char)
    requires Final(segs, sep)
    ensures DropEmpties(segs) == segs && NoDots(segs) == segs && Resolved([], segs) == Some(segs)
    ensures !EndsIn(segs, ".") && !EndsIn(segs, "..")
  {
    KeepAll(segs);
    ResolvedPlain([], segs);
    assert [] + segs == segs;
    if segs != [] {
      var rest := segs[1..];
      forall s | s in rest ensures s != "" {
        var k :| 0 <= k < |rest| && rest[k] == s;
        assert segs[k + 1] == s;
      }
      KeepAll(rest);
      if segs[0] == "" { assert segs == [""] + rest; } else { assert forall k | 0 <= k < |segs| :: segs[k] != ""; }
    }
  }

  lemma OutIn(filename: string, sep: char)
    requires IsSeparator(sep) && filename != "" && GetPrefixLength(filename) >= 0
    ensures var segs := SegsOf(filename, sep);
      var s := NoDots(DropEmpties(segs));
      && Solid(s) && (forall x | x in s :: x in segs && x != ".") && (segs == [] || segs[0] != "" ==> NoneEmpty(s))
  {
    hide GetPrefixLength, Full, Split, Join;
    var segs := SegsOf(filename, sep);
    SplitParts(filename, sep);
    NoDotsIn(DropEmpties(segs));
    NoEmptiesFacts(segs);
    if segs != [] { NoEmptiesFacts(segs[1..]); }
  }

  lemma NoneOf()
    ensures NoneEmpty([]) && Solid([]) && Solid([""])
  {
  }

  lemma SolidTail(s: Segs)
    requires Solid(s) && !NoneEmpty(s)
    ensures s != [] && s[0] == "" && NoneEmpty(s[1..]) && forall x | x in s[1..] :: x in s
  {
    var x :| x in s && x == "";
    var k :| 0 <= k < |s| && s[k] == x;
    forall y | y in s[1..] ensures y != "" {
      var l :| 0 <= l < |s[1..]| && s[1..][l] == y;
      assert s[l + 1] == y;
    }
  }

  // What comes out of the passes.
  lemma OutFacts(filename: string, sep: char)
    requires IsSeparator(sep) && filename != "" && GetPrefixLength(filename) >= 0
    requires Resolved([], NoDots(DropEmpties(SegsOf(filename, sep)))).Some?
    ensures var segs := SegsOf(filename, sep);
      var out := Resolved([], NoDots(DropEmpties(segs))).value;
      && Final(out, sep) && (forall s | s in out :: s in segs)
      && (segs == [] || segs[0] != "" ==> NoneEmpty(out))
      && (!IsDirectory(filename, DropEmpties(segs)) && segs != [] && segs != [""] ==> out != [] && out[|out| - 1] != "")
  {
    hide GetPrefixLength, Full, Split, Join, Resolved, NoDots, NoEmpties, DropEmpties, SegsOf, Solid, NoneEmpty,
        IsDirectory;
    var segs := SegsOf(filename, sep);
    var s := NoDots(DropEmpties(segs));
    SplitParts(filename, sep);
    OutIn(filename, sep);
    NoneOf();
    if NoneEmpty(s) {
      ResolvedFacts([], s);
    } else {
      SolidTail(s);
      ResolvedPush([], s);
      assert [] + [s[0]] == [""];
      ResolvedFacts([""], s[1..]);
    }
    if !IsDirectory(filename, DropEmpties(segs)) && segs != [] && segs != [""] {
      KeepsLast(filename, sep);
      ResolvedLast([], s);
    }
  }

  // The prefix, by the first characters.
  lemma PrefixIs(s: string)
    requires s != ""
    ensures GetPrefixLength(s) ==
      if s[0] == ':' then -1
      else if s[0] == '~' then FirstSeparator(s, 1)
      else if |s| >= 2 && s[1] == ':' then
        (if !IsDrive(s[0]) then -1 else if |s| == 2 || !IsSeparator(s[2]) then 2 else 3)
      else if !IsSeparator(s[0]) then 0
      else if |s| == 1 || !IsSeparator(s[1]) then 1
      else if FirstSeparator(s, 2) == 3 || FirstSeparator(s, 2) == |s| + 1 then -1
      else FirstSeparator(s, 2)
  {
  }

  // Without a colon and a tilde there are only "", "/" and "//server/".
  lemma PlainPrefix(s: string)
    requires Plain(s) && s != ""
    ensures GetPrefixLength(s) ==
      if !IsSeparator(s[0]) then 0
      else if |s| == 1 || !IsSeparator(s[1]) then 1
      else if FirstSeparator(s, 2) == 3 || FirstSeparator(s, 2) == |s| + 1 then -1
      else FirstSeparator(s, 2)
  {
    hide GetPrefixLength, FirstSeparator;
    PrefixIs(s);
    assert s[0] in s;
    if |s| >= 2 { assert s[1] in s; }
  }

  // A drive without a separator behind it.
  predicate IsBareDrive(prefix: string) {
    |prefix| == 2 && prefix[1] == ':' && prefix[0] != '~'
  }

  // A name that begins with a prefix of two characters or more has that prefix.
  lemma PrefixAgain(filename: string, r: string, sep: char)
    requires IsSeparator(sep) && filename != ""
    requires var p := GetPrefixLength(filename);
      && 2 <= p <= |r| && p <= |Full(filename, sep)| && r[..p] == Full(filename, sep)[..p]
      && (IsBareDrive(r[..p]) && p < |r| ==> !IsSeparator(r[p]))
    ensures GetPrefixLength(r) == GetPrefixLength(filename)
  {
    hide GetPrefixLength, FirstSeparator;
    PrefixIs(filename);
    PrefixIs(r);
    PrefixChars(filename, r, GetPrefixLength(filename), sep);
  }

  // All separators alike.
  ghost predicate Even(s: string, sep: char) {
    forall c | c in s :: IsSeparator(c) ==> c == sep
  }

  lemma {:induction false} JoinEven(segs: Segs, sep: char)
    requires IsSeparator(sep)
    ensures Even(Join(segs, sep), sep) <==> forall s | s in segs :: Even(s, sep)
  {
    if segs != [] {
      hide Even;
      JoinEven(segs[1..], sep);
      EvenConcat(segs[0] + [sep], Join(segs[1..], sep), sep);
      EvenConcat(segs[0], [sep], sep);
      EvenSep(sep);
      assert forall s :: s in segs <==> s == segs[0] || s in segs[1..];
    } else {
      EvenSep(sep);
    }
  }

  lemma EvenSep(sep: char)
    requires IsSeparator(sep)
    ensures Even([sep], sep) && Even("", sep)
  {
  }

  lemma EvenConcat(s: string, t: string, sep: char)
    ensures Even(s + t, sep) <==> Even(s, sep) && Even(t, sep)
  {
    assert forall c :: c in s + t <==> c in s || c in t;
  }

  lemma FullEven(filename: string, sep: char)
    requires IsSeparator(sep) && filename != ""
    ensures Even(Full(filename, sep), sep)
  {
    var full := Full(filename, sep);
    forall c | c in full && IsSeparator(c) ensures c == sep {
      var k :| 0 <= k < |full| && full[k] == c;
    }
  }

  lemma EvenPart(s: string, i: nat, sep: char)
    requires Even(s, sep) && i <= |s|
    ensures Even(s[..i], sep) && Even(s[i..], sep)
  {
    assert forall c | c in s[..i] :: c in s;
    assert forall c | c in s[i..] :: c in s;
  }

  // Such a name is its own Full, but for the separator at the end.
  lemma EvenFull(r: string, sep: char)
    requires IsSeparator(sep) && r != "" && Even(r, sep)
    ensures Full(r, sep) == if r[|r| - 1] == sep then r else r + [sep]
  {
    assert forall k | 0 <= k < |r| :: r[k] in r;
    assert Fixed(r, sep) == r;
  }

  // What normalizing makes of a name that is already put together from a prefix and final segments.
  lemma RenderedAgain(prefix: string, out: Segs, sep: char, directory: bool, r: string)
    requires IsSeparator(sep) && Final(out, sep) && r == Rendered(prefix, out, sep, directory) && r != ""
        && Even(r, sep)
    requires GetPrefixLength(r) == |prefix|
    requires out == [] ==> prefix != "" && prefix[|prefix| - 1] == sep
    requires out != [] && !directory ==> out[|out| - 1] != "" && !IsSeparator(out[|out| - 1][|out[|out| - 1]| - 1])
    ensures Normalized(r, sep, true) == Some(r)
  {
    hide GetPrefixLength, Full, Split, Join, DropEmpties, NoDots, Resolved, Final, Even, IsDirectory, SegsOf;
    FinalClean(out, sep);
    RenderedFull(prefix, out, sep, directory, r);
    FinalStays(out, sep);
    SegsAre(r, out, sep);
    DirectoryAgain(prefix, out, sep, directory, r);
  }

  lemma FinalClean(out: Segs, sep: char)
    requires Final(out, sep)
    ensures Clean(out, sep)
  {
  }

  lemma RenderedFull(prefix: string, out: Segs, sep: char, directory: bool, r: string)
    requires IsSeparator(sep) && r == Rendered(prefix, out, sep, directory) && r != "" && Even(r, sep)
    requires out == [] ==> prefix != "" && prefix[|prefix| - 1] == sep
    requires out != [] && !directory ==> out[|out| - 1] != "" && !IsSeparator(out[|out| - 1][|out[|out| - 1]| - 1])
    ensures |prefix| <= |Full(r, sep)| && Full(r, sep)[|prefix|..] == Join(out, sep)
        && Full(r, sep)[..|prefix|] == prefix
    ensures out != [] ==> (IsSeparator(r[|r| - 1]) <==> directory)
  {
    hide Full, Join, Even, IsSeparator;
    var j := Join(out, sep);
    JoinEnd(out, sep);
    EvenFull(r, sep);
    if out == [] {
      assert prefix + j == prefix;
    } else {
      JoinLast(out, sep);
      CutLast(prefix, j);
    }
    CutBoth(prefix, j);
  }

  lemma CutBoth(a: string, b: string)
    ensures (a + b)[..|a|] == a && (a + b)[|a|..] == b
  {
  }

  lemma CutLast(prefix: string, j: string)
    requires j != ""
    ensures var t := prefix + j;
      t[|t| - 1] == j[|j| - 1] && t == t[..|t| - 1] + [j[|j| - 1]] && (|j| > 1 ==> t[|t| - 2] == j[|j| - 2])
  {
  }

  lemma JoinLast(out: Segs, sep: char)
    requires out != []
    ensures var j, last := Join(out, sep), out[|out| - 1];
      |j| > |last| && j[|j| - 1] == sep && (last != "" ==> j[|j| - 2] == last[|last| - 1])
  {
    hide Join;
    var front, last := out[..|out| - 1], out[|out| - 1];
    JoinSnoc(front, last, sep);
    assert out == front + [last];
  }

  lemma DirectoryAgain(prefix: string, out: Segs, sep: char, directory: bool, r: string)
    requires r != "" && !EndsIn(out, ".") && !EndsIn(out, "..") && r == Rendered(prefix, out, sep, directory)
    requires out != [] ==> (IsSeparator(r[|r| - 1]) <==> directory)
    ensures Rendered(prefix, out, sep, IsDirectory(r, out)) == r
  {
  }

  // The facts that normalizing again depends on.
  lemma OnceFacts(filename: string, sep: char)
    requires IsSeparator(sep) && filename != "" && GetPrefixLength(filename) >= 0
    requires Resolved([], NoDots(DropEmpties(SegsOf(filename, sep)))).Some?
    ensures var p, full, segs := GetPrefixLength(filename), Full(filename, sep), SegsOf(filename, sep);
      var out, directory := Resolved([], NoDots(DropEmpties(segs))).value, IsDirectory(filename, DropEmpties(segs));
      && p <= |full|
      && var r := Rendered(full[..p], out, sep, directory);
      && Final(out, sep) && Even(r, sep) && p <= |r| && r[..p] == full[..p] && (out == [] ==> r == full[..p])
      && (out != [] && out[0] != "" && p < |r| ==> !IsSeparator(r[p]))
      && (segs == [] || segs[0] != "" ==> NoneEmpty(out))
      && (out != [] && !directory && segs != [""] ==> EndsWell(out))
      && (forall s | s in out :: Even(s, sep))
  {
    hide GetPrefixLength, Full, Split, Join, DropEmpties, NoDots, Resolved, IsDirectory, SegsOf, Even, Rendered,
        Clean, Solid;
    var p, full, segs := GetPrefixLength(filename), Full(filename, sep), SegsOf(filename, sep);
    var out, directory := Resolved([], NoDots(DropEmpties(segs))).value, IsDirectory(filename, DropEmpties(segs));
    SplitParts(filename, sep);
    OutFacts(filename, sep);
    FullEven(filename, sep);
    EvenPart(full, p, sep);
    JoinEven(segs, sep);
    JoinEven(out, sep);
    EvenConcat(full[..p], Join(out, sep), sep);
    RenderedEven(full[..p], out, sep, directory);
    if out != [] { FirstChar(full[..p], out, sep, directory); }
    if segs == [] { NothingOut(); }
    if out != [] && !directory && segs != [""] { LastChar(out, sep); }
  }

  lemma NothingOut()
    ensures Resolved([], NoDots(DropEmpties([]))) == Some([])
  {
  }

  // The last character of the last segment is no separator.
  ghost predicate EndsWell(out: Segs) {
    out != [] && out[|out| - 1] != "" && !IsSeparator(out[|out| - 1][|out[|out| - 1]| - 1])
  }

  // A drive and nothing else.
  lemma DriveAlone(r: string, sep: char)
    requires IsSeparator(sep) && |r| == 2 && r[1] == ':' && IsDrive(r[0])
    ensures Normalized(r, sep, true) == Some(r)
  {
    hide Split, SegsOf;
    assert GetPrefixLength(r) == 2 && Full(r, sep) == r + [sep] && (r + [sep])[2..] == [sep] && (r + [sep])[..2] == r;
    assert Join([""], sep) == [sep];
    SegsAre(r, [""], sep);
    OneEmpty();
    RenderedOne(r, sep);
    assert DropEmpties([""]) == [""] + NoEmpties([""][1..]) && [""][1..] == [] && [""] + [] == [""];
  }

  // With a prefix of two characters or more, once is enough.
  lemma LongPrefixTwice(filename: string, sep: char)
    requires IsSeparator(sep) && filename != "" && GetPrefixLength(filename) >= 2
    requires Resolved([], NoDots(DropEmpties(SegsOf(filename, sep)))).Some?
    ensures var p, full, segs := GetPrefixLength(filename), Full(filename, sep), SegsOf(filename, sep);
      var out, directory := Resolved([], NoDots(DropEmpties(segs))).value, IsDirectory(filename, DropEmpties(segs));
      p <= |full| && var r := Rendered(full[..p], out, sep, directory); Normalized(r, sep, true) == Some(r)
  {
    hide GetPrefixLength, Full, Split, Join, DropEmpties, NoDots, Resolved, Rendered, IsDirectory, SegsOf, Even,
        FirstSeparator, Normalized;
    var p, full, segs := GetPrefixLength(filename), Full(filename, sep), SegsOf(filename, sep);
    var out, directory := Resolved([], NoDots(DropEmpties(segs))).value, IsDirectory(filename, DropEmpties(segs));
    OnceFacts(filename, sep);
    var r := Rendered(full[..p], out, sep, directory);
    PrefixEnds(filename, sep);
    FirstEmpty(filename, sep);
    if segs == [""] { OneSegment(segs); }
    if p == |filename| < |full| { DriveOnly(filename); }
    if segs == [""] && !directory {
      EndsDirectory(filename, DropEmpties(segs));
      RenderedOne(full[..p], sep);
      DriveAlone(r, sep);
    } else if out == [] && IsBareDrive(full[..p]) {
      DriveAlone(r, sep);
    } else {
      if out != [] && IsBareDrive(full[..p]) { assert out[0] in out; }
      PrefixAgain(filename, r, sep);
      RenderedAgain(full[..p], out, sep, directory, r);
    }
  }

  lemma OneSegment(segs: Segs)
    requires segs == [""]
    ensures Resolved([], NoDots(DropEmpties(segs))) == Some([""]) && DropEmpties(segs) == [""]
  {
    OneEmpty();
    assert segs[1..] == [] && [""] + [] == [""];
  }

  // Such a prefix ends in a separator, or is a bare drive, with no separator behind it in the name.
  lemma PrefixEnds(filename: string, sep: char)
    requires IsSeparator(sep) && filename != "" && GetPrefixLength(filename) >= 2
    ensures var p, full := GetPrefixLength(filename), Full(filename, sep);
      && p <= |full|
      && (if IsBareDrive(full[..p]) then IsDrive(full[0]) && !SecondSeparator(filename) && |filename| >= 2
          else full[p - 1] == sep && (p < |full| == |filename| + 1 ==> p < |filename|))
  {
    hide GetPrefixLength, FirstSeparator;
    PrefixIs(filename);
  }

  lemma RenderedHead(out: Segs, sep: char, directory: bool)
    requires out != [] && Clean(out, sep)
    ensures var r, s := Rendered("", out, sep, directory), out[0];
      && |s| <= |r| && r[..|s|] == s
      && (|out| == 1 && !directory ==> r == s)
      && (|out| > 1 || directory ==> |s| < |r| && r[|s|] == sep && r == Rendered(s + [sep], out[1..], sep, directory))
      && (|s| >= 2 ==> r == Rendered(s[..2], [s[2..]] + out[1..], sep, directory))
  {
    var s, rest := out[0], out[1..];
    var t, u := Join(out, sep), Join(rest, sep);
    JoinEnd(rest, sep);
    assert t == s + [sep] + u && "" + t == t;
    if |s| >= 2 {
      var other := [s[2..]] + rest;
      assert other[1..] == rest && other[0] == s[2..];
      assert Join(other, sep) == s[2..] + [sep] + u && s == s[..2] + s[2..];
      assert s[..2] + Join(other, sep) == t;
    }
  }

  /** The name that comes out reads differently: its first segment is taken for a prefix, or for no valid name.
      Only names whose own prefix is "" or "/" can come to that. */
  ghost predicate ReadsAnew(filename: string, sep: char)
    requires IsSeparator(sep)
  {
    && filename != "" && 0 <= GetPrefixLength(filename) <= 1
    && var segs := SegsOf(filename, sep);
    && Walk([], segs).Some? && Walk([], segs).value != []
    && var out := Walk([], segs).value;
    if GetPrefixLength(filename) == 1 then Starts(out[0], ':')
    else MisreadSegment(out[0], |out| == 1 && !IsDirectory(filename, NoEmpties(segs)))
  }

  predicate Starts(s: string, ch: char) {
    s != "" && s[0] == ch
  }

  // A colon in front; a tilde in front of the only segment; a colon behind no drive, or with a dot or two behind it.
  predicate MisreadSegment(s: string, alone: bool) {
    || Starts(s, ':')
    || (Starts(s, '~') && alone)
    || (|s| >= 2 && s[1] == ':' && s[0] != '~' && (!IsDrive(s[0]) || s[2..] == "." || s[2..] == ".."))
  }

  lemma PrefixChars(filename: string, r: string, p: nat, sep: char)
    requires filename != "" && IsSeparator(sep) && p <= |r| && p <= |Full(filename, sep)|
        && r[..p] == Full(filename, sep)[..p]
    ensures forall k | 0 <= k < p :: r[k] == if k < |filename| && !IsSeparator(filename[k]) then filename[k] else sep
  {
    hide Full;
    var full := Full(filename, sep);
    assert forall k | 0 <= k < p :: r[k] == r[..p][k] == full[..p][k] == full[k];
    if |full| > |filename| { assert full[|filename|] == full[|full| - 1]; }
  }

  lemma RenderedEven(prefix: string, out: Segs, sep: char, directory: bool)
    requires Even(prefix + Join(out, sep), sep)
    ensures Even(Rendered(prefix, out, sep, directory), sep)
    ensures var r := Rendered(prefix, out, sep, directory);
      |prefix| <= |r| && r[..|prefix|] == prefix && (out == [] ==> r == prefix)
  {
    var t := prefix + Join(out, sep);
    JoinEnd(out, sep);
    if out == [] { assert t == prefix; }
    if t != "" { EvenPart(t, |t| - 1, sep); }
  }

  lemma FirstChar(prefix: string, out: Segs, sep: char, directory: bool)
    requires IsSeparator(sep) && out != [] && Clean(out, sep) && (forall s | s in out :: Even(s, sep))
    ensures var r := Rendered(prefix, out, sep, directory);
      out[0] != "" && |prefix| < |r| ==> !IsSeparator(r[|prefix|])
  {
    assert out[0] in out && Even(out[0], sep);
    if out[0] != "" { assert out[0][0] in out[0] && Join(out, sep)[0] == out[0][0]; }
  }

  lemma LastChar(out: Segs, sep: char)
    requires out != [] && Clean(out, sep) && (forall s | s in out :: Even(s, sep)) && out[|out| - 1] != ""
    ensures !IsSeparator(out[|out| - 1][|out[|out| - 1]| - 1])
  {
    var last := out[|out| - 1];
    assert last in out && last[|last| - 1] in last && Even(last, sep);
  }

  lemma ShortPrefix(filename: string, sep: char)
    requires IsSeparator(sep) && filename != "" && 0 <= GetPrefixLength(filename) <= 1
    ensures var p, full := GetPrefixLength(filename), Full(filename, sep);
      && full[..p] == (if p == 0 then "" else [sep]) && !SecondSeparator(filename)
      && (p == |filename| ==> |full| == |filename|)
  {
    hide GetPrefixLength, FirstSeparator;
    PrefixIs(filename);
  }

  // With a prefix of one character at most, what comes out is what the walk finds.
  lemma ShortOut(filename: string, sep: char)
    requires IsSeparator(sep) && filename != "" && 0 <= GetPrefixLength(filename) <= 1
    ensures var segs := SegsOf(filename, sep);
      && (segs == [] || segs[0] != "") && DropEmpties(segs) == NoEmpties(segs)
      && Resolved([], NoDots(DropEmpties(segs))) == Walk([], segs)
  {
    hide GetPrefixLength, SegsOf, Full, Resolved, Walk;
    ShortPrefix(filename, sep);
    FirstEmpty(filename, sep);
    PassesWalk([], SegsOf(filename, sep));
  }

  // A tilde in front of all there is.
  lemma TildeOnly(r: string, sep: char)
    requires IsSeparator(sep) && Starts(r, '~') && forall k | 0 <= k < |r| :: !IsSeparator(r[k])
    ensures Normalized(r, sep, true) != Some(r)
  {
    hide Split, SegsOf, FirstSeparator, GetPrefixLength;
    PrefixIs(r);
    var full := Full(r, sep);
    assert |full| == |r| + 1 && GetPrefixLength(r) == |r| + 1 && full[|r| + 1..] == "" && full[..|r| + 1] == full;
    NoSegs(sep);
    SegsAre(r, [], sep);
    OneEmpty();
  }

  // A segment that reads as a drive and a dot, or a drive and two.
  lemma DriveDots(out: Segs, sep: char, directory: bool, r: string)
    requires IsSeparator(sep) && out != [] && Final(out, sep) && NoneEmpty(out)
        && r == Rendered("", out, sep, directory)
    requires Even(r, sep) && GetPrefixLength(r) == 2 && |out[0]| >= 2 && (out[0][2..] == "." || out[0][2..] == "..")
    requires !directory ==> EndsWell(out)
    ensures Normalized(r, sep, true) != Some(r)
  {
    hide GetPrefixLength, Full, Split, Join, DropEmpties, NoDots, Resolved, Even, IsDirectory, SegsOf, Final;
    FinalClean(out, sep);
    RenderedHead(out, sep, directory);
    var prefix, dots, rest := out[0][..2], out[0][2..], out[1..];
    var segs := [dots] + rest;
    DotsAhead(dots, rest, out, sep);
    RenderedFull(prefix, segs, sep, directory, r);
    SegsAre(r, segs, sep);
    if dots == "." { Shorter(prefix, rest, sep, directory, IsDirectory(r, segs), r); DotDirectory(r, rest, out, sep); }
  }

  // What is resolved behind such a drive.
  lemma DotsAhead(dots: string, rest: Segs, out: Segs, sep: char)
    requires IsSeparator(sep) && out != [] && Final(out, sep) && NoneEmpty(out) && rest == out[1..]
        && (dots == "." || dots == "..")
    ensures Clean([dots] + rest, sep) && DropEmpties([dots] + rest) == [dots] + rest
    ensures dots == "." ==> Resolved([], NoDots([dots] + rest)) == Some(rest)
    ensures dots == ".." ==> Resolved([], NoDots([dots] + rest)) == None
    ensures EndsWell(out) && |out| > 1 ==> EndsWell([dots] + rest)
    ensures EndsWell([dots])
  {
    hide Clean, Final, NoneEmpty, NoDots, NoEmpties, DropEmpties, Resolved;
    var segs := [dots] + rest;
    assert segs[1..] == rest && segs[0] == dots;
    FinalTail(out, sep);
    DotsClean(dots, rest, sep);
    KeepAll(segs);
    KeepAll(rest);
    DropNone(segs);
    if dots == "." {
      NoDotsFirst(segs);
      ResolvedPlain([], rest);
      assert [] + rest == rest;
    } else {
      KeepTwo(segs);
    }
  }

  lemma FinalTail(out: Segs, sep: char)
    requires out != [] && Final(out, sep) && NoneEmpty(out)
    ensures Clean(out[1..], sep) && NoneEmpty(out[1..]) && "." !in out[1..] && ".." !in out[1..]
  {
    assert forall x | x in out[1..] :: x in out;
  }

  lemma DotsClean(dots: string, rest: Segs, sep: char)
    requires IsSeparator(sep) && Clean(rest, sep) && NoneEmpty(rest) && (dots == "." || dots == "..")
    ensures Clean([dots] + rest, sep) && NoneEmpty([dots] + rest)
    ensures "." !in rest && dots == ".." ==> "." !in [dots] + rest
  {
    assert forall x | x in [dots] + rest :: x == dots || x in rest;
  }

  lemma DropNone(segs: Segs)
    requires segs != [] && segs[0] != ""
    ensures DropEmpties(segs) == NoEmpties(segs)
  {
  }

  lemma KeepTwo(segs: Segs)
    requires segs != [] && segs[0] == ".."
    ensures Resolved([], segs) == None
  {
  }

  lemma DotDirectory(r: string, rest: Segs, out: Segs, sep: char)
    requires r != "" && out != [] && Final(out, sep) && rest == out[1..]
    ensures rest != [] ==> (IsDirectory(r, ["."] + rest) <==> IsSeparator(r[|r| - 1]))
  {
    if rest != [] {
      assert rest[|rest| - 1] in out;
    }
  }

  // Without the dot the name is shorter.
  lemma Shorter(prefix: string, rest: Segs, sep: char, directory: bool, directory': bool, r: string)
    requires r == Rendered(prefix, ["."] + rest, sep, directory)
    ensures (rest != [] ==> directory' == directory) ==> Rendered(prefix, rest, sep, directory') != r
  {
    JoinEnd(rest, sep);
    assert (["."] + rest)[1..] == rest;
    assert Join(["."] + rest, sep) == "." + [sep] + Join(rest, sep);
  }

  // With a prefix of one character at most.
  lemma ShortPrefixTwice(filename: string, sep: char)
    requires IsSeparator(sep) && filename != "" && 0 <= GetPrefixLength(filename) <= 1
    requires Walk([], SegsOf(filename, sep)).Some?
    ensures var p, full, segs := GetPrefixLength(filename), Full(filename, sep), SegsOf(filename, sep);
      var out, directory := Walk([], segs).value, IsDirectory(filename, NoEmpties(segs));
      p <= |full| && var r := Rendered(full[..p], out, sep, directory);
      Normalized(r, sep, true) == Some(r) <==> !ReadsAnew(filename, sep)
  {
    hide GetPrefixLength, Full, Split, Join, DropEmpties, NoDots, Resolved, Rendered, IsDirectory, SegsOf, Even,
        FirstSeparator, Normalized, Walk, NoEmpties;
    var p, full, segs := GetPrefixLength(filename), Full(filename, sep), SegsOf(filename, sep);
    ShortOut(filename, sep);
    ShortPrefix(filename, sep);
    OnceFacts(filename, sep);
    var out, directory := Walk([], segs).value, IsDirectory(filename, NoEmpties(segs));
    var r := Rendered(full[..p], out, sep, directory);
    if out == [] {
      if p == 1 {
        PrefixIs(r);
        RenderedAgain(full[..p], out, sep, directory, r);
      } else {
        NormalizedNothing(sep);
      }
    } else {
      assert out[0] in out;
      if p == 1 { BehindSlash(out, sep, directory, r); } else { InFront(out, sep, directory, r); }
    }
  }

  lemma NormalizedNothing(sep: char)
    requires IsSeparator(sep)
    ensures Normalized("", sep, true) == Some("")
  {
  }

  lemma BehindSlash(out: Segs, sep: char, directory: bool, r: string)
    requires IsSeparator(sep) && out != [] && Final(out, sep) && NoneEmpty(out)
        && r == Rendered([sep], out, sep, directory)
    requires Even(r, sep) && (forall s | s in out :: Even(s, sep)) && (!directory ==> EndsWell(out))
    ensures Normalized(r, sep, true) == Some(r) <==> !Starts(out[0], ':')
  {
    hide GetPrefixLength, Full, Split, DropEmpties, NoDots, Resolved, IsDirectory, SegsOf, Even, FirstSeparator,
        Normalized;
    assert out[0] in out;
    FinalClean(out, sep);
    SlashHead(out, sep, directory);
    FirstChar([sep], out, sep, directory);
    PrefixIs(r);
    if Starts(out[0], ':') { NoPrefix(r, sep); } else { RenderedAgain([sep], out, sep, directory, r); }
  }

  lemma SlashHead(out: Segs, sep: char, directory: bool)
    requires out != [] && out[0] != ""
    ensures var r := Rendered([sep], out, sep, directory); |r| >= 2 && r[0] == sep && r[1] == out[0][0]
  {
    assert Join(out, sep) == out[0] + [sep] + Join(out[1..], sep);
  }

  lemma NoPrefix(r: string, sep: char)
    requires IsSeparator(sep) && r != "" && GetPrefixLength(r) < 0
    ensures Normalized(r, sep, true) == None
  {
  }

  lemma InFront(out: Segs, sep: char, directory: bool, r: string)
    requires IsSeparator(sep) && out != [] && Final(out, sep) && NoneEmpty(out)
        && r == Rendered("", out, sep, directory)
    requires Even(r, sep) && (forall s | s in out :: Even(s, sep)) && (!directory ==> EndsWell(out))
    ensures Normalized(r, sep, true) == Some(r) <==> !MisreadSegment(out[0], |out| == 1 && !directory)
  {
    hide GetPrefixLength, Full, Split, Join, DropEmpties, NoDots, Resolved, IsDirectory, SegsOf, Even,
        FirstSeparator, Normalized, Rendered;
    var s, alone := out[0], |out| == 1 && !directory;
    assert s in out;
    FinalClean(out, sep);
    RenderedHead(out, sep, directory);
    NoSeparator(s, sep);
    PrefixIs(r);
    assert r != "" && r[0] == s[0] && (|s| >= 2 ==> r[1] == s[1]) && forall k | 0 <= k < |s| ::
      r[k] == r[..|s|][k] == s[k];
    if s[0] == ':' {
      NoPrefix(r, sep);
    } else if s[0] == '~' {
      if alone { TildeOnly(r, sep); } else { WithPrefix(out, sep, directory, r); }
    } else if |s| >= 2 && s[1] == ':' {
      if !IsDrive(s[0]) {
        NoPrefix(r, sep);
      } else if |s| == 2 {
        if alone { DriveAlone(r, sep); } else { WithPrefix(out, sep, directory, r); }
      } else if s[2..] == "." || s[2..] == ".." {
        DriveDots(out, sep, directory, r);
      } else {
        WithDrive(out, sep, directory, r);
      }
    } else {
      RenderedAgain("", out, sep, directory, r);
    }
  }

  lemma NoSeparator(s: string, sep: char)
    requires Even(s, sep) && sep !in s
    ensures forall k | 0 <= k < |s| :: !IsSeparator(s[k])
  {
    assert forall k | 0 <= k < |s| :: s[k] in s;
  }

  // The first segment is the prefix now.
  lemma WithPrefix(out: Segs, sep: char, directory: bool, r: string)
    requires IsSeparator(sep) && out != [] && Final(out, sep) && NoneEmpty(out)
        && r == Rendered("", out, sep, directory)
    requires Even(r, sep) && (!directory ==> EndsWell(out)) && (|out| > 1 || directory)
    requires GetPrefixLength(r) == |out[0]| + 1
    ensures Normalized(r, sep, true) == Some(r)
  {
    hide GetPrefixLength, Full, Split, Join, DropEmpties, NoDots, Resolved, IsDirectory, SegsOf, Even, Normalized,
        Rendered;
    FinalClean(out, sep);
    RenderedHead(out, sep, directory);
    FinalRest(out, sep);
    RenderedAgain(out[0] + [sep], out[1..], sep, directory, r);
  }

  // The first two characters are the prefix now.
  lemma WithDrive(out: Segs, sep: char, directory: bool, r: string)
    requires IsSeparator(sep) && out != [] && Final(out, sep) && NoneEmpty(out)
        && r == Rendered("", out, sep, directory)
    requires Even(r, sep) && (!directory ==> EndsWell(out))
    requires |out[0]| > 2 && out[0][2..] != "." && out[0][2..] != ".." && GetPrefixLength(r) == 2
    ensures Normalized(r, sep, true) == Some(r)
  {
    hide GetPrefixLength, Full, Split, Join, DropEmpties, NoDots, Resolved, IsDirectory, SegsOf, Even, Normalized,
        Rendered;
    FinalClean(out, sep);
    RenderedHead(out, sep, directory);
    FinalRest(out, sep);
    FinalShort(out, sep);
    RenderedAgain(out[0][..2], [out[0][2..]] + out[1..], sep, directory, r);
  }

  lemma FinalRest(out: Segs, sep: char)
    requires out != [] && Final(out, sep) && NoneEmpty(out)
    ensures Final(out[1..], sep) && (EndsWell(out) && |out| > 1 ==> EndsWell(out[1..]))
  {
    assert forall x | x in out[1..] :: x in out;
    assert forall k | 0 <= k < |out[1..]| :: out[1..][k] == out[k + 1];
    assert forall k | 0 <= k < |out| :: out[k] in out;
  }

  lemma FinalShort(out: Segs, sep: char)
    requires out != [] && Final(out, sep) && NoneEmpty(out) && |out[0]| > 2 && out[0][2..] != "." && out[0][2..] != ".."
    ensures Final([out[0][2..]] + out[1..], sep) && (EndsWell(out) ==> EndsWell([out[0][2..]] + out[1..]))
  {
    var x, rest := out[0][2..], out[1..];
    var all := [x] + rest;
    FinalRest(out, sep);
    assert out[0] in out && forall c | c in x :: c in out[0];
    assert forall s | s in all :: s == x || s in rest;
    forall k | 0 < k < |all| ensures all[k] != "" { assert all[k] == out[k] && out[k] in out; }
  }

  /** The exact condition under which normalizing twice is normalizing once. */
  lemma NormalizedTwice(filename: string, sep: char)
    requires IsSeparator(sep) && Normalized(filename, sep, true).Some?
    ensures var r := Normalized(filename, sep, true).value;
      Normalized(r, sep, true) == Some(r) <==> !ReadsAnew(filename, sep)
  {
    hide GetPrefixLength, Full, Split, Join, DropEmpties, NoDots, Resolved, Rendered, IsDirectory, SegsOf, Walk,
        NoEmpties;
    if filename != "" {
      SplitParts(filename, sep);
      if GetPrefixLength(filename) >= 2 {
        LongPrefixTwice(filename, sep);
      } else {
        ShortOut(filename, sep);
        ShortPrefixTwice(filename, sep);
      }
    }
  }

  // Names without a colon and a tilde are never read anew.
  lemma PlainTwice(filename: string, sep: char)
    requires IsSeparator(sep) && Plain(filename) && Normalized(filename, sep, true).Some?
    ensures var r := Normalized(filename, sep, true).value; Normalized(r, sep, true) == Some(r)
  {
    hide GetPrefixLength, Full, Split, Join, DropEmpties, NoDots, Resolved, Rendered, IsDirectory, SegsOf, Walk,
        NoEmpties;
    NormalizedTwice(filename, sep);
    if ReadsAnew(filename, sep) {
      SplitParts(filename, sep);
      ShortOut(filename, sep);
      OutFacts(filename, sep);
      var s := Walk([], SegsOf(filename, sep)).value[0];
      assert s in SegsOf(filename, sep);
      PlainSeg(filename, s, sep);
      NotMisread(s);
    }
  }

  lemma NotMisread(s: string)
    requires Plain(s)
    ensures !Starts(s, ':') && !MisreadSegment(s, true) && !MisreadSegment(s, false)
  {
    assert forall k | 0 <= k < |s| :: s[k] in s;
  }

  lemma PlainSeg(filename: string, s: string, sep: char)
    requires IsSeparator(sep) && Plain(filename) && filename != "" && GetPrefixLength(filename) >= 0
        && s in SegsOf(filename, sep)
    ensures Plain(s)
  {
    hide GetPrefixLength, Split, Join, SegsOf;
    var segs, full := SegsOf(filename, sep), Full(filename, sep);
    SplitParts(filename, sep);
    forall c | c in s ensures c != ':' && c != '~' {
      InJoin(segs, s, sep, c);
      assert c in full;
      var k :| 0 <= k < |full| && full[k] == c;
      if k < |filename| { assert filename[k] in filename; }
    }
  }

  lemma {:induction false} InJoin(segs: Segs, s: string, sep: char, c: char)
    requires s in segs && c in s
    ensures c in Join(segs, sep)
  {
    assert Join(segs, sep) == segs[0] + [sep] + Join(segs[1..], sep);
    if s != segs[0] {
      assert s in segs[1..];
      InJoin(segs[1..], s, sep, c);
    }
  }

  // With a tilde twice is not once: the prefix only shows up after the first time.
  lemma TildeAppears()
    ensures Normalized("./~", '/', true) == Some("~") && Normalized("~", '/', true) == Some("~/")
  {
    hide Split, SegsOf;
    var f, segs, one: Segs, none: Segs := "./~", [".", "~"], ["~"], [];
    assert GetPrefixLength(f) == 0 && Full(f, '/') == "./~/" && "./~/"[0..] == "./~/" && "./~/"[..0] == "";
    assert segs[1..] == one && one[1..] == none;
    assert Join(one, '/') == "~/" && Join(segs, '/') == "./~/";
    SegsAre(f, segs, '/');
    assert NoEmpties(one) == one && DropEmpties(segs) == segs;
    assert NoDots(one) == one && NoDots(segs) == one;
    ResolvedPlain([], one);
    assert none + one == one;
    assert !IsDirectory(f, segs) && Rendered("", one, '/', false) == "~";
    TildeAgain();
  }

  lemma TildeAgain()
    ensures Normalized("~", '/', true) == Some("~/")
  {
    hide Split, SegsOf;
    assert GetPrefixLength("~") == 2 && Full("~", '/') == "~/" && "~/"[2..] == "" && "~/"[..2] == "~/";
    SegsAre("~", [], '/');
  }

  // Nor with a colon: what comes out has no valid prefix.
  lemma ColonAppears()
    ensures Normalized("./:a", '/', true) == Some(":a") && Normalized(":a", '/', true) == None
  {
    hide Split, SegsOf;
    var f, segs, one: Segs, none: Segs := "./:a", [".", ":a"], [":a"], [];
    assert GetPrefixLength(f) == 0 && Full(f, '/') == "./:a/" && "./:a/"[0..] == "./:a/" && "./:a/"[..0] == "";
    assert segs[1..] == one && one[1..] == none;
    assert Join(one, '/') == ":a/" && Join(segs, '/') == "./:a/";
    SegsAre(f, segs, '/');
    assert NoEmpties(one) == one && DropEmpties(segs) == segs;
    assert NoDots(one) == one && NoDots(segs) == one;
    ResolvedPlain([], one);
    assert none + one == one;
    assert !IsDirectory(f, segs) && Rendered("", one, '/', false) == ":a";
    assert GetPrefixLength(":a") == -1;
  }
}
