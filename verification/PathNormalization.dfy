/** Path normalization in place: three passes over a character array, and the segments that the
    characters stand for. */
module PathNormalization {
  import opened Prelude
  import opened Slices

  type Segs = seq<string>

  // The characters of segments, each with a separator behind it.
  ghost function Join(segs: Segs, sep: char): string {
    if segs == [] then "" else segs[0] + [sep] + Join(segs[1..], sep)
  }

  ghost predicate Clean(segs: Segs, sep: char) {
    forall s | s in segs :: sep !in s
  }

  lemma {:induction false} JoinConcat(a: Segs, b: Segs, sep: char)
    ensures Join(a + b, sep) == Join(a, sep) + Join(b, sep)
  {
    if a == [] {
      assert a + b == b;
    } else {
      JoinConcat(a[1..], b, sep);
      assert (a + b)[1..] == a[1..] + b && (a + b)[0] == a[0];
      Regroup(a[0] + [sep], Join(a[1..], sep), Join(b, sep));
    }
  }

  lemma Regroup(a: string, b: string, c: string)
    ensures a + (b + c) == (a + b) + c
  {
  }

  lemma JoinSnoc(a: Segs, s: string, sep: char)
    ensures Join(a + [s], sep) == Join(a, sep) + s + [sep]
  {
    JoinConcat(a, [s], sep);
    assert Join([s], sep) == s + [sep];
  }

  // The segments that end with a separator, in the order of the characters.
  ghost function Split(body: string, sep: char): (segs: Segs)
    requires body != "" ==> body[|body| - 1] == sep
    ensures Join(segs, sep) == body && Clean(segs, sep)
  {
    if body == "" then []
    else if body[0] == sep then
      assert body == [] + [sep] + body[1..];
      [""] + Split(body[1..], sep)
    else
      var rest := Split(body[1..], sep);
      assert rest != [];
      SplitFirst(body, rest, sep);
      [[body[0]] + rest[0]] + rest[1..]
  }

  lemma SplitFirst(body: string, rest: Segs, sep: char)
    requires body != "" && body[0] != sep && rest != [] && Join(rest, sep) == body[1..] && Clean(rest, sep)
    ensures Join([[body[0]] + rest[0]] + rest[1..], sep) == body && Clean([[body[0]] + rest[0]] + rest[1..], sep)
  {
    var segs := [[body[0]] + rest[0]] + rest[1..];
    assert segs[1..] == rest[1..];
    assert Join(segs, sep) == [body[0]] + rest[0] + [sep] + Join(rest[1..], sep);
    assert body == [body[0]] + body[1..];
  }

  // The first segment ends at the first separator.
  lemma FirstSeg(segs: Segs, sep: char)
    requires Clean(segs, sep) && segs != []
    ensures var t, n := Join(segs, sep), |segs[0]|;
      && n < |t| && t[n] == sep && t[..n] == segs[0] && t[n + 1..] == Join(segs[1..], sep)
      && sep !in segs[0]
  {
    assert segs[0] in segs;
  }

  lemma {:induction false} SplitUnique(segs: Segs, other: Segs, sep: char)
    requires Clean(segs, sep) && Clean(other, sep) && Join(segs, sep) == Join(other, sep)
    ensures segs == other
  {
    if segs != [] { FirstSeg(segs, sep); }
    if other != [] { FirstSeg(other, sep); }
    if segs != [] && other != [] {
      assert |segs[0]| == |other[0]|;
      SplitUnique(segs[1..], other[1..], sep);
      DropCons(segs, 0);
      DropCons(other, 0);
      assert segs[0..] == segs && other[0..] == other;
    }
  }

  // Of the segments after the first pass: no empty one, except at the front.
  ghost function NoEmpties(segs: Segs): Segs {
    if segs == [] then [] else if segs[0] == "" then NoEmpties(segs[1..]) else [segs[0]] + NoEmpties(segs[1..])
  }

  ghost function DropEmpties(segs: Segs): Segs {
    if segs != [] && segs[0] == "" then [""] + NoEmpties(segs[1..]) else NoEmpties(segs)
  }

  ghost function NoDots(segs: Segs): Segs {
    if segs == [] then [] else if segs[0] == "." then NoDots(segs[1..]) else [segs[0]] + NoDots(segs[1..])
  }

  // Every ".." takes away the segment before it; there must be one.
  ghost function Resolved(stack: Segs, rest: Segs): Option<Segs>
    decreases |rest|
  {
    if rest == [] then Some(stack)
    else if rest[0] != ".." then Resolved(stack + [rest[0]], rest[1..])
    else if stack == [] then None
    else Resolved(stack[..|stack| - 1], rest[1..])
  }

  ghost predicate EndsIn(segs: Segs, s: string) {
    segs != [] && segs[|segs| - 1] == s
  }

  // Characters done with, and characters still to come.
  ghost predicate Shape(b: string, done: Segs, rest: Segs, sep: char) {
    b == Join(done, sep) + Join(rest, sep) && Clean(done, sep) && Clean(rest, sep)
  }

  // What a scan sees in the first of the segments still to come.
  lemma Scan(b: string, done: Segs, rest: Segs, sep: char)
    requires Shape(b, done, rest, sep) && rest != []
    ensures var q, n := |Join(done, sep)|, |rest[0]|;
      && |b| == q + n + 1 + |Join(rest[1..], sep)|
      && b[q..q + n] == rest[0] && sep !in rest[0] && b[q + n] == sep
      && (q > 0 ==> b[q - 1] == sep) && (q == 0 <==> done == [])
      && Shape(b, done + [rest[0]], rest[1..], sep) && |Join(done + [rest[0]], sep)| == q + n + 1
  {
    hide Join, Clean;
    FirstSeg(rest, sep);
    JoinSnoc(done, rest[0], sep);
    JoinEnd(done, sep);
    CleanMove(done, rest, sep);
    Behind(Join(done, sep), Join(rest, sep), |rest[0]|);
    CutAt(Join(done, sep), Join(rest, sep), |rest[0]|);
  }

  // The characters of t behind those of d.
  lemma Behind(d: string, t: string, n: nat)
    requires n < |t|
    ensures (d + t)[|d|..|d| + n] == t[..n] && (d + t)[|d| + n] == t[n]
    ensures |d| > 0 ==> (d + t)[|d| - 1] == d[|d| - 1]
  {
  }

  lemma CutAt(d: string, t: string, n: nat)
    requires n < |t|
    ensures d + t == (d + t[..n] + [t[n]]) + t[n + 1..]
  {
  }

  lemma JoinEnd(segs: Segs, sep: char)
    ensures segs == [] <==> Join(segs, sep) == ""
    ensures segs != [] ==> Join(segs, sep)[|Join(segs, sep)| - 1] == sep
  {
    if segs != [] {
      JoinSnoc(segs[..|segs| - 1], segs[|segs| - 1], sep);
      assert segs == segs[..|segs| - 1] + [segs[|segs| - 1]];
    }
  }

  lemma CleanMove(done: Segs, rest: Segs, sep: char)
    requires Clean(done, sep) && Clean(rest, sep) && rest != []
    ensures Clean(done + [rest[0]], sep) && Clean(rest[1..], sep)
  {
    assert forall s | s in done + [rest[0]] :: s in done || s == rest[0];
    assert forall s | s in rest[1..] :: s in rest;
    assert rest[0] in rest;
  }

  // Moves n characters, like a copy over a temporary array.
  method ArrayCopy(a: array<char>, from: nat, to: nat, n: nat)
    requires from + n <= a.Length && to + n <= a.Length
    modifies a
    ensures a[..] == old(a[..to]) + old(a[from..from + n]) + old(a[to + n..])
  {
    forall k | 0 <= k < n { a[to + k] := a[from + k]; }
  }

  // Cuts the characters x..y out of a window of the array by moving n characters down.
  method Cut(a: array<char>, x: nat, y: nat, n: nat, ghost prefix: nat, ghost size: nat)
    requires prefix <= x <= y <= size <= y + n <= a.Length
    modifies a
    ensures a[..prefix] == old(a[..prefix])
    ensures a[prefix..size - (y - x)] == old(a[prefix..size])[..x - prefix] + old(a[prefix..size])[y - prefix..]
  {
    ghost var s := a[..];
    ShiftWindow(s, y, x, n, prefix, size - (y - x));
    CutWindow(s, prefix, x, y, size);
    ArrayCopy(a, y, x, n);
  }

  lemma CutWindow(s: string, prefix: nat, x: nat, y: nat, size: nat)
    requires prefix <= x <= y <= size <= |s|
    ensures s[prefix..x] + s[y..size] == s[prefix..size][..x - prefix] + s[prefix..size][y - prefix..]
  {
  }

  lemma ShiftWindow(s: string, from: nat, to: nat, n: nat, prefix: nat, size: nat)
    requires from + n <= |s| && prefix <= to <= from && to <= size <= to + n <= |s|
    ensures var t := s[..to] + s[from..from + n] + s[to + n..];
      t[..prefix] == s[..prefix] && t[prefix..size] == s[prefix..to] + s[from..from + (size - to)]
  {
    ThreeParts(s[..to], s[from..from + n], s[to + n..], prefix, size);
    assert s[..to][prefix..] == s[prefix..to] && s[..to][..prefix] == s[..prefix];
    assert s[from..from + n][..size - to] == s[from..from + (size - to)];
  }

  lemma ThreeParts(a: string, b: string, c: string, i: nat, j: nat)
    requires i <= |a| <= j <= |a| + |b|
    ensures (a + b + c)[..i] == a[..i] && (a + b + c)[i..j] == a[i..] + b[..j - |a|]
  {
  }

  // Cutting out segments that stand side by side leaves the others.
  lemma ShapeCut(b: string, done: Segs, gone: Segs, front: Segs, rest: Segs, sep: char)
    requires Clean(front, sep) && Clean(rest, sep) && done == front + gone
    requires b == Join(done, sep) + Join(rest, sep)
    ensures var x, y := |Join(front, sep)|, |Join(done, sep)|;
      x <= y <= |b| && Shape(b[..x] + b[y..], front, rest, sep)
  {
    JoinConcat(front, gone, sep);
    var x, y := |Join(front, sep)|, |Join(done, sep)|;
    assert b[..x] == Join(front, sep) && b[y..] == Join(rest, sep);
  }

  // Where a scan is: inside the first of the segments still to come, or behind the last.
  ghost predicate Scanning(p: int, b: string, done: Segs, rest: Segs, sep: char) {
    && Shape(b, done, rest, sep)
    && if rest == [] then p >= |b| else |Join(done, sep)| <= p <= |Join(done, sep)| + |rest[0]|
  }

  // adjoining slashes
  method DropSlashes(a: array<char>, prefix: nat, size0: nat, sep: char, ghost segs: Segs) returns (size: nat)
    requires prefix <= size0 <= a.Length && a[prefix..size0] == Join(segs, sep) && Clean(segs, sep)
    modifies a
    ensures prefix <= size <= size0 && a[..prefix] == old(a[..prefix])
    ensures a[prefix..size] == Join(DropEmpties(segs), sep)
  {
    hide Join, Shape, Clean, NoEmpties, DropEmpties, Scanning;
    size := size0;
    var i := prefix + 1;
    ghost var done, rest := SlashStart(a[prefix..size], segs, sep);
    while i < size
      invariant prefix + 1 <= i && prefix <= size <= size0 && a[..prefix] == old(a[..prefix])
      invariant Scanning(i - prefix, a[prefix..size], done, rest, sep)
      invariant done + NoEmpties(rest) == DropEmpties(segs)
      decreases size - i
    {
      ghost var b := a[prefix..size];
      ScanNext(i - prefix, b, done, rest, sep);
      SlashAt(a, prefix, size, i, done, rest, sep);
      if a[i] == sep && a[i - 1] == sep {
        SlashDrop(b, done, rest, sep);
        Cut(a, i - 1, i, size - i, prefix, size);
        size := size - 1;
        rest := rest[1..];
      } else {
        if a[i] == sep { SlashKeep(done, rest); done, rest := done + [rest[0]], rest[1..]; }
        i := i + 1;
      }
    }
    SlashEnd(i - prefix, a[prefix..size], done, rest, sep);
  }

  lemma SlashAt(a: array<char>, prefix: nat, size: nat, i: nat, done: Segs, rest: Segs, sep: char)
    requires prefix + 1 <= i < size <= a.Length && Scanning(i - prefix, a[prefix..size], done, rest, sep) && rest != []
    ensures var q := |Join(done, sep)|;
      && (a[i] == sep <==> i - prefix == q + |rest[0]|)
      && (a[i] == sep && a[i - 1] == sep <==> i - prefix == q + |rest[0]| && rest[0] == "")
      && (a[i] == sep && a[i - 1] == sep ==> done != [] && i - prefix == q && Shape(a[prefix..size], done, rest, sep))
  {
    hide Join;
    var b, p := a[prefix..size], i - prefix;
    assert b[p] == a[i] && b[p - 1] == a[i - 1];
    ScanNext(p, b, done, rest, sep);
    if rest[0] != "" && p == |Join(done, sep)| + |rest[0]| {
      assert b[p - 1] == rest[0][|rest[0]| - 1];
    }
  }

  // One step of a scan.
  lemma ScanNext(p: int, b: string, done: Segs, rest: Segs, sep: char)
    requires Scanning(p, b, done, rest, sep) && 0 <= p < |b|
    ensures rest != []
    ensures var q, n := |Join(done, sep)|, |rest[0]|;
      && |b| == q + n + 1 + |Join(rest[1..], sep)| && q <= p <= q + n
      && (b[p] == sep <==> p == q + n) && (forall k | q <= k < q + n :: b[k] == rest[0][k - q] != sep)
      && (q > 0 ==> b[q - 1] == sep) && (q == 0 <==> done == [])
      && (p < q + n ==> Scanning(p + 1, b, done, rest, sep))
      && (p == q + n ==> Scanning(p + 1, b, done + [rest[0]], rest[1..], sep))
  {
    hide Join;
    if rest == [] {
      NoSegs(sep);
      assert false;
    } else {
      Scan(b, done, rest, sep);
      var q, n := |Join(done, sep)|, |rest[0]|;
      SliceAt(b, q, rest[0], sep);
      NoSegs(sep);
    }
  }

  lemma SliceAt(b: string, q: nat, s: string, sep: char)
    requires q + |s| <= |b| && b[q..q + |s|] == s && sep !in s
    ensures forall k | q <= k < q + |s| :: b[k] == s[k - q] != sep
  {
    forall k | q <= k < q + |s| ensures b[k] == s[k - q] != sep {
      assert b[q..q + |s|][k - q] == b[k];
      assert s[k - q] in s;
    }
  }

  lemma NoSegs(sep: char)
    ensures Join([], sep) == "" && Clean([], sep)
  {
  }

  lemma SlashStart(b: string, segs: Segs, sep: char) returns (done: Segs, rest: Segs)
    requires b == Join(segs, sep) && Clean(segs, sep)
    ensures Scanning(1, b, done, rest, sep) && done + NoEmpties(rest) == DropEmpties(segs)
  {
    if segs != [] && segs[0] == "" {
      done, rest := [""], segs[1..];
      Scan(b, [], segs, sep);
      assert [] + [segs[0]] == done;
    } else {
      done, rest := [], segs;
    }
  }

  lemma SlashDrop(b: string, done: Segs, rest: Segs, sep: char)
    requires Shape(b, done, rest, sep) && rest != [] && rest[0] == "" && done != []
    ensures var q := |Join(done, sep)|;
      0 < q < |b| && Scanning(q, b[..q - 1] + b[q..], done, rest[1..], sep)
    ensures NoEmpties(rest) == NoEmpties(rest[1..])
  {
    hide Join, Clean;
    Scan(b, done, rest, sep);
    CleanMove(done, rest, sep);
    var q := |Join(done, sep)|;
    ShapeCut(b, done + [rest[0]], [rest[0]], done, rest[1..], sep);
    SameCut(b, q);
    if rest[1..] == [] { NoSegs(sep); }
  }

  // Of two equal characters side by side either may go.
  lemma SameCut(b: string, q: nat)
    requires 0 < q < |b| && b[q - 1] == b[q]
    ensures b[..q - 1] + b[q..] == b[..q] + b[q + 1..]
  {
    assert b[..q] == b[..q - 1] + [b[q - 1]] && b[q..] == [b[q]] + b[q + 1..];
  }

  lemma SlashKeep(done: Segs, rest: Segs)
    requires rest != [] && rest[0] != ""
    ensures (done + [rest[0]]) + NoEmpties(rest[1..]) == done + NoEmpties(rest)
  {
  }

  lemma SlashEnd(p: int, b: string, done: Segs, rest: Segs, sep: char)
    requires Scanning(p, b, done, rest, sep) && p >= |b|
    ensures rest == [] && b == Join(done, sep) && done + NoEmpties(rest) == done
  {
    if rest != [] { Scan(b, done, rest, sep); }
  }

  // Only the first segment may be empty.
  ghost predicate Solid(segs: Segs) {
    forall k | 0 < k < |segs| :: segs[k] != ""
  }

  ghost predicate NoneEmpty(segs: Segs) {
    forall s | s in segs :: s != ""
  }

  lemma RestFacts(rest: Segs)
    requires NoneEmpty(rest) && rest != []
    ensures rest[0] != "" && NoneEmpty(rest[1..]) && (rest[1..] != [] ==> rest[1..][0] != "")
    ensures |rest| == 1 <==> rest[1..] == []
    ensures rest[1..] != [] ==> rest[1..][|rest[1..]| - 1] == rest[|rest| - 1]
  {
    assert rest[0] in rest;
    assert forall s | s in rest[1..] :: s in rest;
    if |rest| > 1 { assert rest[1] in rest; }
  }

  // dot slash
  method DropDots(a: array<char>, prefix: nat, size0: nat, sep: char, lastIsDirectory0: bool, ghost segs: Segs)
    returns (size: nat, lastIsDirectory: bool)
    requires prefix <= size0 < a.Length && a[prefix..size0] == Join(segs, sep) && Clean(segs, sep)
        && Solid(segs) && sep != '.'
    modifies a
    ensures prefix <= size <= size0 && a[..prefix] == old(a[..prefix])
    ensures a[prefix..size] == Join(NoDots(segs), sep)
    ensures lastIsDirectory == (lastIsDirectory0 || EndsIn(segs, "."))
  {
    hide Join, Shape, Clean, NoDots, Scanning, NoneEmpty, Solid;
    size, lastIsDirectory := size0, lastIsDirectory0;
    var i := prefix + 1;
    ghost var done, rest := DotStart(a[prefix..size], segs, sep);
    while i < size
      invariant prefix + 1 <= i && prefix <= size <= size0 && a[..prefix] == old(a[..prefix])
      invariant Scanning(i - prefix, a[prefix..size], done, rest, sep) && NoneEmpty(rest)
      invariant done + NoDots(rest) == NoDots(segs)
      invariant rest != [] ==> segs != [] && rest[|rest| - 1] == segs[|segs| - 1]
      invariant lastIsDirectory == (lastIsDirectory0 || (rest == [] && EndsIn(segs, ".")))
      decreases size - i
    {
      ghost var b := a[prefix..size];
      ScanNext(i - prefix, b, done, rest, sep);
      RestFacts(rest);
      DotAt(a, prefix, size, i, done, rest, sep);
      if a[i] == sep && a[i - 1] == '.' && (i == prefix + 1 || a[i - 2] == sep) {
        DotDrop(i - prefix, b, done, rest, sep);
        if i == size - 1 { lastIsDirectory := true; }
        Cut(a, i - 1, i + 1, size - i, prefix, size);
        size := size - 2;
        rest := rest[1..];
      } else {
        if a[i] == sep { DotKeep(done, rest); done, rest := done + [rest[0]], rest[1..]; }
        i := i + 1;
      }
    }
    DotEnd(i - prefix, a[prefix..size], done, rest, sep);
  }

  lemma DotStart(b: string, segs: Segs, sep: char) returns (done: Segs, rest: Segs)
    requires b == Join(segs, sep) && Clean(segs, sep) && Solid(segs)
    ensures Scanning(1, b, done, rest, sep) && NoneEmpty(rest) && done + NoDots(rest) == NoDots(segs)
    ensures rest != [] ==> segs != [] && rest[|rest| - 1] == segs[|segs| - 1]
    ensures rest == [] ==> !EndsIn(segs, ".")
  {
    if segs != [] && segs[0] == "" {
      done, rest := [""], segs[1..];
      Scan(b, [], segs, sep);
      assert [] + [segs[0]] == done;
      assert forall k | 0 <= k < |rest| :: rest[k] == segs[k + 1];
    } else {
      done, rest := [], segs;
      assert forall k | 0 <= k < |rest| :: rest[k] != "";
    }
  }

  // What the three comparisons with neighbouring characters find out.
  lemma IsDot(p: nat, b: string, done: Segs, rest: Segs, sep: char)
    requires Scanning(p, b, done, rest, sep) && 1 <= p < |b| && rest != [] && rest[0] != "" && sep != '.'
    ensures b[p] == sep && b[p - 1] == '.' && (p == 1 || b[p - 2] == sep) <==>
        p == |Join(done, sep)| + |rest[0]| && rest[0] == "."
  {
    hide Join;
    ScanNext(p, b, done, rest, sep);
    var q, n := |Join(done, sep)|, |rest[0]|;
    if p == q + n {
      assert b[p - 1] == rest[0][n - 1];
      if n >= 2 { assert b[p - 2] == rest[0][n - 2]; } else { assert rest[0] == [rest[0][0]]; }
    }
  }

  lemma DotAt(a: array<char>, prefix: nat, size: nat, i: nat, done: Segs, rest: Segs, sep: char)
    requires prefix + 1 <= i < size <= a.Length && Scanning(i - prefix, a[prefix..size], done, rest, sep)
    requires rest != [] && rest[0] != "" && sep != '.'
    ensures a[i] == sep && a[i - 1] == '.' && (i == prefix + 1 || a[i - 2] == sep)
      <==> i - prefix == |Join(done, sep)| + |rest[0]| && rest[0] == "."
    ensures a[i] == a[prefix..size][i - prefix]
  {
    hide Scanning, Join;
    var b := a[prefix..size];
    assert b[i - prefix] == a[i] && b[i - prefix - 1] == a[i - 1];
    if i > prefix + 1 { assert b[i - prefix - 2] == a[i - 2]; }
    IsDot(i - prefix, b, done, rest, sep);
  }

  lemma DotDrop(p: nat, b: string, done: Segs, rest: Segs, sep: char)
    requires Scanning(p, b, done, rest, sep) && 1 <= p < |b| && rest != [] && NoneEmpty(rest)
    requires p == |Join(done, sep)| + |rest[0]| && rest[0] == "."
    ensures Scanning(p, b[..p - 1] + b[p + 1..], done, rest[1..], sep)
    ensures NoDots(rest) == NoDots(rest[1..])
    ensures p == |b| - 1 <==> rest[1..] == []
  {
    hide Join, Clean, NoneEmpty, NoDots;
    Scan(b, done, rest, sep);
    RestFacts(rest);
    JoinEnd(rest[1..], sep);
    ShapeCut(b, done + [rest[0]], [rest[0]], done, rest[1..], sep);
    NoDotsFirst(rest);
  }

  lemma NoDotsFirst(rest: Segs)
    requires rest != [] && rest[0] == "."
    ensures NoDots(rest) == NoDots(rest[1..])
  {
  }

  lemma DotKeep(done: Segs, rest: Segs)
    requires rest != [] && rest[0] != "."
    ensures (done + [rest[0]]) + NoDots(rest[1..]) == done + NoDots(rest)
  {
  }

  lemma DotEnd(p: int, b: string, done: Segs, rest: Segs, sep: char)
    requires Scanning(p, b, done, rest, sep) && p >= |b|
    ensures rest == [] && b == Join(done, sep) && done + NoDots(rest) == done
  {
    if rest != [] { Scan(b, done, rest, sep); }
  }

  method FindBack(a: array<char>, from: int, prefix: nat, sep: char) returns (j: int)
    requires prefix - 1 <= from < a.Length
    ensures j == prefix - 1 || (prefix <= j <= from && a[j] == sep)
    ensures forall k | j < k <= from :: a[k] != sep
  {
    j := from;
    while j >= prefix
      invariant prefix - 1 <= j <= from
      invariant forall k | j < k <= from :: a[k] != sep
    {
      if a[j] == sep { return; }
      j := j - 1;
    }
  }

  // Takes "a/../" out, where ".." ends at i.
  method PopOne(a: array<char>, prefix: nat, size0: nat, i0: nat, sep: char, ghost done0: Segs, ghost rest0: Segs)
    returns (size: nat, i: nat, ghost done: Segs, ghost rest: Segs)
    requires prefix + 2 < i0 < size0 < a.Length && Scanning(i0 - prefix, a[prefix..size0], done0, rest0, sep)
        && NoneEmpty(rest0)
    requires rest0 != [] && rest0[0] == ".." && done0 != [] && i0 - prefix == |Join(done0, sep)| + 2
    modifies a
    ensures prefix <= size < size0 && prefix + 2 <= i && a[..prefix] == old(a[..prefix])
    ensures Scanning(i - prefix, a[prefix..size], done, rest, sep) && NoneEmpty(rest)
    ensures Resolved(done, rest) == Resolved(done0, rest0)
    ensures rest != [] ==> rest[|rest| - 1] == rest0[|rest0| - 1]
    ensures i0 == size0 - 1 <==> |rest0| == 1
    ensures rest == [] && |rest0| > 1 ==> rest0[|rest0| - 1] != ".."
    ensures |rest0| == 1 ==> rest == []
  {
    hide Join, Shape, Clean, Resolved, Scanning, NoneEmpty, Solid;
    ghost var b := a[prefix..size0];
    ResolvedPop(done0, rest0);
    RestFacts(rest0);
    var j := FindBack(a, i0 - 4, prefix, sep);
    BackAt(a, prefix, size0, i0, j, sep);
    LastSeg(j - prefix, i0 - prefix, b, done0, rest0, sep);
    if j >= prefix {
      size := size0 - (i0 - j);
      Cut(a, j + 1, i0 + 1, size0 - i0, prefix, size0);
      i := j + 2;
      done, rest := done0[..|done0| - 1], rest0[1..];
      EmptyStack(j - prefix, done0, sep);
    } else {
      EmptyStack(j - prefix, done0, sep);
      size, i := size0 - (i0 + 1 - prefix), prefix + 2;
      done, rest := PopFirst(a, prefix, size0, i0, sep, rest0);
    }
  }

  // There is nothing before the segment that goes: the rest is scanned from its start.
  method PopFirst(a: array<char>, prefix: nat, size0: nat, i0: nat, sep: char, ghost rest0: Segs)
    returns (ghost done: Segs, ghost rest: Segs)
    requires prefix <= i0 < size0 < a.Length && rest0 != [] && NoneEmpty(rest0)
    requires Clean(rest0[1..], sep)
    requires a[prefix..size0][..0] + a[prefix..size0][i0 + 1 - prefix..] == Join(rest0[1..], sep)
    modifies a
    ensures var size := size0 - (i0 + 1 - prefix);
      && prefix <= size && a[..prefix] == old(a[..prefix]) && Scanning(2, a[prefix..size], done, rest, sep)
    ensures NoneEmpty(rest) && Resolved(done, rest) == Resolved([], rest0[1..])
    ensures rest != [] ==> rest0[1..] != [] && rest[|rest| - 1] == rest0[|rest0| - 1]
    ensures rest == [] && |rest0| > 1 ==> rest0[|rest0| - 1] != ".."
  {
    hide Join, Clean, Resolved, Scanning, NoneEmpty, Solid;
    RestFacts(rest0);
    NoSegs(sep);
    ghost var b := a[prefix..size0];
    Cut(a, prefix, i0 + 1, size0 - i0, prefix, size0);
    assert b[..0] + b[i0 + 1 - prefix..] == b[i0 + 1 - prefix..];
    done, rest := PopStart(b[i0 + 1 - prefix..], rest0[1..], sep);
  }

  lemma BackAt(a: array<char>, prefix: nat, size: nat, i: nat, j: int, sep: char)
    requires prefix + 2 < i < size <= a.Length && prefix - 1 <= j <= i - 4
    requires (j >= prefix ==> a[j] == sep) && forall k | j < k <= i - 4 :: a[k] != sep
    ensures var b := a[prefix..size];
      (j >= prefix ==> b[j - prefix] == sep) && forall k | j - prefix < k <= i - prefix - 4 :: b[k] != sep
  {
    var b := a[prefix..size];
    forall k | j - prefix < k <= i - prefix - 4 ensures b[k] != sep { assert b[k] == a[prefix + k]; }
  }

  lemma EmptyStack(m: int, done: Segs, sep: char)
    requires done != [] && m + 1 == |Join(done[..|done| - 1], sep)|
    ensures m < 0 <==> done[..|done| - 1] == []
  {
    JoinEnd(done[..|done| - 1], sep);
  }

  // double dot slash
  method PopParents(a: array<char>, prefix: nat, size0: nat, sep: char, lastIsDirectory0: bool, ghost segs: Segs)
    returns (ok: bool, size: nat, lastIsDirectory: bool)
    requires prefix <= size0 < a.Length && a[prefix..size0] == Join(segs, sep) && Clean(segs, sep)
        && Solid(segs) && sep != '.'
    modifies a
    ensures ok <==> Resolved([], segs).Some?
    ensures prefix <= size <= size0 && a[..prefix] == old(a[..prefix])
    ensures ok ==> a[prefix..size] == Join(Resolved([], segs).value, sep)
    ensures ok ==> lastIsDirectory == (lastIsDirectory0 || EndsIn(segs, ".."))
  {
    hide Join, Shape, Clean, Resolved, Scanning, NoneEmpty, Solid;
    ok, size, lastIsDirectory := true, size0, lastIsDirectory0;
    var i := prefix + 2;
    ghost var done, rest := PopStart(a[prefix..size], segs, sep);
    while i < size
      invariant prefix + 2 <= i && prefix <= size <= size0 && a[..prefix] == old(a[..prefix])
      invariant Scanning(i - prefix, a[prefix..size], done, rest, sep) && NoneEmpty(rest)
      invariant Resolved(done, rest) == Resolved([], segs)
      invariant rest != [] ==> segs != [] && rest[|rest| - 1] == segs[|segs| - 1]
      invariant lastIsDirectory == (lastIsDirectory0 || (rest == [] && EndsIn(segs, "..")))
      decreases size, size - i
    {
      ghost var b := a[prefix..size];
      ScanNext(i - prefix, b, done, rest, sep);
      RestFacts(rest);
      ParentAt(a, prefix, size, i, done, rest, sep);
      if a[i] == sep && a[i - 1] == '.' && a[i - 2] == '.' && (i == prefix + 2 || a[i - 3] == sep) {
        if i == prefix + 2 {
          ResolvedPop(done, rest);
          return false, size, lastIsDirectory;
        }
        if i == size - 1 { lastIsDirectory := true; }
        size, i, done, rest := PopOne(a, prefix, size, i, sep, done, rest);
      } else {
        if a[i] == sep { ResolvedPush(done, rest); done, rest := done + [rest[0]], rest[1..]; }
        i := i + 1;
      }
    }
    PopEnd(i - prefix, a[prefix..size], done, rest, sep);
  }

  lemma ParentAt(a: array<char>, prefix: nat, size: nat, i: nat, done: Segs, rest: Segs, sep: char)
    requires prefix + 2 <= i < size <= a.Length && Scanning(i - prefix, a[prefix..size], done, rest, sep)
    requires rest != [] && rest[0] != "" && sep != '.'
    ensures a[i] == sep && a[i - 1] == '.' && a[i - 2] == '.' && (i == prefix + 2 || a[i - 3] == sep)
      <==> i - prefix == |Join(done, sep)| + |rest[0]| && rest[0] == ".."
    ensures i - prefix == |Join(done, sep)| + 2 ==> (i == prefix + 2 <==> done == [])
    ensures a[i] == a[prefix..size][i - prefix]
  {
    hide Scanning, Join;
    var b := a[prefix..size];
    assert b[i - prefix] == a[i] && b[i - prefix - 1] == a[i - 1] && b[i - prefix - 2] == a[i - 2];
    if i > prefix + 2 { assert b[i - prefix - 3] == a[i - 3]; }
    IsParent(i - prefix, b, done, rest, sep);
  }

  lemma PopStart(b: string, segs: Segs, sep: char) returns (done: Segs, rest: Segs)
    requires b == Join(segs, sep) && Clean(segs, sep) && (Solid(segs) || NoneEmpty(segs))
    ensures Scanning(2, b, done, rest, sep) && NoneEmpty(rest) && Resolved(done, rest) == Resolved([], segs)
    ensures rest != [] ==> segs != [] && rest[|rest| - 1] == segs[|segs| - 1]
    ensures rest == [] && segs != [] ==> segs[|segs| - 1] != ".."
  {
    hide Resolved, Join;
    if NoneEmpty(segs) {
      forall k | 0 < k < |segs| ensures segs[k] != "" { assert segs[k] in segs; }
    }
    NoSegs(sep);
    if segs == [] || |segs[0]| >= 2 {
      done, rest := [], segs;
      assert forall k | 0 <= k < |rest| :: rest[k] != "";
      if segs != [] { Scan(b, [], segs, sep); }
    } else {
      done, rest := [segs[0]], segs[1..];
      Scan(b, [], segs, sep);
      assert [] + [segs[0]] == done;
      assert forall k | 0 <= k < |rest| :: rest[k] == segs[k + 1];
      ResolvedPush([], segs);
    }
  }

  lemma IsParent(p: nat, b: string, done: Segs, rest: Segs, sep: char)
    requires Scanning(p, b, done, rest, sep) && 2 <= p < |b| && rest != [] && rest[0] != "" && sep != '.'
    ensures b[p] == sep && b[p - 1] == '.' && b[p - 2] == '.' && (p == 2 || b[p - 3] == sep)
      <==> p == |Join(done, sep)| + |rest[0]| && rest[0] == ".."
    ensures p == |Join(done, sep)| + 2 ==> (p == 2 <==> done == [])
  {
    hide Join;
    ScanNext(p, b, done, rest, sep);
    var q, n := |Join(done, sep)|, |rest[0]|;
    if p == q + n {
      assert b[p - 1] == rest[0][n - 1];
      if n >= 2 {
        assert b[p - 2] == rest[0][n - 2];
        if n >= 3 { assert b[p - 3] == rest[0][n - 3]; } else { assert rest[0] == [rest[0][0], rest[0][1]]; }
      }
    }
  }

  lemma ResolvedPush(done: Segs, rest: Segs)
    requires rest != [] && rest[0] != ".."
    ensures Resolved(done + [rest[0]], rest[1..]) == Resolved(done, rest)
  {
  }

  lemma ResolvedPop(done: Segs, rest: Segs)
    requires rest != [] && rest[0] == ".."
    ensures Resolved(done, rest) == if done == [] then None else Resolved(done[..|done| - 1], rest[1..])
  {
  }

  // The search backwards ends before the last segment that was kept.
  lemma LastSeg(m: int, p: nat, b: string, done: Segs, rest: Segs, sep: char)
    requires Scanning(p, b, done, rest, sep) && p < |b| && NoneEmpty(rest) && rest != [] && done != []
    requires p == |Join(done, sep)| + 2 && rest[0] == ".."
    requires -1 <= m <= p - 4 && (m >= 0 ==> b[m] == sep) && (forall k | m < k <= p - 4 :: b[k] != sep)
    ensures var front := done[..|done| - 1];
      && m + 1 == |Join(front, sep)| && m + 1 <= p - 2
      && Clean(rest[1..], sep)
      && (m >= 0 ==> Scanning(m + 2, b[..m + 1] + b[p + 1..], front, rest[1..], sep))
      && (m < 0 ==> b[..0] + b[p + 1..] == Join(rest[1..], sep))
    ensures p == |b| - 1 <==> rest[1..] == []
  {
    hide Join;
    var front, last := done[..|done| - 1], done[|done| - 1];
    assert done == front + [last];
    FrontClean(done, sep);
    JoinSnoc(front, last, sep);
    JoinEnd(front, sep);
    Scan(b, done, rest, sep);
    RestFacts(rest);
    JoinEnd(rest[1..], sep);
    var f, q := |Join(front, sep)|, |Join(done, sep)|;
    assert q == f + |last| + 1;
    assert forall k | f <= k < f + |last| :: b[k] == Join(done, sep)[k] == last[k - f];
    assert f > 0 ==> b[f - 1] == Join(done, sep)[f - 1] == Join(front, sep)[f - 1];
    ShapeCut(b, done + [rest[0]], [last, rest[0]], front, rest[1..], sep);
    assert m + 1 == f;
    NoSegs(sep);
  }

  lemma FrontClean(segs: Segs, sep: char)
    requires Clean(segs, sep) && segs != []
    ensures Clean(segs[..|segs| - 1], sep) && sep !in segs[|segs| - 1]
  {
    assert forall s | s in segs[..|segs| - 1] :: s in segs;
    assert segs[|segs| - 1] in segs;
  }

  lemma PopEnd(p: int, b: string, done: Segs, rest: Segs, sep: char)
    requires Scanning(p, b, done, rest, sep) && p >= |b|
    ensures rest == [] && b == Join(done, sep) && Resolved(done, rest) == Some(done)
  {
    if rest != [] { Scan(b, done, rest, sep); }
  }

  const UNIX_SEPARATOR: char := '/'
  const WINDOWS_SEPARATOR: char := '\\'

  predicate IsSeparator(ch: char) {
    ch == UNIX_SEPARATOR || ch == WINDOWS_SEPARATOR
  }

  // The first place at or behind from where ch stands, or -1.
  function IndexOf(s: string, ch: char, from: nat): (i: int)
    requires from <= |s|
    ensures i == -1 || (from <= i < |s| && s[i] == ch)
    ensures forall k | from <= k < (if i == -1 then |s| else i) :: s[k] != ch
    decreases |s| - from
  {
    if from == |s| then -1 else if s[from] == ch then from else IndexOf(s, ch, from + 1)
  }

  // Whether the upper case of a character is one of A..Z; so it is for two characters outside ASCII.
  predicate IsDrive(ch: char) {
    'A' <= ch <= 'Z' || 'a' <= ch <= 'z' || ch == '\U{0131}' || ch == '\U{017F}'
  }

  // The length of a prefix such as "/", "C:/", "~/" or "//server/", or -1.
  function GetPrefixLength(filename: string): (prefix: int)
    ensures -1 <= prefix <= |filename| + 1
    ensures prefix == |filename| + 1 ==> forall k | 0 <= k < |filename| :: !IsSeparator(filename[k])
  {
    var len := |filename|;
    if len == 0 then 0
    else
      var ch0 := filename[0];
      if ch0 == ':' then -1
      else if len == 1 then
        if ch0 == '~' then 2 else if IsSeparator(ch0) then 1 else 0
      else if ch0 == '~' then
        FirstSeparator(filename, 1)
      else
        var ch1 := filename[1];
        if ch1 == ':' then
          if IsDrive(ch0) then (if len == 2 || !IsSeparator(filename[2]) then 2 else 3) else -1
        else if IsSeparator(ch0) && IsSeparator(ch1) then
          var posUnix, posWin := IndexOf(filename, UNIX_SEPARATOR, 2), IndexOf(filename, WINDOWS_SEPARATOR, 2);
          if (posUnix == -1 && posWin == -1) || posUnix == 2 || posWin == 2 then -1 else FirstSeparator(filename, 2)
        else if IsSeparator(ch0) then 1 else 0
  }

  // One behind the first separator of either kind, or two behind the end.
  function FirstSeparator(s: string, from: nat): (r: int)
    requires from <= |s|
    ensures from < r <= |s| + 1 && (forall k | from <= k < r - 1 :: !IsSeparator(s[k])) &&
      (r <= |s| ==> IsSeparator(s[r - 1]))
  {
    var posUnix, posWin := IndexOf(s, UNIX_SEPARATOR, from), IndexOf(s, WINDOWS_SEPARATOR, from);
    if posUnix == -1 && posWin == -1 then |s| + 1
    else
      var u := if posUnix == -1 then posWin else posUnix;
      var w := if posWin == -1 then posUnix else posWin;
      (if u < w then u else w) + 1
  }

  // The characters with all separators alike.
  ghost function Fixed(s: string, sep: char): (t: string)
    ensures |t| == |s| && forall k | 0 <= k < |s| :: t[k] == if IsSeparator(s[k]) then sep else s[k]
  {
    seq(|s|, k requires 0 <= k < |s| => if IsSeparator(s[k]) then sep else s[k])
  }

  // ... and a separator at the end.
  ghost function Full(s: string, sep: char): (t: string)
    requires s != "" && IsSeparator(sep)
    ensures |s| <= |t| <= |s| + 1 && t[|t| - 1] == sep
    ensures |t| == |s| <==> IsSeparator(s[|s| - 1])
    ensures forall k | 0 <= k < |s| :: t[k] == if IsSeparator(s[k]) then sep else s[k]
  {
    if IsSeparator(s[|s| - 1]) then Fixed(s, sep) else Fixed(s, sep) + [sep]
  }

  ghost predicate IsDirectory(filename: string, segs: Segs)
    requires filename != ""
  {
    IsSeparator(filename[|filename| - 1]) || EndsIn(segs, ".") || EndsIn(segs, "..")
  }

  // The name made of a prefix and segments.
  ghost function Rendered(prefix: string, segs: Segs, sep: char, directory: bool): string {
    if segs == [] then prefix
    else var t := prefix + Join(segs, sep); if directory || t == "" then t else t[..|t| - 1]
  }

  // The segments behind the prefix.
  ghost function SegsOf(filename: string, sep: char): Segs
    requires filename != "" && IsSeparator(sep) && GetPrefixLength(filename) >= 0
  {
    Split(Full(filename, sep)[GetPrefixLength(filename)..], sep)
  }

  // What the three passes make of a file name.
  ghost function Normalized(filename: string, sep: char, keepSeparator: bool): Option<string>
    requires IsSeparator(sep)
  {
    if filename == "" then Some("")
    else if GetPrefixLength(filename) < 0 then None
    else
      var segs := DropEmpties(SegsOf(filename, sep));
      match Resolved([], NoDots(segs))
      case None => None
      case Some(out) =>
        Some(Rendered(Full(filename, sep)[..GetPrefixLength(filename)], out, sep,
          keepSeparator && IsDirectory(filename, segs)))
  }

  method DoNormalize(filename: Option<string>, separator: char, keepSeparator: bool) returns (r: Option<string>)
    requires IsSeparator(separator)
    ensures r == if filename.None? then None else Normalized(filename.value, separator, keepSeparator)
  {
    hide Join, Split, DropEmpties, NoDots, Resolved, Full, Fixed, GetPrefixLength, SegsOf, Rendered, Clean, Solid,
        IsDirectory;
    if filename.None? { return None; }
    var name := filename.value;
    var size: nat := |name|;
    if size == 0 { return filename; }
    var prefix := GetPrefixLength(name);
    if prefix < 0 { return None; }
    var array_ := new char[size + 2];
    var lastIsDirectory;
    size, lastIsDirectory := FillArray(array_, name, separator);
    ghost var full, segs := Full(name, separator), SegsOf(name, separator);
    ghost var segs1 := DropEmpties(segs);
    SplitParts(name, separator);
    Window(array_, prefix, size, full);
    size := DropSlashes(array_, prefix, size, separator, segs);
    size, lastIsDirectory := DropDots(array_, prefix, size, separator, lastIsDirectory, segs1);
    var ok;
    ok, size, lastIsDirectory := PopParents(array_, prefix, size, separator, lastIsDirectory, NoDots(segs1));
    if !ok { return None; }
    DirectoryIs(name, segs1);
    RenderedIs(array_[..size], full[..prefix], Resolved([], NoDots(segs1)).value, separator,
      lastIsDirectory && keepSeparator);
    assert array_[..size] == array_[..prefix] + array_[prefix..size];
    if size <= 0 { return Some(""); }
    if size <= prefix { return Some(array_[0..size]); }
    if lastIsDirectory && keepSeparator { return Some(array_[0..size]); }
    assert array_[..size][..size - 1] == array_[0..size - 1];
    return Some(array_[0..size - 1]);
  }

  lemma Window(a: array<char>, prefix: nat, size: nat, full: string)
    requires prefix <= |full| == size <= a.Length && a[..size] == full
    ensures a[prefix..size] == full[prefix..] && a[..prefix] == full[..prefix]
  {
  }

  lemma DirectoryIs(name: string, segs: Segs)
    requires name != ""
    ensures IsDirectory(name, segs) <==>
        IsSeparator(name[|name| - 1]) || EndsIn(segs, ".") || EndsIn(NoDots(segs), "..")
  {
    NoDotsEnd(segs);
  }

  // The characters returned, whichever of the four ways they are taken from the array.
  lemma RenderedIs(t: string, prefix: string, out: Segs, sep: char, directory: bool)
    requires |prefix| <= |t| && t == prefix + t[|prefix|..] && t[|prefix|..] == Join(out, sep)
    ensures Rendered(prefix, out, sep, directory) ==
      if |t| <= |prefix| || directory then t else t[..|t| - 1]
  {
    JoinEnd(out, sep);
  }

  // Copies the name, makes its separators alike, and adds one at the end.
  method FillArray(a: array<char>, name: string, separator: char) returns (size: nat, lastIsDirectory: bool)
    requires name != "" && a.Length == |name| + 2 && IsSeparator(separator)
    modifies a
    ensures size == |Full(name, separator)| <= |name| + 1 && a[..size] == Full(name, separator)
    ensures lastIsDirectory == IsSeparator(name[|name| - 1])
  {
    size := |name|;
    forall k | 0 <= k < size { a[k] := name[k]; }
    var otherSeparator := if separator == UNIX_SEPARATOR then WINDOWS_SEPARATOR else UNIX_SEPARATOR;
    for i := 0 to a.Length
      invariant forall k | 0 <= k < size :: a[k] == if k < i && IsSeparator(name[k]) then separator else name[k]
    {
      if a[i] == otherSeparator { a[i] := separator; }
    }
    lastIsDirectory := true;
    if a[size - 1] != separator {
      a[size] := separator;
      size := size + 1;
      lastIsDirectory := false;
    }
  }

  lemma SplitParts(name: string, sep: char)
    requires name != "" && IsSeparator(sep) && GetPrefixLength(name) >= 0
    ensures var segs, full, prefix := SegsOf(name, sep), Full(name, sep), GetPrefixLength(name);
      && prefix <= |full| && Join(segs, sep) == full[prefix..] && Clean(segs, sep)
      && Clean(DropEmpties(segs), sep) && Solid(DropEmpties(segs))
      && Clean(NoDots(DropEmpties(segs)), sep) && Solid(NoDots(DropEmpties(segs)))
  {
    hide GetPrefixLength, Full, DropEmpties, NoDots, Split, Join, Solid, Clean;
    var segs := SegsOf(name, sep);
    PrefixFits(name, sep);
    DropEmptiesFacts(segs, sep);
    NoDotsFacts(DropEmpties(segs), sep);
  }

  lemma PrefixFits(name: string, sep: char)
    requires name != "" && IsSeparator(sep) && GetPrefixLength(name) >= 0
    ensures GetPrefixLength(name) <= |Full(name, sep)|
  {
    hide GetPrefixLength;
  }

  lemma {:induction false} NoEmptiesFacts(segs: Segs)
    ensures forall s | s in NoEmpties(segs) :: s in segs && s != ""
  {
    if segs != [] { NoEmptiesFacts(segs[1..]); }
  }

  lemma DropEmptiesFacts(segs: Segs, sep: char)
    requires Clean(segs, sep)
    ensures Clean(DropEmpties(segs), sep) && Solid(DropEmpties(segs))
  {
    NoEmptiesFacts(segs);
    if segs != [] { NoEmptiesFacts(segs[1..]); }
    var d := DropEmpties(segs);
    forall k | 0 < k < |d| ensures d[k] != "" {
      if segs[0] == "" { assert d[k] in NoEmpties(segs[1..]); } else { assert d[k] in NoEmpties(segs); }
    }
  }

  lemma {:induction false} NoDotsIn(segs: Segs)
    ensures forall s | s in NoDots(segs) :: s in segs && s != "."
  {
    if segs != [] { NoDotsIn(segs[1..]); }
  }

  lemma {:induction false} NoDotsFacts(segs: Segs, sep: char)
    requires Clean(segs, sep) && Solid(segs)
    ensures Clean(NoDots(segs), sep) && Solid(NoDots(segs))
  {
    NoDotsIn(segs);
    if segs != [] {
      NoDotsIn(segs[1..]);
      var d := NoDots(segs);
      forall k | 0 < k < |d| ensures d[k] != "" {
        assert d[k] in NoDots(segs[1..]);
        assert d[k] in segs[1..];
        var l :| 0 <= l < |segs[1..]| && segs[1..][l] == d[k];
        assert segs[l + 1] == d[k];
      }
    }
  }

  lemma {:induction false} NoDotsSnoc(segs: Segs, s: string)
    ensures NoDots(segs + [s]) == if s == "." then NoDots(segs) else NoDots(segs) + [s]
  {
    if segs == [] {
      assert segs + [s] == [s];
    } else {
      NoDotsSnoc(segs[1..], s);
      assert (segs + [s])[1..] == segs[1..] + [s];
    }
  }

  lemma NoDotsEnd(segs: Segs)
    ensures EndsIn(segs, ".") || EndsIn(NoDots(segs), "..") <==> EndsIn(segs, ".") || EndsIn(segs, "..")
  {
    if segs != [] {
      NoDotsSnoc(segs[..|segs| - 1], segs[|segs| - 1]);
      assert segs == segs[..|segs| - 1] + [segs[|segs| - 1]];
    }
  }
}
