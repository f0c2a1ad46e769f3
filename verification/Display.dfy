/** The incremental display: which rows of the DOM are still right after some changes, and how the
    others are replaced. A row is whatever a line looks like when it is rendered. */
module Display {
  import opened Prelude
  import opened Slices

  // Lines from..to of the document of that moment were replaced, by diff more lines.
  datatype Damage = Damage(from: nat, to: nat, diff: int)

  // The lines from..to of the document are shown by the rows from domStart on.
  datatype Range = Range(from: int, to: int, domStart: int)

  function Least(a: int, b: int): int {
    if a < b then a else b
  }

  /** A document D became D' by a change: the lines before it stayed, the lines behind it moved by diff.
      A change that does not move lines may name lines behind the end of the document. */
  ghost predicate Covers<T>(c: Damage, D: seq<T>, D': seq<T>) {
    && c.from <= c.to && c.from <= c.to + c.diff && |D'| == |D| + c.diff
    && (c.diff != 0 ==> c.to <= |D|)
    && D'[..Least(c.from, |D|)] == D[..Least(c.from, |D|)]
    && D'[Least(c.to, |D|) + c.diff..] == D[Least(c.to, |D|)..]
  }

  ghost predicate CoversAll<T(!new)>(cs: seq<Damage>, D: seq<T>, D': seq<T>) {
    if cs == [] then D' == D
    else exists M :: Covers(cs[0], D, M) && CoversAll(cs[1..], M, D')
  }

  lemma {:induction false} CoversSnoc<T(!new)>(cs: seq<Damage>, c: Damage, D: seq<T>, M: seq<T>, D': seq<T>)
    requires CoversAll(cs, D, M) && Covers(c, M, D')
    ensures CoversAll(cs + [c], D, D')
  {
    if cs == [] {
      assert (cs + [c])[1..] == [];
      assert CoversAll([], D', D');
    } else {
      var N :| Covers(cs[0], D, N) && CoversAll(cs[1..], N, M);
      CoversSnoc(cs[1..], c, N, M, D');
      assert (cs + [c])[1..] == cs[1..] + [c];
    }
  }

  lemma CoversNone<T(!new)>(D: seq<T>)
    ensures CoversAll([], D, D)
  {
  }

  lemma {:induction false} CoversThen<T(!new)>(a: seq<Damage>, b: seq<Damage>, D: seq<T>, M: seq<T>, D': seq<T>)
    requires CoversAll(a, D, M) && CoversAll(b, M, D')
    ensures CoversAll(a + b, D, D')
  {
    hide Covers;
    if a == [] {
      assert a + b == b;
    } else {
      var N := CoveredFirst(a, D, M);
      CoversThen(a[1..], b, N, M, D');
      assert a + b == [a[0]] + (a[1..] + b);
      CoversCons(a[0], a[1..] + b, D, N, D');
    }
  }

  lemma CoveredFirst<T(!new)>(cs: seq<Damage>, D: seq<T>, D': seq<T>) returns (M: seq<T>)
    requires cs != [] && CoversAll(cs, D, D')
    ensures Covers(cs[0], D, M) && CoversAll(cs[1..], M, D')
  {
    hide Covers;
    M :| Covers(cs[0], D, M) && CoversAll(cs[1..], M, D');
  }

  lemma CoversCons<T(!new)>(c: Damage, cs: seq<Damage>, D: seq<T>, M: seq<T>, D': seq<T>)
    requires Covers(c, D, M) && CoversAll(cs, M, D')
    ensures CoversAll([c] + cs, D, D')
  {
    hide Covers;
    assert ([c] + cs)[0] == c && ([c] + cs)[1..] == cs;
  }

  // The range shows lines of D, and the rows that it names are theirs.
  ghost predicate Right<T>(r: Range, D: seq<T>, dom: seq<T>) {
    && 0 <= r.from <= r.to <= |D| && 0 <= r.domStart && r.domStart + (r.to - r.from) <= |dom|
    && D[r.from..r.to] == dom[r.domStart..r.domStart + (r.to - r.from)]
  }

  // The ranges follow each other, in the document and in the DOM.
  ghost predicate Ordered(rs: seq<Range>) {
    forall i, j | 0 <= i < j < |rs| :: Before(rs[i], rs[j])
  }

  ghost predicate Before(r: Range, s: Range) {
    r.to <= s.from && r.domStart + (r.to - r.from) <= s.domStart
  }

  ghost predicate Intact<T>(rs: seq<Range>, D: seq<T>, dom: seq<T>) {
    Ordered(rs) && forall i | 0 <= i < |rs| :: Right(rs[i], D, dom)
  }

  // What a change leaves of a range.
  function PunchRange(r: Range, c: Damage): seq<Range> {
    if c.to <= r.from then [Range(r.from + c.diff, r.to + c.diff, r.domStart)]
    else if c.from >= r.to then [r]
    else
      (if c.from > r.from then [Range(r.from, c.from, r.domStart)] else [])
      + (if c.to < r.to then [Range(c.to + c.diff, r.to + c.diff, r.domStart + (c.to - r.from))] else [])
  }

  function Punch(rs: seq<Range>, c: Damage): seq<Range> {
    if rs == [] then [] else Punch(rs[..|rs| - 1], c) + PunchRange(rs[|rs| - 1], c)
  }

  function PunchAll(rs: seq<Range>, cs: seq<Damage>): seq<Range>
    decreases |cs|
  {
    if cs == [] then rs else PunchAll(Punch(rs, cs[0]), cs[1..])
  }

  method ComputeIntact(intact0: seq<Range>, changes: seq<Damage>) returns (intact: seq<Range>)
    ensures intact == PunchAll(intact0, changes)
  {
    intact := intact0;
    for i := 0 to |changes|
      invariant PunchAll(intact, changes[i..]) == PunchAll(intact0, changes)
    {
      intact := PunchHoles(intact, changes[i]);
      DropCons(changes, i);
    }
  }

  method PunchHoles(intact: seq<Range>, change: Damage) returns (intact2: seq<Range>)
    ensures intact2 == Punch(intact, change)
  {
    hide PunchRange;
    intact2 := [];
    var diff := change.diff;
    for j := 0 to |intact|
      invariant intact2 == Punch(intact[..j], change)
    {
      var range := intact[j];
      ghost var before := intact2;
      if change.to <= range.from && diff != 0 {
        intact2 := intact2 + [Range(range.from + diff, range.to + diff, range.domStart)];
      } else if change.to <= range.from || change.from >= range.to {
        intact2 := intact2 + [range];
      } else {
        if change.from > range.from {
          intact2 := intact2 + [Range(range.from, change.from, range.domStart)];
        }
        if change.to < range.to {
          intact2 := intact2 + [Range(change.to + diff, range.to + diff, range.domStart + (change.to - range.from))];
        }
      }
      Punched(before, range, change);
      PunchSnoc(intact, j, change);
    }
    assert intact[..|intact|] == intact;
  }

  lemma Punched(before: seq<Range>, r: Range, c: Damage)
    ensures before + PunchRange(r, c) ==
      if c.to <= r.from then before + [Range(r.from + c.diff, r.to + c.diff, r.domStart)]
      else if c.from >= r.to then before + [r]
      else
        var more := if c.from > r.from then before + [Range(r.from, c.from, r.domStart)] else before;
        if c.to < r.to then more + [Range(c.to + c.diff, r.to + c.diff, r.domStart + (c.to - r.from))] else more
  {
  }

  lemma PunchSnoc(rs: seq<Range>, j: nat, c: Damage)
    requires j < |rs|
    ensures Punch(rs[..j + 1], c) == Punch(rs[..j], c) + PunchRange(rs[j], c)
  {
    assert rs[..j + 1][..j] == rs[..j];
  }

  lemma Within<T>(s: seq<T>, a: nat, b: nat, i: nat, j: nat)
    requires a <= i <= j <= b <= |s|
    ensures s[a..b][i - a..j - a] == s[i..j]
  {
    var t := s[a..b][i - a..j - a];
    assert forall k | 0 <= k < |t| :: t[k] == s[i..j][k];
  }

  lemma InFront<T>(s: seq<T>, b: nat, i: nat, j: nat)
    requires i <= j <= b <= |s|
    ensures s[..b][i..j] == s[i..j]
  {
  }

  lemma InBack<T>(s: seq<T>, a: nat, i: nat, j: nat)
    requires a <= i <= j <= |s|
    ensures s[a..][i - a..j - a] == s[i..j]
  {
    var t := s[a..][i - a..j - a];
    assert forall k | 0 <= k < |t| :: t[k] == s[i..j][k];
  }

  // A part of a range in front of the change.
  lemma FrontCovered<T>(c: Damage, D: seq<T>, D': seq<T>)
    requires Covers(c, D, D')
    ensures Least(c.from, |D|) <= |D'| && D'[..Least(c.from, |D|)] == D[..Least(c.from, |D|)]
  {
  }

  lemma PartBefore<T>(r: Range, c: Damage, to: int, D: seq<T>, D': seq<T>, dom: seq<T>)
    requires Right(r, D, dom) && Covers(c, D, D') && r.from <= to <= r.to && to <= c.from
    ensures Right(Range(r.from, to, r.domStart), D', dom)
  {
    hide Covers;
    FrontCovered(c, D, D');
    InFront(D, Least(c.from, |D|), r.from, to);
    InFront(D', Least(c.from, |D|), r.from, to);
    Within(D, r.from, r.to, r.from, to);
    Within(dom, r.domStart, r.domStart + (r.to - r.from), r.domStart, r.domStart + (to - r.from));
  }

  // A part of a range behind the change.
  lemma PartBehind<T>(r: Range, c: Damage, from: int, D: seq<T>, D': seq<T>, dom: seq<T>)
    requires Right(r, D, dom) && Covers(c, D, D') && r.from <= from <= r.to && c.to <= from
    ensures Right(Range(from + c.diff, r.to + c.diff, r.domStart + (from - r.from)), D', dom)
  {
    var t := Least(c.to, |D|);
    InBack(D, t, from, r.to);
    InBack(D', t + c.diff, from + c.diff, r.to + c.diff);
    Within(D, r.from, r.to, from, r.to);
    Within(dom, r.domStart, r.domStart + (r.to - r.from), r.domStart + (from - r.from), r.domStart + (r.to - r.from));
  }

  lemma PunchRangeRight<T>(r: Range, c: Damage, D: seq<T>, D': seq<T>, dom: seq<T>)
    requires Right(r, D, dom) && Covers(c, D, D')
    ensures Intact(PunchRange(r, c), D', dom)
  {
    hide Right, Covers;
    RightBounds(r, c, D, D', dom);
    if c.to <= r.from {
      PartBehind(r, c, r.from, D, D', dom);
    } else if c.from >= r.to {
      PartBefore(r, c, r.to, D, D', dom);
      assert Range(r.from, r.to, r.domStart) == r;
    } else {
      if c.from > r.from { PartBefore(r, c, c.from, D, D', dom); }
      if c.to < r.to { PartBehind(r, c, c.to, D, D', dom); }
    }
  }

  lemma RightBounds<T>(r: Range, c: Damage, D: seq<T>, D': seq<T>, dom: seq<T>)
    requires Right(r, D, dom) && Covers(c, D, D')
    ensures r.from <= r.to && c.from <= c.to && c.from <= c.to + c.diff
  {
  }

  // Every part of a range that is left lies where the range lay, moved by at most diff.
  lemma PunchRangeBefore(r: Range, s: Range, c: Damage)
    requires Before(r, s) && r.from <= r.to && s.from <= s.to && c.from <= c.to && c.from <= c.to + c.diff
    ensures forall i, j | 0 <= i < |PunchRange(r, c)| && 0 <= j < |PunchRange(s, c)| ::
        Before(PunchRange(r, c)[i], PunchRange(s, c)[j])
  {
  }

  // Every part of a punched list comes from one of its ranges.
  lemma {:induction false} PunchFrom(rs: seq<Range>, c: Damage, k: nat) returns (i: nat, j: nat)
    requires k < |Punch(rs, c)|
    ensures i < |rs| && j < |PunchRange(rs[i], c)| && Punch(rs, c)[k] == PunchRange(rs[i], c)[j]
  {
    var front, last := rs[..|rs| - 1], rs[|rs| - 1];
    if k < |Punch(front, c)| {
      i, j := PunchFrom(front, c, k);
    } else {
      i, j := |rs| - 1, k - |Punch(front, c)|;
    }
  }

  lemma {:induction false} PunchIntact<T>(rs: seq<Range>, c: Damage, D: seq<T>, D': seq<T>, dom: seq<T>)
    requires Intact(rs, D, dom) && Covers(c, D, D')
    ensures Intact(Punch(rs, c), D', dom)
  {
    hide Right, Covers, Before, PunchRange;
    if rs != [] {
      var front, last := rs[..|rs| - 1], rs[|rs| - 1];
      PunchIntact(front, c, D, D', dom);
      PunchRangeRight(last, c, D, D', dom);
      var a, b := Punch(front, c), PunchRange(last, c);
      forall i, j | 0 <= i < |a| && 0 <= j < |b| ensures Before(a[i], b[j]) {
        var k, l := PunchFrom(front, c, i);
        RightBounds(rs[k], c, D, D', dom);
        RightBounds(last, c, D, D', dom);
        PunchRangeBefore(rs[k], last, c);
      }
      OrderedConcat(a, b);
    }
  }

  lemma OrderedConcat(a: seq<Range>, b: seq<Range>)
    requires Ordered(a) && Ordered(b) && forall i, j | 0 <= i < |a| && 0 <= j < |b| :: Before(a[i], b[j])
    ensures Ordered(a + b)
  {
    hide Before;
  }

  lemma {:induction false} PunchAllIntact<T(!new)>(rs: seq<Range>, cs: seq<Damage>, D: seq<T>, D': seq<T>, dom: seq<T>)
    requires Intact(rs, D, dom) && CoversAll(cs, D, D')
    ensures Intact(PunchAll(rs, cs), D', dom)
    decreases |cs|
  {
    hide Right, Covers, Intact, Punch;
    if cs != [] {
      var M :| Covers(cs[0], D, M) && CoversAll(cs[1..], M, D');
      PunchIntact(rs, cs[0], D, M, dom);
      PunchAllIntact(Punch(rs, cs[0]), cs[1..], M, D', dom);
    }
  }

  // Line i of the document is still shown by row k.
  ghost predicate Names(rs: seq<Range>, i: int, k: int) {
    exists r :: r in rs && r.from <= i < r.to && k == r.domStart + (i - r.from)
  }

  // A change takes away the rows of the lines that it touches, and no others.
  lemma {:induction false} PunchExact(rs: seq<Range>, c: Damage, i: int, k: int)
    requires c.from <= c.to && c.from <= c.to + c.diff
    ensures Names(Punch(rs, c), i, k) <==>
        (i < c.from && Names(rs, i, k)) || (i - c.diff >= c.to && Names(rs, i - c.diff, k))
  {
    hide Names;
    NamesNone(i, k);
    NamesNone(i - c.diff, k);
    if rs != [] {
      var front, last := rs[..|rs| - 1], rs[|rs| - 1];
      PunchExact(front, c, i, k);
      PunchRangeExact(last, c, i, k);
      NamesConcat(Punch(front, c), PunchRange(last, c), i, k);
      NamesConcat(front, [last], i, k);
      NamesConcat(front, [last], i - c.diff, k);
      assert rs == front + [last];
    }
  }

  lemma NamesNone(i: int, k: int)
    ensures !Names([], i, k)
  {
  }

  lemma NamesConcat(a: seq<Range>, b: seq<Range>, i: int, k: int)
    ensures Names(a + b, i, k) <==> Names(a, i, k) || Names(b, i, k)
  {
    assert forall r :: r in a + b <==> r in a || r in b;
  }

  lemma NamesOne(r: Range, i: int, k: int)
    ensures Names([r], i, k) <==> r.from <= i < r.to && k == r.domStart + (i - r.from)
  {
    assert r in [r];
  }

  lemma PunchRangeExact(r: Range, c: Damage, i: int, k: int)
    requires c.from <= c.to && c.from <= c.to + c.diff
    ensures Names(PunchRange(r, c), i, k) <==>
        (i < c.from && Names([r], i, k)) || (i - c.diff >= c.to && Names([r], i - c.diff, k))
  {
    hide Names;
    NamesNone(i, k);
    NamesOne(r, i, k);
    NamesOne(r, i - c.diff, k);
    NamesOne(Range(r.from + c.diff, r.to + c.diff, r.domStart), i, k);
    var a := if c.from > r.from then [Range(r.from, c.from, r.domStart)] else [];
    var b := if c.to < r.to then [Range(c.to + c.diff, r.to + c.diff, r.domStart + (c.to - r.from))] else [];
    NamesConcat(a, b, i, k);
    NamesOne(Range(r.from, c.from, r.domStart), i, k);
    NamesOne(Range(c.to + c.diff, r.to + c.diff, r.domStart + (c.to - r.from)), i, k);
  }

  // The part of a range inside a window.
  function ClipRange(r: Range, from: int, to: int): seq<Range> {
    var a := if r.from < from then from else r.from;
    var b := if r.to > to then to else r.to;
    if a >= b then [] else [Range(a, b, r.domStart + (a - r.from))]
  }

  function Clipped(rs: seq<Range>, from: int, to: int): seq<Range> {
    if rs == [] then [] else Clipped(rs[..|rs| - 1], from, to) + ClipRange(rs[|rs| - 1], from, to)
  }

  function Lines(rs: seq<Range>): int {
    if rs == [] then 0 else Lines(rs[..|rs| - 1]) + (rs[|rs| - 1].to - rs[|rs| - 1].from)
  }

  ghost predicate InWindow(rs: seq<Range>, from: int, to: int) {
    forall r | r in rs :: from <= r.from < r.to <= to
  }

  lemma {:induction false} ClippedFrom(rs: seq<Range>, from: int, to: int, k: nat) returns (i: nat)
    requires k < |Clipped(rs, from, to)|
    ensures i < |rs| && ClipRange(rs[i], from, to) == [Clipped(rs, from, to)[k]]
  {
    var front := rs[..|rs| - 1];
    if k < |Clipped(front, from, to)| { i := ClippedFrom(front, from, to, k); } else { i := |rs| - 1; }
  }

  lemma {:induction false} ClippedIntact<T>(rs: seq<Range>, from: int, to: int, D: seq<T>, dom: seq<T>)
    requires Intact(rs, D, dom)
    ensures Intact(Clipped(rs, from, to), D, dom) && InWindow(Clipped(rs, from, to), from, to)
  {
    if rs != [] {
      hide Right, Before, ClipRange;
      var front, last := rs[..|rs| - 1], rs[|rs| - 1];
      ClippedIntact(front, from, to, D, dom);
      var a, b := Clipped(front, from, to), ClipRange(last, from, to);
      forall i, j | 0 <= i < |a| && 0 <= j < |b| ensures Before(a[i], b[j]) {
        var k := ClippedFrom(front, from, to, i);
        ClippedBefore(front[k], last, from, to);
      }
      ClipRangeRight(last, from, to, D, dom);
      OrderedConcat(a, b);
    }
  }

  lemma ClippedBefore(r: Range, s: Range, from: int, to: int)
    requires Before(r, s)
    ensures forall x, y | x in ClipRange(r, from, to) && y in ClipRange(s, from, to) :: Before(x, y)
  {
  }

  lemma ClipRangeRight<T>(r: Range, from: int, to: int, D: seq<T>, dom: seq<T>)
    requires Right(r, D, dom)
    ensures Intact(ClipRange(r, from, to), D, dom) && InWindow(ClipRange(r, from, to), from, to)
  {
    var c := ClipRange(r, from, to);
    if c != [] {
      var s := c[0];
      Within(D, r.from, r.to, s.from, s.to);
      Within(dom, r.domStart, r.domStart + (r.to - r.from), s.domStart, s.domStart + (s.to - s.from));
      assert c == [s] && Right(s, D, dom);
    }
  }

  method Clip(intact0: seq<Range>, from: int, to: int) returns (intact: seq<Range>, intactLines: int)
    ensures intact == Clipped(intact0, from, to) && intactLines == Lines(intact)
  {
    hide Clipped, Lines, ClipRange;
    intact, intactLines := intact0, 0;
    var i := 0;
    ghost var n, out, rest := 0, [], intact0;
    NoneClipped(from, to);
    Whole(intact0);
    while i < |intact|
      invariant i == |out| && intact == out + rest && n <= |intact0| && rest == intact0[n..]
      invariant out == Clipped(intact0[..n], from, to) && intactLines == Lines(out)
      decreases |intact| - i
    {
      var range := intact[i];
      if range.from < from { range := Range(from, range.to, range.domStart + (from - range.from)); }
      if range.to > to { range := Range(range.from, to, range.domStart); }
      ClipRangeIs(rest[0], from, to, range);
      if range.from >= range.to {
        ClipDrop(intact0, n, from, to, out, rest);
        intact := intact[..i] + intact[i + 1..];
      } else {
        ClipKeep(intact0, n, from, to, out, rest, range);
        intactLines := intactLines + (range.to - range.from);
        intact := intact[i := range];
        out := out + [range];
        i := i + 1;
      }
      rest, n := intact0[n + 1..], n + 1;
    }
    Whole(out);
    Whole(intact0);
  }

  lemma ClipDrop(intact0: seq<Range>, n: nat, from: int, to: int, out: seq<Range>, rest: seq<Range>)
    requires n < |intact0| && rest == intact0[n..] && out == Clipped(intact0[..n], from, to)
    requires ClipRange(rest[0], from, to) == []
    ensures Clipped(intact0[..n + 1], from, to) == out
    ensures (out + rest)[..|out|] + (out + rest)[|out| + 1..] == out + intact0[n + 1..]
  {
    hide Clipped, ClipRange;
    ClippedSnoc(intact0, n, from, to);
    DropCons(intact0, n);
    Whole(out);
    assert rest[0] == intact0[n] && rest[1..] == intact0[n + 1..];
    Middle(out, rest, rest[0]);
  }

  lemma ClipKeep(intact0: seq<Range>, n: nat, from: int, to: int, out: seq<Range>, rest: seq<Range>, range: Range)
    requires n < |intact0| && rest == intact0[n..] && out == Clipped(intact0[..n], from, to)
    requires ClipRange(rest[0], from, to) == [range]
    ensures Clipped(intact0[..n + 1], from, to) == out + [range]
    ensures (out + rest)[|out| := range] == out + [range] + intact0[n + 1..]
    ensures Lines(out + [range]) == Lines(out) + (range.to - range.from)
  {
    hide Clipped, ClipRange, Lines;
    ClippedSnoc(intact0, n, from, to);
    DropCons(intact0, n);
    assert rest[0] == intact0[n] && rest[1..] == intact0[n + 1..];
    Middle(out, rest, range);
    LinesSnoc(out, range);
  }

  lemma Whole<T>(s: seq<T>)
    ensures s[..0] == [] && s[0..] == s && [] + s == s && s + [] == s && s[..|s|] == s
  {
  }

  lemma ClipRangeIs(r: Range, from: int, to: int, s: Range)
    requires s.from == (if r.from < from then from else r.from) && s.to == (if r.to > to then to else r.to)
    requires s.domStart == r.domStart + (s.from - r.from)
    ensures ClipRange(r, from, to) == if s.from >= s.to then [] else [s]
  {
  }

  lemma Middle<T>(a: seq<T>, b: seq<T>, x: T)
    requires b != []
    ensures (a + b)[|a|] == b[0] && (a + b)[..|a|] + (a + b)[|a| + 1..] == a + b[1..]
    ensures (a + b)[|a| := x] == a + [x] + b[1..]
  {
  }

  lemma ClippedSnoc(rs: seq<Range>, n: nat, from: int, to: int)
    requires n < |rs|
    ensures Clipped(rs[..n + 1], from, to) == Clipped(rs[..n], from, to) + ClipRange(rs[n], from, to)
  {
    assert rs[..n + 1][..n] == rs[..n];
  }

  lemma LinesSnoc(rs: seq<Range>, r: Range)
    ensures Lines(rs + [r]) == Lines(rs) + (r.to - r.from)
  {
    assert (rs + [r])[..|rs|] == rs;
  }

  lemma {:induction false} ClippedExact(rs: seq<Range>, from: int, to: int, i: int, k: int)
    ensures Names(Clipped(rs, from, to), i, k) <==> from <= i < to && Names(rs, i, k)
  {
    hide Names;
    NamesNone(i, k);
    if rs != [] {
      var front, last := rs[..|rs| - 1], rs[|rs| - 1];
      ClippedExact(front, from, to, i, k);
      var b := ClipRange(last, from, to);
      NamesConcat(Clipped(front, from, to), b, i, k);
      if b != [] { NamesOne(b[0], i, k); assert b == [b[0]]; }
      NamesOne(last, i, k);
      NamesConcat(front, [last], i, k);
      assert rs == front + [last];
    }
  }

  // Ordered ranges do not have more lines than there is room for.
  lemma {:induction false} LinesBound<T>(rs: seq<Range>, from: int, to: int, D: seq<T>, dom: seq<T>, domTo: int)
    requires Intact(rs, D, dom) && InWindow(rs, from, to) && from <= to && 0 <= domTo
    requires rs != [] ==> rs[|rs| - 1].domStart + (rs[|rs| - 1].to - rs[|rs| - 1].from) <= domTo
    ensures Lines(rs) <= to - from && Lines(rs) <= domTo
  {
    hide Right;
    if rs != [] {
      var front, last := rs[..|rs| - 1], rs[|rs| - 1];
      assert Right(last, D, dom);
      RightStart(last, D, dom);
      assert forall i | 0 <= i < |front| :: Before(front[i], last);
      LinesBound(front, from, last.from, D, dom, last.domStart);
    }
  }

  lemma RightStart<T>(r: Range, D: seq<T>, dom: seq<T>)
    requires Right(r, D, dom)
    ensures 0 <= r.domStart && 0 <= r.from <= r.to <= |D| && r.domStart + (r.to - r.from) <= |dom|
    ensures D[r.from..r.to] == dom[r.domStart..r.domStart + (r.to - r.from)]
  {
  }

  // If they have as many, they are the whole window, row by row.
  lemma {:induction false} FullWindow<T>(rs: seq<Range>, from: int, to: int, D: seq<T>, dom: seq<T>)
    requires Intact(rs, D, dom) && InWindow(rs, from, to) && 0 <= from <= to <= |D| && to - from <= |dom|
    requires rs != [] ==> rs[|rs| - 1].domStart + (rs[|rs| - 1].to - rs[|rs| - 1].from) <= to - from
    requires Lines(rs) == to - from
    ensures D[from..to] == dom[..to - from]
  {
    hide Right;
    if rs != [] {
      var front, last := rs[..|rs| - 1], rs[|rs| - 1];
      assert Right(last, D, dom);
      RightStart(last, D, dom);
      assert forall i | 0 <= i < |front| :: Before(front[i], last);
      LinesBound(front, from, last.from, D, dom, last.domStart);
      FullWindow(front, from, last.from, D, dom);
      assert D[from..to] == D[from..last.from] + D[last.from..to];
      assert dom[..to - from] == dom[..last.domStart] + dom[last.domStart..to - from];
    }
  }

  // Sorting by domStart, however it is done, leaves such ranges as they are.
  lemma {:induction false} SortedAlready(rs: seq<Range>, sorted: seq<Range>, from: int, to: int)
    requires Ordered(rs) && InWindow(rs, from, to)
    requires multiset(sorted) == multiset(rs)
    requires forall i, j | 0 <= i < j < |sorted| :: sorted[i].domStart <= sorted[j].domStart
    ensures sorted == rs
  {
    hide Ordered, InWindow;
    SameSize(rs, sorted);
    if rs != [] {
      SortedLast(rs, sorted, from, to);
      DropLast(rs, sorted);
      ShorterOrdered(rs, from, to);
      SortedAlready(rs[..|rs| - 1], sorted[..|sorted| - 1], from, to);
      assert rs == rs[..|rs| - 1] + [rs[|rs| - 1]] && sorted == sorted[..|sorted| - 1] + [rs[|rs| - 1]];
    }
  }

  lemma ShorterOrdered(rs: seq<Range>, from: int, to: int)
    requires Ordered(rs) && InWindow(rs, from, to) && rs != []
    ensures Ordered(rs[..|rs| - 1]) && InWindow(rs[..|rs| - 1], from, to)
  {
  }

  lemma SortedLast(rs: seq<Range>, sorted: seq<Range>, from: int, to: int)
    requires Ordered(rs) && InWindow(rs, from, to) && rs != [] && |sorted| == |rs|
    requires multiset(sorted) == multiset(rs)
    requires forall i, j | 0 <= i < j < |sorted| :: sorted[i].domStart <= sorted[j].domStart
    ensures sorted[|sorted| - 1] == rs[|rs| - 1]
  {
    var last, end := sorted[|sorted| - 1], rs[|rs| - 1];
    assert last in multiset(sorted) && end in multiset(rs);
    assert last in rs && end in sorted;
    var k :| 0 <= k < |rs| && rs[k] == last;
    if k < |rs| - 1 { assert Before(rs[k], end); }
  }

  lemma OneLess<T>(a: seq<T>)
    requires a != []
    ensures multiset(a[..|a| - 1]) == multiset(a) - multiset{a[|a| - 1]}
  {
    assert a == a[..|a| - 1] + [a[|a| - 1]];
  }

  lemma DropLast<T>(a: seq<T>, b: seq<T>)
    requires multiset(a) == multiset(b) && |a| == |b| > 0 && a[|a| - 1] == b[|b| - 1]
    ensures multiset(a[..|a| - 1]) == multiset(b[..|b| - 1])
  {
    OneLess(a);
    OneLess(b);
  }

  lemma SameSize<T>(a: seq<T>, b: seq<T>)
    requires multiset(a) == multiset(b)
    ensures |a| == |b|
  {
    assert |multiset(a)| == |a| && |multiset(b)| == |b|;
  }

  ghost function Slice<T>(D: seq<T>, from: int, to: int): seq<T> {
    if 0 <= from <= to <= |D| then D[from..to] else []
  }

  // The lines that the ranges name, one range after another.
  ghost function Rows<T>(rs: seq<Range>, D: seq<T>): seq<T> {
    if rs == [] then [] else Slice(D, rs[0].from, rs[0].to) + Rows(rs[1..], D)
  }

  // What is left of them from line j on, when the first range may have begun before j.
  ghost function Rest<T>(rs: seq<Range>, j: int, D: seq<T>): seq<T> {
    if rs != [] && rs[0].from < j then Slice(D, j, rs[0].to) + Rows(rs[1..], D) else Rows(rs, D)
  }

  // The DOM below the line container, and the range of lines that it shows.
  class Screen<T(!new)> {
    var rows: seq<T>
    var showingFrom: nat
    var showingTo: nat

    constructor ()
      ensures rows == [] && showingFrom == 0 && showingTo == 0
    {
      rows, showingFrom, showingTo := [], 0, 0;
    }

    // The rows show the lines showingFrom..showingTo of D; while nothing is shown they may be anything.
    ghost predicate Shows(D: seq<T>)
      reads this
    {
      showingFrom <= showingTo <= |D| && (showingFrom < showingTo ==> rows == D[showingFrom..showingTo])
    }

    // A hundred lines more than those visible are shown on each side, as far as there are any, and less than 120.
    ghost predicate FitsWindow(visibleFrom: nat, visibleTo: nat, size: nat)
      reads this
    {
      && visibleFrom - 120 < showingFrom && (showingFrom == 0 || showingFrom + 100 <= visibleFrom)
      && showingTo < visibleTo + 120 && (showingTo == size || visibleTo + 100 <= showingTo)
    }

    method KillNode(cur: nat)
      requires cur < |rows|
      modifies `rows
      ensures rows == old(rows)[..cur] + old(rows)[cur + 1..]
    {
      rows := rows[..cur] + rows[cur + 1..];
    }

    // Removes the nodes that stand before a range.
    method KillGap(domStart: int, domPos0: nat, curNode: nat, ghost kept: seq<T>,
        ghost dom: seq<T>) returns (domPos: nat)
      requires domPos0 <= domStart <= |dom| && curNode == |kept| && rows == kept + dom[domPos0..]
      modifies `rows
      ensures domPos == domStart && rows == kept + dom[domPos..]
    {
      domPos := domPos0;
      while domStart > domPos
        invariant domPos <= domStart && rows == kept + dom[domPos..]
      {
        KilledOne(kept, dom, domPos);
        KillNode(curNode);
        domPos := domPos + 1;
      }
    }

    // Removes all nodes from one on.
    method KillTail(curNode: nat)
      requires curNode <= |rows|
      modifies `rows
      ensures rows == old(rows)[..curNode]
    {
      ghost var all := rows;
      assert all[..curNode] + all[curNode..] == all;
      ghost var k := curNode;
      while curNode < |rows|
        invariant curNode <= k <= |all| && rows == all[..curNode] + all[k..]
        decreases |rows|
      {
        KilledOne(all[..curNode], all, k);
        KillNode(curNode);
        k := k + 1;
      }
    }

    // Removes the nodes that stand before a range, and moves on behind its own.
    method KeepRange(cur: Range, domPos0: nat, curNode0: nat, ghost kept: seq<T>, ghost dom: seq<T>, ghost D: seq<T>)
      returns (domPos: nat, curNode: nat, ghost kept': seq<T>)
      requires Right(cur, D, dom) && domPos0 <= cur.domStart && curNode0 == |kept| && rows == kept + dom[domPos0..]
      modifies `rows
      ensures kept' == kept + Slice(D, cur.from, cur.to)
      ensures domPos == cur.domStart + (cur.to - cur.from) <= |dom| && curNode == |kept'|
          && rows == kept' + dom[domPos..]
    {
      curNode := curNode0;
      domPos := KillGap(cur.domStart, domPos0, curNode, kept, dom);
      kept' := kept + Slice(D, cur.from, cur.to);
      var e := cur.to - cur.from;
      SplitDrop(dom, domPos, domPos + e);
      Reassoc(kept, dom[domPos..domPos + e], dom[domPos + e..]);
      for j := 0 to e
        invariant domPos == cur.domStart + j && curNode == |kept| + j
      {
        curNode := curNode + 1;
        domPos := domPos + 1;
      }
    }

    // The first pass removes the nodes that are not intact.
    method KillStale(intact: seq<Range>, ghost D: seq<T>)
      requires Intact(intact, D, rows)
      modifies `rows
      ensures rows == Rows(intact, D)
    {
      hide Right, Rows, Before, Slice, Ordered;
      ghost var dom := rows;
      NoRowsLeft(D);
      if |intact| == 0 {
        rows := [];
      } else {
        var domPos: nat, curNode: nat := 0, 0;
        ghost var kept := [];
        RightStart(intact[0], D, dom);
        assert intact[0..] == intact && kept + Rows(intact, D) == Rows(intact, D) && kept + dom[0..] == dom;
        for i := 0 to |intact|
          invariant domPos <= |dom| && curNode == |kept| && rows == kept + dom[domPos..]
          invariant i < |intact| ==> domPos <= intact[i].domStart
          invariant kept + Rows(intact[i..], D) == Rows(intact, D)
        {
          RowsDrop(intact, i, D);
          Reassoc(kept, Slice(D, intact[i].from, intact[i].to), Rows(intact[i + 1..], D));
          domPos, curNode, kept := KeepRange(intact[i], domPos, curNode, kept, dom, D);
          if i + 1 < |intact| { NextStart(intact, i); }
        }
        assert rows[..curNode] == kept;
        KillTail(curNode);
        assert intact[|intact|..] == [] && kept == kept + [];
      }
    }

    method InsertBefore(row: T, cur: nat)
      requires cur <= |rows|
      modifies `rows
      ensures rows == old(rows)[..cur] + [row] + old(rows)[cur..]
    {
      rows := rows[..cur] + [row] + rows[cur..];
    }

    // The second pass puts a row where a line from..to has none.
    method FillIn(from: nat, to: nat, intact0: seq<Range>, lines: seq<T>)
      requires from <= to <= |lines| && Ordered(intact0) && InWindow(intact0, from, to)
      requires rows == Rows(intact0, lines)
      modifies `rows
      ensures rows == lines[from..to]
    {
      hide Rows, Rest, Slice, Before, Ordered, InWindow, Queue;
      var intact := intact0;
      var nextIntact: Option<Range> := None;
      QueueIs(nextIntact, intact);
      if |intact| > 0 { nextIntact, intact := Some(intact[0]), intact[1..]; }
      var curNode: nat, j := 0, from;
      ghost var q := intact0;
      QueueIs(nextIntact, intact);
      RestStart(q, from, to, lines);
      assert lines[from..from] + Rows(q, lines) == Rows(q, lines);
      while j < to
        invariant from <= j <= to && curNode == j - from
        invariant q == Queue(nextIntact, intact) && (nextIntact.None? ==> |intact| == 0)
        invariant Ordered(q) && InWindow(q, from, to) && (q != [] ==> j <= q[0].to)
        invariant rows == lines[from..j] + Rest(q, j, lines)
      {
        QueueIs(nextIntact, intact);
        if nextIntact.Some? && nextIntact.value.to == j {
          WindowRest(q, from, to);
          RestShift(q, j, lines);
          q := q[1..];
          QueueIs(None, intact);
          if |intact| > 0 { nextIntact, intact := Some(intact[0]), intact[1..]; } else { nextIntact := None; }
          QueueIs(nextIntact, intact);
        }
        TakeMore(lines, from, j);
        if q != [] { WindowRest(q, from, to); }
        if nextIntact.None? || nextIntact.value.from > j {
          RestSkip(q, j, lines);
          InsertRow(lines[from..j], lines[j], Rest(q, j, lines));
          InsertBefore(lines[j], curNode);
          curNode := curNode + 1;
        } else {
          RestNext(q, j, lines);
          Reassoc(lines[from..j], [lines[j]], Rest(q, j + 1, lines));
          curNode := curNode + 1;
        }
        j := j + 1;
      }
      RestEnd(q, from, to, lines);
    }

    method PatchDisplay(from: nat, to: nat, intact: seq<Range>, lines: seq<T>)
      requires from <= to <= |lines| && Intact(intact, lines, rows) && InWindow(intact, from, to)
      modifies `rows
      ensures rows == lines[from..to]
    {
      KillStale(intact, lines);
      FillIn(from, to, intact, lines);
    }

    // The ranges of the window whose rows are still right; sorting them by domStart would not move any (SortedAlready).
    method StillIntact(from: nat, to: nat, lines: seq<T>, changes: Option<seq<Damage>>, ghost before: seq<T>)
      returns (intact: seq<Range>, intactLines: int)
      requires Shows(before) && (changes.Some? ==> CoversAll(changes.value, before, lines))
      ensures Intact(intact, lines, rows) && InWindow(intact, from, to) && intactLines == Lines(intact)
      ensures intact == if changes.None? then []
        else Clipped(PunchAll([Range(showingFrom, showingTo, 0)], changes.value), from, to)
    {
      hide CoversAll, Intact, InWindow, PunchAll, Clipped;
      intact := [];
      NoneIntact(lines, rows);
      if changes.Some? {
        ShownIntact(showingFrom, showingTo, before, rows);
        intact := ComputeIntact([Range(showingFrom, showingTo, 0)], changes.value);
        PunchAllIntact([Range(showingFrom, showingTo, 0)], changes.value, before, lines, rows);
      }
      ClippedIntact(intact, from, to, lines, rows);
      NoneClipped(from, to);
      intact, intactLines := Clip(intact, from, to);
    }

    /** Brings the rows up to date after changes that led from the lines before to the lines of now; None stands
        for a full redraw. The result bad is the editor's own test for a patch that went wrong. */
    method UpdateDisplay(lines: seq<T>, changes: Option<seq<Damage>>, clientWidth: nat, visibleFrom: nat,
        visibleTo: nat, ghost before: seq<T>)
      returns (updated: bool, bad: bool)
      requires |lines| >= 1 && visibleFrom <= visibleTo <= |lines|
      requires Shows(before) && (changes.Some? ==> CoversAll(changes.value, before, lines))
      modifies this
      ensures Shows(lines) && !bad
      ensures clientWidth > 0 ==>
        && showingFrom <= visibleFrom && visibleTo <= showingTo && showingFrom < showingTo
        && rows == lines[showingFrom..showingTo] && (visibleTo < showingTo || showingTo == |lines|)
      ensures clientWidth > 0 ==>
        if changes == Some([]) && old(showingFrom) < visibleFrom && visibleTo < old(showingTo)
        then showingFrom == old(showingFrom) && showingTo == old(showingTo) && !updated
        else FitsWindow(visibleFrom, visibleTo, |lines|)
      ensures clientWidth == 0 ==> showingFrom == showingTo == 0 && rows == old(rows)
      ensures !updated ==> rows == old(rows)
    {
      hide CoversAll, Intact, InWindow, PunchAll, Clipped;
      updated, bad := false, false;
      if clientWidth == 0 {
        showingFrom, showingTo := 0, 0;
        return;
      }
      if changes.Some? && |changes.value| == 0 && visibleFrom > showingFrom && visibleTo < showingTo {
        NothingChanged(before, lines);
        return;
      }
      var from: nat := if visibleFrom < 100 then 0 else visibleFrom - 100;
      var to: nat := if |lines| < visibleTo + 100 then |lines| else visibleTo + 100;
      if showingFrom < from && from - showingFrom < 20 { from := showingFrom; }
      if showingTo > to && showingTo - to < 20 { to := if |lines| < showingTo then |lines| else showingTo; }
      var intact, intactLines := StillIntact(from, to, lines, changes, before);
      if intactLines == to - from && from == showingFrom && to == showingTo {
        AllShown(intact, from, to, lines, rows);
        return;
      }
      PatchDisplay(from, to, intact, lines);
      showingFrom, showingTo := from, to;
      bad := |rows| != showingTo - showingFrom;
      updated := true;
    }
  }

  lemma NextStart(rs: seq<Range>, i: nat)
    requires Ordered(rs) && i + 1 < |rs|
    ensures rs[i].domStart + (rs[i].to - rs[i].from) <= rs[i + 1].domStart
  {
    assert Before(rs[i], rs[i + 1]);
  }

  lemma NoRowsLeft<T>(D: seq<T>)
    ensures Rows([], D) == []
  {
  }

  lemma KilledOne<T>(kept: seq<T>, dom: seq<T>, p: nat)
    requires p < |dom|
    ensures (kept + dom[p..])[..|kept|] + (kept + dom[p..])[|kept| + 1..] == kept + dom[p + 1..]
  {
  }

  lemma SplitDrop<T>(s: seq<T>, a: nat, b: nat)
    requires a <= b <= |s|
    ensures s[a..] == s[a..b] + s[b..]
  {
  }

  lemma Reassoc<T>(a: seq<T>, b: seq<T>, c: seq<T>)
    ensures a + (b + c) == a + b + c
  {
  }

  lemma RowsDrop<T>(rs: seq<Range>, i: nat, D: seq<T>)
    requires i < |rs|
    ensures Rows(rs[i..], D) == Slice(D, rs[i].from, rs[i].to) + Rows(rs[i + 1..], D)
  {
    assert rs[i..][0] == rs[i] && rs[i..][1..] == rs[i + 1..];
  }

  ghost function Queue(next: Option<Range>, intact: seq<Range>): seq<Range> {
    if next.Some? then [next.value] + intact else intact
  }

  lemma QueueIs(next: Option<Range>, intact: seq<Range>)
    ensures Queue(None, intact) == intact
    ensures next.Some? ==>
      var queue := Queue(next, intact);
      |queue| == |intact| + 1 && queue[0] == next.value && queue[1..] == intact
    ensures intact != [] ==> Queue(Some(intact[0]), intact[1..]) == intact
  {
  }

  lemma RestStart<T>(q: seq<Range>, from: int, to: int, D: seq<T>)
    requires InWindow(q, from, to)
    ensures Rest(q, from, D) == Rows(q, D) && (q != [] ==> from <= q[0].to)
  {
    if q != [] { assert q[0] in q; }
  }

  lemma RestShift<T>(q: seq<Range>, j: nat, D: seq<T>)
    requires q != [] && q[0].to == j && q[0].from < j && Ordered(q)
    ensures Rest(q[1..], j, D) == Rest(q, j, D)
  {
    if |q| > 1 { assert Before(q[0], q[1]); }
  }

  lemma WindowRest(q: seq<Range>, from: int, to: int)
    requires Ordered(q) && InWindow(q, from, to) && q != []
    ensures Ordered(q[1..]) && InWindow(q[1..], from, to) && q[0] in q
    ensures from <= q[0].from < q[0].to <= to
    ensures q[1..] != [] ==> q[0].to <= q[1..][0].from < q[1..][0].to <= to
  {
    assert forall r | r in q[1..] :: r in q;
    if |q| > 1 { assert Before(q[0], q[1]) && q[1] in q; }
  }

  lemma TakeMore<T>(s: seq<T>, from: nat, j: nat)
    requires from <= j < |s|
    ensures s[from..j + 1] == s[from..j] + [s[j]]
  {
  }

  lemma RestSkip<T>(q: seq<Range>, j: nat, D: seq<T>)
    requires q == [] || q[0].from > j
    ensures Rest(q, j + 1, D) == Rest(q, j, D)
  {
  }

  lemma InsertRow<T>(a: seq<T>, x: T, b: seq<T>)
    ensures (a + b)[..|a|] + [x] + (a + b)[|a|..] == a + [x] + b
  {
    assert (a + b)[..|a|] == a && (a + b)[|a|..] == b;
  }

  lemma RestNext<T>(q: seq<Range>, j: nat, D: seq<T>)
    requires q != [] && q[0].from <= j < q[0].to <= |D|
    ensures Rest(q, j, D) == [D[j]] + Rest(q, j + 1, D)
  {
    assert D[j..q[0].to] == [D[j]] + D[j + 1..q[0].to];
    Reassoc([D[j]], D[j + 1..q[0].to], Rows(q[1..], D));
  }

  lemma RestEnd<T>(q: seq<Range>, from: int, to: int, D: seq<T>)
    requires Ordered(q) && InWindow(q, from, to) && (q != [] ==> to <= q[0].to) && 0 <= to <= |D|
    ensures Rest(q, to, D) == []
  {
    if q != [] {
      WindowRest(q, from, to);
    }
  }

  lemma NothingChanged<T(!new)>(D: seq<T>, D': seq<T>)
    requires CoversAll([], D, D')
    ensures D' == D
  {
  }

  lemma NoneClipped(from: int, to: int)
    ensures Clipped([], from, to) == [] && Lines([]) == 0
  {
  }

  lemma NoneIntact<T>(D: seq<T>, dom: seq<T>)
    ensures Intact([], D, dom)
  {
  }

  lemma ShownIntact<T>(from: nat, to: nat, D: seq<T>, dom: seq<T>)
    requires from <= to <= |D| && (from < to ==> dom == D[from..to])
    ensures Intact([Range(from, to, 0)], D, dom)
  {
    assert from < to ==> dom[0..to - from] == dom;
  }

  // All lines of the window are intact: the rows are already those of the lines.
  lemma AllShown<T>(rs: seq<Range>, from: nat, to: nat, D: seq<T>, dom: seq<T>)
    requires Intact(rs, D, dom) && InWindow(rs, from, to) && from <= to <= |D| && |dom| == to - from
    requires Lines(rs) == to - from
    ensures dom == D[from..to]
  {
    if rs != [] { assert Right(rs[|rs| - 1], D, dom); }
    FullWindow(rs, from, to, D, dom);
    assert dom[..to - from] == dom;
  }
}
