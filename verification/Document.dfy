// The document seen from outside: a plain sequence of lines with heights, kept in a line tree.
module Document {
  import opened Prelude
  import opened LineTree

  /** The document: the root of the line tree, together with the tree it stands for. */
  class Doc {
    var root: BranchChunk
    ghost var tree: Tree

    ghost predicate Valid()
      reads this, Chunks(tree), LineSet(Flat(tree))`parent, LineSet(Flat(tree))`height
    {
      && tree.BranchT? && tree.branch == root && this !in Chunks(tree)
      && At(Top, tree)
      && Linked(Flat(tree))
      && Distinct(Items(Flat(tree)))
      && Bounded(tree)
    }

    // The document as a plain sequence: every line with its height.
    ghost function Contents(): (items: seq<Item>)
      reads this
    {
      Items(Flat(tree))
    }

    constructor ()
      ensures Valid() && |Contents()| == 1 && Contents()[0].height == 1 && Contents()[0].line.text == ""
          && Contents()[0].line.Spelled()
      ensures fresh(Contents()[0].line) && forall o | o in Chunks(tree) :: fresh(o)
    {
      var line, leaf; ghost var t;
      line, leaf, t := EmptyLeaf();
      hide Ok, OkL, ChunksL, Chunks, FlatL, Flat, At, Bounded, Distinct, Items, Linked, Sum, LineSet;
      var branch := new BranchChunk([Leaf(leaf)], [t], null);
      FirstTree(branch, t);
      root := branch;
      tree := BranchT(branch, [t]);
      new;
      FirstTree(branch, t);
    }

    method Insert(at: nat, lines: seq<Line>, ghost items: seq<Item>)
      requires Valid() && at <= |Contents()|
      requires Detached(lines, items) && Distinct(Splice(Contents(), at, 0, items))
      modifies `tree, Chunks(tree), LineSet(Flat(tree))`parent, (set l | l in lines)`parent
      ensures Valid() && Contents() == Splice(old(Contents()), at, 0, items)
      ensures forall o | o in Chunks(tree) :: o in old(Chunks(tree)) || fresh(o)
    {
      hide Flat, Bounded, At, Chunks, Linked, Distinct, LineSet, Items;
      ghost var t := root.Insert(at, lines, tree, items);
      RootGood(t);
      tree := t;
      GoodRoot(t);
    }

    method Remove(at: nat, n: nat)
      requires Valid() && at + n <= |Contents()|
      modifies `tree, Chunks(tree), LineSet(Flat(tree))`parent
      ensures Valid() && Contents() == Splice(old(Contents()), at, n, [])
      ensures forall i | at <= i < at + n :: old(Contents())[i].line.parent == null
      ensures forall o | o in Chunks(tree) :: o in old(Chunks(tree)) || fresh(o)
    {
      hide Bounded, Linked, Distinct, LineSet, FlatL, Chunks, At;
      ghost var kids, added;
      ghost var F := Flat(tree);
      RootGood(tree);
      ChunkAllocated(tree);
      assert forall o | o in Chunks(tree) :: allocated(o);
      kids, added := root.Remove(at, n, tree.kids);
      tree := BranchT(root, kids);
      GoodRoot(tree);
      assert forall i | at <= i < at + n :: Items(F)[i].line == F[i].line;
    }

    method UpdateLineHeight(line: Line, height: nat)
      requires Valid()
      requires line.parent == null || exists k :: 0 <= k < |Contents()| && Contents()[k].line == line
      modifies `tree, Chunks(tree), line`height
      ensures Valid() && |Contents()| == |old(Contents())|
      ensures forall k | 0 <= k < |Contents()| ::
        Contents()[k] == if old(Contents())[k].line == line then Item(line, height) else old(Contents())[k]
      ensures line.height == height
      ensures Chunks(tree) == old(Chunks(tree))
    {
      hide At, Bounded, Chunks, Distinct, Flat;
      if line.parent == null {
        assert forall k | 0 <= k < |Contents()| ::
            Flat(tree)[k].line.parent == Flat(tree)[k].owner && Contents()[k].line == Flat(tree)[k].line;
        forall k | 0 <= k < |Contents()| ensures Contents()[k].line != line { }
        NoLine(tree, line);
        assert line !in LineSet(Flat(tree));
        line.height := height;
      } else {
        ghost var k :| 0 <= k < |Contents()| && Contents()[k].line == line;
        ApartAt(Flat(tree), k);
        ghost var t := LineTree.UpdateLineHeight(line, height, tree, k);
        DistinctUpdate(Items(Flat(tree)), k, Item(line, height));
        RootGood(t);
        tree := t;
        GoodRoot(t);
      }
    }

    method GetLine(n: nat) returns (line: Line)
      requires Valid() && n < |Contents()|
      ensures line == Contents()[n].line && line.parent != null && Valid()
    {
      hide Bounded, Distinct, At, Linked, LineSet, Chunks, Flat;
      DocFacts(this);
      RootGood(tree);
      line := GetLineAt(Branch(root), n, tree);
    }

    method LineNo(line: Line) returns (no: Option<nat>)
      requires Valid()
      requires line.parent == null || exists k :: 0 <= k < |Contents()| && Contents()[k].line == line
      ensures no.None? <==> line.parent == null
      ensures no.None? ==> forall k | 0 <= k < |Contents()| :: Contents()[k].line != line
      ensures no.Some? ==> no.value < |Contents()| && Contents()[no.value].line == line
      ensures no.Some? ==> forall k | 0 <= k < |Contents()| && Contents()[k].line == line :: k == no.value
    {
      hide At, Bounded, Chunks, Distinct, Flat;
      if line.parent == null { return None; }
      ghost var k :| 0 <= k < |Contents()| && Contents()[k].line == line;
      var n := LineTree.LineNo(line, tree, k);
      forall m | 0 <= m < |Contents()| && m != n ensures Contents()[m].line != line { Apart(Contents(), m, n); }
      no := Some(n);
    }

    // Getting a line and asking for its number leads back.
    method RoundTrip(n: nat) returns (no: Option<nat>)
      requires Valid() && n < |Contents()|
      ensures no == Some(n)
    {
      hide Flat, Chunks, Linked, LineSet, Distinct, Bounded, At;
      DocFacts(this);
      var line := GetLine(n);
      no := LineNo(line);
    }

    /** The lines from the first to the last that a window of clientHeight pixels shows, when its upper edge is
        top pixels below that of the text. */
    method VisibleLines(top: int, lineHeight: int, clientHeight: int) returns (from: nat, to: nat)
      requires Valid() && lineHeight > 0 && clientHeight >= 0 && top + clientHeight >= 0
      ensures from <= to <= |Contents()|
      ensures forall n | 0 <= n < |Contents()| && Shown(Contents(), n, top, lineHeight, clientHeight) :: from <= n <= to
      ensures InView(Contents(), from, to, top, lineHeight, clientHeight)
    {
      hide Flat, Chunks, Linked, LineSet, Distinct, Bounded, At, LineAt, HeightAt, Shown, InView;
      DocFacts(this);
      ghost var C := Contents();
      var fromHeight := if top / lineHeight < 0 then 0 else top / lineHeight;
      var toHeight := -((-(top + clientHeight)) / lineHeight);
      from := LineAtHeight(fromHeight);
      to := LineAtHeight(toHeight);
      Quotients(top, lineHeight, clientHeight);
      LineAtMonotone(C, fromHeight, toHeight);
      NoWider(C, top, lineHeight, clientHeight);
      forall n | 0 <= n < |C| && Shown(C, n, top, lineHeight, clientHeight) ensures from <= n <= to {
        ShownBetween(C, n, top, lineHeight, clientHeight);
        Reached(C, fromHeight, n);
        Passed(C, toHeight, n);
      }
    }

    method LineAtHeight(h: int) returns (n: nat)
      requires Valid()
      ensures n == LineAt(Contents(), h)
    {
      n := LineTree.LineAtHeight(root, h, tree);
    }

    method HeightAtLine(n: nat) returns (h: nat)
      requires Valid()
      ensures h == HeightAt(Contents(), if n < |Contents()| then n else |Contents()|)
    {
      h := LineTree.HeightAtLine(root, n, tree);
    }

    method Iter(from: nat, to: nat) returns (visited: seq<Line>)
      requires Valid() && from <= to <= |Contents()|
      ensures |visited| == to - from && forall i | 0 <= i < |visited| :: visited[i] == Contents()[from + i].line
    {
      hide Bounded, Distinct;
      visited := root.IterN(from, to - from, tree.kids);
    }

    method Size() returns (n: nat)
      requires Valid()
      ensures n == |Contents()|
    {
      n := root.size;
    }
  }

  // Some pixel of line n lies inside the window.
  ghost predicate Shown(C: seq<Item>, n: nat, top: int, lineHeight: int, clientHeight: int)
    requires n < |C|
  {
    HeightAt(C, n) * lineHeight < top + clientHeight && HeightAt(C, n + 1) * lineHeight > top && C[n].height > 0
  }

  /** The line where the window begins and the one where it ends: from begins at or above the upper edge, and ends below
      it; to begins less than a line's height below the lower edge, and does not end there. */
  ghost predicate InView(C: seq<Item>, from: nat, to: nat, top: int, lineHeight: int, clientHeight: int)
    requires from <= |C| && to <= |C|
  {
    var edge := if top < 0 then 0 else top;
    && HeightAt(C, from) * lineHeight <= edge
    && (from < |C| ==> HeightAt(C, from + 1) * lineHeight > edge)
    && HeightAt(C, to) * lineHeight < top + clientHeight + lineHeight
    && (to < |C| ==> HeightAt(C, to + 1) * lineHeight >= top + clientHeight + lineHeight)
  }

  // So no other two lines will do.
  lemma OneView(C: seq<Item>, from: nat, to: nat, from': nat, to': nat, top: int, lineHeight: int, clientHeight: int)
    requires from <= |C| && to <= |C| && from' <= |C| && to' <= |C| && lineHeight > 0
    requires InView(C, from, to, top, lineHeight, clientHeight) && InView(C, from', to', top, lineHeight, clientHeight)
    ensures from == from' && to == to'
  {
    hide HeightAt;
    if from < from' {
      HeightMonotone(C, from + 1, from');
      TimesMonotone(HeightAt(C, from + 1), HeightAt(C, from'), lineHeight);
    }
    if from' < from {
      HeightMonotone(C, from' + 1, from);
      TimesMonotone(HeightAt(C, from' + 1), HeightAt(C, from), lineHeight);
    }
    if to < to' { HeightMonotone(C, to + 1, to'); TimesMonotone(HeightAt(C, to + 1), HeightAt(C, to'), lineHeight); }
    if to' < to { HeightMonotone(C, to' + 1, to); TimesMonotone(HeightAt(C, to' + 1), HeightAt(C, to), lineHeight); }
  }

  lemma {:induction false} HeightMonotone(C: seq<Item>, i: nat, j: nat)
    requires i <= j <= |C|
    ensures HeightAt(C, i) <= HeightAt(C, j)
    decreases j - i
  {
    if i < j {
      HeightSnoc(C, i);
      HeightMonotone(C, i + 1, j);
    }
  }

  // The line at a height begins at or above it and ends below it.
  lemma {:induction false} LineAtBounds(C: seq<Item>, h: nat)
    ensures var n := LineAt(C, h);
      HeightAt(C, n) <= h && (n < |C| ==> HeightAt(C, n + 1) > h)
  {
    var n := LineAt(C, h);
    if C == [] || h < C[0].height {
      if C != [] { HeightSnoc(C, 0); }
    } else {
      LineAtBounds(C[1..], h - C[0].height);
      assert C[..n][1..] == C[1..][..n - 1];
      if n < |C| { assert C[..n + 1][1..] == C[1..][..n]; }
    }
  }

  lemma NoWider(C: seq<Item>, top: int, lineHeight: int, clientHeight: int)
    requires lineHeight > 0 && clientHeight >= 0 && top + clientHeight >= 0
    ensures InView(C, LineAt(C, if top / lineHeight < 0 then 0 else top / lineHeight),
                   LineAt(C, -((-(top + clientHeight)) / lineHeight)), top, lineHeight, clientHeight)
  {
    hide LineAt, HeightAt;
    Quotients(top, lineHeight, clientHeight);
    var g, h := if top / lineHeight < 0 then 0 else top / lineHeight, -((-(top + clientHeight)) / lineHeight);
    var from, to, edge := LineAt(C, g), LineAt(C, h), if top < 0 then 0 else top;
    LineAtBounds(C, g);
    LineAtBounds(C, h);
    Rounded(top, lineHeight, clientHeight);
    TimesMonotone(HeightAt(C, from), g, lineHeight);
    if from < |C| { LessTimes(g, HeightAt(C, from + 1), lineHeight); }
    TimesMonotone(HeightAt(C, to), h, lineHeight);
    if to < |C| { LessTimes(h, HeightAt(C, to + 1), lineHeight); }
  }

  // Whole lines, rounded down at the upper edge and up at the lower.
  lemma Rounded(top: int, lineHeight: int, clientHeight: int)
    requires lineHeight > 0
    ensures var g, edge := if top / lineHeight < 0 then 0 else top / lineHeight, if top < 0 then 0 else top;
      g * lineHeight <= edge < g * lineHeight + lineHeight
    ensures var h, e := -((-(top + clientHeight)) / lineHeight), top + clientHeight;
      e <= h * lineHeight < e + lineHeight
  {
    var q, r, e := top / lineHeight, (-(top + clientHeight)) / lineHeight, top + clientHeight;
    assert q * lineHeight <= top < q * lineHeight + lineHeight;
    assert r * lineHeight <= -e < r * lineHeight + lineHeight;
    assert (-r) * lineHeight == -(r * lineHeight);
    if q < 0 { LessTimes(q, 0, lineHeight); } else { TimesMonotone(0, q, lineHeight); }
  }

  // Rounding down and up keeps the order.
  lemma Quotients(top: int, lineHeight: int, clientHeight: int)
    requires lineHeight > 0 && clientHeight >= 0 && top + clientHeight >= 0
    ensures (if top / lineHeight < 0 then 0 else top / lineHeight) <= -((-(top + clientHeight)) / lineHeight)
  {
    var q, r, e := top / lineHeight, (-(top + clientHeight)) / lineHeight, top + clientHeight;
    assert q * lineHeight <= top && r * lineHeight <= -e;
    assert e <= (-r) * lineHeight;
    if -r < 0 { LessTimes(-r, 0, lineHeight); }
    if -r < q { LessTimes(-r, q, lineHeight); }
  }

  lemma {:induction false} LessTimes(a: int, b: int, m: int)
    requires a < b && m > 0
    ensures a * m + m <= b * m
    decreases b - a
  {
    assert (a + 1) * m == a * m + m;
    if a + 1 < b { LessTimes(a + 1, b, m); }
  }

  lemma ShownBetween(C: seq<Item>, n: nat, top: int, lineHeight: int, clientHeight: int)
    requires lineHeight > 0 && clientHeight >= 0 && n < |C| && Shown(C, n, top, lineHeight, clientHeight)
    ensures HeightAt(C, n + 1) > (if top / lineHeight < 0 then 0 else top / lineHeight)
    ensures HeightAt(C, n) <= -((-(top + clientHeight)) / lineHeight) && C[n].height > 0
  {
    var q, r, e, a, b := top / lineHeight, (-(top + clientHeight)) / lineHeight, top + clientHeight,
      HeightAt(C, n), HeightAt(C, n + 1);
    HeightSnoc(C, n);
    assert q * lineHeight <= top && r * lineHeight <= -e < r * lineHeight + lineHeight;
    if b <= q { TimesMonotone(b, q, lineHeight); }
    if a > -r { LessTimes(-r, a, lineHeight); }
  }

  lemma TimesMonotone(a: int, b: int, m: int)
    requires a <= b && m > 0
    ensures a * m <= b * m
  {
    if a < b { LessTimes(a, b, m); }
  }

  lemma HeightSnoc(C: seq<Item>, n: nat)
    requires n < |C|
    ensures HeightAt(C, n + 1) == HeightAt(C, n) + C[n].height
  {
    TotalSnoc(C, n);
  }

  lemma {:induction false} TotalSnoc(C: seq<Item>, n: nat)
    requires n < |C|
    ensures Total(C[..n + 1]) == Total(C[..n]) + C[n].height
  {
    if n > 0 {
      TotalSnoc(C[1..], n - 1);
      assert C[..n + 1][1..] == C[1..][..n] && C[..n][1..] == C[1..][..n - 1];
    }
  }

  lemma {:induction false} LineAtMonotone(C: seq<Item>, g: int, h: int)
    requires g <= h
    ensures LineAt(C, g) <= LineAt(C, h)
  {
    if C != [] && g >= C[0].height { LineAtMonotone(C[1..], g - C[0].height, h - C[0].height); }
  }

  // A line that reaches below a height is not in front of the line at that height.
  lemma {:induction false} Reached(C: seq<Item>, h: int, n: nat)
    requires n < |C| && HeightAt(C, n + 1) > h
    ensures LineAt(C, h) <= n
  {
    assert C[..n + 1][1..] == C[1..][..n];
    if n == 0 { HeightSnoc(C, 0); }
    if h >= C[0].height && n > 0 {
      Reached(C[1..], h - C[0].height, n - 1);
    }
  }

  // A line that begins at or above a height is not behind the line at that height.
  lemma {:induction false} Passed(C: seq<Item>, h: int, n: nat)
    requires n < |C| && HeightAt(C, n) <= h && C[n].height > 0
    ensures n <= LineAt(C, h)
  {
    if n > 0 {
      assert C[..n][1..] == C[1..][..n - 1];
      assert h >= C[0].height;
      Passed(C[1..], h - C[0].height, n - 1);
    }
  }

  // A leaf with one empty line.
  method EmptyLeaf() returns (line: Line, leaf: LeafChunk, ghost t: Tree)
    ensures fresh(line) && fresh(leaf) && leaf.parent == null && line.height == 1 && line.text == "" && line.Spelled()
    ensures t.LeafT? && t.leaf == leaf && |t.rows| == 1 && t.rows[0].line == line && t.rows[0].height == 1
    ensures Ok(t) && OkL([t], null) && Uniq(ChunksL([t])) && Linked(t.rows)
    ensures ChunksL([t]) == multiset{leaf}
    ensures LineSet(t.rows) == {line} && Items(t.rows) == [Item(line, 1)]
  {
    hide Ok, OkL, ChunksL, Chunks, Linked, Sum;
    line := new Line("");
    leaf := new LeafChunk([line]);
    ghost var rows := RowsOf(leaf, [line]);
    t := LeafT(leaf, rows);
    FirstLeaf(leaf, line, rows);
  }

  // Chunks and lines are different objects, and known ones.
  lemma DocFacts(doc: Doc)
    requires doc.Valid()
    ensures Distinct(doc.Contents())
    ensures forall l: Line :: l !in Chunks(doc.tree)
    ensures forall o | o in Chunks(doc.tree) :: allocated(o)
    ensures forall i | 0 <= i < |doc.Contents()| :: allocated(doc.Contents()[i].line)
    ensures forall l | l in LineSet(Flat(doc.tree)) :: allocated(l)
    ensures forall it | it in doc.Contents() :: allocated(it.line)
    ensures forall l | l in LineSet(Flat(doc.tree)) ::
        exists i :: 0 <= i < |doc.Contents()| && doc.Contents()[i].line == l
    ensures forall i | 0 <= i < |doc.Contents()| :: doc.Contents()[i].line in LineSet(Flat(doc.tree))
    ensures forall i | 0 <= i < |doc.Contents()| :: doc.Contents()[i].line.height == doc.Contents()[i].height
    ensures forall i | 0 <= i < |doc.Contents()| :: doc.Contents()[i].line.parent != null
  {
    hide At, Bounded, Flat, Chunks;
    forall l: Line ensures l !in Chunks(doc.tree) { NoLine(doc.tree, l); }
    ChunkAllocated(doc.tree);
    FlatAllocated(doc.tree);
    var F := Flat(doc.tree);
    assert forall i | 0 <= i < |F| :: doc.Contents()[i].line == F[i].line && F[i].line.parent == F[i].owner;
    forall l | l in LineSet(F) ensures exists i :: 0 <= i < |doc.Contents()| && doc.Contents()[i].line == l {
      var i :| 0 <= i < |F| && F[i].line == l;
      assert doc.Contents()[i].line == l;
    }
  }


  lemma DistinctUpdate(items: seq<Item>, k: nat, item: Item)
    requires Distinct(items) && k < |items| && item.line == items[k].line
    ensures Distinct(items[k := item])
  {
  }

  lemma FirstLeaf(leaf: LeafChunk, line: Line, rows: seq<Row>)
    requires rows == RowsOf(leaf, [line]) && leaf.lines == [line] && leaf.height == Sum(rows) && leaf.parent == null
    requires line.parent == leaf
    ensures Ok(LeafT(leaf, rows)) && OkL([LeafT(leaf, rows)], null) && Uniq(ChunksL([LeafT(leaf, rows)]))
    ensures Linked(rows) && |rows| == 1 && rows[0].line == line && rows[0].height == line.height
    ensures ChunksL([LeafT(leaf, rows)]) == multiset{leaf}
  {
    assert LinesOf(rows) == [line];
    OneKid(LeafT(leaf, rows), null);
  }

  lemma FirstTree(root: BranchChunk, t: Tree)
    requires t.LeafT? && |t.rows| == 1 && Ok(BranchT(root, [t])) && root.parent == null
    ensures At(Top, BranchT(root, [t])) && Bounded(BranchT(root, [t])) && Distinct(Items(Flat(BranchT(root, [t]))))
    ensures Flat(BranchT(root, [t])) == t.rows
    ensures Chunks(BranchT(root, [t])) == multiset{root} + multiset{t.leaf}
  {
    OneKid(t, root);
    hide Ok, Flat, Sum;
    CachedSums(BranchT(root, [t]));
    FlatBranch(root, [t]);
    FlatLeaf(t);
    TopOk(Branch(root), root.size, root.height);
    AroundTop(BranchT(root, [t]));
  }

  lemma RootGood(t: Tree)
    requires t.BranchT? && At(Top, t) && Linked(Flat(t)) && Distinct(Items(Flat(t)))
    ensures Good(t) && t.branch.parent == null && Flat(t) == FlatL(t.kids)
  {
    UniqParts(Chunks(t), CtxChunks(Top));
  }

  lemma GoodRoot(t: Tree)
    requires t.BranchT? && Good(t) && t.branch.parent == null
    ensures At(Top, t) && Linked(Flat(t)) && Distinct(Items(Flat(t))) && Flat(t) == FlatL(t.kids)
  {
    assert Chunks(t) + CtxChunks(Top) == Chunks(t);
  }
}
