/** The tree that holds the lines of a document: leaves with lines, branches with children, parent links, and
    cached sizes and heights, all updated in place.

    A Tree is the ghost picture of a subtree: which chunk objects hang below which, and the rows of the leaves.
    Ok says that the heap agrees with the picture. A Ctx is the path from the root down to a place in the tree,
    with what lies to the left and right of it; At says that a subtree fits into its place. */
module LineTree {
  import opened Prelude
  import opened Slices
  import opened Styles
  import opened Tokenizers
  import opened Highlighting

  class Line {
    var text: string
    var styles: seq<Run>
    var height: nat
    var parent: LeafChunk?

    // The runs spell the text.
    ghost predicate Spelled()
      reads `text, `styles
    {
      Text(Cells(styles)) == text
    }

    constructor (text: string)
      ensures this.text == text && height == 1 && parent == null
      ensures styles == [Run(text, None)] && Spelled()
    {
      this.text := text;
      styles := [Run(text, None)];
      height := 1;
      parent := null;
      OneRun(text);
    }

    constructor Styled(text: string, styles: seq<Run>)
      ensures this.text == text && this.styles == styles && height == 1 && parent == null
    {
      this.text := text;
      this.styles := styles;
      height := 1;
      parent := null;
    }

    // Replaces the characters from..to by new_, which is not styled yet; None stands for the start or the end.
    method Replace(from: Option<nat>, to: Option<nat>, new_: string)
      requires Spelled()
      requires var f, t := from.GetOr(0), to.GetOr(|text|); f <= t <= |text|
      modifies `text, `styles
      ensures Spelled()
      ensures var f, t := from.GetOr(0), to.GetOr(|old(text)|);
        && text == old(text)[..f] + new_ + old(text)[t..]
        && Cells(styles) == old(Cells(styles))[..f] + Paint(new_, None) + old(Cells(styles))[t..]
    {
      hide Cells, Text, Paint;
      SpelledSize(this);
      var f, t := from.GetOr(0), to.GetOr(|text|);
      ghost var cells := Cells(styles);
      var st := CopyStyles(0, f, styles, []);
      if new_ != "" { st := st + [Run(new_, None)]; }
      Pasted(cells, f, st, new_);
      st := CopyStyles(t, |text|, styles, st);
      assert cells[t..|text|] == cells[t..];
      Respell(cells, text, f, t, new_);
      styles := st;
      text := text[..f] + new_ + text[t..];
    }

    // Splits off the part behind pos into a new line that starts with before.
    method Split(pos: nat, before: string) returns (taken: Line)
      requires Spelled() && pos <= |text|
      ensures fresh(taken) && taken.Spelled() && taken.height == 1 && taken.parent == null
      ensures taken.text == before + text[pos..]
      ensures Cells(taken.styles) == Paint(before, None) + Cells(styles)[pos..]
    {
      hide Cells, Text, Paint;
      SpelledSize(this);
      ghost var cells := Cells(styles);
      OneRun(before);
      var st := CopyStyles(pos, |text|, styles, [Run(before, None)]);
      assert cells[pos..|text|] == cells[pos..];
      Respell(cells, text, 0, pos, before);
      assert cells[..0] + Paint(before, None) == Paint(before, None) && text[..0] + before == before;
      taken := new Line.Styled(before + text[pos..], st);
    }

    method Append(line: Line)
      requires Spelled() && line.Spelled()
      modifies `text, `styles
      ensures Spelled()
      ensures text == old(text) + old(line.text)
      ensures Cells(styles) == old(Cells(styles)) + old(Cells(line.styles))
    {
      hide Cells, Text, Paint;
      SpelledSize(line);
      ghost var mine, theirs := Cells(styles), Cells(line.styles);
      SpellAppend(mine, theirs);
      var n, source := |line.text|, line.styles;
      text := text + line.text;
      styles := CopyStyles(0, n, source, styles);
      assert theirs[0..n] == theirs;
    }

    /** Runs the mode over the line and overwrites the runs in place. The result tells whether they changed,
        None if they did not but are too simple to tell; it is only right up to the cut-off. */
    method Highlight<S(!new)>(mode: Mode<S>, state: S) returns (result: Option<bool>, after: S)
      requires Advances(mode) && mode.ok(text, 0, state)
      modifies `styles
      ensures var s := if text == "" then mode.blankLine(state) else state;
        && mode.ok(text, 0, s)
        && Cells(styles) == Painted(mode, text, 0, s, 5000) && after == After(mode, text, 0, s, 5000)
      ensures Spelled()
      ensures if |text| <= 5000 then Normal(styles)
        else styles != [] && Normal(styles[..|styles| - 1]) && styles[|styles| - 1].style == None
      ensures |text| <= 5000 ==>
        result == if styles != old(styles) then Some(true) else if |styles| <= 2 && |text| < 10 then None
          else Some(false)
    {
      hide Cells, Paint, Text, Normal, Same, Tracks, Painted, After, Advances;
      var s := state;
      if text == "" { s := mode.blankLine(s); Blank(mode, state); }
      ghost var st := styles;
      var n, changed, curWord, prevWord;
      n, changed, curWord, prevWord, after := Fragments(mode, s);
      if |text| <= 5000 { TracksAll(styles, st, n, changed, curWord, prevWord); }
      ghost var all := styles;
      if |styles| != n {
        styles := styles[..n];
        changed := true;
      }
      assert styles == all[..n] && (n > 0 ==> styles[..|styles| - 1] == all[..n - 1]);
      if n > 0 && Some(styles[n - 1].text) != prevWord { changed := true; }
      result := if changed then Some(true) else if |styles| < 3 && |text| < 10 then None else Some(false);
    }

    // Lets the mode run to the end of the line, or to the first token that ends behind the cut-off.
    method Fragments<S(!new)>(mode: Mode<S>, s0: S)
      returns (n: nat, changed: bool, curWord: Option<string>, prevWord: Option<string>, s: S)
      requires Advances(mode) && mode.ok(text, 0, s0)
      modifies `styles
      ensures n <= |styles| && Cells(styles[..n]) == Painted(mode, text, 0, s0, 5000)
          && s == After(mode, text, 0, s0, 5000)
      ensures |text| <= 5000 ==> Normal(styles[..n]) && Tracks(styles, old(styles), n, changed, curWord, prevWord)
      ensures |text| > 5000 ==> n > 0 && Normal(styles[..n - 1]) && styles[n - 1].style == None
    {
      hide Cells, Paint, Text, Normal, Same, Tracks, Painted, After, Advances, Put, TextAt;
      var pos: nat := 0;
      n, changed, s := 0, false, s0;
      curWord, prevWord := TextAt(styles, 0), None;
      ghost var st, cells, whole := styles, [], Painted(mode, text, 0, s0, 5000);
      NoCells();
      TracksNone(st);
      assert styles[..0] == [] && cells + whole == whole;
      while pos < |text|
        invariant pos <= |text| && pos <= 5000 && mode.ok(text, pos, s)
        invariant Tracks(styles, st, n, changed, curWord, prevWord)
        invariant n <= |styles| && cells == Cells(styles[..n])
        invariant cells + Painted(mode, text, pos, s, 5000) == whole
        invariant After(mode, text, pos, s, 5000) == After(mode, text, 0, s0, 5000)
        decreases |text| - pos, mode.rank(s)
      {
        PaintedStep(mode, text, pos, s, 5000);
        var token := mode.token(text, pos, s);
        var substr := text[pos..token.pos];
        pos, s := token.pos, token.state;
        n, changed, curWord, prevWord := Fragment(substr, token.style, n, changed, curWord, prevWord, st);
        TracksNormal(styles, st, n, changed, curWord, prevWord);
        Together(cells, Paint(substr, token.style),
          if pos > 5000 then Paint(text[pos..], None) else Painted(mode, text, pos, s, 5000));
        cells := Cells(styles[..n]);
        if pos > 5000 {
          PutSnoc(styles, n, Run(text[pos..], None));
          styles := Put(styles, n, Run(text[pos..], None));
          n := n + 1;
          return;
        }
      }
      PaintedEnd(mode, text, s, 5000);
      TracksNormal(styles, st, n, changed, curWord, prevWord);
    }

    // Adds a fragment: to the run before it if that has the same style, else as the next run.
    method Fragment(substr: string, style: Style, n0: nat, changed0: bool, curWord0: Option<string>,
        prevWord0: Option<string>, ghost st: seq<Run>)
      returns (n: nat, changed: bool, curWord: Option<string>, prevWord: Option<string>)
      requires Tracks(styles, st, n0, changed0, curWord0, prevWord0)
      modifies `styles
      ensures Tracks(styles, st, n, changed, curWord, prevWord)
      ensures n <= |styles| && Cells(styles[..n]) == old(Cells(styles[..n0])) + Paint(substr, style)
    {
      hide Cells, Paint, Normal, Same;
      n, changed, curWord, prevWord := n0, changed0, curWord0, prevWord0;
      if n > 0 && styles[n - 1].style == style {
        TracksGrown(styles, st, n, changed, curWord, prevWord, substr);
        styles := styles[n - 1 := Run(styles[n - 1].text + substr, style)];
      } else if substr != "" {
        TracksPut(styles, st, n, changed, curWord, prevWord, Run(substr, style));
        if !changed && (StyleAt(styles, n) != style || (n > 0 && Some(styles[n - 1].text) != prevWord)) {
          changed := true;
        }
        styles := Put(styles, n, Run(substr, style));
        n := n + 1;
        prevWord := curWord;
        curWord := TextAt(styles, n);
      } else {
        PaintNothing(style);
      }
    }
  }

  lemma SumRange(rows: seq<Row>, at: nat, i: nat)
    requires at <= i < |rows|
    ensures Sum(rows[at..i + 1]) == Sum(rows[at..i]) + rows[i].height
  {
    hide Sum;
    SumSnoc(rows[at..], i - at);
    assert rows[at..i] == rows[at..][..i - at] && rows[at..i + 1] == rows[at..][..i + 1 - at];
  }

  lemma SpelledSize(line: Line)
    requires line.Spelled()
    ensures |Cells(line.styles)| == |line.text|
  {
  }

  class LeafChunk {
    var lines: seq<Line>
    var height: int
    var parent: BranchChunk?

    constructor (lines: seq<Line>)
      modifies (set l | l in lines)`parent
      ensures this.lines == lines && parent == null
      ensures height == Sum(RowsOf(this, lines))
      ensures forall l | l in lines :: l.parent == this
    {
      hide Sum;
      this.lines := lines;
      this.parent := null;
      this.height := 0;
      new;
      EmptyKids(null);
      var h := 0;
      ghost var rows := RowsOf(this, lines);
      for i := 0 to |lines|
        invariant this.lines == lines && parent == null
        invariant forall j | 0 <= j < |lines| :: lines[j].height == rows[j].height
        invariant forall j | 0 <= j < i :: lines[j].parent == this
        invariant h == Sum(rows[..i])
      {
        lines[i].parent := this;
        h := h + lines[i].height;
        SumSnoc(rows, i);
      }
      assert rows[..|lines|] == rows;
      assert RowsOf(this, lines) == rows;
      this.height := h;
    }

    method InsertHeight(at: nat, lines: seq<Line>, height: int, ghost rows: seq<Row>, ghost items: seq<Item>)
      returns (ghost rows': seq<Row>)
      requires Ok(LeafT(this, rows)) && at <= |rows|
      requires Detached(lines, items) && height == Total(items)
      modifies this`lines, this`height, (set l | l in lines)`parent
      ensures Ok(LeafT(this, rows')) && |rows'| == |rows| + |lines|
      ensures rows' == Splice(rows, at, 0, Owned(this, items))
      ensures Sum(rows') == Sum(rows) + height
      ensures forall l | l in lines :: l.parent == this
    {
      hide Sum, Total;
      this.height := this.height + height;
      this.lines := this.lines[..at] + lines + this.lines[at..];
      for i := 0 to |lines|
        invariant this.lines == old(this.lines[..at] + lines + this.lines[at..])
        invariant this.height == old(this.height) + height
        invariant forall j | 0 <= j < i :: lines[j].parent == this
      {
        lines[i].parent := this;
      }
      rows' := Splice(rows, at, 0, Owned(this, items));
      SumTotal(Owned(this, items));
      SumSplice(rows, at, 0, Owned(this, items));
      assert rows[at..at] == [];
    }

    method Remove(at: nat, n: nat, ghost rows: seq<Row>) returns (ghost rows': seq<Row>)
      requires Good(LeafT(this, rows)) && at + n <= |rows|
      modifies this`lines, this`height, LineSet(rows)`parent
      ensures Good(LeafT(this, rows')) && rows' == Splice(rows, at, n, [])
      ensures forall i | at <= i < at + n :: rows[i].line.parent == null
    {
      hide Sum, Distinct, Items;
      Detach(at, n, rows);
      this.lines := this.lines[..at] + this.lines[at + n..];
      rows' := Splice(rows, at, n, []);
      SumSplice(rows, at, n, []);
      Cut(rows, at, n);
    }

    // The lines at..at + n lose their parent, and the leaf their heights.
    method Detach(at: nat, n: nat, ghost rows: seq<Row>)
      requires Good(LeafT(this, rows)) && at + n <= |rows|
      modifies this`height, LineSet(rows)`parent
      ensures this.lines == LinesOf(rows) && this.height == Sum(rows) - Sum(rows[at..at + n])
      ensures forall k | at <= k < at + n :: rows[k].line.parent == null
      ensures forall k | 0 <= k < |rows| && !(at <= k < at + n) :: rows[k].line.parent == this
    {
      hide Sum, Distinct, Items;
      EmptyKids(null);
      assert rows[at..at] == [];
      for i := at to at + n
        invariant this.lines == LinesOf(rows)
        invariant this.height == Sum(rows) - Sum(rows[at..i])
        invariant forall k | at <= k < i :: rows[k].line.parent == null
        invariant forall k | 0 <= k < |rows| && !(at <= k < i) :: rows[k].line.parent == this
      {
        var line := this.lines[i];
        ApartAt(rows, i);
        SumRange(rows, at, i);
        this.height := this.height - line.height;
        line.parent := null;
      }
    }
  }

  class BranchChunk {
    var children: seq<Chunk>
    var size: int
    var height: int
    var parent: BranchChunk?

    constructor (children: seq<Chunk>, ghost kids: seq<Tree>, ghost p: BranchChunk?)
      requires children == Refs(kids) && |kids| >= 1 && SameKind(kids, kids[0].LeafT?)
      requires OkL(kids, p) && Uniq(ChunksL(kids))
      modifies ChunksL(kids)
      ensures Ok(BranchT(this, kids)) && parent == null
      ensures this !in ChunksL(kids)
    {
      this.children := children;
      this.parent := null;
      this.size, this.height := 0, 0;
      ChunksAllocated(kids);
      new;
      var s, h := Adopt(this, children, kids, p);
      this.size, this.height := s, h;
    }

    // Splits a branch with too many children, and then its parents in turn.
    method MaybeSpill(ghost c: Ctx, ghost kids: seq<Tree>) returns (ghost whole: Tree, ghost added: multiset<object>)
      requires At(c, BranchT(this, kids))
      modifies Chunks(BranchT(this, kids)) + CtxChunks(c)
      ensures At(Top, whole)
      ensures Ref(whole) == RootRef(c, Branch(this))
      ensures Flat(whole) == Around(c, BranchT(this, kids))
      ensures CtxBounded(c) && AllBounded(kids) ==> Bounded(whole)
      ensures Chunks(whole) == Chunks(BranchT(this, kids)) + CtxChunks(c) + added && forall o | o in added :: fresh(o)
      decreases Depth(c), |kids|
    {
      hide FlatL, ChunksL, Chunks, CtxChunks, OkL, Ok, OkCtx, Sum, At, Around;
      AtRoot(c, this, kids);
      if |this.children| <= 10 {
        whole, added := Whole(c, BranchT(this, kids)), multiset{};
        AtWhole(c, BranchT(this, kids));
        RootOfWhole(c, BranchT(this, kids));
        if CtxBounded(c) && AllBounded(kids) { WholeBounded(c, BranchT(this, kids)); }
        return;
      }
      ghost var ctx, ks, more;
      var me;
      me, ctx, ks, added := SpillAll(this, c, kids);
      ghost var t := BranchT(me, ks);
      GoUp(ctx, t);
      InAll(Chunks(Up(ctx, t)), CtxChunks(ctx.up), Chunks(BranchT(this, kids)) + CtxChunks(c), added);
      whole, more := me.parent.MaybeSpill(ctx.up, ctx.left + [t] + ctx.right);
      added := added + more;
    }

    method Insert(at: nat, lines: seq<Line>, ghost t: Tree, ghost items: seq<Item>) returns (ghost t': Tree)
      requires t.BranchT? && t.branch == this && At(Top, t) && Linked(Flat(t)) && at <= |Flat(t)|
      requires Detached(lines, items) && Distinct(Splice(Items(Flat(t)), at, 0, items))
      modifies Chunks(t), LineSet(Flat(t))`parent, (set l | l in lines)`parent
      ensures At(Top, t') && Linked(Flat(t')) && t'.BranchT? && t'.branch == this
      ensures Items(Flat(t')) == Splice(Items(Flat(t)), at, 0, items)
      ensures Bounded(t) ==> Bounded(t')
      ensures forall o | o in Chunks(t') :: o in Chunks(t) || fresh(o)
    {
      hide Bounded, Linked, LineSet, Distinct, Sum, Ok, Flat, Items, Total, Chunks, At;
      var height := 0;
      FlatAllocated(t);
      ChunkAllocated(t);
      TotalEmpty(items);
      for i := 0 to |lines|
        invariant Detached(lines, items) && At(Top, t) && Linked(Flat(t))
        invariant height == Total(items[..i])
      {
        height := height + lines[i].height;
        TotalSnoc(items, i);
      }
      assert items[..|lines|] == items;
      AroundTop(t);
      AtTop(t, |lines|, height);
      ghost var added;
      t', added := InsertHeight(at, lines, height, Top, t.kids, items);
    }

    // Counts the new lines in this branch, and finds the child they go to.
    method Enter(at: nat, n: nat, height: int, ghost c: Ctx, ghost kids: seq<Tree>) returns (i: nat, at': nat)
      requires AtWith(c, BranchT(this, kids), n, height) && at <= |FlatL(kids)|
      requires Linked(Around(c, BranchT(this, kids)))
      modifies `size, `height
      ensures i < |kids| && at' <= |Flat(kids[i])| && this.children == Refs(kids)
      ensures var c1 := In(c, this, kids[..i], kids[i + 1..]);
        && AtWith(c1, kids[i], n, height) && |Pre(c1)| + at' == |Pre(c)| + at
        && Around(c1, kids[i]) == Around(c, BranchT(this, kids)) && Linked(Around(c1, kids[i]))
        && Chunks(kids[i]) + CtxChunks(c1) == Chunks(BranchT(this, kids)) + CtxChunks(c)
        && (CtxBounded(c) && Bounded(BranchT(this, kids)) ==> CtxBounded(c1) && Bounded(kids[i]))
    {
      hide Ok, OkL, OkCtx, CtxChunks, Chunks, Pre, Post, Sum, Around, Linked, LineSet, FlatL, Flat;
      ghost var t0 := BranchT(this, kids);
      WithParts(c, this, kids, n, height);
      CtxAllocated(c);
      ChunksAllocated(kids);
      LinesAllocated(c, t0);
      this.size := this.size + n;
      this.height := this.height + height;
      i, at' := FindInsert(this.children, at, kids, this);
      ghost var l, t, r := kids[..i], kids[i], kids[i + 1..];
      assert kids == l + [t] + r;
      Descend(c, this, l, t, r, n, height);
      PreIn(In(c, this, l, r));
    }

    method InsertHeight(at: nat, lines: seq<Line>, height: int,
                        ghost c: Ctx, ghost kids: seq<Tree>, ghost items: seq<Item>)
      returns (ghost whole: Tree, ghost added: multiset<object>)
      requires AtWith(c, BranchT(this, kids), |lines|, height) && at <= |FlatL(kids)|
      requires Linked(Around(c, BranchT(this, kids)))
      requires Detached(lines, items) && height == Total(items)
      requires Distinct(Splice(Items(Around(c, BranchT(this, kids))), |Pre(c)| + at, 0, items))
      modifies Chunks(BranchT(this, kids)) + CtxChunks(c), LineSet(Around(c, BranchT(this, kids)))`parent,
        (set l | l in lines)`parent
      ensures At(Top, whole) && Linked(Flat(whole)) && Ref(whole) == RootRef(c, Branch(this))
      ensures Items(Flat(whole)) == Splice(Items(Around(c, BranchT(this, kids))), |Pre(c)| + at, 0, items)
      ensures CtxBounded(c) && Bounded(BranchT(this, kids)) ==> Bounded(whole)
      ensures Chunks(whole) == Chunks(BranchT(this, kids)) + CtxChunks(c) + added && forall o | o in added :: fresh(o)
      decreases kids
    {
      hide Ok, OkL, OkCtx, CtxChunks, Chunks, Pre, Post, Items, Total, Sum, Around, Linked, Distinct, LineSet,
          FlatL, Flat, AtWith, At;
      RootIn(BranchT(this, kids));
      var i, at' := Enter(at, |lines|, height, c, kids);
      ghost var c1, t := In(c, this, kids[..i], kids[i + 1..]), kids[i];
      InAll(Chunks(t), CtxChunks(c1), Chunks(BranchT(this, kids)) + CtxChunks(c), multiset{});
      match this.children[i]
      case Leaf(leaf) =>
        FlatLeaf(t);
        whole, added := InsertAtLeaf(this, leaf, i, at', lines, height, c1, t.rows, items);
      case Branch(child) =>
        FlatBranch(child, t.kids);
        whole, added := child.InsertHeight(at', lines, height, c1, t.kids, items);
    }

    method Remove(at0: nat, n0: nat, ghost kids: seq<Tree>) returns (ghost ks: seq<Tree>, ghost added: multiset<object>)
      requires Good(BranchT(this, kids)) && at0 + n0 <= |FlatL(kids)|
      modifies Chunks(BranchT(this, kids)), LineSet(FlatL(kids))`parent
      ensures Good(BranchT(this, ks)) && this.parent == old(this.parent)
      ensures Items(FlatL(ks)) == Splice(Items(FlatL(kids)), at0, n0, [])
      ensures forall i | at0 <= i < at0 + n0 :: FlatL(kids)[i].line.parent == null
      ensures Chunks(BranchT(this, ks)) <= Chunks(BranchT(this, kids)) + added && forall o | o in added :: fresh(o)
      ensures Bounded(BranchT(this, kids)) ==> Bounded(BranchT(this, ks))
      ensures |FlatL(kids)| - n0 < 25 ==> |ks| == 1 && ks[0].LeafT?
      decreases BranchT(this, kids), 0
    {
      hide OkL, ChunksL, FlatL, Ok, Flat, Sum, Chunks, Items, Kids, Linked, Distinct, LineSet, Good, Splice,
          Removing, Removed;
      GoodParts(this, kids);
      ghost var leaf := ReduceSize(this, n0, kids);
      var at: nat, n: nat, i := at0, n0, 0;
      ghost var done, rest: seq<Tree>, finished := [], kids, false;
      added := multiset{};
      RemovingStart(this, kids, leaf, at0, n0);
      assert done + rest == kids;
      while i < |this.children|
        invariant Removing(this, kids, leaf, at0, n0, at, n, done, rest)
        invariant this.size == |FlatL(kids)| - n0 && this.parent == old(this.parent)
        invariant !finished && i == |done| && |this.children| == |done| + |rest|
        invariant ChunksL(done + rest) <= ChunksL(kids) + added
        invariant forall o | o in added :: fresh(o)
        decreases |rest|
      {
        RemovingHead(this, kids, leaf, at0, n0, at, n, done, rest);
        KidInside(kids, rest[0]);
        var child := this.children[i];
        var sz := child.Size();
        if at < sz {
          var rm := if n < sz - at then n else sz - at;
          ghost var m, more;
          m, more := RemoveTake(this, kids, leaf, at0, n0, i, at, n, rm, done, rest);
          added := added + more;
          done, rest := done + m, rest[1..];
          if sz == rm { i := i - 1; }
          n := n - rm;
          if n == 0 { finished := true; break; }
          RemovingLength(this, kids, leaf, at0, n0, 0, n, done, rest);
          at := 0;
        } else {
          RemovingSkip(this, kids, leaf, at0, n0, at, n, done, rest);
          at := at - sz;
          done, rest := done + [rest[0]], rest[1..];
        }
        i := i + 1;
      }
      ks := done + rest;
      if !finished { RemovingEnd(this, kids, leaf, at0, n0, at, n, done, rest); }
      ghost var more;
      ks, more := CollapseSmall(this, n, kids, leaf, at0, n0, ks);
      added := added + more;
    }

    method Collapse(lines: seq<Line>, ghost kids: seq<Tree>) returns (lines': seq<Line>)
      requires OkL(kids, this) && this.children == Refs(kids)
      ensures lines' == lines + LinesOf(FlatL(kids))
      decreases kids
    {
      hide OkL, FlatL, Ok, Flat, Sum;
      lines' := lines;
      EmptyKids(this);
      ChunksAllocated(kids);
      for i := 0 to |this.children|
        invariant OkL(kids, this)
        invariant lines' == lines + LinesOf(FlatL(kids[..i]))
      {
        KidAt(kids, i, this);
        lines' := this.children[i].Collapse(lines', kids[i]);
      }
      assert kids[..|kids|] == kids;
    }

    method IterN(at0: nat, n0: nat, ghost kids: seq<Tree>) returns (visited: seq<Line>)
      requires OkL(kids, this) && this.children == Refs(kids) && at0 + n0 <= |FlatL(kids)|
      ensures visited == LinesOf(FlatL(kids)[at0..at0 + n0])
      decreases kids
    {
      hide OkL, FlatL, Ok, Flat, Sum, LinesOf;
      var at: nat, n: nat, i: nat := at0, n0, 0;
      visited := [];
      ghost var F := FlatL(kids);
      EmptyKids(this);
      ChunksAllocated(kids);
      assert kids[..0] == [] && kids[0..] == kids;
      NoLinesYet(F, at0);
      while i < |this.children|
        invariant OkL(kids, this) && i <= |kids|
        invariant n <= n0 && |FlatL(kids[..i])| + at == at0 + (n0 - n) && at + n <= |FlatL(kids[i..])|
        invariant visited == LinesOf(F[at0..at0 + (n0 - n)])
      {
        var child := this.children[i];
        KidAt(kids, i, this);
        var sz := child.Size();
        if at < sz {
          var used := if n < sz - at then n else sz - at;
          var more := child.IterN(at, used, kids[i]);
          assert F == FlatL(kids[..i]) + Flat(kids[i]) + FlatL(kids[i + 1..]);
          Window(FlatL(kids[..i]), Flat(kids[i]), FlatL(kids[i + 1..]), at, used, at0, n0 - n);
          visited := visited + more;
          n := n - used;
          if n == 0 { break; }
          at := 0;
        } else {
          at := at - sz;
        }
        i := i + 1;
      }
      assert i == |kids| ==> kids[i..] == [];
    }
  }

  method Adopt(q: BranchChunk, children: seq<Chunk>, ghost kids: seq<Tree>, ghost p: BranchChunk?)
    returns (s: int, h: int)
    requires children == Refs(kids)
    requires OkL(kids, p) && Uniq(ChunksL(kids)) && q !in ChunksL(kids)
    modifies ChunksL(kids)
    ensures OkL(kids, q)
    ensures s == |FlatL(kids)| && h == Sum(FlatL(kids))
  {
    hide FlatL, ChunksL, OkL, Sum;
    s, h := 0, 0;
    assert kids[..0] == [] && kids[0..] == kids;
    EmptyKids(q);
    for i := 0 to |children|
      invariant s == |FlatL(kids[..i])| && h == Sum(FlatL(kids[..i]))
      invariant OkL(kids[..i], q) && OkL(kids[i..], p)
    {
      ghost var left, t, right := kids[..i], kids[i], kids[i + 1..];
      assert kids[i..] == [t] + right && kids == left + [t] + right && kids[..i + 1] == left + [t];
      FlatSplit(left, t, right);
      RootIn(t);
      var size, height := AdoptOne(q, children[i], left, t, right, p);
      s, h := s + size, h + height;
    }
    assert kids[..|kids|] == kids;
  }

  method AdoptOne(q: BranchChunk, ch: Chunk, ghost left: seq<Tree>, ghost t: Tree, ghost right: seq<Tree>,
                  ghost p: BranchChunk?)
    returns (size: int, height: int)
    requires Ref(t) == ch && OkL(left, q) && OkL([t] + right, p) && Uniq(ChunksL(left + [t] + right))
    modifies Obj(ch)
    ensures OkL(left + [t], q) && OkL(right, p)
    ensures |FlatL(left + [t])| == |FlatL(left)| + size
    ensures Sum(FlatL(left + [t])) == Sum(FlatL(left)) + height
  {
    hide FlatL, ChunksL, OkL, Ok, Sum, Flat;
    Isolate(left, t, right);
    assert [t] + right == [] + [t] + right;
    OkSplit([], t, right, p);
    CachedSums(t);
    size, height := ch.Size(), ch.Height();
    ChunksAllocated(left);
    ChunksAllocated(right);
    SetParent(ch, q, t);
    assert left + [t] == left + [t] + [];
    EmptyKids(q);
    FlatSplit(left, t, []);
    OkSplit(left, t, [], q);
  }

  // The sizes a well-formed chunk reports are the true ones.
  lemma CachedSums(t: Tree)
    requires Ok(t)
    ensures Ref(t).Size() == |Flat(t)| && Ref(t).Height() == Sum(Flat(t))
  {
  }

  lemma EmptyKids(p: BranchChunk?)
    ensures FlatL([]) == [] && ChunksL([]) == multiset{} && OkL([], p) && Sum([]) == 0
  {
  }

  lemma RootIn(t: Tree)
    ensures Obj(Ref(t)) in Chunks(t)
  {
  }

  lemma Isolate(l: seq<Tree>, t: Tree, r: seq<Tree>)
    requires Uniq(ChunksL(l + [t] + r))
    ensures Uniq(Chunks(t))
    ensures Obj(Ref(t)) !in ChunksL(l) && Obj(Ref(t)) !in ChunksL(r)
  {
    FlatSplit(l, t, r);
    RootIn(t);
    assert Chunks(t) + (ChunksL(l) + ChunksL(r)) == ChunksL(l + [t] + r);
    UniqParts(Chunks(t), ChunksL(l) + ChunksL(r));
  }

  lemma UniqParts(a: multiset<object>, b: multiset<object>)
    requires Uniq(a + b)
    ensures Uniq(a) && Uniq(b) && a !! b
  {
    forall o | o in a ensures a[o] == 1 && b[o] == 0 {
      assert o in a + b;
    }
    forall o | o in b ensures b[o] == 1 {
      assert o in a + b;
    }
  }

  method SetParent(ch: Chunk, p: BranchChunk?, ghost t: Tree)
    requires Ref(t) == ch && Ok(t) && Uniq(Chunks(t))
    modifies Obj(ch)
    ensures Ok(t) && ParentOf(ch) == p
  {
    match ch
    case Leaf(l) => l.parent := p;
    case Branch(b) => b.parent := p;
  }

  ghost function RowsOf(leaf: LeafChunk, lines: seq<Line>): (rows: seq<Row>)
    reads (set l | l in lines)`height
    ensures |rows| == |lines|
    ensures forall i | 0 <= i < |lines| :: rows[i] == Row(lines[i], lines[i].height, leaf)
  {
    if lines == [] then []
    else RowsOf(leaf, lines[..|lines| - 1]) + [Row(lines[|lines| - 1], lines[|lines| - 1].height, leaf)]
  }

  datatype Chunk = Leaf(leaf: LeafChunk) | Branch(branch: BranchChunk)
  {
    function Size(): int
      reads Obj(this)
    {
      match this
      case Leaf(l) => |l.lines|
      case Branch(b) => b.size
    }

    function Height(): int
      reads Obj(this)
    {
      match this
      case Leaf(l) => l.height
      case Branch(b) => b.height
    }

    method Remove(at: nat, n: nat, ghost t: Tree) returns (ghost t': Tree, ghost added: multiset<object>)
      requires Good(t) && Ref(t) == this && at + n <= |Flat(t)|
      modifies Chunks(t), LineSet(Flat(t))`parent
      ensures Good(t') && Ref(t') == this && ParentOf(this) == old(ParentOf(this))
      ensures Items(Flat(t')) == Splice(Items(Flat(t)), at, n, [])
      ensures forall i | at <= i < at + n :: Flat(t)[i].line.parent == null
      ensures Chunks(t') <= Chunks(t) + added && forall o | o in added :: fresh(o)
      ensures Bounded(t) ==> Bounded(t')
      decreases t, 1
    {
      added := multiset{};
      match this
      case Leaf(leaf) =>
        Cut(t.rows, at, n);
        ghost var rows' := leaf.Remove(at, n, t.rows);
        t' := LeafT(leaf, rows');
      case Branch(b) =>
        ghost var kids';
        kids', added := b.Remove(at, n, t.kids);
        t' := BranchT(b, kids');
    }

    method Collapse(lines: seq<Line>, ghost t: Tree) returns (lines': seq<Line>)
      requires Ok(t) && Ref(t) == this
      ensures lines' == lines + LinesOf(Flat(t))
      decreases t
    {
      match this
      case Leaf(leaf) => lines' := lines + leaf.lines;
      case Branch(b) => lines' := b.Collapse(lines, t.kids);
    }

    method IterN(at: nat, n: nat, ghost t: Tree) returns (visited: seq<Line>)
      requires Ok(t) && Ref(t) == this && at + n <= |Flat(t)|
      ensures visited == LinesOf(Flat(t)[at..at + n])
      decreases t
    {
      match this
      case Leaf(leaf) => visited := leaf.lines[at..at + n];
      case Branch(b) => visited := b.IterN(at, n, t.kids);
    }
  }

  ghost function ParentOf(c: Chunk): BranchChunk?
    reads Obj(c)
  {
    match c
    case Leaf(l) => l.parent
    case Branch(b) => b.parent
  }

  ghost function Obj(c: Chunk): object {
    match c
    case Leaf(l) => l
    case Branch(b) => b
  }

  datatype Row = Row(line: Line, height: nat, owner: LeafChunk)

  ghost function LinesOf(rows: seq<Row>): seq<Line> {
    seq(|rows|, i requires 0 <= i < |rows| => rows[i].line)
  }

  ghost function LineSet(rows: seq<Row>): set<Line> {
    set it | it in rows :: it.line
  }

  ghost function Sum(rows: seq<Row>): nat {
    if rows == [] then 0 else rows[0].height + Sum(rows[1..])
  }

  datatype Tree = LeafT(leaf: LeafChunk, rows: seq<Row>) | BranchT(branch: BranchChunk, kids: seq<Tree>)

  ghost function Ref(t: Tree): Chunk {
    match t
    case LeafT(l, _) => Leaf(l)
    case BranchT(b, _) => Branch(b)
  }

  ghost function Refs(ts: seq<Tree>): seq<Chunk> {
    seq(|ts|, i requires 0 <= i < |ts| => Ref(ts[i]))
  }

  ghost function Flat(t: Tree): seq<Row> {
    match t
    case LeafT(_, rows) => rows
    case BranchT(_, kids) => FlatL(kids)
  }

  ghost function FlatL(ts: seq<Tree>): seq<Row> {
    if ts == [] then [] else Flat(ts[0]) + FlatL(ts[1..])
  }

  ghost function Chunks(t: Tree): multiset<object> {
    match t
    case LeafT(l, _) => multiset{l}
    case BranchT(b, kids) => multiset{b} + ChunksL(kids)
  }

  ghost function ChunksL(ts: seq<Tree>): multiset<object> {
    if ts == [] then multiset{} else Chunks(ts[0]) + ChunksL(ts[1..])
  }

  // Every chunk of a tree is an allocated object, so a new chunk is in none of them.
  lemma {:induction false} ChunksAllocated(ts: seq<Tree>)
    ensures forall o | o in ChunksL(ts) :: allocated(o)
    decreases ts
  {
    if ts != [] {
      ChunkAllocated(ts[0]);
      ChunksAllocated(ts[1..]);
    }
  }

  lemma {:induction false} ChunkAllocated(t: Tree)
    ensures forall o | o in Chunks(t) :: allocated(o)
    decreases t
  {
    match t
    case LeafT(l, _) =>
    case BranchT(b, kids) => ChunksAllocated(kids);
  }

  ghost predicate Uniq(b: multiset<object>) {
    forall o | o in b :: b[o] == 1
  }

  lemma FlatNil()
    ensures FlatL([]) == [] && ChunksL([]) == multiset{}
  {
  }

  lemma FlatCons(t: Tree, ts: seq<Tree>)
    ensures FlatL([t] + ts) == Flat(t) + FlatL(ts)
  {
    assert ([t] + ts)[1..] == ts;
  }

  lemma {:induction false} FlatAppend(a: seq<Tree>, b: seq<Tree>)
    ensures FlatL(a + b) == FlatL(a) + FlatL(b)
  {
    hide FlatL, Flat;
    if a == [] {
      assert FlatL(a) == [] by { FlatNil(); }
      assert a + b == b;
    } else {
      FlatAppend(a[1..], b);
      assert a == [a[0]] + a[1..] && a + b == [a[0]] + (a[1..] + b);
      FlatCons(a[0], a[1..]);
      FlatCons(a[0], a[1..] + b);
    }
  }

  lemma ChunksCons(t: Tree, ts: seq<Tree>)
    ensures ChunksL([t] + ts) == Chunks(t) + ChunksL(ts)
  {
    assert ([t] + ts)[1..] == ts;
  }

  lemma {:induction false} ChunksAppend(a: seq<Tree>, b: seq<Tree>)
    ensures ChunksL(a + b) == ChunksL(a) + ChunksL(b)
  {
    hide ChunksL, Chunks;
    if a == [] {
      assert ChunksL(a) == multiset{} by { FlatNil(); }
      assert a + b == b;
    } else {
      ChunksAppend(a[1..], b);
      assert a == [a[0]] + a[1..] && a + b == [a[0]] + (a[1..] + b);
      ChunksCons(a[0], a[1..]);
      ChunksCons(a[0], a[1..] + b);
    }
  }

  lemma {:induction false} SumAppend(a: seq<Row>, b: seq<Row>)
    ensures Sum(a + b) == Sum(a) + Sum(b)
  {
    if a == [] {
      assert a + b == b;
    } else {
      SumAppend(a[1..], b);
      assert (a + b)[1..] == a[1..] + b;
    }
  }

  lemma SumSnoc(a: seq<Row>, i: nat)
    requires i < |a|
    ensures Sum(a[..i + 1]) == Sum(a[..i]) + a[i].height
  {
    SumAppend(a[..i], [a[i]]);
    assert a[..i + 1] == a[..i] + [a[i]];
  }

  ghost predicate SameKind(ts: seq<Tree>, leaf: bool) {
    forall i | 0 <= i < |ts| :: ts[i].LeafT? == leaf
  }

  ghost predicate Ok(t: Tree)
    reads Chunks(t)
  {
    match t
    case LeafT(leaf, rows) =>
      && leaf.lines == LinesOf(rows)
      && leaf.height == Sum(rows)
      && forall i | 0 <= i < |rows| :: rows[i].owner == leaf
    case BranchT(b, kids) =>
      && |kids| >= 1
      && SameKind(kids, kids[0].LeafT?)
      && b.children == Refs(kids)
      && b.size == |FlatL(kids)|
      && b.height == Sum(FlatL(kids))
      && OkL(kids, b)
  }

  ghost predicate OkL(ts: seq<Tree>, p: BranchChunk?)
    reads ChunksL(ts)
  {
    ts == [] || (
      && Obj(Ref(ts[0])) in Chunks(ts[0])
      && ParentOf(Ref(ts[0])) == p && Ok(ts[0]) && OkL(ts[1..], p))
  }

  lemma {:induction false} OkAppend(a: seq<Tree>, b: seq<Tree>, p: BranchChunk?)
    ensures OkL(a + b, p) <==> OkL(a, p) && OkL(b, p)
  {
    if a == [] {
      assert a + b == b;
    } else {
      OkAppend(a[1..], b, p);
      assert (a + b)[1..] == a[1..] + b;
    }
  }

  datatype Ctx = Top | In(up: Ctx, branch: BranchChunk, left: seq<Tree>, right: seq<Tree>)

  ghost function CtxParent(c: Ctx): BranchChunk? {
    if c.Top? then null else c.branch
  }

  ghost function Pre(c: Ctx): seq<Row> {
    if c.Top? then [] else Pre(c.up) + FlatL(c.left)
  }

  ghost function Post(c: Ctx): seq<Row> {
    if c.Top? then [] else FlatL(c.right) + Post(c.up)
  }

  ghost function CtxChunks(c: Ctx): multiset<object> {
    if c.Top? then multiset{} else multiset{c.branch} + ChunksL(c.left) + ChunksL(c.right) + CtxChunks(c.up)
  }

  ghost predicate OkCtx(c: Ctx, hole: Chunk, size: int, height: int)
    reads CtxChunks(c)
  {
    c.Top? || (
      && SameKind(c.left, hole.Leaf?)
      && SameKind(c.right, hole.Leaf?)
      && c.branch.children == Refs(c.left) + [hole] + Refs(c.right)
      && c.branch.size == |FlatL(c.left)| + size + |FlatL(c.right)|
      && c.branch.height == Sum(FlatL(c.left)) + height + Sum(FlatL(c.right))
      && OkL(c.left, c.branch)
      && OkL(c.right, c.branch)
      && c.branch.parent == CtxParent(c.up)
      && OkCtx(c.up, Branch(c.branch), c.branch.size, c.branch.height))
  }

  ghost function Up(c: Ctx, t: Tree): Tree
    requires c.In?
  {
    BranchT(c.branch, c.left + [t] + c.right)
  }

  // The tree t sits in context c and the whole agrees with the heap.
  ghost predicate At(c: Ctx, t: Tree)
    reads Chunks(t)
    reads Obj(Ref(t))
    reads CtxChunks(c)
  {
    && Ok(t)
    && ParentOf(Ref(t)) == CtxParent(c)
    && OkCtx(c, Ref(t), |Flat(t)|, Sum(Flat(t)))
    && Uniq(Chunks(t) + CtxChunks(c))
  }

  lemma FlatSplit(l: seq<Tree>, t: Tree, r: seq<Tree>)
    ensures FlatL(l + [t] + r) == FlatL(l) + Flat(t) + FlatL(r)
    ensures ChunksL(l + [t] + r) == ChunksL(l) + Chunks(t) + ChunksL(r)
    ensures Sum(FlatL(l + [t] + r)) == Sum(FlatL(l)) + Sum(Flat(t)) + Sum(FlatL(r))
  {
    FlatAppend(l + [t], r);
    FlatAppend(l, [t]);
    ChunksAppend(l + [t], r);
    ChunksAppend(l, [t]);
    assert FlatL([t]) == Flat(t);
    assert ChunksL([t]) == Chunks(t);
    SumAppend(FlatL(l) + Flat(t), FlatL(r));
    SumAppend(FlatL(l), Flat(t));
  }

  lemma OkSplit(l: seq<Tree>, t: Tree, r: seq<Tree>, p: BranchChunk?)
    ensures OkL(l + [t] + r, p) <==> OkL(l, p) && Ok(t) && ParentOf(Ref(t)) == p && OkL(r, p)
  {
    OkAppend(l + [t], r, p);
    OkAppend(l, [t], p);
    assert OkL([t], p) <==> (Ok(t) && ParentOf(Ref(t)) == p);
  }


  lemma ChunksUp(c: Ctx, b: BranchChunk, l: seq<Tree>, t: Tree, r: seq<Tree>)
    ensures Chunks(BranchT(b, l + [t] + r)) + CtxChunks(c) == Chunks(t) + CtxChunks(In(c, b, l, r))
  {
    FlatSplit(l, t, r);
  }

  lemma KindSplit(l: seq<Tree>, t: Tree, r: seq<Tree>, leaf: bool)
    ensures SameKind(l + [t] + r, leaf) <==> SameKind(l, leaf) && t.LeafT? == leaf && SameKind(r, leaf)
  {
    var ks := l + [t] + r;
    if SameKind(ks, leaf) {
      assert ks[|l|] == t;
      forall i | 0 <= i < |l| ensures l[i].LeafT? == leaf { assert ks[i] == l[i]; }
      forall i | 0 <= i < |r| ensures r[i].LeafT? == leaf { assert ks[|l| + 1 + i] == r[i]; }
    }
    if SameKind(l, leaf) && t.LeafT? == leaf && SameKind(r, leaf) {
      forall i | 0 <= i < |ks| ensures ks[i].LeafT? == leaf {
        assert ks[i] == if i < |l| then l[i] else if i == |l| then t else r[i - |l| - 1];
      }
    }
  }

  lemma RefsSplit(l: seq<Tree>, t: Tree, r: seq<Tree>)
    ensures Refs(l + [t] + r) == Refs(l) + [Ref(t)] + Refs(r)
  {
  }

  lemma OkUp(b: BranchChunk, l: seq<Tree>, t: Tree, r: seq<Tree>)
    requires OkL(l, b) && Ok(t) && ParentOf(Ref(t)) == b && OkL(r, b)
    requires SameKind(l, t.LeafT?) && SameKind(r, t.LeafT?)
    requires b.children == Refs(l) + [Ref(t)] + Refs(r)
    requires b.size == |FlatL(l)| + |Flat(t)| + |FlatL(r)|
    requires b.height == Sum(FlatL(l)) + Sum(Flat(t)) + Sum(FlatL(r))
    ensures Ok(BranchT(b, l + [t] + r))
  {
    FlatSplit(l, t, r);
    OkSplit(l, t, r, b);
    RefsSplit(l, t, r);
    KindSplit(l, t, r, t.LeafT?);
  }

  ghost function Around(c: Ctx, t: Tree): seq<Row> {
    Pre(c) + Flat(t) + Post(c)
  }

  lemma AroundUp(c: Ctx, t: Tree)
    requires c.In?
    ensures Around(c.up, Up(c, t)) == Around(c, t)
  {
    hide FlatL, Flat, ChunksL, Chunks, Sum, Pre, Post;
    FlatSplit(c.left, t, c.right);
    FlatBranch(c.branch, c.left + [t] + c.right);
    PreIn(c);
    Regroup(Pre(c.up), FlatL(c.left), Flat(t), FlatL(c.right), Post(c.up));
  }

  lemma Regroup<T>(a: seq<T>, b: seq<T>, c: seq<T>, d: seq<T>, e: seq<T>)
    ensures a + (b + c + d) + e == (a + b) + c + (d + e)
  {
  }

  lemma FlatBranch(b: BranchChunk, kids: seq<Tree>)
    ensures Flat(BranchT(b, kids)) == FlatL(kids)
  {
  }

  lemma PreIn(c: Ctx)
    requires c.In?
    ensures Pre(c) == Pre(c.up) + FlatL(c.left) && Post(c) == FlatL(c.right) + Post(c.up)
  {
  }

  lemma GoUp(c: Ctx, t: Tree)
    requires c.In? && At(c, t)
    ensures At(c.up, Up(c, t))
    ensures Chunks(Up(c, t)) + CtxChunks(c.up) == Chunks(t) + CtxChunks(c)
    ensures Around(c.up, Up(c, t)) == Around(c, t)
  {
    AroundUp(c, t);
    hide Around, FlatL, Flat, ChunksL, Chunks, Sum, OkL, CtxChunks, Ok, OkCtx;
    ChunksUp(c.up, c.branch, c.left, t, c.right);
    OkCtxIn(c, Ref(t), |Flat(t)|, Sum(Flat(t)));
    OkUp(c.branch, c.left, t, c.right);
    CachedSums(Up(c, t));
  }

  lemma GoDown(c: Ctx, b: BranchChunk, l: seq<Tree>, t: Tree, r: seq<Tree>)
    requires At(c, BranchT(b, l + [t] + r))
    ensures At(In(c, b, l, r), t)
    ensures Chunks(t) + CtxChunks(In(c, b, l, r)) == Chunks(BranchT(b, l + [t] + r)) + CtxChunks(c)
    ensures Around(In(c, b, l, r), t) == Around(c, BranchT(b, l + [t] + r))
  {
    var c', ks := In(c, b, l, r), l + [t] + r;
    AroundUp(c', t);
    hide Around, FlatL, Flat, ChunksL, Chunks, Sum, OkL, CtxChunks, Ok, OkCtx;
    ChunksUp(c, b, l, t, r);
    OkBranch(b, ks);
    FlatBranch(b, ks);
    FlatSplit(l, t, r);
    OkSplit(l, t, r, b);
    RefsSplit(l, t, r);
    KindSplit(l, t, r, ks[0].LeafT?);
    OkCtxIn(c', Ref(t), |Flat(t)|, Sum(Flat(t)));
  }

  lemma UniqAdd(b: multiset<object>, o: object)
    requires Uniq(b) && o !in b
    ensures Uniq(b + multiset{o})
  {
    forall x | x in b + multiset{o} ensures (b + multiset{o})[x] == 1 {
      if x == o { assert b[o] == 0; } else { assert x in b; }
    }
  }

  lemma Parts3(u: multiset<object>, a: multiset<object>, b: multiset<object>, c: multiset<object>)
    requires u == a + b + c && Uniq(u)
    ensures Uniq(a) && Uniq(b) && Uniq(c)
    ensures a !! b && a !! c && b !! c
  {
    forall o | o in u ensures a[o] + b[o] + c[o] == 1 {
    }
    assert forall o | o in a :: o in u;
    assert forall o | o in b :: o in u;
    assert forall o | o in c :: o in u;
  }

  lemma ChunksSplit(b: BranchChunk, k: seq<Tree>, s: seq<Tree>)
    ensures Chunks(BranchT(b, k + s)) == multiset{b} + ChunksL(k) + ChunksL(s)
  {
    ChunksAppend(k, s);
  }

  lemma OkBranch(b: BranchChunk, kids: seq<Tree>)
    ensures Ok(BranchT(b, kids)) <==>
      && |kids| >= 1
      && SameKind(kids, kids[0].LeafT?)
      && b.children == Refs(kids)
      && b.size == |FlatL(kids)|
      && b.height == Sum(FlatL(kids))
      && OkL(kids, b)
  {
  }

  // Takes the last five children of me into a new branch (the first two lines of the loop).
  method SplitOff(me: BranchChunk, ghost keep: seq<Tree>, ghost spilled: seq<Tree>) returns (sibling: BranchChunk)
    requires Ok(BranchT(me, keep + spilled)) && Uniq(Chunks(BranchT(me, keep + spilled)))
    requires |keep| >= 1 && |spilled| == 5
    modifies me`children, ChunksL(spilled)
    ensures Ok(BranchT(sibling, spilled)) && fresh(sibling) && sibling.parent == null
    ensures me.children == Refs(keep) && OkL(keep, me)
    ensures SameKind(keep, keep[0].LeafT?)
  {
    hide FlatL, ChunksL, OkL, Ok, Sum, Chunks;
    OkBranch(me, keep + spilled);
    OkAppend(keep, spilled, me);
    ChunksSplit(me, keep, spilled);
    Parts3(Chunks(BranchT(me, keep + spilled)), multiset{me}, ChunksL(keep), ChunksL(spilled));
    assert forall i | 0 <= i < |keep| :: keep[i] == (keep + spilled)[i];
    assert forall i | 0 <= i < 5 :: spilled[i] == (keep + spilled)[|keep| + i];
    ChunksAllocated(keep);
    ChunksAllocated(spilled);
    var taken := me.children[|me.children| - 5..];
    me.children := me.children[..|me.children| - 5];
    assert taken == Refs(spilled);
    sibling := new BranchChunk(taken, spilled, me);
  }

  // The chunks x and y stand side by side in the hole of c, with size lines and this height in all.
  ghost predicate TwoHoles(c: Ctx, x: Chunk, y: Chunk, size: int, height: int)
    requires c.In?
    reads c.branch, ChunksL(c.left), ChunksL(c.right), CtxChunks(c.up)
  {
    && SameKind(c.left, x.Leaf?) && SameKind(c.right, x.Leaf?)
    && OkL(c.left, c.branch) && OkL(c.right, c.branch)
    && c.branch.children == Refs(c.left) + [x, y] + Refs(c.right)
    && c.branch.size == |FlatL(c.left)| + size + |FlatL(c.right)|
    && c.branch.height == Sum(FlatL(c.left)) + height + Sum(FlatL(c.right))
    && c.branch.parent == CtxParent(c.up)
    && OkCtx(c.up, Branch(c.branch), c.branch.size, c.branch.height)
  }

  lemma OkCtxIn(c: Ctx, hole: Chunk, size: int, height: int)
    requires c.In?
    ensures OkCtx(c, hole, size, height) <==>
      && SameKind(c.left, hole.Leaf?)
      && SameKind(c.right, hole.Leaf?)
      && c.branch.children == Refs(c.left) + [hole] + Refs(c.right)
      && c.branch.size == |FlatL(c.left)| + size + |FlatL(c.right)|
      && c.branch.height == Sum(FlatL(c.left)) + height + Sum(FlatL(c.right))
      && OkL(c.left, c.branch)
      && OkL(c.right, c.branch)
      && c.branch.parent == CtxParent(c.up)
      && OkCtx(c.up, Branch(c.branch), c.branch.size, c.branch.height)
  {
  }

  lemma CtxChunksIn(c: Ctx)
    requires c.In?
    ensures CtxChunks(c) == multiset{c.branch} + ChunksL(c.left) + ChunksL(c.right) + CtxChunks(c.up)
  {
  }

  lemma {:induction false} CtxAllocated(c: Ctx)
    ensures forall o | o in CtxChunks(c) :: allocated(o)
  {
    if c.In? {
      ChunksAllocated(c.left);
      ChunksAllocated(c.right);
      CtxAllocated(c.up);
    }
  }

  lemma {:induction false} RefInChunks(ts: seq<Tree>, i: nat)
    requires i < |ts|
    ensures Obj(Ref(ts[i])) in ChunksL(ts)
  {
    hide FlatL, ChunksL, Sum, Chunks;
    FlatSplit(ts[..i], ts[i], ts[i + 1..]);
    assert ts == ts[..i] + [ts[i]] + ts[i + 1..];
    RootIn(ts[i]);
  }

  method IndexOf(children: seq<Chunk>, c: Chunk) returns (i: nat)
    requires c in children
    ensures i < |children| && children[i] == c && c !in children[..i]
  {
    i := 0;
    while children[i] != c
      invariant i < |children| && c !in children[..i]
      decreases |children| - i
    {
      assert children == children[..i] + [children[i]] + children[i + 1..];
      i := i + 1;
      assert children[..i] == children[..i - 1] + [children[i - 1]];
    }
  }

  // The root becomes the parent of its own former contents.
  method GrowRoot(me: BranchChunk, sibling: BranchChunk, ghost keep: seq<Tree>, ghost spilled: seq<Tree>)
    returns (copy: BranchChunk)
    requires |keep| >= 1 && me.children == Refs(keep) && OkL(keep, me) && SameKind(keep, keep[0].LeafT?)
    requires me.size == |FlatL(keep)| + |FlatL(spilled)|
    requires me.height == Sum(FlatL(keep)) + Sum(FlatL(spilled))
    requires me.parent == null && Ok(BranchT(sibling, spilled))
    requires Uniq(multiset{me} + ChunksL(keep) + Chunks(BranchT(sibling, spilled)))
    modifies me`children, sibling`parent, ChunksL(keep)
    ensures At(In(Top, me, [], [BranchT(sibling, spilled)]), BranchT(copy, keep)) && fresh(copy)
  {
    hide FlatL, ChunksL, OkL, Ok, Sum, Chunks;
    ghost var all := multiset{me} + ChunksL(keep) + Chunks(BranchT(sibling, spilled));
    GrowApart(me, sibling, keep, spilled);
    OkBranch(sibling, spilled);
    copy := new BranchChunk(me.children, keep, me);
    OkBranch(copy, keep);
    copy.parent := me;
    me.children := [Branch(copy), Branch(sibling)];
    sibling.parent := copy.parent;
    OkBranch(copy, keep);
    OkBranch(sibling, spilled);
    UniqAdd(all, copy);
    GrownRoot(me, copy, sibling, keep, spilled);
  }

  lemma GrowApart(me: BranchChunk, sibling: BranchChunk, keep: seq<Tree>, spilled: seq<Tree>)
    requires Uniq(multiset{me} + ChunksL(keep) + Chunks(BranchT(sibling, spilled)))
    ensures me != sibling && me !in ChunksL(keep) && me !in ChunksL(spilled)
    ensures sibling !in ChunksL(keep) && sibling !in ChunksL(spilled)
    ensures ChunksL(keep) !! ChunksL(spilled) && Uniq(ChunksL(keep))
    ensures forall o | o in multiset{me} + ChunksL(keep) + Chunks(BranchT(sibling, spilled)) :: allocated(o)
    ensures forall o | o in ChunksL(keep) :: allocated(o)
    ensures forall o | o in ChunksL(spilled) :: allocated(o)
  {
    hide ChunksL, Chunks;
    ChunksSplit(sibling, [], spilled);
    EmptyKids(sibling);
    assert [] + spilled == spilled;
    assert Chunks(BranchT(sibling, spilled)) == multiset{sibling} + ChunksL(spilled);
    FourParts(me, sibling, ChunksL(keep), ChunksL(spilled));
    ChunksAllocated(keep);
    ChunksAllocated(spilled);
  }

  lemma FourParts(a: object, b: object, c: multiset<object>, d: multiset<object>)
    requires Uniq(multiset{a} + c + (multiset{b} + d))
    ensures a != b && a !in c && a !in d && b !in c && b !in d && c !! d && Uniq(c)
  {
    var all := multiset{a} + c + (multiset{b} + d);
    NotIn(all, a, multiset{b} + c + d);
    NotIn(all, b, multiset{a} + c + d);
    Parts3(all, multiset{a, b}, c, d);
  }

  lemma GrownRoot(me: BranchChunk, copy: BranchChunk, sibling: BranchChunk, keep: seq<Tree>, spilled: seq<Tree>)
    requires Ok(BranchT(copy, keep)) && Ok(BranchT(sibling, spilled))
    requires copy.parent == me == sibling.parent && me.parent == null
    requires me.children == [Branch(copy), Branch(sibling)]
    requires me.size == |FlatL(keep)| + |FlatL(spilled)|
    requires me.height == Sum(FlatL(keep)) + Sum(FlatL(spilled))
    requires Uniq(multiset{me} + ChunksL(keep) + Chunks(BranchT(sibling, spilled)) + multiset{copy})
    ensures At(In(Top, me, [], [BranchT(sibling, spilled)]), BranchT(copy, keep))
  {
    hide FlatL, OkL, Ok, Sum, ChunksL, Chunks, CtxChunks, OkCtx;
    var c, t, sib := In(Top, me, [], [BranchT(sibling, spilled)]), BranchT(copy, keep), BranchT(sibling, spilled);
    assert [sib] == [] + [sib] + [];
    EmptyKids(me);
    FlatSplit([], sib, []);
    OkSplit([], sib, [], me);
    OkCtxIn(c, Ref(t), |Flat(t)|, Sum(Flat(t)));
    TopOk(Branch(me), me.size, me.height);
    GrownChunks(me, copy, keep, sib);
  }

  // The chunks of the root and its copy, with the sibling beside the copy.
  lemma GrownChunks(me: BranchChunk, copy: BranchChunk, keep: seq<Tree>, sib: Tree)
    ensures var c, t := In(Top, me, [], [sib]), BranchT(copy, keep);
      Chunks(t) + CtxChunks(c) == multiset{me} + ChunksL(keep) + Chunks(sib) + multiset{copy}
  {
    hide ChunksL, Chunks, CtxChunks;
    var c, t := In(Top, me, [], [sib]), BranchT(copy, keep);
    assert [sib] == [] + [sib] + [];
    EmptyKids(me);
    FlatSplit([], sib, []);
    CtxChunksIn(c);
    AroundTop(t);
    ChunksSplit(copy, [], keep);
    assert [] + keep == keep;
  }

  lemma TopOk(hole: Chunk, size: int, height: int)
    ensures OkCtx(Top, hole, size, height)
  {
  }

  lemma RefIn(ts: seq<Tree>, c: Chunk)
    requires c in Refs(ts)
    ensures Obj(c) in ChunksL(ts)
  {
    hide FlatL, ChunksL, Chunks;
    var i :| 0 <= i < |ts| && Ref(ts[i]) == c;
    RefInChunks(ts, i);
  }

  // The position of me in its parent; the search leaves everything as it is.
  method OwnIndex(children: seq<Chunk>, me: BranchChunk, ghost c: Ctx, ghost keep: seq<Tree>, ghost sib: Tree)
    returns (i: nat)
    requires c.In? && children == Refs(c.left) + [Branch(me)] + Refs(c.right) && me !in ChunksL(c.left)
    requires OkCtx(c, Branch(me), me.size, me.height) && OkL(keep, me) && Ok(sib)
    ensures i == |c.left|
    ensures OkCtx(c, Branch(me), me.size, me.height) && OkL(keep, me) && Ok(sib)
  {
    hide ChunksL, OkL, OkCtx, Ok, Chunks, CtxChunks;
    ghost var l := c.left;
    ChunksAllocated(keep);
    ChunkAllocated(sib);
    CtxAllocated(c);
    if Branch(me) in Refs(l) { RefIn(l, Branch(me)); }
    assert forall i | 0 <= i < |l| :: children[i] == Refs(l)[i] && Refs(l)[i] in Refs(l);
    forall i | |l| < i <= |children| ensures Branch(me) in children[..i] {
      assert children[..i][|l|] == Branch(me);
    }
    i := IndexOf(children, Branch(me));
  }

  // The new branch joins its parent's children just after me.
  method InsertSibling(me: BranchChunk, sibling: BranchChunk, ghost c: Ctx, ghost keep: seq<Tree>,
      ghost spilled: seq<Tree>)
    requires |keep| >= 1 && me.children == Refs(keep) && OkL(keep, me) && SameKind(keep, keep[0].LeafT?)
    requires me.size == |FlatL(keep)| + |FlatL(spilled)|
    requires me.height == Sum(FlatL(keep)) + Sum(FlatL(spilled))
    requires Ok(BranchT(sibling, spilled))
    requires c.In? && me.parent == c.branch && OkCtx(c, Branch(me), me.size, me.height)
    requires Uniq(multiset{me} + ChunksL(keep) + Chunks(BranchT(sibling, spilled)) + CtxChunks(c))
    modifies me`size, me`height, c.branch`children, sibling`parent
    ensures At(In(c.up, c.branch, c.left, [BranchT(sibling, spilled)] + c.right), BranchT(me, keep))
  {
    hide FlatL, ChunksL, OkL, Ok, Sum, Chunks, OkCtx, CtxChunks;
    var p := me.parent;
    ghost var l, r, up := c.left, c.right, c.up;
    ghost var sib, t := BranchT(sibling, spilled), BranchT(me, keep);
    OkCtxIn(c, Branch(me), me.size, me.height);
    SiblingApart(me, sibling, c, keep, spilled);
    var myIndex := OwnIndex(p.children, me, c, keep, sib);
    OkCtxIn(c, Branch(me), me.size, me.height);
    OkBranch(sibling, spilled);
    me.size := me.size - sibling.size;
    me.height := me.height - sibling.height;
    p.children := p.children[..myIndex + 1] + [Branch(sibling)] + p.children[myIndex + 1..];
    sibling.parent := me.parent;
    OkBranch(sibling, spilled);
    OkBranch(me, keep);
    SiblingInserted(me, sibling, c, keep, spilled);
  }

  ghost predicate Outside(o: object, c: Ctx, keep: seq<Tree>, spilled: seq<Tree>)
    requires c.In?
  {
    && o !in ChunksL(keep) && o !in ChunksL(spilled) && o !in ChunksL(c.left) && o !in ChunksL(c.right)
    && o !in CtxChunks(c.up)
  }

  lemma SiblingApart(me: BranchChunk, sibling: BranchChunk, c: Ctx, keep: seq<Tree>, spilled: seq<Tree>)
    requires c.In?
    requires Uniq(multiset{me} + ChunksL(keep) + Chunks(BranchT(sibling, spilled)) + CtxChunks(c))
    ensures me != sibling && me != c.branch && sibling != c.branch
    ensures Outside(me, c, keep, spilled) && Outside(sibling, c, keep, spilled) && Outside(c.branch, c, keep, spilled)
  {
    hide ChunksL, CtxChunks, Chunks;
    var rest := ChunksL(keep) + ChunksL(spilled) + ChunksL(c.left) + ChunksL(c.right) + CtxChunks(c.up);
    var u := multiset{me} + ChunksL(keep) + Chunks(BranchT(sibling, spilled)) + CtxChunks(c);
    CtxChunksIn(c);
    ChunksSplit(sibling, [], spilled);
    EmptyKids(null);
    assert [] + spilled == spilled;
    NotIn(u, me, multiset{sibling} + multiset{c.branch} + rest);
    NotIn(u, sibling, multiset{me} + multiset{c.branch} + rest);
    NotIn(u, c.branch, multiset{me} + multiset{sibling} + rest);
  }

  lemma NotIn(u: multiset<object>, o: object, rest: multiset<object>)
    requires Uniq(u) && u == multiset{o} + rest
    ensures o !in rest
  {
    assert o in u;
  }

  // The tree y moves from the hole into the context, and leaves a hole for x alone.
  lemma SecondHole(c: Ctx, x: Chunk, y: Tree, size: int, height: int)
    requires c.In? && Ok(y) && ParentOf(Ref(y)) == c.branch && y.LeafT? == x.Leaf?
    requires TwoHoles(c, x, Ref(y), size + |Flat(y)|, height + Sum(Flat(y)))
    ensures OkCtx(In(c.up, c.branch, c.left, [y] + c.right), x, size, height)
  {
    hide FlatL, ChunksL, OkL, Ok, Sum, OkCtx, CtxChunks;
    assert [] + [y] + c.right == [y] + c.right;
    EmptyKids(c.branch);
    FlatSplit([], y, c.right);
    OkSplit([], y, c.right, c.branch);
    assert Refs([y] + c.right) == [Ref(y)] + Refs(c.right);
    OkCtxIn(In(c.up, c.branch, c.left, [y] + c.right), x, size, height);
  }

  lemma SiblingInserted(me: BranchChunk, sibling: BranchChunk, c: Ctx, keep: seq<Tree>, spilled: seq<Tree>)
    requires c.In?
    requires Ok(BranchT(me, keep)) && Ok(BranchT(sibling, spilled))
    requires me.parent == sibling.parent == c.branch
    requires TwoHoles(c, Branch(me), Branch(sibling), |FlatL(keep)| + |FlatL(spilled)|,
      Sum(FlatL(keep)) + Sum(FlatL(spilled)))
    requires Uniq(multiset{me} + ChunksL(keep) + Chunks(BranchT(sibling, spilled)) + CtxChunks(c))
    ensures At(In(c.up, c.branch, c.left, [BranchT(sibling, spilled)] + c.right), BranchT(me, keep))
  {
    hide FlatL, ChunksL, OkL, Ok, Sum, Chunks, OkCtx, CtxChunks, TwoHoles;
    var sib, t := BranchT(sibling, spilled), BranchT(me, keep);
    var c' := In(c.up, c.branch, c.left, [sib] + c.right);
    FlatBranch(sibling, spilled);
    SecondHole(c, Branch(me), sib, |FlatL(keep)|, Sum(FlatL(keep)));
    assert [] + [sib] + c.right == [sib] + c.right;
    EmptyKids(c.branch);
    FlatSplit([], sib, c.right);
    CtxChunksIn(c);
    CtxChunksIn(c');
    ChunksSplit(me, [], keep);
    assert [] + keep == keep;
    assert Chunks(t) + CtxChunks(c') == multiset{me} + ChunksL(keep) + Chunks(sib) + CtxChunks(c);
  }

  ghost predicate Bounded(t: Tree) {
    match t
    case LeafT(_, rows) => |rows| <= 50
    case BranchT(_, kids) => |kids| <= 10 && forall k | k in kids :: Bounded(k)
  }

  ghost predicate AllBounded(ts: seq<Tree>) {
    forall k | k in ts :: Bounded(k)
  }

  ghost predicate CtxBounded(c: Ctx) {
    c.Top? || (|c.left| + 1 + |c.right| <= 10 && AllBounded(c.left) && AllBounded(c.right) && CtxBounded(c.up))
  }

  ghost function Depth(c: Ctx): nat {
    if c.Top? then 0 else 1 + Depth(c.up)
  }

  ghost function Whole(c: Ctx, t: Tree): Tree {
    if c.Top? then t else Whole(c.up, Up(c, t))
  }

  lemma {:induction false} AtWhole(c: Ctx, t: Tree)
    requires At(c, t)
    ensures At(Top, Whole(c, t))
    ensures Flat(Whole(c, t)) == Around(c, t)
    ensures Chunks(Whole(c, t)) == Chunks(t) + CtxChunks(c)
    decreases c
  {
    hide At, Around, FlatL, Flat, ChunksL, Chunks, CtxChunks;
    if c.In? {
      GoUp(c, t);
      AtWhole(c.up, Up(c, t));
    } else {
      AroundTop(t);
    }
  }

  lemma AroundTop(t: Tree)
    ensures Around(Top, t) == Flat(t) && CtxChunks(Top) == multiset{}
  {
  }

  lemma AtParts(c: Ctx, me: BranchChunk, keep: seq<Tree>, spilled: seq<Tree>)
    requires At(c, BranchT(me, keep + spilled))
    ensures Ok(BranchT(me, keep + spilled)) && Uniq(Chunks(BranchT(me, keep + spilled)))
    ensures OkCtx(c, Branch(me), me.size, me.height) && me.parent == CtxParent(c)
    ensures me.size == |FlatL(keep)| + |FlatL(spilled)| && me.height == Sum(FlatL(keep)) + Sum(FlatL(spilled))
    ensures Uniq(multiset{me} + ChunksL(keep) + ChunksL(spilled) + CtxChunks(c))
    ensures me !in CtxChunks(c) && me !in ChunksL(keep) && me !in ChunksL(spilled)
    ensures ChunksL(spilled) !! CtxChunks(c)
    ensures c.Top? ==> CtxChunks(c) == multiset{}
    ensures c.In? ==> c.branch in CtxChunks(c)
  {
    hide FlatL, ChunksL, Chunks, CtxChunks, OkL, Ok, OkCtx, Sum;
    var t := BranchT(me, keep + spilled);
    CachedSums(t);
    ChunksSplit(me, keep, spilled);
    FlatAppend(keep, spilled);
    SumAppend(FlatL(keep), FlatL(spilled));
    assert Chunks(t) + CtxChunks(c) == multiset{me} + ChunksL(keep) + ChunksL(spilled) + CtxChunks(c);
    Parts3(Chunks(t) + CtxChunks(c), multiset{me} + ChunksL(keep), ChunksL(spilled), CtxChunks(c));
    NotIn(Chunks(t) + CtxChunks(c), me, ChunksL(keep) + ChunksL(spilled) + CtxChunks(c));
    UniqParts(Chunks(t), CtxChunks(c));
    if c.In? { CtxChunksIn(c); } else { AroundTop(t); }
  }

  lemma UniqSibling(c: Ctx, me: BranchChunk, sibling: BranchChunk, keep: seq<Tree>, spilled: seq<Tree>)
    requires Uniq(multiset{me} + ChunksL(keep) + ChunksL(spilled) + CtxChunks(c))
    requires sibling != me && sibling !in ChunksL(keep) && sibling !in ChunksL(spilled) && sibling !in CtxChunks(c)
    ensures Uniq(multiset{me} + ChunksL(keep) + Chunks(BranchT(sibling, spilled)) + CtxChunks(c))
    ensures c.Top? ==> Uniq(multiset{me} + ChunksL(keep) + Chunks(BranchT(sibling, spilled)))
  {
    hide ChunksL, Chunks, CtxChunks;
    var u := multiset{me} + ChunksL(keep) + ChunksL(spilled) + CtxChunks(c);
    UniqAdd(u, sibling);
    ChunksSplit(sibling, [], spilled);
    EmptyKids(null);
    assert [] + spilled == spilled;
    assert multiset{me} + ChunksL(keep) + Chunks(BranchT(sibling, spilled)) + CtxChunks(c) == u + multiset{sibling};
    UniqParts(multiset{me} + ChunksL(keep) + Chunks(BranchT(sibling, spilled)), CtxChunks(c));
  }

  // Neither way of spilling changes the lines, and both only add the new chunks.
  lemma GrowShape(me: BranchChunk, copy: BranchChunk, s: BranchChunk, keep: seq<Tree>, spilled: seq<Tree>)
    ensures Around(In(Top, me, [], [BranchT(s, spilled)]), BranchT(copy, keep)) ==
      Around(Top, BranchT(me, keep + spilled))
    ensures Chunks(BranchT(copy, keep)) + CtxChunks(In(Top, me, [], [BranchT(s, spilled)]))
         == Chunks(BranchT(me, keep + spilled)) + CtxChunks(Top) + multiset{s} + multiset{copy}
  {
    FlatAppend(keep, spilled);
    ChunksAppend(keep, spilled);
    hide FlatL, ChunksL;
    var sib := BranchT(s, spilled);
    assert [sib] == [] + [sib] + [];
    EmptyKids(null);
    FlatSplit([], sib, []);
  }

  lemma InsertShape(c: Ctx, me: BranchChunk, s: BranchChunk, keep: seq<Tree>, spilled: seq<Tree>)
    requires c.In?
    ensures var c' := In(c.up, c.branch, c.left, [BranchT(s, spilled)] + c.right);
      && Around(c', BranchT(me, keep)) == Around(c, BranchT(me, keep + spilled))
      && Chunks(BranchT(me, keep)) + CtxChunks(c')
         == Chunks(BranchT(me, keep + spilled)) + CtxChunks(c) + multiset{s}
  {
    FlatAppend(keep, spilled);
    ChunksAppend(keep, spilled);
    hide FlatL, ChunksL, Pre, Post, CtxChunks;
    var sib := BranchT(s, spilled);
    var c' := In(c.up, c.branch, c.left, [sib] + c.right);
    assert [] + [sib] + c.right == [sib] + c.right;
    EmptyKids(null);
    FlatSplit([], sib, c.right);
    PreIn(c);
    PreIn(c');
    CtxChunksIn(c);
    CtxChunksIn(c');
    Regroup2(Pre(c), FlatL(keep), FlatL(spilled), FlatL(c.right), Post(c.up));
  }

  lemma Regroup2<T>(a: seq<T>, b: seq<T>, c: seq<T>, d: seq<T>, e: seq<T>)
    ensures a + (b + c) + (d + e) == a + b + ([] + c + d + e)
    ensures a + (b + c) + (d + e) == a + b + (c + d + e)
  {
  }

  // One round of the loop.
  method SpillOnce(me: BranchChunk, ghost c: Ctx, ghost keep: seq<Tree>, ghost spilled: seq<Tree>,
                   ghost added: multiset<object>)
    returns (me': BranchChunk, ghost c': Ctx, ghost sib: Tree, ghost added': multiset<object>)
    requires At(c, BranchT(me, keep + spilled)) && |keep| >= 1 && |spilled| == 5
    modifies Chunks(BranchT(me, keep + spilled)) + CtxChunks(c)
    ensures At(c', BranchT(me', keep))
    ensures sib.BranchT? && sib.kids == spilled
    ensures c.Top? ==> c' == In(Top, me, [], [sib]) && fresh(me')
    ensures c.In? ==> c' == In(c.up, c.branch, c.left, [sib] + c.right) && me' == me
    ensures fresh(sib.branch)
    ensures Around(c', BranchT(me', keep)) == Around(c, BranchT(me, keep + spilled))
    ensures Chunks(BranchT(me', keep)) + CtxChunks(c') == Chunks(BranchT(me, keep + spilled)) + CtxChunks(c)
            + (added' - added)
    ensures added <= added' && forall o | o in added' :: o in added || fresh(o)
  {
    hide FlatL, ChunksL, Chunks, CtxChunks, OkL, Ok, OkCtx, Sum, At, Around;
    AtParts(c, me, keep, spilled);
    CtxAllocated(c);
    ChunksAllocated(keep);
    ChunksAllocated(spilled);
    ChunksSplit(me, keep, spilled);
    var sibling := SplitOff(me, keep, spilled);
    sib := BranchT(sibling, spilled);
    UniqSibling(c, me, sibling, keep, spilled);
    if me.parent == null {
      me' := GrowRoot(me, sibling, keep, spilled);
      GrowShape(me, me', sibling, keep, spilled);
      c' := In(Top, me, [], [sib]);
      added' := added + multiset{sibling} + multiset{me'};
    } else {
      InsertSibling(me, sibling, c, keep, spilled);
      InsertShape(c, me, sibling, keep, spilled);
      c' := In(c.up, c.branch, c.left, [sib] + c.right);
      me' := me;
      added' := added + multiset{sibling};
    }
  }

  // The root chunk of the tree that has the chunk ch at the hole of c.
  ghost function RootRef(c: Ctx, ch: Chunk): Chunk {
    if c.Top? then ch else RootRef(c.up, Branch(c.branch))
  }

  lemma {:induction false} RootOfWhole(c: Ctx, t: Tree)
    ensures Ref(Whole(c, t)) == RootRef(c, Ref(t))
    decreases c
  {
    if c.In? { RootOfWhole(c.up, Up(c, t)); }
  }

  lemma {:induction false} WholeBounded(c: Ctx, t: Tree)
    requires CtxBounded(c) && Bounded(t)
    ensures Bounded(Whole(c, t))
    decreases c
  {
    if c.In? {
      WholeBounded(c.up, Up(c, t));
    }
  }

  // The loop: moves children of me0 into new branches, five at a time, until at most ten are left.
  method SpillAll(me0: BranchChunk, ghost c: Ctx, ghost kids: seq<Tree>)
    returns (me: BranchChunk, ghost ctx: Ctx, ghost ks: seq<Tree>, ghost added: multiset<object>)
    requires At(c, BranchT(me0, kids)) && |kids| > 10
    modifies Chunks(BranchT(me0, kids)) + CtxChunks(c)
    ensures At(ctx, BranchT(me, ks)) && ctx.In? && me.parent == ctx.branch
    ensures Around(ctx, BranchT(me, ks)) == Around(c, BranchT(me0, kids))
    ensures RootRef(ctx, Branch(me)) == RootRef(c, Branch(me0))
    ensures Chunks(BranchT(me, ks)) + CtxChunks(ctx) == Chunks(BranchT(me0, kids)) + CtxChunks(c) + added
    ensures forall o | o in added :: fresh(o)
    ensures if c.In? then ctx.up == c.up else ctx.up.Top? && 1 + |ctx.right| < |kids| && ctx.left == []
    ensures CtxBounded(c) && AllBounded(kids) ==>
        CtxBounded(ctx.up) && AllBounded(ctx.left + [BranchT(me, ks)] + ctx.right)
  {
    hide FlatL, ChunksL, Chunks, CtxChunks, OkL, Ok, OkCtx, Sum, At, Around;
    AtRoot(c, me0, kids);
    added := multiset{};
    ghost var fits := CtxBounded(c) && AllBounded(kids);
    me := me0;
    ctx, ks := c, kids;
    ghost var all := Chunks(BranchT(me0, kids)) + CtxChunks(c);
    while |me.children| > 10
      invariant At(ctx, BranchT(me, ks)) && me.children == Refs(ks) && me.parent == CtxParent(ctx)
      invariant Around(ctx, BranchT(me, ks)) == Around(c, BranchT(me0, kids))
      invariant RootRef(ctx, Branch(me)) == RootRef(c, Branch(me0))
      invariant Chunks(BranchT(me, ks)) + CtxChunks(ctx) == all + added
      invariant forall o | o in added :: fresh(o)
      invariant |ks| >= 6 && ks == kids[..|ks|]
      invariant |ks| < |kids| ==> ctx.In?
      invariant c.In? ==> ctx.In? && ctx.up == c.up
      invariant c.Top? ==> if ctx.Top? then ks == kids && me == me0
                           else ctx.up.Top? && ctx.branch == me0 && ctx.left == [] && |ks| + 5 * |ctx.right| == |kids|
      invariant ctx.In? && fits ==> AllBounded(ctx.left) && AllBounded(ctx.right) && CtxBounded(ctx.up)
    {
      ghost var keep, spilled := ks[..|ks| - 5], ks[|ks| - 5..];
      assert keep + spilled == ks;
      InAll(Chunks(BranchT(me, ks)), CtxChunks(ctx), all, added);
      ghost var sib;
      me, ctx, sib, added := SpillOnce(me, ctx, keep, spilled, added);
      ks := keep;
      AtRoot(ctx, me, ks);
      assert fits ==> Bounded(sib);
    }
    assert forall k | k in ks :: k in kids;
    assert fits ==> Bounded(BranchT(me, ks)) && AllBounded(ctx.left + [BranchT(me, ks)] + ctx.right);
  }

  lemma InAll(a: multiset<object>, b: multiset<object>, all: multiset<object>, added: multiset<object>)
    requires a + b == all + added
    ensures forall o | o in a || o in b :: o in all || o in added
  {
    forall o | o in a || o in b ensures o in all || o in added {
      assert o in a + b;
    }
  }

  lemma AtRoot(c: Ctx, b: BranchChunk, kids: seq<Tree>)
    requires At(c, BranchT(b, kids))
    ensures b.children == Refs(kids) && b.parent == CtxParent(c)
  {
  }

  // ---------------------------------------------------------------- lines

  datatype Item = Item(line: Line, height: nat)

  ghost function Items(rows: seq<Row>): (items: seq<Item>)
    ensures |items| == |rows|
  {
    seq(|rows|, i requires 0 <= i < |rows| => Item(rows[i].line, rows[i].height))
  }

  ghost predicate Linked(rows: seq<Row>)
    reads LineSet(rows)`parent, LineSet(rows)`height
  {
    forall i | 0 <= i < |rows| :: rows[i].line.parent == rows[i].owner && rows[i].line.height == rows[i].height
  }

  ghost predicate Distinct(items: seq<Item>) {
    forall i, j | 0 <= i < j < |items| :: items[i].line != items[j].line
  }

  ghost function Splice<T>(s: seq<T>, at: nat, n: nat, ins: seq<T>): seq<T>
    requires at + n <= |s|
  {
    s[..at] + ins + s[at + n..]
  }

  lemma {:induction false} FlatAllocated(t: Tree)
    ensures forall i | 0 <= i < |Flat(t)| :: allocated(Flat(t)[i].line)
    decreases t
  {
    match t
    case LeafT(_, rows) =>
    case BranchT(_, kids) => FlatLAllocated(kids);
  }

  lemma {:induction false} FlatLAllocated(ts: seq<Tree>)
    ensures forall i | 0 <= i < |FlatL(ts)| :: allocated(FlatL(ts)[i].line)
    decreases ts
  {
    if ts != [] {
      FlatAllocated(ts[0]);
      FlatLAllocated(ts[1..]);
    }
  }

  // Every line of a tree is an allocated object, so a new line is none of them.
  lemma {:induction false} AroundAllocated(c: Ctx, t: Tree)
    ensures forall i | 0 <= i < |Around(c, t)| :: allocated(Around(c, t)[i].line)
    decreases c
  {
    if c.In? {
      AroundUp(c, t);
      AroundAllocated(c.up, Up(c, t));
    } else {
      AroundTop(t);
      FlatAllocated(t);
    }
  }

  lemma LinesAllocated(c: Ctx, t: Tree)
    ensures forall l | l in LineSet(Around(c, t)) :: allocated(l)
  {
    hide Around;
    AroundAllocated(c, t);
  }

  // Lines are not chunks.
  lemma {:induction false} NoLine(t: Tree, l: Line)
    ensures l !in Chunks(t)
    decreases t
  {
    if t.BranchT? { NoLineL(t.kids, l); }
  }

  lemma {:induction false} NoLineL(ts: seq<Tree>, l: Line)
    ensures l !in ChunksL(ts)
    decreases ts
  {
    if ts != [] {
      NoLine(ts[0], l);
      NoLineL(ts[1..], l);
    }
  }

  lemma {:induction false} NoLineCtx(c: Ctx, l: Line)
    ensures l !in CtxChunks(c)
  {
    if c.In? {
      NoLineL(c.left, l);
      NoLineL(c.right, l);
      NoLineCtx(c.up, l);
    }
  }

  // Like At, but the chunks above t already count dn more lines and dh more height.
  ghost predicate AtWith(c: Ctx, t: Tree, dn: int, dh: int)
    reads Chunks(t), Obj(Ref(t)), CtxChunks(c)
  {
    && Ok(t)
    && ParentOf(Ref(t)) == CtxParent(c)
    && OkCtx(c, Ref(t), |Flat(t)| + dn, Sum(Flat(t)) + dh)
    && Uniq(Chunks(t) + CtxChunks(c))
  }

  lemma Descend(c: Ctx, b: BranchChunk, l: seq<Tree>, t: Tree, r: seq<Tree>, dn: int, dh: int)
    requires var ks := l + [t] + r;
      && b.children == Refs(ks) && OkL(ks, b) && SameKind(ks, t.LeafT?)
      && b.size == |FlatL(ks)| + dn && b.height == Sum(FlatL(ks)) + dh
      && b.parent == CtxParent(c) && OkCtx(c, Branch(b), b.size, b.height)
      && Uniq(Chunks(BranchT(b, ks)) + CtxChunks(c))
    ensures AtWith(In(c, b, l, r), t, dn, dh)
    ensures Chunks(t) + CtxChunks(In(c, b, l, r)) == Chunks(BranchT(b, l + [t] + r)) + CtxChunks(c)
    ensures Around(In(c, b, l, r), t) == Around(c, BranchT(b, l + [t] + r))
  {
    var c', ks := In(c, b, l, r), l + [t] + r;
    hide Around, FlatL, Flat, ChunksL, Chunks, Sum, OkL, CtxChunks, Ok, OkCtx;
    AroundUp(c', t);
    ChunksUp(c, b, l, t, r);
    FlatBranch(b, ks);
    FlatSplit(l, t, r);
    OkSplit(l, t, r, b);
    RefsSplit(l, t, r);
    KindSplit(l, t, r, t.LeafT?);
    OkCtxIn(c', Ref(t), |Flat(t)| + dn, Sum(Flat(t)) + dh);
  }

  // The child that an insertion at position at goes to: the first one it does not lie behind.
  method FindInsert(children: seq<Chunk>, at: nat, ghost kids: seq<Tree>, ghost p: BranchChunk?)
    returns (i: nat, at': nat)
    requires children == Refs(kids) && OkL(kids, p) && |kids| >= 1 && at <= |FlatL(kids)|
    ensures i < |kids| && at' <= |Flat(kids[i])| && at == |FlatL(kids[..i])| + at'
  {
    hide FlatL, OkL, Ok, Flat, Sum;
    i, at' := 0, at;
    assert kids[0..] == kids;
    EmptyKids(p);
    KidAt(kids, 0, p);
    while at' > children[i].Size()
      invariant OkL(kids, p)
      invariant i < |kids| && at == |FlatL(kids[..i])| + at' && at' <= |FlatL(kids[i..])|
      invariant children[i].Size() == |Flat(kids[i])|
      decreases |kids| - i
    {
      at' := at' - children[i].Size();
      KidAt(kids, i, p);
      i := i + 1;
      if i < |kids| { KidAt(kids, i, p); }
    }
    KidAt(kids, i, p);
  }

  lemma KidAt(kids: seq<Tree>, i: nat, p: BranchChunk?)
    requires i < |kids| && OkL(kids, p)
    ensures Ok(kids[i]) && ParentOf(Ref(kids[i])) == p
    ensures Ref(kids[i]).Size() == |Flat(kids[i])| && Ref(kids[i]).Height() == Sum(Flat(kids[i]))
    ensures OkL(kids[..i], p) && OkL(kids[i + 1..], p)
    ensures FlatL(kids[..i + 1]) == FlatL(kids[..i]) + Flat(kids[i])
    ensures FlatL(kids[i..]) == Flat(kids[i]) + FlatL(kids[i + 1..])
    ensures FlatL(kids) == FlatL(kids[..i]) + FlatL(kids[i..])
    ensures i + 1 == |kids| ==> FlatL(kids[i + 1..]) == []
  {
    hide FlatL, OkL, Ok, Flat, Sum;
    var l, t, r := kids[..i], kids[i], kids[i + 1..];
    assert kids == l + [t] + r;
    OkSplit(l, t, r, p);
    CachedSums(t);
    FlatAt(kids, i);
  }

  lemma FlatSnoc(l: seq<Tree>, t: Tree)
    ensures FlatL(l + [t]) == FlatL(l) + Flat(t)
  {
    hide FlatL, Flat;
    FlatAppend(l, [t]);
    assert [t] == [t] + [];
    FlatCons(t, []);
    FlatNil();
  }

  lemma FlatCut(kids: seq<Tree>, i: nat)
    requires i <= |kids|
    ensures FlatL(kids) == FlatL(kids[..i]) + FlatL(kids[i..])
  {
    hide FlatL;
    FlatAppend(kids[..i], kids[i..]);
    TakeDrop(kids, i);
  }

  lemma FlatAt(kids: seq<Tree>, i: nat)
    requires i < |kids|
    ensures FlatL(kids[..i + 1]) == FlatL(kids[..i]) + Flat(kids[i])
    ensures FlatL(kids[i..]) == Flat(kids[i]) + FlatL(kids[i + 1..])
    ensures FlatL(kids) == FlatL(kids[..i]) + FlatL(kids[i..])
    ensures i + 1 == |kids| ==> FlatL(kids[i + 1..]) == []
  {
    hide FlatL, Flat;
    TakeSnoc(kids, i);
    FlatSnoc(kids[..i], kids[i]);
    DropCons(kids, i);
    FlatCons(kids[i], kids[i + 1..]);
    FlatCut(kids, i);
    if i + 1 == |kids| {
      FlatNil();
    }
  }

  ghost function Total(items: seq<Item>): nat {
    if items == [] then 0 else items[0].height + Total(items[1..])
  }

  lemma {:induction false} SumTotal(rows: seq<Row>)
    ensures Sum(rows) == Total(Items(rows))
  {
    if rows != [] {
      assert Items(rows)[1..] == Items(rows[1..]);
      SumTotal(rows[1..]);
    }
  }

  // The rows that lines take up in a leaf.
  ghost function Owned(leaf: LeafChunk, items: seq<Item>): (rows: seq<Row>)
    ensures Items(rows) == items
  {
    seq(|items|, i requires 0 <= i < |items| => Row(items[i].line, items[i].height, leaf))
  }

  ghost predicate Detached(lines: seq<Line>, items: seq<Item>)
    reads (set l | l in lines)`height
  {
    |lines| == |items| && forall i | 0 <= i < |lines| :: items[i].line == lines[i] && items[i].height == lines[i].height
  }

  lemma SumSplice(rows: seq<Row>, at: nat, n: nat, ins: seq<Row>)
    requires at + n <= |rows|
    ensures Sum(Splice(rows, at, n, ins)) == Sum(rows) + Sum(ins) - Sum(rows[at..at + n])
    ensures Sum([]) == 0
  {
    EmptyKids(null);
    hide Sum;
    SumAppend(rows[..at] + ins, rows[at + n..]);
    SumAppend(rows[..at], ins);
    SumAppend(rows[..at] + rows[at..at + n], rows[at + n..]);
    SumAppend(rows[..at], rows[at..at + n]);
    assert rows == rows[..at] + rows[at..at + n] + rows[at + n..];
  }

  ghost function SpilledCtx(c: Ctx, nl: Tree): Ctx
    requires c.In?
  {
    In(c.up, c.branch, c.left, [nl] + c.right)
  }

  lemma LeafSpillShape(c: Ctx, leaf: LeafChunk, keep: seq<Row>, sp: seq<Row>, nl: Tree)
    requires c.In? && nl.LeafT?
    ensures var c' := SpilledCtx(c, nl);
      && Around(c, LeafT(leaf, keep + sp)) == Pre(c) + keep + sp + Post(c)
      && Around(c', LeafT(leaf, keep)) == Pre(c) + keep + nl.rows + Post(c)
      && Pre(c') == Pre(c)
      && Chunks(LeafT(leaf, keep)) + CtxChunks(c') == Chunks(LeafT(leaf, keep + sp)) + CtxChunks(c) + multiset{nl.leaf}
  {
    hide FlatL, ChunksL, Pre, Post, CtxChunks;
    var c' := SpilledCtx(c, nl);
    assert [] + [nl] + c.right == [nl] + c.right;
    EmptyKids(null);
    FlatSplit([], nl, c.right);
    PreIn(c);
    PreIn(c');
    CtxChunksIn(c);
    CtxChunksIn(c');
  }

  lemma LeafSpilled(c: Ctx, leaf: LeafChunk, keep: seq<Row>, sp: seq<Row>, nl: Tree)
    requires c.In? && nl.LeafT? && Ok(LeafT(leaf, keep)) && Ok(nl) && |nl.rows| == |sp| && Sum(nl.rows) == Sum(sp)
    requires leaf.parent == nl.leaf.parent == c.branch
    requires TwoHoles(c, Leaf(leaf), Leaf(nl.leaf), |keep + sp|, Sum(keep + sp))
    requires Uniq(Chunks(LeafT(leaf, keep + sp)) + CtxChunks(c))
        && nl.leaf !in Chunks(LeafT(leaf, keep + sp)) + CtxChunks(c)
    ensures At(SpilledCtx(c, nl), LeafT(leaf, keep))
  {
    hide FlatL, ChunksL, OkL, Ok, Sum, OkCtx, CtxChunks, Chunks, TwoHoles;
    FlatLeaf(nl);
    SumAppend(keep, sp);
    SecondHole(c, Leaf(leaf), nl, |keep|, Sum(keep));
    LeafSpillShape(c, leaf, keep, sp, nl);
    UniqAdd(Chunks(LeafT(leaf, keep + sp)) + CtxChunks(c), nl.leaf);
  }

  // The last 25 lines of a leaf move to a new leaf.
  method SplitLeaf(leaf: LeafChunk, ghost keep: seq<Row>, ghost sp: seq<Row>) returns (newleaf: LeafChunk)
    requires Ok(LeafT(leaf, keep + sp)) && |sp| == 25 && Linked(keep + sp)
    modifies leaf`lines, leaf`height, LineSet(sp)`parent
    ensures Ok(LeafT(leaf, keep)) && Ok(LeafT(newleaf, Owned(newleaf, Items(sp))))
    ensures Sum(Owned(newleaf, Items(sp))) == Sum(sp)
    ensures fresh(newleaf) && newleaf.parent == null
    ensures forall i | 0 <= i < |sp| :: sp[i].line.parent == newleaf
  {
    hide Sum, Ok, Linked, Items, Owned, RowsOf;
    OkLeaf(leaf, keep + sp);
    SpilledLines(leaf, keep, sp);
    var spilled := leaf.lines[|leaf.lines| - 25..];
    leaf.lines := leaf.lines[..|leaf.lines| - 25];
    newleaf := new LeafChunk(spilled);
    leaf.height := leaf.height - newleaf.height;
    ghost var nr := Owned(newleaf, Items(sp));
    OwnedRows(newleaf, sp);
    SumAppend(keep, sp);
    OkLeaf(leaf, keep);
    OkLeaf(newleaf, nr);
  }

  lemma SpilledLines(leaf: LeafChunk, keep: seq<Row>, sp: seq<Row>)
    requires leaf.lines == LinesOf(keep + sp) && |sp| == 25 && Linked(keep + sp)
    requires forall i | 0 <= i < |keep + sp| :: (keep + sp)[i].owner == leaf
    ensures leaf.lines[|leaf.lines| - 25..] == LinesOf(sp) && leaf.lines[..|leaf.lines| - 25] == LinesOf(keep)
    ensures forall i | 0 <= i < |keep| :: keep[i].owner == leaf
    ensures forall i | 0 <= i < |sp| :: sp[i].line.height == sp[i].height
    ensures forall l | l in LinesOf(sp) :: l in LineSet(sp)
    ensures forall i | 0 <= i < |sp| :: sp[i].line in LinesOf(sp)
  {
    assert forall i | 0 <= i < |sp| :: sp[i] == (keep + sp)[|keep| + i];
    assert forall i | 0 <= i < |keep| :: keep[i] == (keep + sp)[i];
    assert forall i | 0 <= i < |sp| :: LinesOf(sp)[i] == sp[i].line;
  }

  lemma OwnedRows(leaf: LeafChunk, rows: seq<Row>)
    requires forall i | 0 <= i < |rows| :: rows[i].line.height == rows[i].height
    ensures RowsOf(leaf, LinesOf(rows)) == Owned(leaf, Items(rows))
    ensures Sum(Owned(leaf, Items(rows))) == Sum(rows)
    ensures LinesOf(Owned(leaf, Items(rows))) == LinesOf(rows)
    ensures forall i | 0 <= i < |rows| :: Owned(leaf, Items(rows))[i].owner == leaf
    ensures |Owned(leaf, Items(rows))| == |rows|
  {
    hide Sum;
    SumTotal(Owned(leaf, Items(rows)));
    SumTotal(rows);
    assert Items(Owned(leaf, Items(rows))) == Items(rows);
  }

  lemma NoLines(c: Ctx)
    requires c.In?
    ensures forall l: Line :: l !in ChunksL(c.left) && l !in ChunksL(c.right) && l !in CtxChunks(c.up)
  {
    forall l: Line ensures l !in ChunksL(c.left) && l !in ChunksL(c.right) && l !in CtxChunks(c.up) {
      NoLineL(c.left, l);
      NoLineL(c.right, l);
      NoLineCtx(c.up, l);
    }
  }

  // Moves the last 25 lines of an overfull leaf into a new leaf right after it.
  method SpillLeaf(b: BranchChunk, leaf: LeafChunk, i: nat, ghost c: Ctx, ghost keep: seq<Row>, ghost sp: seq<Row>)
    returns (newleaf: LeafChunk)
    requires At(c, LeafT(leaf, keep + sp)) && c.In? && c.branch == b && i == |c.left| && |sp| == 25
    requires Linked(keep + sp)
    modifies leaf, b`children, LineSet(sp)`parent
    ensures fresh(newleaf)
    ensures At(SpilledCtx(c, LeafT(newleaf, Owned(newleaf, Items(sp)))), LeafT(leaf, keep))
    ensures forall i | 0 <= i < |sp| :: sp[i].line.parent == newleaf
  {
    hide FlatL, ChunksL, OkL, Sum, OkCtx, CtxChunks, Ok;
    ghost var t := LeafT(leaf, keep + sp);
    LeafApart(c, leaf, keep + sp);
    CtxAllocated(c.up);
    ChunksAllocated(c.left);
    ChunksAllocated(c.right);
    NoLines(c);
    OkCtxIn(c, Leaf(leaf), |keep + sp|, Sum(keep + sp));
    newleaf := SplitLeaf(leaf, keep, sp);
    ghost var nl := LeafT(newleaf, Owned(newleaf, Items(sp)));
    OkLeaf(leaf, keep);
    OkLeaf(newleaf, nl.rows);
    b.children := b.children[..i + 1] + [Leaf(newleaf)] + b.children[i + 1..];
    newleaf.parent := b;
    OkLeaf(leaf, keep);
    OkLeaf(newleaf, nl.rows);
    CtxChunksIn(c);
    LeafSpilled(c, leaf, keep, sp, nl);
  }

  lemma OkLeaf(leaf: LeafChunk, rows: seq<Row>)
    ensures Ok(LeafT(leaf, rows)) <==>
      && leaf.lines == LinesOf(rows)
      && leaf.height == Sum(rows)
      && forall i | 0 <= i < |rows| :: rows[i].owner == leaf
  {
  }

  lemma LeafApart(c: Ctx, leaf: LeafChunk, rows: seq<Row>)
    requires c.In? && Uniq(Chunks(LeafT(leaf, rows)) + CtxChunks(c))
    ensures leaf !in ChunksL(c.left) && leaf !in ChunksL(c.right) && leaf !in CtxChunks(c.up)
    ensures c.branch !in ChunksL(c.left) && c.branch !in ChunksL(c.right) && c.branch !in CtxChunks(c.up)
  {
    hide ChunksL, CtxChunks;
    CtxChunksIn(c);
    var u, rest := Chunks(LeafT(leaf, rows)) + CtxChunks(c), ChunksL(c.left) + ChunksL(c.right) + CtxChunks(c.up);
    NotIn(u, leaf, multiset{c.branch} + rest);
    NotIn(u, c.branch, multiset{leaf} + rest);
  }

  // Rows a + m + z, with the lines of the middle m moved to another owner.
  lemma Moved(a: seq<Row>, m: seq<Row>, m': seq<Row>, z: seq<Row>)
    requires Items(m') == Items(m) && Distinct(Items(a + m + z))
    ensures Items(a + m' + z) == Items(a + m + z)
    ensures forall i | 0 <= i < |a + m + z| :: var x := (a + m' + z)[i];
      if |a| <= i < |a| + |m| then x == m'[i - |a|] && x.line == m[i - |a|].line
      else x == (a + m + z)[i] && x.line !in LineSet(m)
  {
    var old_, new_ := a + m + z, a + m' + z;
    assert forall i | 0 <= i < |m| ::
        Items(m')[i] == Items(m)[i] && m'[i].line == m[i].line && m'[i].height == m[i].height;
    forall i | 0 <= i < |old_| && !(|a| <= i < |a| + |m|) ensures old_[i].line !in LineSet(m) {
      forall k | 0 <= k < |m| ensures m[k].line != old_[i].line {
        assert old_[|a| + k] == m[k];
        assert Items(old_)[|a| + k].line != Items(old_)[i].line;
      }
    }
  }

  // Spills a leaf until it holds at most 50 lines.
  method SpillLeafAll(b: BranchChunk, leaf: LeafChunk, i: nat, ghost c0: Ctx, ghost rows0: seq<Row>)
    returns (ghost c: Ctx, ghost rows: seq<Row>, ghost added: multiset<object>)
    requires At(c0, LeafT(leaf, rows0)) && c0.In? && c0.branch == b && i == |c0.left|
    requires Linked(Around(c0, LeafT(leaf, rows0))) && Distinct(Items(Around(c0, LeafT(leaf, rows0))))
    modifies leaf, b`children, LineSet(rows0)`parent
    ensures At(c, LeafT(leaf, rows)) && c.In? && c.branch == b && c.up == c0.up && c.left == c0.left
    ensures |rows| <= 50
    ensures AllBounded(c0.right) ==> AllBounded(c.right)
    ensures Linked(Around(c, LeafT(leaf, rows)))
    ensures Items(Around(c, LeafT(leaf, rows))) == Items(Around(c0, LeafT(leaf, rows0)))
    ensures Chunks(LeafT(leaf, rows)) + CtxChunks(c) == Chunks(LeafT(leaf, rows0)) + CtxChunks(c0) + added
    ensures forall o | o in added :: fresh(o)
    ensures |rows0| <= 50 ==> c == c0
  {
    hide Around, Linked, Items, Distinct, Ok, OkCtx, At, CtxChunks;
    c, rows, added := c0, rows0, multiset{};
    AtLeaf(c, leaf, rows);
    while |leaf.lines| > 50
      invariant At(c, LeafT(leaf, rows)) && c.In? && c.branch == b && c.up == c0.up && c.left == c0.left
      invariant |leaf.lines| == |rows| && rows <= rows0
      invariant AllBounded(c0.right) ==> AllBounded(c.right)
      invariant Linked(Around(c, LeafT(leaf, rows)))
      invariant Items(Around(c, LeafT(leaf, rows))) == Items(Around(c0, LeafT(leaf, rows0)))
      invariant Chunks(LeafT(leaf, rows)) + CtxChunks(c) == Chunks(LeafT(leaf, rows0)) + CtxChunks(c0) + added
      invariant forall o | o in added :: fresh(o)
      invariant |rows0| <= 50 ==> c == c0
    {
      ghost var keep, sp := rows[..|rows| - 25], rows[|rows| - 25..];
      assert rows == keep + sp;
      var newleaf;
      newleaf := SpillLeafLinked(b, leaf, i, c, keep, sp);
      ghost var nl := LeafT(newleaf, Owned(newleaf, Items(sp)));
      LeafSpillShape(c, leaf, keep, sp, nl);
      assert Bounded(nl);
      c, rows, added := SpilledCtx(c, nl), keep, added + multiset{newleaf};
      AtLeaf(c, leaf, rows);
    }
  }

  lemma AtLeaf(c: Ctx, leaf: LeafChunk, rows: seq<Row>)
    requires At(c, LeafT(leaf, rows))
    ensures leaf.lines == LinesOf(rows) && leaf.parent == CtxParent(c)
  {
  }

  method SpillLeafLinked(b: BranchChunk, leaf: LeafChunk, i: nat, ghost c: Ctx, ghost keep: seq<Row>,
      ghost sp: seq<Row>)
    returns (newleaf: LeafChunk)
    requires At(c, LeafT(leaf, keep + sp)) && c.In? && c.branch == b && i == |c.left| && |sp| == 25
    requires Linked(Around(c, LeafT(leaf, keep + sp))) && Distinct(Items(Around(c, LeafT(leaf, keep + sp))))
    modifies leaf, b`children, LineSet(sp)`parent
    ensures fresh(newleaf)
    ensures var c' := SpilledCtx(c, LeafT(newleaf, Owned(newleaf, Items(sp))));
      && At(c', LeafT(leaf, keep))
      && Linked(Around(c', LeafT(leaf, keep)))
      && Items(Around(c', LeafT(leaf, keep))) == Items(Around(c, LeafT(leaf, keep + sp)))
  {
    hide Around, Distinct, Ok, OkCtx, At, CtxChunks, Pre, Post;
    ghost var old_ := Around(c, LeafT(leaf, keep + sp));
    LeafSpillShape(c, leaf, keep, sp, LeafT(leaf, sp));
    ghost var a, z := Pre(c) + keep, Post(c);
    assert old_ == a + sp + z;
    forall k | 0 <= k < |keep + sp|
      ensures (keep + sp)[k].line.parent == (keep + sp)[k].owner && (keep + sp)[k].line.height == (keep + sp)[k].height
    {
      assert (keep + sp)[k] == old_[|Pre(c)| + k];
    }
    AroundAllocated(c, LeafT(leaf, keep + sp));
    newleaf := SpillLeaf(b, leaf, i, c, keep, sp);
    ghost var sp' := Owned(newleaf, Items(sp));
    LeafSpillShape(c, leaf, keep, sp, LeafT(newleaf, sp'));
    Moved(a, sp, sp', z);
    ghost var new_ := a + sp' + z;
    forall k | 0 <= k < |new_| ensures new_[k].line.parent == new_[k].owner && new_[k].line.height == new_[k].height {
      if |a| <= k < |a| + |sp| {
        assert sp[k - |a|] == (keep + sp)[|keep| + k - |a|];
        assert new_[k] == sp'[k - |a|] && Items(sp')[k - |a|] == Items(sp)[k - |a|];
      } else {
        assert new_[k] == old_[k] && old(old_[k].line.parent) == new_[k].owner;
      }
    }
    assert Around(SpilledCtx(c, LeafT(newleaf, sp')), LeafT(leaf, keep)) == a + sp' + z;
  }

  lemma SpliceMiddle<T>(a: seq<T>, m: seq<T>, z: seq<T>, at: nat, ins: seq<T>)
    requires at <= |m|
    ensures a + Splice(m, at, 0, ins) + z == Splice(a + m + z, |a| + at, 0, ins)
  {
    assert m == m[..at] + m[at..];
  }

  lemma ItemsSplice(rows: seq<Row>, at: nat, ins: seq<Row>)
    requires at <= |rows|
    ensures Items(Splice(rows, at, 0, ins)) == Splice(Items(rows), at, 0, Items(ins))
  {
  }

  // What the new lines do to the rows around a leaf.
  lemma InsertedRows(a: seq<Row>, m: seq<Row>, z: seq<Row>, at: nat, leaf: LeafChunk, items: seq<Item>)
    requires at <= |m| && Distinct(Splice(Items(a + m + z), |a| + at, 0, items))
    ensures var old_, new_, p := a + m + z, a + Splice(m, at, 0, Owned(leaf, items)) + z, |a| + at;
      && Items(new_) == Splice(Items(old_), p, 0, items)
      && |new_| == |old_| + |items|
      && (forall i | 0 <= i < p :: new_[i] == old_[i])
      && (forall i | 0 <= i < |items| :: new_[p + i] == Row(items[i].line, items[i].height, leaf))
      && (forall i | p + |items| <= i < |new_| :: new_[i] == old_[i - |items|])
      && (forall i, k | 0 <= i < |old_| && 0 <= k < |items| :: old_[i].line != items[k].line)
  {
    hide Distinct;
    var old_, ins, p := a + m + z, Owned(leaf, items), |a| + at;
    SpliceMiddle(a, m, z, at, ins);
    ItemsSplice(old_, p, ins);
    var all := Splice(Items(old_), p, 0, items);
    forall i, k | 0 <= i < |old_| && 0 <= k < |items| ensures old_[i].line != items[k].line {
      Apart(all, if i < p then i else i + |items|, p + k);
      assert all[p + k] == items[k];
    }
  }

  lemma Apart(items: seq<Item>, i: nat, j: nat)
    requires Distinct(items) && i < |items| && j < |items| && i != j
    ensures items[i].line != items[j].line
  {
  }

  // Inserts into a leaf whose context already counts the new lines.
  method InsertIntoLeaf(leaf: LeafChunk, at: nat, lines: seq<Line>, height: int,
                        ghost c: Ctx, ghost rows: seq<Row>, ghost items: seq<Item>)
    returns (ghost rows': seq<Row>)
    requires AtWith(c, LeafT(leaf, rows), |lines|, height) && c.In? && at <= |rows|
    requires Linked(Around(c, LeafT(leaf, rows)))
    requires Detached(lines, items) && height == Total(items)
    requires Distinct(Splice(Items(Around(c, LeafT(leaf, rows))), |Pre(c)| + at, 0, items))
    modifies leaf, (set l | l in lines)`parent
    ensures At(c, LeafT(leaf, rows')) && Linked(Around(c, LeafT(leaf, rows')))
    ensures Items(Around(c, LeafT(leaf, rows'))) == Splice(Items(Around(c, LeafT(leaf, rows))), |Pre(c)| + at, 0, items)
    ensures LineSet(rows') <= LineSet(Around(c, LeafT(leaf, rows))) + set l | l in lines
  {
    hide Ok, OkCtx, CtxChunks, Pre, Post, Distinct, Items, Total, Sum, Owned;
    CtxAllocated(c);
    forall l: Line ensures l !in CtxChunks(c) { NoLineCtx(c, l); }
    NotIn(Chunks(LeafT(leaf, rows)) + CtxChunks(c), leaf, CtxChunks(c));
    AroundAllocated(c, LeafT(leaf, rows));
    ghost var old_ := Around(c, LeafT(leaf, rows));
    InsertedRows(Pre(c), rows, Post(c), at, leaf, items);
    assert forall i | 0 <= i < |old_| :: old_[i].line !in lines;
    rows' := leaf.InsertHeight(at, lines, height, rows, items);
    ghost var new_, p := Around(c, LeafT(leaf, rows')), |Pre(c)| + at;
    forall k | 0 <= k < |new_|
      ensures new_[k].line.parent == new_[k].owner && new_[k].line.height == new_[k].height
      ensures new_[k].line in LineSet(old_) || new_[k].line in lines
    {
      if p <= k < p + |items| {
        assert new_[p + (k - p)].line == lines[k - p];
      } else {
        ghost var j := if k < p then k else k - |items|;
        assert new_[k] == old_[j] && old_[j] in old_;
      }
    }
    LinesWithin(Pre(c), rows', Post(c), LineSet(old_), lines);
  }

  // The lines in the middle are among those of the whole.
  lemma LinesWithin(a: seq<Row>, m: seq<Row>, z: seq<Row>, s: set<Line>, lines: seq<Line>)
    requires forall k | 0 <= k < |a + m + z| :: (a + m + z)[k].line in s || (a + m + z)[k].line in lines
    ensures LineSet(m) <= s + set l | l in lines
  {
    forall i | 0 <= i < |m| ensures m[i].line in s || m[i].line in lines {
      assert m[i] == (a + m + z)[|a| + i];
    }
  }

  // Spills the branch around a subtree, which leaves the lines as they are.
  method SpillParent(b: BranchChunk, ghost c: Ctx, ghost t: Tree) returns (ghost whole: Tree,
      ghost added: multiset<object>)
    requires At(c, t) && c.In? && c.branch == b && Linked(Around(c, t))
    modifies Chunks(t) + CtxChunks(c)
    ensures At(Top, whole) && Linked(Flat(whole)) && Ref(whole) == RootRef(c, Ref(t))
    ensures Flat(whole) == Around(c, t)
    ensures CtxBounded(c.up) && AllBounded(c.left) && AllBounded(c.right) && Bounded(t) ==> Bounded(whole)
    ensures Chunks(whole) == Chunks(t) + CtxChunks(c) + added && forall o | o in added :: fresh(o)
  {
    hide Ok, OkCtx, CtxChunks, Chunks, Pre, Post, Around, At, Bounded;
    GoUp(c, t);
    AroundAllocated(c, t);
    forall l: Line ensures l !in Chunks(Up(c, t)) && l !in CtxChunks(c.up) {
      NoLine(Up(c, t), l);
      NoLineCtx(c.up, l);
    }
    ghost var ks := c.left + [t] + c.right;
    assert AllBounded(c.left) && AllBounded(c.right) && Bounded(t) ==> AllBounded(ks);
    InAll(Chunks(Up(c, t)), CtxChunks(c.up), Chunks(t) + CtxChunks(c), multiset{});
    whole, added := b.MaybeSpill(c.up, ks);
  }

  // The insertion has reached a leaf: insert, spill the leaf, then the branches above it.
  method InsertAtLeaf(b: BranchChunk, leaf: LeafChunk, i: nat, at: nat, lines: seq<Line>, height: int,
                      ghost c: Ctx, ghost rows: seq<Row>, ghost items: seq<Item>)
    returns (ghost whole: Tree, ghost added: multiset<object>)
    requires AtWith(c, LeafT(leaf, rows), |lines|, height) && c.In? && at <= |rows| && c.branch == b && i == |c.left|
    requires Linked(Around(c, LeafT(leaf, rows)))
    requires Detached(lines, items) && height == Total(items)
    requires Distinct(Splice(Items(Around(c, LeafT(leaf, rows))), |Pre(c)| + at, 0, items))
    modifies Chunks(LeafT(leaf, rows)) + CtxChunks(c), LineSet(Around(c, LeafT(leaf, rows)))`parent,
      (set l | l in lines)`parent
    ensures At(Top, whole) && Linked(Flat(whole)) && Ref(whole) == RootRef(c, Leaf(leaf))
    ensures Items(Flat(whole)) == Splice(Items(Around(c, LeafT(leaf, rows))), |Pre(c)| + at, 0, items)
    ensures CtxBounded(c) && |rows| <= 50 ==> Bounded(whole)
    ensures Chunks(whole) == Chunks(LeafT(leaf, rows)) + CtxChunks(c) + added && forall o | o in added :: fresh(o)
  {
    hide Ok, OkCtx, CtxChunks, Chunks, Pre, Post, Items, Total, Sum, Around, At, AtWith, Linked, Distinct, LineSet;
    ghost var all := Chunks(LeafT(leaf, rows)) + CtxChunks(c);
    OneLeaf(leaf, rows);
    CtxChunksIn(c);
    assert c.branch in CtxChunks(c);
    ghost var rows1 := InsertIntoLeaf(leaf, at, lines, height, c, rows, items);
    OneLeaf(leaf, rows1);
    ghost var fits := CtxBounded(c) && |rows| <= 50;
    AtLeaf(c, leaf, rows1);
    if |leaf.lines| > 50 {
      ghost var c2, rows2, added2, more;
      c2, rows2, added2 := SpillLeafAll(b, leaf, i, c, rows1);
      ghost var t := LeafT(leaf, rows2);
      OneLeaf(leaf, rows2);
      InAll(Chunks(t), CtxChunks(c2), all, added2);
      whole, more := SpillParent(b, c2, t);
      added := added2 + more;
    } else {
      whole, added := Whole(c, LeafT(leaf, rows1)), multiset{};
      AtWhole(c, LeafT(leaf, rows1));
      RootOfWhole(c, LeafT(leaf, rows1));
      if fits { WholeBounded(c, LeafT(leaf, rows1)); }
    }
  }

  lemma OneLeaf(leaf: LeafChunk, rows: seq<Row>)
    ensures Chunks(LeafT(leaf, rows)) == multiset{leaf}
  {
  }

  lemma FlatLeaf(t: Tree)
    requires t.LeafT?
    ensures Flat(t) == t.rows
  {
  }

  lemma WithParts(c: Ctx, b: BranchChunk, kids: seq<Tree>, dn: int, dh: int)
    requires AtWith(c, BranchT(b, kids), dn, dh)
    ensures |kids| >= 1 && SameKind(kids, kids[0].LeafT?) && b.children == Refs(kids) && OkL(kids, b)
    ensures b.size == |FlatL(kids)| && b.height == Sum(FlatL(kids)) && b.parent == CtxParent(c)
    ensures OkCtx(c, Branch(b), b.size + dn, b.height + dh)
    ensures Uniq(Chunks(BranchT(b, kids)) + CtxChunks(c))
    ensures b in Chunks(BranchT(b, kids)) && b !in ChunksL(kids) && b !in CtxChunks(c)
  {
    hide OkL, OkCtx, CtxChunks, FlatL, Sum;
    NotIn(Chunks(BranchT(b, kids)) + CtxChunks(c), b, ChunksL(kids) + CtxChunks(c));
  }

  lemma {:induction false} TotalAppend(a: seq<Item>, b: seq<Item>)
    ensures Total(a + b) == Total(a) + Total(b)
  {
    if a == [] {
      assert a + b == b;
    } else {
      TotalAppend(a[1..], b);
      assert (a + b)[1..] == a[1..] + b;
    }
  }

  lemma TotalEmpty(items: seq<Item>)
    ensures Total(items[..0]) == 0
  {
  }

  lemma AtTop(t: Tree, dn: int, dh: int)
    requires At(Top, t)
    ensures AtWith(Top, t, dn, dh)
    ensures t.BranchT? ==> Flat(t) == FlatL(t.kids)
    ensures Pre(Top) == [] && CtxBounded(Top) && CtxChunks(Top) == multiset{}
    ensures RootRef(Top, Ref(t)) == Ref(t)
  {
  }

  lemma TotalSnoc(a: seq<Item>, i: nat)
    requires i < |a|
    ensures Total(a[..i + 1]) == Total(a[..i]) + a[i].height
  {
    TotalAppend(a[..i], [a[i]]);
    assert a[..i + 1] == a[..i] + [a[i]];
  }

  // ---------------------------------------------------------------- removal

  // A subtree on its own: chunks and lines agree with the heap, and nothing occurs twice.
  ghost predicate Good(t: Tree)
    reads Chunks(t), LineSet(Flat(t))`parent, LineSet(Flat(t))`height
  {
    Ok(t) && Uniq(Chunks(t)) && Linked(Flat(t)) && Distinct(Items(Flat(t)))
  }

  lemma Cut(rows: seq<Row>, at: nat, n: nat)
    requires at + n <= |rows|
    ensures Items(Splice(rows, at, n, [])) == Splice(Items(rows), at, n, [])
    ensures Distinct(Items(rows)) ==> Distinct(Items(Splice(rows, at, n, [])))
    ensures Distinct(Items(rows)) ==> forall i, k | at <= i < at + n && 0 <= k < |rows| && !(at <= k < at + n) ::
              rows[i].line != rows[k].line
    ensures forall i | 0 <= i < |rows| - n :: Splice(rows, at, n, [])[i] == rows[if i < at then i else i + n]
  {
    var cut := Splice(rows, at, n, []);
    assert forall i | 0 <= i < |cut| :: cut[i] == rows[if i < at then i else i + n];
    if Distinct(Items(rows)) {
      forall i, j | 0 <= i < j < |cut| ensures Items(cut)[i].line != Items(cut)[j].line {
        Apart(Items(rows), if i < at then i else i + n, if j < at then j else j + n);
      }
      forall i, k | at <= i < at + n && 0 <= k < |rows| && !(at <= k < at + n) ensures rows[i].line != rows[k].line {
        Apart(Items(rows), i, k);
      }
    }
  }

  lemma ApartAt(rows: seq<Row>, i: nat)
    requires Distinct(Items(rows)) && i < |rows|
    ensures forall k | 0 <= k < |rows| && k != i :: rows[k].line != rows[i].line
  {
    forall k | 0 <= k < |rows| && k != i ensures rows[k].line != rows[i].line {
      Apart(Items(rows), i, k);
    }
  }

  // The state of a branch's children between two rounds of the loop in Remove.
  ghost predicate Kids(b: BranchChunk, ks: seq<Tree>, leaf: bool)
    reads b, ChunksL(ks), LineSet(FlatL(ks))`parent, LineSet(FlatL(ks))`height
  {
    && b.children == Refs(ks) && b.height == Sum(FlatL(ks)) && SameKind(ks, leaf)
    && OkL(ks, b) && Uniq(multiset{b} + ChunksL(ks))
    && Linked(FlatL(ks)) && Distinct(Items(FlatL(ks)))
  }

  // The loop of Remove has n of its n0 lines still to take out, starting at position at of the children rest.
  ghost predicate Removing(b: BranchChunk, kids: seq<Tree>, leaf: bool, at0: nat, n0: nat,
                           at: nat, n: nat, done: seq<Tree>, rest: seq<Tree>)
    reads b, ChunksL(done + rest), LineSet(FlatL(done + rest))`parent, LineSet(FlatL(done + rest))`height
    reads LineSet(FlatL(kids))`parent
  {
    && Kids(b, done + rest, leaf)
    && |done| + |rest| <= |kids| && rest == kids[|kids| - |rest|..]
    && n <= n0 && at0 + n0 <= |FlatL(kids)|
    && |FlatL(done)| + at == at0 && at + n <= |FlatL(rest)|
    && Items(FlatL(done) + FlatL(rest)) == Splice(Items(FlatL(kids)), at0, n0 - n, [])
    && (forall k | at0 <= k < at0 + n0 - n :: FlatL(kids)[k].line.parent == null)
    && (AllBounded(kids) ==> AllBounded(done + rest))
  }

  lemma RemovingStart(b: BranchChunk, kids: seq<Tree>, leaf: bool, at: nat, n: nat)
    requires Kids(b, kids, leaf) && at + n <= |FlatL(kids)|
    ensures Removing(b, kids, leaf, at, n, at, n, [], kids)
  {
    hide Kids;
    EmptyKids(b);
    assert [] + kids == kids && [] + FlatL(kids) == FlatL(kids);
    CutNothing(Items(FlatL(kids)), at);
  }

  lemma RemovingHead(b: BranchChunk, kids: seq<Tree>, leaf: bool, at0: nat, n0: nat,
                     at: nat, n: nat, done: seq<Tree>, rest: seq<Tree>)
    requires Removing(b, kids, leaf, at0, n0, at, n, done, rest) && rest != []
    ensures done + rest == done + [rest[0]] + rest[1..]
    ensures b.children == Refs(done) + [Ref(rest[0])] + Refs(rest[1..])
    ensures Ref(rest[0]).Size() == |Flat(rest[0])|
    ensures FlatL(rest) == Flat(rest[0]) + FlatL(rest[1..])
    ensures rest[0] in kids && b !in Chunks(rest[0])
  {
    hide Kids, Items;
    var t, r := rest[0], rest[1..];
    assert done + rest == done + [t] + r && rest == [] + [t] + r;
    KidsParts(b, done, t, r, leaf);
    KidsBags(b, done, t, r, leaf);
    FlatSplit([], t, r);
    EmptyKids(b);
  }

  lemma RemovingSkip(b: BranchChunk, kids: seq<Tree>, leaf: bool, at0: nat, n0: nat,
                     at: nat, n: nat, done: seq<Tree>, rest: seq<Tree>)
    requires Removing(b, kids, leaf, at0, n0, at, n, done, rest) && rest != [] && |Flat(rest[0])| <= at
    ensures Removing(b, kids, leaf, at0, n0, at - |Flat(rest[0])|, n, done + [rest[0]], rest[1..])
  {
    hide Kids, Items, FlatL, Flat, ChunksL, Sum;
    var t, r := rest[0], rest[1..];
    RemovingHead(b, kids, leaf, at0, n0, at, n, done, rest);
    assert done + [t] == done + [t] + [];
    EmptyKids(b);
    FlatSplit(done, t, []);
    assert done + [t] + r == done + rest;
    assert r == kids[|kids| - |r|..];
    assert FlatL(done + [t]) + FlatL(r) == FlatL(done) + FlatL(rest);
  }

  // All n0 lines are out.
  ghost predicate Removed(b: BranchChunk, kids: seq<Tree>, leaf: bool, at0: nat, n0: nat, ks: seq<Tree>)
    reads b, ChunksL(ks), LineSet(FlatL(ks))`parent, LineSet(FlatL(ks))`height
    reads LineSet(FlatL(kids))`parent
  {
    && Kids(b, ks, leaf)
    && |ks| <= |kids| && at0 + n0 <= |FlatL(kids)|
    && Items(FlatL(ks)) == Splice(Items(FlatL(kids)), at0, n0, [])
    && (forall k | at0 <= k < at0 + n0 :: FlatL(kids)[k].line.parent == null)
    && (AllBounded(kids) ==> AllBounded(ks))
  }

  lemma RemovingEnd(b: BranchChunk, kids: seq<Tree>, leaf: bool, at0: nat, n0: nat,
                    at: nat, n: nat, done: seq<Tree>, rest: seq<Tree>)
    requires Removing(b, kids, leaf, at0, n0, at, n, done, rest) && rest == []
    ensures n == 0 && Removed(b, kids, leaf, at0, n0, done + rest)
  {
    hide Kids, Items;
    EmptyKids(b);
    assert done + [] == done && FlatL(done) + [] == FlatL(done);
  }

  // rm more of the rows F are gone from cur, which had already lost gone of them.
  lemma CutMore(F: seq<Row>, at: nat, gone: nat, rm: nat, cur: seq<Row>, next: seq<Row>)
    requires at + gone + rm <= |F| && Distinct(Items(F))
    requires Items(cur) == Splice(Items(F), at, gone, [])
    requires |cur| >= at + rm && Items(next) == Splice(Items(cur), at, rm, [])
    ensures Items(next) == Splice(Items(F), at, gone + rm, [])
    ensures forall k | at <= k < at + gone :: F[k].line !in LineSet(cur)
    ensures forall k | at + gone <= k < at + gone + rm :: F[k].line == cur[k - gone].line
  {
    hide Distinct;
    var x, y := Items(next), Splice(Items(F), at, gone + rm, []);
    assert |cur| == |F| - gone && |x| == |y|;
    forall i | 0 <= i < |cur| ensures cur[i].line == F[if i < at then i else i + gone].line {
      assert Items(cur)[i] == Splice(Items(F), at, gone, [])[i] == Items(F)[if i < at then i else i + gone];
    }
    forall i | 0 <= i < |x| ensures x[i] == y[i] {
      assert x[i] == Items(cur)[if i < at then i else i + rm];
    }
    CutApart(F, at, gone, cur);
  }

  lemma KidInside(kids: seq<Tree>, t: Tree)
    requires t in kids
    ensures forall o | o in Chunks(t) :: o in ChunksL(kids)
    ensures LineSet(Flat(t)) <= LineSet(FlatL(kids))
  {
    hide Chunks, ChunksL, Flat, FlatL;
    var i :| 0 <= i < |kids| && kids[i] == t;
    assert kids == kids[..i] + [t] + kids[i + 1..];
    FlatSplit(kids[..i], t, kids[i + 1..]);
  }

  // Takes rm lines out of the child after done; m is what is left of that child.
  method RemoveTake(b: BranchChunk, ghost kids: seq<Tree>, ghost leaf: bool, ghost at0: nat, ghost n0: nat,
                    i: nat, at: nat, ghost n: nat, rm: nat, ghost done: seq<Tree>, ghost rest: seq<Tree>)
    returns (ghost m: seq<Tree>, ghost added: multiset<object>)
    requires Removing(b, kids, leaf, at0, n0, at, n, done, rest) && rest != [] && i == |done|
    requires rm <= n && at + rm <= |Flat(rest[0])|
    requires rm == n || at + rm == |Flat(rest[0])|
    requires Distinct(Items(FlatL(kids)))
    modifies b`children, b`height, Chunks(rest[0]), LineSet(Flat(rest[0]))`parent
    ensures if rm == n then Removed(b, kids, leaf, at0, n0, done + m + rest[1..])
            else Removing(b, kids, leaf, at0, n0, 0, n - rm, done + m, rest[1..])
    ensures |m| == if rm == |Flat(rest[0])| then 0 else 1
    ensures ChunksL(done + m + rest[1..]) <= ChunksL(done + rest) + added && forall o | o in added :: fresh(o)
    ensures b.size == old(b.size) && b.parent == old(b.parent)
    decreases rest[0], 4
  {
    hide Kids, Linked, Distinct, FlatL, ChunksL, Flat, Chunks, Items, Splice, LineSet;
    ghost var t, r, F := rest[0], rest[1..], FlatL(kids);
    RemovingHead(b, kids, leaf, at0, n0, at, n, done, rest);
    FlatLAllocated(kids);
    m, added := RemoveStep(b, i, at, rm, done, t, r, leaf);
    assert FlatL(done) + FlatL(rest) == FlatL(done) + Flat(t) + FlatL(r);
    CutPart(F, at0, n0 - n, FlatL(done), Flat(t), FlatL(r), at, rm, FlatL(m));
    forall k | at0 <= k < at0 + n0 - n + rm ensures F[k].line.parent == null {
      if k < at0 + n0 - n { NoLine(t, F[k].line); }
    }
    FlatAppend(done, m);
    SpliceSize(Items(Flat(t)), at, rm);
    assert done + m + r == (done + m) + r;
  }

  lemma SpliceSize<T>(s: seq<T>, at: nat, n: nat)
    requires at + n <= |s|
    ensures |Splice(s, at, n, [])| == |s| - n
  {
  }

  // Of the lines F with a gap at at0, those at at..at + rm of the part m go too.
  lemma CutPart(F: seq<Row>, at0: nat, gone: nat, a: seq<Row>, m: seq<Row>, z: seq<Row>, at: nat, rm: nat, m': seq<Row>)
    requires at0 + gone + rm <= |F| && Distinct(Items(F)) && at0 == |a| + at && at + rm <= |m|
    requires Items(a + m + z) == Splice(Items(F), at0, gone, []) && Items(m') == Splice(Items(m), at, rm, [])
    ensures Items(a + m' + z) == Splice(Items(F), at0, gone + rm, [])
    ensures forall k | at0 <= k < at0 + gone :: F[k].line !in LineSet(m)
    ensures forall k | at0 + gone <= k < at0 + gone + rm :: F[k].line == m[k - gone - |a|].line
  {
    hide Distinct, Items, LineSet, Splice;
    CutMiddle(a, m, z, at, rm, m');
    CutMore(F, at0, gone, rm, a + m + z, a + m' + z);
    SubLines(a, m, z);
    forall k | at0 + gone <= k < at0 + gone + rm ensures F[k].line == m[k - gone - |a|].line {
      assert (a + m + z)[|a| + (k - gone - |a|)] == m[k - gone - |a|];
    }
  }

  lemma SubLines(a: seq<Row>, m: seq<Row>, z: seq<Row>)
    ensures LineSet(m) <= LineSet(a + m + z)
  {
    assert forall i | 0 <= i < |m| :: m[i] == (a + m + z)[|a| + i];
  }


  // The last step of Remove: few lines are kept in a single leaf.
  method CollapseSmall(b: BranchChunk, n: nat, ghost kids: seq<Tree>, ghost leaf: bool, ghost at0: nat,
      ghost n0: nat, ghost ks0: seq<Tree>)
    returns (ghost ks: seq<Tree>, ghost added: multiset<object>)
    requires Removed(b, kids, leaf, at0, n0, ks0) && b.size == |FlatL(kids)| - n0 && n == 0
    requires Distinct(Items(FlatL(kids)))
    modifies b`children, LineSet(FlatL(kids))`parent
    ensures Good(BranchT(b, ks)) && (|ks| <= |kids| || |ks| == 1)
    ensures Items(FlatL(ks)) == Splice(Items(FlatL(kids)), at0, n0, [])
    ensures forall i | at0 <= i < at0 + n0 :: FlatL(kids)[i].line.parent == null
    ensures Chunks(BranchT(b, ks)) <= multiset{b} + ChunksL(ks0) + added && forall o | o in added :: fresh(o)
    ensures AllBounded(kids) ==> AllBounded(ks)
    ensures if |FlatL(kids)| - n0 < 25 then |ks| == 1 && ks[0].LeafT? else ks == ks0 && added == multiset{}
  {
    hide FlatL, ChunksL, OkL, Flat, Sum, Items, Linked, Distinct, Chunks, LineSet, Kids, Ok, Removed, Good, Splice;
    RemovedFacts(b, kids, leaf, at0, n0, ks0);
    CutApart(FlatL(kids), at0, n0, FlatL(ks0));
    if b.size - n < 25 {
      FlatLAllocated(kids);
      ks, added := CollapseTo(b, ks0, leaf);
      GoodParts(b, ks);
    } else {
      ks, added := ks0, multiset{};
      KidsGood(b, ks, leaf);
    }
  }

  lemma CutApart(F: seq<Row>, at: nat, n: nat, cur: seq<Row>)
    requires at + n <= |F| && Distinct(Items(F))
    requires Items(cur) == Splice(Items(F), at, n, [])
    ensures forall k | at <= k < at + n :: F[k].line !in LineSet(cur)
    ensures LineSet(cur) <= LineSet(F)
  {
    hide Distinct;
    assert |cur| == |F| - n;
    forall i | 0 <= i < |cur| ensures cur[i].line == F[if i < at then i else i + n].line {
      assert Items(cur)[i] == Splice(Items(F), at, n, [])[i] == Items(F)[if i < at then i else i + n];
    }
    forall k | at <= k < at + n ensures F[k].line !in LineSet(cur) {
      forall i | 0 <= i < |cur| ensures cur[i].line != F[k].line {
        Apart(Items(F), k, if i < at then i else i + n);
      }
    }
  }

  lemma GoodParts(b: BranchChunk, kids: seq<Tree>)
    requires Good(BranchT(b, kids))
    ensures Distinct(Items(FlatL(kids))) && |kids| >= 1
    ensures Chunks(BranchT(b, kids)) == multiset{b} + ChunksL(kids)
    ensures b in Chunks(BranchT(b, kids)) && b !in ChunksL(kids)
    ensures forall o | o in ChunksL(kids) :: o in Chunks(BranchT(b, kids))
    ensures b.children == Refs(kids) && OkL(kids, b) && SameKind(kids, kids[0].LeafT?)
    ensures b.height == Sum(FlatL(kids)) && Linked(FlatL(kids)) && b.size == |FlatL(kids)|
    ensures Uniq(Chunks(BranchT(b, kids)))
  {
    hide OkL, ChunksL, FlatL, Sum, Linked, Distinct;
    NotIn(Chunks(BranchT(b, kids)), b, ChunksL(kids));
  }

  lemma RemovingLength(b: BranchChunk, kids: seq<Tree>, leaf: bool, at0: nat, n0: nat,
                       at: nat, n: nat, done: seq<Tree>, rest: seq<Tree>)
    requires Removing(b, kids, leaf, at0, n0, at, n, done, rest)
    ensures |b.children| == |done| + |rest|
  {
  }

  lemma RemovedFacts(b: BranchChunk, kids: seq<Tree>, leaf: bool, at0: nat, n0: nat, ks: seq<Tree>)
    requires Removed(b, kids, leaf, at0, n0, ks)
    ensures at0 + n0 <= |FlatL(kids)| && Kids(b, ks, leaf) && |ks| <= |kids| && |FlatL(ks)| == |FlatL(kids)| - n0
    ensures Items(FlatL(ks)) == Splice(Items(FlatL(kids)), at0, n0, [])
    ensures forall k | at0 <= k < at0 + n0 :: FlatL(kids)[k].line.parent == null
    ensures AllBounded(kids) ==> AllBounded(ks)
  {
    hide Kids, FlatL;
  }

  lemma CutNothing<T>(s: seq<T>, at: nat)
    requires at <= |s|
    ensures Splice(s, at, 0, []) == s
  {
  }

  // Accounts for the lines that are about to go.
  method ReduceSize(b: BranchChunk, n: nat, ghost kids: seq<Tree>) returns (ghost leaf: bool)
    requires Good(BranchT(b, kids)) && n <= |FlatL(kids)|
    modifies b`size
    ensures Kids(b, kids, leaf) && b.size == |FlatL(kids)| - n
    ensures b.children == Refs(kids)
  {
    hide OkL, ChunksL, FlatL, Sum, Linked, Distinct, Good, Chunks;
    GoodParts(b, kids);
    leaf := kids[0].LeafT?;
    b.size := b.size - n;
  }

  lemma KidsParts(b: BranchChunk, l: seq<Tree>, t: Tree, r: seq<Tree>, leaf: bool)
    requires Kids(b, l + [t] + r, leaf)
    ensures Good(t) && ParentOf(Ref(t)) == b && OkL(l, b) && OkL(r, b)
    ensures t.LeafT? == leaf && SameKind(l, leaf) && SameKind(r, leaf)
    ensures b.children == Refs(l) + [Ref(t)] + Refs(r)
    ensures LineSet(Flat(t)) !! LineSet(FlatL(l)) && LineSet(Flat(t)) !! LineSet(FlatL(r))
    ensures Linked(FlatL(l)) && Linked(FlatL(r))
    ensures Ref(t).Size() == |Flat(t)| && Ref(t).Height() == Sum(Flat(t))
  {
    hide OkL, ChunksL, FlatL, Ok, Flat, Sum, Chunks, Distinct, Linked, Items, LineSet;
    KidsBags(b, l, t, r, leaf);
    OkSplit(l, t, r, b);
    RefsSplit(l, t, r);
    KindSplit(l, t, r, leaf);
    CachedSums(t);
    RowsPart(FlatL(l), Flat(t), FlatL(r));
  }

  lemma KidsBags(b: BranchChunk, l: seq<Tree>, t: Tree, r: seq<Tree>, leaf: bool)
    requires Kids(b, l + [t] + r, leaf)
    ensures FlatL(l + [t] + r) == FlatL(l) + Flat(t) + FlatL(r)
    ensures ChunksL(l + [t] + r) == ChunksL(l) + Chunks(t) + ChunksL(r)
    ensures b.height == Sum(FlatL(l)) + Sum(Flat(t)) + Sum(FlatL(r))
    ensures b !in Chunks(t) && b !in ChunksL(l) && b !in ChunksL(r)
    ensures Chunks(t) !! ChunksL(l) && Chunks(t) !! ChunksL(r) && Uniq(Chunks(t))
    ensures Distinct(Items(FlatL(l) + Flat(t) + FlatL(r)))
    ensures Uniq(multiset{b} + (ChunksL(l) + Chunks(t) + ChunksL(r)))
  {
    hide OkL, ChunksL, FlatL, Ok, Flat, Sum, Chunks, Distinct, Linked, Items, LineSet;
    var ks := l + [t] + r;
    FlatSplit(l, t, r);
    var u := multiset{b} + ChunksL(ks);
    NotIn(u, b, ChunksL(ks));
    Parts3(u, multiset{b} + ChunksL(l), Chunks(t), ChunksL(r));
  }

  lemma RowsPart(a: seq<Row>, m: seq<Row>, z: seq<Row>)
    requires Linked(a + m + z) && Distinct(Items(a + m + z))
    ensures Linked(a) && Linked(m) && Linked(z) && Distinct(Items(m))
    ensures LineSet(m) !! LineSet(a) && LineSet(m) !! LineSet(z)
  {
    assert [] + a + (m + z) == a + m + z == (a + m) + z + [];
    LinkedPart([], a, m + z);
    LinkedPart(a, m, z);
    LinkedPart(a + m, z, []);
    DistinctParts(a, m, z);
  }

  lemma DistinctParts(a: seq<Row>, m: seq<Row>, z: seq<Row>)
    requires Distinct(Items(a + m + z))
    ensures Distinct(Items(m)) && LineSet(m) !! LineSet(a) && LineSet(m) !! LineSet(z)
  {
    var s := a + m + z;
    forall i, j | 0 <= i < |m| && 0 <= j < |m| && i != j ensures m[i].line != m[j].line {
      assert m[i] == s[|a| + i] && m[j] == s[|a| + j];
      Apart(Items(s), |a| + i, |a| + j);
    }
    hide Distinct;
    forall i, k | 0 <= i < |m| && 0 <= k < |a| ensures m[i].line != a[k].line {
      assert m[i] == s[|a| + i] && a[k] == s[k];
      Apart(Items(s), |a| + i, k);
    }
    forall i, k | 0 <= i < |m| && 0 <= k < |z| ensures m[i].line != z[k].line {
      assert m[i] == s[|a| + i] && z[k] == s[|a| + |m| + k];
      Apart(Items(s), |a| + i, |a| + |m| + k);
    }
    DistinctRows(m);
  }

  lemma DistinctRows(rows: seq<Row>)
    ensures Distinct(Items(rows)) <==> forall i, j | 0 <= i < j < |rows| :: rows[i].line != rows[j].line
  {
    if Distinct(Items(rows)) {
      forall i, j | 0 <= i < j < |rows| ensures rows[i].line != rows[j].line { Apart(Items(rows), i, j); }
    }
  }

  lemma CutMiddle(a: seq<Row>, m: seq<Row>, z: seq<Row>, at: nat, n: nat, m': seq<Row>)
    requires at + n <= |m| && Items(m') == Splice(Items(m), at, n, [])
    ensures Items(a + m' + z) == Splice(Items(a + m + z), |a| + at, n, [])
    ensures Distinct(Items(a + m + z)) ==> Distinct(Items(a + m' + z))
    ensures forall i | at <= i < at + n :: (a + m + z)[|a| + i] == m[i]
  {
    Cut(a + m + z, |a| + at, n);
    hide Distinct, Items;
    ItemsAppend(a + m', z);
    ItemsAppend(a, m');
    ItemsAppend(a + m, z);
    ItemsAppend(a, m);
    CutWithin(Items(a), Items(m), Items(z), at, n);
  }

  lemma CutWithin<T>(a: seq<T>, m: seq<T>, z: seq<T>, at: nat, n: nat)
    requires at + n <= |m|
    ensures a + Splice(m, at, n, []) + z == Splice(a + m + z, |a| + at, n, [])
  {
  }

  // Three stretches of children, each agreeing with the heap, that b holds one after the other.
  ghost predicate Joinable(b: BranchChunk, l: seq<Tree>, m: seq<Tree>, r: seq<Tree>, leaf: bool)
    reads b, ChunksL(l), ChunksL(m), ChunksL(r)
    reads LineSet(FlatL(l))`parent, LineSet(FlatL(l))`height
    reads LineSet(FlatL(m))`parent, LineSet(FlatL(m))`height
    reads LineSet(FlatL(r))`parent, LineSet(FlatL(r))`height
  {
    && OkL(l, b) && OkL(m, b) && OkL(r, b)
    && SameKind(l, leaf) && SameKind(m, leaf) && SameKind(r, leaf)
    && b.children == Refs(l) + Refs(m) + Refs(r)
    && b.height == Sum(FlatL(l)) + Sum(FlatL(m)) + Sum(FlatL(r))
    && Linked(FlatL(l)) && Linked(FlatL(m)) && Linked(FlatL(r))
  }

  lemma KidsJoin(b: BranchChunk, l: seq<Tree>, m: seq<Tree>, r: seq<Tree>, leaf: bool)
    requires Joinable(b, l, m, r, leaf)
    requires Distinct(Items(FlatL(l) + FlatL(m) + FlatL(r)))
    requires Uniq(multiset{b} + (ChunksL(l) + ChunksL(m) + ChunksL(r)))
    ensures Kids(b, l + m + r, leaf)
    ensures FlatL(l + m + r) == FlatL(l) + FlatL(m) + FlatL(r)
    ensures ChunksL(l + m + r) == ChunksL(l) + ChunksL(m) + ChunksL(r)
  {
    hide OkL, ChunksL, FlatL, Ok, Flat, Sum, Chunks, Distinct, Items, Linked, LineSet;
    Append3(l, m, r, b);
    KindAppend3(l, m, r, leaf);
    LinkedJoin(FlatL(l), FlatL(m), FlatL(r));
  }

  lemma KindAppend3(l: seq<Tree>, m: seq<Tree>, r: seq<Tree>, leaf: bool)
    requires SameKind(l, leaf) && SameKind(m, leaf) && SameKind(r, leaf)
    ensures SameKind(l + m + r, leaf) && Refs(l + m + r) == Refs(l) + Refs(m) + Refs(r)
  {
  }

  lemma Append3(l: seq<Tree>, m: seq<Tree>, r: seq<Tree>, p: BranchChunk?)
    ensures FlatL(l + m + r) == FlatL(l) + FlatL(m) + FlatL(r)
    ensures ChunksL(l + m + r) == ChunksL(l) + ChunksL(m) + ChunksL(r)
    ensures OkL(l + m + r, p) <==> OkL(l, p) && OkL(m, p) && OkL(r, p)
    ensures Sum(FlatL(l + m + r)) == Sum(FlatL(l)) + Sum(FlatL(m)) + Sum(FlatL(r))
  {
    hide OkL, ChunksL, FlatL, Sum;
    FlatAppend(l + m, r);
    FlatAppend(l, m);
    ChunksAppend(l + m, r);
    ChunksAppend(l, m);
    OkAppend(l + m, r, p);
    OkAppend(l, m, p);
    SumAppend(FlatL(l) + FlatL(m), FlatL(r));
    SumAppend(FlatL(l), FlatL(m));
  }

  lemma LinkedJoin(a: seq<Row>, m: seq<Row>, z: seq<Row>)
    requires Linked(a) && Linked(m) && Linked(z)
    ensures Linked(a + m + z)
  {
  }

  // What a call on the subtree t leaves alone.
  lemma Aside(l: seq<Tree>, t: Tree, r: seq<Tree>)
    ensures forall x: Line :: x !in Chunks(t) && x !in ChunksL(l) && x !in ChunksL(r)
    ensures forall x | x in LineSet(Flat(t)) :: x !in ChunksL(l) && x !in ChunksL(r)
    ensures forall x | x in LineSet(FlatL(l)) :: x !in Chunks(t) && allocated(x)
    ensures forall x | x in LineSet(FlatL(r)) :: x !in Chunks(t) && allocated(x)
    ensures forall o | o in ChunksL(l) :: allocated(o)
    ensures forall o | o in ChunksL(r) :: allocated(o)
  {
    forall x: Line ensures x !in Chunks(t) && x !in ChunksL(l) && x !in ChunksL(r) {
      NoLine(t, x);
      NoLineL(l, x);
      NoLineL(r, x);
    }
    hide FlatL, ChunksL;
    ChunksAllocated(l);
    ChunksAllocated(r);
    FlatLAllocated(l);
    FlatLAllocated(r);
  }

  lemma UniqSwap(b: object, l: multiset<object>, t: multiset<object>, r: multiset<object>,
                 m: multiset<object>, added: multiset<object>)
    requires Uniq(multiset{b} + (l + t + r)) && Uniq(m) && m <= t + added
    requires b !in added && added !! l && added !! r
    ensures Uniq(multiset{b} + (l + m + r))
    ensures l + m + r <= (l + t + r) + added
  {
    var u, u' := multiset{b} + (l + t + r), multiset{b} + (l + m + r);
    forall o | o in u' ensures u'[o] == 1 {
      assert m[o] <= (t + added)[o];
      if o in u { assert u[o] == 1; }
      if o in m { assert m[o] == 1; }
    }
  }

  // Takes rm lines out of child i, and puts the height right.
  method RemoveFromChild(b: BranchChunk, i: nat, at: nat, rm: nat, ghost l: seq<Tree>, ghost t: Tree,
      ghost r: seq<Tree>, ghost leaf: bool)
    returns (ghost t': Tree, ghost added: multiset<object>)
    requires Kids(b, l + [t] + r, leaf) && i == |l| && at + rm <= |Flat(t)|
    modifies b`height, Chunks(t), LineSet(Flat(t))`parent
    ensures Good(t') && Ref(t') == Ref(t) && ParentOf(Ref(t)) == b
    ensures OkL(l, b) && OkL(r, b) && Linked(FlatL(l)) && Linked(FlatL(r))
    ensures b.height == Sum(FlatL(l)) + Sum(Flat(t')) + Sum(FlatL(r))
    ensures Items(Flat(t')) == Splice(Items(Flat(t)), at, rm, [])
    ensures forall k | at <= k < at + rm :: Flat(t)[k].line.parent == null
    ensures Chunks(t') <= Chunks(t) + added && forall o | o in added :: fresh(o)
    ensures b !in added && added !! ChunksL(l) && added !! ChunksL(r)
    ensures b.children == old(b.children) && (Bounded(t) ==> Bounded(t'))
    decreases t, 2
  {
    hide OkL, ChunksL, FlatL, Ok, Flat, Sum, Chunks, Items, Kids, Linked, Distinct, LineSet, Good, Bounded;
    KidsParts(b, l, t, r, leaf);
    KidsBags(b, l, t, r, leaf);
    Aside(l, t, r);
    var child := b.children[i];
    var oldHeight := child.Height();
    t', added := child.Remove(at, rm, t);
    GoodOk(t');
    b.height := b.height - (oldHeight - child.Height());
  }

  lemma GoodOk(t: Tree)
    requires Good(t)
    ensures Ok(t) && Ref(t).Height() == Sum(Flat(t))
  {
  }

  // One round of the loop in Remove: takes rm lines out of child i, and drops it when it is empty.
  method RemoveStep(b: BranchChunk, i: nat, at: nat, rm: nat, ghost l: seq<Tree>, ghost t: Tree, ghost r: seq<Tree>,
      ghost leaf: bool)
    returns (ghost m: seq<Tree>, ghost added: multiset<object>)
    requires Kids(b, l + [t] + r, leaf) && i == |l| && at + rm <= |Flat(t)|
    modifies b`children, b`height, Chunks(t), LineSet(Flat(t))`parent
    ensures |m| == if rm == |Flat(t)| then 0 else 1
    ensures Items(FlatL(m)) == Splice(Items(Flat(t)), at, rm, [])
    ensures forall k | at <= k < at + rm :: Flat(t)[k].line.parent == null
    ensures Kids(b, l + m + r, leaf)
    ensures FlatL(l + m + r) == FlatL(l) + FlatL(m) + FlatL(r) && FlatL(l + [t] + r) == FlatL(l) + Flat(t) + FlatL(r)
    ensures ChunksL(l + m + r) <= ChunksL(l + [t] + r) + added && forall o | o in added :: fresh(o)
    ensures AllBounded(l + [t] + r) ==> AllBounded(l + m + r)
    decreases t, 3
  {
    hide OkL, ChunksL, FlatL, Ok, Flat, Sum, Chunks, Items, Kids, Linked, Distinct, LineSet;
    KidsParts(b, l, t, r, leaf);
    KidsBags(b, l, t, r, leaf);
    RootIn(t);
    var child := b.children[i];
    var sz := child.Size();
    ghost var t';
    t', added := RemoveFromChild(b, i, at, rm, l, t, r, leaf);
    m := if sz == rm then [] else [t'];
    if sz == rm { DropChild(b, i, child, l, t, r); }
    OneKid(t', b);
    StepJoin(b, l, t, r, m, at, rm, leaf, added);
  }

  // An emptied child leaves its branch, and no longer has a parent.
  method DropChild(b: BranchChunk, i: nat, child: Chunk, ghost l: seq<Tree>, ghost t: Tree, ghost r: seq<Tree>)
    requires b.children == Refs(l) + [child] + Refs(r) && i == |l| && child == Ref(t)
    requires b !in Chunks(t) && Chunks(t) !! ChunksL(l) && Chunks(t) !! ChunksL(r)
    requires b !in ChunksL(l) && b !in ChunksL(r)
    requires OkL(l, b) && OkL(r, b) && Linked(FlatL(l)) && Linked(FlatL(r))
    requires forall k | 0 <= k < |Flat(t)| :: Flat(t)[k].line.parent == null
    modifies b`children, Obj(child)
    ensures b.children == Refs(l) + Refs(r) && OkL(l, b) && OkL(r, b) && Linked(FlatL(l)) && Linked(FlatL(r))
    ensures b.height == old(b.height)
    ensures forall k | 0 <= k < |Flat(t)| :: Flat(t)[k].line.parent == null
  {
    hide OkL, ChunksL, Chunks, FlatL, Flat, Linked, LineSet;
    RootIn(t);
    Aside(l, t, r);
    forall k | 0 <= k < |Flat(t)| ensures Flat(t)[k].line !in Chunks(t) { NoLine(t, Flat(t)[k].line); }
    b.children := b.children[..i] + b.children[i + 1..];
    match child {
      case Leaf(gone) => gone.parent := null;
      case Branch(gone) => gone.parent := null;
    }
  }

  lemma StepJoin(b: BranchChunk, l: seq<Tree>, t: Tree, r: seq<Tree>, m: seq<Tree>, at: nat, rm: nat, leaf: bool,
      added: multiset<object>)
    requires Joinable(b, l, m, r, leaf)
    requires at + rm <= |Flat(t)| && Items(FlatL(m)) == Splice(Items(Flat(t)), at, rm, [])
    requires Distinct(Items(FlatL(l) + Flat(t) + FlatL(r)))
    requires Uniq(multiset{b} + (ChunksL(l) + Chunks(t) + ChunksL(r)))
    requires Uniq(ChunksL(m)) && ChunksL(m) <= Chunks(t) + added
    requires b !in added && added !! ChunksL(l) && added !! ChunksL(r)
    ensures Kids(b, l + m + r, leaf)
    ensures FlatL(l + m + r) == FlatL(l) + FlatL(m) + FlatL(r)
    ensures ChunksL(l + m + r) <= (ChunksL(l) + Chunks(t) + ChunksL(r)) + added
  {
    hide OkL, ChunksL, FlatL, Ok, Flat, Sum, Chunks, Items, Kids, Linked, Distinct, LineSet, Joinable, Uniq, Splice;
    CutMiddle(FlatL(l), Flat(t), FlatL(r), at, rm, FlatL(m));
    UniqSwap(b, ChunksL(l), Chunks(t), ChunksL(r), ChunksL(m), added);
    KidsJoin(b, l, m, r, leaf);
  }

  lemma OneKid(t: Tree, p: BranchChunk?)
    ensures FlatL([t]) == Flat(t) && ChunksL([t]) == Chunks(t) && (OkL([t], p) <==> Ok(t) && ParentOf(Ref(t)) == p)
    ensures FlatL([]) == [] && ChunksL([]) == multiset{} && OkL([], p) && Sum([]) == 0
    ensures Refs([t]) == [Ref(t)] && Refs([]) == [] && Linked([])
    ensures Ok(t) ==> Ref(t).Size() == |Flat(t)| && Ref(t).Height() == Sum(Flat(t))
  {
  }

  // Replaces the children by one leaf with all their lines.
  method CollapseTo(b: BranchChunk, ghost ks: seq<Tree>, ghost leaf: bool)
    returns (ghost ks': seq<Tree>, ghost added: multiset<object>)
    requires Kids(b, ks, leaf) && b.size == |FlatL(ks)| < 25
    modifies b`children, LineSet(FlatL(ks))`parent
    ensures Good(BranchT(b, ks')) && |ks'| == 1 && ks'[0].LeafT? && AllBounded(ks')
    ensures Items(FlatL(ks')) == Items(FlatL(ks))
    ensures ChunksL(ks') == added && forall o | o in added :: fresh(o)
  {
    hide FlatL, ChunksL, OkL, Flat, Sum, Items, Linked, Distinct, Chunks, LineSet, Owned, Kids, Ok;
    ghost var rows := FlatL(ks);
    KidsRows(b, ks, leaf);
    var lines := b.Collapse([], ks);
    assert [] + LinesOf(rows) == LinesOf(rows);
    var chunk := NewLeaf(lines, rows);
    OkLeaf(chunk, Owned(chunk, Items(rows)));
    b.children := [Leaf(chunk)];
    chunk.parent := b;
    ghost var t := LeafT(chunk, Owned(chunk, Items(rows)));
    ks', added := [t], multiset{chunk};
    OkLeaf(chunk, t.rows);
    OneKid(t, b);
    FlatLeaf(t);
    OneLeaf(chunk, t.rows);
    OkBranch(b, ks');
    FlatBranch(b, ks');
    ChunksSplit(b, [], ks');
    EmptyKids(b);
    assert [] + ks' == ks';
  }

  // A new leaf for the lines of rows.
  method NewLeaf(lines: seq<Line>, ghost rows: seq<Row>) returns (chunk: LeafChunk)
    requires lines == LinesOf(rows) && Distinct(Items(rows))
    requires forall i | 0 <= i < |rows| :: rows[i].line.height == rows[i].height
    requires forall i | 0 <= i < |rows| :: rows[i].line in LinesOf(rows)
    requires forall l | l in LinesOf(rows) :: l in LineSet(rows)
    modifies LineSet(rows)`parent
    ensures fresh(chunk) && chunk.parent == null
    ensures var rows' := Owned(chunk, Items(rows));
      && Ok(LeafT(chunk, rows')) && Linked(rows') && Items(rows') == Items(rows)
      && Sum(rows') == Sum(rows) && |rows'| == |rows|
  {
    hide Sum, Items, Linked, Distinct, LineSet, Owned, Ok;
    chunk := new LeafChunk(lines);
    OwnedRows(chunk, rows);
    OkLeaf(chunk, Owned(chunk, Items(rows)));
    LinkedOwned(chunk, rows);
  }

  lemma LinkedOwned(leaf: LeafChunk, rows: seq<Row>)
    requires forall i | 0 <= i < |rows| :: rows[i].line.height == rows[i].height && rows[i].line.parent == leaf
    ensures Linked(Owned(leaf, Items(rows))) && Items(Owned(leaf, Items(rows))) == Items(rows)
  {
    var o := Owned(leaf, Items(rows));
    forall i | 0 <= i < |o| ensures o[i].line.parent == o[i].owner && o[i].line.height == o[i].height {
      assert Items(o)[i] == Items(rows)[i];
    }
  }

  lemma KidsRows(b: BranchChunk, ks: seq<Tree>, leaf: bool)
    requires Kids(b, ks, leaf)
    ensures OkL(ks, b) && b.children == Refs(ks) && b.height == Sum(FlatL(ks)) && Distinct(Items(FlatL(ks)))
    ensures forall i | 0 <= i < |FlatL(ks)| :: FlatL(ks)[i].line.height == FlatL(ks)[i].height
    ensures forall i | 0 <= i < |FlatL(ks)| :: FlatL(ks)[i].line in LinesOf(FlatL(ks)) && allocated(FlatL(ks)[i].line)
    ensures forall l | l in LinesOf(FlatL(ks)) :: l in LineSet(FlatL(ks))
  {
    FlatLAllocated(ks);
    hide FlatL, ChunksL, OkL, Sum, Distinct;
    assert forall i | 0 <= i < |FlatL(ks)| :: LinesOf(FlatL(ks))[i] == FlatL(ks)[i].line;
  }

  lemma KidsGood(b: BranchChunk, ks: seq<Tree>, leaf: bool)
    requires Kids(b, ks, leaf) && b.size == |FlatL(ks)| > 0
    ensures Good(BranchT(b, ks))
    ensures Flat(BranchT(b, ks)) == FlatL(ks)
    ensures Chunks(BranchT(b, ks)) == multiset{b} + ChunksL(ks)
  {
    hide ChunksL, Linked, Sum;
    if ks == [] { EmptyKids(b); }
  }

  // ---------------------------------------------------------------- queries

  // The child that holds line n, and what is left of n there.
  method FindLine(children: seq<Chunk>, n: nat, ghost kids: seq<Tree>, ghost p: BranchChunk?)
    returns (i: nat, n': nat)
    requires children == Refs(kids) && OkL(kids, p) && n < |FlatL(kids)|
    ensures i < |kids| && n' < |Flat(kids[i])| && n == |FlatL(kids[..i])| + n'
  {
    hide FlatL, OkL, Ok, Flat, Sum;
    ChunksAllocated(kids);
    i, n' := 0, n;
    assert kids[0..] == kids;
    EmptyKids(p);
    KidAt(kids, 0, p);
    while n' >= children[i].Size()
      invariant OkL(kids, p)
      invariant i < |kids| && n == |FlatL(kids[..i])| + n' && n' < |FlatL(kids[i..])|
      invariant children[i].Size() == |Flat(kids[i])|
      decreases |kids| - i
    {
      n' := n' - children[i].Size();
      KidAt(kids, i, p);
      i := i + 1;
      if i < |kids| { KidAt(kids, i, p); }
    }
    KidAt(kids, i, p);
  }

  method GetLineAt(chunk0: Chunk, n0: nat, ghost t0: Tree) returns (line: Line)
    requires Ok(t0) && Ref(t0) == chunk0 && n0 < |Flat(t0)|
    ensures line == Flat(t0)[n0].line
  {
    hide FlatL, OkL, Sum;
    var chunk, n: nat := chunk0, n0;
    ghost var t := t0;
    while chunk.Branch?
      invariant Ok(t) && Ref(t) == chunk && n < |Flat(t)| && Flat(t)[n] == Flat(t0)[n0]
      decreases t
    {
      ChunksAllocated(t.kids);
      var i, n' := FindLine(chunk.branch.children, n, t.kids, chunk.branch);
      KidAt(t.kids, i, chunk.branch);
      chunk, n, t := chunk.branch.children[i], n', t.kids[i];
    }
    line := chunk.leaf.lines[n];
  }

  ghost function HeightAt(items: seq<Item>, n: nat): nat
    requires n <= |items|
  {
    Total(items[..n])
  }

  // The index of the line that covers height h.
  ghost function LineAt(items: seq<Item>, h: int): (n: nat)
    ensures n <= |items|
  {
    if items == [] || h < items[0].height then 0 else 1 + LineAt(items[1..], h - items[0].height)
  }

  lemma {:induction false} Galois(items: seq<Item>, h: nat, n: nat)
    requires h < Total(items) && n < |items|
    ensures LineAt(items, h) == n <==> HeightAt(items, n) <= h < HeightAt(items, n + 1)
  {
    assert items[..n + 1][1..] == items[1..][..n];
    if n > 0 { assert items[..n][1..] == items[1..][..n - 1]; }
    if h < items[0].height {
      if n > 0 { assert HeightAt(items, n) >= items[0].height; }
    } else {
      if n > 0 {
        Galois(items[1..], h - items[0].height, n - 1);
      }
    }
  }

  lemma {:induction false} LineAtEnd(items: seq<Item>, h: int)
    ensures h >= Total(items) ==> LineAt(items, h) == |items|
    ensures 0 <= h < Total(items) ==> LineAt(items, h) < |items|
  {
    if items != [] { LineAtEnd(items[1..], h - items[0].height); }
  }

  lemma {:induction false} LineAtAppend(a: seq<Item>, b: seq<Item>, h: int)
    requires h >= Total(a) || a == []
    ensures LineAt(a + b, h) == |a| + LineAt(b, h - Total(a))
  {
    if a == [] {
      assert a + b == b;
    } else {
      assert (a + b)[1..] == a[1..] + b;
      LineAtAppend(a[1..], b, h - a[0].height);
    }
  }

  lemma {:induction false} LineAtFirst(a: seq<Item>, b: seq<Item>, h: int)
    requires h < Total(a)
    ensures LineAt(a + b, h) == LineAt(a, h)
  {
    if a != [] {
      assert (a + b)[1..] == a[1..] + b;
      if h >= a[0].height { LineAtFirst(a[1..], b, h - a[0].height); }
    }
  }

  lemma LinkedPart(a: seq<Row>, m: seq<Row>, z: seq<Row>)
    requires Linked(a + m + z)
    ensures Linked(m)
  {
    assert forall i | 0 <= i < |m| :: m[i] == (a + m + z)[|a| + i];
  }

  lemma ItemsAppend(a: seq<Row>, b: seq<Row>)
    ensures Items(a + b) == Items(a) + Items(b)
  {
  }

  // What KidAt says, in items.
  lemma KidItems(kids: seq<Tree>, i: nat, p: BranchChunk?)
    requires i < |kids| && OkL(kids, p) && Linked(FlatL(kids))
    ensures Ok(kids[i]) && Linked(Flat(kids[i]))
    ensures Ref(kids[i]).Size() == |Flat(kids[i])| && Ref(kids[i]).Height() == Total(Items(Flat(kids[i])))
    ensures Items(FlatL(kids[i..])) == Items(Flat(kids[i])) + Items(FlatL(kids[i + 1..]))
    ensures Items(FlatL(kids)) == Items(FlatL(kids[..i])) + Items(Flat(kids[i])) + Items(FlatL(kids[i + 1..]))
    ensures Items(FlatL(kids[..i + 1])) == Items(FlatL(kids[..i])) + Items(Flat(kids[i]))
  {
    hide FlatL, OkL, Ok, Flat, Sum, Total, Linked, Items;
    KidAt(kids, i, p);
    SumTotal(Flat(kids[i]));
    ItemsAppend(Flat(kids[i]), FlatL(kids[i + 1..]));
    ItemsAppend(FlatL(kids[..i]), Flat(kids[i]));
    ItemsAppend(FlatL(kids[..i]) + Flat(kids[i]), FlatL(kids[i + 1..]));
    assert FlatL(kids) == FlatL(kids[..i]) + Flat(kids[i]) + FlatL(kids[i + 1..]);
    LinkedPart(FlatL(kids[..i]), Flat(kids[i]), FlatL(kids[i + 1..]));
  }

  // Skips the children that lie above height h.
  method SkipToHeight(children: seq<Chunk>, h: int, ghost kids: seq<Tree>, ghost p: BranchChunk?)
    returns (i: nat, h': int, n: nat)
    requires children == Refs(kids) && OkL(kids, p) && Linked(FlatL(kids))
    ensures OkL(kids, p) && Linked(FlatL(kids))
    ensures i <= |kids|
    ensures i < |kids| ==> h' < Total(Items(Flat(kids[i])))
    ensures LineAt(Items(FlatL(kids)), h) == n + LineAt(Items(FlatL(kids[i..])), h')
  {
    hide FlatL, OkL, Ok, Flat, Sum, Total, Linked, Items, LineAt;
    ChunksAllocated(kids);
    FlatLAllocated(kids);
    i, h', n := 0, h, 0;
    assert kids[0..] == kids;
    while i < |children|
      invariant OkL(kids, p) && Linked(FlatL(kids))
      invariant i <= |kids| && LineAt(Items(FlatL(kids)), h) == n + LineAt(Items(FlatL(kids[i..])), h')
    {
      KidItems(kids, i, p);
      var ch := children[i].Height();
      if h' < ch { return; }
      LineAtAppend(Items(Flat(kids[i])), Items(FlatL(kids[i + 1..])), h');
      h' := h' - ch;
      n := n + children[i].Size();
      i := i + 1;
    }
  }

  method LineAtHeight(root: BranchChunk, h0: int, ghost t0: Tree) returns (r: nat)
    requires Ok(t0) && Ref(t0) == Branch(root) && Linked(Flat(t0))
    ensures r == LineAt(Items(Flat(t0)), h0)
  {
    hide FlatL, OkL, Sum, Total, Linked, Items, LineAt;
    var chunk, n: nat, h := Branch(root), 0, h0;
    ghost var t := t0;
    ChunkAllocated(t0);
    FlatAllocated(t0);
    while chunk.Branch?
      invariant Ok(t) && Ref(t) == chunk && Linked(Flat(t))
      invariant LineAt(Items(Flat(t0)), h0) == n + LineAt(Items(Flat(t)), h)
      decreases t
    {
      ChunksAllocated(t.kids);
      FlatLAllocated(t.kids);
      ghost var kids, p := t.kids, chunk.branch;
      var i, h', skipped := SkipToHeight(chunk.branch.children, h, kids, p);
      n := n + skipped;
      if i == |chunk.branch.children| {
        assert kids[i..] == [];
        EmptyKids(p);
        NoItems(h');
        return n;
      }
      KidItems(kids, i, p);
      LineAtFirst(Items(Flat(kids[i])), Items(FlatL(kids[i + 1..])), h');
      chunk, h, t := chunk.branch.children[i], h', kids[i];
    }
    var i := LineInLeaf(chunk.leaf.lines, h, t.rows);
    r := n + i;
  }

  lemma NoItems(h: int)
    ensures LineAt(Items([]), h) == 0 && LineAt([], h) == 0
  {
  }

  method LineInLeaf(lines: seq<Line>, h0: int, ghost rows: seq<Row>) returns (i: nat)
    requires lines == LinesOf(rows) && Linked(rows)
    ensures i == LineAt(Items(rows), h0)
  {
    var h := h0;
    i := 0;
    ghost var items := Items(rows);
    assert items[0..] == items;
    while i < |lines|
      invariant i <= |lines| && LineAt(items, h0) == i + LineAt(items[i..], h)
    {
      var lh := lines[i].height;
      assert lh == items[i].height;
      if h < lh { break; }
      assert items[i..][1..] == items[i + 1..];
      h := h - lh;
      i := i + 1;
    }
  }

  method HeightAtLine(root: BranchChunk, n0: nat, ghost t0: Tree) returns (h: nat)
    requires Ok(t0) && Ref(t0) == Branch(root) && Linked(Flat(t0))
    ensures h == HeightAt(Items(Flat(t0)), if n0 < |Flat(t0)| then n0 else |Flat(t0)|)
  {
    hide FlatL, OkL, Sum, Total, Linked, Items;
    var chunk, n: nat := Branch(root), n0;
    h := 0;
    ghost var t, F := t0, Items(Flat(t0));
    ChunkAllocated(t0);
    FlatAllocated(t0);
    while chunk.Branch?
      invariant Ok(t) && Ref(t) == chunk && Linked(Flat(t))
      invariant n0 < |F| ==> n < |Flat(t)| && HeightAt(F, n0) == h + HeightAt(Items(Flat(t)), n)
      invariant n0 >= |F| ==> t == t0 && n == n0 && h == 0
      decreases t
    {
      ChunksAllocated(t.kids);
      FlatLAllocated(t.kids);
      ghost var kids, p := t.kids, chunk.branch;
      var i, n', more := SkipToLine(chunk.branch.children, n, kids, p);
      h := h + more;
      if i == |chunk.branch.children| {
        assert F[..|F|] == F;
        return h;
      }
      KidItems(kids, i, p);
      chunk, n, t := chunk.branch.children[i], n', kids[i];
    }
    var more := HeightInLeaf(chunk.leaf.lines, n, t.rows);
    h := h + more;
  }

  method HeightInLeaf(lines: seq<Line>, n: nat, ghost rows: seq<Row>) returns (h: nat)
    requires lines == LinesOf(rows) && Linked(rows) && n <= |rows|
    ensures h == HeightAt(Items(rows), n)
  {
    hide Total;
    h := 0;
    ghost var items := Items(rows);
    TotalEmpty(items);
    for i := 0 to n
      invariant h == HeightAt(items, i)
    {
      TotalSnoc(items, i);
      assert lines[i].height == items[i].height;
      h := h + lines[i].height;
    }
  }

  // Skips the children before line n, adding up their heights.
  method SkipToLine(children: seq<Chunk>, n: nat, ghost kids: seq<Tree>, ghost p: BranchChunk?)
    returns (i: nat, n': nat, h: nat)
    requires children == Refs(kids) && OkL(kids, p) && Linked(FlatL(kids))
    ensures OkL(kids, p) && Linked(FlatL(kids))
    ensures i <= |kids| && (i < |kids| <==> n < |FlatL(kids)|)
    ensures i < |kids| ==>
        n' < |Flat(kids[i])| && HeightAt(Items(FlatL(kids)), n) == h + HeightAt(Items(Flat(kids[i])), n')
    ensures i == |kids| ==> h == Total(Items(FlatL(kids)))
  {
    hide FlatL, OkL, Ok, Flat, Sum, Total, Linked, Items;
    ChunksAllocated(kids);
    FlatLAllocated(kids);
    i, n', h := 0, n, 0;
    assert kids[..0] == [] && kids[0..] == kids;
    EmptyKids(p);
    TotalEmpty(Items([]));
    while i < |children|
      invariant OkL(kids, p) && Linked(FlatL(kids))
      invariant i <= |kids| && n == |FlatL(kids[..i])| + n' && h == Total(Items(FlatL(kids[..i])))
    {
      KidItems(kids, i, p);
      var sz := children[i].Size();
      if n' < sz {
        HeightInside(Items(FlatL(kids[..i])), Items(Flat(kids[i])), Items(FlatL(kids[i + 1..])), n');
        return;
      }
      n' := n' - sz;
      TotalAppend(Items(FlatL(kids[..i])), Items(Flat(kids[i])));
      h := h + children[i].Height();
      i := i + 1;
    }
    assert kids[..i] == kids;
  }

  lemma HeightInside(a: seq<Item>, m: seq<Item>, z: seq<Item>, n: nat)
    requires n <= |m|
    ensures HeightAt(a + m + z, |a| + n) == Total(a) + HeightAt(m, n)
  {
    TotalAppend(a, m[..n]);
    assert (a + m + z)[..|a| + n] == a + m[..n];
  }

  // ---------------------------------------------------------------- from a line to the root

  // The kid that holds position n.
  lemma {:induction false} KidOf(kids: seq<Tree>, n: nat) returns (i: nat)
    requires n < |FlatL(kids)|
    ensures i < |kids| && |FlatL(kids[..i])| <= n < |FlatL(kids[..i])| + |Flat(kids[i])|
  {
    if n < |Flat(kids[0])| {
      i := 0;
      assert kids[..0] == [];
    } else {
      var j := KidOf(kids[1..], n - |Flat(kids[0])|);
      i := j + 1;
      assert kids[..i] == [kids[0]] + kids[1..][..j];
      FlatAppend([kids[0]], kids[1..][..j]);
      assert FlatL([kids[0]]) == Flat(kids[0]);
    }
  }

  // The leaf that holds row k of the whole, with its context.
  lemma {:induction false} LeafOf(c0: Ctx, t0: Tree, k: nat) returns (c: Ctx, leaf: LeafChunk, rows: seq<Row>)
    requires At(c0, t0) && |Pre(c0)| <= k < |Pre(c0)| + |Flat(t0)|
    ensures At(c, LeafT(leaf, rows)) && |Pre(c)| <= k < |Pre(c)| + |rows|
    ensures Around(c, LeafT(leaf, rows)) == Around(c0, t0) && RootRef(c, Leaf(leaf)) == RootRef(c0, Ref(t0))
    ensures Chunks(LeafT(leaf, rows)) + CtxChunks(c) == Chunks(t0) + CtxChunks(c0)
    ensures CtxBounded(c0) && Bounded(t0) ==> CtxBounded(c) && |rows| <= 50
    decreases t0
  {
    hide OkCtx, Ok, ChunksL, CtxChunks, FlatL, Chunks, Around, At, Pre, Post;
    match t0
    case LeafT(l, rs) =>
      c, leaf, rows := c0, l, rs;
    case BranchT(b, kids) =>
      FlatBranch(b, kids);
      var i := KidOf(kids, k - |Pre(c0)|);
      var l, t, r := kids[..i], kids[i], kids[i + 1..];
      assert kids == l + [t] + r;
      GoDown(c0, b, l, t, r);
      PreIn(In(c0, b, l, r));
      c, leaf, rows := LeafOf(In(c0, b, l, r), t, k);
  }

  method IndexOfLine(lines: seq<Line>, line: Line) returns (i: nat)
    requires line in lines
    ensures i < |lines| && lines[i] == line && line !in lines[..i]
  {
    i := 0;
    while lines[i] != line
      invariant i < |lines| && line !in lines[..i]
      decreases |lines| - i
    {
      assert lines == lines[..i] + [lines[i]] + lines[i + 1..];
      i := i + 1;
      assert lines[..i] == lines[..i - 1] + [lines[i - 1]];
    }
  }

  // Adds up the sizes of the children before cur.
  method SizesBefore(children: seq<Chunk>, cur: Chunk, ghost l: seq<Tree>, ghost t: Tree, ghost r: seq<Tree>,
      ghost p: BranchChunk?)
    returns (no: nat)
    requires children == Refs(l) + [Ref(t)] + Refs(r) && cur == Ref(t)
    requires OkL(l, p) && Obj(cur) !in ChunksL(l)
    ensures no == |FlatL(l)|
  {
    hide OkL, ChunksL, FlatL, Ok, Flat, Sum;
    ChunksAllocated(l);
    no := 0;
    var i := 0;
    assert l[..0] == [];
    EmptyKids(p);
    assert children[|l|] == cur;
    while children[i] != cur
      invariant i <= |l| && no == |FlatL(l[..i])| && OkL(l, p)
      decreases |l| - i
    {
      assert children[i] == Ref(l[i]);
      KidAt(l, i, p);
      no := no + children[i].Size();
      i := i + 1;
    }
    if i < |l| {
      RefInChunks(l, i);
      assert false;
    }
    assert l[..i] == l;
  }

  method LineNo(line: Line, ghost t0: Tree, ghost k: nat) returns (no: nat)
    requires At(Top, t0) && Linked(Flat(t0)) && Distinct(Items(Flat(t0)))
    requires k < |Flat(t0)| && Flat(t0)[k].line == line
    ensures line.parent != null && no == k
  {
    hide OkCtx, Ok, ChunksL, CtxChunks, FlatL, Chunks, Around, Pre, Post, Distinct, Linked, Items, At;
    AroundTop(t0);
    AtTop(t0, 0, 0);
    ghost var c, leaf, rows := LeafOf(Top, t0, k);
    LineInLeafRows(c, leaf, rows, t0, k);
    AtLeaf(c, leaf, rows);
    AtAllocated(c, LeafT(leaf, rows));
    var chunk := line.parent;
    no := IndexOfLine(chunk.lines, line);
    var cur, up := Leaf(chunk), chunk.parent;
    ghost var t := LeafT(leaf, rows);
    while up != null
      invariant At(c, t) && Ref(t) == cur && up == CtxParent(c) && |Pre(c)| + no == k
      decreases c
    {
      AtCtx(c, t);
      AtAllocated(c, t);
      PreIn(c);
      var before := SizesBefore(up.children, cur, c.left, t, c.right, c.branch);
      no := no + before;
      GoUp(c, t);
      AtUp(c, t);
      c, t := c.up, Up(c, t);
      cur, up := Branch(up), up.parent;
    }
    PreTop();
  }

  lemma AtAllocated(c: Ctx, t: Tree)
    ensures forall o | o in Chunks(t) :: allocated(o)
    ensures forall o | o in CtxChunks(c) :: allocated(o)
    ensures Obj(Ref(t)) in Chunks(t)
  {
    ChunkAllocated(t);
    CtxAllocated(c);
    RootIn(t);
  }

  lemma PreTop()
    ensures Pre(Top) == [] && Post(Top) == []
  {
  }

  lemma AtUp(c: Ctx, t: Tree)
    requires At(c, t) && c.In?
    ensures c.branch.parent == CtxParent(c.up)
  {
  }

  lemma AtCtx(c: Ctx, t: Tree)
    requires At(c, t) && c.In?
    ensures c.branch.children == Refs(c.left) + [Ref(t)] + Refs(c.right)
    ensures OkL(c.left, c.branch) && Obj(Ref(t)) !in ChunksL(c.left)
    ensures forall o | o in ChunksL(c.left) :: allocated(o)
  {
    ChunksAllocated(c.left);
    hide OkL, ChunksL, Ok, Chunks, CtxChunks, OkCtx, Sum, FlatL, Flat;
    OkCtxIn(c, Ref(t), |Flat(t)|, Sum(Flat(t)));
    CtxChunksIn(c);
    RootIn(t);
    UniqParts(Chunks(t), CtxChunks(c));
    assert forall o | o in ChunksL(c.left) :: o in CtxChunks(c);
  }

  lemma AroundLeaf(c: Ctx, leaf: LeafChunk, rows: seq<Row>)
    ensures Around(c, LeafT(leaf, rows)) == Pre(c) + rows + Post(c)
  {
  }

  lemma OwnersOf(c: Ctx, leaf: LeafChunk, rows: seq<Row>)
    requires At(c, LeafT(leaf, rows))
    ensures forall i | 0 <= i < |rows| :: rows[i].owner == leaf
  {
  }

  lemma LineInLeafRows(c: Ctx, leaf: LeafChunk, rows: seq<Row>, t0: Tree, k: nat)
    requires At(c, LeafT(leaf, rows)) && Around(c, LeafT(leaf, rows)) == Flat(t0)
    requires Linked(Flat(t0)) && Distinct(Items(Flat(t0)))
    requires k < |Flat(t0)| && |Pre(c)| <= k < |Pre(c)| + |rows|
    ensures Flat(t0)[k] == rows[k - |Pre(c)|] && Flat(t0)[k].line.parent == leaf
    ensures LinesOf(rows)[k - |Pre(c)|] == Flat(t0)[k].line
    ensures forall i | 0 <= i < |rows| && LinesOf(rows)[i] == Flat(t0)[k].line :: i == k - |Pre(c)|
  {
    hide OkCtx, Distinct, Pre, Post, At, Ok;
    var F := Flat(t0);
    AroundLeaf(c, leaf, rows);
    AtLeaf(c, leaf, rows);
    OwnersOf(c, leaf, rows);
    forall i | 0 <= i < |rows| && LinesOf(rows)[i] == F[k].line ensures i == k - |Pre(c)| {
      assert F[|Pre(c)| + i] == rows[i];
      if |Pre(c)| + i != k { Apart(Items(F), |Pre(c)| + i, k); }
    }
  }

  lemma AtWithCtx(c: Ctx, t: Tree, dn: int, dh: int)
    requires AtWith(c, t, dn, dh) && c.In?
    ensures Ok(t) && ParentOf(Ref(t)) == c.branch && OkCtx(c, Ref(t), |Flat(t)| + dn, Sum(Flat(t)) + dh)
    ensures Uniq(Chunks(t) + CtxChunks(c))
    ensures c.branch !in Chunks(t) && c.branch !in ChunksL(c.left) && c.branch !in ChunksL(c.right)
        && c.branch !in CtxChunks(c.up)
    ensures c.branch in CtxChunks(c)
  {
    hide OkL, ChunksL, Ok, Chunks, CtxChunks, OkCtx, Sum, FlatL, Flat;
    CtxChunksIn(c);
    var rest := Chunks(t) + ChunksL(c.left) + ChunksL(c.right) + CtxChunks(c.up);
    NotIn(Chunks(t) + CtxChunks(c), c.branch, rest);
    assert c.branch !in rest;
  }

  // The height of one more ancestor is put right.
  method RaiseHeight(b: BranchChunk, diff: int, ghost c: Ctx, ghost t: Tree)
    requires AtWith(c, t, 0, -diff) && c.In? && c.branch == b
    modifies b`height
    ensures AtWith(c.up, Up(c, t), 0, -diff)
    ensures b.parent == CtxParent(c.up)
    ensures Chunks(Up(c, t)) + CtxChunks(c.up) == Chunks(t) + CtxChunks(c)
    ensures Around(c.up, Up(c, t)) == Around(c, t)
  {
    hide OkL, ChunksL, Ok, Chunks, CtxChunks, OkCtx, Sum, FlatL, Flat, Around;
    AtWithCtx(c, t, 0, -diff);
    OkCtxIn(c, Ref(t), |Flat(t)|, Sum(Flat(t)) - diff);
    b.height := b.height + diff;
    OkUp(b, c.left, t, c.right);
    AroundUp(c, t);
    ChunksUp(c.up, b, c.left, t, c.right);
    CachedSums(Up(c, t));
  }

  lemma AroundUpdate(c: Ctx, leaf: LeafChunk, rows: seq<Row>, i: nat, row: Row)
    requires i < |rows|
    ensures Around(c, LeafT(leaf, rows[i := row])) == Around(c, LeafT(leaf, rows))[|Pre(c)| + i := row]
  {
    hide Pre, Post, Around;
    AroundLeaf(c, leaf, rows);
    AroundLeaf(c, leaf, rows[i := row]);
  }

  lemma SumUpdate(rows: seq<Row>, i: nat, row: Row)
    requires i < |rows|
    ensures Sum(rows[i := row]) == Sum(rows) + row.height - rows[i].height
  {
    hide Sum;
    SumAppend(rows[..i], rows[i..]);
    SumAppend(rows[..i], rows[i := row][i..]);
    assert rows == rows[..i] + rows[i..] && rows[i := row] == rows[..i] + rows[i := row][i..];
    assert rows[i..] == [rows[i]] + rows[i + 1..] && rows[i := row][i..] == [row] + rows[i + 1..];
    SumAppend([rows[i]], rows[i + 1..]);
    SumAppend([row], rows[i + 1..]);
    SumOne(rows[i]);
    SumOne(row);
  }

  lemma SumOne(row: Row)
    ensures Sum([row]) == row.height
  {
  }

  method UpdateLineHeight(line: Line, height: nat, ghost t0: Tree, ghost k: nat) returns (ghost whole: Tree)
    requires At(Top, t0) && Linked(Flat(t0)) && Distinct(Items(Flat(t0)))
    requires k < |Flat(t0)| && Flat(t0)[k].line == line
    modifies Chunks(t0), line`height
    ensures At(Top, whole) && Ref(whole) == Ref(t0) && Linked(Flat(whole))
    ensures Items(Flat(whole)) == Items(Flat(t0))[k := Item(line, height)]
    ensures Chunks(whole) == Chunks(t0)
    ensures Bounded(t0) ==> Bounded(whole)
  {
    hide OkCtx, Ok, ChunksL, CtxChunks, FlatL, Chunks, Around, Pre, Post, Distinct, Linked, Items, At, AtWith,
        Bounded, Sum;
    AroundTop(t0);
    AtTop(t0, 0, 0);
    ghost var c, leaf, rows := LeafOf(Top, t0, k);
    LineInLeafRows(c, leaf, rows, t0, k);
    var diff := height - line.height;
    ghost var F' := Flat(t0)[k := Row(line, height, leaf)];
    var chunk := line.parent;
    OneLeaf(leaf, rows);
    assert leaf in Chunks(LeafT(leaf, rows)) + CtxChunks(c);
    AtLeaf(c, leaf, rows);
    SameLines(t0, k, Row(line, height, leaf), F');
    ghost var rows' := UpdateInLeaf(line, height, chunk, c, rows, t0, k);
    ghost var t, all := LeafT(leaf, rows'), Chunks(t0);
    OneLeaf(leaf, rows');
    LeafBounded(leaf, rows');
    ChunkAllocated(t0);
    forall l: Line ensures l !in all { NoLine(t0, l); }
    whole := RaiseAll(chunk.parent, diff, c, t, F', all, Bounded(t0));
  }

  // Adds the difference to every branch above.
  method RaiseAll(up0: BranchChunk?, diff: int, ghost c0: Ctx, ghost t: Tree, ghost F': seq<Row>,
      ghost all: multiset<object>, ghost bounded: bool)
    returns (ghost whole: Tree)
    requires AtWith(c0, t, 0, -diff) && up0 == CtxParent(c0) && Around(c0, t) == F' && Chunks(t) + CtxChunks(c0) == all
    requires Linked(F') && (bounded ==> CtxBounded(c0) && Bounded(t))
    requires (forall l: Line :: l !in all) && (forall o | o in all :: allocated(o)) &&
      (forall l | l in LineSet(F') :: allocated(l))
    modifies all
    ensures At(Top, whole) && Ref(whole) == RootRef(c0, Ref(t)) && Linked(F') && Flat(whole) == F'
        && Chunks(whole) == all
    ensures bounded ==> Bounded(whole)
  {
    hide OkCtx, Ok, ChunksL, CtxChunks, FlatL, Chunks, Around, Pre, Post, Distinct, Linked, Items, At, AtWith,
        Bounded, Sum;
    var up := up0;
    ghost var c', t' := c0, t;
    while up != null
      invariant AtWith(c', t', 0, -diff) && up == CtxParent(c')
      invariant Around(c', t') == F' && Chunks(t') + CtxChunks(c') == all
      invariant RootRef(c', Ref(t')) == RootRef(c0, Ref(t))
      invariant Linked(F')
      invariant bounded ==> CtxBounded(c') && Bounded(t')
      decreases c'
    {
      AtWithCtx(c', t', 0, -diff);
      RaiseHeight(up, diff, c', t');
      assert bounded ==> Bounded(Up(c', t')) by { UpBounded(c', t'); }
      c', t' := c'.up, Up(c', t');
      up := up.parent;
    }
    whole := t';
    AtWithTop(whole, -diff);
    AroundTop(whole);
  }

  lemma LeafBounded(leaf: LeafChunk, rows: seq<Row>)
    ensures Bounded(LeafT(leaf, rows)) <==> |rows| <= 50
  {
  }

  lemma SameLines(t: Tree, k: nat, row: Row, F': seq<Row>)
    requires k < |Flat(t)| && row.line == Flat(t)[k].line && F' == Flat(t)[k := row]
    ensures forall l | l in LineSet(F') :: allocated(l)
  {
    FlatAllocated(t);
    hide Flat;
    var F := Flat(t);
    forall l | l in LineSet(F') ensures allocated(l) {
      var i :| 0 <= i < |F'| && F'[i].line == l;
      assert F[i].line == l;
    }
  }

  lemma UpBounded(c: Ctx, t: Tree)
    requires c.In?
    ensures CtxBounded(c) && Bounded(t) ==> Bounded(Up(c, t)) && CtxBounded(c.up)
  {
  }

  lemma AtWithTop(t: Tree, dh: int)
    requires AtWith(Top, t, 0, dh)
    ensures At(Top, t) && Around(Top, t) == Flat(t)
  {
  }

  method UpdateInLeaf(line: Line, height: nat, leaf: LeafChunk, ghost c: Ctx, ghost rows: seq<Row>, ghost t0: Tree,
      ghost k: nat)
    returns (ghost rows': seq<Row>)
    requires At(c, LeafT(leaf, rows)) && Around(c, LeafT(leaf, rows)) == Flat(t0)
    requires Linked(Flat(t0)) && Distinct(Items(Flat(t0)))
    requires k < |Flat(t0)| && |Pre(c)| <= k < |Pre(c)| + |rows| && Flat(t0)[k].line == line
    modifies leaf`height, line`height
    ensures AtWith(c, LeafT(leaf, rows'), 0, old(line.height) - height)
    ensures Around(c, LeafT(leaf, rows')) == Flat(t0)[k := Row(line, height, leaf)] && |rows'| == |rows|
    ensures Linked(Flat(t0)[k := Row(line, height, leaf)])
    ensures Items(Flat(t0)[k := Row(line, height, leaf)]) == Items(Flat(t0))[k := Item(line, height)]
  {
    hide OkCtx, CtxChunks, Chunks, Around, Pre, Post, Distinct, Sum;
    LineInLeafRows(c, leaf, rows, t0, k);
    ghost var i := k - |Pre(c)|;
    rows' := rows[i := Row(line, height, leaf)];
    SumUpdate(rows, i, Row(line, height, leaf));
    AroundUpdate(c, leaf, rows, i, Row(line, height, leaf));
    ApartAt(Flat(t0), k);
    OneLeaf(leaf, rows);
    OneLeaf(leaf, rows');
    NoLineCtx(c, line);
    NotIn(Chunks(LeafT(leaf, rows)) + CtxChunks(c), leaf, CtxChunks(c));
    var diff := height - line.height;
    line.height := line.height + diff;
    leaf.height := leaf.height + diff;
    assert LinesOf(rows') == LinesOf(rows);
  }

  // ---------------------------------------------------------------- iteration

  lemma NoLinesYet(rows: seq<Row>, at: nat)
    requires at <= |rows|
    ensures LinesOf(rows[at..at + 0]) == []
  {
  }

  // The visited lines of a + m + z reach one window further.
  lemma Window(a: seq<Row>, m: seq<Row>, z: seq<Row>, at: nat, n: nat, at0: nat, done: nat)
    requires at + n <= |m| && |a| + at == at0 + done
    ensures LinesOf((a + m + z)[at0..at0 + (done + n)])
         == LinesOf((a + m + z)[at0..at0 + done]) + LinesOf(m[at..at + n])
  {
    hide LinesOf;
    var s := a + m + z;
    assert m[at..at + n] == s[at0 + done..at0 + done + n];
    assert s[at0..at0 + (done + n)] == s[at0..at0 + done] + s[at0 + done..at0 + done + n];
    LinesAppend(s[at0..at0 + done], s[at0 + done..at0 + done + n]);
  }

  lemma LinesAppend(a: seq<Row>, b: seq<Row>)
    ensures LinesOf(a + b) == LinesOf(a) + LinesOf(b)
  {
  }
}
