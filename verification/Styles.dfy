// A line's styles array: alternating fragments of text and CSS classes, null for an unstyled fragment.
module Styles {
  import opened Prelude
  import opened Slices

  type Style = Option<string>

  datatype Run = Run(text: string, style: Style)

  datatype Cell = Cell(ch: char, style: Style)

  function Paint(text: string, style: Style): (cells: seq<Cell>)
    ensures |cells| == |text| && forall i | 0 <= i < |text| :: cells[i] == Cell(text[i], style)
  {
    seq(|text|, i requires 0 <= i < |text| => Cell(text[i], style))
  }

  // The styled characters that runs stand for.
  function Cells(runs: seq<Run>): seq<Cell> {
    if runs == [] then [] else Paint(runs[0].text, runs[0].style) + Cells(runs[1..])
  }

  function Text(cells: seq<Cell>): (text: string)
    ensures |text| == |cells| && forall i | 0 <= i < |text| :: text[i] == cells[i].ch
  {
    seq(|cells|, i requires 0 <= i < |cells| => cells[i].ch)
  }

  lemma CellsCons(r: Run, runs: seq<Run>)
    ensures Cells([r] + runs) == Paint(r.text, r.style) + Cells(runs) && Cells([]) == []
  {
    assert ([r] + runs)[1..] == runs;
  }

  lemma {:induction false} CellsAppend(a: seq<Run>, b: seq<Run>)
    ensures Cells(a + b) == Cells(a) + Cells(b)
  {
    hide Cells, Paint;
    if a == [] {
      CellsCons(Run("", None), []);
      assert a + b == b;
    } else {
      CellsAppend(a[1..], b);
      assert a == [a[0]] + a[1..] && a + b == [a[0]] + (a[1..] + b);
      CellsCons(a[0], a[1..]);
      CellsCons(a[0], a[1..] + b);
    }
  }

  lemma CellsSnoc(runs: seq<Run>, r: Run)
    ensures Cells(runs + [r]) == Cells(runs) + Paint(r.text, r.style)
  {
    hide Cells, Paint;
    CellsAppend(runs, [r]);
    CellsCons(r, []);
    assert [r] + [] == [r];
  }

  lemma CellsCut(runs: seq<Run>, i: nat)
    requires i <= |runs|
    ensures Cells(runs) == Cells(runs[..i]) + Cells(runs[i..])
  {
    hide Cells;
    CellsAppend(runs[..i], runs[i..]);
    TakeDrop(runs, i);
  }

  lemma CellsAt(runs: seq<Run>, i: nat)
    requires i < |runs|
    ensures Cells(runs[..i + 1]) == Cells(runs[..i]) + Paint(runs[i].text, runs[i].style)
    ensures Cells(runs) == Cells(runs[..i + 1]) + Cells(runs[i + 1..])
    ensures i + 1 == |runs| ==> Cells(runs[..i + 1]) == Cells(runs)
  {
    hide Cells, Paint;
    TakeSnoc(runs, i);
    CellsSnoc(runs[..i], runs[i]);
    CellsCut(runs, i + 1);
    assert i + 1 == |runs| ==> runs[..i + 1] == runs;
  }

  // A slice of run i spells the matching slice of the whole.
  lemma Piece(runs: seq<Run>, i: nat, a: nat, b: nat)
    requires i < |runs| && a <= b <= |runs[i].text|
    ensures var pos := |Cells(runs[..i])|;
      && pos + |runs[i].text| <= |Cells(runs)| && |Cells(runs[..i + 1])| == pos + |runs[i].text|
      && Paint(runs[i].text[a..b], runs[i].style) == Cells(runs)[pos + a..pos + b]
  {
    hide Cells;
    CellsAt(runs, i);
    var pos, all := |Cells(runs[..i])|, Cells(runs);
    assert all[pos..pos + |runs[i].text|] == Paint(runs[i].text, runs[i].style);
    assert all[pos + a..pos + b] == all[pos..pos + |runs[i].text|][a..b];
  }

  // Appends the characters [from, to) of source to dest, with their styles.
  method CopyStyles(from: nat, to: nat, source: seq<Run>, dest0: seq<Run>) returns (dest: seq<Run>)
    requires from <= to <= |Cells(source)|
    ensures Cells(dest) == Cells(dest0) + Cells(source)[from..to]
  {
    hide Cells, Paint, Slice;
    dest := dest0;
    var i: nat, pos, started := 0, 0, false;
    ghost var all := Cells(source);
    CellsNil(source);
    assert source[..|source|] == source;
    while pos < to
      invariant i <= |source| && pos == |Cells(source[..i])|
      invariant !started ==> pos <= from && dest == dest0
      invariant started ==> pos >= from && Cells(dest) == Slice(Cells(dest0), all, from, if pos < to then pos else to)
      decreases |source| - i
    {
      var part, style := source[i].text, source[i].style;
      var end := pos + |part|;
      if !started {
        var upto := if |part| < to - pos then |part| else to - pos;
        if end > from {
          dest := Push(dest, source, i, from - pos, upto);
        } else {
          Piece(source, i, 0, 0);
        }
        if end >= from {
          SliceStart(Cells(dest0), all, from, if end > from then pos + upto else from);
          started := true;
        }
      } else if end > to {
        dest := Push(dest, source, i, 0, to - pos);
        SliceMore(Cells(dest0), all, from, pos, to);
      } else {
        dest := Push(dest, source, i, 0, |part|);
        SliceMore(Cells(dest0), all, from, pos, end);
      }
      pos := end;
      i := i + 1;
    }
    SliceStart(Cells(dest0), all, from, to);
  }

  ghost function Slice(d: seq<Cell>, all: seq<Cell>, from: nat, to: nat): seq<Cell>
    requires from <= to <= |all|
  {
    d + all[from..to]
  }

  lemma SliceStart(d: seq<Cell>, all: seq<Cell>, from: nat, to: nat)
    requires from <= to <= |all|
    ensures Slice(d, all, from, to) == d + all[from..to] && Slice(d, all, from, from) == d
  {
  }

  lemma SliceMore(d: seq<Cell>, all: seq<Cell>, from: nat, mid: nat, to: nat)
    requires from <= mid <= to <= |all|
    ensures Slice(d, all, from, mid) + all[mid..to] == Slice(d, all, from, to)
  {
  }

  // Pushes characters [a, b) of run i.
  method Push(dest0: seq<Run>, source: seq<Run>, i: nat, a: nat, b: nat) returns (dest: seq<Run>)
    requires i < |source| && a <= b <= |source[i].text|
    ensures var pos := |Cells(source[..i])|;
      && pos + |source[i].text| <= |Cells(source)| && |Cells(source[..i + 1])| == pos + |source[i].text|
      && Cells(dest) == Cells(dest0) + Cells(source)[pos + a..pos + b]
  {
    hide Cells, Paint;
    Piece(source, i, a, b);
    CellsSnoc(dest0, Run(source[i].text[a..b], source[i].style));
    dest := dest0 + [Run(source[i].text[a..b], source[i].style)];
  }

  lemma CellsNil(runs: seq<Run>)
    ensures Cells(runs[..0]) == []
  {
  }

  lemma NoCells()
    ensures Cells([]) == []
  {
  }

  lemma OneRun(text: string)
    ensures Cells([Run(text, None)]) == Paint(text, None) && Text(Cells([Run(text, None)])) == text
  {
    CellsCons(Run(text, None), []);
    assert [Run(text, None)] + [] == [Run(text, None)];
  }

  lemma PaintNone()
    ensures Paint("", None) == []
  {
  }

  lemma SpellAppend(a: seq<Cell>, b: seq<Cell>)
    ensures Text(a + b) == Text(a) + Text(b)
  {
  }

  lemma SpellPaint(text: string, style: Style)
    ensures Text(Paint(text, style)) == text
  {
  }

  // What a replacement does to the spelling.
  lemma Respell(cells: seq<Cell>, text: string, f: nat, t: nat, new_: string)
    requires f <= t <= |text| == |cells| && Text(cells) == text
    ensures Text(cells[..f] + Paint(new_, None) + cells[t..]) == text[..f] + new_ + text[t..]
  {
    SpellPaint(new_, None);
    SpellAppend(cells[..f] + Paint(new_, None), cells[t..]);
    SpellAppend(cells[..f], Paint(new_, None));
  }

  // The runs of a replacement up to the end of the new text.
  lemma Pasted(cells: seq<Cell>, f: nat, st: seq<Run>, new_: string)
    requires f <= |cells|
    requires if new_ == "" then Cells(st) == Cells([]) + cells[0..f]
             else st != [] && st[|st| - 1] == Run(new_, None) && Cells(st[..|st| - 1]) == Cells([]) + cells[0..f]
    ensures Cells(st) == cells[..f] + Paint(new_, None)
  {
    hide Cells, Paint;
    NoCells();
    NothingBefore(cells, f);
    if new_ == "" {
      PaintNone();
      NothingBehind(cells[..f]);
    } else {
      LastRun(st);
      CellsSnoc(st[..|st| - 1], st[|st| - 1]);
    }
  }

  lemma NothingBefore<T>(s: seq<T>, n: nat)
    requires n <= |s|
    ensures [] + s[0..n] == s[..n]
  {
  }

  lemma NothingBehind<T>(s: seq<T>)
    ensures s + [] == s
  {
  }

  lemma LastRun(st: seq<Run>)
    requires st != []
    ensures st == st[..|st| - 1] + [st[|st| - 1]]
  {
  }
}
