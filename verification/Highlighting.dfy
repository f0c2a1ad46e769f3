// Overwriting a line's runs with those that a mode gives it.
module Highlighting {
  import opened Prelude
  import opened Styles
  import opened Tokenizers

  // Runs without an empty one, and without two neighbours of the same style.
  ghost predicate Normal(runs: seq<Run>) {
    && (forall i | 0 <= i < |runs| :: runs[i].text != "")
    && (forall i | 0 < i < |runs| :: runs[i - 1].style != runs[i].style)
  }

  // Only one such list of runs stands for given styled characters.
  lemma {:induction false} NormalUnique(a: seq<Run>, b: seq<Run>)
    requires Normal(a) && Normal(b) && Cells(a) == Cells(b)
    ensures a == b
  {
    if a == [] || b == [] {
      if a != [] { FirstRun(a); }
      if b != [] { FirstRun(b); }
    } else {
      FirstRun(a);
      FirstRun(b);
      var x, y := |a[0].text|, |b[0].text|;
      var cells := Cells(a);
      assert cells[0] == cells[..x][0] == cells[..y][0];
      assert x == y;
      NormalUnique(a[1..], b[1..]);
      assert a == [a[0]] + a[1..] && b == [b[0]] + b[1..];
    }
  }

  // The first run ends where the style changes.
  lemma FirstRun(runs: seq<Run>)
    requires Normal(runs) && runs != []
    ensures var cells, n := Cells(runs), |runs[0].text|;
      && 0 < n <= |cells| && cells[..n] == Paint(runs[0].text, runs[0].style) && cells[n..] == Cells(runs[1..])
      && (n < |cells| ==> cells[n].style != runs[0].style)
      && Text(cells[..n]) == runs[0].text
      && Normal(runs[1..])
  {
    SpellPaint(runs[0].text, runs[0].style);
    UnfoldCells(runs);
    if |runs| > 1 {
      UnfoldCells(runs[1..]);
    }
  }

  lemma UnfoldCells(runs: seq<Run>)
    requires runs != []
    ensures Cells(runs) == Paint(runs[0].text, runs[0].style) + Cells(runs[1..])
  {
  }

  // Writing behind the end of an array makes it longer.
  function Put(st: seq<Run>, n: nat, r: Run): seq<Run>
    requires n <= |st|
  {
    if n < |st| then st[n := r] else st + [r]
  }

  function StyleAt(st: seq<Run>, n: nat): Style {
    if n < |st| then st[n].style else None
  }

  function TextAt(st: seq<Run>, n: nat): Option<string> {
    if n < |st| then Some(st[n].text) else None
  }

  // Runs that differ from the old ones at most in the text of the last one, which may still grow.
  ghost predicate Same(runs: seq<Run>, old_: seq<Run>) {
    && (forall i | 0 <= i < |runs| - 1 :: i < |old_| && runs[i] == old_[i])
    && (runs != [] ==> runs[|runs| - 1].style == StyleAt(old_, |runs| - 1))
  }

  // The last run grows.
  ghost function Grown(runs: seq<Run>, more: string): seq<Run>
    requires runs != []
  {
    var r := runs[|runs| - 1];
    runs[|runs| - 1 := Run(r.text + more, r.style)]
  }

  // Only the styles of the last runs matter.
  lemma SameAlike(runs: seq<Run>, other: seq<Run>, old_: seq<Run>)
    requires |runs| == |other| && Same(runs, old_)
    requires forall i | 0 <= i < |runs| :: other[i].style == runs[i].style && (i < |runs| - 1 ==> other[i] == runs[i])
    ensures Same(other, old_)
  {
    forall i | 0 <= i < |other| - 1 ensures i < |old_| && other[i] == old_[i] {
      assert other[i] == runs[i];
    }
  }

  lemma SameGrown(runs: seq<Run>, old_: seq<Run>, more: string)
    requires runs != []
    ensures Same(Grown(runs, more), old_) <==> Same(runs, old_)
    ensures Normal(runs) ==> Normal(Grown(runs, more))
  {
    hide Same;
    var runs' := Grown(runs, more);
    forall i | 0 <= i < |runs|
      ensures runs'[i].style == runs[i].style && (i < |runs| - 1 ==> runs'[i] == runs[i]) &&
        (runs[i].text != "" ==> runs'[i].text != "")
    {
    }
    if Same(runs, old_) { SameAlike(runs, runs', old_); }
    if Same(runs', old_) { SameAlike(runs', runs, old_); }
  }

  lemma CellsGrown(runs: seq<Run>, more: string)
    requires runs != []
    ensures Cells(Grown(runs, more)) == Cells(runs) + Paint(more, runs[|runs| - 1].style)
  {
    hide Cells, Paint;
    var front, r := runs[..|runs| - 1], runs[|runs| - 1];
    GrownFront(runs, more);
    CellsSnoc(front, r);
    CellsSnoc(front, Run(r.text + more, r.style));
    PaintAppend(r.text, more, r.style);
    Together(Cells(front), Paint(r.text, r.style), Paint(more, r.style));
  }

  lemma GrownFront(runs: seq<Run>, more: string)
    requires runs != []
    ensures var front, r := runs[..|runs| - 1], runs[|runs| - 1];
      runs == front + [r] && Grown(runs, more) == front + [Run(r.text + more, r.style)]
  {
  }

  lemma Together<T>(a: seq<T>, b: seq<T>, c: seq<T>)
    ensures (a + b) + c == a + (b + c)
  {
  }

  lemma PaintAppend(a: string, b: string, style: Style)
    ensures Paint(a + b, style) == Paint(a, style) + Paint(b, style)
  {
  }

  lemma SameSnoc(runs: seq<Run>, old_: seq<Run>, r: Run)
    requires r.text != ""
    ensures Same(runs + [r], old_) <==>
      && Same(runs, old_) && r.style == StyleAt(old_, |runs|)
      && (runs != [] ==> TextAt(old_, |runs| - 1) == Some(runs[|runs| - 1].text))
    ensures Normal(runs) && (runs != [] ==> runs[|runs| - 1].style != r.style) ==> Normal(runs + [r])
  {
    var all := runs + [r];
    if Same(all, old_) {
      assert forall i | 0 <= i < |runs| :: all[i] == runs[i] == old_[i];
    }
  }

  lemma SameAll(runs: seq<Run>, old_: seq<Run>)
    ensures runs == old_ <==>
      && Same(runs, old_) && |old_| <= |runs|
      && (runs != [] ==> TextAt(old_, |runs| - 1) == Some(runs[|runs| - 1].text))
  {
  }

  /** What the loop knows: the first n runs are new, the others still old, and changed tells whether
      the new ones differ from the old ones but for the text of the last. */
  ghost predicate Tracks(styles: seq<Run>, st: seq<Run>, n: nat, changed: bool, curWord: Option<string>,
      prevWord: Option<string>) {
    && n <= |styles| && |styles| == (if n < |st| then |st| else n)
    && (forall i | n <= i < |styles| :: styles[i] == st[i])
    && Normal(styles[..n])
    && (changed <==> !Same(styles[..n], st))
    && curWord == TextAt(st, n) && (n > 0 ==> prevWord == TextAt(st, n - 1))
  }

  lemma TracksNone(st: seq<Run>)
    ensures Tracks(st, st, 0, false, TextAt(st, 0), None)
  {
  }

  lemma TracksGrown(styles: seq<Run>, st: seq<Run>, n: nat, changed: bool, curWord: Option<string>,
      prevWord: Option<string>, more: string)
    requires Tracks(styles, st, n, changed, curWord, prevWord) && n > 0
    ensures var styles' := styles[n - 1 := Run(styles[n - 1].text + more, styles[n - 1].style)];
      Tracks(styles', st, n, changed, curWord, prevWord) &&
        Cells(styles'[..n]) == Cells(styles[..n]) + Paint(more, styles[n - 1].style)
  {
    hide Cells, Paint, Normal, Same;
    var styles' := styles[n - 1 := Run(styles[n - 1].text + more, styles[n - 1].style)];
    assert styles'[..n] == Grown(styles[..n], more);
    SameGrown(styles[..n], st, more);
    CellsGrown(styles[..n], more);
  }

  lemma TracksPut(styles: seq<Run>, st: seq<Run>, n: nat, changed: bool, curWord: Option<string>,
      prevWord: Option<string>, r: Run)
    requires Tracks(styles, st, n, changed, curWord, prevWord) && r.text != "" &&
      (n > 0 ==> styles[n - 1].style != r.style)
    ensures var styles' := Put(styles, n, r);
      var changed' := changed || StyleAt(styles, n) != r.style || (n > 0 && Some(styles[n - 1].text) != prevWord);
      Tracks(styles', st, n + 1, changed', TextAt(styles', n + 1), curWord) &&
        Cells(styles'[..n + 1]) == Cells(styles[..n]) + Paint(r.text, r.style)
  {
    hide Cells, Paint, Normal, Same;
    assert Put(styles, n, r)[..n + 1] == styles[..n] + [r];
    assert StyleAt(styles, n) == StyleAt(st, n);
    SameSnoc(styles[..n], st, r);
    CellsSnoc(styles[..n], r);
  }

  // The checks at the end find every difference.
  lemma TracksAll(styles: seq<Run>, st: seq<Run>, n: nat, changed: bool, curWord: Option<string>,
      prevWord: Option<string>)
    requires Tracks(styles, st, n, changed, curWord, prevWord)
    ensures changed || |styles| != n || (n > 0 && Some(styles[n - 1].text) != prevWord) <==> styles[..n] != st
  {
    SameAll(styles[..n], st);
  }

  lemma TracksNormal(styles: seq<Run>, st: seq<Run>, n: nat, changed: bool, curWord: Option<string>,
      prevWord: Option<string>)
    requires Tracks(styles, st, n, changed, curWord, prevWord)
    ensures n <= |styles| && Normal(styles[..n])
  {
  }

  lemma Blank<S(!new)>(mode: Mode<S>, s: S)
    requires Advances(mode) && mode.ok("", 0, s)
    ensures mode.ok("", 0, mode.blankLine(s))
  {
  }

  lemma PutSnoc(styles: seq<Run>, n: nat, r: Run)
    requires n <= |styles|
    ensures n < |Put(styles, n, r)| && Put(styles, n, r)[..n + 1] == styles[..n] + [r] && Put(styles, n, r)[n] == r
    ensures Cells(Put(styles, n, r)[..n + 1]) == Cells(styles[..n]) + Paint(r.text, r.style)
    ensures Put(styles, n, r)[..n] == styles[..n]
  {
    hide Cells, Paint;
    assert Put(styles, n, r)[..n + 1] == styles[..n] + [r];
    CellsSnoc(styles[..n], r);
  }

  lemma PaintNothing(style: Style)
    ensures Paint("", style) == []
  {
  }
}
