// Two modes over one line: the base mode, and an overlay whose styles win or are combined.
module Overlays {
  import opened Prelude
  import opened Styles
  import opened Tokenizers

  // What the overlay mode remembers: each mode's state, and the end and style of its current token.
  datatype Both<A, B> = Both(base: A, basePos: nat, baseCur: Style, overlay: B, overlayPos: nat, overlayCur: Style)

  function Combined(base: Style, overlay: Style, combine: bool): Style {
    if overlay == None then base
    else if base != None && combine then Some(base.value + " " + overlay.value)
    else overlay
  }

  function Least(a: nat, b: nat): nat {
    if a < b then a else b
  }

  /** The overlay mode as a mode: what its token method does, the states it gets into, and how far it is
      from moving on. */
  function Overlaid<A, B>(base: Mode<A>, overlay: Mode<B>, combine: bool): Mode<Both<A, B>> {
    Mode(
      (text: string, start: nat, s: Both<A, B>) => TokenOf(base, overlay, combine, text, start, s),
      (s: Both<A, B>) => s,
      (text: string, p: nat, s: Both<A, B>) => Sound(base, overlay, text, p, s),
      (s: Both<A, B>) => RankOf(base, overlay, s))
  }

  function TokenOf<A, B>(base: Mode<A>, overlay: Mode<B>, combine: bool, text: string, start: nat, s: Both<A,
      B>): Token<Both<A, B>> {
    var s1 := WithBase(base, text, start, s);
    var s2 := WithOverlay(overlay, text, start, s1);
    var pos := Least(s2.basePos, s2.overlayPos);
    var s3 := if pos >= |text| then s2.(basePos := 0, overlayPos := 0) else s2;
    Token(pos, Combined(s2.baseCur, s2.overlayCur, combine), s3)
  }

  function WithBase<A, B>(base: Mode<A>, text: string, start: nat, s: Both<A, B>): Both<A, B> {
    if start == s.basePos then
      var t := base.token(text, start, s.base); s.(base := t.state, basePos := t.pos, baseCur := t.style)
    else s
  }

  function WithOverlay<A, B>(overlay: Mode<B>, text: string, start: nat, s: Both<A, B>): Both<A, B> {
    if start == s.overlayPos then
      var t := overlay.token(text, start, s.overlay); s.(overlay := t.state, overlayPos := t.pos, overlayCur := t.style)
    else s
  }

  // Inside a line both tokens reach to the position or further; at the end of a line both start over.
  predicate Sound<A, B>(base: Mode<A>, overlay: Mode<B>, text: string, p: nat, s: Both<A, B>) {
    if p < |text| then
      && p == Least(s.basePos, s.overlayPos) && s.basePos <= |text| && s.overlayPos <= |text|
      && base.ok(text, s.basePos, s.base) && overlay.ok(text, s.overlayPos, s.overlay)
    else
      s.basePos == 0 && s.overlayPos == 0 && base.ok(text, p, s.base) && overlay.ok(text, p, s.overlay)
  }

  function RankOf<A, B>(base: Mode<A>, overlay: Mode<B>, s: Both<A, B>): nat {
    var p := Least(s.basePos, s.overlayPos);
    (if s.basePos == p then base.rank(s.base) + 1 else 0) +
      (if s.overlayPos == p then overlay.rank(s.overlay) + 1 else 0)
  }

  // If both modes always get on, so does the overlay mode.
  lemma OverlaidAdvances<A(!new), B(!new)>(base: Mode<A>, overlay: Mode<B>, combine: bool)
    requires Advances(base) && Advances(overlay)
    ensures Advances(Overlaid(base, overlay, combine))
  {
    var both := Overlaid(base, overlay, combine);
    forall text, p: nat, s | p < |text| && both.ok(text, p, s) ensures Moves(both, text, p, s) {
      OverlaidMoves(base, overlay, combine, text, p, s);
    }
  }

  // The mode moves on at every call.
  ghost predicate Strict<S(!new)>(mode: Mode<S>) {
    forall text, p: nat, s | p < |text| && mode.ok(text, p, s) :: mode.token(text, p, s).pos > p
  }

  /** If each mode moves on at every call, then so does the overlay mode. */
  lemma OverlaidStrict<A(!new), B(!new)>(base: Mode<A>, overlay: Mode<B>, combine: bool)
    requires Strict(base) && Strict(overlay)
    ensures Strict(Overlaid(base, overlay, combine))
  {
    var both := Overlaid(base, overlay, combine);
    forall text, p: nat, s | p < |text| && both.ok(text, p, s) ensures both.token(text, p, s).pos > p {
      assert p == s.basePos ==> base.token(text, p, s.base).pos > p;
      assert p == s.overlayPos ==> overlay.token(text, p, s.overlay).pos > p;
    }
  }

  lemma OverlaidMoves<A(!new), B(!new)>(base: Mode<A>, overlay: Mode<B>, combine: bool, text: string, p: nat,
      s: Both<A, B>)
    requires Advances(base) && Advances(overlay) && p < |text| && Sound(base, overlay, text, p, s)
    ensures Moves(Overlaid(base, overlay, combine), text, p, s)
  {
    hide Advances, Combined;
    if p == s.basePos { AdvancesAt(base, text, p, s.base); }
    if p == s.overlayPos { AdvancesAt(overlay, text, p, s.overlay); }
    NextLine(base, text);
    NextLine(overlay, text);
  }

  lemma AdvancesAt<S(!new)>(mode: Mode<S>, text: string, p: nat, s: S)
    requires Advances(mode) && p < |text| && mode.ok(text, p, s)
    ensures Moves(mode, text, p, s)
  {
  }

  lemma NextLine<S(!new)>(mode: Mode<S>, text: string)
    requires Advances(mode)
    ensures forall s, next | mode.ok(text, |text|, s) :: mode.ok(next, 0, s)
  {
  }

  // The styles still to come on a line: the rest of the current token, and what the mode makes of what follows.
  ghost function Ahead<S(!new)>(mode: Mode<S>, text: string, p: nat, pos: nat, cur: Style, s: S): seq<Cell>
    requires Advances(mode) && p <= pos <= |text| && mode.ok(text, pos, s)
  {
    Paint(text[p..pos], cur) + Painted(mode, text, pos, s, |text|)
  }

  /** Character by character: where the overlay gives no style, the style is the base's; where it gives one, it wins,
      but for styles to be combined, where both stand, the base's first. */
  ghost predicate Product(cells: seq<Cell>, a: seq<Cell>, b: seq<Cell>, combine: bool) {
    && |cells| == |a| == |b|
    && forall i | 0 <= i < |cells| ::
         && (b[i].style == None ==> cells[i].style == a[i].style)
         && (b[i].style != None && (!combine || a[i].style == None) ==> cells[i].style == b[i].style)
         && (b[i].style != None && combine && a[i].style != None ==>
               cells[i].style == Some(a[i].style.value + " " + b[i].style.value))
  }

  /** Whatever the two modes do, over a whole line the overlay mode is the product of its parts, and
      at the end of the line each part is in the state it would have reached alone. */
  lemma OverlaidProduct<A(!new), B(!new)>(base: Mode<A>, overlay: Mode<B>, combine: bool, text: string, s: Both<A, B>)
    requires Advances(base) && Advances(overlay) && Advances(Overlaid(base, overlay, combine))
    requires s.basePos == 0 && s.overlayPos == 0 && base.ok(text, 0, s.base) && overlay.ok(text, 0, s.overlay)
    ensures var both, n := Overlaid(base, overlay, combine), |text|;
      && both.ok(text, 0, s)
      && Product(Painted(both, text, 0, s, n), Painted(base, text, 0, s.base, n),
        Painted(overlay, text, 0, s.overlay, n), combine)
      && var end := After(both, text, 0, s, n);
         end.basePos == 0 && end.overlayPos == 0
         && end.base == After(base, text, 0, s.base, n) && end.overlay == After(overlay, text, 0, s.overlay, n)
  {
    hide Advances, Painted, After, Ahead;
    if text == "" {
      PaintedEnd(base, text, s.base, 0);
      PaintedEnd(overlay, text, s.overlay, 0);
      PaintedEnd(Overlaid(base, overlay, combine), text, s, 0);
    } else {
      ProductFrom(base, overlay, combine, text, 0, s);
      AheadStart(base, text, 0, s.baseCur, s.base);
      AheadStart(overlay, text, 0, s.overlayCur, s.overlay);
    }
  }

  lemma AheadStart<S(!new)>(mode: Mode<S>, text: string, p: nat, cur: Style, s: S)
    requires Advances(mode) && p <= |text| && mode.ok(text, p, s)
    ensures Ahead(mode, text, p, p, cur, s) == Painted(mode, text, p, s, |text|)
  {
    hide Advances, Painted;
  }

  // Calling a mode at the end of its token changes nothing in what is ahead.
  lemma AheadCalled<S(!new)>(mode: Mode<S>, text: string, p: nat, cur: Style, s: S)
    requires Advances(mode) && p < |text| && mode.ok(text, p, s)
    ensures var t, n := mode.token(text, p, s), |text|;
      && p <= t.pos <= n && mode.ok(text, t.pos, t.state) && (t.pos > p || mode.rank(t.state) < mode.rank(s))
      && Ahead(mode, text, p, p, cur, s) == Ahead(mode, text, p, t.pos, t.style, t.state)
      && After(mode, text, p, s, n) == After(mode, text, t.pos, t.state, n)
  {
    hide Advances, Painted, After;
    PaintedStep(mode, text, p, s, |text|);
  }

  lemma AheadEnd<S(!new)>(mode: Mode<S>, text: string, cur: Style, s: S)
    requires Advances(mode) && mode.ok(text, |text|, s)
    ensures Ahead(mode, text, |text|, |text|, cur, s) == [] && After(mode, text, |text|, s, |text|) == s
  {
    PaintedEnd(mode, text, s, |text|);
  }

  lemma ProductMore(text: string, c1: Style, c2: Style, combine: bool, cells: seq<Cell>, a: seq<Cell>, b: seq<Cell>)
    requires Product(cells, a, b, combine)
    ensures Product(Paint(text, Combined(c1, c2, combine)) + cells, Paint(text, c1) + a, Paint(text, c2) + b, combine)
  {
  }

  lemma {:induction false} ProductFrom<A(!new), B(!new)>(base: Mode<A>, overlay: Mode<B>, combine: bool,
      text: string, p: nat, s: Both<A, B>)
    requires Advances(base) && Advances(overlay) && Advances(Overlaid(base, overlay, combine))
    requires p < |text| && Sound(base, overlay, text, p, s)
    ensures var both, n := Overlaid(base, overlay, combine), |text|;
      && both.ok(text, p, s)
      && Product(Painted(both, text, p, s, n), Ahead(base, text, p, s.basePos, s.baseCur, s.base),
                 Ahead(overlay, text, p, s.overlayPos, s.overlayCur, s.overlay), combine)
      && var end := After(both, text, p, s, n);
         end.basePos == 0 && end.overlayPos == 0
         && end.base == After(base, text, s.basePos, s.base, n) &&
           end.overlay == After(overlay, text, s.overlayPos, s.overlay, n)
    decreases |text| - p, RankOf(base, overlay, s)
  {
    hide Advances, Painted, After, Ahead, Product, Combined;
    var both, n := Overlaid(base, overlay, combine), |text|;
    OverlaidMoves(base, overlay, combine, text, p, s);
    PaintedStep(both, text, p, s, n);
    if p == s.basePos { AheadCalled(base, text, p, s.baseCur, s.base); }
    if p == s.overlayPos { AheadCalled(overlay, text, p, s.overlayCur, s.overlay); }
    var s2 := WithOverlay(overlay, text, p, WithBase(base, text, p, s));
    var pos := Least(s2.basePos, s2.overlayPos);
    AheadCut(base, text, p, pos, s2.basePos, s2.baseCur, s2.base);
    AheadCut(overlay, text, p, pos, s2.overlayPos, s2.overlayCur, s2.overlay);
    if pos == n {
      AheadEnd(base, text, s2.baseCur, s2.base);
      AheadEnd(overlay, text, s2.overlayCur, s2.overlay);
      PaintedEnd(both, text, s2.(basePos := 0, overlayPos := 0), n);
      NoProduct(combine);
      ProductMore(text[p..pos], s2.baseCur, s2.overlayCur, combine, [], [], []);
    } else {
      ProductFrom(base, overlay, combine, text, pos, s2);
      ProductMore(text[p..pos], s2.baseCur, s2.overlayCur, combine, Painted(both, text, pos, s2, n),
                  Ahead(base, text, pos, s2.basePos, s2.baseCur, s2.base),
                    Ahead(overlay, text, pos, s2.overlayPos, s2.overlayCur, s2.overlay));
    }
  }

  lemma NoProduct(combine: bool)
    ensures Product([], [], [], combine)
  {
  }

  lemma AheadCut<S(!new)>(mode: Mode<S>, text: string, p: nat, q: nat, pos: nat, cur: Style, s: S)
    requires Advances(mode) && p <= q <= pos <= |text| && mode.ok(text, pos, s)
    ensures Ahead(mode, text, p, pos, cur, s) == Paint(text[p..q], cur) + Ahead(mode, text, q, pos, cur, s)
  {
    hide Advances, Painted;
    assert text[p..pos] == text[p..q] + text[q..pos];
  }

  lemma TokenIs<A, B>(base: Mode<A>, overlay: Mode<B>, combine: bool, text: string, start: nat, s: Both<A, B>)
    ensures var b := if start == s.basePos then base.token(text, start, s.base)
      else Tokenizers.Token(s.basePos, s.baseCur, s.base);
      var o := if start == s.overlayPos then overlay.token(text, start, s.overlay)
               else Tokenizers.Token(s.overlayPos, s.overlayCur, s.overlay);
      var pos := Least(b.pos, o.pos);
      var (basePos, overlayPos) := if pos >= |text| then (0, 0) else (b.pos, o.pos);
      TokenOf(base, overlay, combine, text, start, s) ==
        Tokenizers.Token(pos, Combined(b.style, o.style, combine),
          Both(b.state, basePos, b.style, o.state, overlayPos, o.style))
  {
  }

  class Stream {
    const text: string
    var start: nat
    var pos: nat

    constructor (text: string)
      ensures this.text == text && start == 0 && pos == 0
    {
      this.text := text;
      start, pos := 0, 0;
    }
  }

  class OverlayState<A(!new), B(!new)> {
    var base: A
    var basePos: nat
    var baseCur: Style
    var overlay: B
    var overlayPos: nat
    var overlayCur: Style

    constructor (base: A, overlay: B)
      ensures Value() == Both(base, 0, None, overlay, 0, None)
    {
      this.base, this.overlay := base, overlay;
      basePos, baseCur, overlayPos, overlayCur := 0, None, 0, None;
    }

    function Value(): Both<A, B>
      reads this
    {
      Both(base, basePos, baseCur, overlay, overlayPos, overlayCur)
    }

    method Token(baseMode: Mode<A>, overlayMode: Mode<B>, combine: bool, stream: Stream) returns (style: Style)
      requires stream.pos == stream.start
      modifies this, stream`pos
      ensures var t := TokenOf(baseMode, overlayMode, combine, stream.text, stream.start, old(Value()));
        stream.pos == t.pos && style == t.style && Value() == t.state
      ensures var start, end := old(stream.pos), |stream.text|;
        var b := if start == old(basePos) then baseMode.token(stream.text, start, old(base))
                 else Tokenizers.Token(old(basePos), old(baseCur), old(base));
        var o := if start == old(overlayPos) then overlayMode.token(stream.text, start, old(overlay))
                 else Tokenizers.Token(old(overlayPos), old(overlayCur), old(overlay));
        && stream.pos <= b.pos && stream.pos <= o.pos && (stream.pos == b.pos || stream.pos == o.pos)
        && base == b.state && baseCur == b.style && basePos == (if stream.pos >= end then 0 else b.pos)
        && overlay == o.state && overlayCur == o.style && overlayPos == (if stream.pos >= end then 0 else o.pos)
      ensures overlayCur == None ==> style == baseCur
      ensures overlayCur != None && (!combine || baseCur == None) ==> style == overlayCur
      ensures overlayCur != None && combine && baseCur != None ==>
        style == Some(baseCur.value + " " + overlayCur.value)
    {
      hide TokenOf;
      if stream.start == basePos {
        var t := baseMode.token(stream.text, stream.pos, base);
        stream.pos, base, baseCur := t.pos, t.state, t.style;
        basePos := stream.pos;
      }
      if stream.start == overlayPos {
        stream.pos := stream.start;
        var t := overlayMode.token(stream.text, stream.pos, overlay);
        stream.pos, overlay, overlayCur := t.pos, t.state, t.style;
        overlayPos := stream.pos;
      }
      stream.pos := Least(basePos, overlayPos);
      if stream.pos >= |stream.text| { basePos, overlayPos := 0, 0; }
      TokenIs(baseMode, overlayMode, combine, stream.text, stream.start, old(Value()));
      if overlayCur == None { return baseCur; }
      if baseCur != None && combine {
        style := Some(baseCur.value + " " + overlayCur.value);
      } else {
        style := overlayCur;
      }
    }

    /** Drives the overlay mode over one line: the tokens tile the line, each character gets the
        product of the two styles, and the state is ready for the next line. */
    method RunLine(baseMode: Mode<A>, overlayMode: Mode<B>, combine: bool, text: string) returns (runs: seq<Run>)
      requires Advances(baseMode) && Advances(overlayMode)
      requires basePos == 0 && overlayPos == 0 && baseMode.ok(text, 0, base) && overlayMode.ok(text, 0, overlay)
      modifies this
      ensures Text(Cells(runs)) == text
      ensures baseMode.ok(text, 0, old(base)) && overlayMode.ok(text, 0, old(overlay))
      ensures var n := |text|;
        && Product(Cells(runs), Painted(baseMode, text, 0, old(base), n),
          Painted(overlayMode, text, 0, old(overlay), n), combine)
        && base == After(baseMode, text, 0, old(base), n) && overlay == After(overlayMode, text, 0, old(overlay), n)
      ensures basePos == 0 && overlayPos == 0
    {
      hide Advances, Painted, After, Cells, Overlaid, TokenOf, Product, Paint, Text;
      ghost var both, n, s0 := Overlaid(baseMode, overlayMode, combine), |text|, Value();
      OverlaidAdvances(baseMode, overlayMode, combine);
      OverlaidProduct(baseMode, overlayMode, combine, text, s0);
      ghost var whole, end := Painted(both, text, 0, s0, n), After(both, text, 0, s0, n);
      var stream := new Stream(text);
      runs := [];
      NoCells();
      assert Cells(runs) + whole == whole;
      while stream.pos < |text|
        invariant stream.start == stream.pos <= n && fresh(stream) && stream.text == text
        invariant both.ok(text, stream.pos, Value())
        invariant Cells(runs) + Painted(both, text, stream.pos, Value(), n) == whole
        invariant After(both, text, stream.pos, Value(), n) == end
        decreases n - stream.pos, both.rank(Value())
      {
        ghost var v, p := Value(), stream.pos;
        var style := Token(baseMode, overlayMode, combine, stream);
        RunStep(baseMode, overlayMode, combine, text, p, v, runs);
        runs := runs + [Run(text[stream.start..stream.pos], style)];
        stream.start := stream.pos;
      }
      PaintedEnd(both, text, Value(), n);
      assert Cells(runs) + [] == Cells(runs);
      assert text[0..] == text;
    }
  }

  lemma RunStep<A(!new), B(!new)>(base: Mode<A>, overlay: Mode<B>, combine: bool, text: string, p: nat, s: Both<A,
      B>, runs: seq<Run>)
    requires Advances(Overlaid(base, overlay, combine)) && p < |text| && Overlaid(base, overlay, combine).ok(text, p, s)
    ensures var both, n, t := Overlaid(base, overlay, combine), |text|, TokenOf(base, overlay, combine, text, p, s);
      && p <= t.pos <= n && both.ok(text, t.pos, t.state) && (t.pos > p || both.rank(t.state) < both.rank(s))
      && Cells(runs) + Painted(both, text, p, s, n)
         == Cells(runs + [Run(text[p..t.pos], t.style)]) + Painted(both, text, t.pos, t.state, n)
      && After(both, text, p, s, n) == After(both, text, t.pos, t.state, n)
  {
    hide Advances, Painted, After, Cells, Overlaid, TokenOf, Paint;
    var both, n, t := Overlaid(base, overlay, combine), |text|, TokenOf(base, overlay, combine, text, p, s);
    OverlaidIs(base, overlay, combine);
    assert both.token(text, p, s) == t;
    PaintedStep(both, text, p, s, n);
    CellsSnoc(runs, Run(text[p..t.pos], t.style));
    Regroup(Cells(runs), Paint(text[p..t.pos], t.style), Painted(both, text, t.pos, t.state, n));
  }

  lemma Regroup<T>(a: seq<T>, b: seq<T>, c: seq<T>)
    ensures a + (b + c) == (a + b) + c
  {
  }

  lemma OverlaidIs<A, B>(base: Mode<A>, overlay: Mode<B>, combine: bool)
    ensures forall text, p, s ::
        Overlaid(base, overlay, combine).token(text, p, s) == TokenOf(base, overlay, combine, text, p, s)
  {
  }
}
