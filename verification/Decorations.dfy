/** Compacting the style decorations of a piece of source code in place: decorations that style
    nothing go, and neighbours of the same style become one. */
module Decorations {
  import opened Prelude
  import opened Slices

  // The characters from pos on have a style, up to the next decoration or the end of the source.
  datatype Dec = Dec(pos: int, style: string)

  // An entry of the flat array, in which positions and styles alternate.
  datatype Entry = At(pos: int) | Class(style: string)

  ghost function Flat(ds: seq<Dec>): (es: seq<Entry>)
    ensures |es| == 2 * |ds|
  {
    if ds == [] then [] else Flat(ds[..|ds| - 1]) + [At(ds[|ds| - 1].pos), Class(ds[|ds| - 1].style)]
  }

  // The style of character c: that of the last decoration that starts at c or before.
  ghost function StyleOf(ds: seq<Dec>, c: int): Option<string> {
    if ds == [] then None
    else if ds[|ds| - 1].pos <= c then Some(ds[|ds| - 1].style)
    else StyleOf(ds[..|ds| - 1], c)
  }

  ghost predicate Sorted(ds: seq<Dec>, end: int) {
    forall i | 0 <= i < |ds| :: ds[i].pos <= PosAt(ds, i + 1, end)
  }

  // Where decoration i starts, or the end behind the last.
  ghost function PosAt(ds: seq<Dec>, i: nat, end: int): int {
    if i < |ds| then ds[i].pos else end
  }

  // The decorations i.. that style something.
  ghost function NonEmpty(ds: seq<Dec>, i: nat, end: int): seq<Dec>
    decreases |ds| - i
  {
    if i >= |ds| then []
    else (if ds[i].pos != PosAt(ds, i + 1, end) then [ds[i]] else []) + NonEmpty(ds, i + 1, end)
  }

  // The first of the decorations i.. that has another style.
  ghost function NextStyle(ds: seq<Dec>, i: nat, style: string): (j: nat)
    ensures i <= j && (i <= |ds| ==> j <= |ds|)
    ensures forall k | i <= k < j && k < |ds| :: ds[k].style == style
    ensures j < |ds| ==> ds[j].style != style
    decreases |ds| - i
  {
    if i < |ds| && ds[i].style == style then NextStyle(ds, i + 1, style) else i
  }

  // The decorations i.. with equal neighbours as one.
  ghost function Merged(ds: seq<Dec>, i: nat): seq<Dec>
    decreases |ds| - i
  {
    if i >= |ds| then [] else [ds[i]] + Merged(ds, NextStyle(ds, i + 1, ds[i].style))
  }

  /** The two compaction loops over the first g entries of d, where d[g] holds the length of the source.
      What is left are the first r entries. */
  method Compact(d: array<Entry>, ghost ds: seq<Dec>, end: int) returns (r: nat)
    requires d.Length == 2 * |ds| + 1 && d[..2 * |ds|] == Flat(ds) && d[2 * |ds|] == At(end)
    modifies d
    ensures r <= 2 * |ds| && d[..r] == Flat(Merged(NonEmpty(ds, 0, end), 0))
  {
    r := DropEmpty(d, ds, end);
    r := MergeEqual(d, r, NonEmpty(ds, 0, end));
  }

  lemma {:induction false} FlatAt(ds: seq<Dec>, k: nat)
    requires k < |ds|
    ensures Flat(ds)[2 * k] == At(ds[k].pos) && Flat(ds)[2 * k + 1] == Class(ds[k].style)
  {
    var front := ds[..|ds| - 1];
    if k < |front| { FlatAt(front, k); }
  }

  lemma FlatSnoc(ds: seq<Dec>, x: Dec)
    ensures Flat(ds + [x]) == Flat(ds) + [At(x.pos), Class(x.style)]
  {
    assert (ds + [x])[..|ds|] == ds;
  }

  // Writes two entries, which end a decoration list that is written so far up to r.
  method Write(d: array<Entry>, r: nat, z: Entry, f: Entry, ghost out: seq<Dec>, ghost x: Dec)
    requires r + 2 <= d.Length && d[..r] == Flat(out) && z == At(x.pos) && f == Class(x.style)
    modifies d
    ensures d[..r + 2] == Flat(out + [x])
    ensures forall m | r + 2 <= m < d.Length :: d[m] == old(d[m])
  {
    hide Flat;
    FlatSnoc(out, x);
    d[r] := z;
    d[r + 1] := f;
    assert d[..r + 2] == d[..r] + [z, f];
  }

  method DropEmpty(d: array<Entry>, ghost ds: seq<Dec>, end: int) returns (r: nat)
    requires d.Length == 2 * |ds| + 1 && d[..2 * |ds|] == Flat(ds) && d[2 * |ds|] == At(end)
    modifies d
    ensures r <= 2 * |ds| && d[..r] == Flat(NonEmpty(ds, 0, end))
  {
    hide Flat, NonEmpty;
    var g, n := d.Length - 1, 0;
    r := 0;
    ghost var before, out, k := d[..], [], 0;
    NoneLeft(ds, end);
    assert out + NonEmpty(ds, 0, end) == NonEmpty(ds, 0, end);
    while n < g
      invariant 0 <= r <= n <= g && n == 2 * k
      invariant forall m | n <= m <= g :: d[m] == before[m]
      invariant d[..r] == Flat(out) && out + NonEmpty(ds, k, end) == NonEmpty(ds, 0, end)
    {
      ReadEntries(before, Flat(ds), ds, k, end);
      NonEmptyNext(out, ds, k, end);
      if d[n] != d[n + 2] {
        Write(d, r, d[n], d[n + 1], out, ds[k]);
        out := out + [ds[k]];
        r, n := r + 2, n + 2;
      } else {
        n := n + 2;
      }
      k := k + 1;
    }
    assert out + [] == out;
  }

  lemma NoneLeft(ds: seq<Dec>, end: int)
    ensures Flat([]) == [] && NonEmpty(ds, |ds|, end) == []
  {
  }

  lemma NonEmptyNext(out: seq<Dec>, ds: seq<Dec>, k: nat, end: int)
    requires k < |ds|
    ensures out + NonEmpty(ds, k, end) ==
      (if ds[k].pos != PosAt(ds, k + 1, end) then out + [ds[k]] else out) + NonEmpty(ds, k + 1, end)
  {
  }

  // The entries of decoration k, and the position behind it.
  lemma ReadEntries(before: seq<Entry>, f: seq<Entry>, ds: seq<Dec>, k: nat, end: int)
    requires k < |ds| && f == Flat(ds) && |before| == |f| + 1 && before[..|f|] == f && before[|f|] == At(end)
    ensures before[2 * k] == At(ds[k].pos) && before[2 * k + 1] == Class(ds[k].style)
    ensures before[2 * k + 2] == At(PosAt(ds, k + 1, end))
  {
    hide Flat, PosAt;
    ReadEntry(before, f, ds, k);
    PosIs(ds, k + 1, end);
    if k + 1 < |ds| {
      NextEntry(before, f, ds, k);
    } else {
      LastEntry(before, 2 * k + 2, |f|, end);
    }
  }

  lemma ReadEntry(before: seq<Entry>, f: seq<Entry>, ds: seq<Dec>, k: nat)
    requires k < |ds| && f == Flat(ds) && |f| <= |before| && before[..|f|] == f
    ensures before[2 * k] == At(ds[k].pos) && before[2 * k + 1] == Class(ds[k].style)
  {
    hide Flat;
    FlatAt(ds, k);
    InPrefix(before, f, 2 * k);
    InPrefix(before, f, 2 * k + 1);
  }

  lemma PosIs(ds: seq<Dec>, i: nat, end: int)
    ensures i < |ds| ==> PosAt(ds, i, end) == ds[i].pos
    ensures i >= |ds| ==> PosAt(ds, i, end) == end
  {
  }

  lemma LastEntry(before: seq<Entry>, i: nat, n: nat, end: int)
    requires i == n < |before| && before[n] == At(end)
    ensures before[i] == At(end)
  {
  }

  lemma NextEntry(before: seq<Entry>, f: seq<Entry>, ds: seq<Dec>, k: nat)
    requires k + 1 < |ds| && f == Flat(ds) && |f| <= |before| && before[..|f|] == f
    ensures before[2 * k + 2] == At(ds[k + 1].pos)
  {
    ReadEntry(before, f, ds, k + 1);
  }

  lemma InPrefix<T>(s: seq<T>, front: seq<T>, i: nat)
    requires i < |front| <= |s| && s[..|front|] == front
    ensures s[i] == front[i]
  {
  }

  method MergeEqual(d: array<Entry>, g: nat, ghost ds: seq<Dec>) returns (r: nat)
    requires g == 2 * |ds| <= d.Length && d[..g] == Flat(ds)
    modifies d
    ensures r <= g && d[..r] == Flat(Merged(ds, 0))
  {
    hide Flat, Merged, NextStyle;
    var n := 0;
    r := 0;
    ghost var before, out, k := d[..g], [], 0;
    NoneMerged(ds);
    assert out + Merged(ds, 0) == Merged(ds, 0);
    while n < g
      invariant 0 <= r <= n <= g && n == 2 * k
      invariant forall m | n <= m < g :: d[m] == before[m]
      invariant d[..r] == Flat(out) && out + Merged(ds, k) == Merged(ds, 0)
    {
      FlatAt(ds, k);
      var z, f, b := d[n], d[n + 1], n + 2;
      ghost var l := k + 1;
      while b + 2 <= g && d[b + 1] == f
        modifies {}
        invariant b == 2 * l && k < l <= |ds|
        invariant NextStyle(ds, l, ds[k].style) == NextStyle(ds, k + 1, ds[k].style)
        decreases g - b
      {
        FlatAt(ds, l);
        assert d[b + 1] == before[2 * l + 1];
        NextOne(ds, l, ds[k].style);
        b, l := b + 2, l + 1;
      }
      if l < |ds| {
        FlatAt(ds, l);
        assert d[b + 1] == before[2 * l + 1];
      }
      NextOne(ds, l, ds[k].style);
      MergedNext(out, ds, k);
      Write(d, r, z, f, out, ds[k]);
      out := out + [ds[k]];
      r, n, k := r + 2, b, l;
    }
    assert out + [] == out;
  }

  lemma NoneMerged(ds: seq<Dec>)
    ensures Flat([]) == [] && Merged(ds, |ds|) == []
  {
  }

  lemma NextOne(ds: seq<Dec>, l: nat, style: string)
    ensures NextStyle(ds, l, style) == if l < |ds| && ds[l].style == style then NextStyle(ds, l + 1, style) else l
  {
  }

  lemma MergedNext(out: seq<Dec>, ds: seq<Dec>, k: nat)
    requires k < |ds|
    ensures out + Merged(ds, k) == out + [ds[k]] + Merged(ds, NextStyle(ds, k + 1, ds[k].style))
  {
  }

  lemma {:induction false} StyleConcat(a: seq<Dec>, b: seq<Dec>, c: int)
    ensures StyleOf(a + b, c) == if StyleOf(b, c).Some? then StyleOf(b, c) else StyleOf(a, c)
  {
    if b == [] {
      assert a + b == a;
    } else {
      var front, last := b[..|b| - 1], b[|b| - 1];
      assert (a + b)[..|a + b| - 1] == a + front;
      StyleConcat(a, front, c);
    }
  }

  lemma {:induction false} StyleSome(ds: seq<Dec>, i: nat, c: int)
    requires i < |ds| && ds[i].pos <= c
    ensures StyleOf(ds, c).Some?
  {
    if i < |ds| - 1 { StyleSome(ds[..|ds| - 1], i, c); }
  }

  lemma StyleCons(x: Dec, ds: seq<Dec>, c: int)
    ensures StyleOf([x] + ds, c) ==
      if StyleOf(ds, c).Some? then StyleOf(ds, c) else if x.pos <= c then Some(x.style) else None
  {
    StyleConcat([x], ds, c);
    assert StyleOf([x], c) == if x.pos <= c then Some(x.style) else None;
  }

  // Decorations that style nothing do not count.
  lemma {:induction false} NonEmptyStyles(ds: seq<Dec>, i: nat, end: int, c: int)
    requires i <= |ds| && c < end
    ensures StyleOf(NonEmpty(ds, i, end), c) == StyleOf(ds[i..], c)
    decreases |ds| - i
  {
    if i == |ds| {
      assert ds[i..] == [];
    } else {
      hide StyleOf;
      NonEmptyStyles(ds, i + 1, end, c);
      DropCons(ds, i);
      StyleCons(ds[i], ds[i + 1..], c);
      StyleCons(ds[i], NonEmpty(ds, i + 1, end), c);
      if ds[i].pos <= c && i + 1 < |ds| && ds[i + 1].pos <= c { StyleSome(ds[i + 1..], 0, c); }
      assert [] + NonEmpty(ds, i + 1, end) == NonEmpty(ds, i + 1, end);
    }
  }

  // What is left starts at different places, in order, before the end.
  ghost predicate Rising(ds: seq<Dec>, from: int, end: int) {
    && (forall i | 0 <= i < |ds| :: from <= ds[i].pos < end)
    && (forall i, j | 0 <= i < j < |ds| :: ds[i].pos < ds[j].pos)
  }

  lemma {:induction false} NonEmptyRises(ds: seq<Dec>, i: nat, end: int)
    requires i <= |ds| && Sorted(ds, end)
    ensures Rising(NonEmpty(ds, i, end), PosAt(ds, i, end), end) && PosAt(ds, i, end) <= end
    decreases |ds| - i
  {
    hide Rising;
    if i == |ds| {
      NoneRise(end);
    } else {
      NonEmptyRises(ds, i + 1, end);
      var next, rest := PosAt(ds, i + 1, end), NonEmpty(ds, i + 1, end);
      assert ds[i].pos <= next;
      OneRises(ds[i], rest, next, end);
      assert [] + rest == rest;
    }
  }

  lemma NoneRise(end: int)
    ensures Rising([], end, end)
  {
  }

  lemma OneRises(x: Dec, ds: seq<Dec>, next: int, end: int)
    requires Rising(ds, next, end) && x.pos <= next <= end
    ensures Rising(ds, x.pos, end) && (x.pos < next ==> Rising([x] + ds, x.pos, end))
  {
  }

  // All of them have the same style.
  lemma {:induction false} StyleSame(ds: seq<Dec>, style: string, from: int, end: int, c: int)
    requires ds != [] && Rising(ds, from, end) && forall k | 0 <= k < |ds| :: ds[k].style == style
    ensures StyleOf(ds, c) == if ds[0].pos <= c then Some(style) else None
  {
    if |ds| > 1 {
      StyleSame(ds[..|ds| - 1], style, from, end, c);
    }
  }

  // Merging neighbours of the same style changes no style.
  lemma {:induction false} MergedStyles(ds: seq<Dec>, i: nat, from: int, end: int, c: int)
    requires i <= |ds| && Rising(ds, from, end)
    ensures StyleOf(Merged(ds, i), c) == StyleOf(ds[i..], c)
    decreases |ds| - i
  {
    hide StyleOf;
    if i < |ds| {
      var j := NextStyle(ds, i + 1, ds[i].style);
      MergedStyles(ds, j, from, end, c);
      assert ds[i..] == ds[i..j] + ds[j..];
      StyleConcat(ds[i..j], ds[j..], c);
      StyleSame(ds[i..j], ds[i].style, from, end, c);
      StyleCons(ds[i], Merged(ds, j), c);
    }
  }

  // Neighbours have different styles.
  lemma {:induction false} MergedDiffer(ds: seq<Dec>, i: nat)
    requires i <= |ds|
    ensures var m := Merged(ds, i);
      && (forall k | 0 < k < |m| :: m[k - 1].style != m[k].style)
      && (i < |ds| ==> m != [] && m[0] == ds[i])
    decreases |ds| - i
  {
    if i < |ds| { MergedDiffer(ds, NextStyle(ds, i + 1, ds[i].style)); }
  }

  /** However many empty decorations and equal neighbours there are, compacting keeps the style of every
      character, and leaves no empty decoration and no equal neighbours. */
  lemma CompactKeepsStyles(ds: seq<Dec>, end: int, c: int)
    requires Sorted(ds, end) && c < end
    ensures var out := Merged(NonEmpty(ds, 0, end), 0);
      && StyleOf(out, c) == StyleOf(ds, c)
      && (forall k | 0 < k < |out| :: out[k - 1].style != out[k].style)
  {
    var some := NonEmpty(ds, 0, end);
    NonEmptyStyles(ds, 0, end, c);
    NonEmptyRises(ds, 0, end);
    MergedStyles(some, 0, PosAt(ds, 0, end), end, c);
    MergedDiffer(some, 0);
    assert ds[0..] == ds && some[0..] == some;
  }
}
