// Searching the text of a document for a string without line breaks.
module Searching {
  import opened Prelude

  datatype Point = Point(line: int, ch: int)

  predicate Le(p: Point, q: Point) {
    p.line < q.line || (p.line == q.line && p.ch <= q.ch)
  }

  // The query stands in a string at a place.
  predicate Stands(s: string, query: string, k: int) {
    0 <= k && k + |query| <= |s| && s[k..k + |query|] == query
  }

  ghost predicate Occurs(lines: seq<string>, query: string, p: Point) {
    0 <= p.line < |lines| && Stands(lines[p.line], query, p.ch)
  }

  function End(query: string, p: Point): Point {
    Point(p.line, p.ch + |query|)
  }

  function ClipPos(lines: seq<string>, pos: Point): (p: Point)
    requires |lines| >= 1
    ensures 0 <= p.line < |lines| && 0 <= p.ch <= |lines[p.line]|
  {
    if pos.line < 0 then Point(0, 0)
    else if pos.line >= |lines| then Point(|lines| - 1, |lines[|lines| - 1]|)
    else if pos.ch > |lines[pos.line]| then Point(pos.line, |lines[pos.line]|)
    else if pos.ch < 0 then Point(pos.line, 0)
    else pos
  }

  ghost predicate InLines(lines: seq<string>, p: Point) {
    0 <= p.line < |lines| && 0 <= p.ch <= |lines[p.line]|
  }

  /** Clipping leaves a position of the text alone. A point on one of its lines stays on that line, as near as it can
      get, and one in front of the first line or behind the last goes to the first position of all, or to the last. */
  lemma ClipNearest(lines: seq<string>, pos: Point)
    requires |lines| >= 1
    ensures InLines(lines, ClipPos(lines, pos)) && (InLines(lines, pos) ==> ClipPos(lines, pos) == pos)
    ensures 0 <= pos.line < |lines| ==>
      var p := ClipPos(lines, pos);
      p.line == pos.line && p.ch == if pos.ch < 0 then 0 else if pos.ch > |lines[pos.line]| then |lines[pos.line]|
        else pos.ch
    ensures forall q | InLines(lines, q) ::
      (pos.line < 0 ==> Le(ClipPos(lines, pos), q)) && (pos.line >= |lines| ==> Le(q, ClipPos(lines, pos)))
  {
  }

  // The first place at or behind from, or -1.
  function IndexOf(s: string, query: string, from: nat): (i: int)
    ensures i == -1 || (from <= i && Stands(s, query, i))
    ensures forall k | from <= k && (i == -1 || k < i) :: !Stands(s, query, k)
    decreases |s| + 1 - from
  {
    if from > |s| then -1
    else if Stands(s, query, from) then from
    else IndexOf(s, query, from + 1)
  }

  // The last place at or before from, or -1.
  function LastIndexOf(s: string, query: string, from: nat): (i: int)
    ensures i == -1 || (0 <= i <= from && Stands(s, query, i))
    ensures forall k | i < k <= from :: !Stands(s, query, k)
  {
    if Stands(s, query, from) then from
    else if from == 0 then -1
    else LastIndexOf(s, query, from - 1)
  }

  // An occurrence at or behind p, with none before it there.
  ghost predicate FirstFrom(lines: seq<string>, query: string, p: Point, m: Point) {
    Occurs(lines, query, m) && Le(p, m) && forall k | Occurs(lines, query, k) && Le(p, k) :: Le(m, k)
  }

  // An occurrence that ends at or before p, with none behind it there.
  ghost predicate LastUpTo(lines: seq<string>, query: string, p: Point, m: Point) {
    && Occurs(lines, query, m) && Le(End(query, m), p)
    && forall k | Occurs(lines, query, k) && Le(End(query, k), p) :: Le(k, m)
  }

  ghost predicate NoneFrom(lines: seq<string>, query: string, p: Point) {
    forall k | Occurs(lines, query, k) :: !Le(p, k)
  }

  ghost predicate NoneUpTo(lines: seq<string>, query: string, p: Point) {
    forall k | Occurs(lines, query, k) :: !Le(End(query, k), p)
  }

  class SearchCursor {
    const query: string
    var from: Point
    var to: Point
    var atOccurrence: bool

    constructor (lines: seq<string>, query: string, pos: Option<Point>)
      requires |lines| >= 1
      ensures this.query == query && !atOccurrence && from == to == if pos.Some? then ClipPos(lines, pos.value)
        else Point(0, 0)
    {
      this.query := query;
      var p := if pos.Some? then ClipPos(lines, pos.value) else Point(0, 0);
      from, to, atOccurrence := p, p, false;
    }

    // The first or the last occurrence on the line of pos, seen from there.
    method Matches(lines: seq<string>, reverse: bool, pos: Point) returns (match_: Option<Point>)
      requires |lines| >= 1 && pos == ClipPos(lines, pos)
      ensures match_.Some? ==> match_.value.line == pos.line
      ensures !reverse && match_.Some? ==> FirstFrom(lines, query, pos, match_.value)
      ensures reverse && match_.Some? ==> LastUpTo(lines, query, pos, match_.value)
      ensures !reverse && match_.None? ==> forall k | Occurs(lines, query, k) && Le(pos, k) :: k.line > pos.line
      ensures reverse && match_.None? ==>
          forall k | Occurs(lines, query, k) && Le(End(query, k), pos) :: k.line < pos.line
    {
      var line := lines[pos.line];
      var found := -1;
      if reverse {
        if pos.ch >= |query| { found := LastIndexOf(line, query, pos.ch - |query|); }
      } else {
        found := IndexOf(line, query, pos.ch);
      }
      match_ := if found != -1 then Some(Point(pos.line, found)) else None;
    }

    /** Goes to the next occurrence, or with reverse to the one before; the result says whether there is one. */
    method Find(lines: seq<string>, reverse: bool) returns (found: bool)
      requires |lines| >= 1
      modifies this
      ensures found == atOccurrence
      ensures found ==> to == End(query, from)
      ensures !reverse ==> var start := ClipPos(lines, old(to));
        if found then FirstFrom(lines, query, start, from)
        else NoneFrom(lines, query, start) && from == to == Point(|lines|, 0)
      ensures reverse ==> var start := ClipPos(lines, old(from));
        if found then LastUpTo(lines, query, start, from)
        else NoneUpTo(lines, query, start) && from == to == Point(0, 0)
      ensures found ==>
        && 0 <= from.line == to.line < |lines| && 0 <= from.ch <= to.ch <= |lines[from.line]|
        && lines[from.line][from.ch..to.ch] == query
      ensures forall l, c, d | 0 <= l < |lines| && 0 <= c <= d <= |lines[l]| && lines[l][c..d] == query ::
        var start := ClipPos(lines, if reverse then old(from) else old(to));
        && (!reverse && (start.line < l || (start.line == l && start.ch <= c)) ==>
              found && (from.line < l || (from.line == l && from.ch <= c)))
        && (reverse && (l < start.line || (l == start.line && d <= start.ch)) ==>
              found && (l < from.line || (l == from.line && c <= from.ch)))
    {
      var pos := ClipPos(lines, if reverse then from else to);
      ghost var start := pos;
      while true
        invariant pos == ClipPos(lines, pos)
        invariant !reverse ==> Le(start, pos) && forall k | Occurs(lines, query, k) && Le(start, k) :: Le(pos, k)
        invariant reverse ==>
            Le(pos, start) && forall k | Occurs(lines, query, k) && Le(End(query, k), start) :: Le(End(query, k), pos)
        decreases if reverse then pos.line else |lines| - pos.line
      {
        var match_ := Matches(lines, reverse, pos);
        if match_.Some? {
          from, to, atOccurrence := match_.value, End(query, match_.value), true;
          NoOther(lines, query, reverse, start, true, from);
          return true;
        }
        if reverse {
          if pos.line == 0 {
            from, to, atOccurrence := Point(0, 0), Point(0, 0), false;
            NoOther(lines, query, reverse, start, false, from);
            return false;
          }
          pos := Point(pos.line - 1, |lines[pos.line - 1]|);
        } else {
          if pos.line == |lines| - 1 {
            from, to, atOccurrence := Point(|lines|, 0), Point(|lines|, 0), false;
            NoOther(lines, query, reverse, start, false, from);
            return false;
          }
          pos := Point(pos.line + 1, 0);
        }
      }
    }

    /** Going on with findNext lists the occurrences from the left, each one the first behind the one before,
        until there are none, and stops. */
    method FindAll(lines: seq<string>) returns (all: seq<Point>)
      requires |lines| >= 1 && query != ""
      modifies this
      ensures Greedy(lines, query, ClipPos(lines, old(to)), all)
      ensures !atOccurrence
    {
      hide Occurs, FirstFrom, NoneFrom, Chain, ClipPos;
      all := [];
      ghost var start := ClipPos(lines, to);
      NoChain(lines, query, start);
      var found := Find(lines, false);
      while found
        invariant found == atOccurrence && (found ==> to == End(query, from))
        invariant if found then FirstFrom(lines, query, Behind(query, start, all), from)
                  else NoneFrom(lines, query, Behind(query, start, all))
        invariant Chain(lines, query, start, all)
        decreases found, if found then Left(lines, from) else 0
      {
        ChainSnoc(lines, query, start, all, from);
        GoesOn(lines, query, Behind(query, start, all), from);
        ghost var last := from;
        OccursHere(lines, query, Behind(query, start, all), from);
        all := all + [from];
        found := Find(lines, false);
        if found { Fewer(lines, query, End(query, last), last, from); }
      }
    }
  }

  // What has been found, or not, in the characters of the lines.
  lemma NoOther(lines: seq<string>, query: string, reverse: bool, start: Point, found: bool, from: Point)
    requires !reverse ==> if found then FirstFrom(lines, query, start, from) else NoneFrom(lines, query, start)
    requires reverse ==> if found then LastUpTo(lines, query, start, from) else NoneUpTo(lines, query, start)
    ensures forall l, c, d | 0 <= l < |lines| && 0 <= c <= d <= |lines[l]| && lines[l][c..d] == query ::
      && (!reverse && (start.line < l || (start.line == l && start.ch <= c)) ==>
            found && (from.line < l || (from.line == l && from.ch <= c)))
      && (reverse && (l < start.line || (l == start.line && d <= start.ch)) ==>
            found && (l < from.line || (l == from.line && c <= from.ch)))
  {
    forall l, c, d | 0 <= l < |lines| && 0 <= c <= d <= |lines[l]| && lines[l][c..d] == query
      ensures !reverse && (start.line < l || (start.line == l && start.ch <= c)) ==>
        found && (from.line < l || (from.line == l && from.ch <= c))
      ensures reverse && (l < start.line || (l == start.line && d <= start.ch)) ==>
        found && (l < from.line || (l == from.line && c <= from.ch))
    {
      assert d == c + |query| && Occurs(lines, query, Point(l, c));
    }
  }

  // Where the search goes on after some occurrences.
  function Behind(query: string, start: Point, all: seq<Point>): Point {
    if all == [] then start else End(query, all[|all| - 1])
  }

  ghost predicate Chain(lines: seq<string>, query: string, start: Point, all: seq<Point>) {
    forall i | 0 <= i < |all| :: FirstFrom(lines, query, Behind(query, start, all[..i]), all[i])
  }

  ghost predicate Greedy(lines: seq<string>, query: string, start: Point, all: seq<Point>) {
    Chain(lines, query, start, all) && NoneFrom(lines, query, Behind(query, start, all))
  }

  lemma NoChain(lines: seq<string>, query: string, start: Point)
    ensures Chain(lines, query, start, []) && Behind(query, start, []) == start
  {
  }

  lemma ChainSnoc(lines: seq<string>, query: string, start: Point, all: seq<Point>, next: Point)
    requires Chain(lines, query, start, all) && FirstFrom(lines, query, Behind(query, start, all), next)
    ensures Chain(lines, query, start, all + [next]) && Behind(query, start, all + [next]) == End(query, next)
  {
    hide FirstFrom;
    var more := all + [next];
    forall i | 0 <= i < |more| ensures FirstFrom(lines, query, Behind(query, start, more[..i]), more[i]) {
      if i < |all| { assert more[..i] == all[..i]; } else { assert more[..i] == all; }
    }
  }

  lemma OccursHere(lines: seq<string>, query: string, p: Point, m: Point)
    requires FirstFrom(lines, query, p, m)
    ensures Occurs(lines, query, m)
  {
  }

  // The end of an occurrence is a place in the document.
  lemma GoesOn(lines: seq<string>, query: string, p: Point, m: Point)
    requires |lines| >= 1 && FirstFrom(lines, query, p, m)
    ensures ClipPos(lines, End(query, m)) == End(query, m)
  {
  }

  // The number of places at or behind a point.
  ghost function Left(lines: seq<string>, p: Point): nat {
    if 0 <= p.line < |lines| then
      (if 0 <= p.ch <= |lines[p.line]| then |lines[p.line]| - p.ch else 0) + Places(lines[p.line + 1..])
    else 0
  }

  ghost function Places(lines: seq<string>): nat {
    if lines == [] then 0 else |lines[0]| + 1 + Places(lines[1..])
  }

  lemma {:induction false} PlacesDrop(lines: seq<string>, k: nat)
    requires k < |lines|
    ensures Places(lines) >= |lines[k]| + 1 + Places(lines[k + 1..])
  {
    if k > 0 {
      PlacesDrop(lines[1..], k - 1);
      assert lines[1..][k..] == lines[k + 1..];
    }
  }

  // The next occurrence lies further on.
  lemma Fewer(lines: seq<string>, query: string, p: Point, last: Point, next: Point)
    requires query != "" && p == End(query, last) && Occurs(lines, query, last) && FirstFrom(lines, query, p, next)
    ensures Left(lines, next) < Left(lines, last)
  {
    if next.line > last.line {
      var rest := lines[last.line + 1..];
      PlacesDrop(rest, next.line - last.line - 1);
      assert rest[next.line - last.line..] == lines[next.line + 1..];
    }
  }
}
