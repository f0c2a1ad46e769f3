// Editing the text of a document: positions, and what a replacement means.
module TextSplice {

  datatype Pos = Pos(line: nat, ch: nat)

  ghost predicate InText(texts: seq<string>, p: Pos) {
    p.line < |texts| && p.ch <= |texts[p.line]|
  }

  ghost predicate InOrder(p: Pos, q: Pos) {
    p.line < q.line || (p.line == q.line && p.ch <= q.ch)
  }

  ghost predicate IsRange(texts: seq<string>, from: Pos, to: Pos) {
    InText(texts, from) && InText(texts, to) && InOrder(from, to)
  }

  // The lines that a replacement leaves where it took place.
  ghost function Middle(texts: seq<string>, from: Pos, to: Pos, new_: seq<string>): (mid: seq<string>)
    requires IsRange(texts, from, to) && |new_| >= 1
    ensures |mid| == |new_|
  {
    var head, tail, n := texts[from.line][..from.ch], texts[to.line][to.ch..], |new_|;
    if n == 1 then [head + new_[0] + tail]
    else [head + new_[0]] + new_[1..n - 1] + [new_[n - 1] + tail]
  }

  // Replaces the characters between from and to by new_.
  ghost function Replaced(texts: seq<string>, from: Pos, to: Pos, new_: seq<string>): seq<string>
    requires IsRange(texts, from, to) && |new_| >= 1
  {
    texts[..from.line] + Middle(texts, from, to, new_) + texts[to.line + 1..]
  }

  // The text as one string.
  ghost function Join(texts: seq<string>): string {
    if |texts| == 0 then ""
    else if |texts| == 1 then texts[0]
    else texts[0] + "\n" + Join(texts[1..])
  }

  // Where a position lies in that string.
  ghost function Offset(texts: seq<string>, p: Pos): nat
    requires InText(texts, p)
  {
    if p.line == 0 then p.ch else |texts[0]| + 1 + Offset(texts[1..], Pos(p.line - 1, p.ch))
  }

  // One line after another, the last line of a going on with the first of b.
  ghost function Glue(a: seq<string>, b: seq<string>): seq<string>
    requires |a| >= 1 && |b| >= 1
  {
    a[..|a| - 1] + [a[|a| - 1] + b[0]] + b[1..]
  }

  lemma {:induction false} JoinGlue(a: seq<string>, b: seq<string>)
    requires |a| >= 1 && |b| >= 1
    ensures Join(Glue(a, b)) == Join(a) + Join(b)
  {
    if |a| == 1 {
      var g := Glue(a, b);
      assert g[0] == a[0] + b[0] && g[1..] == b[1..];
      assert b == [b[0]] + b[1..];
    } else {
      JoinGlue(a[1..], b);
      assert Glue(a, b)[1..] == Glue(a[1..], b);
    }
  }

  // The text before and behind a position.
  ghost function Before(texts: seq<string>, p: Pos): (r: seq<string>)
    requires InText(texts, p)
    ensures |r| >= 1
  {
    texts[..p.line] + [texts[p.line][..p.ch]]
  }

  ghost function Behind(texts: seq<string>, p: Pos): (r: seq<string>)
    requires InText(texts, p)
    ensures |r| >= 1
  {
    [texts[p.line][p.ch..]] + texts[p.line + 1..]
  }

  lemma {:induction false} JoinCut(texts: seq<string>, p: Pos)
    requires InText(texts, p)
    ensures Offset(texts, p) <= |Join(texts)|
    ensures Join(Before(texts, p)) == Join(texts)[..Offset(texts, p)]
    ensures Join(Behind(texts, p)) == Join(texts)[Offset(texts, p)..]
  {
    if p.line == 0 {
      CutFirst(texts, p);
    } else {
      hide Join, Before, Behind;
      var q := Pos(p.line - 1, p.ch);
      JoinCut(texts[1..], q);
      CutRest(texts, p);
      JoinCons(texts[0], texts[1..]);
      JoinCons(texts[0], Before(texts[1..], q));
      CutBehind(texts[0] + "\n", Join(texts[1..]), Offset(texts[1..], q));
      assert texts == [texts[0]] + texts[1..];
    }
  }

  lemma JoinCons(x: string, texts: seq<string>)
    requires texts != []
    ensures Join([x] + texts) == x + "\n" + Join(texts)
  {
    assert ([x] + texts)[1..] == texts;
  }

  lemma CutBehind(a: string, b: string, n: nat)
    requires n <= |b|
    ensures (a + b)[..|a| + n] == a + b[..n] && (a + b)[|a| + n..] == b[n..]
  {
  }

  lemma CutRest(texts: seq<string>, p: Pos)
    requires InText(texts, p) && p.line > 0
    ensures var q := Pos(p.line - 1, p.ch);
      InText(texts[1..], q) && Before(texts, p) == [texts[0]] + Before(texts[1..], q) &&
        Behind(texts, p) == Behind(texts[1..], q)
  {
  }

  lemma CutFirst(texts: seq<string>, p: Pos)
    requires InText(texts, p) && p.line == 0
    ensures p.ch <= |Join(texts)|
    ensures Join(Before(texts, p)) == Join(texts)[..p.ch]
    ensures Join(Behind(texts, p)) == Join(texts)[p.ch..]
  {
    assert Before(texts, p) == [texts[0][..p.ch]];
    if |texts| > 1 {
      assert Behind(texts, p)[1..] == texts[1..];
      CutFront(texts[0], "\n" + Join(texts[1..]), p.ch);
    }
  }

  lemma CutFront(a: string, b: string, n: nat)
    requires n <= |a|
    ensures (a + b)[..n] == a[..n] && (a + b)[n..] == a[n..] + b
  {
  }

  // Replaced is the splice of the characters of the text.
  lemma JoinReplaced(texts: seq<string>, from: Pos, to: Pos, new_: seq<string>)
    requires IsRange(texts, from, to) && |new_| >= 1
    ensures var s, f, t := Join(texts), Offset(texts, from), Offset(texts, to);
      f <= t <= |s| && Join(Replaced(texts, from, to, new_)) == s[..f] + Join(new_) + s[t..]
  {
    hide Join, Offset, Replaced, Middle;
    JoinCut(texts, from);
    JoinCut(texts, to);
    OffsetMonotone(texts, from, to);
    var a, z := Before(texts, from), Behind(texts, to);
    JoinGlue(a, new_);
    JoinGlue(Glue(a, new_), z);
    ReplacedGlue(texts, from, to, new_);
  }

  lemma ReplacedGlue(texts: seq<string>, from: Pos, to: Pos, new_: seq<string>)
    requires IsRange(texts, from, to) && |new_| >= 1
    ensures Replaced(texts, from, to, new_) == Glue(Glue(Before(texts, from), new_), Behind(texts, to))
  {
    var g := Glue(Before(texts, from), new_);
    var mid := Middle(texts, from, to, new_);
    assert g[..|g| - 1] + [g[|g| - 1] + texts[to.line][to.ch..]] == texts[..from.line] + mid;
  }

  lemma {:induction false} OffsetMonotone(texts: seq<string>, p: Pos, q: Pos)
    requires IsRange(texts, p, q)
    ensures Offset(texts, p) <= Offset(texts, q)
  {
    if p.line > 0 {
      OffsetMonotone(texts[1..], Pos(p.line - 1, p.ch), Pos(q.line - 1, q.ch));
    }
  }
}
