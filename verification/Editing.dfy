// The four ways in which the editor adjusts the lines of a document to a replacement of text.
module Editing {
  import opened Prelude
  import opened Styles
  import opened LineTree
  import opened Document
  import opened TextSplice

  // The text of lines.
  ghost function Texts(items: seq<Item>): (texts: seq<string>)
    reads (set it | it in items :: it.line)`text
    ensures |texts| == |items| && forall i | 0 <= i < |items| :: texts[i] == items[i].line.text
  {
    if items == [] then [] else Texts(items[..|items| - 1]) + [items[|items| - 1].line.text]
  }

  ghost predicate AllSpelled(items: seq<Item>)
    reads (set it | it in items :: it.line)`text, (set it | it in items :: it.line)`styles
  {
    forall i | 0 <= i < |items| :: items[i].line.Spelled()
  }

  // Lines nothing knows yet, one for each text.
  method NewLines(texts: seq<string>) returns (lines: seq<Line>, ghost items: seq<Item>)
    ensures |lines| == |texts| && Detached(lines, items) && Distinct(items)
    ensures forall i | 0 <= i < |lines| ::
        fresh(lines[i]) && lines[i].text == texts[i] && lines[i].Spelled() && lines[i].height == 1
  {
    lines, items := [], [];
    for i := 0 to |texts|
      invariant |lines| == i && Detached(lines, items) && Distinct(items)
      invariant forall k | 0 <= k < i ::
          fresh(lines[k]) && lines[k].text == texts[k] && lines[k].Spelled() && lines[k].height == 1
    {
      var line := new Line(texts[i]);
      assert forall k | 0 <= k < i :: items[k].line == lines[k] && lines[k] != line;
      lines, items := lines + [line], items + [Item(line, 1)];
    }
  }

  lemma DistinctSplice(items: seq<Item>, at: nat, n: nat, ins: seq<Item>)
    requires at + n <= |items| && Distinct(items) && Distinct(ins)
    requires forall i, k | 0 <= i < |items| && 0 <= k < |ins| :: items[i].line != ins[k].line
    ensures Distinct(Splice(items, at, n, ins))
  {
    hide Distinct;
    var s := Splice(items, at, n, ins);
    forall i, j | 0 <= i < j < |s| ensures s[i].line != s[j].line {
      if at <= i && j < at + |ins| {
        Apart(ins, i - at, j - at);
      } else if !(at <= i < at + |ins|) && !(at <= j < at + |ins|) {
        Apart(items, if i < at then i else i - |ins| + n, if j < at then j else j - |ins| + n);
      } else if at <= i < at + |ins| {
        assert s[i] == ins[i - at];
      } else {
        assert s[j] == ins[j - at];
      }
    }
    DistinctItems(s);
  }

  lemma DistinctItems(items: seq<Item>)
    requires forall i, j | 0 <= i < j < |items| :: items[i].line != items[j].line
    ensures Distinct(items)
  {
  }

  // Takes n lines out and puts others in their place.
  method SpliceLines(doc: Doc, at: nat, n: nat, lines: seq<Line>, ghost items: seq<Item>)
    requires doc.Valid() && at + n <= |doc.Contents()|
    requires Detached(lines, items) && Distinct(items)
    requires forall i, k | 0 <= i < |doc.Contents()| && 0 <= k < |items| :: doc.Contents()[i].line != items[k].line
    modifies doc`tree, Chunks(doc.tree), LineSet(Flat(doc.tree))`parent, (set l | l in lines)`parent
    ensures doc.Valid() && doc.Contents() == Splice(old(doc.Contents()), at, n, items)
    ensures forall i | at <= i < at + n :: old(doc.Contents())[i].line.parent == null
    ensures forall o | o in Chunks(doc.tree) :: o in old(Chunks(doc.tree)) || fresh(o)
  {
    hide At, Bounded, Flat, Chunks, Linked, LineSet, Distinct, Items, FlatL;
    ghost var C, S := doc.Contents(), LineSet(Flat(doc.tree));
    DocFacts(doc);
    SpliceTwice(C, at, n, items);
    DistinctSplice(C, at, n, items);
    if n > 0 { doc.Remove(at, n); }
    if |lines| > 0 {
      DocFacts(doc);
      assert doc.Contents() == Splice(C, at, n, []);
      forall l | l in LineSet(Flat(doc.tree)) ensures l in S {
        var i :| 0 <= i < |doc.Contents()| && doc.Contents()[i].line == l;
        assert doc.Contents()[i] == C[if i < at then i else i + n];
      }
      doc.Insert(at, lines, items);
    }
  }

  // The same, seen from the text.
  method SpliceTexts(doc: Doc, at: nat, n: nat, lines: seq<Line>, ghost items: seq<Item>)
    requires doc.Valid() && AllSpelled(doc.Contents()) && at + n <= |doc.Contents()|
    requires Detached(lines, items) && Distinct(items) && AllSpelled(items)
    requires forall i, k | 0 <= i < |doc.Contents()| && 0 <= k < |items| :: doc.Contents()[i].line != items[k].line
    modifies doc`tree, Chunks(doc.tree), LineSet(Flat(doc.tree))`parent, (set l | l in lines)`parent
    ensures doc.Valid() && doc.Contents() == Splice(old(doc.Contents()), at, n, items)
    ensures AllSpelled(doc.Contents())
    ensures Texts(doc.Contents()) == Splice(old(Texts(doc.Contents())), at, n, old(Texts(items)))
    ensures forall i | at <= i < at + n :: old(doc.Contents())[i].line.parent == null
    ensures forall o | o in Chunks(doc.tree) :: o in old(Chunks(doc.tree)) || fresh(o)
  {
    hide At, Bounded, Flat, Chunks, Linked, LineSet, Distinct, Items, FlatL, Texts, Cells, Doc.Valid;
    ghost var C, T, N := doc.Contents(), Texts(doc.Contents()), Texts(items);
    DocFacts(doc);
    SpliceLines(doc, at, n, lines, items);
    ghost var C', T' := doc.Contents(), Splice(T, at, n, N);
    forall i | 0 <= i < |C'| ensures C'[i].line.Spelled() && C'[i].line.text == T'[i] {
      if at <= i < at + |items| {
        assert C'[i] == items[i - at] && items[i - at].line == lines[i - at];
      } else {
        assert C'[i] == C[if i < at then i else i - |items| + n];
      }
    }
  }

  // Replaces characters of line i.
  method ReplaceInLine(doc: Doc, line: Line, ghost i: nat, from: Option<nat>, to: Option<nat>, new_: string)
    requires doc.Valid() && AllSpelled(doc.Contents()) && i < |doc.Contents()| && doc.Contents()[i].line == line
    requires from.GetOr(0) <= to.GetOr(|line.text|) <= |line.text|
    modifies line`text, line`styles
    ensures doc.Valid() && AllSpelled(doc.Contents())
    ensures var t := old(line.text);
      Texts(doc.Contents()) == old(Texts(doc.Contents()))[i := t[..from.GetOr(0)] + new_ + t[to.GetOr(|t|)..]]
  {
    hide At, Bounded, Flat, Chunks, Linked, LineSet, Distinct, Items, FlatL, Texts, Cells;
    ghost var C := doc.Contents();
    DocFacts(doc);
    forall k | 0 <= k < |C| && k != i ensures C[k].line != line { Apart(C, k, i); }
    line.Replace(from, to, new_);
  }

  // Appends line j to line i.
  method AppendLine(doc: Doc, line: Line, other: Line, ghost i: nat, ghost j: nat)
    requires doc.Valid() && AllSpelled(doc.Contents()) && i < |doc.Contents()| && doc.Contents()[i].line == line
    requires j < |doc.Contents()| && doc.Contents()[j].line == other && i != j
    modifies line`text, line`styles
    ensures doc.Valid() && AllSpelled(doc.Contents())
    ensures Texts(doc.Contents()) == old(Texts(doc.Contents()))[i := old(line.text) + old(other.text)]
  {
    hide At, Bounded, Flat, Chunks, Linked, LineSet, Distinct, Items, FlatL, Texts, Cells;
    ghost var C := doc.Contents();
    DocFacts(doc);
    forall k | 0 <= k < |C| && k != i ensures C[k].line != line { Apart(C, k, i); }
    line.Append(other);
  }

  lemma SpliceTwice<T>(s: seq<T>, at: nat, n: nat, ins: seq<T>)
    requires at + n <= |s|
    ensures Splice(Splice(s, at, n, []), at, 0, ins) == Splice(s, at, n, ins)
    ensures Splice(s, at, 0, ins) == s[..at] + ins + s[at..]
    ensures ins == [] ==> Splice(s, at, 0, ins) == s
  {
  }

  // What an edit leaves behind: the right text, and the right line objects in their places.
  ghost predicate Outcome(doc: Doc, C0: seq<Item>, T0: seq<string>, from: Pos, to: Pos, new_: seq<string>)
    requires IsRange(T0, from, to) && |new_| >= 1 && |C0| == |T0|
    reads doc, Chunks(doc.tree), LineSet(Flat(doc.tree)), (set it | it in C0 :: it.line)`parent
    reads (set it | it in doc.Contents() :: it.line)
  {
    && doc.Valid() && AllSpelled(doc.Contents())
    && Texts(doc.Contents()) == Replaced(T0, from, to, new_)
    && Kept(doc.Contents(), C0, from, to, new_)
  }

  /** Which lines are still there, and where. The lines around the edit are, later ones moved along. Of the edited
      lines, when whole lines give way to whole lines, it is the one behind the range, as the last of the new ones;
      else it is the first, and with line breaks in the new text also the last. New lines have height 1. */
  ghost predicate Kept(C: seq<Item>, C0: seq<Item>, from: Pos, to: Pos, new_: seq<string>)
    requires from.line <= to.line < |C0| && |new_| >= 1
    reads (set it | it in C0 :: it.line)`parent
  {
    var first, last, n := from.line, to.line, |new_|;
    && |C| == |C0| + n - (last - first) - 1
    && (forall i | 0 <= i < first :: C[i] == C0[i])
    && (forall i | last < i < |C0| :: C[i + (n - (last - first) - 1)] == C0[i])
    && if from.ch == 0 && to.ch == 0 && new_[n - 1] == "" then
         && C[first + n - 1] == C0[last] && (forall i | first <= i < last :: C0[i].line.parent == null)
         && (forall k | first <= k < first + n - 1 :: C[k].height == 1)
       else
         && C[first] == C0[first] && (first < last && n >= 2 ==> C[first + n - 1] == C0[last])
         && (forall i | first < i < last :: C0[i].line.parent == null)
         && (first < last && n == 1 ==> C0[last].line.parent == null)
         && (forall k | first < k < first + n && (k < first + n - 1 || first == last) :: C[k].height == 1)
  }

  lemma OutcomeIs(doc: Doc, C0: seq<Item>, T0: seq<string>, from: Pos, to: Pos, new_: seq<string>)
    requires IsRange(T0, from, to) && |new_| >= 1 && |C0| == |T0|
    requires doc.Valid() && AllSpelled(doc.Contents()) && Texts(doc.Contents()) == Replaced(T0, from, to, new_)
    requires Kept(doc.Contents(), C0, from, to, new_)
    ensures Outcome(doc, C0, T0, from, to, new_)
  {
  }

  method FetchLine(doc: Doc, n: nat) returns (line: Line)
    requires doc.Valid() && AllSpelled(doc.Contents()) && n < |doc.Contents()|
    ensures line == doc.Contents()[n].line && line.text == Texts(doc.Contents())[n] && line.Spelled()
    ensures doc.Valid() && AllSpelled(doc.Contents()) && Texts(doc.Contents()) == old(Texts(doc.Contents()))
    ensures forall o | o in Chunks(doc.tree) :: allocated(o)
    ensures line in LineSet(Flat(doc.tree))
  {
    hide At, Bounded, Flat, Chunks, Linked, LineSet, Distinct, Items, FlatL, Texts, Cells;
    DocFacts(doc);
    line := doc.GetLine(n);
    assert Texts(doc.Contents()) == old(Texts(doc.Contents()));
  }

  // Takes n lines out and puts new lines with these texts in their place, followed by more.
  method SpliceNew(doc: Doc, at: nat, n: nat, texts: seq<string>, more: seq<Line>)
    returns (ghost items: seq<Item>)
    requires doc.Valid() && AllSpelled(doc.Contents()) && at + n <= |doc.Contents()|
    requires |more| <= 1 && forall l | l in more :: l.Spelled() && l.height == 1 && l !in LineSet(Flat(doc.tree))
    modifies doc`tree, Chunks(doc.tree), LineSet(Flat(doc.tree))`parent, (set l | l in more)`parent
    ensures doc.Valid() && AllSpelled(doc.Contents())
    ensures |items| == |texts| + |more| && (forall k | 0 <= k < |items| :: items[k].height == 1)
    ensures doc.Contents() == Splice(old(doc.Contents()), at, n, items)
    ensures forall l | l in LineSet(Flat(doc.tree)) :: l in old(LineSet(Flat(doc.tree))) || fresh(l) || l in more
    ensures Texts(doc.Contents()) ==
      Splice(old(Texts(doc.Contents())), at, n, texts + if more == [] then [] else [old(more[0].text)])
    ensures forall i | at <= i < at + n :: old(doc.Contents())[i].line.parent == null
    ensures forall o | o in Chunks(doc.tree) :: o in old(Chunks(doc.tree)) || fresh(o)
  {
    hide At, Bounded, Flat, Chunks, Linked, LineSet, Distinct, Items, FlatL, Texts, Cells, Doc.Valid, AllSpelled;
    DocFacts(doc);
    ghost var C, S := doc.Contents(), LineSet(Flat(doc.tree));
    var lines;
    lines, items := Material(texts, more);
    forall i, k | 0 <= i < |C| && 0 <= k < |items| ensures C[i].line != items[k].line {
      assert items[k].line == lines[k] && C[i].line in S;
    }
    SpliceTexts(doc, at, n, lines, items);
    DocFacts(doc);
    forall l | l in LineSet(Flat(doc.tree)) && l !in S ensures l in lines {
      var i :| 0 <= i < |doc.Contents()| && doc.Contents()[i].line == l;
      FromSplice(C, at, n, items, i);
    }
  }

  // New lines with these texts, followed by more.
  method Material(texts: seq<string>, more: seq<Line>) returns (lines: seq<Line>, ghost items: seq<Item>)
    requires |more| <= 1 && forall l | l in more :: l.Spelled() && l.height == 1
    ensures Detached(lines, items) && Distinct(items) && AllSpelled(items) && |items| == |lines| == |texts| + |more|
    ensures forall k | 0 <= k < |items| :: items[k].height == 1
    ensures Texts(items) == texts + if more == [] then [] else [more[0].text]
    ensures forall k | 0 <= k < |lines| :: fresh(lines[k]) || lines[k] in more
    ensures forall l | l in lines :: fresh(l) || l in more
  {
    hide Distinct, Texts, Cells;
    lines, items := NewLines(texts);
    if more != [] {
      DistinctSnoc(items, Item(more[0], 1));
      lines, items := lines + more, items + [Item(more[0], 1)];
    }
    assert Texts(items) == texts + if more == [] then [] else [more[0].text];
  }

  lemma FromSplice<T>(s: seq<T>, at: nat, n: nat, ins: seq<T>, i: nat)
    requires at + n <= |s| && i < |Splice(s, at, n, ins)|
    ensures if at <= i < at + |ins| then Splice(s, at, n, ins)[i] == ins[i - at]
      else var k := if i < at then i else i - |ins| + n; k < |s| && Splice(s, at, n, ins)[i] == s[k]
  {
  }

  lemma DistinctSnoc(items: seq<Item>, item: Item)
    requires Distinct(items) && forall i | 0 <= i < |items| :: items[i].line != item.line
    ensures Distinct(items + [item])
  {
  }

  // The lines of C0 in at..at + gone give way to ins.
  lemma KeptSplice(C: seq<Item>, C0: seq<Item>, from: Pos, to: Pos, new_: seq<string>, at: nat, gone: nat,
      ins: seq<Item>)
    requires from.line <= to.line < |C0| && |new_| >= 1 && at + gone <= |C0|
    requires C == Splice(C0, at, gone, ins)
    requires var first, last, n := from.line, to.line, |new_|;
      if from.ch == 0 && to.ch == 0 && new_[n - 1] == "" then at == first && gone == last - first && |ins| == n - 1
      else
        || (at == first + 1 && last > first && gone == last - first - 1 && |ins| == n - 2)
        || (at == first + 1 && last > first && gone == last - first && |ins| == n - 1 == 0)
        || (at == first + 1 && last == first && gone == 0 && |ins| == n - 1)
    requires forall i | at <= i < at + gone :: C0[i].line.parent == null
    requires forall k | 0 <= k < |ins| :: ins[k].height == 1
    ensures Kept(C, C0, from, to, new_)
  {
  }

  // Inside one line, without a line break.
  method EditInLine(doc: Doc, from: Pos, to: Pos, new_: seq<string>)
    requires doc.Valid() && AllSpelled(doc.Contents()) && IsRange(Texts(doc.Contents()), from, to)
    requires from.line == to.line && |new_| == 1
    requires from.ch != 0 || to.ch != 0 || new_[|new_| - 1] != ""
    modifies LineSet(Flat(doc.tree))`text, LineSet(Flat(doc.tree))`styles
    ensures Outcome(doc, old(doc.Contents()), old(Texts(doc.Contents())), from, to, new_)
  {
    hide At, Bounded, Flat, Chunks, Linked, LineSet, Distinct, Items, FlatL, Texts, Cells, Doc.Valid, AllSpelled;
    var firstLine := FetchLine(doc, from.line);
    ReplaceInLine(doc, firstLine, from.line, Some(from.ch), Some(to.ch), new_[0]);
  }

  // Whole lines for whole lines.
  method EditWhole(doc: Doc, from: Pos, to: Pos, new_: seq<string>)
    requires doc.Valid() && AllSpelled(doc.Contents()) && IsRange(Texts(doc.Contents()), from, to)
    requires |new_| >= 1 && from.ch == 0 && to.ch == 0 && new_[|new_| - 1] == ""
    modifies doc`tree, Chunks(doc.tree), LineSet(Flat(doc.tree))`parent
    ensures Outcome(doc, old(doc.Contents()), old(Texts(doc.Contents())), from, to, new_)
    ensures forall o | o in Chunks(doc.tree) :: o in old(Chunks(doc.tree)) || fresh(o)
    ensures forall l | l in LineSet(Flat(doc.tree)) :: l in old(LineSet(Flat(doc.tree))) || fresh(l)
  {
    hide At, Bounded, Flat, Chunks, Linked, LineSet, Distinct, Items, FlatL, Texts, Cells, Doc.Valid, AllSpelled,
        Kept, Splice, Replaced, Middle;
    ghost var C, T := doc.Contents(), Texts(doc.Contents());
    ghost var items := SpliceNew(doc, from.line, to.line - from.line, new_[..|new_| - 1], []);
    assert new_[..|new_| - 1] + [] == new_[..|new_| - 1];
    WholeTexts(T, from, to, new_);
    KeptSplice(doc.Contents(), C, from, to, new_, from.line, to.line - from.line, items);
  }

  lemma WholeTexts(T: seq<string>, from: Pos, to: Pos, new_: seq<string>)
    requires IsRange(T, from, to) && |new_| >= 1 && from.ch == 0 && to.ch == 0 && new_[|new_| - 1] == ""
    ensures Splice(T, from.line, to.line - from.line, new_[..|new_| - 1]) == Replaced(T, from, to, new_)
  {
    ReplacedAt(T, Splice(T, from.line, to.line - from.line, new_[..|new_| - 1]), from, to, new_);
  }

  // Inside one line, with line breaks: the line is split.
  method EditBreak(doc: Doc, from: Pos, to: Pos, new_: seq<string>)
    requires doc.Valid() && AllSpelled(doc.Contents()) && IsRange(Texts(doc.Contents()), from, to)
    requires |new_| >= 2 && from.line == to.line
    requires from.ch != 0 || to.ch != 0 || new_[|new_| - 1] != ""
    modifies doc`tree, Chunks(doc.tree), LineSet(Flat(doc.tree))
    ensures Outcome(doc, old(doc.Contents()), old(Texts(doc.Contents())), from, to, new_)
    ensures forall o | o in Chunks(doc.tree) :: o in old(Chunks(doc.tree)) || fresh(o)
    ensures forall l | l in LineSet(Flat(doc.tree)) :: l in old(LineSet(Flat(doc.tree))) || fresh(l)
  {
    hide At, Bounded, Flat, Chunks, Linked, LineSet, Distinct, Items, FlatL, Texts, Cells, Doc.Valid, AllSpelled,
        Kept, Splice, Replaced, Middle, Outcome;
    ghost var C, T := doc.Contents(), Texts(doc.Contents());
    var n := |new_|;
    var firstLine := FetchLine(doc, from.line);
    var lastLine := SplitLine(doc, firstLine, to.ch, new_[n - 1]);
    ReplaceInLine(doc, firstLine, from.line, Some(from.ch), None, new_[0]);
    ghost var items := SpliceNew(doc, from.line + 1, 0, new_[1..n - 1], [lastLine]);
    BreakTexts(T, from, to, new_);
    KeptSplice(doc.Contents(), C, from, to, new_, from.line + 1, 0, items);
    OutcomeIs(doc, C, T, from, to, new_);
  }

  // Splits a line of the document, which changes nothing in the document yet.
  method SplitLine(doc: Doc, line: Line, pos: nat, before: string) returns (taken: Line)
    requires doc.Valid() && AllSpelled(doc.Contents()) && line in LineSet(Flat(doc.tree)) && line.Spelled()
        && pos <= |line.text|
    ensures fresh(taken) && taken.Spelled() && taken.height == 1 && taken.text == before + line.text[pos..]
    ensures taken !in LineSet(Flat(doc.tree))
    ensures doc.Valid() && AllSpelled(doc.Contents()) && Texts(doc.Contents()) == old(Texts(doc.Contents()))
  {
    hide At, Bounded, Flat, Chunks, Linked, LineSet, Distinct, Items, FlatL, Texts, Cells;
    DocFacts(doc);
    taken := line.Split(pos, before);
    assert Texts(doc.Contents()) == old(Texts(doc.Contents()));
  }

  lemma BreakTexts(T: seq<string>, from: Pos, to: Pos, new_: seq<string>)
    requires IsRange(T, from, to) && |new_| >= 2 && from.line == to.line
    ensures Splice(T[from.line := T[from.line][..from.ch] + new_[0] + T[from.line][|T[from.line]|..]], from.line + 1, 0,
                   new_[1..|new_| - 1] + [new_[|new_| - 1] + T[to.line][to.ch..]])
            == Replaced(T, from, to, new_)
  {
    ReplacedAt(T, Splice(T[from.line := T[from.line][..from.ch] + new_[0] + T[from.line][|T[from.line]|..]],
      from.line + 1, 0,
                         new_[1..|new_| - 1] + [new_[|new_| - 1] + T[to.line][to.ch..]]), from, to, new_);
  }

  // Cuts the first line off at from and the last line up to to, and puts head and tail in place of what was cut.
  method CutEnds(doc: Doc, from: Pos, to: Pos, head: string, tail: string) returns (firstLine: Line, lastLine: Line)
    requires doc.Valid() && AllSpelled(doc.Contents()) && IsRange(Texts(doc.Contents()), from, to)
    requires from.line < to.line
    modifies LineSet(Flat(doc.tree))`text, LineSet(Flat(doc.tree))`styles
    ensures doc.Valid() && AllSpelled(doc.Contents())
    ensures firstLine == doc.Contents()[from.line].line && lastLine == doc.Contents()[to.line].line
    ensures firstLine in LineSet(Flat(doc.tree)) && lastLine in LineSet(Flat(doc.tree))
    ensures var T := old(Texts(doc.Contents()));
      Texts(doc.Contents()) == T[from.line := T[from.line][..from.ch] + head + T[from.line][|T[from.line]|..]]
                                [to.line := T[to.line][..0] + tail + T[to.line][to.ch..]]
  {
    hide At, Bounded, Flat, Chunks, Linked, LineSet, Distinct, Items, FlatL, Texts, Cells, Doc.Valid, AllSpelled;
    firstLine := FetchLine(doc, from.line);
    lastLine := FetchLine(doc, to.line);
    ReplaceInLine(doc, firstLine, from.line, Some(from.ch), None, head);
    ReplaceInLine(doc, lastLine, to.line, None, Some(to.ch), tail);
  }

  // Over several lines, without a line break: the last line is appended to the first.
  method EditJoin(doc: Doc, from: Pos, to: Pos, new_: seq<string>)
    requires doc.Valid() && AllSpelled(doc.Contents()) && IsRange(Texts(doc.Contents()), from, to)
    requires |new_| == 1 && from.line < to.line
    requires from.ch != 0 || to.ch != 0 || new_[|new_| - 1] != ""
    modifies doc`tree, Chunks(doc.tree), LineSet(Flat(doc.tree))
    ensures Outcome(doc, old(doc.Contents()), old(Texts(doc.Contents())), from, to, new_)
    ensures forall o | o in Chunks(doc.tree) :: o in old(Chunks(doc.tree)) || fresh(o)
    ensures forall l | l in LineSet(Flat(doc.tree)) :: l in old(LineSet(Flat(doc.tree))) || fresh(l)
  {
    hide At, Bounded, Flat, Chunks, Linked, LineSet, Distinct, Items, FlatL, Texts, Cells, Doc.Valid, AllSpelled,
        Kept, Splice, Replaced, Middle, Outcome;
    ghost var C, T := doc.Contents(), Texts(doc.Contents());
    var firstLine, lastLine := CutEnds(doc, from, to, new_[0], "");
    AppendLine(doc, firstLine, lastLine, from.line, to.line);
    ghost var items := SpliceNew(doc, from.line + 1, to.line - from.line, [], []);
    JoinTexts(T, from, to, new_);
    KeptSplice(doc.Contents(), C, from, to, new_, from.line + 1, to.line - from.line, items);
    OutcomeIs(doc, C, T, from, to, new_);
  }

  lemma JoinTexts(T: seq<string>, from: Pos, to: Pos, new_: seq<string>)
    requires IsRange(T, from, to) && |new_| == 1 && from.line < to.line
    ensures var head, tail := T[from.line][..from.ch] + new_[0] + T[from.line][|T[from.line]|..],
      T[to.line][..0] + "" + T[to.line][to.ch..];
      Splice(T[from.line := head][to.line := tail][from.line := head + tail], from.line + 1, to.line - from.line,
        [] + [])
      == Replaced(T, from, to, new_)
  {
    var head, tail := T[from.line][..from.ch] + new_[0], T[to.line][to.ch..];
    assert head + T[from.line][|T[from.line]|..] == head && T[to.line][..0] + "" + tail == tail;
    JoinLines(T, from.line, to.line, head, tail, head + tail);
  }

  lemma JoinLines<X>(T: seq<X>, f: nat, t: nat, head: X, tail: X, both: X)
    requires f < t < |T|
    ensures Splice(T[f := head][t := tail][f := both], f + 1, t - f, [] + []) == T[..f] + [both] + T[t + 1..]
  {
  }

  // Over several lines, with line breaks.
  method EditGeneral(doc: Doc, from: Pos, to: Pos, new_: seq<string>)
    requires doc.Valid() && AllSpelled(doc.Contents()) && IsRange(Texts(doc.Contents()), from, to)
    requires |new_| >= 2 && from.line < to.line
    requires from.ch != 0 || to.ch != 0 || new_[|new_| - 1] != ""
    modifies doc`tree, Chunks(doc.tree), LineSet(Flat(doc.tree))
    ensures Outcome(doc, old(doc.Contents()), old(Texts(doc.Contents())), from, to, new_)
    ensures forall o | o in Chunks(doc.tree) :: o in old(Chunks(doc.tree)) || fresh(o)
    ensures forall l | l in LineSet(Flat(doc.tree)) :: l in old(LineSet(Flat(doc.tree))) || fresh(l)
  {
    hide At, Bounded, Flat, Chunks, Linked, LineSet, Distinct, Items, FlatL, Texts, Cells, Doc.Valid, AllSpelled,
        Kept, Splice, Replaced, Middle, Outcome;
    ghost var C, T := doc.Contents(), Texts(doc.Contents());
    var n := |new_|;
    var firstLine, lastLine := CutEnds(doc, from, to, new_[0], new_[n - 1]);
    ghost var items := SpliceNew(doc, from.line + 1, to.line - from.line - 1, new_[1..n - 1], []);
    GeneralTexts(T, from, to, new_);
    KeptSplice(doc.Contents(), C, from, to, new_, from.line + 1, to.line - from.line - 1, items);
    OutcomeIs(doc, C, T, from, to, new_);
  }

  lemma GeneralTexts(T: seq<string>, from: Pos, to: Pos, new_: seq<string>)
    requires IsRange(T, from, to) && |new_| >= 2 && from.line < to.line
    ensures var n := |new_|;
      Splice(T[from.line := T[from.line][..from.ch] + new_[0] + T[from.line][|T[from.line]|..]]
              [to.line := T[to.line][..0] + new_[n - 1] + T[to.line][to.ch..]],
             from.line + 1, to.line - from.line - 1, new_[1..n - 1] + [])
      == Replaced(T, from, to, new_)
  {
    var n, head, tail := |new_|, T[from.line][..from.ch] + new_[0], new_[|new_| - 1] + T[to.line][to.ch..];
    assert head + T[from.line][|T[from.line]|..] == head;
    assert T[to.line][..0] + new_[n - 1] + T[to.line][to.ch..] == tail;
    assert new_[1..n - 1] + [] == new_[1..n - 1];
    GeneralLines(T, from.line, to.line, head, new_[1..n - 1], tail);
  }

  lemma GeneralLines<X>(T: seq<X>, f: nat, t: nat, head: X, mid: seq<X>, tail: X)
    requires f < t < |T|
    ensures Splice(T[f := head][t := tail], f + 1, t - f - 1, mid) == T[..f] + ([head] + mid + [tail]) + T[t + 1..]
  {
  }

  lemma ReplacedAt(T0: seq<string>, T: seq<string>, from: Pos, to: Pos, new_: seq<string>)
    requires IsRange(T0, from, to) && |new_| >= 1
    requires var d := |new_| - (to.line - from.line) - 1;
      && |T| == |T0| + d
      && (forall i | 0 <= i < from.line :: T[i] == T0[i])
      && (forall i | to.line < i < |T0| :: T[i + d] == T0[i])
    requires forall k | 0 <= k < |new_| :: T[from.line + k] == Middle(T0, from, to, new_)[k]
    ensures T == Replaced(T0, from, to, new_)
  {
    hide Middle;
    var R, d := Replaced(T0, from, to, new_), |new_| - (to.line - from.line) - 1;
    forall i | 0 <= i < |T| ensures T[i] == R[i] {
      if from.line <= i < from.line + |new_| {
        assert T[from.line + (i - from.line)] == R[i];
      } else if i >= from.line + |new_| {
        assert T[(i - d) + d] == T0[i - d];
      }
    }
  }

  // The four ways to adjust the lines to a replacement, as the editor chooses between them.
  method EditLines(doc: Doc, from: Pos, to: Pos, newText: seq<string>)
    requires doc.Valid() && AllSpelled(doc.Contents()) && IsRange(Texts(doc.Contents()), from, to) && |newText| >= 1
    modifies doc`tree, Chunks(doc.tree), LineSet(Flat(doc.tree))
    ensures Outcome(doc, old(doc.Contents()), old(Texts(doc.Contents())), from, to, newText)
    ensures forall o | o in Chunks(doc.tree) :: o in old(Chunks(doc.tree)) || fresh(o)
    ensures forall l | l in LineSet(Flat(doc.tree)) :: l in old(LineSet(Flat(doc.tree))) || fresh(l)
  {
    hide Doc.Valid, AllSpelled, Texts, Outcome, Kept, Replaced, Flat, LineSet, Chunks;
    SameIndex(doc, from.line, to.line);
    var firstLine := FetchLine(doc, from.line);
    var lastLine := FetchLine(doc, to.line);
    if from.ch == 0 && to.ch == 0 && newText[|newText| - 1] == "" {
      EditWhole(doc, from, to, newText);
    } else if firstLine == lastLine {
      if |newText| == 1 {
        EditInLine(doc, from, to, newText);
      } else {
        EditBreak(doc, from, to, newText);
      }
    } else if |newText| == 1 {
      EditJoin(doc, from, to, newText);
    } else {
      EditGeneral(doc, from, to, newText);
    }
  }

  lemma SameIndex(doc: Doc, i: nat, j: nat)
    requires doc.Valid() && i < |doc.Contents()| && j < |doc.Contents()|
    ensures doc.Contents()[i].line == doc.Contents()[j].line ==> i == j
  {
    hide At, Bounded, Flat, Chunks;
    if i != j { Apart(doc.Contents(), i, j); }
  }
}
