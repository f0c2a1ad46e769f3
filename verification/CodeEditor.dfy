/** The editor's state around the document: the undo history, the lines that are still to be highlighted,
    and the changes that are still to be redrawn. */
module CodeEditor {
  import opened Prelude
  import opened LineTree
  import opened Document
  import opened TextSplice
  import opened Editing
  import U = UndoHistory
  import D = Display
  import S = Searching

  // Every line that changed on the way from T to T' is covered by a change that was remembered on the way.
  ghost predicate Damaged(T: seq<string>, changes: seq<D.Damage>, T': seq<string>, changes': seq<D.Damage>) {
    |changes| <= |changes'| && changes'[..|changes|] == changes && D.CoversAll(changes'[|changes|..], T, T')
  }

  lemma EditDamages(T: seq<string>, from: Pos, to: Pos, newText: seq<string>, changes: seq<D.Damage>,
      changes': seq<D.Damage>)
    requires IsRange(T, from, to) && |newText| >= 1
    requires changes' == changes + [D.Damage(from.line, to.line + 1, |newText| - (to.line - from.line) - 1)]
    ensures Damaged(T, changes, Replaced(T, from, to, newText), changes')
  {
    hide Replaced, Middle, D.Covers, D.CoversAll;
    var c := D.Damage(from.line, to.line + 1, |newText| - (to.line - from.line) - 1);
    EditCovered(T, from, to, newText);
    D.CoversNone(T);
    D.CoversSnoc([], c, T, T, Replaced(T, from, to, newText));
    assert [] + [c] == [c] && changes'[|changes|..] == [c];
  }

  lemma EditCovered(T: seq<string>, from: Pos, to: Pos, newText: seq<string>)
    requires IsRange(T, from, to) && |newText| >= 1
    ensures D.Covers(D.Damage(from.line, to.line + 1, |newText| - (to.line - from.line) - 1), T,
      Replaced(T, from, to, newText))
  {
    hide Middle;
    CutBack(T[..from.line], Middle(T, from, to, newText), T[to.line + 1..]);
  }

  lemma NotDamaged(T: seq<string>, changes: seq<D.Damage>)
    ensures Damaged(T, changes, T, changes)
  {
    D.CoversNone(T);
    assert changes[|changes|..] == [];
  }

  lemma DamagedThen(T: seq<string>, a: seq<D.Damage>, M: seq<string>, b: seq<D.Damage>, T': seq<string>,
      c: seq<D.Damage>)
    requires Damaged(T, a, M, b) && Damaged(M, b, T', c)
    ensures Damaged(T, a, T', c)
  {
    hide D.CoversAll;
    D.CoversThen(b[|a|..], c[|b|..], T, M, T');
    assert c[|a|..] == b[|a|..] + c[|b|..];
  }

  // The pending lines that an edit of first..last does not touch, renumbered.
  function Reworked(work: seq<int>, first: int, last: int, diff: int): seq<int> {
    if work == [] then []
    else
      var rest, entry := Reworked(work[..|work| - 1], first, last, diff), work[|work| - 1];
      if entry < first then rest + [entry] else if entry > last then rest + [entry + diff] else rest
  }

  // What a client can ask for in an operation.
  datatype Command =
    | ReplaceRange(now: int, from: S.Point, to: S.Point, newText: seq<string>)
    | Undo
    | Redo

  // A replacement goes forward, and has at least one line, as splitting a string gives.
  predicate Proper(c: Command) {
    c.ReplaceRange? ==> S.Le(c.from, c.to) && |c.newText| >= 1
  }

  // The position in the text that is nearest to a point.
  ghost function Clipped(T: seq<string>, p: S.Point): (q: Pos)
    requires |T| >= 1
    ensures InText(T, q)
  {
    var clipped := S.ClipPos(T, p);
    Pos(clipped.line, clipped.ch)
  }

  // Clipping keeps the order.
  lemma ClippedRange(T: seq<string>, p: S.Point, q: S.Point)
    requires |T| >= 1 && S.Le(p, q)
    ensures IsRange(T, Clipped(T, p), Clipped(T, q))
  {
  }

  // A command did to the text and the history what it is for.
  ghost predicate Performed(c: Command, s: U.State, s': U.State) {
    match c
    case ReplaceRange(_, p, q, newText) =>
      && |s.text| >= 1 && |newText| >= 1
      && var from, to := Clipped(s.text, p), Clipped(s.text, q);
      && IsRange(s.text, from, to) && s'.text == Replaced(s.text, from, to, newText)
      && exists all :: U.EditedBy(s, s', EditChange(s.text, from, to, newText), all)
    case Undo => U.Undid(s, s')
    case Redo => U.Redid(s, s')
  }

  // The states that a list of commands leads through.
  ghost predicate Leads(commands: seq<Command>, run: seq<U.State>) {
    |run| == |commands| + 1 && forall i | 0 <= i < |commands| :: Performed(commands[i], run[i], run[i + 1])
  }

  lemma LeadsOn(commands: seq<Command>, run: seq<U.State>, c: Command, s: U.State)
    requires Leads(commands, run) && Performed(c, run[|run| - 1], s)
    ensures Leads(commands + [c], run + [s])
  {
    hide Performed;
  }

  lemma CoveredSince(T: seq<string>, T': seq<string>, changes: seq<D.Damage>)
    requires Damaged(T, [], T', changes)
    ensures D.CoversAll(changes, T, T') && (changes == [] ==> T' == T)
  {
    hide D.CoversAll;
    assert changes[0..] == changes;
    if changes == [] { D.NothingChanged(T, T'); }
  }

  // The groups forgotten on the way.
  lemma GroupsForgotten(commands: seq<Command>, run: seq<U.State>) returns (forgotten: seq<U.Group>)
    requires Leads(commands, run) && U.FitsAll(run[0].done, run[0].text) && U.FitsAll(run[0].undone, run[0].text)
    ensures var s := run[|commands|];
      U.FitsAll(forgotten + s.done, s.text) && U.Base(forgotten + s.done, s.text) == U.Base(run[0].done, run[0].text)
  {
    hide U.FitsAll, U.Base, Performed;
    LeadsRun(commands, run);
    forgotten := U.RunKeepsBase(run);
  }

  // So they are a run of the history.
  lemma LeadsRun(commands: seq<Command>, run: seq<U.State>)
    requires Leads(commands, run)
    ensures U.IsRun(run)
  {
    hide U.EditedBy, U.Undid, U.Redid, Replaced, Clipped;
    forall i | 0 < i < |run| ensures U.Step(run[i - 1], run[i]) {
      assert Performed(commands[i - 1], run[i - 1], run[i]);
    }
  }

  class Editor {
    const doc: Doc
    const history: U.History
    const undoDepth: nat
    var work: seq<int>
    var changes: seq<D.Damage>

    ghost predicate DocOk()
      reads doc, Chunks(doc.tree), LineSet(Flat(doc.tree)), (set it | it in doc.Contents() :: it.line)
    {
      doc.Valid() && AllSpelled(doc.Contents())
    }

    ghost function Text(): (t: seq<string>)
      reads doc, (set it | it in doc.Contents() :: it.line)`text
      ensures |t| == |doc.Contents()|
    {
      Texts(doc.Contents())
    }

    // The history leads from the text to its base, and back again.
    ghost predicate Valid()
      reads this, doc, history, Chunks(doc.tree), LineSet(Flat(doc.tree)), (set it | it in doc.Contents() :: it.line)
    {
      && DocOk() && |doc.Contents()| >= 1
      && U.FitsAll(history.done, Text())
      && U.FitsAll(history.undone, Text())
      && |history.done| + |history.undone| <= undoDepth
    }

    ghost function State(): U.State
      reads this, doc, history, (set it | it in doc.Contents() :: it.line)`text
    {
      U.State(Text(), history.done, history.undone)
    }

    // The text that undoing everything would give.
    ghost function Base(): seq<string>
      requires Valid()
      reads this, doc, history, Chunks(doc.tree), LineSet(Flat(doc.tree)), (set it | it in doc.Contents() :: it.line)
    {
      U.Base(history.done, Text())
    }

    constructor (undoDepth: nat)
      ensures Valid() && Text() == [""] && Base() == [""] && this.undoDepth == undoDepth
      ensures history.done == [] && history.undone == [] && work == [0] && changes == []
      ensures fresh(doc) && fresh(history)
    {
      this.undoDepth := undoDepth;
      history := new U.History();
      doc := new Doc();
      work, changes := [0], [];
      new;
      NotChunk(doc.tree, this);
      U.NoGroup(Text());
    }

    method UpdateLinesNoUndo(from: Pos, to: Pos, newText: seq<string>)
      requires DocOk() && IsRange(Text(), from, to) && |newText| >= 1
      modifies `work, `changes, doc`tree, Chunks(doc.tree), LineSet(Flat(doc.tree))
      ensures DocOk() && Text() == Replaced(old(Text()), from, to, newText)
      ensures Kept(doc.Contents(), old(doc.Contents()), from, to, newText)
      ensures Damaged(old(Text()), old(changes), Text(), changes)
      ensures var lendiff := |newText| - (to.line - from.line) - 1;
        && work == Reworked(old(work), from.line, to.line, lendiff) +
          [from.line + if |newText| < 500 then |newText| else 500]
        && changes == old(changes) + [D.Damage(from.line, to.line + 1, lendiff)]
      ensures forall o | o in Chunks(doc.tree) :: o in old(Chunks(doc.tree)) || fresh(o)
      ensures forall l | l in LineSet(Flat(doc.tree)) :: l in old(LineSet(Flat(doc.tree))) || fresh(l)
    {
      hide Doc.Valid, AllSpelled, Texts, Kept, Replaced, Flat, Chunks, LineSet, Outcome, Damaged;
      NotChunk(doc.tree, this);
      ghost var C, T := doc.Contents(), Text();
      EditLines(doc, from, to, newText);
      NoteEdit(from, to, newText, C, T);
      OutcomeParts(doc, C, T, from, to, newText);
      EditDamages(T, from, to, newText, old(changes), changes);
    }

    // Renumbers the pending lines, and remembers what to redraw.
    method NoteEdit(from: Pos, to: Pos, newText: seq<string>, ghost C: seq<Item>, ghost T: seq<string>)
      requires IsRange(T, from, to) && |newText| >= 1 && |C| == |T|
      requires Outcome(doc, C, T, from, to, newText)
      modifies `work, `changes
      ensures Outcome(doc, C, T, from, to, newText)
      ensures var lendiff := |newText| - (to.line - from.line) - 1;
        && work == Reworked(old(work), from.line, to.line, lendiff) +
          [from.line + if |newText| < 500 then |newText| else 500]
        && changes == old(changes) + [D.Damage(from.line, to.line + 1, lendiff)]
    {
      hide Doc.Valid, AllSpelled, Texts, Replaced, Flat, Chunks;
      DocFacts(doc);
      NotChunk(doc.tree, this);
      AllKnown(C);
      var lendiff := |newText| - (to.line - from.line) - 1;
      var newWork := Rework(work, from.line, to.line, lendiff);
      var hlEnd := from.line + if |newText| < 500 then |newText| else 500;
      work := newWork + [hlEnd];
      changes := changes + [D.Damage(from.line, to.line + 1, lendiff)];
    }

    // The text of the lines from..to.
    method LinesText(from: nat, to: nat) returns (texts: seq<string>)
      requires DocOk() && from <= to <= |doc.Contents()|
      ensures DocOk() && Text() == old(Text()) && texts == Text()[from..to]
    {
      hide Doc.Valid, AllSpelled, Texts, Flat, Chunks, LineSet;
      DocFacts(doc);
      AllKnown(doc.Contents());
      var visited := doc.Iter(from, to);
      texts := [];
      for i := 0 to |visited|
        invariant texts == Text()[from..from + i]
      {
        texts := texts + [visited[i].text];
      }
    }

    // Records what an edit is going to do; it may forget the oldest groups of all.
    method RecordEdit(now: int, from: Pos, to: Pos, newText: seq<string>) returns (ghost all: seq<U.Group>)
      requires Valid() && IsRange(Text(), from, to) && |newText| >= 1
      modifies history
      ensures DocOk() && Text() == old(Text())
      ensures history.undone == [] && U.RecordedAs(old(history.done), EditChange(Text(), from, to, newText), all)
      ensures history.time == now && history.compound == old(history.compound) && !history.closed
      ensures U.RecordedAt(old(history.done), old(history.time), old(history.compound), old(history.closed), now,
                           EditChange(Text(), from, to, newText), all)
      ensures var T' := Replaced(Text(), from, to, newText);
        && U.FitsAll(all, T') && U.Base(all, T') == old(Base()) && U.FitsAll(history.done, T')
      ensures |history.done| == (if |all| < undoDepth then |all| else undoDepth) &&
        history.done == all[|all| - |history.done|..]
    {
      hide Doc.Valid, AllSpelled, Texts, Flat, Chunks, LineSet, Kept, Damaged, U.FitsAll, U.Base, Replaced,
          U.RecordedAt;
      ghost var T, T' := Text(), Replaced(Text(), from, to, newText);
      NotChunk(doc.tree, history);
      DocFacts(doc);
      var old_ := LinesText(from.line, to.line + 1);
      EditIsChange(T, from, to, newText);
      all := U.Record(history, undoDepth, now, from.line, |newText|, old_, T, T');
    }

    /** Replaces the text between two positions, and records the change. The groups that the change
        leads to, before old ones are forgotten, are all. */
    method UpdateLines(now: int, from: Pos, to: Pos, newText: seq<string>) returns (ghost all: seq<U.Group>)
      requires Valid() && IsRange(Text(), from, to) && |newText| >= 1
      modifies `work, `changes, history, doc`tree, Chunks(doc.tree), LineSet(Flat(doc.tree))
      ensures Valid() && Text() == Replaced(old(Text()), from, to, newText)
          && Damaged(old(Text()), old(changes), Text(), changes)
      ensures Kept(doc.Contents(), old(doc.Contents()), from, to, newText)
      ensures U.EditedBy(old(State()), State(), EditChange(old(Text()), from, to, newText), all)
      ensures history.time == now && history.compound == old(history.compound) && !history.closed
      ensures U.RecordedAt(old(history.done), old(history.time), old(history.compound), old(history.closed), now,
                           EditChange(old(Text()), from, to, newText), all)
      ensures U.FitsAll(all, Text()) && U.Base(all, Text()) == old(Base())
      ensures |history.done| == (if |all| < undoDepth then |all| else undoDepth) &&
        history.done == all[|all| - |history.done|..]
      ensures forall o | o in Chunks(doc.tree) :: o in old(Chunks(doc.tree)) || fresh(o)
      ensures forall l | l in LineSet(Flat(doc.tree)) :: l in old(LineSet(Flat(doc.tree))) || fresh(l)
    {
      hide Doc.Valid, AllSpelled, Texts, Flat, Chunks, LineSet, Kept, Damaged, U.FitsAll, U.Base, Replaced,
          U.RecordedAs, U.RecordedAt, U.Fits, U.Undone;
      hide EditChange, Reworked;
      NotChunk(doc.tree, history);
      all := RecordEdit(now, from, to, newText);
      DocFacts(doc);
      UpdateLinesNoUndo(from, to, newText);
      NotChunk(doc.tree, history);
      U.NoGroup(Text());
      ReplacedSize(old(Text()), from, to, newText);
      EditIsChange(old(Text()), from, to, newText);
    }

    // Undoes one change; replaced are the lines that it takes away.
    method Unredo1(change: U.Change) returns (replaced: seq<string>)
      requires DocOk() && U.Fits(change, Text())
      modifies `work, `changes, doc`tree, Chunks(doc.tree), LineSet(Flat(doc.tree))
      ensures DocOk() && Text() == U.Undone(change, old(Text()))
      ensures U.Change(change.start, |change.old_|, replaced) == U.Inverse(change, old(Text()))
      ensures Damaged(old(Text()), old(changes), Text(), changes)
      ensures forall o | o in Chunks(doc.tree) :: o in old(Chunks(doc.tree)) || fresh(o)
      ensures forall l | l in LineSet(Flat(doc.tree)) :: l in old(LineSet(Flat(doc.tree))) || fresh(l)
    {
      hide Doc.Valid, AllSpelled, Texts, Flat, Chunks, LineSet, Kept, Damaged, Replaced, Reworked, IsRange,
          U.Undone, U.Inverse, U.Fits;
      ghost var T := Text();
      var lastSize;
      replaced, lastSize := ReadChange(change);
      DocFacts(doc);
      ChangeIsEdit(change, T);
      UpdateLinesNoUndo(Pos(change.start, 0), Pos(change.start + change.added - 1, lastSize), change.old_);
    }

    // The lines that a change is about to take away, and the length of the last one.
    method ReadChange(change: U.Change) returns (replaced: seq<string>, lastSize: nat)
      requires DocOk() && U.Fits(change, Text())
      ensures DocOk() && Text() == old(Text()) && U.Fits(change, Text())
      ensures 0 < change.start + change.added <= |Text()| && |change.old_| >= 1
          && lastSize == |Text()[change.start + change.added - 1]|
      ensures U.Change(change.start, |change.old_|, replaced) == U.Inverse(change, Text())
    {
      hide Doc.Valid, AllSpelled, Texts, Flat, Chunks, LineSet;
      var end := change.start + change.added;
      replaced := LinesText(change.start, end);
      var last := FetchLine(doc, end - 1);
      lastSize := |last.text|;
    }

    // Undoes the last group of changes, or redoes the last group undone.
    method Unredo(undoing: bool)
      requires Valid()
      modifies `work, `changes, history`done, history`undone, doc`tree, Chunks(doc.tree), LineSet(Flat(doc.tree))
      ensures Valid() && Base() == old(Base()) && Damaged(old(Text()), old(changes), Text(), changes)
      ensures undoing ==> U.Undid(old(State()), State())
      ensures !undoing ==> U.Redid(old(State()), State())
      ensures forall o | o in Chunks(doc.tree) :: o in old(Chunks(doc.tree)) || fresh(o)
      ensures forall l | l in LineSet(Flat(doc.tree)) :: l in old(LineSet(Flat(doc.tree))) || fresh(l)
    {
      hide Doc.Valid, AllSpelled, Texts, Flat, Chunks, LineSet, Kept, Damaged, U.FitsAll, U.Base, U.FitsGroup,
          U.UndoneGroup, U.InverseGroup, U.Moved;
      var from := if undoing then history.done else history.undone;
      NotDamaged(Text(), changes);
      ghost var T, to := Text(), if undoing then history.undone else history.done;
      U.MovedIs(from, to, T);
      if |from| == 0 { return; }
      U.AllLast(from, T);
      U.Swapped(from, to, T);
      NotChunk(doc.tree, history);
      var set_ := from[|from| - 1];
      if undoing { history.done := from[..|from| - 1]; } else { history.undone := from[..|from| - 1]; }
      U.GroupSize(set_, T);
      var out := UndoGroup(set_);
      NotChunk(doc.tree, history);
      if undoing { history.undone := history.undone + [out]; } else { history.done := history.done + [out]; }
    }

    // The text of all lines, and which of them are visible.
    method Look(top: int, lineHeight: int, clientHeight: int) returns (lines: seq<string>, from: nat, to: nat)
      requires DocOk() && lineHeight > 0 && clientHeight >= 0 && top + clientHeight >= 0
      ensures DocOk() && Text() == old(Text()) && lines == Text() && from <= to <= |lines|
      ensures forall n | 0 <= n < |doc.Contents()| && Shown(doc.Contents(), n, top, lineHeight, clientHeight) ::
          from <= n <= to
      ensures |lines| == |doc.Contents()| && InView(doc.Contents(), from, to, top, lineHeight, clientHeight)
    {
      hide Doc.Valid, AllSpelled, Texts, Flat, Chunks, LineSet, Shown, InView;
      DocFacts(doc);
      AllKnown(doc.Contents());
      var size := doc.Size();
      lines := LinesText(0, size);
      from, to := doc.VisibleLines(top, lineHeight, clientHeight);
    }

    /** The end of an operation: if something changed or the page was scrolled, the rows are brought up to date
        with all the changes of the operation. A row is the text of its line here. */
    method EndOperation(screen: D.Screen<string>, scrolled: bool, clientWidth: nat, top: int, lineHeight: int,
                        clientHeight: int, ghost before: seq<string>)
      returns (bad: bool, ghost visibleFrom: nat, ghost visibleTo: nat)
      requires Valid() && lineHeight > 0 && clientHeight >= 0 && top + clientHeight >= 0
      requires screen.Shows(before) && D.CoversAll(changes, before, Text())
      modifies `changes, screen
      ensures Valid() && Text() == old(Text()) && Base() == old(Base())
      ensures screen.Shows(Text()) && !bad && changes == []
      ensures clientWidth > 0 && (scrolled || old(changes) != []) ==>
        screen.showingFrom < screen.showingTo && screen.rows == Text()[screen.showingFrom..screen.showingTo]
      ensures clientWidth > 0 && (scrolled || old(changes) != []) ==>
        forall n | 0 <= n < |doc.Contents()| && Shown(doc.Contents(), n, top, lineHeight, clientHeight) ::
          screen.showingFrom <= n < screen.showingTo
      ensures visibleFrom <= visibleTo <= |doc.Contents()|
      ensures clientWidth > 0 && (scrolled || old(changes) != []) ==>
        && InView(doc.Contents(), visibleFrom, visibleTo, top, lineHeight, clientHeight)
        && if old(changes) == [] && old(screen.showingFrom) < visibleFrom && visibleTo < old(screen.showingTo)
           then screen.showingFrom == old(screen.showingFrom) && screen.showingTo == old(screen.showingTo)
           else screen.FitsWindow(visibleFrom, visibleTo, |doc.Contents()|)
    {
      hide Doc.Valid, AllSpelled, Texts, Flat, Chunks, LineSet, U.FitsAll, U.Base, D.CoversAll, Shown, InView;
      hide D.Screen.Shows, D.Screen.FitsWindow;
      bad, visibleFrom, visibleTo := false, 0, 0;
      NotChunk(doc.tree, this);
      NotChunk(doc.tree, screen);
      DocFacts(doc);
      if |changes| > 0 || scrolled {
        var lines, from, to := Look(top, lineHeight, clientHeight);
        var updated;
        updated, bad := screen.UpdateDisplay(lines, Some(changes), clientWidth, from, to, before);
        visibleFrom, visibleTo := from, to;
      } else {
        D.NothingChanged(before, Text());
      }
      changes := [];
    }

    method ClipPos(p: S.Point) returns (q: Pos)
      requires DocOk() && |doc.Contents()| >= 1
      ensures DocOk() && Text() == old(Text()) && q == Clipped(Text(), p)
      ensures 0 <= p.line < |Text()| ==>
        q.line == p.line && q.ch == if p.ch < 0 then 0 else if p.ch > |Text()[p.line]| then |Text()[p.line]| else p.ch
      ensures p.line < 0 ==> q == Pos(0, 0)
      ensures p.line >= |Text()| ==> q == Pos(|Text()| - 1, |Text()[|Text()| - 1]|)
    {
      hide Doc.Valid, AllSpelled, Texts, Flat, Chunks, LineSet;
      DocFacts(doc);
      AllKnown(doc.Contents());
      if p.line < 0 { return Pos(0, 0); }
      var size := doc.Size();
      var n := if p.line >= size then size - 1 else p.line;
      var line := FetchLine(doc, n);
      var linelen := |line.text|;
      if p.line >= size || p.ch > linelen { return Pos(n, linelen); }
      return Pos(n, if p.ch < 0 then 0 else p.ch);
    }

    /** Replaces the text between the positions nearest to two points. */
    method ReplaceRange(now: int, from: S.Point, to: S.Point, code: seq<string>)
      requires Valid() && S.Le(from, to) && |code| >= 1
      modifies `work, `changes, history, doc`tree, Chunks(doc.tree), LineSet(Flat(doc.tree))
      ensures Valid() && Performed(Command.ReplaceRange(now, from, to, code), old(State()), State())
      ensures Damaged(old(Text()), old(changes), Text(), changes)
      ensures forall o | o in Chunks(doc.tree) :: o in old(Chunks(doc.tree)) || fresh(o)
      ensures forall l | l in LineSet(Flat(doc.tree)) :: l in old(LineSet(Flat(doc.tree))) || fresh(l)
    {
      hide Doc.Valid, AllSpelled, Texts, Flat, Chunks, LineSet, Kept, Damaged, U.FitsAll, U.Base, Replaced,
          U.EditedBy, Clipped, IsRange;
      var from' := ClipPos(from);
      var to' := ClipPos(to);
      ClippedRange(Text(), from, to);
      ghost var all := UpdateLines(now, from', to', code);
    }

    method Execute(command: Command)
      requires Valid() && Proper(command)
      modifies `work, `changes, history, doc`tree, Chunks(doc.tree), LineSet(Flat(doc.tree))
      ensures Valid() && Performed(command, old(State()), State())
      ensures Damaged(old(Text()), old(changes), Text(), changes)
      ensures forall o | o in Chunks(doc.tree) :: o in old(Chunks(doc.tree)) || fresh(o)
      ensures forall l | l in LineSet(Flat(doc.tree)) :: l in old(LineSet(Flat(doc.tree))) || fresh(l)
    {
      hide DocOk, Texts, Flat, Chunks, LineSet, Damaged, U.FitsAll, U.Undid, U.Redid;
      match command {
        case ReplaceRange(now, from, to, newText) => ReplaceRange(now, from, to, newText);
        case Undo => Unredo(true);
        case Redo => Unredo(false);
      }
    }

    // Performs commands one after the other; run are the states between them.
    method Perform(commands: seq<Command>) returns (ghost run: seq<U.State>)
      requires Valid() && forall c | c in commands :: Proper(c)
      modifies `work, `changes, history, doc`tree, Chunks(doc.tree), LineSet(Flat(doc.tree))
      ensures Valid() && Leads(commands, run) && run[0] == old(State()) && run[|commands|] == State()
      ensures Damaged(old(Text()), old(changes), Text(), changes)
      ensures forall o | o in Chunks(doc.tree) :: o in old(Chunks(doc.tree)) || fresh(o)
      ensures forall l | l in LineSet(Flat(doc.tree)) :: l in old(LineSet(Flat(doc.tree))) || fresh(l)
    {
      hide DocOk, Texts, Flat, Chunks, LineSet, Damaged, U.FitsAll, Performed;
      ghost var T, chunks, lines, changes0 := Text(), Chunks(doc.tree), LineSet(Flat(doc.tree)), changes;
      run := [State()];
      NotDamaged(T, changes);
      for i := 0 to |commands|
        invariant Valid() && Leads(commands[..i], run) && run[0] == old(State()) && run[i] == State()
        invariant Damaged(T, changes0, Text(), changes)
        invariant forall o | o in Chunks(doc.tree) :: o in chunks || fresh(o)
        invariant forall l | l in LineSet(Flat(doc.tree)) :: l in lines || fresh(l)
      {
        ghost var T1, changes1 := Text(), changes;
        assert commands[i] in commands;
        Execute(commands[i]);
        DamagedThen(T, changes0, T1, changes1, Text(), changes);
        assert commands[..i + 1] == commands[..i] + [commands[i]];
        LeadsOn(commands[..i], run, commands[i], State());
        run := run + [State()];
      }
      assert commands[..|commands|] == commands;
    }

    /** A whole operation on the screen: its changes are batched and drawn at its end. The commands make a run of the
        history: undoing the groups left, and those forgotten, leads to the same base as before. */
    method Operation(commands: seq<Command>, screen: D.Screen<string>, scrolled: bool, clientWidth: nat, top: int,
                     lineHeight: int, clientHeight: int)
      returns (bad: bool, ghost run: seq<U.State>, ghost forgotten: seq<U.Group>, ghost visibleFrom: nat,
          ghost visibleTo: nat)
      requires Valid() && screen.Shows(Text()) && forall c | c in commands :: Proper(c)
      requires lineHeight > 0 && clientHeight >= 0 && top + clientHeight >= 0
      modifies `work, `changes, history, screen, doc`tree, Chunks(doc.tree), LineSet(Flat(doc.tree))
      ensures Valid() && Leads(commands, run) && run[0] == old(State()) && run[|commands|] == State()
      ensures U.FitsAll(forgotten + history.done, Text()) && U.Base(forgotten + history.done, Text()) == old(Base())
      ensures screen.Shows(Text()) && !bad && changes == []
      ensures clientWidth > 0 && (scrolled || Text() != old(Text())) ==>
        && screen.showingFrom < screen.showingTo && screen.rows == Text()[screen.showingFrom..screen.showingTo]
        && forall n | 0 <= n < |doc.Contents()| && Shown(doc.Contents(), n, top, lineHeight, clientHeight) ::
             screen.showingFrom <= n < screen.showingTo
      ensures visibleFrom <= visibleTo <= |doc.Contents()|
      ensures clientWidth > 0 && (scrolled || Text() != old(Text())) ==>
        && InView(doc.Contents(), visibleFrom, visibleTo, top, lineHeight, clientHeight)
        && (screen.FitsWindow(visibleFrom, visibleTo, |doc.Contents()|) ||
            (Text() == old(Text()) && old(screen.showingFrom) < visibleFrom && visibleTo < old(screen.showingTo)
             && screen.showingFrom == old(screen.showingFrom) && screen.showingTo == old(screen.showingTo)))
      ensures forall o | o in Chunks(doc.tree) :: o in old(Chunks(doc.tree)) || fresh(o)
      ensures forall l | l in LineSet(Flat(doc.tree)) :: l in old(LineSet(Flat(doc.tree))) || fresh(l)
    {
      hide DocOk, Texts, Flat, Chunks, LineSet, Damaged, U.FitsAll, U.Base, Performed, Shown, InView, D.CoversAll;
      ghost var T := Text();
      NotChunk(doc.tree, this);
      NotChunk(doc.tree, screen);
      changes := [];
      run := Perform(commands);
      CoveredSince(T, Text(), changes);
      forgotten := GroupsForgotten(commands, run);
      bad, visibleFrom, visibleTo := EndOperation(screen, scrolled, clientWidth, top, lineHeight, clientHeight, T);
    }

    // Undoes the changes of a group from the last to the first; out are the changes that bring them back.
    method UndoGroup(set_: U.Group) returns (out: U.Group)
      requires DocOk() && U.FitsGroup(set_, Text())
      modifies `work, `changes, doc`tree, Chunks(doc.tree), LineSet(Flat(doc.tree))
      ensures DocOk() && Text() == U.UndoneGroup(set_, old(Text())) && out == U.InverseGroup(set_, old(Text()))
      ensures Damaged(old(Text()), old(changes), Text(), changes)
      ensures forall o | o in Chunks(doc.tree) :: o in old(Chunks(doc.tree)) || fresh(o)
      ensures forall l | l in LineSet(Flat(doc.tree)) :: l in old(LineSet(Flat(doc.tree))) || fresh(l)
    {
      hide Doc.Valid, AllSpelled, Texts, Flat, Chunks, LineSet, Kept, Damaged, U.FitsGroup, U.UndoneGroup,
          U.InverseGroup, U.Fits, U.Undone;
      ghost var T := Text();
      ghost var chunks, lines, changes0 := Chunks(doc.tree), LineSet(Flat(doc.tree)), changes;
      out := [];
      NotDamaged(T, changes);
      assert set_[..|set_|] == set_;
      for i := |set_| downto 0
        invariant DocOk() && U.FitsGroup(set_[..i], Text())
        invariant U.UndoneGroup(set_[..i], Text()) == U.UndoneGroup(set_, T)
        invariant out + U.InverseGroup(set_[..i], Text()) == U.InverseGroup(set_, T)
        invariant Damaged(T, changes0, Text(), changes)
        invariant forall o | o in Chunks(doc.tree) :: o in chunks || fresh(o)
        invariant forall l | l in LineSet(Flat(doc.tree)) :: l in lines || fresh(l)
      {
        var change := set_[i];
        assert set_[..i + 1][..i] == set_[..i] && set_[..i + 1][i] == change;
        U.GroupLast(set_[..i + 1], Text());
        ghost var T1, changes1 := Text(), changes;
        var replaced := Unredo1(change);
        DamagedThen(T, changes0, T1, changes1, Text(), changes);
        out := out + [U.Change(change.start, |change.old_|, replaced)];
      }
      U.NoGroup(Text());
      assert set_[..0] == [];
    }
  }

  lemma ReplacedSize(T: seq<string>, from: Pos, to: Pos, newText: seq<string>)
    requires IsRange(T, from, to) && |newText| >= 1
    ensures |Replaced(T, from, to, newText)| == |T| + |newText| - (to.line - from.line) - 1 >= 1
  {
  }

  // A recorded change is undone by replacing its lines from the first character to the last.
  lemma ChangeIsEdit(c: U.Change, T: seq<string>)
    requires U.Fits(c, T)
    ensures 0 < c.start + c.added <= |T|
    ensures var from, to := Pos(c.start, 0), Pos(c.start + c.added - 1, |T[c.start + c.added - 1]|);
      IsRange(T, from, to) && Replaced(T, from, to, c.old_) == U.Undone(c, T)
  {
    var from, to := Pos(c.start, 0), Pos(c.start + c.added - 1, |T[c.start + c.added - 1]|);
    var n := |c.old_|;
    assert T[from.line][..0] + c.old_[0] == c.old_[0];
    assert c.old_[n - 1] + T[to.line][to.ch..] == c.old_[n - 1];
    assert Middle(T, from, to, c.old_) == c.old_;
  }

  // What an edit is recorded as.
  ghost function EditChange(T: seq<string>, from: Pos, to: Pos, newText: seq<string>): U.Change
    requires IsRange(T, from, to)
  {
    U.Change(from.line, |newText|, T[from.line..to.line + 1])
  }

  // An edit is the change that its old lines undo.
  lemma EditIsChange(T: seq<string>, from: Pos, to: Pos, newText: seq<string>)
    requires IsRange(T, from, to) && |newText| >= 1
    ensures var c, T' := EditChange(T, from, to, newText), Replaced(T, from, to, newText);
      U.Fits(c, T') && U.Undone(c, T') == T
  {
    CutBack(T[..from.line], Middle(T, from, to, newText), T[to.line + 1..]);
    assert T == T[..from.line] + T[from.line..to.line + 1] + T[to.line + 1..];
  }

  lemma CutBack<T>(a: seq<T>, b: seq<T>, c: seq<T>)
    ensures (a + b + c)[..|a|] == a && (a + b + c)[|a| + |b|..] == c
  {
  }

  lemma AllKnown(C: seq<Item>)
    ensures forall it | it in C :: allocated(it.line)
  {
  }

  lemma OutcomeParts(doc: Doc, C: seq<Item>, T: seq<string>, from: Pos, to: Pos, newText: seq<string>)
    requires IsRange(T, from, to) && |newText| >= 1 && |C| == |T|
    requires Outcome(doc, C, T, from, to, newText)
    ensures doc.Valid() && AllSpelled(doc.Contents())
    ensures Texts(doc.Contents()) == Replaced(T, from, to, newText)
    ensures Kept(doc.Contents(), C, from, to, newText)
  {
  }

  method Rework(work: seq<int>, first: int, last: int, diff: int) returns (newWork: seq<int>)
    ensures newWork == Reworked(work, first, last, diff)
  {
    newWork := [];
    for i := 0 to |work|
      invariant newWork == Reworked(work[..i], first, last, diff)
    {
      var entry := work[i];
      assert work[..i + 1][..i] == work[..i];
      if entry < first {
        newWork := newWork + [entry];
      } else if entry > last {
        newWork := newWork + [entry + diff];
      }
    }
    assert work[..|work|] == work;
  }

  // The pending lines after an edit are exactly the untouched ones, at their new numbers.
  lemma {:induction false} ReworkedMeans(work: seq<int>, first: int, last: int, diff: int, t: int)
    requires first <= last
    ensures t in Reworked(work, first, last, diff) <==>
        (t < first && t in work) || (t - diff > last && t - diff in work)
  {
    if work != [] {
      var rest, entry := work[..|work| - 1], work[|work| - 1];
      ReworkedMeans(rest, first, last, diff, t);
      assert work == rest + [entry];
      assert forall u :: u in work <==> u in rest || u == entry;
    }
  }

  // A pending line number still names the line it named before the edit.
  lemma WorkFollows(work: seq<int>, C: seq<Item>, C0: seq<Item>, from: Pos, to: Pos, newText: seq<string>, t: int)
    requires from.line <= to.line < |C0| && |newText| >= 1 && Kept(C, C0, from, to, newText)
    requires t in Reworked(work, from.line, to.line, |newText| - (to.line - from.line) - 1)
    ensures var diff := |newText| - (to.line - from.line) - 1;
      var was := if t < from.line && t in work then t else t - diff;
      was in work && (0 <= was < |C0| ==> 0 <= t < |C| && C[t] == C0[was])
  {
    var diff := |newText| - (to.line - from.line) - 1;
    ReworkedMeans(work, from.line, to.line, diff, t);
    if !(t < from.line && t in work) && t - diff < |C0| {
      assert C[(t - diff) + diff] == C0[t - diff];
    }
  }

  /** After an edit, line j of the document is the one that was line i exactly if: i is in front of the range, and j the
      same; or i is behind it, and j moved by the difference in lines; or the edit was one of whole lines, i is the one
      behind those replaced, and j the last of the new ones; or it was not, and both are the first, or with line breaks
      in the new text both are the last. All other lines are in no document any more. */
  lemma HandleFollows(doc: Doc, C0: seq<Item>, from: Pos, to: Pos, newText: seq<string>, i: nat, j: nat)
    requires doc.Valid() && from.line <= to.line < |C0| && |newText| >= 1 && Kept(doc.Contents(), C0, from, to, newText)
    requires i < |C0| && j < |doc.Contents()|
    ensures var whole := from.ch == 0 && to.ch == 0 && newText[|newText| - 1] == "";
      var end := from.line + |newText| - 1;
      && (doc.Contents()[j].line == C0[i].line <==>
            || (i < from.line && j == i)
            || (i > to.line && j == i + end - to.line)
            || (i == to.line && whole && j == end)
            || (i == from.line && !whole && j == i)
            || (i == to.line > from.line && !whole && |newText| >= 2 && j == end))
      && (from.line <= i < to.line && (whole || i != from.line) ==> C0[i].line.parent == null)
      && (i == to.line > from.line && !whole && |newText| == 1 ==> C0[i].line.parent == null)
  {
    hide Doc.Valid;
    DocFacts(doc);
    var C, n := doc.Contents(), |newText|;
    var whole, end := from.ch == 0 && to.ch == 0 && newText[n - 1] == "", from.line + n - 1;
    var k := if i < from.line then i else if i > to.line then i + end - to.line
      else if whole || i != from.line then end else i;
    if i > to.line { assert C[i + (n - (to.line - from.line) - 1)] == C0[i]; }
    SameIndex(doc, j, k);
  }

  lemma {:induction false} NotChunk(t: Tree, o: object)
    requires !(o is LeafChunk) && !(o is BranchChunk)
    ensures o !in Chunks(t)
    decreases t
  {
    if t.BranchT? { NotChunkL(t.kids, o); }
  }

  lemma {:induction false} NotChunkL(ts: seq<Tree>, o: object)
    requires !(o is LeafChunk) && !(o is BranchChunk)
    ensures o !in ChunksL(ts)
    decreases ts
  {
    if ts != [] {
      NotChunk(ts[0], o);
      NotChunkL(ts[1..], o);
    }
  }
}
