// The undo history: what changes mean, and how they are recorded.
module UndoHistory {

  // Lines start..start+added of the text stand where old used to be.
  datatype Change = Change(start: nat, added: nat, old_: seq<string>)

  type Text = seq<string>
  type Group = seq<Change>

  ghost predicate Fits(c: Change, t: Text) {
    c.start + c.added <= |t| && c.added >= 1 && |c.old_| >= 1
  }

  // The text with one change undone.
  ghost function Undone(c: Change, t: Text): Text
    requires Fits(c, t)
  {
    t[..c.start] + c.old_ + t[c.start + c.added..]
  }

  // The change that undoes the undoing.
  ghost function Inverse(c: Change, t: Text): Change
    requires Fits(c, t)
  {
    Change(c.start, |c.old_|, t[c.start..c.start + c.added])
  }

  // Changes are undone from the last to the first.
  ghost predicate FitsGroup(g: Group, t: Text) {
    g == [] || (Fits(g[|g| - 1], t) && FitsGroup(g[..|g| - 1], Undone(g[|g| - 1], t)))
  }

  ghost function UndoneGroup(g: Group, t: Text): Text
    requires FitsGroup(g, t)
  {
    if g == [] then t else UndoneGroup(g[..|g| - 1], Undone(g[|g| - 1], t))
  }

  ghost function InverseGroup(g: Group, t: Text): Group
    requires FitsGroup(g, t)
  {
    if g == [] then [] else [Inverse(g[|g| - 1], t)] + InverseGroup(g[..|g| - 1], Undone(g[|g| - 1], t))
  }

  ghost predicate FitsAll(gs: seq<Group>, t: Text) {
    gs == [] || (FitsGroup(gs[|gs| - 1], t) && FitsAll(gs[..|gs| - 1], UndoneGroup(gs[|gs| - 1], t)))
  }

  // The text with all groups undone: the base that the history goes back to.
  ghost function Base(gs: seq<Group>, t: Text): Text
    requires FitsAll(gs, t)
  {
    if gs == [] then t else Base(gs[..|gs| - 1], UndoneGroup(gs[|gs| - 1], t))
  }

  // Undoing an undone change.
  lemma InverseUndoes(c: Change, t: Text)
    requires Fits(c, t)
    ensures Fits(Inverse(c, t), Undone(c, t))
    ensures Undone(Inverse(c, t), Undone(c, t)) == t
    ensures Inverse(Inverse(c, t), Undone(c, t)) == c
  {
  }

  lemma {:induction false} FitsCons(c: Change, g: Group, t: Text)
    ensures FitsGroup([c] + g, t) <==> FitsGroup(g, t) && Fits(c, UndoneGroup(g, t))
    ensures FitsGroup([c] + g, t) ==> UndoneGroup([c] + g, t) == Undone(c, UndoneGroup(g, t))
    ensures FitsGroup([c] + g, t) ==> InverseGroup([c] + g, t) == InverseGroup(g, t) + [Inverse(c, UndoneGroup(g, t))]
  {
    var h := [c] + g;
    if g == [] {
      assert h == [c] && h[..0] == [];
    } else {
      var last, g' := g[|g| - 1], g[..|g| - 1];
      assert h[|h| - 1] == last && h[..|h| - 1] == [c] + g';
      if Fits(last, t) { FitsCons(c, g', Undone(last, t)); }
    }
  }

  // Undo and then redo is the identity, on the text and on the group itself.
  lemma {:induction false} InverseGroupUndoes(g: Group, t: Text)
    requires FitsGroup(g, t)
    ensures FitsGroup(InverseGroup(g, t), UndoneGroup(g, t))
    ensures UndoneGroup(InverseGroup(g, t), UndoneGroup(g, t)) == t
    ensures InverseGroup(InverseGroup(g, t), UndoneGroup(g, t)) == g
  {
    if g != [] {
      var last, g' := g[|g| - 1], g[..|g| - 1];
      var t' := Undone(last, t);
      InverseGroupUndoes(g', t');
      InverseUndoes(last, t);
      FitsCons(Inverse(last, t), InverseGroup(g', t'), UndoneGroup(g', t'));
      assert g == g' + [last];
    }
  }

  // The change that stands for last and then c.
  ghost function Merged(last: Change, c: Change): Change
    requires Touches(last, c)
  {
    var n := |c.old_|;
    var before := if last.start > c.start then last.start - c.start else 0;
    var behind := if c.start + n > last.start + last.added then c.start + n - (last.start + last.added) else 0;
    Change(if before > 0 then c.start else last.start,
           last.added + c.added - (n - before - behind),
           c.old_[..before] + last.old_ + c.old_[n - behind..])
  }

  // The new change overlaps the last one, or is right next to it.
  predicate Touches(last: Change, c: Change) {
    && last.start <= c.start + |c.old_|
    && c.start <= last.start + last.added
    && last.added >= 1 && c.added >= 1 && |c.old_| >= 1 && |last.old_| >= 1
  }

  // Undoing the merged change is undoing the new one and then the last one.
  lemma MergedMeans(last: Change, c: Change, t: Text)
    requires Fits(c, t) && Fits(last, Undone(c, t)) && Touches(last, c)
    ensures Fits(Merged(last, c), t)
    ensures Undone(Merged(last, c), t) == Undone(last, Undone(c, t))
  {
    var m, t1 := Merged(last, c), Undone(c, t);
    MergedFront(last, c, t);
    MergedBack(last, c, t);
    hide Touches, Fits, Undone, Merged;
    var before, n, e := if last.start > c.start then last.start - c.start else 0, |c.old_|, last.start + last.added;
    var behind := if c.start + n > e then c.start + n - e else 0;
    MergedOld(last, c);
    UndoneIs(m, t);
    UndoneIs(last, t1);
    Regroup(t[..m.start], c.old_[..before], last.old_, c.old_[n - behind..], t[m.start + m.added..]);
  }

  lemma UndoneIs(c: Change, t: Text)
    requires Fits(c, t)
    ensures c.start + c.added <= |t| && Undone(c, t) == t[..c.start] + c.old_ + t[c.start + c.added..]
  {
  }

  lemma MergedOld(last: Change, c: Change)
    requires Touches(last, c)
    ensures var before, n, e := if last.start > c.start then last.start - c.start else 0, |c.old_|,
      last.start + last.added;
      var behind := if c.start + n > e then c.start + n - e else 0;
      before <= n && behind <= n && Merged(last, c).old_ == c.old_[..before] + last.old_ + c.old_[n - behind..]
  {
  }

  lemma Regroup(a: Text, b: Text, c: Text, d: Text, e: Text)
    ensures a + (b + c + d) + e == (a + b) + c + (d + e)
  {
  }

  lemma MergedFront(last: Change, c: Change, t: Text)
    requires Fits(c, t) && Fits(last, Undone(c, t)) && Touches(last, c)
    ensures var before := if last.start > c.start then last.start - c.start else 0;
      before <= |c.old_| && Undone(c, t)[..last.start] == t[..Merged(last, c).start] + c.old_[..before]
  {
  }

  lemma MergedBack(last: Change, c: Change, t: Text)
    requires Fits(c, t) && Fits(last, Undone(c, t)) && Touches(last, c)
    ensures Fits(Merged(last, c), t)
    ensures var m, n, e := Merged(last, c), |c.old_|, last.start + last.added;
      var behind := if c.start + n > e then c.start + n - e else 0;
      Undone(c, t)[e..] == c.old_[n - behind..] + t[m.start + m.added..]
  {
  }

  // The groups after one more change: appended to the open group, a group of its own, or merged into the last change.
  ghost function Recorded(gs: seq<Group>, c: Change, fresh_: bool, append: bool): seq<Group>
    requires append ==> gs != []
    requires !append && !fresh_ ==> gs != [] && gs[|gs| - 1] != [] && Touches(Last(gs), c)
  {
    if append then gs[|gs| - 1 := gs[|gs| - 1] + [c]]
    else if fresh_ then gs + [[c]]
    else var cur := gs[|gs| - 1]; gs[|gs| - 1 := cur[..|cur| - 1] + [Merged(cur[|cur| - 1], c)]]
  }

  // One of the three ways was chosen.
  ghost predicate RecordedAs(gs: seq<Group>, c: Change, all: seq<Group>) {
    || (gs != [] && all == Recorded(gs, c, false, true))
    || all == Recorded(gs, c, true, false)
    || (gs != [] && gs[|gs| - 1] != [] && Touches(Last(gs), c) && all == Recorded(gs, c, false, false))
  }

  /** The groups after one more change at a given time: what the open compound, the time, the closed flag and the
      distance of the two changes decide. */
  ghost predicate RecordedAt(gs: seq<Group>, time: int, compound: nat, closed: bool, now: int, c: Change,
      all: seq<Group>) {
    if compound > 0 && gs != [] && !closed then
      all == gs[..|gs| - 1] + [gs[|gs| - 1] + [c]]
    else if now - time > 400 || gs == [] || gs[|gs| - 1] == [] || closed then
      all == gs + [[c]]
    else
      var cur := gs[|gs| - 1];
      var last := cur[|cur| - 1];
      if last.start > c.start + |c.old_| || last.start + last.added < c.start then
        all == gs + [[c]]
      else
        Touches(last, c) && all == gs[..|gs| - 1] + [cur[..|cur| - 1] + [Merged(last, c)]]
  }

  // That is one of the three ways.
  lemma RecordedHow(gs: seq<Group>, time: int, compound: nat, closed: bool, now: int, c: Change, all: seq<Group>)
    returns (fresh_: bool, append: bool)
    requires RecordedAt(gs, time, compound, closed, now, c, all)
    ensures (append ==> gs != []) && (!append && !fresh_ ==> gs != [] && gs[|gs| - 1] != [] && Touches(Last(gs), c))
    ensures all == Recorded(gs, c, fresh_, append)
  {
    hide Merged, Touches;
    append := compound > 0 && gs != [] && !closed;
    fresh_ := now - time > 400 || gs == [] || gs[|gs| - 1] == [] || closed
      || Last(gs).start > c.start + |c.old_| || Last(gs).start + Last(gs).added < c.start;
    if gs != [] { assert forall g :: gs[|gs| - 1 := g] == gs[..|gs| - 1] + [g]; }
  }

  lemma IsRecorded(gs: seq<Group>, c: Change, fresh_: bool, append: bool)
    requires append ==> gs != []
    requires !append && !fresh_ ==> gs != [] && gs[|gs| - 1] != [] && Touches(Last(gs), c)
    ensures RecordedAs(gs, c, Recorded(gs, c, fresh_, append))
  {
  }

  function Last(gs: seq<Group>): Change
    requires gs != [] && gs[|gs| - 1] != []
  {
    gs[|gs| - 1][|gs[|gs| - 1]| - 1]
  }

  lemma GroupSnoc(g: Group, c: Change, t: Text)
    requires Fits(c, t)
    ensures FitsGroup(g + [c], t) <==> FitsGroup(g, Undone(c, t))
    ensures FitsGroup(g + [c], t) ==> UndoneGroup(g + [c], t) == UndoneGroup(g, Undone(c, t))
  {
    var h := g + [c];
    assert h[|h| - 1] == c && h[..|h| - 1] == g;
  }

  lemma AllSnoc(gs: seq<Group>, g: Group, t: Text)
    requires FitsGroup(g, t)
    ensures FitsAll(gs + [g], t) <==> FitsAll(gs, UndoneGroup(g, t))
    ensures FitsAll(gs + [g], t) ==> Base(gs + [g], t) == Base(gs, UndoneGroup(g, t))
  {
    var h := gs + [g];
    assert h[|h| - 1] == g && h[..|h| - 1] == gs;
  }

  // However a change is recorded, undoing everything still leads to the same base.
  lemma RecordedBase(gs: seq<Group>, c: Change, t: Text, fresh_: bool, append: bool)
    requires Fits(c, t) && FitsAll(gs, Undone(c, t))
    requires append ==> gs != []
    requires !append && !fresh_ ==> gs != [] && gs[|gs| - 1] != [] && Touches(Last(gs), c)
    ensures FitsAll(Recorded(gs, c, fresh_, append), t)
    ensures Base(Recorded(gs, c, fresh_, append), t) == Base(gs, Undone(c, t))
  {
    hide FitsAll, Base, FitsGroup, UndoneGroup, Undone, Merged;
    var t1 := Undone(c, t);
    if !append && fresh_ {
      NoGroup(t1);
      GroupSnoc([], c, t);
      assert [] + [c] == [c];
      AllSnoc(gs, [c], t);
    } else {
      var cur, rest := gs[|gs| - 1], gs[..|gs| - 1];
      AllLast(gs, t1);
      if append {
        GroupSnoc(cur, c, t);
        InsteadOfLast(gs, cur + [c], t1, t);
      } else {
        var last, front := cur[|cur| - 1], cur[..|cur| - 1];
        GroupLast(cur, t1);
        MergedMeans(last, c, t);
        GroupSnoc(front, Merged(last, c), t);
        InsteadOfLast(gs, front + [Merged(last, c)], t1, t);
      }
    }
  }

  // A group that leads to the same text may take the place of the last one.
  lemma InsteadOfLast(gs: seq<Group>, g: Group, t: Text, t': Text)
    requires gs != [] && FitsAll(gs, t) && FitsGroup(gs[|gs| - 1], t)
    requires FitsGroup(g, t') && UndoneGroup(g, t') == UndoneGroup(gs[|gs| - 1], t)
    ensures FitsAll(gs[|gs| - 1 := g], t') && Base(gs[|gs| - 1 := g], t') == Base(gs, t)
  {
    hide FitsAll, Base, FitsGroup, UndoneGroup;
    AllLast(gs, t);
    AllSnoc(gs[..|gs| - 1], g, t');
    assert gs[|gs| - 1 := g] == gs[..|gs| - 1] + [g];
  }

  lemma NoGroup(t: Text)
    ensures FitsGroup([], t) && UndoneGroup([], t) == t && InverseGroup([], t) == []
    ensures FitsAll([], t) && Base([], t) == t
  {
  }

  lemma {:induction false} GroupSize(g: Group, t: Text)
    requires FitsGroup(g, t) && |t| >= 1
    ensures |UndoneGroup(g, t)| >= 1
  {
    if g != [] { GroupSize(g[..|g| - 1], Undone(g[|g| - 1], t)); }
  }

  lemma AllLast(gs: seq<Group>, t: Text)
    requires FitsAll(gs, t) && gs != []
    ensures var g, rest := gs[|gs| - 1], gs[..|gs| - 1];
      FitsGroup(g, t) && FitsAll(rest, UndoneGroup(g, t)) && Base(gs, t) == Base(rest, UndoneGroup(g, t))
  {
  }

  lemma GroupLast(g: Group, t: Text)
    requires FitsGroup(g, t) && g != []
    ensures Fits(g[|g| - 1], t) && FitsGroup(g[..|g| - 1], Undone(g[|g| - 1], t))
    ensures UndoneGroup(g, t) == UndoneGroup(g[..|g| - 1], Undone(g[|g| - 1], t))
    ensures InverseGroup(g, t) == [Inverse(g[|g| - 1], t)] + InverseGroup(g[..|g| - 1], Undone(g[|g| - 1], t))
  {
  }

  // Moving the last group of one side, inverted, to the other side keeps both sides fitting.
  lemma Swapped(from: seq<Group>, to: seq<Group>, t: Text)
    requires from != [] && FitsAll(from, t) && FitsAll(to, t)
    ensures var g, rest := from[|from| - 1], from[..|from| - 1];
      && FitsGroup(g, t)
      && FitsAll(rest, UndoneGroup(g, t)) && Base(rest, UndoneGroup(g, t)) == Base(from, t)
      && FitsAll(to + [InverseGroup(g, t)], UndoneGroup(g, t))
      && Base(to + [InverseGroup(g, t)], UndoneGroup(g, t)) == Base(to, t)
  {
    hide FitsAll, Base, FitsGroup, UndoneGroup, InverseGroup;
    var g := from[|from| - 1];
    AllLast(from, t);
    InverseGroupUndoes(g, t);
    AllSnoc(to, InverseGroup(g, t), UndoneGroup(g, t));
  }

  // Forgetting the k oldest groups moves the base to where those groups would have started from.
  lemma {:induction false} ForgottenBase(gs: seq<Group>, t: Text, k: nat)
    requires FitsAll(gs, t) && k <= |gs|
    ensures FitsAll(gs[k..], t) && FitsAll(gs[..k], Base(gs[k..], t))
    ensures Base(gs, t) == Base(gs[..k], Base(gs[k..], t))
  {
    if k == |gs| {
      assert gs[..k] == gs && gs[k..] == [];
    } else {
      var g, rest := gs[|gs| - 1], gs[..|gs| - 1];
      ForgottenBase(rest, UndoneGroup(g, t), k);
      assert gs[k..][|gs[k..]| - 1] == g && gs[k..][..|gs[k..]| - 1] == rest[k..];
      assert gs[..k] == rest[..k];
    }
  }

  // Extends the last change by the lines that only the new one covers.
  method Merge(last: Change, start: nat, added: nat, old_: seq<string>) returns (merged: Change)
    requires Touches(last, Change(start, added, old_))
    ensures merged == Merged(last, Change(start, added, old_))
  {
    var startBefore := if last.start > start then last.start - start else 0;
    var end := start + |old_|;
    var endAfter := if end > last.start + last.added then end - (last.start + last.added) else 0;
    var lines := Unshift(last.old_, old_, startBefore);
    lines := Push(lines, old_, endAfter);
    merged := Change(if startBefore > 0 then start else last.start,
      last.added + added - (|old_| - startBefore - endAfter), lines);
  }

  // Puts the first n lines of old_ in front.
  method Unshift(lines0: seq<string>, old_: seq<string>, n: nat) returns (lines: seq<string>)
    requires n <= |old_|
    ensures lines == old_[..n] + lines0
  {
    lines := lines0;
    var i := n;
    assert old_[n..n] + lines0 == lines0;
    while i > 0
      invariant 0 <= i <= n && lines == old_[i..n] + lines0
    {
      assert old_[i - 1..n] == [old_[i - 1]] + old_[i..n];
      lines := [old_[i - 1]] + lines;
      i := i - 1;
    }
  }

  // Puts the last n lines of old_ behind.
  method Push(lines0: seq<string>, old_: seq<string>, n: nat) returns (lines: seq<string>)
    requires n <= |old_|
    ensures lines == lines0 + old_[|old_| - n..]
  {
    lines := lines0;
    var i := n;
    while i > 0
      invariant 0 <= i <= n && lines == lines0 + old_[|old_| - n..|old_| - i]
    {
      assert old_[|old_| - n..|old_| - i + 1] == old_[|old_| - n..|old_| - i] + [old_[|old_| - i]];
      lines := lines + [old_[|old_| - i]];
      i := i - 1;
    }
    assert old_[|old_| - n..|old_|] == old_[|old_| - n..];
  }

  class History {
    var time: int
    var done: seq<Group>
    var undone: seq<Group>
    var compound: nat
    var closed: bool

    constructor ()
      ensures done == [] && undone == [] && compound == 0 && !closed && time == 0
    {
      time, done, undone, compound, closed := 0, [], [], 0, false;
    }

    /** Records a change. In an open compound it joins the last group. Else it starts a group of its own, if more than
        400 ms went by, if there is no last change or the last group is closed, or if it does not touch the last change;
        and else it is merged into the last change. */
    method AddChange(now: int, start: nat, added: nat, old_: seq<string>)
      requires added >= 1 && |old_| >= 1
      requires forall g | g in done :: forall c | c in g :: c.added >= 1 && |c.old_| >= 1
      modifies this
      ensures old(compound) > 0 && old(done) != [] && !old(closed) ==>
        var cur := old(done)[|old(done)| - 1];
        done == old(done)[..|old(done)| - 1] + [cur + [Change(start, added, old_)]]
      ensures !(old(compound) > 0 && old(done) != [] && !old(closed)) ==>
        if now - old(time) > 400 || old(done) == [] || old(done)[|old(done)| - 1] == [] || old(closed) then
          done == old(done) + [[Change(start, added, old_)]]
        else
          var cur := old(done)[|old(done)| - 1];
          var last := cur[|cur| - 1];
          if last.start > start + |old_| || last.start + last.added < start then
            done == old(done) + [[Change(start, added, old_)]]
          else
            && Touches(last, Change(start, added, old_))
            && done == old(done)[..|old(done)| - 1] + [cur[..|cur| - 1] + [Merged(last, Change(start, added, old_))]]
      ensures undone == [] && time == now && compound == old(compound) && !closed
    {
      undone := [];
      if compound > 0 && done != [] && !closed {
        done := done[|done| - 1 := done[|done| - 1] + [Change(start, added, old_)]];
      } else if
        || now - time > 400 || done == [] || done[|done| - 1] == [] || closed
        || Last(done).start > start + |old_| || Last(done).start + Last(done).added < start
      {
        done := done + [[Change(start, added, old_)]];
        closed := false;
      } else {
        var cur := done[|done| - 1];
        var last := cur[|cur| - 1];
        assert cur in done && last in cur;
        var merged := Merge(last, start, added, old_);
        done := done[|done| - 1 := cur[..|cur| - 1] + [merged]];
      }
      time := now;
    }

    method StartCompound()
      modifies this
      ensures compound == old(compound) + 1 && closed == (old(closed) || old(compound) == 0)
      ensures done == old(done) && undone == old(undone) && time == old(time)
    {
      if compound == 0 { closed := true; }
      compound := compound + 1;
    }

    method EndCompound()
      requires compound > 0
      modifies this
      ensures compound == old(compound) - 1 && closed == (old(closed) || compound == 0)
      ensures done == old(done) && undone == old(undone) && time == old(time)
    {
      compound := compound - 1;
      if compound == 0 { closed := true; }
    }
  }

  lemma {:induction false} GroupPositive(g: Group, t: Text)
    requires FitsGroup(g, t)
    ensures forall c | c in g :: c.added >= 1 && |c.old_| >= 1
  {
    if g != [] {
      GroupPositive(g[..|g| - 1], Undone(g[|g| - 1], t));
      assert g == g[..|g| - 1] + [g[|g| - 1]];
    }
  }

  lemma {:induction false} AllPositive(gs: seq<Group>, t: Text)
    requires FitsAll(gs, t)
    ensures forall g | g in gs :: forall c | c in g :: c.added >= 1 && |c.old_| >= 1
  {
    if gs != [] {
      GroupPositive(gs[|gs| - 1], t);
      AllPositive(gs[..|gs| - 1], UndoneGroup(gs[|gs| - 1], t));
      assert gs == gs[..|gs| - 1] + [gs[|gs| - 1]];
    }
  }

  // Records the change that leads from t to t', and forgets the oldest groups beyond depth.
  method Record(history: History, depth: nat, now: int, start: nat, added: nat, old_: seq<string>, ghost t: Text,
      ghost t': Text)
    returns (ghost all: seq<Group>)
    requires FitsAll(history.done, t) && Fits(Change(start, added, old_), t')
        && Undone(Change(start, added, old_), t') == t
    modifies history
    ensures history.undone == [] && history.time == now && history.compound == old(history.compound) && !history.closed
    ensures FitsAll(all, t') && Base(all, t') == Base(old(history.done), t)
    ensures RecordedAs(old(history.done), Change(start, added, old_), all)
    ensures RecordedAt(old(history.done), old(history.time), old(history.compound), old(history.closed), now,
                       Change(start, added, old_), all)
    ensures |history.done| == (if |all| < depth then |all| else depth) && history.done == all[|all| - |history.done|..]
    ensures FitsAll(history.done, t')
  {
    hide FitsAll, Base, Fits, Undone, Recorded, Merged, Touches;
    ghost var c := Change(start, added, old_);
    AllPositive(history.done, t);
    ChangePositive(c, t');
    ghost var gs, time, compound, closed := history.done, history.time, history.compound, history.closed;
    history.AddChange(now, start, added, old_);
    all := history.done;
    ghost var starts, appends := RecordedHow(gs, time, compound, closed, now, c, all);
    RecordedBase(gs, c, t', starts, appends);
    IsRecorded(gs, c, starts, appends);
    Forget(history, depth);
    ForgottenBase(all, t', |all| - |history.done|);
  }

  // Drops the oldest groups until depth are left.
  method Forget(history: History, depth: nat)
    modifies history`done
    ensures var all := old(history.done);
      |history.done| == (if |all| < depth then |all| else depth) && history.done == all[|all| - |history.done|..]
  {
    ghost var all := history.done;
    while |history.done| > depth
      invariant |history.done| <= |all| && history.done == all[|all| - |history.done|..]
      invariant |history.done| >= if |all| < depth then |all| else depth
    {
      DropOne(all, |all| - |history.done|);
      history.done := history.done[1..];
    }
  }

  lemma DropOne<T>(s: seq<T>, k: nat)
    requires k < |s|
    ensures s[k..][1..] == s[k + 1..]
  {
  }

  lemma ChangePositive(c: Change, t: Text)
    requires Fits(c, t)
    ensures c.added >= 1 && |c.old_| >= 1
  {
  }

  // The text together with its history.
  datatype State = State(text: Text, done: seq<Group>, undone: seq<Group>)

  // An edit was made, recorded in any of the three ways, and any number of the oldest groups was forgotten.
  ghost predicate Edited(s: State, s': State) {
    exists c, all :: EditedBy(s, s', c, all)
  }

  ghost predicate EditedBy(s: State, s': State, c: Change, all: seq<Group>) {
    && Fits(c, s'.text) && Undone(c, s'.text) == s.text
    && RecordedAs(s.done, c, all)
    && |s'.done| <= |all| && s'.done == all[|all| - |s'.done|..]
    && s'.undone == []
  }

  // The last group of from went to the other side, inverted, and took the text along.
  ghost predicate Moved(t: Text, from: seq<Group>, to: seq<Group>, t': Text, from': seq<Group>, to': seq<Group>) {
    if from == [] then t' == t && from' == from && to' == to
    else
      var g := from[|from| - 1];
      FitsGroup(g, t) && t' == UndoneGroup(g, t) && from' == from[..|from| - 1] && to' == to + [InverseGroup(g, t)]
  }

  lemma MovedIs(from: seq<Group>, to: seq<Group>, t: Text)
    ensures from == [] ==> Moved(t, from, to, t, from, to)
    ensures from != [] ==>
      var g, rest := from[|from| - 1], from[..|from| - 1];
      FitsGroup(g, t) ==> Moved(t, from, to, UndoneGroup(g, t), rest, to + [InverseGroup(g, t)])
  {
  }

  ghost predicate Undid(s: State, s': State) {
    Moved(s.text, s.done, s.undone, s'.text, s'.done, s'.undone)
  }

  ghost predicate Redid(s: State, s': State) {
    Moved(s.text, s.undone, s.done, s'.text, s'.undone, s'.done)
  }

  // Undo and redo are inverse to each other, whichever comes first.
  lemma UndoRedo(s: State, s1: State, s2: State)
    ensures s.done != [] && Undid(s, s1) && Redid(s1, s2) ==> s2 == s
    ensures s.undone != [] && Redid(s, s1) && Undid(s1, s2) ==> s2 == s
  {
    hide FitsGroup, UndoneGroup, InverseGroup;
    if s.done != [] && Undid(s, s1) && Redid(s1, s2) { InverseGroupUndoes(s.done[|s.done| - 1], s.text); }
    if s.undone != [] && Redid(s, s1) && Undid(s1, s2) { InverseGroupUndoes(s.undone[|s.undone| - 1], s.text); }
  }

  ghost predicate IsRun(run: seq<State>) {
    && |run| >= 1
    && forall i | 0 < i < |run| :: Step(run[i - 1], run[i])
  }

  ghost predicate Step(s: State, s': State) {
    Edited(s, s') || Undid(s, s') || Redid(s, s')
  }

  /** Over every run of edits, undos and redos from a text and a history that fits it: the recorded groups fit the
      text on both sides, and together with the groups forgotten on the way they lead back to the first base. */
  lemma {:induction false} RunKeepsBase(run: seq<State>) returns (forgotten: seq<Group>)
    requires IsRun(run) && FitsAll(run[0].done, run[0].text) && FitsAll(run[0].undone, run[0].text)
    ensures var s := run[|run| - 1];
      && FitsAll(s.done, s.text) && FitsAll(s.undone, s.text)
      && FitsAll(forgotten + s.done, s.text) && Base(forgotten + s.done, s.text) == Base(run[0].done, run[0].text)
  {
    hide FitsAll, Base, FitsGroup, UndoneGroup, InverseGroup, Undone, Recorded, EditedBy;
    var none: seq<Group> := [];
    if |run| == 1 {
      forgotten := none;
      assert none + run[0].done == run[0].done;
    } else {
      var before := run[..|run| - 1];
      var known := RunKeepsBase(before);
      var s, s' := run[|run| - 2], run[|run| - 1];
      assert before[|before| - 1] == s && Step(s, s');
      assert none + s.undone == s.undone;
      assert forall g :: none + (s.undone + [g]) == s.undone + [g];
      if Edited(s, s') {
        var c, all :| EditedBy(s, s', c, all);
        forgotten := EditKeepsBase(s, s', c, all, known);
      } else {
        forgotten := known;
        if Undid(s, s') && s.done != [] {
          MoveKeepsBase(s.done, s.undone, s.text, known, none);
        } else if !Undid(s, s') && s.undone != [] {
          MoveKeepsBase(s.undone, s.done, s.text, none, known);
        }
      }
    }
  }

  lemma EditKeepsBase(s: State, s': State, c: Change, all: seq<Group>,
      known: seq<Group>) returns (forgotten: seq<Group>)
    requires EditedBy(s, s', c, all) && FitsAll(known + s.done, s.text)
    ensures FitsAll(s'.done, s'.text) && FitsAll(s'.undone, s'.text)
    ensures FitsAll(forgotten + s'.done, s'.text)
    ensures Base(forgotten + s'.done, s'.text) == Base(known + s.done, s.text)
  {
    hide FitsAll, Base, FitsGroup, UndoneGroup, InverseGroup, Undone, Merged;
    var k := |all| - |s'.done|;
    forgotten := known + all[..k];
    assert forgotten + s'.done == known + all;
    RecordedBehind(known, s.done, c, all);
    var behind := known + s.done;
    if behind != [] && known + all == Recorded(behind, c, false, true) {
      RecordedBase(behind, c, s'.text, false, true);
    } else if known + all == Recorded(behind, c, true, false) {
      RecordedBase(behind, c, s'.text, true, false);
    } else {
      RecordedBase(behind, c, s'.text, false, false);
    }
    ForgottenBase(known + all, s'.text, |known| + k);
    assert (known + all)[|known| + k..] == s'.done;
    NoGroup(s'.text);
  }

  // Groups before those that the editor still knows make no difference to what is recorded.
  lemma RecordedBehind(known: seq<Group>, gs: seq<Group>, c: Change, all: seq<Group>)
    requires RecordedAs(gs, c, all)
    ensures RecordedAs(known + gs, c, known + all)
  {
    hide Merged, Touches;
    var behind := known + gs;
    if gs != [] {
      assert behind[|behind| - 1] == gs[|gs| - 1];
      LastBehind(known, gs, gs[|gs| - 1] + [c]);
      if gs[|gs| - 1] != [] && Touches(Last(gs), c) {
        var cur := gs[|gs| - 1];
        LastBehind(known, gs, cur[..|cur| - 1] + [Merged(cur[|cur| - 1], c)]);
      }
    }
    assert behind + [[c]] == known + (gs + [[c]]);
  }

  lemma LastBehind(known: seq<Group>, gs: seq<Group>, g: Group)
    requires gs != []
    ensures (known + gs)[|known + gs| - 1 := g] == known + gs[|gs| - 1 := g]
  {
  }

  lemma MoveKeepsBase(from: seq<Group>, to: seq<Group>, t: Text, knownFrom: seq<Group>, knownTo: seq<Group>)
    requires from != [] && FitsAll(from, t) && FitsAll(to, t) && FitsAll(knownFrom + from, t)
        && FitsAll(knownTo + to, t)
    ensures var g, rest := from[|from| - 1], from[..|from| - 1];
      && FitsGroup(g, t)
      && FitsAll(rest, UndoneGroup(g, t)) && FitsAll(to + [InverseGroup(g, t)], UndoneGroup(g, t))
      && FitsAll(knownFrom + rest, UndoneGroup(g, t))
      && Base(knownFrom + rest, UndoneGroup(g, t)) == Base(knownFrom + from, t)
      && FitsAll(knownTo + (to + [InverseGroup(g, t)]), UndoneGroup(g, t))
      && Base(knownTo + (to + [InverseGroup(g, t)]), UndoneGroup(g, t)) == Base(knownTo + to, t)
  {
    hide FitsAll, Base, FitsGroup, UndoneGroup, InverseGroup;
    var g, rest, all := from[|from| - 1], from[..|from| - 1], knownFrom + from;
    Swapped(from, to, t);
    Swapped(all, knownTo + to, t);
    assert all[|all| - 1] == g && all[..|all| - 1] == knownFrom + rest;
    assert knownTo + to + [InverseGroup(g, t)] == knownTo + (to + [InverseGroup(g, t)]);
  }

  /** Undoing everything restores the base, and redoing everything from there restores where it started. */
  lemma {:induction false} UndoAll(run: seq<State>)
    requires |run| >= 1 && |run| == |run[0].done| + 1 && FitsAll(run[0].done, run[0].text)
    requires forall i | 0 < i < |run| :: Undid(run[i - 1], run[i])
    ensures run[|run| - 1].text == Base(run[0].done, run[0].text) && run[|run| - 1].done == []
    decreases |run|
  {
    hide FitsAll, Base, FitsGroup, UndoneGroup, InverseGroup;
    var s := run[0];
    if s.done == [] {
      NoGroup(s.text);
    } else {
      AllLast(s.done, s.text);
      assert Undid(run[0], run[1]);
      var rest := run[1..];
      forall i | 0 < i < |rest| ensures Undid(rest[i - 1], rest[i]) { assert Undid(run[i], run[i + 1]); }
      UndoAll(rest);
    }
  }

  lemma {:induction false} RedoAll(run: seq<State>, n: nat)
    requires |run| == 2 * n + 1 && |run[0].done| >= n
    requires forall i | 0 < i <= n :: Undid(run[i - 1], run[i])
    requires forall i | n < i <= 2 * n :: Redid(run[i - 1], run[i])
    ensures run[2 * n] == run[0]
  {
    hide FitsGroup, UndoneGroup, InverseGroup;
    if n > 0 {
      assert Undid(run[0], run[1]);
      assert Redid(run[2 * n - 1], run[2 * n]);
      var inner := run[1..2 * n];
      assert forall i | 0 <= i < |inner| :: inner[i] == run[i + 1];
      forall i | 0 < i <= n - 1 ensures Undid(inner[i - 1], inner[i]) { assert Undid(run[i], run[i + 1]); }
      forall i | n - 1 < i <= 2 * (n - 1) ensures Redid(inner[i - 1], inner[i]) { assert Redid(run[i], run[i + 1]); }
      RedoAll(inner, n - 1);
      UndoRedo(run[0], run[1], run[2 * n]);
    }
  }
}
