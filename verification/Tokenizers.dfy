// Tokenizers: what a mode does to one line after another.
module Tokenizers {
  import opened Prelude
  import opened Styles

  // A token ends at pos; state is what the mode remembers from then on.
  datatype Token<S> = Token(pos: nat, style: Style, state: S)

  /** A language mode. Of the states that ok admits at a position of a line, rank says how often
      the mode may look at the rest of the line again before it moves on. */
  datatype Mode<!S> = Mode(
    token: (string, nat, S) -> Token<S>,
    blankLine: S -> S,
    ok: (string, nat, S) -> bool,
    rank: S -> nat)

  // Inside a line the mode moves on, or gets closer to moving on; at the end it is ready for any next line.
  ghost predicate Advances<S(!new)>(mode: Mode<S>) {
    && (forall text, p: nat, s | p < |text| && mode.ok(text, p, s) :: Moves(mode, text, p, s))
    && (forall text, s, next | mode.ok(text, |text|, s) :: mode.ok(next, 0, s))
    && (forall s | mode.ok("", 0, s) :: mode.ok("", 0, mode.blankLine(s)))
  }

  ghost predicate Moves<S(!new)>(mode: Mode<S>, text: string, p: nat, s: S) {
    var t := mode.token(text, p, s);
    && p <= t.pos <= |text|
    && mode.ok(text, t.pos, t.state)
    && (t.pos > p || mode.rank(t.state) < mode.rank(s))
  }

  // The styled characters of text[p..]; a token that ends behind limit is the last one.
  ghost function Painted<S(!new)>(mode: Mode<S>, text: string, p: nat, s: S, limit: nat): (cells: seq<Cell>)
    requires Advances(mode) && p <= |text| && mode.ok(text, p, s)
    ensures Text(cells) == text[p..]
    decreases |text| - p, mode.rank(s)
  {
    if p == |text| then []
    else
      assert Moves(mode, text, p, s);
      var t := mode.token(text, p, s);
      var rest := if t.pos > limit then Paint(text[t.pos..], None) else Painted(mode, text, t.pos, t.state, limit);
      assert text[p..] == text[p..t.pos] + text[t.pos..];
      Paint(text[p..t.pos], t.style) + rest
  }

  // The state that the mode is in after the line, or after the token that ended behind limit.
  ghost function After<S(!new)>(mode: Mode<S>, text: string, p: nat, s: S, limit: nat): S
    requires Advances(mode) && p <= |text| && mode.ok(text, p, s)
    decreases |text| - p, mode.rank(s)
  {
    if p == |text| then s
    else
      assert Moves(mode, text, p, s);
      var t := mode.token(text, p, s);
      if t.pos > limit then t.state else After(mode, text, t.pos, t.state, limit)
  }

  lemma PaintedStep<S(!new)>(mode: Mode<S>, text: string, p: nat, s: S, limit: nat)
    requires Advances(mode) && p < |text| && mode.ok(text, p, s)
    ensures Moves(mode, text, p, s)
    ensures var t := mode.token(text, p, s);
      && p <= t.pos <= |text| && mode.ok(text, t.pos, t.state)
      && Painted(mode, text, p, s, limit) == Paint(text[p..t.pos], t.style)
           + (if t.pos > limit then Paint(text[t.pos..], None) else Painted(mode, text, t.pos, t.state, limit))
      && After(mode, text, p, s, limit) == (if t.pos > limit then t.state else After(mode, text, t.pos, t.state, limit))
  {
    assert Moves(mode, text, p, s);
  }

  lemma PaintedEnd<S(!new)>(mode: Mode<S>, text: string, s: S, limit: nat)
    requires Advances(mode) && mode.ok(text, |text|, s)
    ensures Painted(mode, text, |text|, s, limit) == [] && After(mode, text, |text|, s, limit) == s
  {
  }

  // A line within the limit is tokenized to its end, and leaves the mode ready for the next one.
  lemma {:induction false} WithinLimit<S(!new)>(mode: Mode<S>, text: string, p: nat, s: S, limit: nat)
    requires Advances(mode) && p <= |text| <= limit && mode.ok(text, p, s)
    ensures Painted(mode, text, p, s, limit) == Painted(mode, text, p, s, |text|)
    ensures After(mode, text, p, s, limit) == After(mode, text, p, s, |text|)
    ensures mode.ok(text, |text|, After(mode, text, p, s, limit))
    decreases |text| - p, mode.rank(s)
  {
    if p < |text| {
      assert Moves(mode, text, p, s);
      var t := mode.token(text, p, s);
      WithinLimit(mode, text, t.pos, t.state, limit);
    }
  }
}
