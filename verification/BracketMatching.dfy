// Finding the bracket that belongs to another one, over runs and lines of the same style.
module BracketMatching {
  import opened Prelude
  import opened Styles

  // A bracket that the scan stops at.
  datatype Tok = Tok(line: int, pos: int, ch: char)

  // The scan goes on with a stack of open brackets, or has come to an end.
  datatype Scanned = Going(stack: string) | Found(tok: Tok, match_: bool)

  predicate IsBracket(ch: char) {
    ch == '(' || ch == ')' || ch == '[' || ch == ']' || ch == '{' || ch == '}'
  }

  function Partner(ch: char): char {
    match ch
    case '(' => ')'
    case ')' => '('
    case '[' => ']'
    case ']' => '['
    case '{' => '}'
    case '}' => '{'
    case _ => ch
  }

  // Whether a bracket opens, for a scan in this direction.
  predicate Opens(ch: char, forward: bool) {
    (ch == '(' || ch == '[' || ch == '{') == forward
  }

  // One bracket, as the scan treats it.
  function Next(stack: string, tok: Tok, forward: bool): Scanned {
    if Opens(tok.ch, forward) then Going(stack + [tok.ch])
    else if stack == [] || stack[|stack| - 1] != Partner(tok.ch) then Found(tok, false)
    else if |stack| == 1 then Found(tok, true)
    else Going(stack[..|stack| - 1])
  }

  ghost predicate AllBrackets(toks: seq<Tok>) {
    forall i | 0 <= i < |toks| :: IsBracket(toks[i].ch)
  }

  ghost function ScanAll(stack: string, toks: seq<Tok>, forward: bool): Scanned
    decreases |toks|
  {
    if toks == [] then Going(stack)
    else match Next(stack, toks[0], forward)
      case Found(t, m) => Found(t, m)
      case Going(s) => ScanAll(s, toks[1..], forward)
  }

  lemma {:induction false} RunConcat(stack: string, a: seq<Tok>, b: seq<Tok>, forward: bool)
    ensures ScanAll(stack, a + b, forward) ==
      match ScanAll(stack, a, forward) case Found(t, m) => Found(t, m) case Going(s) => ScanAll(s, b, forward)
    decreases |a|
  {
    if a == [] {
      assert a + b == b;
    } else {
      assert (a + b)[1..] == a[1..] + b && (a + b)[0] == a[0];
      match Next(stack, a[0], forward)
      case Found(_, _) =>
      case Going(s) => RunConcat(s, a[1..], b, forward);
    }
  }

  // Balanced words: pairs of brackets around and next to each other.
  datatype Word = Empty | Wrap(open: char, inside: Word, rest: Word)

  ghost predicate IsWord(w: Word, forward: bool) {
    w.Wrap? ==> IsBracket(w.open) && Opens(w.open, forward) && IsWord(w.inside, forward) && IsWord(w.rest, forward)
  }

  ghost function Spell(w: Word): string {
    match w
    case Empty => ""
    case Wrap(open, inside, rest) => [open] + Spell(inside) + [Partner(open)] + Spell(rest)
  }

  ghost function Chars(toks: seq<Tok>): (s: string)
    ensures |s| == |toks| && forall i | 0 <= i < |s| :: s[i] == toks[i].ch
  {
    seq(|toks|, i requires 0 <= i < |toks| => toks[i].ch)
  }

  // A balanced word leaves the stack as it was.
  lemma {:induction false} WordKeepsStack(w: Word, stack: string, toks: seq<Tok>, forward: bool)
    requires IsWord(w, forward) && Chars(toks) == Spell(w) && stack != ""
    ensures ScanAll(stack, toks, forward) == Going(stack)
    decreases w
  {
    hide ScanAll, Next, Opens, IsBracket, Partner;
    if w.Wrap? {
      var inside, rest := WordParts(w, toks);
      WordKeepsStack(w.inside, stack + [w.open], inside, forward);
      WordKeepsStack(w.rest, stack, rest, forward);
      var open, close := toks[0], toks[|inside| + 1];
      OpenClose(stack, open, close, forward);
      RunOne(stack, open, forward);
      RunOne(stack + [w.open], close, forward);
      RunConcat(stack + [w.open], [close], rest, forward);
      RunConcat(stack + [w.open], inside, [close] + rest, forward);
      RunConcat(stack, [open], inside + ([close] + rest), forward);
    } else {
      assert toks == [];
      RunNone(stack, forward);
    }
  }

  lemma RunNone(stack: string, forward: bool)
    ensures ScanAll(stack, [], forward) == Going(stack)
  {
  }

  lemma WordParts(w: Word, toks: seq<Tok>) returns (inside: seq<Tok>, rest: seq<Tok>)
    requires w.Wrap? && Chars(toks) == Spell(w)
    ensures Chars(inside) == Spell(w.inside) && Chars(rest) == Spell(w.rest) && |toks| == |inside| + |rest| + 2
    ensures toks[0].ch == w.open && toks[|inside| + 1].ch == Partner(w.open)
    ensures toks == [toks[0]] + (inside + ([toks[|inside| + 1]] + rest))
  {
    hide Partner, Spell;
    var a, b := Spell(w.inside), Spell(w.rest);
    SpellWrap(w);
    inside, rest := CutWord(toks, w.open, a, Partner(w.open), b);
  }

  lemma CutWord(toks: seq<Tok>, x: char, a: string, y: char, b: string) returns (inside: seq<Tok>, rest: seq<Tok>)
    requires Chars(toks) == [x] + a + [y] + b
    ensures Chars(inside) == a && Chars(rest) == b && |toks| == |inside| + |rest| + 2
    ensures toks[0].ch == x && toks[|inside| + 1].ch == y
    ensures toks == [toks[0]] + (inside + ([toks[|inside| + 1]] + rest))
  {
    var n, s := |a|, Chars(toks);
    assert |toks| == |s| == n + |b| + 2;
    inside, rest := toks[1..n + 1], toks[n + 2..];
    assert s[0] == x && s[n + 1] == y && s[1..n + 1] == a && s[n + 2..] == b;
    assert Chars(inside) == s[1..n + 1] && Chars(rest) == s[n + 2..];
  }

  lemma OpenClose(stack: string, open: Tok, close: Tok, forward: bool)
    requires stack != "" && IsBracket(open.ch) && Opens(open.ch, forward) && close.ch == Partner(open.ch)
    ensures Next(stack, open, forward) == Going(stack + [open.ch])
        && Next(stack + [open.ch], close, forward) == Going(stack)
  {
    PartnerCloses(open.ch, forward);
    assert (stack + [open.ch])[..|stack|] == stack;
  }

  lemma RunOne(stack: string, tok: Tok, forward: bool)
    ensures ScanAll(stack, [tok], forward) == Next(stack, tok, forward)
  {
    assert [tok][1..] == [];
  }

  lemma PartnerCloses(ch: char, forward: bool)
    requires IsBracket(ch) && Opens(ch, forward)
    ensures IsBracket(Partner(ch)) && !Opens(Partner(ch), forward) && Partner(Partner(ch)) == ch
  {
  }

  // What is read until the stack is empty: below each open bracket a balanced word and its partner.
  ghost function Unwound(stack: string, words: seq<Word>): string
    requires |stack| == |words|
  {
    if stack == "" then ""
    else var n := |stack| - 1; Spell(words[n]) + [Partner(stack[n])] + Unwound(stack[..n], words[..n])
  }

  ghost predicate AllWords(words: seq<Word>, forward: bool) {
    forall k | 0 <= k < |words| :: IsWord(words[k], forward)
  }

  // Whatever ends in a match reads like that.
  lemma {:induction false} MatchUnwinds(stack: string, toks: seq<Tok>, forward: bool) returns (words: seq<Word>, k: nat)
    requires AllBrackets(toks) && stack != ""
    requires ScanAll(stack, toks, forward).Found? && ScanAll(stack, toks, forward).match_
    ensures |words| == |stack| && AllWords(words, forward)
    ensures k < |toks| && toks[k] == ScanAll(stack, toks, forward).tok
    ensures Chars(toks[..k + 1]) == Unwound(stack, words)
    decreases |toks|
  {
    hide Opens, IsBracket, Partner, Unwound, AllWords;
    var n := |stack| - 1;
    var tok, rest := toks[0], toks[1..];
    if Opens(tok.ch, forward) {
      var words', k' := MatchUnwinds(stack + [tok.ch], rest, forward);
      k := k' + 1;
      words := OpenUnwinds(stack, tok.ch, words', forward);
      CharsCons(toks, k');
    } else {
      if |stack| == 1 {
        words, k := [Empty], 0;
        EmptyUnwinds(forward);
        CloseUnwinds(stack, tok.ch, [], forward);
        assert Chars(toks[..1]) == [tok.ch];
        assert [] + [Empty] == words && stack[..0] == "";
      } else {
        var words', k' := MatchUnwinds(stack[..n], rest, forward);
        k := k' + 1;
        words := words' + [Empty];
        CloseUnwinds(stack, tok.ch, words', forward);
        CharsCons(toks, k');
      }
    }
  }

  lemma CharsCons(toks: seq<Tok>, k: nat)
    requires k + 1 < |toks|
    ensures Chars(toks[..k + 2]) == [toks[0].ch] + Chars(toks[1..][..k + 1])
  {
  }

  lemma EmptyUnwinds(forward: bool)
    ensures Unwound("", []) == "" && AllWords([], forward)
  {
  }

  lemma OpenUnwinds(stack: string, ch: char, words: seq<Word>, forward: bool) returns (words': seq<Word>)
    requires |words| == |stack| + 1 && stack != "" && IsBracket(ch) && Opens(ch, forward) && AllWords(words, forward)
    ensures |words'| == |stack| && AllWords(words', forward)
    ensures [ch] + Unwound(stack + [ch], words) == Unwound(stack, words')
  {
    hide Opens, IsBracket, Partner, Spell, Unwound;
    var n := |stack| - 1;
    var w := Wrap(ch, words[n + 1], words[n]);
    words' := words[..n] + [w];
    SpellWrap(w);
    assert stack == stack[..n] + [stack[n]] && words == words[..n + 1] + [words[n + 1]] &&
      words[..n + 1] == words[..n] + [words[n]];
    UnwoundSnoc(stack[..n], stack[n], words[..n], words[n]);
    UnwoundSnoc(stack, ch, words[..n + 1], words[n + 1]);
    UnwoundSnoc(stack[..n], stack[n], words[..n], w);
    Wrapped(ch, Spell(words[n + 1]), Partner(ch), Spell(words[n]),
      [Partner(stack[n])] + Unwound(stack[..n], words[..n]));
  }

  lemma UnwoundSnoc(stack: string, ch: char, words: seq<Word>, w: Word)
    requires |stack| == |words|
    ensures Unwound(stack + [ch], words + [w]) == Spell(w) + ([Partner(ch)] + Unwound(stack, words))
  {
    hide Spell, Partner;
    var above, s, ws := Spell(w) + [Partner(ch)], stack + [ch], words + [w];
    assert s[..|stack|] == stack && ws[..|words|] == words && s[|stack|] == ch && ws[|words|] == w;
    assert Unwound(s, ws) == above + Unwound(stack, words);
    Regroup(Spell(w), [Partner(ch)], Unwound(stack, words));
  }

  lemma Regroup(a: string, b: string, c: string)
    ensures (a + b) + c == a + (b + c)
  {
  }

  lemma Wrapped(ch: char, inside: string, partner: char, rest: string, more: string)
    ensures [ch] + (inside + ([partner] + (rest + more))) == ([ch] + inside + [partner] + rest) + more
  {
  }

  lemma SpellWrap(w: Word)
    requires w.Wrap?
    ensures Spell(w) == [w.open] + Spell(w.inside) + [Partner(w.open)] + Spell(w.rest)
  {
  }

  lemma CloseUnwinds(stack: string, ch: char, words: seq<Word>, forward: bool)
    requires |words| + 1 == |stack| && stack[|stack| - 1] == Partner(ch) && IsBracket(ch) && AllWords(words, forward)
    ensures AllWords(words + [Empty], forward)
    ensures Unwound(stack, words + [Empty]) == [ch] + Unwound(stack[..|stack| - 1], words)
  {
    hide Partner, IsBracket, IsWord, AllWords, Spell;
    var n, all := |stack| - 1, words + [Empty];
    PartnerBack(ch);
    MoreWords(words, forward);
    SpellEmpty();
    assert all[..n] == words && all[n] == Empty;
    assert Unwound(stack, all) == "" + [ch] + Unwound(stack[..n], words);
  }

  lemma MoreWords(words: seq<Word>, forward: bool)
    requires AllWords(words, forward)
    ensures AllWords(words + [Empty], forward)
  {
  }

  lemma SpellEmpty()
    ensures Spell(Empty) == ""
  {
  }

  lemma PartnerBack(ch: char)
    requires IsBracket(ch)
    ensures Partner(Partner(ch)) == ch
  {
  }

  ghost predicate Between(open: char, toks: seq<Tok>, forward: bool, tok: Tok, w: Word, k: nat) {
    k < |toks| && toks[k] == tok && tok.ch == Partner(open) && IsWord(w, forward) && Chars(toks[..k]) == Spell(w)
  }

  /** The scan from one bracket reports a match exactly at its partner: the first place where what lies
      between is a balanced word over the three kinds of brackets. */
  lemma MatchIsBalanced(open: char, toks: seq<Tok>, forward: bool, tok: Tok)
    requires IsBracket(open) && Opens(open, forward) && AllBrackets(toks)
    ensures ScanAll([open], toks, forward) == Found(tok, true) <==>
        exists w, k: nat :: Between(open, toks, forward, tok, w, k)
  {
    hide ScanAll, Between, Opens;
    if ScanAll([open], toks, forward) == Found(tok, true) {
      var w, k := MatchBetween(open, toks, forward);
      assert Between(open, toks, forward, tok, w, k);
    }
    if w, k: nat :| Between(open, toks, forward, tok, w, k) {
      BetweenMatches(open, toks, forward, tok, w, k);
    }
  }

  lemma MatchBetween(open: char, toks: seq<Tok>, forward: bool) returns (w: Word, k: nat)
    requires IsBracket(open) && Opens(open, forward) && AllBrackets(toks)
    requires ScanAll([open], toks, forward).Found? && ScanAll([open], toks, forward).match_
    ensures Between(open, toks, forward, ScanAll([open], toks, forward).tok, w, k)
  {
    hide ScanAll, Opens, IsBracket, Partner;
    var words;
    words, k := MatchUnwinds([open], toks, forward);
    w := words[0];
    EmptyUnwinds(forward);
    assert [open][..0] == "" && words[..0] == [];
    var s := Chars(toks[..k + 1]);
    assert s == Spell(w) + [Partner(open)];
    assert Chars(toks[..k]) == s[..k] && toks[k].ch == s[k];
  }

  lemma BetweenMatches(open: char, toks: seq<Tok>, forward: bool, tok: Tok, w: Word, k: nat)
    requires IsBracket(open) && Opens(open, forward) && Between(open, toks, forward, tok, w, k)
    ensures ScanAll([open], toks, forward) == Found(tok, true)
  {
    hide ScanAll, Opens, IsBracket, Partner;
    WordKeepsStack(w, [open], toks[..k], forward);
    LastClose(open, tok, forward);
    RunOne([open], tok, forward);
    RunConcat([open], toks[..k], [tok], forward);
    RunConcat([open], toks[..k] + [tok], toks[k + 1..], forward);
    assert toks == toks[..k] + [tok] + toks[k + 1..];
  }

  lemma LastClose(open: char, tok: Tok, forward: bool)
    requires IsBracket(open) && Opens(open, forward) && tok.ch == Partner(open)
    ensures Next([open], tok, forward) == Found(tok, true)
  {
    PartnerCloses(open, forward);
  }

  // Brackets that are still open, each with a balanced word behind it.
  ghost function Opened(stack: string, words: seq<Word>): string
    requires |stack| == |words|
  {
    if stack == "" then ""
    else var n := |stack| - 1; Opened(stack[..n], words[..n]) + [stack[n]] + Spell(words[n])
  }

  ghost predicate Pending(open: char, toks: seq<Tok>, forward: bool, stack: string, words: seq<Word>) {
    && |stack| == |words| && stack != "" && stack[0] == open && AllWords(words, forward)
    && (forall k | 0 <= k < |stack| :: IsBracket(stack[k]) && Opens(stack[k], forward))
    && Opened(stack, words) == [open] + Chars(toks)
  }

  // Behind what is still open, a bracket closes that does not belong to the last one open.
  ghost predicate Clashes(open: char, toks: seq<Tok>, forward: bool, tok: Tok, stack: string, words: seq<Word>,
      k: nat) {
    && k < |toks| && toks[k] == tok && !Opens(tok.ch, forward)
    && Pending(open, toks[..k], forward, stack, words) && tok.ch != Partner(stack[|stack| - 1])
  }

  lemma OpenedSnoc(stack: string, ch: char, words: seq<Word>, w: Word)
    requires |stack| == |words|
    ensures Opened(stack + [ch], words + [w]) == Opened(stack, words) + [ch] + Spell(w)
  {
    assert (stack + [ch])[..|stack|] == stack && (words + [w])[..|words|] == words;
  }

  // A word with another behind it.
  ghost function Then(w: Word, x: Word): Word {
    match w
    case Empty => x
    case Wrap(open, inside, rest) => Wrap(open, inside, Then(rest, x))
  }

  lemma {:induction false} ThenSpells(w: Word, x: Word, forward: bool)
    ensures Spell(Then(w, x)) == Spell(w) + Spell(x)
    ensures IsWord(w, forward) && IsWord(x, forward) ==> IsWord(Then(w, x), forward)
  {
    if w.Wrap? {
      ThenSpells(w.rest, x, forward);
      Regroup([w.open] + Spell(w.inside) + [Partner(w.open)], Spell(w.rest), Spell(x));
    }
  }

  // The brackets of one more token.
  lemma CharsSnoc(toks: seq<Tok>, t: Tok)
    ensures Chars(toks + [t]) == Chars(toks) + [t.ch]
  {
  }

  lemma PendingOpens(open: char, toks: seq<Tok>, forward: bool, stack: string, words: seq<Word>, t: Tok)
    requires Pending(open, toks, forward, stack, words) && IsBracket(t.ch) && Opens(t.ch, forward)
    ensures Pending(open, toks + [t], forward, stack + [t.ch], words + [Empty])
  {
    hide Spell, Opened, IsBracket, Opens;
    MoreWords(words, forward);
    OpenedSnoc(stack, t.ch, words, Empty);
    SpellEmpty();
    CharsSnoc(toks, t);
    assert Opened(stack, words) + [t.ch] + "" == [open] + (Chars(toks) + [t.ch]);
  }

  lemma PendingCloses(open: char, toks: seq<Tok>, forward: bool, stack: string, words: seq<Word>,
      t: Tok) returns (words': seq<Word>)
    requires Pending(open, toks, forward, stack, words) && |stack| >= 2 && t.ch == Partner(stack[|stack| - 1])
    ensures Pending(open, toks + [t], forward, stack[..|stack| - 1], words')
  {
    hide Spell, Opened, IsBracket, Opens, Partner;
    var n := |stack| - 1;
    var last, x := words[n - 1], Wrap(stack[n], words[n], Empty);
    words' := words[..n - 1] + [Then(last, x)];
    assert IsWord(words[n], forward) && IsWord(last, forward) && IsWord(x, forward);
    ThenSpells(last, x, forward);
    SpellWrap(x);
    SpellEmpty();
    CharsSnoc(toks, t);
    assert stack == stack[..n - 1] + [stack[n - 1]] + [stack[n]] && stack[..n] == stack[..n - 1] + [stack[n - 1]];
    assert words == words[..n - 1] + [last] + [words[n]];
    OpenedSnoc(stack[..n - 1], stack[n - 1], words[..n - 1], last);
    OpenedSnoc(stack[..n - 1] + [stack[n - 1]], stack[n], words[..n - 1] + [last], words[n]);
    OpenedSnoc(stack[..n - 1], stack[n - 1], words[..n - 1], Then(last, x));
    Closed(Opened(stack[..n - 1], words[..n - 1]) + [stack[n - 1]], Spell(last), stack[n], Spell(words[n]), t.ch,
      open, Chars(toks));
  }

  lemma Closed(front: string, last: string, top: char, inside: string, ch: char, open: char, chars: string)
    requires front + last + [top] + inside == [open] + chars
    ensures front + (last + ([top] + inside + [ch] + "")) == [open] + (chars + [ch])
  {
    assert front + (last + ([top] + inside + [ch] + "")) == (front + last + [top] + inside) + [ch];
  }

  // Where the scan stops without a match.
  lemma {:induction false} ClashAt(open: char, done: seq<Tok>, toks: seq<Tok>, forward: bool, stack: string,
      words: seq<Word>, tok: Tok)
    returns (stack': string, words': seq<Word>, k: nat)
    requires Pending(open, done, forward, stack, words) && AllBrackets(toks)
        && ScanAll(stack, toks, forward) == Found(tok, false)
    ensures Clashes(open, done + toks, forward, tok, stack', words', k)
    decreases |toks|
  {
    hide Pending, IsBracket, Opens, Partner;
    var t := toks[0];
    assert IsBracket(t.ch) && (done + toks)[|done|] == t && (done + toks)[..|done|] == done;
    PendingParts(open, done, forward, stack, words);
    PartnerBack(t.ch);
    PartnerBack(stack[|stack| - 1]);
    if Next(stack, t, forward).Found? {
      stack', words', k := stack, words, |done|;
    } else {
      var words1;
      if Opens(t.ch, forward) {
        words1 := words + [Empty];
        PendingOpens(open, done, forward, stack, words, t);
      } else {
        words1 := PendingCloses(open, done, forward, stack, words, t);
      }
      stack', words', k := ClashAt(open, done + [t], toks[1..], forward, Next(stack, t, forward).stack, words1, tok);
      assert (done + [t]) + toks[1..] == done + toks;
    }
  }

  lemma PendingParts(open: char, toks: seq<Tok>, forward: bool, stack: string, words: seq<Word>)
    requires Pending(open, toks, forward, stack, words)
    ensures stack != "" && |stack| == |words| && stack[0] == open && AllWords(words, forward)
    ensures IsBracket(stack[|stack| - 1]) && Opens(stack[|stack| - 1], forward)
  {
  }

  // What is still open is what the scan has on its stack.
  lemma {:induction false} PendingRuns(open: char, toks: seq<Tok>, forward: bool, stack: string, words: seq<Word>)
    requires Pending(open, toks, forward, stack, words)
    ensures ScanAll([open], toks, forward) == Going(stack)
    decreases |stack|
  {
    hide ScanAll, IsBracket, Opens, Partner, Spell;
    var n := |stack| - 1;
    var front, w := stack[..n], words[n];
    assert IsWord(w, forward);
    if n == 0 {
      assert words[..0] == [] && front == "" && Opened(front, words[..0]) == "";
      assert "" + [open] + Spell(w) == [open] + Spell(w);
      Tails(open, Spell(w), Chars(toks));
      assert stack == [open];
      WordKeepsStack(w, stack, toks, forward);
    } else {
      var low := Opened(front, words[..n]);
      var k := |low| - 1;
      LowStarts(open, front, words[..n]);
      var a, t, b := toks[..k], toks[k], toks[k + 1..];
      SplitAt(open, low, stack[n], Spell(w), toks, k);
      assert Pending(open, a, forward, front, words[..n]);
      PendingRuns(open, a, forward, front, words[..n]);
      assert stack == front + [stack[n]];
      PushOne(front, t, forward);
      WordKeepsStack(w, stack, b, forward);
      RunConcat([open], a, [t], forward);
      RunConcat([open], a + [t], b, forward);
      assert toks == a + [t] + b;
    }
  }

  lemma Tails(ch: char, s: string, t: string)
    requires [ch] + s == [ch] + t
    ensures s == t
  {
    assert ([ch] + s)[1..] == s && ([ch] + t)[1..] == t;
  }

  lemma {:induction false} LowStarts(open: char, stack: string, words: seq<Word>)
    requires |stack| == |words| && stack != "" && stack[0] == open
    ensures Opened(stack, words) != "" && Opened(stack, words)[0] == open
  {
    var n := |stack| - 1;
    if n > 0 { LowStarts(open, stack[..n], words[..n]); }
  }

  lemma SplitAt(open: char, low: string, ch: char, word: string, toks: seq<Tok>, k: nat)
    requires low + [ch] + word == [open] + Chars(toks) && |low| == k + 1 && low[0] == open
    ensures k < |toks| && toks[k].ch == ch
    ensures low == [open] + Chars(toks[..k]) && word == Chars(toks[k + 1..])
  {
    var s := Chars(toks);
    assert (low + [ch] + word)[1..] == s && (low + [ch] + word)[1..] == low[1..] + [ch] + word;
    assert s[k] == ch && s[..k] == low[1..] && s[k + 1..] == word;
    assert Chars(toks[..k]) == s[..k] && Chars(toks[k + 1..]) == s[k + 1..];
  }

  lemma PushOne(stack: string, t: Tok, forward: bool)
    requires Opens(t.ch, forward)
    ensures ScanAll(stack, [t], forward) == Going(stack + [t.ch])
  {
    RunOne(stack, t, forward);
  }

  /** The scan stops without a match exactly at a bracket that closes where another one would have to. */
  lemma StopIsClash(open: char, toks: seq<Tok>, forward: bool, tok: Tok)
    requires IsBracket(open) && Opens(open, forward) && AllBrackets(toks)
    ensures ScanAll([open], toks, forward) == Found(tok, false)
      <==> exists stack, words, k: nat :: Clashes(open, toks, forward, tok, stack, words, k)
  {
    hide ScanAll, Opens, IsBracket, Partner, Pending;
    if ScanAll([open], toks, forward) == Found(tok, false) {
      OnePending(open, forward);
      var stack, words, k := ClashAt(open, [], toks, forward, [open], [Empty], tok);
      assert [] + toks == toks;
    }
    if stack, words, k: nat :| Clashes(open, toks, forward, tok, stack, words, k) {
      PendingParts(open, toks[..k], forward, stack, words);
      PendingRuns(open, toks[..k], forward, stack, words);
      assert toks[k] in toks && IsBracket(tok.ch);
      ClashOne(stack, tok, forward);
      RunConcat([open], toks[..k], [tok], forward);
      RunConcat([open], toks[..k] + [tok], toks[k + 1..], forward);
      assert toks == toks[..k] + [tok] + toks[k + 1..];
    }
  }

  lemma OnePending(open: char, forward: bool)
    requires IsBracket(open) && Opens(open, forward)
    ensures Pending(open, [], forward, [open], [Empty])
  {
    var none: seq<Word> := [];
    assert Opened("", none) == "" && [open][..0] == "" && [Empty][..0] == none;
    assert Opened([open], [Empty]) == "" + [open] + "";
  }

  lemma ClashOne(stack: string, tok: Tok, forward: bool)
    requires stack != "" && !Opens(tok.ch, forward) && tok.ch != Partner(stack[|stack| - 1]) && IsBracket(tok.ch)
    ensures ScanAll(stack, [tok], forward) == Found(tok, false)
  {
    RunOne(stack, tok, forward);
    PartnerBack(tok.ch);
  }

  // The bracket tokens of a line from one position on in the direction of the scan, inside from..to.
  ghost function Toks(line: int, cells: seq<Cell>, style: Style, from: int, to: int, pos: int,
      forward: bool): (toks: seq<Tok>)
    ensures AllBrackets(toks)
    decreases if forward then |cells| - pos else pos
  {
    if !(0 <= pos < |cells|) then []
    else
      var rest := Toks(line, cells, style, from, to, if forward then pos + 1 else pos - 1, forward);
      if from <= pos < to && cells[pos].style == style && IsBracket(cells[pos].ch)
        then [Tok(line, pos, cells[pos].ch)] + rest else rest
  }

  // A run of another style has no tokens.
  lemma {:induction false} SkipRun(line: int, cells: seq<Cell>, style: Style, from: int, to: int, pos: int,
      forward: bool, n: nat)
    requires var lo := if forward then pos else pos - n + 1;
      0 <= lo && lo + n <= |cells| && forall p | lo <= p < lo + n :: cells[p].style != style
    ensures Toks(line, cells, style, from, to, pos, forward) ==
      Toks(line, cells, style, from, to, if forward then pos + n else pos - n, forward)
    decreases n
  {
    if n > 0 {
      assert cells[pos].style != style;
      SkipRun(line, cells, style, from, to, if forward then pos + 1 else pos - 1, forward, n - 1);
    }
  }

  // One character of the scan.
  lemma ToksStep(line: int, cells: seq<Cell>, style: Style, from: int, to: int, pos: int, forward: bool, stack: string)
    requires 0 <= pos < |cells|
    ensures var rest := Toks(line, cells, style, from, to, if forward then pos + 1 else pos - 1, forward);
      var tok := Tok(line, pos, cells[pos].ch);
      ScanAll(stack, Toks(line, cells, style, from, to, pos, forward), forward) ==
        if from <= pos < to && cells[pos].style == style && IsBracket(cells[pos].ch) then
          (match Next(stack, tok, forward) case Found(t, m) => Found(t, m) case Going(s) => ScanAll(s, rest, forward))
        else ScanAll(stack, rest, forward)
  {
    hide Next, IsBracket;
    var rest := Toks(line, cells, style, from, to, if forward then pos + 1 else pos - 1, forward);
    var tok := Tok(line, pos, cells[pos].ch);
    assert ([tok] + rest)[1..] == rest;
  }

  // Reads one line in the direction of the scan, run by run.
  method Scan(line: int, text: string, runs: seq<Run>, style: Style, forward: bool, from: int, to: int,
      stack0: string) returns (r: Scanned)
    requires Text(Cells(runs)) == text && stack0 != ""
    ensures r == ScanAll(stack0,
      Toks(line, Cells(runs), style, from, to, if forward then 0 else |text| - 1, forward), forward)
    ensures r.Going? ==> r.stack != ""
  {
    hide Cells, Paint, Toks, ScanAll, Next, IsBracket, Opens, Partner, Text;
    ghost var cells := Cells(runs);
    TextSize(cells);
    ghost var whole := ScanAll(stack0,
      Toks(line, cells, style, from, to, if forward then 0 else |text| - 1, forward), forward);
    if text == "" {
      NoToks(line, cells, style, from, to, if forward then 0 else -1, forward, stack0);
      return Going(stack0);
    }
    var d := if forward then 1 else -1;
    var stack, pos := stack0, if forward then 0 else |text| - 1;
    var i, e := if forward then 0 else |runs| - 1, if forward then |runs| else -1;
    Ends(runs);
    while i != e
      invariant -1 <= i <= |runs| && 0 <= Bound(i, forward) <= |runs|
      invariant pos == |Cells(runs[..Bound(i, forward)])| - (if forward then 0 else 1)
      invariant ScanAll(stack, Toks(line, cells, style, from, to, pos, forward), forward) == whole
      invariant stack != ""
      decreases if forward then |runs| - i else i + 1
    {
      RunCells(runs, i);
      if runs[i].style != style {
        SkipRun(line, cells, style, from, to, pos, forward, |runs[i].text|);
        pos := pos + d * |runs[i].text|;
      } else {
        r := ScanRun(line, cells, runs[i].text, style, forward, from, to, stack, pos, |Cells(runs[..i])|);
        if r.Found? { return; }
        stack := r.stack;
        pos := pos + d * |runs[i].text|;
      }
      i := i + d;
    }
    NoToks(line, cells, style, from, to, pos, forward, stack);
    r := Going(stack);
  }

  // How many runs lie in front of the scan.
  function Bound(i: int, forward: bool): int {
    if forward then i else i + 1
  }

  // Reads one run of the right style.
  method ScanRun(line: int, ghost cells: seq<Cell>, text: string, style: Style, forward: bool, from: int, to: int,
      stack0: string, pos0: int, ghost start: nat)
    returns (r: Scanned)
    requires start + |text| <= |cells| && cells[start..start + |text|] == Paint(text, style)
    requires pos0 == (if forward then start else start + |text| - 1) && stack0 != ""
    ensures var toks, rest := Toks(line, cells, style, from, to, pos0, forward),
          Toks(line, cells, style, from, to, if forward then pos0 + |text| else pos0 - |text|, forward);
      ScanAll(stack0, toks, forward) ==
        match r case Found(t, m) => Found(t, m) case Going(s) => ScanAll(s, rest, forward)
    ensures r.Going? ==> r.stack != ""
  {
    hide Paint, Toks, ScanAll, IsBracket, Opens, Partner;
    var d := if forward then 1 else -1;
    var stack, pos := stack0, pos0;
    ghost var whole := ScanAll(stack0, Toks(line, cells, style, from, to, pos0, forward), forward);
    var j, te := if forward then 0 else |text| - 1, if forward then |text| else -1;
    while j != te
      invariant -1 <= j <= |text| && pos == start + j && stack != "" && (if forward then j >= 0 else j < |text|)
      invariant ScanAll(stack, Toks(line, cells, style, from, to, pos, forward), forward) == whole
      decreases if forward then |text| - j else j + 1
    {
      PaintAt(cells, text, style, start, j);
      ToksStep(line, cells, style, from, to, pos, forward, stack);
      var cur := text[j];
      if pos >= from && pos < to && IsBracket(cur) {
        if Opens(cur, forward) {
          stack := stack + [cur];
        } else {
          var top := stack[|stack| - 1];
          stack := stack[..|stack| - 1];
          if top != Partner(cur) { return Found(Tok(line, pos, cur), false); }
          if |stack| == 0 { return Found(Tok(line, pos, cur), true); }
        }
      }
      j, pos := j + d, pos + d;
    }
    r := Going(stack);
  }

  lemma PaintAt(cells: seq<Cell>, text: string, style: Style, start: nat, j: nat)
    requires start + |text| <= |cells| && cells[start..start + |text|] == Paint(text, style) && j < |text|
    ensures cells[start + j] == Cell(text[j], style)
  {
    assert cells[start + j] == cells[start..start + |text|][j];
  }

  lemma TextSize(cells: seq<Cell>)
    ensures |Text(cells)| == |cells|
  {
  }

  lemma NoToks(line: int, cells: seq<Cell>, style: Style, from: int, to: int, pos: int, forward: bool, stack: string)
    requires !(0 <= pos < |cells|)
    ensures ScanAll(stack, Toks(line, cells, style, from, to, pos, forward), forward) == Going(stack)
  {
  }

  lemma Ends(runs: seq<Run>)
    ensures |Cells(runs[..0])| == 0 && Cells(runs[..|runs|]) == Cells(runs)
  {
    assert runs[..|runs|] == runs;
  }

  // Where run i lies among the styled characters.
  lemma RunCells(runs: seq<Run>, i: nat)
    requires i < |runs|
    ensures var start, n := |Cells(runs[..i])|, |runs[i].text|;
      && start + n <= |Cells(runs)| && |Cells(runs[..i + 1])| == start + n
      && Cells(runs)[start..start + n] == Paint(runs[i].text, runs[i].style)
      && forall p | start <= p < start + n :: Cells(runs)[p].style == runs[i].style
  {
    hide Cells;
    Piece(runs, i, 0, |runs[i].text|);
    assert runs[i].text[0..|runs[i].text|] == runs[i].text;
    var start, n := |Cells(runs[..i])|, |runs[i].text|;
    forall p | start <= p < start + n ensures Cells(runs)[p].style == runs[i].style {
      PaintAt(Cells(runs), runs[i].text, runs[i].style, start, p - start);
    }
  }

  // A line as the editor keeps it: its text and the runs that spell it.
  datatype StyledLine = StyledLine(text: string, styles: seq<Run>)

  ghost predicate Spelled(lines: seq<StyledLine>) {
    forall i | 0 <= i < |lines| :: Text(Cells(lines[i].styles)) == lines[i].text
  }

  // The brackets of line i that a scan from pos of line head looks at.
  ghost function LineToks(lines: seq<StyledLine>, i: nat, style: Style, head: int, pos: int, forward: bool): seq<Tok>
    requires i < |lines|
  {
    var line := lines[i];
    var from := if i == head && forward then pos + 1 else 0;
    var to := if i == head && !forward then pos else |line.text|;
    Toks(i, Cells(line.styles), style, from, to, if forward then 0 else |line.text| - 1, forward)
  }

  // ... and of the lines from i to e, which is not reached.
  ghost function LinesToks(lines: seq<StyledLine>, i: int, e: int, style: Style, head: int, pos: int,
      forward: bool): (toks: seq<Tok>)
    ensures AllBrackets(toks)
    decreases if forward then e - i else i - e
  {
    if !(0 <= i < |lines|) || (if forward then i >= e else i <= e) then []
    else
      var next := if forward then i + 1 else i - 1;
      LineToks(lines, i, style, head, pos, forward) + LinesToks(lines, next, e, style, head, pos, forward)
  }

  // The brackets of a line that a scan reads.
  lemma {:induction false} ToksAre(line: int, cells: seq<Cell>, style: Style, from: int, to: int, pos: int,
      forward: bool, t: Tok)
    requires if forward then 0 <= pos <= |cells| else -1 <= pos < |cells|
    ensures t in Toks(line, cells, style, from, to, pos, forward) <==>
      && t.line == line && 0 <= t.pos < |cells| && from <= t.pos < to &&
        (if forward then pos <= t.pos else t.pos <= pos)
      && cells[t.pos].ch == t.ch && t.ch in "()[]{}" && cells[t.pos].style == style
    decreases if forward then |cells| - pos else pos
  {
    if 0 <= pos < |cells| {
      ToksAre(line, cells, style, from, to, if forward then pos + 1 else pos - 1, forward, t);
      AnyBracket(cells[pos].ch);
    }
  }

  // The place of a bracket in the order of the scan.
  predicate Ahead(t: Tok, u: Tok, forward: bool) {
    if forward then t.line < u.line || (t.line == u.line && t.pos < u.pos)
    else t.line > u.line || (t.line == u.line && t.pos > u.pos)
  }

  /** What a scan from a bracket reads: on the lines up to the end, behind the bracket in the direction of the scan,
      exactly the brackets of its style. */
  lemma {:induction false} LinesToksAre(lines: seq<StyledLine>, i: int, e: int, style: Style, head: int, pos: int,
      forward: bool, t: Tok)
    requires Spelled(lines) && -1 <= e <= |lines| && if forward then 0 <= i <= |lines| else -1 <= i < |lines|
    ensures t in LinesToks(lines, i, e, style, head, pos, forward) <==>
      && (if forward then i <= t.line < e else e < t.line <= i) && 0 <= t.line < |lines|
      && 0 <= t.pos < |lines[t.line].text|
      && (t.line == head ==> if forward then t.pos > pos else t.pos < pos)
      && lines[t.line].text[t.pos] == t.ch && t.ch in "()[]{}"
      && |Cells(lines[t.line].styles)| == |lines[t.line].text| && Cells(lines[t.line].styles)[t.pos].style == style
    decreases if forward then e - i else i - e
  {
    hide Toks, Cells, Text;
    if 0 <= i < |lines| && (if forward then i < e else i > e) {
      LinesToksAre(lines, if forward then i + 1 else i - 1, e, style, head, pos, forward, t);
      LineToksAre(lines, i, style, head, pos, forward, t);
    }
    if 0 <= t.line < |lines| { TextSize(Cells(lines[t.line].styles)); }
  }

  lemma LineToksAre(lines: seq<StyledLine>, i: nat, style: Style, head: int, pos: int, forward: bool, t: Tok)
    requires Spelled(lines) && i < |lines|
    ensures t in LineToks(lines, i, style, head, pos, forward) <==>
      && t.line == i && 0 <= t.pos < |lines[i].text|
      && (i == head ==> if forward then t.pos > pos else t.pos < pos)
      && lines[i].text[t.pos] == t.ch && t.ch in "()[]{}"
      && |Cells(lines[i].styles)| == |lines[i].text| && Cells(lines[i].styles)[t.pos].style == style
  {
    hide Toks, Cells;
    var line := lines[i];
    var cells := Cells(line.styles);
    TextSize(cells);
    ToksAre(i, cells, style, if i == head && forward then pos + 1 else 0,
      if i == head && !forward then pos else |line.text|,
            if forward then 0 else |line.text| - 1, forward, t);
  }

  /** The scan reads them in order. */
  lemma {:induction false} LinesToksOrder(lines: seq<StyledLine>, i: int, e: int, style: Style, head: int, pos: int,
      forward: bool, k: nat, l: nat)
    requires Spelled(lines) && -1 <= e <= |lines| && if forward then 0 <= i <= |lines| else -1 <= i < |lines|
    requires k < l < |LinesToks(lines, i, e, style, head, pos, forward)|
    ensures var toks := LinesToks(lines, i, e, style, head, pos, forward); Ahead(toks[k], toks[l], forward)
    decreases if forward then e - i else i - e
  {
    hide Toks, Cells, LineToks;
    var next := if forward then i + 1 else i - 1;
    var a, b := LineToks(lines, i, style, head, pos, forward), LinesToks(lines, next, e, style, head, pos, forward);
    if k < |a| { LineToksAre(lines, i, style, head, pos, forward, a[k]); }
    if l < |a| {
      LineToksOrder(lines, i, style, head, pos, forward, k, l);
    } else if k >= |a| {
      LinesToksOrder(lines, next, e, style, head, pos, forward, k - |a|, l - |a|);
    } else {
      LinesToksAre(lines, next, e, style, head, pos, forward, b[l - |a|]);
    }
  }

  lemma LineToksOrder(lines: seq<StyledLine>, i: nat, style: Style, head: int, pos: int, forward: bool, k: nat, l: nat)
    requires Spelled(lines) && i < |lines| && k < l < |LineToks(lines, i, style, head, pos, forward)|
    ensures var toks := LineToks(lines, i, style, head, pos, forward); Ahead(toks[k], toks[l], forward)
  {
    hide Toks, Cells;
    var line := lines[i];
    var cells := Cells(line.styles);
    TextSize(cells);
    ToksOrder(i, cells, style, if i == head && forward then pos + 1 else 0,
      if i == head && !forward then pos else |line.text|,
              if forward then 0 else |line.text| - 1, forward, k, l);
  }

  lemma {:induction false} ToksOrder(line: int, cells: seq<Cell>, style: Style, from: int, to: int, pos: int,
      forward: bool, k: nat, l: nat)
    requires if forward then 0 <= pos <= |cells| else -1 <= pos < |cells|
    requires k < l < |Toks(line, cells, style, from, to, pos, forward)|
    ensures var toks := Toks(line, cells, style, from, to, pos, forward); Ahead(toks[k], toks[l], forward)
    decreases if forward then |cells| - pos else pos
  {
    var next := if forward then pos + 1 else pos - 1;
    var rest := Toks(line, cells, style, from, to, next, forward);
    if rest == Toks(line, cells, style, from, to, pos, forward) {
      ToksOrder(line, cells, style, from, to, next, forward, k, l);
    } else if k > 0 {
      ToksOrder(line, cells, style, from, to, next, forward, k - 1, l - 1);
    } else {
      ToksAre(line, cells, style, from, to, next, forward, rest[l - 1]);
    }
  }

  // The style of the character at pos.
  method StyleAt(styles: seq<Run>, pos: nat) returns (style: Style)
    requires pos < |Cells(styles)|
    ensures style == Cells(styles)[pos].style
  {
    hide Cells, Paint;
    var off: int := pos + 1;
    Ends(styles);
    for i := 0 to |styles|
      invariant off == pos + 1 - |Cells(styles[..i])| && off > 0
    {
      RunCells(styles, i);
      off := off - |styles[i].text|;
      if off <= 0 { return styles[i].style; }
    }
    assert false;
  }

  // Where the line scan of a direction ends: a hundred lines on, or at the end of the document.
  function ScanEnd(lines: seq<StyledLine>, head: int, forward: bool): int {
    if forward then (if head + 100 < |lines| then head + 100 else |lines|)
    else (if head - 100 > -1 then head - 100 else -1)
  }

  // The bracket in front of the cursor, or else behind it.
  function BracketAt(text: string, ch: nat): Option<nat> {
    if 0 < ch <= |text| && IsBracket(text[ch - 1]) then Some(ch - 1)
    else if ch < |text| && IsBracket(text[ch]) then Some(ch)
    else None
  }

  /** Finds the bracket next to the cursor and scans for its partner among the brackets of the same style. */
  method MatchBrackets(lines: seq<StyledLine>, head: nat, ch: nat) returns (start: Option<nat>, found: Option<Tok>,
      match_: bool)
    requires Spelled(lines) && head < |lines| && ch <= |lines[head].text|
    ensures var text := lines[head].text;
      start == if ch > 0 && text[ch - 1] in "()[]{}" then Some(ch - 1)
               else if ch < |text| && text[ch] in "()[]{}" then Some(ch) else None
    ensures match_ ==> start.Some? && found.Some?
    ensures start.Some? ==>
      var open := lines[head].text[start.value];
      var forward := open in "([{";
      var e := if forward then (if head + 100 < |lines| then head + 100 else |lines|)
        else (if head >= 100 then head - 100 else -1);
      start.value < |Cells(lines[head].styles)| &&
      var toks := LinesToks(lines, head, e, Cells(lines[head].styles)[start.value].style, head, start.value, forward);
      if match_ then
        && (if forward then [open, found.value.ch] else [found.value.ch, open]) in ["()", "[]", "{}"]
        && exists w, k: nat :: Between(open, toks, forward, found.value, w, k)
      else
        && (forall tok, w, k: nat :: !Between(open, toks, forward, tok, w, k))
        && if found.Some? then exists stack, words, k: nat :: Clashes(open, toks, forward, found.value, stack, words, k)
           else forall tok, stack, words, k: nat :: !Clashes(open, toks, forward, tok, stack, words, k)
  {
    hide Cells, Text, IsBracket, Opens, Partner, ScanAll, Toks, Between, Clashes;
    var text := lines[head].text;
    start, found, match_ := BracketAt(text, ch), None, false;
    if ch > 0 { AnyBracket(text[ch - 1]); }
    if ch < |text| { AnyBracket(text[ch]); }
    if start.None? { return; }
    var pos := start.value;
    TextSize(Cells(lines[head].styles));
    var style := StyleAt(lines[head].styles, pos);
    var open := text[pos];
    var forward := Opens(open, true);
    OpensItself(open);
    ghost var toks := LinesToks(lines, head, ScanEnd(lines, head, forward), style, head, pos, forward);
    var r := ScanLines(lines, style, head, pos, forward, [open]);
    if r.Found? { found, match_ := Some(r.tok), r.match_; }
    NoFalseMatch(open, toks, forward, r);
    AnyBracket(open);
    PartnerIs(open);
  }

  lemma AnyBracket(ch: char)
    ensures IsBracket(ch) <==> ch in "()[]{}"
    ensures Opens(ch, true) <==> ch in "([{"
  {
    assert ch in "()[]{}" <==> ch == '(' || ch == ')' || ch == '[' || ch == ']' || ch == '{' || ch == '}';
    assert ch in "([{" <==> ch == '(' || ch == '[' || ch == '{';
  }

  /** There are three pairs of brackets. */
  lemma PartnerIs(ch: char)
    requires ch in "()[]{}"
    ensures (if ch in "([{" then [ch, Partner(ch)] else [Partner(ch), ch]) in ["()", "[]", "{}"]
  {
    AnyBracket(ch);
    var pairs := ["()", "[]", "{}"];
    assert pairs[0] in pairs && pairs[1] in pairs && pairs[2] in pairs;
  }

  lemma OpensItself(ch: char)
    ensures Opens(ch, Opens(ch, true))
  {
  }

  lemma BetweenPartner(open: char, toks: seq<Tok>, forward: bool, tok: Tok)
    requires exists w, k: nat :: Between(open, toks, forward, tok, w, k)
    ensures tok.ch == Partner(open)
  {
  }

  // What the result of the scan says about every bracket.
  lemma NoFalseMatch(open: char, toks: seq<Tok>, forward: bool, r: Scanned)
    requires IsBracket(open) && Opens(open, forward) && AllBrackets(toks) && r == ScanAll([open], toks, forward)
    ensures if r.Found? && r.match_ then
              r.tok.ch == Partner(open) && exists w, k: nat :: Between(open, toks, forward, r.tok, w, k)
            else
              && (forall tok, w, k: nat :: !Between(open, toks, forward, tok, w, k))
              && if r.Found? then exists stack, words, k: nat :: Clashes(open, toks, forward, r.tok, stack, words, k)
                 else forall tok, stack, words, k: nat :: !Clashes(open, toks, forward, tok, stack, words, k)
  {
    hide ScanAll, Between, Clashes, Opens, IsBracket;
    if r.Found? && r.match_ {
      MatchIsBalanced(open, toks, forward, r.tok);
      BetweenPartner(open, toks, forward, r.tok);
    } else {
      forall tok, w, k: nat ensures !Between(open, toks, forward, tok, w, k) {
        MatchIsBalanced(open, toks, forward, tok);
      }
      if r.Found? {
        StopIsClash(open, toks, forward, r.tok);
      } else {
        forall tok, stack, words, k: nat ensures !Clashes(open, toks, forward, tok, stack, words, k) {
          StopIsClash(open, toks, forward, tok);
        }
      }
    }
  }

  method ScanLines(lines: seq<StyledLine>, style: Style, head: nat, pos: nat, forward: bool,
      stack0: string) returns (r: Scanned)
    requires Spelled(lines) && head < |lines| && stack0 != ""
    ensures r == ScanAll(stack0, LinesToks(lines, head, ScanEnd(lines, head, forward), style, head, pos, forward),
      forward)
  {
    hide Cells, Text, ScanAll, Toks;
    var d := if forward then 1 else -1;
    var i: int, e := head, ScanEnd(lines, head, forward);
    var stack := stack0;
    ghost var whole := ScanAll(stack0, LinesToks(lines, head, e, style, head, pos, forward), forward);
    while i != e
      invariant (if forward then head <= i <= e else e <= i <= head) && stack != ""
      invariant ScanAll(stack, LinesToks(lines, i, e, style, head, pos, forward), forward) == whole
      decreases if forward then e - i else i - e
    {
      var line := lines[i];
      RunConcat(stack, LineToks(lines, i, style, head, pos, forward),
        LinesToks(lines, i + d, e, style, head, pos, forward), forward);
      r := Scan(i, line.text, line.styles, style, forward, if i == head && forward then pos + 1 else 0,
                if i == head && !forward then pos else |line.text|, stack);
      if r.Found? { return; }
      stack := r.stack;
      i := i + d;
    }
    RunNone(stack, forward);
    r := Going(stack);
  }
}
