/**
 * The two scanning loops of the translatable component, written the way the Java methods
 * run them (a match position, a sequential cursor and an output built left to right), and
 * the proof that both produce the token-level rendering.
 */
module Render {
  import opened Wrappers
  import opened Exceptions
  import opened Pattern
  import opened Tokens
  import opened Resolution

  /** The `else` branch of `toPlainText`: the `while (matcher.find(position))` loop from
      `position` with cursor `i`, then the tail. `with` holds the arguments' plain
      renderings, or `None` when the list is null. */
  function PlainLoop(t: string, with: Option<seq<string>>, position: nat, i: nat): (r: Result<string, Exception>)
    requires position <= |t|
    ensures r.Failure? ==> r.error != ClassCast
    ensures r.Failure? && with.Some? ==> r.error != NullPointer
    decreases |t| - position
  {
    var found := Find(t, position);
    if found.None? then Success(t[position..])
    else
      var m := found.value;
      var lead := t[position..m.start];
      if m.code.None? then Failure(StringIndexOutOfBounds)
      else if IsArgument(m.code.value) then
        var k :- Resolve(m.index, i, with);
        var rest :- PlainLoop(t, with, m.end, if m.index.None? then i + 1 else i);
        Success(lead + with.value[k] + rest)
      else if m.code.value == '%' then
        var rest :- PlainLoop(t, with, m.end, i);
        Success(lead + "%" + rest)
      else
        var rest :- PlainLoop(t, with, m.end, i);
        Success(lead + rest)
  }

  /** The `else` branch of `toLegacyText`: the same loop, writing `format` (what `addFormat`
      appends) before each non-empty literal run, before each `%` of a `%%` and before a
      non-empty tail. `with` holds the arguments' legacy renderings. */
  function LegacyLoop(t: string, with: Option<seq<string>>, format: string, position: nat, i: nat): (r: Result<string, Exception>)
    requires position <= |t|
    ensures r.Failure? ==> r.error != ClassCast
    ensures r.Failure? && with.Some? ==> r.error != NullPointer
    decreases |t| - position
  {
    var found := Find(t, position);
    if found.None? then Success(if position == |t| then [] else format + t[position..])
    else
      var m := found.value;
      var lead := if m.start == position then [] else format + t[position..m.start];
      if m.code.None? then Failure(StringIndexOutOfBounds)
      else if IsArgument(m.code.value) then
        var k :- Resolve(m.index, i, with);
        var rest :- LegacyLoop(t, with, format, m.end, if m.index.None? then i + 1 else i);
        Success(lead + with.value[k] + rest)
      else if m.code.value == '%' then
        var rest :- LegacyLoop(t, with, format, m.end, i);
        Success(lead + format + "%" + rest)
      else
        var rest :- LegacyLoop(t, with, format, m.end, i);
        Success(lead + rest)
  }

  /** The literal before a match renders as the prefix and its text, or as nothing. */
  lemma ExpandLead(t: string, from: nat, to: nat, before: seq<Token>, with: Option<seq<string>>, prefix: string)
    requires from <= to <= |t|
    ensures Expand(Lead(t, from, to), before, false, with, prefix)
         == Success(if from == to then [] else prefix + t[from..to])
    ensures Sequentials(before + Lead(t, from, to)) == Sequentials(before)
  {
    var lead := Lead(t, from, to);
    SequentialsAppend(before, lead);
    if from < to {
      var s := prefix + t[from..to];
      assert lead[1..] == [];
      assert Expand([], before + [lead[0]], false, with, prefix) == Success([]);
      assert s + [] == s;
      assert Sequentials(lead) == Sequentials(lead[..0]) + 0;
    }
  }

  /** A single placeholder token renders as its piece. */
  lemma ExpandOne(tok: Token, before: seq<Token>, with: Option<seq<string>>, prefix: string)
    ensures Expand([tok], before, false, with, prefix) == Then(Piece(tok, before, with, prefix), Success([]))
    ensures Sequentials(before + [tok]) == Sequentials(before) + (if Advances(tok) then 1 else 0)
  {
    assert [tok][1..] == [];
    assert (before + [tok])[..|before + [tok]| - 1] == before;
  }

  /** Gluing one step's three parts: the lead, the piece of the match, then the rest. */
  lemma ThenSteps(lead: string, piece: Result<string, Exception>, rest: Result<string, Exception>)
    ensures Then(Success(lead), Then(Then(piece, Success([])), rest))
         == (if piece.Failure? then piece
             else if rest.Failure? then rest
             else Success(lead + piece.value + rest.value))
  {
    if piece.Success? && rest.Success? {
      assert piece.value + [] == piece.value;
      assert lead + (piece.value + rest.value) == lead + piece.value + rest.value;
    }
  }

  /** One step of the scan, as tokens: the lead, the match and the scan after the match. */
  lemma ExpandStep(t: string, position: nat, before: seq<Token>, with: Option<seq<string>>, prefix: string)
    requires position <= |t|
    requires Find(t, position).Some? && Find(t, position).value.code.Some?
    ensures var m := Find(t, position).value;
      var s := Spec(t[m.start..m.end], m.index, m.code.value);
      var lead := Lead(t, position, m.start);
      var rest := Lex(t, m.end);
      && Sequentials(before + lead + [s]) == Sequentials(before) + (if Advances(s) then 1 else 0)
      && Expand(Lex(t, position).tokens, before, Lex(t, position).truncated, with, prefix)
         == Then(Success(if position == m.start then [] else prefix + t[position..m.start]),
                 Then(Then(Piece(s, before + lead, with, prefix), Success([])),
                      Expand(rest.tokens, before + lead + [s], rest.truncated, with, prefix)))
  {
    var m := Find(t, position).value;
    var s := Spec(t[m.start..m.end], m.index, m.code.value);
    var lead := Lead(t, position, m.start);
    var rest := Lex(t, m.end);
    LexStep(t, position);
    assert Lex(t, position).tokens == lead + ([s] + rest.tokens);
    ExpandAppend(lead, [s] + rest.tokens, before, rest.truncated, with, prefix);
    ExpandAppend([s], rest.tokens, before + lead, rest.truncated, with, prefix);
    ExpandLead(t, position, m.start, before, with, prefix);
    ExpandOne(s, before + lead, with, prefix);
  }

  /** No match is left: both sides render the tail. */
  lemma PlainLoopTail(t: string, with: Option<seq<string>>, position: nat, i: nat, before: seq<Token>)
    requires position <= |t| && Find(t, position).None?
    ensures PlainLoop(t, with, position, i)
         == Expand(Lex(t, position).tokens, before, Lex(t, position).truncated, with, [])
  {
    ExpandLead(t, position, |t|, before, with, []);
    assert Lex(t, position) == Lexed(Lead(t, position, |t|), false);
    assert t[position..|t|] == t[position..];
    assert PlainLoop(t, with, position, i) == Success(t[position..]);
    assert t[position..] == if position == |t| then [] else [] + t[position..];
  }

  /** The next match has an empty format group: both sides throw once the lead is written. */
  lemma PlainLoopStuck(t: string, with: Option<seq<string>>, position: nat, i: nat, before: seq<Token>)
    requires position <= |t| && Find(t, position).Some? && Find(t, position).value.code.None?
    ensures PlainLoop(t, with, position, i)
         == Expand(Lex(t, position).tokens, before, Lex(t, position).truncated, with, [])
  {
    var m := Find(t, position).value;
    ExpandAppend(Lead(t, position, m.start), [], before, true, with, []);
    assert Lead(t, position, m.start) + [] == Lead(t, position, m.start);
    ExpandLead(t, position, m.start, before, with, []);
  }

  /** The plain loop at a match whose format group is not empty: the lead, the piece and
      the rest, or the first exception among them. */
  lemma PlainLoopAtMatch(t: string, with: Option<seq<string>>, position: nat, i: nat)
    requires position <= |t|
    requires Find(t, position).Some? && Find(t, position).value.code.Some?
    ensures var m := Find(t, position).value;
      var code := m.code.value;
      var next := if IsArgument(code) && m.index.None? then i + 1 else i;
      var resolved := Resolve(m.index, i, with);
      var rest := PlainLoop(t, with, m.end, next);
      PlainLoop(t, with, position, i)
        == if IsArgument(code) && resolved.Failure? then Failure(resolved.error)
           else if rest.Failure? then rest
           else Success(t[position..m.start]
                        + (if IsArgument(code) then with.value[resolved.value] else if code == '%' then "%" else [])
                        + rest.value)
  {
    var m := Find(t, position).value;
    if !IsArgument(m.code.value) && m.code.value != '%' {
      var rest := PlainLoop(t, with, m.end, i);
      if rest.Success? {
        assert t[position..m.start] + [] == t[position..m.start];
      }
    }
  }

  /** One unrolling of the plain loop at a match with a format character, in terms of the
      match's token piece. */
  lemma PlainLoopUnfold(t: string, with: Option<seq<string>>, position: nat, i: nat, before: seq<Token>)
    requires position <= |t| && Sequentials(before) == i
    requires Find(t, position).Some? && Find(t, position).value.code.Some?
    ensures var m := Find(t, position).value;
      var s := Spec(t[m.start..m.end], m.index, m.code.value);
      var i' := if m.index.None? && IsArgument(m.code.value) then i + 1 else i;
      var piece := Piece(s, before + Lead(t, position, m.start), with, []);
      var rest := PlainLoop(t, with, m.end, i');
      PlainLoop(t, with, position, i) ==
        if piece.Failure? then piece
        else if rest.Failure? then rest
        else Success(t[position..m.start] + piece.value + rest.value)
  {
    var m := Find(t, position).value;
    var s := Spec(t[m.start..m.end], m.index, m.code.value);
    var lead := Lead(t, position, m.start);
    var piece := Piece(s, before + lead, with, []);
    ExpandLead(t, position, m.start, before, with, []);
    PlainLoopAtMatch(t, with, position, i);
    if IsArgument(m.code.value) {
      var r := Resolve(m.index, i, with);
      assert piece == if r.Failure? then Failure(r.error) else Success(with.value[r.value]);
    } else if m.code.value == '%' {
      assert [] + "%" == "%";
    }
  }

  /** One match with a format character: the loop's step agrees with the tokens' step. */
  lemma PlainLoopStep(t: string, with: Option<seq<string>>, position: nat, i: nat, before: seq<Token>)
    requires position <= |t| && Sequentials(before) == i
    requires Find(t, position).Some? && Find(t, position).value.code.Some?
    requires var m := Find(t, position).value;
      var s := Spec(t[m.start..m.end], m.index, m.code.value);
      var i' := if m.index.None? && IsArgument(m.code.value) then i + 1 else i;
      var after := before + Lead(t, position, m.start) + [s];
      PlainLoop(t, with, m.end, i') == Expand(Lex(t, m.end).tokens, after, Lex(t, m.end).truncated, with, [])
    ensures PlainLoop(t, with, position, i)
         == Expand(Lex(t, position).tokens, before, Lex(t, position).truncated, with, [])
  {
    var m := Find(t, position).value;
    var s := Spec(t[m.start..m.end], m.index, m.code.value);
    var lead := Lead(t, position, m.start);
    var i' := if m.index.None? && IsArgument(m.code.value) then i + 1 else i;
    ExpandStep(t, position, before, with, []);
    ThenSteps(t[position..m.start], Piece(s, before + lead, with, []), PlainLoop(t, with, m.end, i'));
    assert t[position..m.start] == if position == m.start then [] else [] + t[position..m.start];
    PlainLoopUnfold(t, with, position, i, before);
  }

  /** The plain loop renders exactly the tokens of the template: literal spans verbatim, an
      argument placeholder as the argument its explicit index names or, without one, as the
      argument numbered by the sequential placeholders before it, `%%` as `%`, and any other
      format letter as nothing; it throws exactly when the token rendering does. */
  lemma {:induction false} PlainLoopExpands(t: string, with: Option<seq<string>>, position: nat, i: nat, before: seq<Token>)
    requires position <= |t| && Sequentials(before) == i
    ensures PlainLoop(t, with, position, i)
         == Expand(Lex(t, position).tokens, before, Lex(t, position).truncated, with, [])
    decreases |t| - position
  {
    var found := Find(t, position);
    if found.None? {
      PlainLoopTail(t, with, position, i, before);
    } else if found.value.code.None? {
      PlainLoopStuck(t, with, position, i, before);
    } else {
      var m := found.value;
      var s := Spec(t[m.start..m.end], m.index, m.code.value);
      var lead := Lead(t, position, m.start);
      var i' := if m.index.None? && IsArgument(m.code.value) then i + 1 else i;
      ExpandStep(t, position, before, with, []);
      PlainLoopExpands(t, with, m.end, i', before + lead + [s]);
      PlainLoopStep(t, with, position, i, before);
    }
  }

  lemma LegacyLoopTail(t: string, with: Option<seq<string>>, format: string, position: nat, i: nat, before: seq<Token>)
    requires position <= |t| && Find(t, position).None?
    ensures LegacyLoop(t, with, format, position, i)
         == Expand(Lex(t, position).tokens, before, Lex(t, position).truncated, with, format)
  {
    ExpandLead(t, position, |t|, before, with, format);
    assert Lex(t, position) == Lexed(Lead(t, position, |t|), false);
    assert t[position..|t|] == t[position..];
    assert LegacyLoop(t, with, format, position, i) == Success(if position == |t| then [] else format + t[position..]);
  }

  lemma LegacyLoopStuck(t: string, with: Option<seq<string>>, format: string, position: nat, i: nat, before: seq<Token>)
    requires position <= |t| && Find(t, position).Some? && Find(t, position).value.code.None?
    ensures LegacyLoop(t, with, format, position, i)
         == Expand(Lex(t, position).tokens, before, Lex(t, position).truncated, with, format)
  {
    var m := Find(t, position).value;
    ExpandAppend(Lead(t, position, m.start), [], before, true, with, format);
    assert Lead(t, position, m.start) + [] == Lead(t, position, m.start);
    ExpandLead(t, position, m.start, before, with, format);
  }

  /** The legacy loop at a match whose format group is not empty: the lead after the
      format, the piece and the rest, or the first exception among them. */
  lemma LegacyLoopAtMatch(t: string, with: Option<seq<string>>, format: string, position: nat, i: nat)
    requires position <= |t|
    requires Find(t, position).Some? && Find(t, position).value.code.Some?
    ensures var m := Find(t, position).value;
      var code := m.code.value;
      var next := if IsArgument(code) && m.index.None? then i + 1 else i;
      var resolved := Resolve(m.index, i, with);
      var rest := LegacyLoop(t, with, format, m.end, next);
      var leadText := if position == m.start then [] else format + t[position..m.start];
      LegacyLoop(t, with, format, position, i)
        == if IsArgument(code) && resolved.Failure? then Failure(resolved.error)
           else if rest.Failure? then rest
           else Success(leadText
                        + (if IsArgument(code) then with.value[resolved.value] else if code == '%' then format + "%" else [])
                        + rest.value)
  {
    var m := Find(t, position).value;
    var leadText := if position == m.start then [] else format + t[position..m.start];
    var rest := LegacyLoop(t, with, format, m.end, i);
    if !IsArgument(m.code.value) && rest.Success? {
      if m.code.value == '%' {
        assert leadText + format + "%" + rest.value == leadText + (format + "%") + rest.value;
      } else {
        assert leadText + [] == leadText;
      }
    }
  }

  /** One unrolling of the legacy loop at a match with a format character, in terms of the
      match's token piece. */
  lemma LegacyLoopUnfold(t: string, with: Option<seq<string>>, format: string, position: nat, i: nat, before: seq<Token>)
    requires position <= |t| && Sequentials(before) == i
    requires Find(t, position).Some? && Find(t, position).value.code.Some?
    ensures var m := Find(t, position).value;
      var s := Spec(t[m.start..m.end], m.index, m.code.value);
      var i' := if m.index.None? && IsArgument(m.code.value) then i + 1 else i;
      var piece := Piece(s, before + Lead(t, position, m.start), with, format);
      var rest := LegacyLoop(t, with, format, m.end, i');
      var leadText := if position == m.start then [] else format + t[position..m.start];
      LegacyLoop(t, with, format, position, i) ==
        if piece.Failure? then piece
        else if rest.Failure? then rest
        else Success(leadText + piece.value + rest.value)
  {
    var m := Find(t, position).value;
    var s := Spec(t[m.start..m.end], m.index, m.code.value);
    var lead := Lead(t, position, m.start);
    var piece := Piece(s, before + lead, with, format);
    ExpandLead(t, position, m.start, before, with, format);
    LegacyLoopAtMatch(t, with, format, position, i);
    if IsArgument(m.code.value) {
      var r := Resolve(m.index, i, with);
      assert piece == if r.Failure? then Failure(r.error) else Success(with.value[r.value]);
    }
  }

  lemma LegacyLoopStep(t: string, with: Option<seq<string>>, format: string, position: nat, i: nat, before: seq<Token>)
    requires position <= |t| && Sequentials(before) == i
    requires Find(t, position).Some? && Find(t, position).value.code.Some?
    requires var m := Find(t, position).value;
      var s := Spec(t[m.start..m.end], m.index, m.code.value);
      var i' := if m.index.None? && IsArgument(m.code.value) then i + 1 else i;
      var after := before + Lead(t, position, m.start) + [s];
      LegacyLoop(t, with, format, m.end, i') == Expand(Lex(t, m.end).tokens, after, Lex(t, m.end).truncated, with, format)
    ensures LegacyLoop(t, with, format, position, i)
         == Expand(Lex(t, position).tokens, before, Lex(t, position).truncated, with, format)
  {
    var m := Find(t, position).value;
    var s := Spec(t[m.start..m.end], m.index, m.code.value);
    var lead := Lead(t, position, m.start);
    var i' := if m.index.None? && IsArgument(m.code.value) then i + 1 else i;
    ExpandStep(t, position, before, with, format);
    var leadText := if position == m.start then [] else format + t[position..m.start];
    ThenSteps(leadText, Piece(s, before + lead, with, format), LegacyLoop(t, with, format, m.end, i'));
    LegacyLoopUnfold(t, with, format, position, i, before);
  }

  /** The legacy loop renders the same tokens with the format prefix before every literal
      and every `%` of a `%%`, and never before a substituted argument. */
  lemma {:induction false} LegacyLoopExpands(t: string, with: Option<seq<string>>, format: string, position: nat, i: nat, before: seq<Token>)
    requires position <= |t| && Sequentials(before) == i
    ensures LegacyLoop(t, with, format, position, i)
         == Expand(Lex(t, position).tokens, before, Lex(t, position).truncated, with, format)
    decreases |t| - position
  {
    var found := Find(t, position);
    if found.None? {
      LegacyLoopTail(t, with, format, position, i, before);
    } else if found.value.code.None? {
      LegacyLoopStuck(t, with, format, position, i, before);
    } else {
      var m := found.value;
      var s := Spec(t[m.start..m.end], m.index, m.code.value);
      var lead := Lead(t, position, m.start);
      var i' := if m.index.None? && IsArgument(m.code.value) then i + 1 else i;
      ExpandStep(t, position, before, with, format);
      LegacyLoopExpands(t, with, format, m.end, i', before + lead + [s]);
      LegacyLoopStep(t, with, format, position, i, before);
    }
  }
}
